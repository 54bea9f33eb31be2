/** The file transactions of a commit: one function per transaction, and what each one keeps. */
module SinkTransactions {
  import opened Basics
  import opened SinkState
  import opened SinkStages

  type Drafts = map<Chain, Draft>

  function DraftAt(drafts: Drafts, c: Chain): Draft {
    if c in drafts then drafts[c] else EMPTY_DRAFT
  }

  function PutSecrets(d: Disk, drafts: Drafts): Disk {
    d.(secrets := map c | c in d.secrets.Keys + drafts.Keys :: At(d.secrets, c) + DraftAt(drafts, c).rows)
  }

  function PutSignatures(d: Disk, drafts: Drafts): Disk {
    d.(signatures := map c | c in d.signatures.Keys + drafts.Keys :: At(d.signatures, c) + DraftAt(drafts, c).sigs,
       signing := true)
  }

  function PutSources(d: Disk, drafts: Drafts): Disk {
    d.(sources := map c | c in d.sources.Keys + drafts.Keys :: At(d.sources, c) + DraftAt(drafts, c).positions)
  }

  function AppendChains(d: Disk, drafts: Drafts): Disk {
    d.(evidence := map c | c in d.evidence.Keys + drafts.Keys :: EntriesOf(d, c) + DraftAt(drafts, c).entries)
  }

  function DeleteSecrets(d: Disk, drafts: Drafts): Disk {
    d.(secrets := map c | c in d.secrets :: d.secrets[c] - DraftAt(drafts, c).rows.Keys,
       staleSecrets := d.staleSecrets + drafts.Keys)
  }

  function DeleteSignatures(d: Disk, drafts: Drafts): Disk {
    d.(signatures := map c | c in d.signatures :: d.signatures[c] - DraftAt(drafts, c).sigs.Keys)
  }

  function DeleteSources(d: Disk, drafts: Drafts): Disk {
    d.(sources := map c | c in d.sources :: DropPositions(d.sources[c], DraftAt(drafts, c).positions),
       staleSources := d.staleSources + drafts.Keys)
  }

  /** bindAll: new pairs' rows, forward and reverse together. */
  function Bind(d: Disk, fwd: map<(string, string), Chain>, rev: map<Chain, Row>): Disk {
    d.(forward := d.forward + fwd, reverse := d.reverse + rev)
  }

  function Unbind(d: Disk, fwd: map<(string, string), Chain>, rev: map<Chain, Row>): Disk {
    d.(forward := d.forward - fwd.Keys, reverse := d.reverse - rev.Keys, staleIndex := d.staleIndex + rev.Keys)
  }

  /** No clean-up of a failed call deletes anything unmarked. */
  lemma CleanUpTraced(d: Disk, drafts: Drafts, fwd: map<(string, string), Chain>, rev: map<Chain, Row>)
    ensures Traced(d, DeleteSecrets(d, drafts)) && Traced(d, DeleteSources(d, drafts))
    ensures (forall pair <- fwd :: fwd[pair] in rev && (pair in d.forward ==> d.forward[pair] == fwd[pair])) ==> Traced(d, Unbind(d, fwd, rev))
  {
    SecretsTraced(d, drafts);
    SourcesTraced(d, drafts);
    hide DeleteSecrets, DeleteSources;
  }

  lemma SecretsTraced(d: Disk, drafts: Drafts)
    ensures Traced(d, DeleteSecrets(d, drafts))
  {
  }

  lemma SourcesTraced(d: Disk, drafts: Drafts)
    ensures Traced(d, DeleteSources(d, drafts))
  {
    var d' := DeleteSources(d, drafts);
    forall c: Chain ensures At(d.sources, c).Keys <= At(d'.sources, c).Keys || c in d'.staleSources {
      if c in d.sources && c !in drafts { assert d'.sources[c] == DropPositions(d.sources[c], map[]); }
    }
  }

  ghost predicate DraftsOK(d: Disk, drafts: Drafts, origin: map<EntryId, string>, signer: bool, lo: nat, hi: nat) {
    forall c <- drafts :: DraftOK(EntriesOf(d, c), drafts[c], origin, signer, lo, hi)
  }

  /** Every draft is for a live chain of the index that has not been erased. */
  predicate ForLive(d: Disk, drafts: Drafts) {
    forall c <- drafts :: c in d.reverse && d.reverse[c].Live? && !Erased(EntriesOf(d, c))
  }

  lemma ViewPutSecrets(d: Disk, drafts: Drafts, c: Chain)
    ensures ViewOf(PutSecrets(d, drafts), c)
         == if c in drafts then WithRows(ViewOf(d, c), drafts[c]) else ViewOf(d, c)
  {
    assert At(d.secrets, c) + map[] == At(d.secrets, c);
  }

  lemma ViewPutSignatures(d: Disk, drafts: Drafts, c: Chain)
    ensures ViewOf(PutSignatures(d, drafts), c)
         == if c in drafts then WithSigs(ViewOf(d, c), drafts[c]) else ViewOf(d, c)
  {
    assert At(d.signatures, c) + map[] == At(d.signatures, c);
  }

  lemma ViewPutSources(d: Disk, drafts: Drafts, c: Chain)
    ensures ViewOf(PutSources(d, drafts), c)
         == if c in drafts then WithPositions(ViewOf(d, c), drafts[c]) else ViewOf(d, c)
  {
    assert At(d.sources, c) + map[] == At(d.sources, c);
  }

  lemma ViewAppendChains(d: Disk, drafts: Drafts, c: Chain)
    ensures ViewOf(AppendChains(d, drafts), c)
         == if c in drafts then WithEntries(ViewOf(d, c), drafts[c]) else ViewOf(d, c)
  {
    assert EntriesOf(d, c) + [] == EntriesOf(d, c);
  }

  lemma ViewDeletes(d: Disk, drafts: Drafts, c: Chain)
    ensures var v, dr := ViewOf(d, c), DraftAt(drafts, c);
            && ViewOf(DeleteSecrets(d, drafts), c) == v.(secrets := v.secrets - dr.rows.Keys)
            && ViewOf(DeleteSignatures(d, drafts), c) == v.(signatures := v.signatures - dr.sigs.Keys)
            && ViewOf(DeleteSources(d, drafts), c) == v.(sources := DropPositions(v.sources, dr.positions))
  {
    ViewDeleted(d, drafts, c);
    ViewUnsourced(d, drafts, c);
  }

  lemma ViewDeleted(d: Disk, drafts: Drafts, c: Chain)
    ensures var v, dr := ViewOf(d, c), DraftAt(drafts, c);
            && ViewOf(DeleteSecrets(d, drafts), c) == v.(secrets := v.secrets - dr.rows.Keys)
            && ViewOf(DeleteSignatures(d, drafts), c) == v.(signatures := v.signatures - dr.sigs.Keys)
  {
  }

  lemma ViewUnsourced(d: Disk, drafts: Drafts, c: Chain)
    ensures var v, dr := ViewOf(d, c), DraftAt(drafts, c);
            ViewOf(DeleteSources(d, drafts), c) == v.(sources := DropPositions(v.sources, dr.positions))
  {
  }

  lemma NoDraftNoChange(d: Disk, drafts: Drafts, c: Chain)
    requires c !in drafts
    ensures ViewOf(DeleteSecrets(d, drafts), c) == ViewOf(DeleteSignatures(d, drafts), c)
         == ViewOf(DeleteSources(d, drafts), c) == ViewOf(d, c)
  {
    var v := ViewOf(d, c);
    ViewDeletes(d, drafts, c);
    assert v.secrets - {} == v.secrets && v.signatures - {} == v.signatures;
    assert DropPositions(v.sources, map[]) == v.sources;
  }

  // ---- What each transaction keeps, for every chain ----

  lemma SecretsKeep(d: Disk, drafts: Drafts, origin: map<EntryId, string>, signer: bool, lo: nat, bound: nat)
    requires DiskCore(d, origin, bound) && DraftsOK(d, drafts, origin, signer, lo, bound)
    ensures DiskCore(PutSecrets(d, drafts), origin, bound) && DiskCore(DeleteSecrets(d, drafts), origin, bound)
  {
    forall c: Chain
      ensures Core(ViewOf(PutSecrets(d, drafts), c), d.signing, origin, bound)
      ensures Core(ViewOf(DeleteSecrets(d, drafts), c), d.signing, origin, bound)
    {
      SecretsKeepChain(d, drafts, c, origin, signer, lo, bound);
    }
  }

  lemma SecretsKeepChain(d: Disk, drafts: Drafts, c: Chain, origin: map<EntryId, string>, signer: bool, lo: nat, bound: nat)
    requires Core(ViewOf(d, c), d.signing, origin, bound) && DraftsOK(d, drafts, origin, signer, lo, bound)
    ensures Core(ViewOf(PutSecrets(d, drafts), c), d.signing, origin, bound)
    ensures Core(ViewOf(DeleteSecrets(d, drafts), c), d.signing, origin, bound)
  {
    hide Core, DraftOK, PutSecrets, DeleteSecrets;
    ViewPutSecrets(d, drafts, c);
    if c in drafts {
      ViewDeletes(d, drafts, c);
      RowsKeep(ViewOf(d, c), drafts[c], d.signing, origin, signer, lo, bound);
    } else {
      NoDraftNoChange(d, drafts, c);
    }
  }

  lemma SignaturesKeep(d: Disk, drafts: Drafts, origin: map<EntryId, string>, signer: bool, lo: nat, bound: nat)
    requires DiskCore(d, origin, bound) && DraftsOK(d, drafts, origin, signer, lo, bound)
    requires d.signing || forall c :: EntriesOf(d, c) == []
    ensures DiskCore(PutSignatures(d, drafts), origin, bound) && DiskCore(DeleteSignatures(d, drafts), origin, bound)
  {
    forall c: Chain
      ensures Core(ViewOf(PutSignatures(d, drafts), c), true, origin, bound)
      ensures Core(ViewOf(DeleteSignatures(d, drafts), c), d.signing, origin, bound)
    {
      SignaturesKeepChain(d, drafts, c, origin, signer, lo, bound);
    }
  }

  lemma SignaturesKeepChain(d: Disk, drafts: Drafts, c: Chain, origin: map<EntryId, string>, signer: bool, lo: nat, bound: nat)
    requires Core(ViewOf(d, c), d.signing, origin, bound) && DraftsOK(d, drafts, origin, signer, lo, bound)
    requires d.signing || EntriesOf(d, c) == []
    ensures Core(ViewOf(PutSignatures(d, drafts), c), true, origin, bound)
    ensures Core(ViewOf(DeleteSignatures(d, drafts), c), d.signing, origin, bound)
  {
    assert Core(ViewOf(d, c), true, origin, bound);
    hide Core, DraftOK, PutSignatures, DeleteSignatures;
    ViewPutSignatures(d, drafts, c);
    if c in drafts {
      ViewDeletes(d, drafts, c);
      SigsKeep(ViewOf(d, c), drafts[c], true, origin, signer, lo, bound);
      SigsKeep(ViewOf(d, c), drafts[c], d.signing, origin, signer, lo, bound);
    } else {
      NoDraftNoChange(d, drafts, c);
    }
  }

  lemma SourcesKeep(d: Disk, drafts: Drafts, origin: map<EntryId, string>, signer: bool, lo: nat, bound: nat)
    requires DiskCore(d, origin, bound) && DraftsOK(d, drafts, origin, signer, lo, bound)
    ensures DiskCore(PutSources(d, drafts), origin, bound) && DiskCore(DeleteSources(d, drafts), origin, bound)
  {
    forall c: Chain
      ensures Core(ViewOf(PutSources(d, drafts), c), d.signing, origin, bound)
      ensures Core(ViewOf(DeleteSources(d, drafts), c), d.signing, origin, bound)
    {
      SourcesKeepChain(d, drafts, c, origin, signer, lo, bound);
    }
  }

  lemma SourcesKeepChain(d: Disk, drafts: Drafts, c: Chain, origin: map<EntryId, string>, signer: bool, lo: nat, bound: nat)
    requires Core(ViewOf(d, c), d.signing, origin, bound) && DraftsOK(d, drafts, origin, signer, lo, bound)
    ensures Core(ViewOf(PutSources(d, drafts), c), d.signing, origin, bound)
    ensures Core(ViewOf(DeleteSources(d, drafts), c), d.signing, origin, bound)
  {
    hide Core, DraftOK, PutSources, DeleteSources;
    ViewPutSources(d, drafts, c);
    if c in drafts {
      ViewDeletes(d, drafts, c);
      PositionsKeep(ViewOf(d, c), drafts[c], d.signing, origin, signer, lo, bound);
    } else {
      NoDraftNoChange(d, drafts, c);
    }
  }

  predicate AllStaged(d: Disk, drafts: Drafts) {
    forall c <- drafts :: Staged(ViewOf(d, c), drafts[c])
  }

  /** The commit point: every chain's entries at once. */
  lemma AppendKeepsAll(d: Disk, drafts: Drafts, origin: map<EntryId, string>, signer: bool, lo: nat, bound: nat)
    requires DiskCore(d, origin, bound) && DraftsOK(d, drafts, origin, signer, lo, bound)
    requires AllStaged(d, drafts) && ForLive(d, drafts) && (d.signing ==> signer)
    ensures DiskCore(AppendChains(d, drafts), origin, bound)
    ensures ForLive(AppendChains(d, drafts), drafts)
  {
    forall c: Chain
      ensures Core(ViewOf(AppendChains(d, drafts), c), d.signing, origin, bound)
      ensures c in drafts ==> !Erased(EntriesOf(AppendChains(d, drafts), c))
    {
      hide Core, DraftOK, Staged, Erased, AppendChains;
      ViewAppendChains(d, drafts, c);
      if c in drafts {
        AppendKeeps(ViewOf(d, c), drafts[c], d.signing, origin, signer, lo, bound);
      }
    }
  }

  /** Nothing a transaction does to bound chains can make the folder untidy. */
  lemma TidyElsewhere(d: Disk, d': Disk, touched: set<Chain>)
    requires DiskTidy(d) && d'.reverse == d.reverse && touched <= d.reverse.Keys
    requires forall c: Chain :: c !in touched ==> ViewOf(d', c) == ViewOf(d, c)
    ensures DiskTidy(d')
  {
  }

  /** The rows of a draft are all its transactions touch. */
  lemma Untouched(d: Disk, drafts: Drafts)
    ensures forall c: Chain :: c !in drafts ==>
              ViewOf(PutSecrets(d, drafts), c) == ViewOf(PutSignatures(d, drafts), c)
              == ViewOf(PutSources(d, drafts), c) == ViewOf(AppendChains(d, drafts), c) == ViewOf(d, c)
    ensures forall c: Chain :: c !in drafts ==>
              ViewOf(DeleteSecrets(d, drafts), c) == ViewOf(DeleteSignatures(d, drafts), c)
              == ViewOf(DeleteSources(d, drafts), c) == ViewOf(d, c)
  {
    forall c: Chain | c !in drafts
      ensures ViewOf(PutSecrets(d, drafts), c) == ViewOf(PutSignatures(d, drafts), c)
           == ViewOf(PutSources(d, drafts), c) == ViewOf(AppendChains(d, drafts), c) == ViewOf(d, c)
      ensures ViewOf(DeleteSecrets(d, drafts), c) == ViewOf(DeleteSignatures(d, drafts), c)
           == ViewOf(DeleteSources(d, drafts), c) == ViewOf(d, c)
    {
      hide *;
      ViewPutSecrets(d, drafts, c);
      ViewPutSignatures(d, drafts, c);
      ViewPutSources(d, drafts, c);
      ViewAppendChains(d, drafts, c);
      NoDraftNoChange(d, drafts, c);
    }
  }

  // ---- The index ----

  predicate AllLive(rev: map<Chain, Row>) {
    forall c <- rev :: rev[c].Live?
  }

  lemma BindIndex(d: Disk, fwd: map<(string, string), Chain>, rev: map<Chain, Row>)
    requires IndexOK(d.forward, d.reverse) && IndexOK(fwd, rev) && AllLive(rev)
    requires fwd.Keys !! d.forward.Keys && rev.Keys !! d.reverse.Keys
    ensures IndexOK(Bind(d, fwd, rev).forward, Bind(d, fwd, rev).reverse)
  {
  }

  lemma UnbindIndex(d: Disk, fwd: map<(string, string), Chain>, rev: map<Chain, Row>)
    requires IndexOK(d.forward, d.reverse) && IndexOK(fwd, rev) && AllLive(rev)
    requires (forall p <- fwd :: p in d.forward && d.forward[p] == fwd[p])
    requires (forall c <- rev :: c in d.reverse && d.reverse[c] == rev[c])
    ensures IndexOK(Unbind(d, fwd, rev).forward, Unbind(d, fwd, rev).reverse)
  {
  }

  lemma IndexOnly(d: Disk, d': Disk, origin: map<EntryId, string>, bound: nat)
    requires DiskCore(d, origin, bound) && IndexOK(d'.forward, d'.reverse)
    requires d' == d.(forward := d'.forward, reverse := d'.reverse, staleIndex := d'.staleIndex)
    ensures DiskCore(d', origin, bound) && forall c :: ViewOf(d', c) == ViewOf(d, c)
  {
    assert forall c :: ViewOf(d', c) == ViewOf(d, c);
  }

  lemma BindTidy(d: Disk, fwd: map<(string, string), Chain>, rev: map<Chain, Row>)
    requires DiskTidy(d)
    ensures DiskTidy(Bind(d, fwd, rev))
  {
    forall c: Chain
      ensures Tidy(ViewOf(Bind(d, fwd, rev), c), RowOf(Bind(d, fwd, rev), c))
    {
      assert ViewOf(Bind(d, fwd, rev), c) == ViewOf(d, c);
      assert Tidy(ViewOf(d, c), RowOf(d, c));
    }
  }

  /** Taking back a failed call's rows is tidy exactly when nothing is left on the chains it bound. */
  lemma UnbindTidy(d: Disk, fwd: map<(string, string), Chain>, rev: map<Chain, Row>)
    requires DiskTidy(d) && rev.Keys <= d.reverse.Keys
    ensures DiskTidy(Unbind(d, fwd, rev)) <==> forall c <- rev :: Tidy(ViewOf(d, c), None)
  {
    var u := Unbind(d, fwd, rev);
    forall c: Chain
      ensures ViewOf(u, c) == ViewOf(d, c) && RowOf(u, c) == if c in rev then None else RowOf(d, c)
    {
    }
    if forall c <- rev :: Tidy(ViewOf(d, c), None) {
      forall c: Chain ensures Tidy(ViewOf(u, c), RowOf(u, c)) {
        assert Tidy(ViewOf(d, c), RowOf(d, c));
      }
    }
    if DiskTidy(u) {
      forall c | c in rev ensures Tidy(ViewOf(d, c), None) {
        assert Tidy(ViewOf(u, c), RowOf(u, c));
      }
    }
  }

  // ---- What a failed call leaves behind ----

  predicate SubMap<K, V(==)>(m: map<K, V>, n: map<K, V>) {
    forall k <- m :: k in n && m[k] == n[k]
  }

  /** Apart from the draft's own rows, one chain holds what it held: a source position may be gone. */
  predicate SameBut(v0: View, v: View, dr: Draft) {
    v.secrets - dr.rows.Keys == v0.secrets && v.signatures - dr.sigs.Keys == v0.signatures
    && SubMap(DropPositions(v.sources, dr.positions), v0.sources)
  }

  ghost predicate AllSameBut(d0: Disk, d: Disk, drafts: Drafts) {
    forall c :: SameBut(ViewOf(d0, c), ViewOf(d, c), DraftAt(drafts, c))
  }

  /** Nothing new: the same secrets and signatures, and no source position that was not there. */
  ghost predicate NothingNew(d0: Disk, d: Disk) {
    forall c :: ViewOf(d, c).secrets == ViewOf(d0, c).secrets && ViewOf(d, c).signatures == ViewOf(d0, c).signatures
                && SubMap(ViewOf(d, c).sources, ViewOf(d0, c).sources)
  }

  lemma SameButStart(d: Disk, drafts: Drafts, origin: map<EntryId, string>, signer: bool, lo: nat, hi: nat)
    requires DraftsOK(d, drafts, origin, signer, lo, hi) && forall c :: IdsBelow(ViewOf(d, c), lo)
    ensures AllSameBut(d, d, drafts)
  {
    hide SameBut, DraftOK, IdsBelow;
    forall c: Chain ensures SameBut(ViewOf(d, c), ViewOf(d, c), DraftAt(drafts, c)) {
      var v, dr := ViewOf(d, c), DraftAt(drafts, c);
      assert IdsBelow(v, lo);
      if c in drafts { DraftKeys(v.entries, dr, origin, signer, lo, hi); }
      NoneOfDraft(v, dr, lo);
    }
  }

  lemma NoneOfDraft(v: View, dr: Draft, lo: nat)
    requires IdsBelow(v, lo) && (forall id <- dr.rows :: lo <= id) && forall id <- dr.sigs :: lo <= id
    ensures SameBut(v, v, dr)
  {
    assert v.secrets - dr.rows.Keys == v.secrets && v.signatures - dr.sigs.Keys == v.signatures;
  }

  lemma SameButStages(v0: View, v: View, dr: Draft)
    requires SameBut(v0, v, dr)
    ensures SameBut(v0, WithRows(v, dr), dr) && SameBut(v0, WithSigs(v, dr), dr) && SameBut(v0, WithPositions(v, dr), dr)
    ensures SameBut(v0, v.(secrets := v.secrets - dr.rows.Keys), dr)
    ensures SameBut(v0, v.(signatures := v.signatures - dr.sigs.Keys), dr)
    ensures SameBut(v0, v.(sources := DropPositions(v.sources, dr.positions)), dr)
  {
    assert v.secrets + dr.rows - dr.rows.Keys == v.secrets - dr.rows.Keys;
    assert v.secrets - dr.rows.Keys - dr.rows.Keys == v.secrets - dr.rows.Keys;
    assert v.signatures + dr.sigs - dr.sigs.Keys == v.signatures - dr.sigs.Keys;
    assert v.signatures - dr.sigs.Keys - dr.sigs.Keys == v.signatures - dr.sigs.Keys;
  }

  lemma SameButKeeps(d0: Disk, d: Disk, drafts: Drafts)
    requires AllSameBut(d0, d, drafts)
    ensures AllSameBut(d0, PutSecrets(d, drafts), drafts) && AllSameBut(d0, PutSignatures(d, drafts), drafts)
    ensures AllSameBut(d0, PutSources(d, drafts), drafts) && AllSameBut(d0, DeleteSecrets(d, drafts), drafts)
    ensures AllSameBut(d0, DeleteSignatures(d, drafts), drafts) && AllSameBut(d0, DeleteSources(d, drafts), drafts)
  {
    forall c: Chain
      ensures SameBut(ViewOf(d0, c), ViewOf(PutSecrets(d, drafts), c), DraftAt(drafts, c))
      ensures SameBut(ViewOf(d0, c), ViewOf(PutSignatures(d, drafts), c), DraftAt(drafts, c))
      ensures SameBut(ViewOf(d0, c), ViewOf(PutSources(d, drafts), c), DraftAt(drafts, c))
      ensures SameBut(ViewOf(d0, c), ViewOf(DeleteSecrets(d, drafts), c), DraftAt(drafts, c))
      ensures SameBut(ViewOf(d0, c), ViewOf(DeleteSignatures(d, drafts), c), DraftAt(drafts, c))
      ensures SameBut(ViewOf(d0, c), ViewOf(DeleteSources(d, drafts), c), DraftAt(drafts, c))
    {
      assert SameBut(ViewOf(d0, c), ViewOf(d, c), DraftAt(drafts, c));
      hide SameBut, PutSecrets, PutSignatures, PutSources, DeleteSecrets, DeleteSignatures, DeleteSources, DropPositions;
      ViewPutSecrets(d, drafts, c);
      ViewPutSignatures(d, drafts, c);
      ViewPutSources(d, drafts, c);
      ViewDeletes(d, drafts, c);
      SameButStages(ViewOf(d0, c), ViewOf(d, c), DraftAt(drafts, c));
    }
  }

  /** The three deletes of a failed call's clean-up; two of them only where there is something to delete. */
  function CleanUp(d: Disk, drafts: Drafts, signer: bool, positions: bool): Disk {
    var a := DeleteSecrets(d, drafts);
    var b := if signer then DeleteSignatures(a, drafts) else a;
    if positions then DeleteSources(b, drafts) else b
  }

  lemma ViewCleanUp(d: Disk, drafts: Drafts, signer: bool, positions: bool, c: Chain)
    ensures var v, dr := ViewOf(d, c), DraftAt(drafts, c);
            ViewOf(CleanUp(d, drafts, signer, positions), c)
            == v.(secrets := v.secrets - dr.rows.Keys,
                  signatures := if signer then v.signatures - dr.sigs.Keys else v.signatures,
                  sources := if positions then DropPositions(v.sources, dr.positions) else v.sources)
  {
    var a := DeleteSecrets(d, drafts);
    var b := if signer then DeleteSignatures(a, drafts) else a;
    hide DeleteSecrets, DeleteSignatures, DeleteSources, DropPositions;
    ViewDeletes(d, drafts, c);
    ViewDeletes(a, drafts, c);
    ViewDeletes(b, drafts, c);
  }

  lemma CleanView(v0: View, v: View, dr: Draft, signer: bool, positions: bool)
    requires SameBut(v0, v, dr) && (signer || dr.sigs == map[]) && (positions || dr.positions == map[])
    ensures (if signer then v.signatures - dr.sigs.Keys else v.signatures) == v0.signatures
    ensures SubMap(if positions then DropPositions(v.sources, dr.positions) else v.sources, v0.sources)
  {
    if !signer { assert v.signatures - {} == v.signatures; }
    if !positions { assert DropPositions(v.sources, map[]) == v.sources; }
  }

  /** After the clean-up nothing of the draft is left. */
  lemma CleanedUp(d0: Disk, d: Disk, drafts: Drafts, signer: bool, positions: bool)
    requires AllSameBut(d0, d, drafts)
    requires forall c :: (signer || DraftAt(drafts, c).sigs == map[]) && (positions || DraftAt(drafts, c).positions == map[])
    ensures NothingNew(d0, CleanUp(d, drafts, signer, positions))
  {
    forall c: Chain
      ensures var w := ViewOf(CleanUp(d, drafts, signer, positions), c);
              w.secrets == ViewOf(d0, c).secrets && w.signatures == ViewOf(d0, c).signatures
              && SubMap(w.sources, ViewOf(d0, c).sources)
    {
      assert SameBut(ViewOf(d0, c), ViewOf(d, c), DraftAt(drafts, c));
      hide CleanUp, ViewOf, SubMap, DraftAt, DropPositions;
      ViewCleanUp(d, drafts, signer, positions, c);
      CleanView(ViewOf(d0, c), ViewOf(d, c), DraftAt(drafts, c), signer, positions);
    }
  }

  /** And the index as it was. */
  ghost predicate NothingLeft(d0: Disk, d: Disk) {
    NothingNew(d0, d) && d.forward == d0.forward && d.reverse == d0.reverse
  }

  ghost predicate SameSecrets(d0: Disk, d: Disk) {
    forall c :: ViewOf(d, c).secrets == ViewOf(d0, c).secrets
  }

  /** A clean failure leaves nothing new, unless its content write landed late: then that content stays. */
  ghost predicate Cleaned(d0: Disk, d: Disk, late: bool) {
    if late then !SameSecrets(d0, d) else NothingNew(d0, d)
  }

  // ---- Chains a call has nothing for ----

  /** The chain holds what it held: a source position may be gone. */
  predicate Behind(v0: View, v: View) {
    v.entries == v0.entries && v.secrets == v0.secrets && SubMap(v.sources, v0.sources)
  }

  ghost predicate Beside(d0: Disk, d: Disk, chains: set<Chain>) {
    forall c :: c in chains || Behind(ViewOf(d0, c), ViewOf(d, c))
  }

  lemma BesideSame(d0: Disk, d: Disk, drafts: Drafts)
    requires AllSameBut(d0, d, drafts) && d.evidence == d0.evidence
    ensures Beside(d0, d, drafts.Keys)
  {
    forall c | c !in drafts ensures Behind(ViewOf(d0, c), ViewOf(d, c)) {
      var v0, v := ViewOf(d0, c), ViewOf(d, c);
      assert SameBut(v0, v, EMPTY_DRAFT);
      assert v.secrets - {} == v.secrets && DropPositions(v.sources, map[]) == v.sources;
    }
  }

  lemma BesideNext(d0: Disk, d: Disk, d': Disk, chains: set<Chain>)
    requires Beside(d0, d, chains) && forall c: Chain :: c !in chains ==> ViewOf(d', c) == ViewOf(d, c)
    ensures Beside(d0, d', chains)
  {
    hide Behind, ViewOf;
  }

  lemma BesideMore(d0: Disk, d: Disk, chains: set<Chain>, more: set<Chain>)
    requires Beside(d0, d, chains) && chains <= more
    ensures Beside(d0, d, more)
  {
    hide Behind, ViewOf;
  }

  /** What a failed call put back and took away: entries as they were, and no secret of a chain either. */
  lemma BesideNothing(d0: Disk, d: Disk)
    requires NothingNew(d0, d) && d.evidence == d0.evidence
    ensures Beside(d0, d, {})
  {
    forall c: Chain ensures Behind(ViewOf(d0, c), ViewOf(d, c)) {
      assert EntriesOf(d, c) == EntriesOf(d0, c);
    }
  }

  /** A chain that is accounted for stays so while it holds what it held. */
  lemma StillAccounted(d0: Disk, d: Disk, c: Chain)
    requires Accounted(d0, c) && c !in d0.reverse && Behind(ViewOf(d0, c), ViewOf(d, c))
    ensures Accounted(d, c)
  {
    var v0, v := ViewOf(d0, c), ViewOf(d, c);
    assert v.entries == EntriesOf(d, c) && v0.entries == EntriesOf(d0, c);
  }

  /** And all of them do while the index's chains stay in it, or hold no entry. */
  lemma AccountedStays(d0: Disk, d: Disk)
    requires AllAccounted(d0) && Beside(d0, d, d0.reverse.Keys)
    requires forall c <- d0.reverse :: c in d.reverse || EntriesOf(d, c) == []
    ensures AllAccounted(d)
  {
    hide Behind;
    forall c: Chain ensures Accounted(d, c) {
      if c !in d0.reverse {
        assert Accounted(d0, c);
        StillAccounted(d0, d, c);
      }
    }
  }
}
