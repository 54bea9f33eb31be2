/** The file transactions of an erasure, and what each one keeps. */
module SinkErasure {
  import opened Basics
  import opened SinkState
  import opened SinkStages

  // ---- Ids and sources drawn later change nothing about what is on disk ----

  predicate OriginBelow(origin: map<EntryId, string>, bound: nat) {
    forall id <- origin :: id < bound
  }

  /** More ids were drawn: nothing changed for those drawn before. */
  predicate Grows(origin: map<EntryId, string>, bound: nat, origin': map<EntryId, string>, bound': nat) {
    bound <= bound' && (forall id <- origin :: id in origin' && origin'[id] == origin[id])
    && (forall id <- origin' :: id < bound ==> id in origin)
  }

  lemma SourcesGrow(entries: seq<Entry>, origin: map<EntryId, string>, bound: nat, origin': map<EntryId, string>, bound': nat)
    requires Grows(origin, bound, origin', bound') && forall e <- entries :: e.id < bound
    ensures forall e <- entries :: SourceOf(origin', e.id) == SourceOf(origin, e.id)
    ensures OncePerSource(entries, origin) ==> OncePerSource(entries, origin')
  {
  }

  lemma LocatedGrows(entries: seq<Entry>, sources: map<string, Position>,
                     origin: map<EntryId, string>, bound: nat, origin': map<EntryId, string>, bound': nat)
    requires Located(entries, sources, origin) && Grows(origin, bound, origin', bound')
    requires forall e <- entries :: e.id < bound
    ensures Located(entries, sources, origin')
  {
  }

  lemma CoreGrows(v: View, signing: bool, origin: map<EntryId, string>, bound: nat, origin': map<EntryId, string>, bound': nat)
    requires Core(v, signing, origin, bound) && Grows(origin, bound, origin', bound')
    ensures Core(v, signing, origin', bound')
  {
    hide Shaped, DistinctIds, Openable, FullySigned, OncePerSource, Located;
    SourcesGrow(v.entries, origin, bound, origin', bound');
    LocatedGrows(v.entries, v.sources, origin, bound, origin', bound');
  }

  lemma DraftGrows(entries: seq<Entry>, dr: Draft, origin: map<EntryId, string>, signer: bool, lo: nat, bound: nat,
                   origin': map<EntryId, string>, bound': nat)
    requires DraftOK(entries, dr, origin, signer, lo, bound) && Grows(origin, bound, origin', bound')
    requires forall e <- entries :: e.id < bound
    ensures DraftOK(entries, dr, origin', signer, lo, bound')
  {
    hide DraftEvents, DraftRows, DraftSigned, Erased;
    SourcesGrow(entries, origin, bound, origin', bound');
    DraftLocatedGrows(dr, |entries|, origin, bound, origin', bound');
  }

  lemma DraftLocatedGrows(dr: Draft, n: nat, origin: map<EntryId, string>, bound: nat, origin': map<EntryId, string>, bound': nat)
    requires DraftLocated(dr, n, origin) && Grows(origin, bound, origin', bound')
    requires forall e <- dr.entries :: e.id < bound
    ensures DraftLocated(dr, n, origin')
  {
    SourcesGrow(dr.entries, origin, bound, origin', bound');
    forall s | s in dr.positions ensures HasSource(dr.entries, origin', s) {
      var e :| e in dr.entries && SourceOf(origin, e.id) == s;
    }
  }

  // ---- The erasure of one chain ----

  predicate Unused(v: View, id: EntryId) {
    forall e <- v.entries :: e.id != id
  }

  /** The record row of an erasure entry not on the chain yet, written or taken back. */
  lemma RecordKeeps(v: View, id: EntryId, record: string, signing: bool, origin: map<EntryId, string>, bound: nat)
    requires Core(v, signing, origin, bound) && Unused(v, id) && id < bound
    ensures Core(v.(secrets := v.secrets[id := Secret(record, None)]), signing, origin, bound)
    ensures Core(v.(secrets := v.secrets - {id}), signing, origin, bound)
  {
    hide Shaped, DistinctIds, FullySigned, OncePerSource, Located, Truthful, Openable;
    assert v.secrets[id := Secret(record, None)] == v.secrets + map[id := Secret(record, None)];
    assert map[id := Secret(record, None)].Keys == {id};
    OpenableMore(v.entries, v.secrets, map[id := Secret(record, None)]);
  }

  lemma SignatureKeeps(v: View, id: EntryId, s: Signed, signing: bool, origin: map<EntryId, string>, bound: nat)
    requires Core(v, signing, origin, bound) && Unused(v, id) && id < bound
    ensures Core(v.(signatures := v.signatures[id := s]), signing, origin, bound)
    ensures Core(v.(signatures := v.signatures - {id}), signing, origin, bound)
  {
    hide Shaped, DistinctIds, OncePerSource, Located, Truthful, Openable, FullySigned;
    assert v.signatures[id := s] == v.signatures + map[id := s];
    assert map[id := s].Keys == {id};
    if signing { SignedMore(v.entries, v.signatures, map[id := s]); }
  }

  /** The erasure entry on the record: from here on nothing of the chain has to open. */
  lemma ErasureKeeps(v: View, id: EntryId, signing: bool, origin: map<EntryId, string>, bound: nat)
    requires Core(v, signing, origin, bound) && Unused(v, id) && id < bound && SourceOf(origin, id) == ""
    requires v.entries != [] && !Erased(v.entries)
    requires id in v.secrets && v.secrets[id] == Secret(ErasureRecord(|v.entries| - 1), None)
    requires var e := ErasureEntry(id, |v.entries| - 1);
             signing ==> id in v.signatures && v.signatures[id] == Signed(Erasure, |v.entries|, e.hash)
    ensures var e := ErasureEntry(id, |v.entries| - 1);
            Erased(v.entries + [e]) && Core(v.(entries := v.entries + [e]), signing, origin, bound)
  {
    var e := ErasureEntry(id, |v.entries| - 1);
    var all := v.entries + [e];
    assert Erased(all) && Shaped(all) by { hide ErasureRecord; ErasureShaped(v.entries, e); }
    hide Erased, Shaped, ErasureRecord;
    assert DistinctIds(all);
    if signing { SignedAppend(v.entries, [e], v.signatures); }
    OnceAppend(v.entries, [e], origin);
  }

  lemma ErasureShaped(entries: seq<Entry>, e: Entry)
    requires Shaped(entries) && entries != [] && !Erased(entries)
    requires e.kind == Erasure && e.hash == ErasureHash(ErasureRecord(|entries| - 1))
    ensures Erased(entries + [e]) && Shaped(entries + [e])
  {
  }

  /** The one erasure record of a chain, by its entry id. */
  function Records(entries: seq<Entry>): map<EntryId, Secret> {
    if Erased(entries) then map[entries[|entries| - 1].id := Secret(ErasureRecord(|entries| - 2), None)] else map[]
  }

  function OnlyKept(secrets: map<EntryId, Secret>, keep: map<EntryId, Secret>): map<EntryId, Secret> {
    map id | id in secrets && id in keep && secrets[id] == keep[id] :: keep[id]
  }

  /** With the erasure on the record, or no entries at all, content, nonces and positions can go. */
  lemma WipeKeeps(v: View, signing: bool, origin: map<EntryId, string>, bound: nat)
    requires Core(v, signing, origin, bound) && (v.entries == [] || Erased(v.entries))
    ensures OnlyKept(v.secrets, Records(v.entries)) == Records(v.entries)
    ensures Core(v.(secrets := Records(v.entries)), signing, origin, bound)
    ensures Core(v.(sources := map[]), signing, origin, bound)
    ensures v.entries == [] ==> Core(v.(signatures := map[]), signing, origin, bound)
    ensures Tidy(v.(secrets := Records(v.entries), sources := map[]), None)
  {
    hide Shaped, DistinctIds;
  }

  /** The events since the last erasure, and what eraseChain's one pass over a chain finds. */
  method ScanChain(entries: seq<Entry>) returns (events: nat, lastWasErasure: bool, keep: map<EntryId, Secret>)
    ensures lastWasErasure == Erased(entries)
    ensures Shaped(entries) ==> keep == Records(entries) && events == if lastWasErasure then 0 else |entries|
  {
    hide ErasureRecord;
    events, lastWasErasure, keep := 0, false, map[];
    var seen := 0;
    while seen < |entries|
      invariant 0 <= seen <= |entries|
      invariant lastWasErasure == Erased(entries[..seen])
      invariant Shaped(entries) ==> keep == Records(entries[..seen]) && events == if lastWasErasure then 0 else seen
    {
      var e := entries[seen];
      var genuine := false;
      if seen > 0 && e.kind == Erasure {
        var record := ErasureRecord(seen - 1);
        if e.hash == ErasureHash(record) {
          genuine := true;
          keep := keep[e.id := Secret(record, None)];
        }
      }
      ScanStep(entries, seen, genuine);
      seen := seen + 1;
      lastWasErasure := genuine;
      if genuine { events := 0; } else { events := events + 1; }
    }
    assert entries[..seen] == entries;
  }

  lemma ScanStep(entries: seq<Entry>, seen: nat, genuine: bool)
    requires seen < |entries|
    requires genuine == (seen > 0 && entries[seen].kind == Erasure
                         && entries[seen].hash == ErasureHash(ErasureRecord(seen - 1)))
    ensures Erased(entries[..seen + 1]) == genuine
    ensures genuine ==> Records(entries[..seen + 1]) == map[entries[seen].id := Secret(ErasureRecord(seen - 1), None)]
    ensures Shaped(entries) ==> !Erased(entries[..seen])
  {
    hide ErasureRecord;
    assert entries[..seen + 1][seen] == entries[seen];
    if Shaped(entries) && seen >= 2 {
      assert entries[..seen][seen - 1] == entries[seen - 1];
    }
  }

  // ---- Transactions on one chain ----

  function PutRow(d: Disk, c: Chain, id: EntryId, record: string): Disk {
    d.(secrets := d.secrets[c := At(d.secrets, c)[id := Secret(record, None)]])
  }

  function DeleteRow(d: Disk, c: Chain, id: EntryId): Disk {
    d.(secrets := d.secrets[c := At(d.secrets, c) - {id}], staleSecrets := d.staleSecrets + {c})
  }

  function PutSignature(d: Disk, c: Chain, id: EntryId, s: Signed): Disk {
    d.(signatures := d.signatures[c := At(d.signatures, c)[id := s]], signing := true)
  }

  function DeleteSignature(d: Disk, c: Chain, id: EntryId): Disk {
    d.(signatures := d.signatures[c := At(d.signatures, c) - {id}])
  }

  function AppendErasure(d: Disk, c: Chain, id: EntryId): Disk
    requires EntriesOf(d, c) != []
  {
    d.(evidence := d.evidence[c := EntriesOf(d, c) + [ErasureEntry(id, |EntriesOf(d, c)| - 1)]])
  }

  /** secretsStore.eraseChain: a row stays only while it holds exactly the record it must hold. */
  function WipeSecrets(d: Disk, c: Chain, keep: map<EntryId, Secret>): Disk {
    d.(secrets := d.secrets[c := OnlyKept(At(d.secrets, c), keep)], staleSecrets := d.staleSecrets + {c})
  }

  function WipeSources(d: Disk, c: Chain): Disk {
    d.(sources := d.sources[c := map[]], staleSources := d.staleSources + {c})
  }

  function WipeSignatures(d: Disk, c: Chain): Disk {
    d.(signatures := d.signatures[c := map[]])
  }

  /** No delete on a chain goes unmarked. */
  lemma DeletesTraced(d: Disk, c: Chain, id: EntryId, keep: map<EntryId, Secret>)
    ensures Traced(d, DeleteRow(d, c, id)) && Traced(d, WipeSecrets(d, c, keep)) && Traced(d, WipeSources(d, c))
  {
    hide OnlyKept;
  }

  /** And nothing else there deletes. */
  lemma WritesTraced(d: Disk, c: Chain, id: EntryId, record: string, s: Signed)
    ensures Traced(d, PutRow(d, c, id, record)) && Traced(d, PutSignature(d, c, id, s)) && Traced(d, DeleteSignature(d, c, id))
    ensures Traced(d, WipeSignatures(d, c)) && (EntriesOf(d, c) != [] ==> Traced(d, AppendErasure(d, c, id)))
  {
    RowTraced(d, c, id, record);
    SameTraced(d, PutSignature(d, c, id, s));
    SameTraced(d, DeleteSignature(d, c, id));
    SameTraced(d, WipeSignatures(d, c));
    if EntriesOf(d, c) != [] { SameTraced(d, AppendErasure(d, c, id)); }
    hide *;
  }

  lemma RowTraced(d: Disk, c: Chain, id: EntryId, record: string)
    ensures Traced(d, PutRow(d, c, id, record))
  {
  }

  lemma SameTraced(d: Disk, d': Disk)
    requires d'.secrets == d.secrets && d'.sources == d.sources && d'.forward == d.forward
    requires d'.staleSecrets == d.staleSecrets && d'.staleSources == d.staleSources && d'.staleIndex == d.staleIndex
    ensures Traced(d, d')
  {
  }

  /** No row of the index goes unmarked. */
  lemma ForgetsTraced(d: Disk, subject: string, class_: Option<string>, c: Chain)
    requires IndexOK(d.forward, d.reverse)
    ensures Traced(d, Forget(d, subject, class_)) && (c in d.reverse && d.reverse[c].Live? ==> Traced(d, ForgetChain(d, c)))
  {
  }

  /** One chain changed, and the index did not. */
  lemma OneChain(d: Disk, d': Disk, c: Chain, origin: map<EntryId, string>, bound: nat)
    requires DiskCore(d, origin, bound) && Core(ViewOf(d', c), d'.signing, origin, bound)
    requires d'.forward == d.forward && d'.reverse == d.reverse && (d'.signing == d.signing || forall x :: EntriesOf(d', x) == [])
    requires forall x: Chain :: x != c ==> ViewOf(d', x) == ViewOf(d, x)
    ensures DiskCore(d', origin, bound)
    ensures DiskTidy(d) && c in d.reverse ==> DiskTidy(d')
  {
    forall x: Chain ensures Core(ViewOf(d', x), d'.signing, origin, bound) {
      assert Core(ViewOf(d, x), d.signing, origin, bound);
      if d'.signing != d.signing {
        assert FullySigned(ViewOf(d', x).entries, ViewOf(d', x).signatures);
      }
    }
    if DiskTidy(d) && c in d.reverse {
      forall x: Chain ensures Tidy(ViewOf(d', x), RowOf(d', x)) {
        assert Tidy(ViewOf(d, x), RowOf(d, x));
      }
    }
  }

  // ---- The index ----

  predicate InScope(pair: (string, string), subject: string, class_: Option<string>) {
    pair.0 == subject && (class_.None? || pair.1 == class_.value)
  }

  function ChainsOf(d: Disk, subject: string, class_: Option<string>): set<Chain> {
    set pair | pair in d.forward && InScope(pair, subject, class_) :: d.forward[pair]
  }

  /** subjectsStore.forget: the forward rows go, and each of their chains becomes pending. */
  function Forget(d: Disk, subject: string, class_: Option<string>): Disk {
    d.(forward := map pair | pair in d.forward && !InScope(pair, subject, class_) :: d.forward[pair],
       reverse := map c | c in d.reverse :: if c in ChainsOf(d, subject, class_) then Pending else d.reverse[c],
       staleIndex := d.staleIndex + ChainsOf(d, subject, class_))
  }

  /** No row of the index names the subject, or names it in that class. */
  predicate Forgotten(d: Disk, subject: string, class_: Option<string>) {
    (forall pair <- d.forward :: pair.0 == subject ==> class_.Some? && pair.1 != class_.value)
    && forall c <- d.reverse :: d.reverse[c].Live? && d.reverse[c].subject == subject ==> class_.Some? && d.reverse[c].class_ != class_.value
  }

  /**
   * Every row of another subject, or of another class than the one given, is as
   * it was, in both directions of the index, and so is all that is held of its chain.
   */
  ghost predicate RestKept(d0: Disk, d: Disk, subject: string, class_: Option<string>) {
    (forall pair: (string, string) | pair.0 != subject || (class_.Some? && pair.1 != class_.value) ::
       (pair in d.forward <==> pair in d0.forward) && (pair in d0.forward ==> d.forward[pair] == d0.forward[pair]))
    && forall c <- d0.reverse | d0.reverse[c].Live? && (d0.reverse[c].subject != subject || (class_.Some? && d0.reverse[c].class_ != class_.value)) ::
         c in d.reverse && d.reverse[c] == d0.reverse[c] && ViewOf(d, c) == ViewOf(d0, c)
  }

  lemma ForgetKeeps(d: Disk, subject: string, class_: Option<string>, origin: map<EntryId, string>, bound: nat)
    requires DiskCore(d, origin, bound)
    ensures DiskCore(Forget(d, subject, class_), origin, bound)
    ensures DiskTidy(d) ==> DiskTidy(Forget(d, subject, class_))
    ensures Forgotten(Forget(d, subject, class_), subject, class_) && RestKept(d, Forget(d, subject, class_), subject, class_)
    ensures forall c <- ChainsOf(d, subject, class_) :: c in d.reverse && Forget(d, subject, class_).reverse[c] == Pending
  {
    var f := Forget(d, subject, class_);
    ForgetIndex(d, subject, class_);
    forall c: Chain ensures Core(ViewOf(f, c), f.signing, origin, bound) && (DiskTidy(d) ==> Tidy(ViewOf(f, c), RowOf(f, c))) {
      assert ViewOf(f, c) == ViewOf(d, c) && Core(ViewOf(d, c), d.signing, origin, bound);
      if DiskTidy(d) { assert Tidy(ViewOf(d, c), RowOf(d, c)); }
    }
  }

  lemma ForgetIndex(d: Disk, subject: string, class_: Option<string>)
    requires IndexOK(d.forward, d.reverse)
    ensures var f := Forget(d, subject, class_); IndexOK(f.forward, f.reverse) && Forgotten(f, subject, class_) && RestKept(d, f, subject, class_)
    ensures forall c <- ChainsOf(d, subject, class_) :: c in d.reverse && Forget(d, subject, class_).reverse[c] == Pending
  {
  }

  /** subjectsStore.forgetChain: one live row becomes a pending erasure. */
  function ForgetChain(d: Disk, c: Chain): Disk
    requires c in d.reverse && d.reverse[c].Live?
  {
    d.(forward := d.forward - {(d.reverse[c].subject, d.reverse[c].class_)}, reverse := d.reverse[c := Pending],
       staleIndex := d.staleIndex + {c})
  }

  lemma ForgetChainKeeps(d: Disk, c: Chain, origin: map<EntryId, string>, bound: nat)
    requires DiskCore(d, origin, bound) && c in d.reverse && d.reverse[c].Live?
    ensures DiskCore(ForgetChain(d, c), origin, bound)
    ensures DiskTidy(d) ==> DiskTidy(ForgetChain(d, c))
  {
    var f := ForgetChain(d, c);
    assert IndexOK(f.forward, f.reverse);
    forall x: Chain ensures Core(ViewOf(f, x), f.signing, origin, bound) && (DiskTidy(d) ==> Tidy(ViewOf(f, x), RowOf(f, x))) {
      assert ViewOf(f, x) == ViewOf(d, x) && Core(ViewOf(d, x), d.signing, origin, bound);
      if DiskTidy(d) { assert Tidy(ViewOf(d, x), RowOf(d, x)); }
    }
  }

  /** subjectsStore.clear: a pending row goes. */
  function Clear(d: Disk, c: Chain): Disk {
    d.(reverse := d.reverse - {c})
  }

  lemma ClearKeeps(d: Disk, c: Chain, origin: map<EntryId, string>, bound: nat)
    requires DiskCore(d, origin, bound) && c in d.reverse && d.reverse[c] == Pending
    ensures DiskCore(Clear(d, c), origin, bound)
    ensures DiskTidy(d) ==> (DiskTidy(Clear(d, c)) <==> Tidy(ViewOf(d, c), None))
  {
    var f := Clear(d, c);
    assert IndexOK(f.forward, f.reverse);
    forall x: Chain
      ensures ViewOf(f, x) == ViewOf(d, x) && RowOf(f, x) == if x == c then None else RowOf(d, x)
      ensures Core(ViewOf(f, x), f.signing, origin, bound)
      ensures DiskTidy(d) && x != c ==> Tidy(ViewOf(f, x), RowOf(f, x))
    {
      assert Core(ViewOf(d, x), d.signing, origin, bound);
      if DiskTidy(d) { assert Tidy(ViewOf(d, x), RowOf(d, x)); }
    }
    assert Tidy(ViewOf(f, c), RowOf(f, c)) <==> Tidy(ViewOf(d, c), None);
  }
}
