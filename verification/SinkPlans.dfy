/** A commit's way from its records to its drafts: chains resolved and bound, duplicates dropped, entries decided. */
module SinkPlans {
  import opened Basics
  import opened SinkState
  import opened SinkStages
  import opened SinkTransactions
  import opened SinkErasure
  import opened SinkCommit
  import opened SinkRecords

  /** The chains of a call's pairs: bound ones, and new ones still to be bound. */
  datatype Resolution = Resolution(chains: map<Pair, Chain>, fwd: map<Pair, Chain>, rev: map<Chain, Row>)

  predicate ResolvedOK(d: Disk, r: Resolution) {
    match r
    case Resolution(chains, fwd, rev) =>
      IndexOK(fwd, rev) && AllLive(rev) && fwd.Keys !! d.forward.Keys && rev.Keys !! d.reverse.Keys
      && (forall c <- rev :: EntriesOf(d, c) == [])
      && forall p <- chains ::
           if p in d.forward then chains[p] == d.forward[p] && !Erased(EntriesOf(d, chains[p]))
           else p in fwd && chains[p] == fwd[p]
  }

  lemma ResolvedNone(d: Disk)
    ensures ResolvedOK(d, Resolution(map[], map[], map[]))
  {
  }

  lemma ResolveBound(d: Disk, r: Resolution, p: Pair)
    requires ResolvedOK(d, r) && p in d.forward && !Erased(EntriesOf(d, d.forward[p]))
    ensures ResolvedOK(d, r.(chains := r.chains[p := d.forward[p]]))
  {
  }

  lemma ResolveNew(d: Disk, r: Resolution, p: Pair, c: Chain)
    requires ResolvedOK(d, r) && p !in d.forward && p !in r.fwd && p !in r.chains
    requires c !in d.reverse && c !in r.rev && EntriesOf(d, c) == [] && c.class_ == p.1
    ensures ResolvedOK(d, Resolution(r.chains[p := c], r.fwd[p := c], r.rev[c := Live(p.0, p.1)]))
  {
    hide Erased;
  }

  /** Every pair's chain is the index's, and has not been erased. */
  predicate Bound(d: Disk, chains: map<Pair, Chain>) {
    forall p <- chains :: p in d.forward && d.forward[p] == chains[p] && !Erased(EntriesOf(d, chains[p]))
  }

  lemma BindKeeps(d: Disk, r: Resolution, origin: map<EntryId, string>, bound: nat, cleared: set<Chain>)
    requires DiskCore(d, origin, bound) && ResolvedOK(d, r)
    ensures DiskCore(Bind(d, r.fwd, r.rev), origin, bound) && Bound(Bind(d, r.fwd, r.rev), r.chains)
    ensures NeatDisk(d, cleared) ==> NeatDisk(Bind(d, r.fwd, r.rev), cleared - r.rev.Keys)
  {
    var b := Bind(d, r.fwd, r.rev);
    BindIndex(d, r.fwd, r.rev);
    BoundAfter(d, r);
    hide Bound, ResolvedOK, IndexOK;
    IndexOnly(d, b, origin, bound);
    if NeatDisk(d, cleared) { BindTidy(d, r.fwd, r.rev); }
  }

  lemma BoundAfter(d: Disk, r: Resolution)
    requires ResolvedOK(d, r)
    ensures Bound(Bind(d, r.fwd, r.rev), r.chains)
    ensures forall c :: EntriesOf(Bind(d, r.fwd, r.rev), c) == EntriesOf(d, c)
  {
    hide AllLive;
    var b := Bind(d, r.fwd, r.rev);
    assert forall c :: EntriesOf(b, c) == EntriesOf(d, c);
    forall p | p in r.chains ensures p in b.forward && b.forward[p] == r.chains[p] && !Erased(EntriesOf(b, r.chains[p])) {
      if p !in d.forward { assert r.chains[p] in r.rev; }
    }
  }

  /** A failed call's new rows, taken back. */
  lemma UnbindKeeps(d: Disk, r: Resolution, origin: map<EntryId, string>, bound: nat, cleared: set<Chain>)
    requires DiskCore(d, origin, bound) && IndexOK(r.fwd, r.rev) && AllLive(r.rev)
    requires SubMap(r.fwd, d.forward) && SubMap(r.rev, d.reverse)
    ensures DiskCore(Unbind(d, r.fwd, r.rev), origin, bound)
    ensures NeatDisk(d, cleared) && (forall c <- r.rev :: Tidy(ViewOf(d, c), None)) ==>
              NeatDisk(Unbind(d, r.fwd, r.rev), cleared)
  {
    var u := Unbind(d, r.fwd, r.rev);
    UnbindIndex(d, r.fwd, r.rev);
    hide IndexOK, Tidy;
    IndexOnly(d, u, origin, bound);
    if DiskTidy(d) { UnbindTidy(d, r.fwd, r.rev); }
  }

  // ---- Plans ----

  type Plans = map<Chain, seq<Record>>

  /** One record's place: on its chain, or among what its chain is about to get. */
  predicate Placed(d: Disk, origin: map<EntryId, string>, c: Chain, plans: Plans, r: Record) {
    On(EntriesOf(d, c), origin, r) || (c in plans && Again(plans[c], r))
  }

  /** What one pair's chain is to get. */
  function NewFor(d: Disk, origin: map<EntryId, string>, records: seq<Record>, c: Chain, p: Pair): seq<Record> {
    ToCommit(EntriesOf(d, c), origin, RecordsOf(records, p))
  }

  /** Every plan is what the chain of some pair done is to get, and no such pair's records are left out. */
  predicate PlansExact(d: Disk, origin: map<EntryId, string>, records: seq<Record>, chains: map<Pair, Chain>, plans: Plans,
                       done: set<Pair>) {
    (forall c <- plans :: exists p <- done :: p in chains && chains[p] == c && plans[c] == NewFor(d, origin, records, c, p))
    && forall p <- done :: p in chains ==>
         NewFor(d, origin, records, chains[p], p) == []
         || (chains[p] in plans && plans[chains[p]] == NewFor(d, origin, records, chains[p], p))
  }

  predicate PlansOK(d: Disk, origin: map<EntryId, string>, records: seq<Record>, chains: map<Pair, Chain>, plans: Plans,
                    done: set<Pair>) {
    done <= chains.Keys && PlansExact(d, origin, records, chains, plans, done)
    && (forall c <- plans :: plans[c] != [] && NewSources(EntriesOf(d, c), origin, plans[c]) && c in chains.Values)
    && AllPlaced(d, origin, records, chains, plans, done)
  }

  predicate AllPlaced(d: Disk, origin: map<EntryId, string>, records: seq<Record>, chains: map<Pair, Chain>, plans: Plans,
                      done: set<Pair>) {
    forall r <- records :: PairOf(r) in done && PairOf(r) in chains ==> Placed(d, origin, chains[PairOf(r)], plans, r)
  }

  lemma PlanNothing(d: Disk, origin: map<EntryId, string>, records: seq<Record>, chains: map<Pair, Chain>)
    ensures PlansOK(d, origin, records, chains, map[], {})
  {
  }

  /** One more pair: its kept records are its chain's plan. */
  lemma PlanPair(d: Disk, origin: map<EntryId, string>, records: seq<Record>, chains: map<Pair, Chain>, plans: Plans,
                 done: set<Pair>, p: Pair, keep: seq<Record>, dup: seq<bool>)
    requires PlansOK(d, origin, records, chains, plans, done) && p in chains
    requires DroppedRight(EntriesOf(d, chains[p]), origin, RecordsOf(records, p), keep, dup)
    requires keep != [] ==> chains[p] !in plans
    ensures PlansOK(d, origin, records, chains, if keep == [] then plans else plans[chains[p] := keep], done + {p})
  {
    var c := chains[p];
    hide On, Again, ToCommit, NewSources, MadeFrom;
    DroppedExact(EntriesOf(d, c), origin, RecordsOf(records, p), keep, dup);
    PlansExactMore(d, origin, records, chains, plans, done, p, keep);
    AllPlacedMore(d, origin, records, chains, plans, done, p, keep, dup);
    hide PlansExact, NewFor, DroppedRight, AllPlaced;
  }

  lemma AllPlacedMore(d: Disk, origin: map<EntryId, string>, records: seq<Record>, chains: map<Pair, Chain>, plans: Plans,
                      done: set<Pair>, p: Pair, keep: seq<Record>, dup: seq<bool>)
    requires AllPlaced(d, origin, records, chains, plans, done) && p in chains && (keep != [] ==> chains[p] !in plans)
    requires DroppedRight(EntriesOf(d, chains[p]), origin, RecordsOf(records, p), keep, dup)
    ensures AllPlaced(d, origin, records, chains, if keep == [] then plans else plans[chains[p] := keep], done + {p})
  {
    hide DroppedRight, On, Again;
    var next := if keep == [] then plans else plans[chains[p] := keep];
    forall r | r in records && PairOf(r) in done + {p} && PairOf(r) in chains
      ensures Placed(d, origin, chains[PairOf(r)], next, r)
    {
      if PairOf(r) == p {
        NowPlaced(d, origin, records, chains, plans, p, keep, dup, r);
      } else {
        assert Placed(d, origin, chains[PairOf(r)], plans, r);
      }
    }
  }

  lemma NowPlaced(d: Disk, origin: map<EntryId, string>, records: seq<Record>, chains: map<Pair, Chain>, plans: Plans, p: Pair,
                  keep: seq<Record>, dup: seq<bool>, r: Record)
    requires p in chains && DroppedRight(EntriesOf(d, chains[p]), origin, RecordsOf(records, p), keep, dup) && r in records && PairOf(r) == p
    ensures Placed(d, origin, chains[p], if keep == [] then plans else plans[chains[p] := keep], r)
  {
    RecordOf(records, r);
    Settled(EntriesOf(d, chains[p]), origin, RecordsOf(records, p), keep, dup, r);
    hide DroppedRight, On;
  }

  lemma DroppedExact(entries: seq<Entry>, origin: map<EntryId, string>, recs: seq<Record>, keep: seq<Record>, dup: seq<bool>)
    requires DroppedRight(entries, origin, recs, keep, dup)
    ensures keep == ToCommit(entries, origin, recs) && NewSources(entries, origin, keep)
  {
  }

  lemma PlansExactMore(d: Disk, origin: map<EntryId, string>, records: seq<Record>, chains: map<Pair, Chain>, plans: Plans,
                       done: set<Pair>, p: Pair, keep: seq<Record>)
    requires PlansExact(d, origin, records, chains, plans, done) && p in chains
    requires keep == NewFor(d, origin, records, chains[p], p) && (keep != [] ==> chains[p] !in plans)
    ensures PlansExact(d, origin, records, chains, if keep == [] then plans else plans[chains[p] := keep], done + {p})
  {
    hide NewFor;
    var next := if keep == [] then plans else plans[chains[p] := keep];
    forall c | c in next
      ensures exists q <- done + {p} :: q in chains && chains[q] == c && next[c] == NewFor(d, origin, records, c, q)
    {
      if c in plans {
        var q :| q in done && q in chains && chains[q] == c && plans[c] == NewFor(d, origin, records, c, q);
        assert q in done + {p};
      } else {
        assert p in done + {p};
      }
    }
  }

  /** Every pair's chain got exactly that pair's new records, in order, and no other chain anything. */
  ghost predicate AllGot(d0: Disk, d: Disk, records: seq<Record>, chains: map<Pair, Chain>, origin0: map<EntryId, string>,
                         origin: map<EntryId, string>) {
    (forall p <- chains :: Got(EntriesOf(d0, chains[p]), EntriesOf(d, chains[p]), origin, NewFor(d0, origin0, records, chains[p], p)))
    && forall c: Chain :: c !in chains.Values ==> EntriesOf(d, c) == EntriesOf(d0, c)
  }

  /** The drafts on the chains: exactly what was to come. */
  lemma AllGotNow(d0: Disk, d: Disk, drafts: Drafts, plans: Plans, records: seq<Record>, chains: map<Pair, Chain>,
                  origin0: map<EntryId, string>, origin: map<EntryId, string>)
    requires PlansOK(d0, origin0, records, chains, plans, chains.Keys) && IndexOK(d0.forward, d0.reverse) && Bound(d0, chains)
    requires drafts.Keys == plans.Keys && (forall c <- drafts :: Carries(drafts[c], origin, plans[c])) && Appended(d0, d, drafts)
    ensures AllGot(d0, d, records, chains, origin0, origin)
  {
    hide NewFor, Appended, IndexOK, Bound, Placed, NewSources, MadeFrom, Got;
    forall p | p in chains
      ensures Got(EntriesOf(d0, chains[p]), EntriesOf(d, chains[p]), origin, NewFor(d0, origin0, records, chains[p], p))
    {
      OneGot(d0, d, drafts, plans, records, chains, origin0, origin, p);
    }
    forall c: Chain | c !in chains.Values ensures EntriesOf(d, c) == EntriesOf(d0, c) {
      assert c !in plans;
      EntriesAppended(d0, d, drafts, c);
    }
  }

  lemma OneGot(d0: Disk, d: Disk, drafts: Drafts, plans: Plans, records: seq<Record>, chains: map<Pair, Chain>,
               origin0: map<EntryId, string>, origin: map<EntryId, string>, p: Pair)
    requires p in chains && PlansExact(d0, origin0, records, chains, plans, chains.Keys) && IndexOK(d0.forward, d0.reverse) && Bound(d0, chains)
    requires drafts.Keys == plans.Keys && (forall c <- drafts :: Carries(drafts[c], origin, plans[c])) && Appended(d0, d, drafts)
    ensures Got(EntriesOf(d0, chains[p]), EntriesOf(d, chains[p]), origin, NewFor(d0, origin0, records, chains[p], p))
  {
    hide NewFor, Appended;
    var c := chains[p];
    EntriesAppended(d0, d, drafts, c);
    if c in plans {
      var q :| q in chains && chains[q] == c && plans[c] == NewFor(d0, origin0, records, c, q);
      OneChainEach(d0, chains, p, q);
      hide IndexOK, Bound, PlansExact;
      assert (EntriesOf(d0, c) + drafts[c].entries)[|EntriesOf(d0, c)|..] == drafts[c].entries;
    }
  }

  lemma OneChainEach(d: Disk, chains: map<Pair, Chain>, p: Pair, q: Pair)
    requires IndexOK(d.forward, d.reverse) && Bound(d, chains) && p in chains && q in chains && chains[p] == chains[q]
    ensures p == q
  {
    assert d.forward[p] == d.forward[q];
  }

  // ---- Drafts ----

  /** Each chain's draft carries its plan. */
  ghost predicate Drafted(d: Disk, drafts: Drafts, plans: Plans, origin: map<EntryId, string>, signer: bool, lo: nat, hi: nat) {
    drafts.Keys <= plans.Keys && DraftsOK(d, drafts, origin, signer, lo, hi)
    && forall c <- drafts :: Carries(drafts[c], origin, plans[c])
  }

  lemma DraftLower(entries: seq<Entry>, dr: Draft, origin: map<EntryId, string>, signer: bool, lo: nat, hi: nat, lo': nat)
    requires DraftOK(entries, dr, origin, signer, lo, hi) && lo' <= lo
    ensures DraftOK(entries, dr, origin, signer, lo', hi)
  {
    hide DraftEvents, DraftRows, DraftSigned, DraftLocated, NewTo;
  }

  lemma DraftedGrows(d: Disk, drafts: Drafts, plans: Plans, signer: bool, lo: nat,
                     origin: map<EntryId, string>, bound: nat, origin': map<EntryId, string>, bound': nat)
    requires Drafted(d, drafts, plans, origin, signer, lo, bound) && Grows(origin, bound, origin', bound')
    requires DiskCore(d, origin, bound)
    ensures Drafted(d, drafts, plans, origin', signer, lo, bound')
  {
    forall c | c in drafts
      ensures DraftOK(EntriesOf(d, c), drafts[c], origin', signer, lo, bound') && Carries(drafts[c], origin', plans[c])
    {
      DraftedOneGrows(d, drafts, plans, c, signer, lo, origin, bound, origin', bound');
    }
  }

  lemma DraftedOneGrows(d: Disk, drafts: Drafts, plans: Plans, c: Chain, signer: bool, lo: nat,
                        origin: map<EntryId, string>, bound: nat, origin': map<EntryId, string>, bound': nat)
    requires Drafted(d, drafts, plans, origin, signer, lo, bound) && Grows(origin, bound, origin', bound')
    requires DiskCore(d, origin, bound) && c in drafts
    ensures DraftOK(EntriesOf(d, c), drafts[c], origin', signer, lo, bound') && Carries(drafts[c], origin', plans[c])
  {
    assert DraftOK(EntriesOf(d, c), drafts[c], origin, signer, lo, bound) && Carries(drafts[c], origin, plans[c]);
    IdsDrawn(d, c, origin, bound);
    hide Drafted, DiskCore, Carries, Grows;
    assert forall e <- drafts[c].entries :: e.id < bound;
    hide DraftOK;
    DraftGrows(EntriesOf(d, c), drafts[c], origin, signer, lo, bound, origin', bound');
    CarriesGrows(drafts[c], plans[c], origin, bound, origin', bound');
  }

  lemma PlansGrow(d: Disk, plans: Plans, origin: map<EntryId, string>, bound: nat, origin': map<EntryId, string>, bound': nat)
    requires DiskCore(d, origin, bound) && Grows(origin, bound, origin', bound')
    requires forall c <- plans :: NewSources(EntriesOf(d, c), origin, plans[c])
    ensures forall c <- plans :: NewSources(EntriesOf(d, c), origin', plans[c])
  {
    hide NewSources, DiskCore;
    forall c | c in plans ensures NewSources(EntriesOf(d, c), origin', plans[c]) {
      IdsDrawn(d, c, origin, bound);
      NewGrows(EntriesOf(d, c), plans[c], origin, bound, origin', bound');
    }
  }

  /** The drafts on the chains: every record of the call is on its chain. */
  lemma AllOn(d0: Disk, d: Disk, drafts: Drafts, plans: Plans, records: seq<Record>, chains: map<Pair, Chain>,
              origin: map<EntryId, string>, bound: nat, origin': map<EntryId, string>, bound': nat)
    requires PlansOK(d0, origin, records, chains, plans, chains.Keys) && DiskCore(d0, origin, bound)
    requires Grows(origin, bound, origin', bound') && drafts.Keys == plans.Keys
    requires forall c <- drafts :: Carries(drafts[c], origin', plans[c])
    requires Appended(d0, d, drafts)
    ensures forall r <- records :: PairOf(r) in chains ==> On(EntriesOf(d, chains[PairOf(r)]), origin', r)
  {
    forall r | r in records && PairOf(r) in chains ensures On(EntriesOf(d, chains[PairOf(r)]), origin', r) {
      var c := chains[PairOf(r)];
      assert Placed(d0, origin, c, plans, r);
      OneOn(d0, d, drafts, plans, c, r, origin, bound, origin', bound');
    }
  }

  lemma OneOn(d0: Disk, d: Disk, drafts: Drafts, plans: Plans, c: Chain, r: Record,
              origin: map<EntryId, string>, bound: nat, origin': map<EntryId, string>, bound': nat)
    requires Placed(d0, origin, c, plans, r) && DiskCore(d0, origin, bound)
    requires Grows(origin, bound, origin', bound') && drafts.Keys == plans.Keys
    requires c in drafts ==> Carries(drafts[c], origin', plans[c])
    requires Appended(d0, d, drafts)
    ensures On(EntriesOf(d, c), origin', r)
  {
    IdsDrawn(d0, c, origin, bound);
    hide DiskCore, On, Again, Carries, Grows;
    if On(EntriesOf(d0, c), origin, r) {
      OnGrows(EntriesOf(d0, c), r, origin, bound, origin', bound');
    }
    EntriesAppended(d0, d, drafts, c);
    if c in drafts {
      NowOn(EntriesOf(d0, c), drafts[c], origin', plans[c], r);
    }
  }

  lemma EntriesAppended(d0: Disk, d: Disk, drafts: Drafts, c: Chain)
    requires Appended(d0, d, drafts)
    ensures EntriesOf(d, c) == if c in drafts then EntriesOf(d0, c) + drafts[c].entries else EntriesOf(d0, c)
  {
    assert EntriesOf(d0, c) + [] == EntriesOf(d0, c);
  }

  // ---- The call, from its bound chains on ----

  /** A call about to write: it has its drafts, and nothing has been written for them. */
  lemma CallStarts(d: Disk, drafts: Drafts, plans: Plans, chains: map<Pair, Chain>, origin: map<EntryId, string>, signer: bool,
                   lo: nat, bound: nat, cleared: set<Chain>)
    requires DiskCore(d, origin, bound) && (forall c :: IdsBelow(ViewOf(d, c), lo)) && ModeOK(d, signer)
    requires Drafted(d, drafts, plans, origin, signer, lo, bound) && Bound(d, chains)
    requires drafts.Keys <= chains.Values
    ensures Between(Call(d, drafts, origin, signer, lo, bound, cleared), d)
  {
    SameButStart(d, drafts, origin, signer, lo, bound);
    assert ForLive(d, drafts) by { DraftsForLive(d, drafts, chains); }
  }

  lemma DraftsForLive(d: Disk, drafts: Drafts, chains: map<Pair, Chain>)
    requires IndexOK(d.forward, d.reverse) && Bound(d, chains) && drafts.Keys <= chains.Values
    ensures ForLive(d, drafts)
  {
    forall c | c in drafts ensures c in d.reverse && d.reverse[c].Live? && !Erased(EntriesOf(d, c)) {
      var p :| p in chains && chains[p] == c;
    }
  }

  lemma IdsAllBelow(d: Disk, origin: map<EntryId, string>, bound: nat)
    requires DiskCore(d, origin, bound)
    ensures forall c :: IdsBelow(ViewOf(d, c), bound)
  {
    forall c: Chain ensures IdsBelow(ViewOf(d, c), bound) {
      assert Core(ViewOf(d, c), d.signing, origin, bound);
    }
  }

  /** The chains a call bound are still as empty as they were. */
  ghost predicate Blank(d: Disk, rev: map<Chain, Row>) {
    forall c <- rev :: ViewOf(d, c).secrets == map[] && ViewOf(d, c).sources == map[]
  }

  lemma BlankBefore(d: Disk, r: Resolution, cleared: set<Chain>)
    requires NeatDisk(d, cleared) && ResolvedOK(d, r)
    ensures Blank(Bind(d, r.fwd, r.rev), r.rev)
  {
    forall c | c in r.rev
      ensures ViewOf(Bind(d, r.fwd, r.rev), c).secrets == map[] && ViewOf(Bind(d, r.fwd, r.rev), c).sources == map[]
    {
      assert Tidy(ViewOf(d, c), RowOf(d, c));
    }
  }

  lemma BlankAfter(d: Disk, d': Disk, rev: map<Chain, Row>)
    requires Blank(d, rev) && NothingNew(d, d')
    ensures Blank(d', rev)
  {
    forall c | c in rev ensures ViewOf(d', c).secrets == map[] && ViewOf(d', c).sources == map[] {
      assert ViewOf(d', c).secrets == ViewOf(d, c).secrets && SubMap(ViewOf(d', c).sources, ViewOf(d, c).sources);
    }
  }

  /** deleteChain of the sources file, on a chain without entries. */
  lemma WipeBlank(d: Disk, c: Chain, origin: map<EntryId, string>, bound: nat)
    requires DiskCore(d, origin, bound) && EntriesOf(d, c) == []
    ensures DiskCore(WipeSources(d, c), origin, bound) && NothingNew(d, WipeSources(d, c))
    ensures DiskTidy(d) && c in d.reverse ==> DiskTidy(WipeSources(d, c))
  {
    var w := WipeSources(d, c);
    assert forall x: Chain :: x != c ==> ViewOf(w, x) == ViewOf(d, x);
    assert ViewOf(w, c) == ViewOf(d, c).(sources := map[]);
    ChainCore(d, c, origin, bound);
    hide Core;
    WipeKeeps(ViewOf(d, c), d.signing, origin, bound);
    OneChain(d, w, c, origin, bound);
  }

  /** The same for a folder's neatness: a chain whose erasure was completed is not one a call bound. */
  lemma WipeBlankNeat(d: Disk, c: Chain, origin: map<EntryId, string>, bound: nat, cleared: set<Chain>)
    requires DiskCore(d, origin, bound) && EntriesOf(d, c) == [] && c in d.reverse && c !in cleared
    ensures NeatDisk(d, cleared) ==> NeatDisk(WipeSources(d, c), cleared)
  {
    WipeBlank(d, c, origin, bound);
    hide DiskTidy;
  }

  lemma NothingNewTwice(d0: Disk, d1: Disk, d2: Disk)
    requires NothingNew(d0, d1) && NothingNew(d1, d2)
    ensures NothingNew(d0, d2)
  {
    forall c: Chain
      ensures ViewOf(d2, c).secrets == ViewOf(d0, c).secrets && ViewOf(d2, c).signatures == ViewOf(d0, c).signatures
      ensures SubMap(ViewOf(d2, c).sources, ViewOf(d0, c).sources)
    {
      assert SubMap(ViewOf(d1, c).sources, ViewOf(d0, c).sources);
      assert SubMap(ViewOf(d2, c).sources, ViewOf(d1, c).sources);
    }
  }

  /** Chains only grow, and a chain that ends with a genuine erasure does not. */
  ghost predicate OnlyGrown(d0: Disk, d: Disk) {
    forall c :: EntriesOf(d0, c) <= EntriesOf(d, c) && (Erased(EntriesOf(d0, c)) ==> EntriesOf(d, c) == EntriesOf(d0, c))
  }

  lemma AppendedGrows(d0: Disk, d: Disk, drafts: Drafts)
    requires ForLive(d0, drafts) && (SameEntries(d0, d) || Appended(d0, d, drafts))
    ensures OnlyGrown(d0, d)
  {
    forall c: Chain
      ensures EntriesOf(d0, c) <= EntriesOf(d, c) && (Erased(EntriesOf(d0, c)) ==> EntriesOf(d, c) == EntriesOf(d0, c))
    {
      if SameEntries(d0, d) {
        assert EntriesOf(d, c) == EntriesOf(d0, c);
      } else {
        hide Appended, Erased;
        EntriesAppended(d0, d, drafts, c);
      }
    }
  }

  lemma GrownSame(d0: Disk, d: Disk)
    requires d.evidence == d0.evidence
    ensures OnlyGrown(d0, d)
  {
    assert forall c :: EntriesOf(d, c) == EntriesOf(d0, c);
  }

  /** The rows a call bound, while they are still the index's. */
  predicate FreshBound(d: Disk, res: Resolution) {
    match res
    case Resolution(_, fwd, rev) =>
      IndexOK(fwd, rev) && AllLive(rev) && SubMap(fwd, d.forward) && SubMap(rev, d.reverse)
      && forall c <- rev :: EntriesOf(d, c) == []
  }

  lemma FreshAfterBind(d: Disk, res: Resolution)
    requires ResolvedOK(d, res)
    ensures FreshBound(Bind(d, res.fwd, res.rev), res)
    ensures NothingNew(d, Bind(d, res.fwd, res.rev))
    ensures Bind(d, res.fwd, res.rev).forward - res.fwd.Keys == d.forward
    ensures Bind(d, res.fwd, res.rev).reverse - res.rev.Keys == d.reverse
  {
    hide Erased, IndexOK;
    assert forall c :: ViewOf(Bind(d, res.fwd, res.rev), c) == ViewOf(d, c);
  }

  lemma FreshStays(d: Disk, d': Disk, res: Resolution)
    requires FreshBound(d, res) && d'.forward == d.forward && d'.reverse == d.reverse && d'.evidence == d.evidence
    ensures FreshBound(d', res)
  {
    hide IndexOK;
    assert forall c :: EntriesOf(d', c) == EntriesOf(d, c);
  }

  lemma PlansNew(d: Disk, origin: map<EntryId, string>, records: seq<Record>, chains: map<Pair, Chain>, plans: Plans)
    requires PlansOK(d, origin, records, chains, plans, chains.Keys)
    ensures (forall c <- plans :: NewSources(EntriesOf(d, c), origin, plans[c])) && plans.Keys <= chains.Values
  {
  }

  /** No plan: every pair's chain holds what it is to hold. */
  lemma NothingGot(d: Disk, records: seq<Record>, chains: map<Pair, Chain>, origin: map<EntryId, string>)
    requires PlansOK(d, origin, records, chains, map[], chains.Keys)
    ensures AllGot(d, d, records, chains, origin, origin)
  {
    hide NewFor, Placed;
    forall p | p in chains ensures Got(EntriesOf(d, chains[p]), EntriesOf(d, chains[p]), origin, NewFor(d, origin, records, chains[p], p)) {
      assert NewFor(d, origin, records, chains[p], p) == [];
    }
  }

  lemma AllThere(d: Disk, origin: map<EntryId, string>, records: seq<Record>, chains: map<Pair, Chain>, plans: Plans)
    requires PlansOK(d, origin, records, chains, plans, chains.Keys) && plans == map[]
    ensures forall r <- records :: PairOf(r) in chains ==> On(EntriesOf(d, chains[PairOf(r)]), origin, r)
  {
    hide On;
    forall r | r in records && PairOf(r) in chains ensures On(EntriesOf(d, chains[PairOf(r)]), origin, r) {
      assert Placed(d, origin, chains[PairOf(r)], plans, r);
    }
  }

  lemma CallFilled(d: Disk, drafts: Drafts, plans: Plans, records: seq<Record>, chains: map<Pair, Chain>,
                   before: map<EntryId, string>, origin: map<EntryId, string>, signer: bool, lo: nat, hi: nat)
    requires PlansOK(d, before, records, chains, plans, chains.Keys) && plans != map[] && drafts.Keys == plans.Keys
    requires Drafted(d, drafts, plans, origin, signer, lo, hi)
    ensures Filled(drafts) && forall c <- drafts :: Carries(drafts[c], origin, plans[c])
  {
    hide DraftOK, PlansExact, Placed, NewSources;
    var one :| one in plans;
    assert one in drafts;
    forall c | c in drafts ensures drafts[c].entries != [] {
      assert Carries(drafts[c], origin, plans[c]) && plans[c] != [];
    }
  }

  lemma CallEnds(call: Call, d: Disk)
    requires After(call, d)
    ensures DiskCore(d, call.origin, call.bound) && (NeatDisk(call.d0, call.cleared) ==> NeatDisk(d, call.cleared))
    ensures d.forward == call.d0.forward && d.reverse == call.d0.reverse && Beside(call.d0, d, call.drafts.Keys)
  {
  }

  lemma SameEntriesRefl(d: Disk)
    ensures SameEntries(d, d)
  {
  }

  lemma BlankAfterAll(d: Disk, res: Resolution)
    ensures Blank(d, res.rev) ==> forall d' :: NothingNew(d, d') ==> Blank(d', res.rev)
  {
    if Blank(d, res.rev) {
      forall d' | NothingNew(d, d') ensures Blank(d', res.rev) {
        BlankAfter(d, d', res.rev);
      }
    }
  }

  /** One new chain's positions removed. */
  lemma FreshWipe(d0: Disk, d: Disk, res: Resolution, c: Chain, origin: map<EntryId, string>, bound: nat, cleared: set<Chain>)
    requires DiskCore(d, origin, bound) && FreshBound(d, res) && c in res.rev && cleared !! res.rev.Keys
    requires SameEntries(d0, d) && NothingNew(d0, d)
    ensures var w := WipeSources(d, c);
            DiskCore(w, origin, bound) && FreshBound(w, res) && (NeatDisk(d, cleared) ==> NeatDisk(w, cleared))
            && SameEntries(d0, w) && NothingNew(d0, w) && w.forward == d.forward && w.reverse == d.reverse
  {
    assert EntriesOf(d, c) == [] && c in d.reverse;
    hide DiskCore, NeatDisk, FreshBound, NothingNew;
    WipeBlank(d, c, origin, bound);
    WipeBlankNeat(d, c, origin, bound, cleared);
    NothingNewTwice(d0, d, WipeSources(d, c));
    FreshStays(d, WipeSources(d, c), res);
  }

  /** The new rows removed: neat when the new chains held nothing when the clean-up began. */
  lemma FreshUnbind(d0: Disk, d: Disk, res: Resolution, origin: map<EntryId, string>, bound: nat, cleared: set<Chain>)
    requires DiskCore(d, origin, bound) && FreshBound(d, res)
    requires SameEntries(d0, d) && NothingNew(d0, d) && d.forward == d0.forward && d.reverse == d0.reverse
    ensures var u := Unbind(d, res.fwd, res.rev);
            DiskCore(u, origin, bound) && SameEntries(d0, u) && NothingNew(d0, u)
            && (NeatDisk(d, cleared) && Blank(d0, res.rev) ==> NeatDisk(u, cleared))
            && u.forward == d0.forward - res.fwd.Keys && u.reverse == d0.reverse - res.rev.Keys
  {
    assert NothingNew(d, Unbind(d, res.fwd, res.rev));
    hide DiskCore, NeatDisk, NothingNew;
    if Blank(d0, res.rev) { BlankAfter(d0, d, res.rev); BlankTidy(d, res); }
    UnbindKeeps(d, res, origin, bound, cleared);
    NothingNewTwice(d0, d, Unbind(d, res.fwd, res.rev));
  }

  lemma BlankTidy(d: Disk, res: Resolution)
    requires FreshBound(d, res) && Blank(d, res.rev)
    ensures forall c <- res.rev :: Tidy(ViewOf(d, c), None)
  {
  }

  /** Between a call's transactions every chain stays accounted for: its rows before its entries, and after them. */
  lemma AccountedBound(d: Disk, res: Resolution)
    requires AllAccounted(d)
    ensures AllAccounted(Bind(d, res.fwd, res.rev))
  {
    var b := Bind(d, res.fwd, res.rev);
    hide OnlyRecord, Erased;
    assert forall c :: ViewOf(b, c) == ViewOf(d, c) && EntriesOf(b, c) == EntriesOf(d, c);
    forall c: Chain ensures Accounted(b, c) {
      assert Accounted(d, c);
    }
  }

  lemma AccountedDrafts(d0: Disk, d: Disk, drafts: Drafts)
    requires AllAccounted(d0) && ForLive(d0, drafts) && Beside(d0, d, drafts.Keys) && d.reverse == d0.reverse
    ensures AllAccounted(d)
  {
    assert drafts.Keys <= d0.reverse.Keys;
    hide AllAccounted, Beside, Erased;
    BesideMore(d0, d, drafts.Keys, d0.reverse.Keys);
    AccountedStays(d0, d);
  }

  lemma AccountedFresh(d0: Disk, d: Disk, res: Resolution)
    requires AllAccounted(d0) && FreshBound(d0, res) && SameEntries(d0, d) && NothingNew(d0, d)
    requires d.reverse == d0.reverse || d.reverse == d0.reverse - res.rev.Keys
    ensures AllAccounted(d)
  {
    BesideNothing(d0, d);
    assert forall c <- res.rev :: EntriesOf(d, c) == EntriesOf(d0, c);
    hide AllAccounted, Beside, NothingNew;
    BesideMore(d0, d, {}, d0.reverse.Keys);
    AccountedStays(d0, d);
  }

  const MAX_BATCH := 1000

  lemma BindNone(d: Disk, res: Resolution)
    requires (ResolvedOK(d, res) || FreshBound(d, res)) && res.rev == map[]
    ensures Bind(d, res.fwd, res.rev) == d && d.forward - res.fwd.Keys == d.forward && d.reverse - res.rev.Keys == d.reverse
  {
    assert res.fwd == map[];
    assert d.forward + map[] == d.forward && d.reverse + map[] == d.reverse;
    assert d.forward - {} == d.forward && d.reverse - {} == d.reverse;
  }

  lemma ModeFound(d: Disk, signer: bool)
    requires !d.signing
    ensures (!signer || forall c <- d.evidence :: d.evidence[c] == []) <==> ModeOK(d, signer)
  {
    if ModeOK(d, signer) && signer {
      assert forall c <- d.evidence :: d.evidence[c] == EntriesOf(d, c);
    }
  }

  /** The record's pair is bound, and its chain holds the record. */
  predicate Committed(d: Disk, origin: map<EntryId, string>, r: Record) {
    match r
    case Record(subject, class_, _, _) =>
      (subject, class_) in d.forward && On(EntriesOf(d, d.forward[(subject, class_)]), origin, r)
  }

  /** The whole call is on the record: every pair's chain got exactly its new records, and each record is on its chain. */
  ghost predicate Whole(d0: Disk, d: Disk, records: seq<Record>, origin0: map<EntryId, string>, origin: map<EntryId, string>) {
    var pairs := set r <- records :: PairOf(r);
    (forall r <- records :: Committed(d, origin, r))
    && AllGot(d0, d, records, map p | p in pairs && p in d.forward :: d.forward[p], origin0, origin)
  }

  lemma WholeNow(d0: Disk, res: Resolution, d2: Disk, records: seq<Record>, origin0: map<EntryId, string>, origin: map<EntryId, string>)
    requires var b := Bind(d0, res.fwd, res.rev);
             Bound(b, res.chains) && d2.forward == b.forward && AllGot(b, d2, records, res.chains, origin0, origin)
             && forall r <- records :: PairOf(r) in res.chains ==> On(EntriesOf(d2, res.chains[PairOf(r)]), origin, r)
    requires res.chains.Keys == set r <- records :: PairOf(r)
    ensures Whole(d0, d2, records, origin0, origin)
  {
    var b := Bind(d0, res.fwd, res.rev);
    AllCommitted(b, d2, records, res.chains, origin);
    SameChains(b, d2, records, res.chains);
    hide Bound, On, Committed;
    GotFromBound(d0, res, d2, records, origin0, origin);
  }

  lemma SameChains(d1: Disk, d2: Disk, records: seq<Record>, chains: map<Pair, Chain>)
    requires Bound(d1, chains) && d2.forward == d1.forward && chains.Keys == set r <- records :: PairOf(r)
    ensures var pairs := set r <- records :: PairOf(r); chains == map p | p in pairs && p in d2.forward :: d2.forward[p]
  {
    hide Erased;
  }

  lemma GotFromBound(d0: Disk, res: Resolution, d2: Disk, records: seq<Record>, origin0: map<EntryId, string>, origin: map<EntryId, string>)
    requires AllGot(Bind(d0, res.fwd, res.rev), d2, records, res.chains, origin0, origin)
    ensures AllGot(d0, d2, records, res.chains, origin0, origin)
  {
    var b := Bind(d0, res.fwd, res.rev);
    assert forall c :: EntriesOf(b, c) == EntriesOf(d0, c);
    hide EntriesOf, Got, ToCommit, Bind;
  }

  lemma AllCommitted(d1: Disk, d2: Disk, records: seq<Record>, chains: map<Pair, Chain>, origin: map<EntryId, string>)
    requires Bound(d1, chains) && d2.forward == d1.forward && chains.Keys == set r <- records :: PairOf(r)
    requires forall r <- records :: PairOf(r) in chains ==> On(EntriesOf(d2, chains[PairOf(r)]), origin, r)
    ensures forall r <- records :: Committed(d2, origin, r)
  {
    hide On, Erased;
    forall r | r in records ensures Committed(d2, origin, r) {
      assert PairOf(r) in chains;
    }
  }

  /** A resolution that changed nothing but the index, and left its new chains blank. */
  lemma ResolvedBlank(d: Disk, res: Resolution, cleared: set<Chain>, signer: bool)
    requires ResolvedOK(d, res)
    ensures var b := Bind(d, res.fwd, res.rev);
            OnlyGrown(d, b) && SameEntries(d, b) && (ModeOK(d, signer) ==> ModeOK(b, signer))
            && (NeatDisk(d, cleared) ==> Blank(b, res.rev))
  {
    var b := Bind(d, res.fwd, res.rev);
    hide ResolvedOK, NeatDisk, Blank;
    GrownSame(d, b);
    if NeatDisk(d, cleared) { BlankBefore(d, res, cleared); }
    assert forall c :: EntriesOf(b, c) == EntriesOf(d, c);
  }

  lemma CommitGrew(d0: Disk, res: Resolution, d2: Disk, d3: Disk)
    requires OnlyGrown(Bind(d0, res.fwd, res.rev), d2) && SameEntries(d2, d3)
    ensures OnlyGrown(d0, d3)
  {
    assert forall c :: EntriesOf(Bind(d0, res.fwd, res.rev), c) == EntriesOf(d0, c) && EntriesOf(d3, c) == EntriesOf(d2, c);
  }

  /** A failed call, its rows still bound: what forgetFresh finds. */
  lemma CommitFailed(d0: Disk, res: Resolution, d2: Disk)
    requires ResolvedOK(d0, res)
    requires var b := Bind(d0, res.fwd, res.rev); SameEntries(b, d2) && d2.forward == b.forward && d2.reverse == b.reverse
    ensures SameEntries(d0, d2) && FreshBound(d2, res)
    ensures var b := Bind(d0, res.fwd, res.rev); Cleaned(b, d2, false) && Blank(b, res.rev) ==> Blank(d2, res.rev)
  {
    var b := Bind(d0, res.fwd, res.rev);
    FreshAfterBind(d0, res);
    hide FreshBound, NothingNew, Blank, ResolvedOK;
    FreshStays(b, d2, res);
    if NothingNew(b, d2) && Blank(b, res.rev) { BlankAfter(b, d2, res.rev); }
  }

  /** And what it leaves: nothing new, and the index as it was. */
  lemma CommitUndone(d0: Disk, res: Resolution, d2: Disk, d3: Disk)
    requires ResolvedOK(d0, res) && SameEntries(d0, d2) && SameEntries(d2, d3) && NothingNew(d2, d3)
    requires var b := Bind(d0, res.fwd, res.rev); d2.forward == b.forward && d2.reverse == b.reverse
    ensures SameEntries(d0, d3)
    ensures forall late :: Cleaned(Bind(d0, res.fwd, res.rev), d2, late) ==> Cleaned(d0, d3, late)
    ensures d3.forward == d2.forward - res.fwd.Keys ==> d3.forward == d0.forward
    ensures d3.reverse == d2.reverse - res.rev.Keys ==> d3.reverse == d0.reverse
  {
    var b := Bind(d0, res.fwd, res.rev);
    FreshAfterBind(d0, res);
    if !SameSecrets(b, d2) { SecretsBack(d0, b, d2, d3); }
    hide NothingNew, FreshBound, ResolvedOK, Bind, SameSecrets;
    if NothingNew(b, d2) {
      NothingNewTwice(d0, b, d2);
      NothingNewTwice(d0, d2, d3);
    }
  }

  lemma CleanedExactly(d0: Disk, d: Disk, late: bool)
    requires Cleaned(d0, d, late)
    ensures NothingNew(d0, d) <==> !late
  {
  }

  lemma LeftNothing(d: Disk)
    ensures NothingLeft(d, d)
  {
  }

  /** An index write that lands under an error leaves the new pairs' rows behind. */
  lemma LateBindStays(d: Disk, res: Resolution)
    requires ResolvedOK(d, res) && res.rev != map[]
    ensures !NothingLeft(d, Bind(d, res.fwd, res.rev))
  {
    var c :| c in res.rev;
    assert c in Bind(d, res.fwd, res.rev).reverse && c !in d.reverse;
  }

  lemma SecretsBack(d0: Disk, b: Disk, d2: Disk, d3: Disk)
    requires NothingNew(d0, b) && NothingNew(d2, d3) && !SameSecrets(b, d2)
    ensures !SameSecrets(d0, d3)
  {
    var c :| ViewOf(d2, c).secrets != ViewOf(b, c).secrets;
    assert ViewOf(d3, c).secrets == ViewOf(d2, c).secrets && ViewOf(b, c).secrets == ViewOf(d0, c).secrets;
  }

  // ---- Why a call is rejected ----

  datatype Why = BadCount | WrongMode | Relinked(pair: Pair) | NoId(pair: Pair) | Conflicted(pair: Pair, at: nat)
               | SharedChain | Failure

  datatype Resolved = Chains(chains: Resolution) | Unresolved(why: Why)

  datatype Planned = Planned(plans: Plans) | Stopped(why: Why)

  function PairEntries(d: Disk, p: Pair): seq<Entry> {
    if p in d.forward then EntriesOf(d, d.forward[p]) else []
  }

  /**
   * The reason a call gives is so: the folder it met, or the records, were at
   * fault, or a transaction or the signer was.
   */
  ghost predicate Justified(d: Disk, signer: bool, origin: map<EntryId, string>, records: seq<Record>, why: Why, faulted: bool) {
    match why
    case BadCount => |records| == 0 || |records| > MAX_BATCH
    case WrongMode => !ModeOK(d, signer)
    case Relinked(p) => Asked(records, p) && p in d.forward && Erased(EntriesOf(d, d.forward[p]))
    case NoId(p) => Asked(records, p) && p !in d.forward
    case Conflicted(p, at) => Conflicting(PairEntries(d, p), origin, RecordsOf(records, p), at)
    case SharedChain => !IndexOK(d.forward, d.reverse)
    case Failure => faulted
  }

  predicate Asked(records: seq<Record>, p: Pair) {
    exists r <- records :: PairOf(r) == p
  }

  // ---- Drawn chain ids ----

  /** A drawn id that cannot be used: in the index, on a chain with entries, or drawn for another pair of the call. */
  predicate Taken(d: Disk, before: set<Chain>, c: Chain) {
    c in d.reverse || EntriesOf(d, c) != [] || c in before
  }

  /** Of the ids a call drew, the last three were drawn for one pair, and none of them could be used. */
  predicate Exhausted(d: Disk, drawn: seq<Chain>, class_: string) {
    |drawn| >= 3
    && forall i | |drawn| - 3 <= i < |drawn| ::
         drawn[i].class_ == class_ && Taken(d, set j | 0 <= j < |drawn| - 3 :: drawn[j], drawn[i])
  }

  lemma TakenMore(d: Disk, drawn: seq<Chain>, minted: set<Chain>, last: seq<Chain>, class_: string)
    requires |last| == 3 && (forall c <- minted :: c in drawn) && forall c <- last :: c.class_ == class_ && Taken(d, minted, c)
    ensures Exhausted(d, drawn + last, class_)
  {
    var all := drawn + last;
    var before := set j | 0 <= j < |all| - 3 :: all[j];
    forall i | |all| - 3 <= i < |all| ensures all[i].class_ == class_ && Taken(d, before, all[i]) {
      assert all[i] == last[i - |drawn|] && all[i] in last;
      if all[i] in minted {
        var k :| 0 <= k < |drawn| && drawn[k] == all[i];
        assert all[k] == all[i];
      }
    }
  }

  /** Nothing stands in a call's way: neither its records, nor the folder, nor an older index. */
  ghost predicate Committable(d: Disk, signer: bool, origin: map<EntryId, string>, records: seq<Record>) {
    && 1 <= |records| <= MAX_BATCH && ModeOK(d, signer)
    && (forall p | Asked(records, p) && p in d.forward :: !Erased(EntriesOf(d, d.forward[p])))
    && forall p: Pair, at: nat :: !Conflicting(PairEntries(d, p), origin, RecordsOf(records, p), at)
  }

  /** The first call to a new folder is not in its own way, whatever its records, if they name no source. */
  lemma FirstCall(signer: bool, origin: map<EntryId, string>, records: seq<Record>)
    requires 1 <= |records| <= 1000 && forall r <- records :: r.source == ""
    ensures Committable(EMPTY_DISK, signer, origin, records)
  {
    forall p: Pair, at: nat ensures !Conflicting([], origin, RecordsOf(records, p), at) {
      if at < |RecordsOf(records, p)| { OfRecords(records, p, at); }
    }
  }

  lemma {:induction false} OfRecords(records: seq<Record>, p: Pair, at: nat)
    requires at < |RecordsOf(records, p)|
    ensures RecordsOf(records, p)[at] in records
  {
    var n := |records| - 1;
    if at < |RecordsOf(records[..n], p)| { OfRecords(records[..n], p, at); }
  }

  /** A reason that is so stands in the call's way, unless a transaction or the draws were at fault. */
  lemma NoReason(d: Disk, signer: bool, origin: map<EntryId, string>, records: seq<Record>, why: Why)
    requires Committable(d, signer, origin, records) && IndexOK(d.forward, d.reverse)
    requires Justified(d, signer, origin, records, why, false)
    ensures why.NoId?
  {
    hide ModeOK, Erased, Conflicting, IndexOK;
  }

  // ---- The index around a commit ----

  /** Every row of the index is as it was, and every new one is of a pair of the call. */
  predicate IndexGrown(d0: Disk, d: Disk, records: seq<Record>) {
    && SubMap(d0.forward, d.forward) && SubMap(d0.reverse, d.reverse)
    && (forall p <- d.forward :: p in d0.forward || Asked(records, p))
    && forall c <- d.reverse :: c in d0.reverse || (d.reverse[c].Live? && Asked(records, (d.reverse[c].subject, d.reverse[c].class_)))
  }

  lemma IndexSame(d: Disk, records: seq<Record>)
    ensures IndexGrown(d, d, records)
  {
  }

  lemma IndexBound(d: Disk, res: Resolution, records: seq<Record>)
    requires ResolvedOK(d, res) && forall p <- res.fwd :: Asked(records, p)
    ensures IndexGrown(d, Bind(d, res.fwd, res.rev), records)
  {
    hide Erased, Asked;
  }

  lemma IndexEnds(d0: Disk, d1: Disk, d: Disk, records: seq<Record>)
    requires IndexGrown(d0, d1, records)
    requires (d.forward == d1.forward && d.reverse == d1.reverse) || (d.forward == d0.forward && d.reverse == d0.reverse)
    ensures IndexGrown(d0, d, records)
  {
    hide Asked;
  }

  lemma DrawnSince(before: seq<Chain>, after: seq<Chain>, n: nat)
    requires n <= |before| && before <= after
    ensures after[..n] == before[..n] && after[n..] == before[n..] + after[|before|..] && after == before + after[|before|..]
  {
  }

  lemma FreeIs(d: Disk, before: set<Chain>, c: Chain)
    requires !Taken(d, before, c)
    ensures c !in d.reverse && EntriesOf(d, c) == [] && c !in before
  {
  }

  lemma AllAsked(records: seq<Record>, p: Pair)
    requires p in set r <- records :: PairOf(r)
    ensures Asked(records, p)
  {
  }

  /** The reasons that can come up once the new rows are bound. */
  predicate FoundLate(why: Why) {
    why.Conflicted? || why.SharedChain? || why.Failure?
  }

  lemma EarlyFound(d: Disk, signer: bool, origin: map<EntryId, string>, records: seq<Record>)
    ensures |records| == 0 || |records| > MAX_BATCH ==> Justified(d, signer, origin, records, BadCount, false)
    ensures !ModeOK(d, signer) ==> Justified(d, signer, origin, records, WrongMode, false)
  {
  }

  lemma IndexFound(d: Disk, origin: map<EntryId, string>, bound: nat)
    requires DiskCore(d, origin, bound)
    ensures IndexOK(d.forward, d.reverse)
  {
  }

  lemma BoundLive(d: Disk, chains: map<Pair, Chain>, p: Pair)
    requires Bound(d, chains) && p in chains
    ensures p in d.forward && d.forward[p] == chains[p] && !Erased(EntriesOf(d, chains[p]))
  {
  }

  lemma ConflictFound(d: Disk, signer: bool, origin: map<EntryId, string>, records: seq<Record>, chains: map<Pair, Chain>,
                      p: Pair, at: nat)
    requires p in d.forward && p in chains && d.forward[p] == chains[p]
    requires Conflicting(EntriesOf(d, chains[p]), origin, RecordsOf(records, p), at)
    ensures Justified(d, signer, origin, records, Conflicted(p, at), false)
  {
  }

  lemma SharedFound(d: Disk, signer: bool, origin: map<EntryId, string>, records: seq<Record>, chains: map<Pair, Chain>,
                    plans: Plans, done: set<Pair>, p: Pair)
    requires Bound(d, chains) && p in chains && p !in done && chains[p] in plans
    requires PlansOK(d, origin, records, chains, plans, done)
    ensures Justified(d, signer, origin, records, SharedChain, false)
  {
    hide Placed, NewFor, NewSources, Erased;
    var q :| q in done && q in chains && chains[q] == chains[p];
    assert d.forward[p] == d.forward[q];
  }

  lemma FailureFound(d: Disk, signer: bool, origin: map<EntryId, string>, records: seq<Record>)
    ensures Justified(d, signer, origin, records, Failure, true)
  {
  }

  /** A reason found after the new rows were bound was one before. */
  lemma StillJustified(d: Disk, res: Resolution, signer: bool, origin: map<EntryId, string>, records: seq<Record>, why: Why,
                       faulted: bool)
    requires ResolvedOK(d, res) && IndexOK(d.forward, d.reverse)
    requires Justified(Bind(d, res.fwd, res.rev), signer, origin, records, why, faulted)
    requires FoundLate(why)
    ensures forall f: bool | faulted ==> f :: Justified(d, signer, origin, records, why, f)
  {
    hide Conflicting, Erased;
    BindIndex(d, res.fwd, res.rev);
    if why.Conflicted? { BoundEntries(d, res, why.pair); }
  }

  lemma BoundEntries(d: Disk, res: Resolution, p: Pair)
    requires ResolvedOK(d, res)
    ensures PairEntries(Bind(d, res.fwd, res.rev), p) == PairEntries(d, p)
  {
    hide Erased;
  }

  // ---- A content write that lands although it reports an error ----

  /**
   * Commit takes a failed content write at its word and unbinds the new chains.
   * No chain without a row holds content then, exactly when the write had not
   * landed or had nothing for any new chain. What it left on the other chains
   * stays, but under their rows.
   */
  lemma ContentAtItsWord(d: Disk, res: Resolution, drafts: Drafts, landed: bool)
    requires DiskTidy(d) && ResolvedOK(d, res) && drafts.Keys <= d.reverse.Keys + res.rev.Keys
    ensures var b := Bind(d, res.fwd, res.rev);
            DiskTidy(Unbind(if landed then PutSecrets(b, drafts) else b, res.fwd, res.rev))
            <==> !landed || forall c <- res.rev :: DraftAt(drafts, c).rows == map[]
  {
    var b := Bind(d, res.fwd, res.rev);
    var x := if landed then PutSecrets(b, drafts) else b;
    forall c | c in res.rev
      ensures Tidy(ViewOf(x, c), None) <==> !landed || DraftAt(drafts, c).rows == map[]
    {
      NewChainTidy(d, res, drafts, landed, c);
    }
    hide Tidy, ResolvedOK, PutSecrets;
    BindTidy(d, res.fwd, res.rev);
    Untouched(b, drafts);
    assert PutSecrets(b, drafts).reverse == b.reverse by { SameRows(b, drafts); }
    TidyElsewhere(b, PutSecrets(b, drafts), drafts.Keys);
    UnbindTidy(x, res.fwd, res.rev);
  }

  lemma SameRows(d: Disk, drafts: Drafts)
    ensures PutSecrets(d, drafts).reverse == d.reverse
  {
  }

  lemma NewChainTidy(d: Disk, res: Resolution, drafts: Drafts, landed: bool, c: Chain)
    requires DiskTidy(d) && ResolvedOK(d, res) && c in res.rev
    ensures var b := Bind(d, res.fwd, res.rev);
            Tidy(ViewOf(if landed then PutSecrets(b, drafts) else b, c), None)
            <==> !landed || DraftAt(drafts, c).rows == map[]
  {
    var b, rows := Bind(d, res.fwd, res.rev), DraftAt(drafts, c).rows;
    assert ViewOf(b, c) == ViewOf(d, c) && RowOf(d, c) == None && EntriesOf(d, c) == [];
    assert Tidy(ViewOf(d, c), None);
    hide *;
    BlankOnly(ViewOf(d, c));
    ViewPutSecrets(b, drafts, c);
    NewRows(b, drafts, c);
    BlankOnly(ViewOf(PutSecrets(b, drafts), c));
  }

  lemma BlankOnly(v: View)
    ensures v.entries == [] ==> (Tidy(v, None) <==> v.secrets == map[] && v.sources == map[])
  {
    if v.entries == [] && v.secrets != map[] { var id :| id in v.secrets; }
  }

  lemma NewRows(b: Disk, drafts: Drafts, c: Chain)
    ensures var v, w := ViewOf(b, c), ViewOf(PutSecrets(b, drafts), c);
            w.entries == v.entries == EntriesOf(b, c) && w.sources == v.sources
            && (v.secrets == map[] ==> w.secrets == DraftAt(drafts, c).rows)
  {
  }

  // ---- One input for each late report ----

  const SOME_PAIR: Pair := ("s", "k")
  const SOME_CHAIN := Chain("k", 0)

  function OneNewPair(): Resolution {
    Resolution(map[SOME_PAIR := SOME_CHAIN], map[SOME_PAIR := SOME_CHAIN], map[SOME_CHAIN := Live("s", "k")])
  }

  /** A new pair, and an index write that lands under an error: the row stays. */
  lemma LateBindLeaves()
    ensures var res := OneNewPair();
            DiskCore(EMPTY_DISK, map[], 0) && DiskTidy(EMPTY_DISK) && ResolvedOK(EMPTY_DISK, res)
            && !NothingLeft(EMPTY_DISK, Bind(EMPTY_DISK, res.fwd, res.rev))
  {
    assert forall c :: ViewOf(EMPTY_DISK, c) == View([], map[], map[], map[]);
    LateBindStays(EMPTY_DISK, OneNewPair());
  }

  /** That pair bound, and a call about to write one record to it. */
  function BoundDisk(): Disk {
    Bind(EMPTY_DISK, OneNewPair().fwd, OneNewPair().rev)
  }

  function OneRecordCall(): Call {
    Call(BoundDisk(), map[SOME_CHAIN := Extend(EMPTY_DRAFT, 0, 0, "x", 0, "", false)], map[0 := ""], false, 0, 1, {})
  }

  lemma BoundFolder(origin: map<EntryId, string>, bound: nat)
    ensures var d := BoundDisk();
            DiskCore(d, origin, bound) && DiskTidy(d) && ForLive(d, OneRecordCall().drafts) && Gone(d, {}) && !d.signing
    ensures forall c :: ViewOf(BoundDisk(), c) == View([], map[], map[], map[])
  {
    assert forall c :: ViewOf(BoundDisk(), c) == View([], map[], map[], map[]);
  }

  lemma OneDraft()
    ensures DraftOK([], OneRecordCall().drafts[SOME_CHAIN], map[0 := ""], false, 0, 1) && Filled(OneRecordCall().drafts)
  {
    NothingDrafted([], map[], false, 0);
    hide DraftOK;
    ExtendKeeps([], EMPTY_DRAFT, map[], false, 0, 0, "x", 0, "");
  }

  lemma BoundCall()
    ensures var call := OneRecordCall();
            Between(call, call.d0) && Filled(call.drafts) && DiskTidy(call.d0)
            && ResolvedOK(call.d0, OneNewPair().(fwd := map[], rev := map[]))
  {
    var call := OneRecordCall();
    var d := call.d0;
    BoundFolder(call.origin, 1);
    OneDraft();
    assert EntriesOf(d, SOME_CHAIN) == ViewOf(d, SOME_CHAIN).entries;
    hide DiskCore, DiskTidy, DraftOK, ForLive, Filled, AllSameBut;
    SameButStart(d, call.drafts, call.origin, false, 0, 1);
  }

  /** A pair already bound, and a content write that lands under an error: the folder is tidy, and the content stays. */
  lemma LateContentLeaves()
    ensures var call, res := OneRecordCall(), OneNewPair().(fwd := map[], rev := map[]);
            var d := call.d0;
            var u := Unbind(PutSecrets(Bind(d, res.fwd, res.rev), call.drafts), res.fwd, res.rev);
            ResolvedOK(d, res) && Between(call, d) && Filled(call.drafts) && DiskTidy(d)
            && DiskTidy(u) && !NothingLeft(d, u)
  {
    var call, res := OneRecordCall(), OneNewPair().(fwd := map[], rev := map[]);
    var d := call.d0;
    var u := Unbind(PutSecrets(Bind(d, res.fwd, res.rev), call.drafts), res.fwd, res.rev);
    BoundCall();
    hide Between, Filled, DiskTidy, Extend;
    BindNone(d, res);
    BindNone(PutSecrets(d, call.drafts), res);
    LateContentStays(call);
    ContentAtItsWord(d, res, call.drafts, true);
  }
}
