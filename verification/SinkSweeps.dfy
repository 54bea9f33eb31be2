/** An erasing call over all its chains: what one chain's erasure leaves alone, and what the clearing of a row needs. */
module SinkSweeps {
  import opened Basics
  import opened SinkState
  import opened SinkTransactions
  import opened SinkErasure
  import opened SinkCommit
  import opened SinkPlans
  import opened SinkJobs

  type Presigns = map<Chain, Presigned>

  function PreOf(pre: Presigns, c: Chain): Option<Presigned> {
    if c in pre then Some(pre[c]) else None
  }

  /** Only these chains changed, and their entries only by an erasure. */
  ghost predicate Touched(d0: Disk, d: Disk, chains: set<Chain>) {
    forall c :: Ended(EntriesOf(d0, c), EntriesOf(d, c)) && (c !in chains ==> ViewOf(d, c) == ViewOf(d0, c))
  }

  predicate AllWiped(d: Disk, swept: set<Chain>) {
    forall c <- swept :: Wiped(d, c)
  }

  /** Every erasure entry decided for these chains has an id of its own. */
  predicate PreFresh(d: Disk, chains: set<Chain>, pre: Presigns, origin: map<EntryId, string>, bound: nat) {
    forall c <- chains :: c in pre ==> FreshId(d, c, pre[c].id, origin, bound)
  }

  predicate AllPrepared(d: Disk, chains: set<Chain>, pre: Presigns) {
    forall c <- chains :: Prepared(d, c, PreOf(pre, c))
  }

  predicate AllPending(d: Disk, chains: set<Chain>) {
    forall c <- chains :: c in d.reverse && d.reverse[c] == Pending
  }

  /** One more chain of a loop over all of them. */
  lemma MovedOver(all: set<Chain>, todo: set<Chain>, done: set<Chain>, c: Chain)
    requires todo + done == all && todo !! done && c in todo
    ensures (todo - {c}) + (done + {c}) == all && todo - {c} !! done + {c} && |todo - {c}| < |todo| && done + {c} - {c} == done
  {
  }

  lemma TouchedNothing(d: Disk)
    ensures Touched(d, d, {}) && AllWiped(d, {})
  {
  }

  /** One more chain of the call. */
  lemma SweptOne(d0: Disk, job: Job, d: Disk, done: set<Chain>, swept: set<Chain>, todo: set<Chain>, pre: Presigns)
    requires Touched(d0, job.d0, done) && job.c !in done && Erasing(job, d)
    requires AllWiped(job.d0, swept) && swept <= done
    requires PreFresh(job.d0, todo, pre, job.origin, job.bound)
    ensures Touched(d0, d, done + {job.c}) && AllWiped(d, swept)
    ensures Wiped(d, job.c) ==> AllWiped(d, swept + {job.c})
    ensures PreFresh(d, todo - {job.c}, pre, job.origin, job.bound)
    ensures AllPrepared(job.d0, todo, pre) ==> AllPrepared(d, todo - {job.c}, pre)
  {
    OthersKept(job, d);
    hide Erasing, Erased, OnlyRecord, Ended;
    EndedAll(d0, job, d, done);
    forall c | c in swept ensures Wiped(d, c) {
      assert Wiped(job.d0, c) && ViewOf(d, c) == ViewOf(job.d0, c);
    }
    forall c | c in todo - {job.c}
      ensures c in pre ==> FreshId(d, c, pre[c].id, job.origin, job.bound)
      ensures AllPrepared(job.d0, todo, pre) ==> Prepared(d, c, PreOf(pre, c))
    {
      assert ViewOf(d, c) == ViewOf(job.d0, c);
    }
  }

  lemma OthersKept(job: Job, d: Disk)
    requires Erasing(job, d)
    ensures Ended(EntriesOf(job.d0, job.c), EntriesOf(d, job.c))
    ensures forall x: Chain :: x != job.c ==> ViewOf(d, x) == ViewOf(job.d0, x)
  {
  }

  lemma EndedAll(d0: Disk, job: Job, d: Disk, done: set<Chain>)
    requires Touched(d0, job.d0, done) && job.c !in done
    requires Ended(EntriesOf(job.d0, job.c), EntriesOf(d, job.c))
    requires forall x: Chain :: x != job.c ==> ViewOf(d, x) == ViewOf(job.d0, x)
    ensures Touched(d0, d, done + {job.c})
  {
    hide Ended;
    forall c: Chain
      ensures Ended(EntriesOf(d0, c), EntriesOf(d, c)) && (c !in done + {job.c} ==> ViewOf(d, c) == ViewOf(d0, c))
    {
      assert Ended(EntriesOf(d0, c), EntriesOf(job.d0, c));
      if c != job.c {
        assert ViewOf(d, c) == ViewOf(job.d0, c);
      } else {
        assert ViewOf(job.d0, c) == ViewOf(d0, c);
      }
    }
  }

  /** What a transaction of the rewriting and clearing steps leaves as it was: everything but the index and free pages. */
  predicate SameFiles(d0: Disk, d: Disk) {
    d.evidence == d0.evidence && d.secrets == d0.secrets && d.sources == d0.sources && d.signatures == d0.signatures
    && d.signing == d0.signing
  }

  lemma SameViews(d0: Disk, d: Disk)
    requires SameFiles(d0, d)
    ensures forall c :: ViewOf(d, c) == ViewOf(d0, c)
    ensures forall chains :: AllWiped(d0, chains) ==> AllWiped(d, chains)
  {
    assert forall c :: ViewOf(d, c) == ViewOf(d0, c);
    hide OnlyRecord, Erased;
    forall chains: set<Chain> | AllWiped(d0, chains) ensures AllWiped(d, chains) {
      forall c | c in chains ensures Wiped(d, c) {
        assert Wiped(d0, c) && ViewOf(d, c) == ViewOf(d0, c);
      }
    }
  }

  /** Rewriting a file loses nothing but what its free pages held. */
  lemma RewriteKeeps(d: Disk, d': Disk, origin: map<EntryId, string>, bound: nat, cleared: set<Chain>)
    requires DiskCore(d, origin, bound) && SameFiles(d, d') && d'.forward == d.forward && d'.reverse == d.reverse
    requires d'.staleSecrets <= d.staleSecrets && d'.staleSources <= d.staleSources && d'.staleIndex <= d.staleIndex
    ensures DiskCore(d', origin, bound) && (NeatDisk(d, cleared) ==> NeatDisk(d', cleared))
  {
    SameViews(d, d');
    hide Core, Tidy, Wiped, AllWiped;
    forall c: Chain
      ensures Core(ViewOf(d', c), d'.signing, origin, bound)
      ensures DiskTidy(d) ==> Tidy(ViewOf(d', c), RowOf(d', c))
    {
      assert ViewOf(d', c) == ViewOf(d, c) && RowOf(d', c) == RowOf(d, c);
      assert Core(ViewOf(d, c), d.signing, origin, bound);
      if DiskTidy(d) { assert Tidy(ViewOf(d, c), RowOf(d, c)); }
    }
  }

  /** Nothing of the chain's content is left, in its rows or in free pages, and nothing links it to a subject. */
  predicate ErasedFully(d: Disk, c: Chain) {
    match c
    case Chain(_, _) =>
      c !in d.reverse && Wiped(d, c) && c !in d.staleSecrets && c !in d.staleSources && c !in d.staleIndex
  }

  predicate Rewritten(d: Disk) {
    d.staleSecrets == {} && d.staleSources == {} && d.staleIndex == {}
  }

  /** A pending row may go once its chain is wiped and the files were rewritten. */
  lemma ClearStep(d: Disk, c: Chain, origin: map<EntryId, string>, bound: nat, cleared: set<Chain>)
    requires DiskCore(d, origin, bound) && c in d.reverse && d.reverse[c] == Pending && Wiped(d, c) && Rewritten(d)
    ensures DiskCore(Clear(d, c), origin, bound) && ErasedFully(Clear(d, c), c)
    ensures NeatDisk(d, cleared) ==> NeatDisk(Clear(d, c), cleared + {c})
    ensures SameFiles(d, Clear(d, c)) && Rewritten(Clear(d, c))
  {
    ClearKeeps(d, c, origin, bound);
    SameViews(d, Clear(d, c));
    assert Wiped(Clear(d, c), c) by {
      assert AllWiped(d, {c});
      assert AllWiped(Clear(d, c), {c});
    }
    assert Tidy(ViewOf(d, c), None);
    hide DiskCore, DiskTidy, Wiped;
  }

  lemma PreNothing(d: Disk, chains: set<Chain>, origin: map<EntryId, string>, bound: nat)
    ensures PreFresh(d, chains, map[], origin, bound) && AllPrepared(d, {}, map[]) && Grows(origin, bound, origin, bound)
  {
  }

  lemma PreSkips(d: Disk, chains: set<Chain>, done: set<Chain>, pre: Presigns, c: Chain)
    ensures AllPrepared(d, done, pre) && (EntriesOf(d, c) == [] || Erased(EntriesOf(d, c))) ==> AllPrepared(d, done + {c}, pre)
  {
  }

  lemma GrowsTwice(o0: map<EntryId, string>, b0: nat, o1: map<EntryId, string>, b1: nat, o2: map<EntryId, string>, b2: nat)
    requires Grows(o0, b0, o1, b1) && Grows(o1, b1, o2, b2)
    ensures Grows(o0, b0, o2, b2)
  {
  }

  lemma PreGrows(d: Disk, chains: set<Chain>, pre: Presigns, origin: map<EntryId, string>, bound: nat,
                 origin': map<EntryId, string>, bound': nat)
    requires PreFresh(d, chains, pre, origin, bound) && Grows(origin, bound, origin', bound')
    ensures PreFresh(d, chains, pre, origin', bound')
  {
    forall c | c in chains && c in pre ensures FreshId(d, c, pre[c].id, origin', bound') {
      assert FreshId(d, c, pre[c].id, origin, bound);
    }
  }

  /** One more chain's entry, under an id just drawn. */
  lemma PreOne(d: Disk, chains: set<Chain>, done: set<Chain>, pre: Presigns, c: Chain, id: EntryId,
               origin: map<EntryId, string>, bound: nat)
    requires (forall e <- EntriesOf(d, c) :: e.id < bound) && id == bound
    requires PreFresh(d, chains, pre, origin[id := ""], bound + 1) && c !in done && pre.Keys <= done
    ensures var next := pre[c := Presigned(id, |EntriesOf(d, c)|)];
            PreFresh(d, chains, next, origin[id := ""], bound + 1)
            && (AllPrepared(d, done, pre) ==> AllPrepared(d, done + {c}, next))
  {
    var next := pre[c := Presigned(id, |EntriesOf(d, c)|)];
    assert FreshId(d, c, id, origin[id := ""], bound + 1);
    hide FreshId, Erased;
    if AllPrepared(d, done, pre) {
      forall x | x in done + {c} ensures Prepared(d, x, PreOf(next, x)) {
        if x in done { assert Prepared(d, x, PreOf(pre, x)); }
      }
    }
  }

  lemma PreAt(d: Disk, chains: set<Chain>, pre: Presigns, c: Chain, origin: map<EntryId, string>, bound: nat)
    requires PreFresh(d, chains, pre, origin, bound) && c in chains
    ensures c in pre ==> FreshId(d, c, pre[c].id, origin, bound)
    ensures AllPrepared(d, chains, pre) ==> Prepared(d, c, PreOf(pre, c))
  {
  }

  lemma ErasingEnds(job: Job, d: Disk)
    requires Erasing(job, d)
    ensures DiskCore(d, job.origin, job.bound) && ModeOK(d, job.signer) && d.forward == job.d0.forward && d.reverse == job.d0.reverse
    ensures (NeatDisk(job.d0, job.cleared) ==> NeatDisk(d, job.cleared)) && Traced(job.d0, d)
  {
  }

  lemma OneLeft(done: set<Chain>, swept: set<Chain>, c: Chain)
    ensures |done + {c} - swept| <= |done - swept| + 1 && (c !in done ==> done + {c} - (swept + {c}) == done - swept)
  {
    if c !in swept && c !in done { assert done + {c} - swept == (done - swept) + {c}; } else { assert done + {c} - swept == done - swept; }
  }

  lemma TouchedMore(d0: Disk, d: Disk, some: set<Chain>, all: set<Chain>)
    requires Touched(d0, d, some) && some <= all
    ensures Touched(d0, d, all)
  {
  }

  lemma RewriteStep(d: Disk, origin: map<EntryId, string>, bound: nat, cleared: set<Chain>, signer: bool)
    requires DiskCore(d, origin, bound) && ModeOK(d, signer)
    ensures forall d' <- [d.(staleSecrets := {}), d.(staleSources := {}), d.(staleIndex := {})] ::
              DiskCore(d', origin, bound) && ModeOK(d', signer) && (NeatDisk(d, cleared) ==> NeatDisk(d', cleared))
  {
    hide DiskCore, NeatDisk, ModeOK;
    forall d' | d' in [d.(staleSecrets := {}), d.(staleSources := {}), d.(staleIndex := {})]
      ensures DiskCore(d', origin, bound) && ModeOK(d', signer) && (NeatDisk(d, cleared) ==> NeatDisk(d', cleared))
    {
      RewriteKeeps(d, d', origin, bound, cleared);
      SameMode(d, d', signer);
    }
  }

  /** Rows of the index went, and no others, and each only of a chain that is erased for good. */
  predicate OnlyCleared(d0: Disk, d: Disk, chains: set<Chain>) {
    match d
    case Disk(_, _, _, _, _, _, reverse, _, _, _) =>
      (forall c <- d0.reverse :: if c in reverse then reverse[c] == d0.reverse[c] else c in chains && ErasedFully(d, c))
      && forall c <- reverse :: c in d0.reverse
  }

  lemma NothingCleared(d: Disk, chains: set<Chain>)
    ensures OnlyCleared(d, d, chains)
  {
  }

  /** One more pending row gone. */
  lemma ClearNext(d0: Disk, d: Disk, c: Chain, swept: set<Chain>, todo: set<Chain>,
                  origin: map<EntryId, string>, bound: nat, cleared: set<Chain>)
    requires DiskCore(d, origin, bound) && SameFiles(d0, d) && Rewritten(d) && c in todo && todo <= swept
    requires AllPending(d, todo) && AllWiped(d, todo) && OnlyCleared(d0, d, swept)
    ensures var e := Clear(d, c);
            DiskCore(e, origin, bound) && (NeatDisk(d, cleared) ==> NeatDisk(e, cleared + {c})) && SameFiles(d0, e)
            && Rewritten(e) && AllPending(e, todo - {c}) && AllWiped(e, todo - {c}) && OnlyCleared(d0, e, swept)
            && e.forward == d.forward && e.reverse.Keys == d.reverse.Keys - {c}
  {
    hide DiskCore, NeatDisk, Wiped, OnlyCleared, AllWiped, AllPending;
    ClearSets(d, c, todo);
    ClearedMore(d0, d, c, swept);
    ClearStep(d, c, origin, bound, cleared);
    SameViews(d, Clear(d, c));
  }

  lemma ClearSets(d: Disk, c: Chain, todo: set<Chain>)
    requires AllPending(d, todo) && AllWiped(d, todo) && c in todo
    ensures c in d.reverse && d.reverse[c] == Pending && Wiped(d, c)
    ensures AllWiped(d, todo - {c}) && AllPending(Clear(d, c), todo - {c})
  {
  }

  lemma ClearedMore(d0: Disk, d: Disk, c: Chain, swept: set<Chain>)
    requires OnlyCleared(d0, d, swept) && c in swept && Wiped(d, c) && Rewritten(d)
    ensures OnlyCleared(d0, Clear(d, c), swept)
  {
    var e := Clear(d, c);
    hide Wiped;
    assert SameFiles(d, e) && Rewritten(e);
    SameViews(d, e);
    forall x | x in d0.reverse
      ensures if x in e.reverse then e.reverse[x] == d0.reverse[x] else x in swept && ErasedFully(e, x)
    {
      if x !in e.reverse {
        assert AllWiped(d, {x});
        assert AllWiped(e, {x});
      }
    }
  }

  /** The end of a call: what was swept is all that changed, and what was cleared is all that went. */
  lemma SweptEnds(d0: Disk, d1: Disk, d2: Disk, d3: Disk, chains: set<Chain>, swept: set<Chain>)
    requires Touched(d0, d1, chains) && d1.reverse == d0.reverse && swept <= chains && AllWiped(d1, swept)
    requires AllPending(d0, chains)
    requires (d2 == d1 || SameFiles(d1, d2)) && d2.reverse == d1.reverse
    requires d3 == d2 || (SameFiles(d2, d3) && OnlyCleared(d2, d3, swept))
    ensures Touched(d0, d3, chains) && OnlyCleared(d0, d3, chains)
    ensures AllPending(d2, swept) && AllWiped(d2, swept)
  {
    SameViews(d1, d2);
    SameViews(d2, d3);
    hide Ended, Wiped;
    NothingCleared(d2, swept);
    assert OnlyCleared(d2, d3, swept);
    forall c: Chain
      ensures Ended(EntriesOf(d0, c), EntriesOf(d3, c)) && (c !in chains ==> ViewOf(d3, c) == ViewOf(d0, c))
    {
      assert ViewOf(d3, c) == ViewOf(d2, c) == ViewOf(d1, c);
      assert Ended(EntriesOf(d0, c), EntriesOf(d1, c));
    }
  }

  // ---- The index over a whole call ----

  function PendingOf(d: Disk): set<Chain> {
    set c | c in d.reverse && d.reverse[c] == Pending
  }

  predicate SameIndex(d0: Disk, d: Disk) {
    d.forward == d0.forward && d.reverse == d0.reverse
  }

  /** A chain leaves the index only once it is erased for good. */
  predicate Dropped(d0: Disk, d: Disk) {
    match d
    case Disk(_, _, _, _, _, _, reverse, _, _, _) => forall c <- d0.reverse :: c in reverse || ErasedFully(d, c)
  }

  lemma NothingDropped(d: Disk)
    ensures Dropped(d, d) && SameFiles(d, d) && SubMap(d.forward, d.forward)
    ensures forall chains :: Touched(d, d, chains)
  {
    TouchedNothing(d);
    assert forall chains :: Touched(d, d, chains) by { hide Ended; }
  }

  lemma SmallTouch(d: Disk, chains: set<Chain>)
    ensures Touched(d, d, chains)
  {
    TouchedNothing(d);
    TouchedMore(d, d, {}, chains);
  }

  /** subjectsStore.forget, between the decisions and the erasures they are for. */
  lemma ForgetStep(d: Disk, subject: string, class_: Option<string>, pre: Presigns, signer: bool,
                   origin: map<EntryId, string>, bound: nat, cleared: set<Chain>)
    requires DiskCore(d, origin, bound) && ModeOK(d, signer)
    ensures var f, chains := Forget(d, subject, class_), PendingOf(d) + ChainsOf(d, subject, class_);
            && DiskCore(f, origin, bound) && ModeOK(f, signer) && (NeatDisk(d, cleared) ==> NeatDisk(f, cleared))
            && Forgotten(f, subject, class_) && RestKept(d, f, subject, class_) && InScopeOf(d, subject, class_, chains)
            && AllPending(f, chains) && SameFiles(d, f) && Dropped(d, f) && Touched(d, f, chains)
            && (PreFresh(d, chains, pre, origin, bound) ==> PreFresh(f, chains, pre, origin, bound))
            && (AllPrepared(d, chains, pre) ==> AllPrepared(f, chains, pre))
  {
    var f, chains := Forget(d, subject, class_), PendingOf(d) + ChainsOf(d, subject, class_);
    ForgetRows(d, subject, class_, cleared);
    hide Forgotten, RestKept, Forget, ChainsOf, AllPending, Dropped, PreFresh, AllPrepared, Touched, InScopeOf;
    ForgetKeeps(d, subject, class_, origin, bound);
    hide DiskCore, DiskTidy;
    SameMode(d, f, signer);
    SamePre(d, f, chains, pre, origin, bound);
  }

  lemma ForgetRows(d: Disk, subject: string, class_: Option<string>, cleared: set<Chain>)
    requires IndexOK(d.forward, d.reverse)
    ensures var f, chains := Forget(d, subject, class_), PendingOf(d) + ChainsOf(d, subject, class_);
            && SameFiles(d, f) && Dropped(d, f) && AllPending(f, chains) && InScopeOf(d, subject, class_, chains)
            && (Gone(d, cleared) ==> Gone(f, cleared))
  {
  }

  lemma SamePre(d: Disk, f: Disk, chains: set<Chain>, pre: Presigns, origin: map<EntryId, string>, bound: nat)
    requires SameFiles(d, f)
    ensures PreFresh(d, chains, pre, origin, bound) ==> PreFresh(f, chains, pre, origin, bound)
    ensures AllPrepared(d, chains, pre) ==> AllPrepared(f, chains, pre)
    ensures Touched(d, f, chains)
  {
    SameViews(d, f);
    hide Erased, OnlyRecord;
    assert forall c :: EntriesOf(f, c) == EntriesOf(d, c);
    if PreFresh(d, chains, pre, origin, bound) {
      forall c | c in chains && c in pre ensures FreshId(f, c, pre[c].id, origin, bound) {
        assert FreshId(d, c, pre[c].id, origin, bound);
      }
    }
  }

  /** The erasures done after a forget. */
  lemma FinishedAfter(d0: Disk, d1: Disk, d2: Disk, chains: set<Chain>, subject: string, class_: Option<string>)
    requires d1 == Forget(d0, subject, class_) && Forgotten(d1, subject, class_) && SameFiles(d0, d1)
    requires RestKept(d0, d1, subject, class_)
    requires AllPending(d1, chains) && Touched(d1, d2, chains) && d2.forward == d1.forward && OnlyCleared(d1, d2, chains)
    ensures Forgotten(d2, subject, class_) && Dropped(d0, d2) && Touched(d0, d2, chains) && RestKept(d0, d2, subject, class_)
    ensures forall c <- chains :: c in d2.reverse || ErasedFully(d2, c)
  {
    RestFinished(d0, d1, d2, chains, subject, class_);
    hide RestKept;
    SameViews(d0, d1);
    hide Ended, ErasedFully;
    forall c: Chain
      ensures Ended(EntriesOf(d0, c), EntriesOf(d2, c)) && (c !in chains ==> ViewOf(d2, c) == ViewOf(d0, c))
    {
      assert ViewOf(d1, c) == ViewOf(d0, c) && Ended(EntriesOf(d1, c), EntriesOf(d2, c));
    }
  }

  lemma RestSame(d: Disk, subject: string, class_: Option<string>)
    ensures RestKept(d, d, subject, class_)
  {
  }

  lemma RestFinished(d0: Disk, d1: Disk, d2: Disk, chains: set<Chain>, subject: string, class_: Option<string>)
    requires RestKept(d0, d1, subject, class_) && AllPending(d1, chains) && Touched(d1, d2, chains)
    requires d2.forward == d1.forward && OnlyCleared(d1, d2, chains)
    ensures RestKept(d0, d2, subject, class_)
  {
    hide Ended, ErasedFully, ViewOf;
    forall c | c in d0.reverse && d0.reverse[c].Live? && (d0.reverse[c].subject != subject || (class_.Some? && d0.reverse[c].class_ != class_.value))
      ensures c in d2.reverse && d2.reverse[c] == d0.reverse[c] && ViewOf(d2, c) == ViewOf(d0, c)
    {
      assert d1.reverse[c] == d0.reverse[c] && ViewOf(d1, c) == ViewOf(d0, c) && c !in chains;
    }
  }

  /** The chains of the subject's pairs, or of its pair in that class, are among these. */
  predicate InScopeOf(d: Disk, subject: string, class_: Option<string>, chains: set<Chain>) {
    forall pair <- d.forward :: pair.0 == subject && (class_.None? || pair.1 == class_.value) ==> d.forward[pair] in chains
  }

  /** Every live row on a chain that does not end with a genuine erasure is as it was, and so is its chain. */
  ghost predicate LiveKept(d0: Disk, d: Disk) {
    forall c <- d0.reverse | d0.reverse[c].Live? && !Erased(EntriesOf(d0, c)) ::
      c in d.reverse && d.reverse[c] == d0.reverse[c] && ViewOf(d, c) == ViewOf(d0, c)
  }

  /** Live rows became pending ones; nothing else of the index changed. */
  predicate OnlyPended(d0: Disk, d: Disk) {
    match d
    case Disk(_, _, _, _, _, forward, reverse, _, _, _) =>
      reverse.Keys == d0.reverse.Keys && SubMap(forward, d0.forward)
      && forall c <- reverse :: reverse[c] == d0.reverse[c] || reverse[c] == Pending
  }

  lemma NotRelinked(d: Disk)
    ensures OnlyPended(d, d) && SameFiles(d, d) && LiveKept(d, d)
  {
  }

  lemma RelinkedStep(d0: Disk, d: Disk, c: Chain, signer: bool, origin: map<EntryId, string>, bound: nat, cleared: set<Chain>)
    requires DiskCore(d, origin, bound) && ModeOK(d, signer) && c in d.reverse && d.reverse[c].Live?
    requires SameFiles(d0, d) && OnlyPended(d0, d) && LiveKept(d0, d) && Erased(EntriesOf(d, c))
    ensures var f := ForgetChain(d, c);
            DiskCore(f, origin, bound) && ModeOK(f, signer) && (NeatDisk(d, cleared) ==> NeatDisk(f, cleared))
            && SameFiles(d0, f) && OnlyPended(d0, f) && LiveKept(d0, f) && f.reverse == d.reverse[c := Pending]
            && forall x :: EntriesOf(f, x) == EntriesOf(d, x)
  {
    var f := ForgetChain(d, c);
    ForgetChainKeeps(d, c, origin, bound);
    RelinkedIndex(d0, d, c, cleared);
    hide DiskCore, DiskTidy, OnlyPended, ForgetChain, LiveKept, Gone, Erased, ModeOK;
    SameMode(d, f, signer);
    RelinkedKept(d0, d, f, c);
  }

  lemma RelinkedIndex(d0: Disk, d: Disk, c: Chain, cleared: set<Chain>)
    requires c in d.reverse && d.reverse[c].Live? && SameFiles(d0, d) && OnlyPended(d0, d)
    ensures var f := ForgetChain(d, c);
            && SameFiles(d, f) && SameFiles(d0, f) && OnlyPended(d0, f) && f.reverse == d.reverse[c := Pending]
            && (Gone(d, cleared) ==> Gone(f, cleared)) && forall x :: EntriesOf(f, x) == EntriesOf(d, x)
  {
  }

  lemma RelinkedKept(d0: Disk, d: Disk, f: Disk, c: Chain)
    requires SameFiles(d0, d) && SameFiles(d0, f) && LiveKept(d0, d) && Erased(EntriesOf(d, c)) && f.reverse == d.reverse[c := Pending]
    ensures LiveKept(d0, f)
  {
    SameViews(d0, d);
    SameViews(d0, f);
    assert ViewOf(d, c).entries == ViewOf(d0, c).entries;
    hide Erased, SameFiles;
  }

  lemma RelinkedEnds(d0: Disk, d1: Disk)
    requires SameFiles(d0, d1) && OnlyPended(d0, d1)
    ensures Touched(d0, d1, d0.reverse.Keys)
    ensures SubMap(d1.forward, d0.forward) && Dropped(d0, d1) && AllPending(d1, PendingOf(d1)) && PendingOf(d0) <= PendingOf(d1)
  {
    SamePre(d0, d1, d0.reverse.Keys, map[], map[], 0);
    hide ErasedFully;
  }

  /** The erasures done after the relinked rows were forgotten. */
  lemma ResumedAfter(d0: Disk, d1: Disk, d2: Disk, chains: set<Chain>)
    requires SameFiles(d0, d1) && OnlyPended(d0, d1) && LiveKept(d0, d1) && chains == PendingOf(d1)
    requires Touched(d1, d2, chains) && d2.forward == d1.forward && OnlyCleared(d1, d2, chains)
    ensures SubMap(d2.forward, d0.forward) && Dropped(d0, d2) && Touched(d0, d2, d0.reverse.Keys) && LiveKept(d0, d2)
    ensures forall c <- PendingOf(d0) :: c in d2.reverse || ErasedFully(d2, c)
    ensures (forall c <- chains :: c !in d2.reverse) && (forall c <- d1.reverse :: d1.reverse[c].Live? ==> !Erased(EntriesOf(d1, c))) ==>
              forall c <- d2.reverse :: d2.reverse[c].Live? && !Erased(EntriesOf(d2, c))
  {
    hide Ended, ErasedFully, Erased, SameFiles;
    TouchedSince(d0, d1, d2, chains);
    LiveFinished(d0, d1, d2, chains);
    hide Touched, LiveKept;
    forall c: Chain | c !in chains ensures EntriesOf(d2, c) == EntriesOf(d1, c) { UntouchedEntries(d1, d2, chains, c); }
  }

  lemma LiveFinished(d0: Disk, d1: Disk, d2: Disk, chains: set<Chain>)
    requires LiveKept(d0, d1) && chains == PendingOf(d1) && Touched(d1, d2, chains) && OnlyCleared(d1, d2, chains)
    ensures LiveKept(d0, d2)
  {
    hide Ended, ErasedFully, Erased, ViewOf;
    forall c | c in d0.reverse && d0.reverse[c].Live? && !Erased(EntriesOf(d0, c))
      ensures c in d2.reverse && d2.reverse[c] == d0.reverse[c] && ViewOf(d2, c) == ViewOf(d0, c)
    {
      assert d1.reverse[c] == d0.reverse[c] && c !in chains && ViewOf(d1, c) == ViewOf(d0, c);
    }
  }

  lemma TouchedSince(d0: Disk, d1: Disk, d2: Disk, chains: set<Chain>)
    requires SameFiles(d0, d1) && OnlyPended(d0, d1) && chains <= d1.reverse.Keys && Touched(d1, d2, chains)
    ensures Touched(d0, d2, d0.reverse.Keys)
  {
    hide Ended;
    SameViews(d0, d1);
    forall c: Chain
      ensures Ended(EntriesOf(d0, c), EntriesOf(d2, c)) && (c !in d0.reverse.Keys ==> ViewOf(d2, c) == ViewOf(d0, c))
    {
      assert ViewOf(d1, c) == ViewOf(d0, c) && Ended(EntriesOf(d1, c), EntriesOf(d2, c));
    }
  }

  lemma UntouchedEntries(d1: Disk, d2: Disk, chains: set<Chain>, c: Chain)
    requires Touched(d1, d2, chains) && c !in chains
    ensures EntriesOf(d2, c) == EntriesOf(d1, c)
  {
    hide Ended;
    assert ViewOf(d2, c) == ViewOf(d1, c);
  }

  // ---- What erasing does to the record ----

  /** An erasing call only appends, and never after a genuine erasure. */
  lemma TouchedGrows(d0: Disk, d1: Disk, d2: Disk, chains: set<Chain>)
    requires SameFiles(d0, d1) && Touched(d1, d2, chains)
    ensures OnlyGrown(d0, d2)
  {
    SameViews(d0, d1);
    forall c: Chain
      ensures EntriesOf(d0, c) <= EntriesOf(d2, c) && (Erased(EntriesOf(d0, c)) ==> EntriesOf(d2, c) == EntriesOf(d0, c))
    {
      assert ViewOf(d1, c) == ViewOf(d0, c) && Ended(EntriesOf(d1, c), EntriesOf(d2, c));
    }
  }

  lemma CallChains(d: Disk, subject: string, class_: Option<string>, origin: map<EntryId, string>, bound: nat)
    requires DiskCore(d, origin, bound)
    ensures PendingOf(d) + ChainsOf(d, subject, class_) <= d.reverse.Keys
  {
  }

  /** An erasing call over chains of the index leaves every chain accounted for, wherever it ends. */
  lemma AccountedErasing(d0: Disk, chains: set<Chain>)
    requires chains <= d0.reverse.Keys
    ensures AllAccounted(d0) ==> forall d :: Touched(d0, d, chains) && Dropped(d0, d) ==> AllAccounted(d)
  {
    hide AllAccounted, Touched, Dropped;
    forall d | AllAccounted(d0) && Touched(d0, d, chains) && Dropped(d0, d) ensures AllAccounted(d) {
      AccountedErased(d0, d, chains);
    }
  }

  lemma AccountedErased(d0: Disk, d: Disk, chains: set<Chain>)
    requires chains <= d0.reverse.Keys && AllAccounted(d0) && Touched(d0, d, chains) && Dropped(d0, d)
    ensures AllAccounted(d)
  {
    hide Ended, OnlyRecord, Erased;
    forall c: Chain ensures Accounted(d, c) {
      if c in d0.reverse {
        assert c in d.reverse || ErasedFully(d, c);
      } else {
        assert Accounted(d0, c) && ViewOf(d, c) == ViewOf(d0, c);
        assert ViewOf(d, c).entries == EntriesOf(d, c) && ViewOf(d0, c).entries == EntriesOf(d0, c);
      }
    }
  }

  lemma GrownTwice(a: Disk, b: Disk, c: Disk)
    requires OnlyGrown(a, b) && OnlyGrown(b, c)
    ensures OnlyGrown(a, c)
  {
    hide Erased;
    forall x: Chain
      ensures EntriesOf(a, x) <= EntriesOf(c, x) && (Erased(EntriesOf(a, x)) ==> EntriesOf(c, x) == EntriesOf(a, x))
    {
      assert EntriesOf(a, x) <= EntriesOf(b, x) && EntriesOf(b, x) <= EntriesOf(c, x);
    }
  }

  lemma FilesGrown(a: Disk, b: Disk)
    requires SameFiles(a, b)
    ensures OnlyGrown(a, b)
  {
    GrownSame(a, b);
  }
}
