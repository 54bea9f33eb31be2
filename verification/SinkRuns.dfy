/** Whole runs of the sink: any calls in any order, each cut short by a crash or not. */
module SinkRuns {
  import opened Basics
  import opened SinkState
  import opened SinkTransactions
  import opened SinkErasure
  import opened SinkCommit
  import opened SinkRecords
  import opened SinkPlans
  import opened SinkSweeps
  import opened SinkProtocol

  datatype Call = CallCommit(records: seq<Record>) | CallErase(subject: string, class_: Option<string>) | CallResume
                | CallRestore(forward: map<Pair, Chain>, reverse: map<Chain, Row>)

  /**
   * Crash safety, said of one chain: its events can be opened unless it is
   * erased for good, nothing follows a genuine erasure, a signing folder has
   * every signature, and no source was committed twice.
   */
  predicate Recoverable(d: Disk, origin: map<EntryId, string>, c: Chain) {
    var es, v := EntriesOf(d, c), ViewOf(d, c);
    && (forall i | 0 <= i < |es| && es[i].kind == Event && !Erased(es) :: es[i].id in v.secrets && Opens(es[i], v.secrets[es[i].id]))
    && (forall i | 0 <= i < |es| && es[i].kind == Erasure :: i == |es| - 1 && Erased(es))
    && (d.signing ==> forall i | 0 <= i < |es| :: es[i].id in v.signatures && v.signatures[es[i].id] == Signed(es[i].kind, i, es[i].hash))
    && (forall i, j | 0 <= i < j < |es| && SourceOf(origin, es[i].id) != "" :: SourceOf(origin, es[i].id) != SourceOf(origin, es[j].id))
  }

  lemma SoundMeans(d: Disk, origin: map<EntryId, string>, bound: nat)
    requires DiskCore(d, origin, bound)
    ensures forall c :: Recoverable(d, origin, c)
    ensures DiskTidy(d) ==> forall c :: Accounted(d, c)
  {
    hide Core, Tidy, Recoverable, Accounted;
    forall c: Chain ensures Recoverable(d, origin, c) && (DiskTidy(d) ==> Accounted(d, c)) {
      assert Core(ViewOf(d, c), d.signing, origin, bound);
      CoreMeans(d, origin, bound, c);
      if DiskTidy(d) {
        assert Tidy(ViewOf(d, c), RowOf(d, c));
        TidyMeans(d, c);
      }
    }
  }

  lemma CoreMeans(d: Disk, origin: map<EntryId, string>, bound: nat, c: Chain)
    requires Core(ViewOf(d, c), d.signing, origin, bound)
    ensures Recoverable(d, origin, c)
  {
    hide DistinctIds, IdsBelow, Located, Truthful, Erased, ErasureRecord;
    assert ViewOf(d, c).entries == EntriesOf(d, c);
  }

  lemma TidyMeans(d: Disk, c: Chain)
    requires Tidy(ViewOf(d, c), RowOf(d, c))
    ensures Accounted(d, c)
  {
    hide OnlyRecord, Erased;
  }

  predicate Restores(calls: seq<Call>) {
    exists c <- calls :: c.CallRestore?
  }

  lemma RestoresMore(calls: seq<Call>, i: nat)
    requires i < |calls|
    ensures Restores(calls[..i + 1]) <==> Restores(calls[..i]) || calls[i].CallRestore?
  {
    assert calls[..i + 1] == calls[..i] + [calls[i]];
  }

  /**
   * After any run, whatever its transactions met: every chain is recoverable,
   * it was only appended to and never after a genuine erasure, and unless an
   * old index was put back, every chain with entries is bound, pending or
   * erased. A chain without entries and without a row holds nothing, unless a
   * content write landed late.
   */
  method Run(s: Sink, calls: seq<Call>)
    requires s.Valid() && s.Neat() && forall c <- calls :: c.CallRestore? ==> IndexOK(c.forward, c.reverse)
    modifies s
    ensures s.Valid() && OnlyGrown(old(s.disk), s.disk)
    ensures forall c :: Recoverable(s.disk, s.origin, c)
    ensures !Restores(calls) ==> forall c :: Accounted(s.disk, c)
    ensures !Restores(calls) && s.lateContents == old(s.lateContents) ==> s.Neat()
  {
    hide DiskCore, NeatDisk, OnlyGrown, Restores, Recoverable, Accounted, AllAccounted, NothingLeft, Touched, Dropped, SameFiles, Committed, Justified, SameEntries, NothingNew,
         Forgotten, ErasedFully, ModeOK;
    ghost var d0 := s.disk;
    GrownSame(d0, d0);
    NeatAccounted(d0, s.origin, s.nextId, s.cleared);
    for i := 0 to |calls|
      invariant s.Valid() && OnlyGrown(d0, s.disk)
      invariant s.lateContents >= old(s.lateContents)
      invariant !Restores(calls[..i]) ==> AllAccounted(s.disk)
      invariant !Restores(calls[..i]) && s.lateContents == old(s.lateContents) ==> s.Neat()
    {
      ghost var d := s.disk;
      RestoresMore(calls, i);
      match calls[i] {
        case CallCommit(records) =>
          var r := s.Commit(records);
        case CallErase(subject, class_) =>
          var r := s.EraseSubject(subject, class_);
          NothingDropped(d);
          TouchedGrows(d, d, s.disk, PendingOf(d) + ChainsOf(d, subject, class_));
        case CallResume =>
          var r := s.ResumeErasures();
        case CallRestore(forward, reverse) =>
          s.RestoreIndex(forward, reverse);
          FilesGrown(d, s.disk);
      }
      GrownTwice(d0, d, s.disk);
    }
    assert calls[..|calls|] == calls;
    SoundMeans(s.disk, s.origin, s.nextId);
    if AllAccounted(s.disk) { AccountedAll(s.disk); }
  }

  lemma NeatAccounted(d: Disk, origin: map<EntryId, string>, bound: nat, cleared: set<Chain>)
    requires DiskCore(d, origin, bound) && NeatDisk(d, cleared)
    ensures AllAccounted(d)
  {
    SoundMeans(d, origin, bound);
    hide Accounted;
  }

  lemma AccountedAll(d: Disk)
    requires AllAccounted(d)
    ensures forall c :: Accounted(d, c)
  {
  }
}
