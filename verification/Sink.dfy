/**
 * The writer's two calls, Commit and erase, as they change the folder's files.
 * Every file transaction meets a fate of its own; a crash ends the call where
 * it is, so the folders a call can leave are all the folders there are between
 * two transactions.
 */
module SinkProtocol {
  import opened Basics
  import opened SinkState
  import opened SinkStages
  import opened SinkTransactions
  import opened SinkErasure
  import opened SinkCommit
  import opened SinkRecords
  import opened SinkPlans
  import opened SinkJobs
  import opened SinkSweeps

  /** A transaction commits, is refused, reports an error after its commit landed, or meets a crash. */
  datatype Fate = Done | Refused | Late | Crash(landed: bool)

  predicate Lands(f: Fate) {
    f.Done? || f.Late? || (f.Crash? && f.landed)
  }

  /** How commitPairs ended. */
  datatype Step = Landed | Failed(cleaned: bool, why: Why) | Unknown | Crashed

  /** How a Commit ended; clean says that no clean-up of a rejected call failed. */
  datatype Outcome = Accepted | Rejected(clean: bool, why: Why) | Uncertain | Died

  /** How an erasing call ended; after a refusal nothing was erased. */
  datatype ErasureEnd = Completed | Incomplete | NotStarted | Killed

  class Sink {
    var disk: Disk
    var nextId: EntryId
    const signer: bool

    /** The source each entry id was drawn for; how many transactions did not simply commit; what was cleared. */
    ghost var origin: map<EntryId, string>
    ghost var faults: nat
    ghost var cleared: set<Chain>
    /** Every chain id drawn so far. */
    ghost var drawn: seq<Chain>
    /** How many index and content writes landed although they reported an error: the late reports Commit takes at their word. */
    ghost var lateBinds: nat
    ghost var lateContents: nat

    ghost predicate Valid()
      reads this
    {
      DiskCore(disk, origin, nextId) && OriginBelow(origin, nextId)
    }

    ghost predicate Neat()
      reads this
    {
      NeatDisk(disk, cleared)
    }

    constructor (signer: bool)
      ensures Valid() && Neat()
    {
      this.signer := signer;
      disk := EMPTY_DISK;
      nextId, origin, faults, cleared, drawn, lateBinds, lateContents := 0, map[], 0, {}, [], 0, 0;
    }

    method Strike() returns (f: Fate)
      modifies this`faults
      ensures faults == old(faults) + if f.Done? then 0 else 1
    {
      f := *;
      if !f.Done? { faults := faults + 1; }
    }

    /** newEntryID: an id never drawn before. */
    method Draw(ghost source: string) returns (id: EntryId)
      requires Valid()
      modifies this`nextId, this`origin
      ensures Valid() && id == old(nextId) && nextId == id + 1
      ensures origin == old(origin)[id := source] && Grows(old(origin), old(nextId), origin, nextId)
    {
      id := nextId;
      nextId := nextId + 1;
      origin := origin[id := source];
      forall c ensures Core(ViewOf(disk, c), disk.signing, origin, nextId) {
        CoreGrows(ViewOf(disk, c), disk.signing, old(origin), old(nextId), origin, nextId);
      }
    }

    // ---- Commit ----

    /** One chain's entries, rows, signatures and positions, decided against its tail. */
    method MakeDraft(c: Chain, recs: seq<Record>) returns (dr: Draft)
      requires Valid() && NewSources(EntriesOf(disk, c), origin, recs)
      modifies this`nextId, this`origin
      ensures Valid() && Grows(old(origin), old(nextId), origin, nextId)
      ensures DraftOK(EntriesOf(disk, c), dr, origin, signer, old(nextId), nextId) && Carries(dr, origin, recs)
    {
      hide DraftOK, Carries, NewSources, DiskCore, Extend;
      ghost var entries := EntriesOf(disk, c);
      var n := |EntriesOf(disk, c)|;
      dr := EMPTY_DRAFT;
      NothingDrafted(entries, origin, signer, nextId);
      IdsDrawn(disk, c, origin, nextId);
      var i := 0;
      while i < |recs|
        invariant 0 <= i <= |recs| && Valid() && Grows(old(origin), old(nextId), origin, nextId)
        invariant DraftOK(entries, dr, origin, signer, old(nextId), nextId) && Carries(dr, origin, recs[..i])
        invariant NewSources(entries, origin, recs) && forall e <- entries :: e.id < nextId
      {
        var r := recs[i];
        var nonce: nat := *;
        ghost var before := origin;
        var id := Draw(r.source);
        DraftStep(entries, dr, before, signer, old(nextId), id, nonce, recs, i);
        assert Grows(old(origin), old(nextId), origin, nextId);
        dr := Extend(dr, n, id, r.content, nonce, r.source, signer);
        i := i + 1;
      }
      assert recs[..i] == recs;
    }

    // The steps of a commit. Each keeps the folder sound whatever it meets.

    ghost predicate Running(call: Call, drafts: Drafts)
      reads this`disk
    {
      match call
      case Call(_, mine, _, signs, _, _, _) => Between(call, disk) && mine == drafts && signs == signer
    }

    /** A failure of this one transaction is taken to have written nothing; one that landed late did. */
    method WriteContent(drafts: Drafts, ghost call: Call) returns (f: Fate)
      requires Running(call, drafts) && Filled(drafts) && disk == call.d0
      modifies this`disk, this`faults, this`lateContents
      ensures Running(call, drafts)
      ensures f.Refused? || f.Late? ==> Cleaned(call.d0, disk, f.Late?)
      ensures lateContents == old(lateContents) + if f.Late? then 1 else 0
      ensures f.Done? ==> RowsStaged(disk, drafts)
      ensures faults == old(faults) + if f.Done? then 0 else 1
    {
      hide Between, PutSecrets, DeleteSecrets, RowsStaged, Cleaned, Filled;
      LateContentCleaned(call);
      f := Strike();
      AfterSecrets(call, disk);
      StagedRows(disk, drafts);
      if Lands(f) { disk := PutSecrets(disk, drafts); }
      if f.Late? { lateContents := lateContents + 1; }
    }

    method WriteSignatures(drafts: Drafts, ghost call: Call) returns (f: Fate)
      requires Running(call, drafts) && signer && RowsStaged(disk, drafts)
      modifies this`disk, this`faults
      ensures Running(call, drafts)
      ensures f.Done? ==> RowsStaged(disk, drafts) && SigsStaged(disk, drafts)
      ensures faults == old(faults) + if f.Done? then 0 else 1
    {
      hide Between, PutSignatures, DeleteSignatures, RowsStaged, SigsStaged;
      f := Strike();
      AfterSignatures(call, disk);
      StagedRows(disk, drafts);
      StagedSigs(disk, drafts);
      if Lands(f) { disk := PutSignatures(disk, drafts); }
    }

    method WritePositions(drafts: Drafts, ghost call: Call) returns (f: Fate)
      requires Running(call, drafts) && RowsStaged(disk, drafts) && SigsStaged(disk, drafts)
      modifies this`disk, this`faults
      ensures Running(call, drafts)
      ensures f.Done? ==> RowsStaged(disk, drafts) && SigsStaged(disk, drafts) && PositionsStaged(disk, drafts)
      ensures faults == old(faults) + if f.Done? then 0 else 1
    {
      hide Between, PutSources, DeleteSources, RowsStaged, SigsStaged, PositionsStaged;
      f := Strike();
      AfterSources(call, disk);
      StagedRows(disk, drafts);
      StagedSigs(disk, drafts);
      StagedPositions(disk, drafts);
      if Lands(f) { disk := PutSources(disk, drafts); }
    }

    /** Removes a failed call's content, signatures and positions, going on past a failure. */
    method CleanUpDrafts(drafts: Drafts, positions: bool, ghost call: Call) returns (ok: bool, crashed: bool)
      requires Running(call, drafts) && Quiet(drafts, signer, positions)
      modifies this`disk, this`faults
      ensures Running(call, drafts) && faults >= old(faults)
      ensures ok ==> NothingNew(call.d0, disk)
    {
      hide Between, NothingNew, Quiet, DeleteSecrets, DeleteSignatures, DeleteSources;
      CallCleanedUp(call, disk, positions);
      ok, crashed := true, false;
      var f := Strike();
      AfterSecrets(call, disk);
      if Lands(f) { disk := DeleteSecrets(disk, drafts); }
      if f.Crash? { return false, true; }
      ok := ok && f.Done?;
      if signer {
        f := Strike();
        AfterSignatures(call, disk);
        if Lands(f) { disk := DeleteSignatures(disk, drafts); }
        if f.Crash? { return false, true; }
        ok := ok && f.Done?;
      }
      if positions {
        f := Strike();
        AfterSources(call, disk);
        if Lands(f) { disk := DeleteSources(disk, drafts); }
        if f.Crash? { return false, true; }
        ok := ok && f.Done?;
      }
    }

    /** fail: clean up, and say whether that worked. */
    method GiveUp(f: Fate, drafts: Drafts, positions: bool, ghost call: Call) returns (r: Step)
      requires Running(call, drafts) && Quiet(drafts, signer, positions)
      modifies this`disk, this`faults
      ensures Running(call, drafts) && faults >= old(faults)
      ensures r.Crashed? || (r.Failed? && r.why == Failure && (r.cleaned ==> Cleaned(call.d0, disk, false)))
    {
      if f.Crash? { return Crashed; }
      var ok, crashed := CleanUpDrafts(drafts, positions, call);
      r := if crashed then Crashed else Failed(ok, Failure);
    }

    /** appendLanded: every batch's first entry where it was predicted, or none. */
    method AppendLanded(drafts: Drafts, next: map<Chain, nat>) returns (landed: Option<bool>)
      requires Filled(drafts) && next.Keys == drafts.Keys
      ensures Hold(disk, drafts, next, true) ==> landed == Some(true)
      ensures Hold(disk, drafts, next, false) ==> landed == Some(false)
    {
      hide HoldsFirst;
      var holding := set c | c in drafts && HoldsFirst(EntriesOf(disk, c), next[c], drafts[c]);
      if holding == {} {
        var c :| c in drafts;
        assert c !in holding;
        return Some(false);
      }
      if holding == drafts.Keys {
        var c :| c in holding;
        return Some(true);
      }
      return None;
    }

    /** The append, and the check whether one that reported an error landed all the same. */
    method AppendAll(drafts: Drafts, ghost call: Call) returns (r: Step)
      requires Filled(drafts) && Running(call, drafts) && Ready(disk, drafts)
      modifies this`disk, this`faults
      ensures r.Failed? ==> disk == old(disk)
      ensures After(call, disk) && (SameEntries(call.d0, disk) || Appended(call.d0, disk, drafts))
      ensures r.Landed? ==> Appended(call.d0, disk, drafts)
      ensures faults >= old(faults) && (faults == old(faults) ==> r.Landed?)
    {
      hide Between, Ready, AppendChains, Hold, After, Appended, SameEntries, Filled;
      var next := map c | c in drafts :: |EntriesOf(disk, c)|;
      LandedOrNot(disk, drafts, next);
      AfterAppend(call, disk);
      BetweenIs(call, disk);
      var f := Strike();
      if Lands(f) { disk := AppendChains(disk, drafts); }
      if f.Crash? { return Crashed; }
      if f.Done? { return Landed; }
      var read := Strike();
      if read.Crash? { return Crashed; }
      if !read.Done? { return Unknown; }
      var landed := AppendLanded(drafts, next);
      r := match landed case None => Unknown case Some(true) => Landed case Some(false) => Failed(false, Failure);
    }

    /** Everything that goes down before the append; None when it all did. */
    method Prepare(drafts: Drafts, positions: bool, ghost call: Call) returns (r: Option<Step>)
      requires Running(call, drafts) && Quiet(drafts, signer, positions)
      requires Filled(drafts) && disk == call.d0
      modifies this`disk, this`faults, this`lateContents
      ensures Running(call, drafts) && lateContents >= old(lateContents)
      ensures r.None? ==> Ready(disk, drafts) && lateContents == old(lateContents)
      ensures r.Some? ==> r.value.Crashed?
                           || (r.value.Failed? && r.value.why == Failure
                               && (r.value.cleaned ==> Cleaned(call.d0, disk, lateContents > old(lateContents))))
      ensures faults >= old(faults) && (r.Some? ==> faults > old(faults))
    {
      hide Running, RowsStaged, SigsStaged, PositionsStaged, Cleaned, Quiet, Filled, Ready;
      var f := WriteContent(drafts, call);
      if f.Crash? { return Some(Crashed); }
      if !f.Done? {
        // One transaction: taken to have written nothing.
        return Some(Failed(true, Failure));
      }
      r := PrepareRest(drafts, positions, call);
    }

    /** Signatures and positions, once the content is down. */
    method PrepareRest(drafts: Drafts, positions: bool, ghost call: Call) returns (r: Option<Step>)
      requires Running(call, drafts) && Quiet(drafts, signer, positions) && RowsStaged(disk, drafts)
      modifies this`disk, this`faults
      ensures Running(call, drafts)
      ensures r.None? ==> Ready(disk, drafts)
      ensures r.Some? ==> r.value.Crashed?
                           || (r.value.Failed? && r.value.why == Failure
                               && (r.value.cleaned ==> Cleaned(call.d0, disk, false)))
      ensures faults >= old(faults) && (r.Some? ==> faults > old(faults))
    {
      hide Running, RowsStaged, SigsStaged, PositionsStaged, Cleaned, Quiet;
      StagedEmpty(drafts, signer, positions);
      var f: Fate;
      if signer {
        f := WriteSignatures(drafts, call);
        if !f.Done? {
          var end := GiveUp(f, drafts, positions, call);
          return Some(end);
        }
      }
      if positions {
        f := WritePositions(drafts, call);
        if !f.Done? {
          var end := GiveUp(f, drafts, positions, call);
          return Some(end);
        }
      }
      return None;
    }

    /**
     * commitPairs: content and nonces, signatures, positions, then every chain's
     * entries in one transaction, the commit point.
     */
    method CommitDrafts(drafts: Drafts, ghost call: Call) returns (r: Step)
      requires Filled(drafts) && Running(call, drafts) && disk == call.d0
      modifies this`disk, this`faults, this`lateContents
      ensures After(call, disk) && lateContents >= old(lateContents)
      ensures SameEntries(call.d0, disk) || Appended(call.d0, disk, drafts)
      ensures r.Landed? ==> Appended(call.d0, disk, drafts)
      ensures r.Failed? ==> SameEntries(call.d0, disk) && r.why == Failure && faults > old(faults)
      ensures r.Failed? && r.cleaned ==> Cleaned(call.d0, disk, lateContents > old(lateContents))
      ensures faults >= old(faults) && (faults == old(faults) ==> r.Landed?)
    {
      hide Between, Ready, Cleaned, Quiet, After, Appended, SameEntries, Filled;
      var positions := exists c | c in drafts :: drafts[c].positions != map[];
      CommitFacts(call);
      var stopped := Prepare(drafts, positions, call);
      BetweenIs(call, disk);
      if stopped.Some? { return stopped.value; }
      r := AppendAll(drafts, call);
      if r.Failed? {
        r := GiveUp(Refused, drafts, positions, call);
        BetweenIs(call, disk);
      }
    }

    // ---- Duplicates ----

    method DropDuplicates(c: Chain, recs: seq<Record>) returns (r: Deduped)
      requires Valid() && !Erased(EntriesOf(disk, c))
      ensures r.Kept? ==> DroppedRight(EntriesOf(disk, c), origin, recs, r.keep, r.dup)
      ensures r.Conflict? ==> Conflicting(EntriesOf(disk, c), origin, recs, r.at)
    {
      hide DiskCore, DroppedRight, Conflicting, Met, Judge, NewSources;
      var v := ViewOf(disk, c);
      ghost var entries := v.entries;
      assert Core(v, disk.signing, origin, nextId) by { ChainCore(disk, c, origin, nextId); }
      var keep: seq<Record>, dup: seq<bool>, inBatch: map<string, nat> := [], [], map[];
      var j := 0;
      NothingMet(entries, origin, recs);
      while j < |recs|
        invariant 0 <= j <= |recs|
        invariant DroppedRight(entries, origin, recs[..j], keep, dup) && Met(entries, origin, recs, j, keep, inBatch)
      {
        var rec := recs[j];
        if rec.source == "" {
          KeepOne(entries, origin, recs, j, keep, dup, inBatch);
          keep, dup := keep + [rec], dup + [false];
        } else if rec.source in inBatch {
          MetBefore(entries, origin, recs, j, keep, inBatch, rec.source);
          if recs[inBatch[rec.source]].content != rec.content {
            RepeatClash(entries, origin, recs, j, keep, inBatch);
            return Conflict(j);
          }
          DropRepeat(entries, origin, recs, j, keep, dup, inBatch);
          dup := dup + [true];
        } else {
          JudgeExact(v, rec, disk.signing, origin, nextId);
          match Judge(v, rec) {
            case Clash =>
              assert Conflicting(entries, origin, recs, j) by { ChainClash(entries, origin, recs, j); }
              return Conflict(j);
            case Held =>
              DropHeld(entries, origin, recs, j, keep, dup, inBatch);
              dup, inBatch := dup + [true], inBatch[rec.source := j];
            case New =>
              KeepNew(entries, origin, recs, j, keep, dup, inBatch);
              keep, dup, inBatch := keep + [rec], dup + [false], inBatch[rec.source := j];
          }
        }
        j := j + 1;
      }
      assert recs[..j] == recs;
      r := Kept(keep, dup);
    }

    // ---- The chains of a call ----

    /** mintChainID, three times at most: an id unused by the index, the evidence and this call. */
    method Mint(class_: string, minted: map<Chain, Row>) returns (r: Option<Chain>)
      modifies this`drawn
      ensures r.Some? ==> r.value.class_ == class_ && !Taken(disk, minted.Keys, r.value)
                          && old(drawn) < drawn && r.value == drawn[|drawn| - 1]
      ensures r.None? ==> old(drawn) <= drawn && |drawn| == |old(drawn)| + 3
                          && forall c <- drawn[|old(drawn)|..] :: c.class_ == class_ && Taken(disk, minted.Keys, c)
    {
      var attempt := 0;
      while attempt < 3
        invariant 0 <= attempt <= 3 && |drawn| == |old(drawn)| + attempt && old(drawn) <= drawn
        invariant forall i | |old(drawn)| <= i < |drawn| :: drawn[i].class_ == class_ && Taken(disk, minted.Keys, drawn[i])
      {
        var tag: nat := *;
        var c := Chain(class_, tag);
        drawn := drawn + [c];
        if c !in minted && EntriesOf(disk, c) == [] && c !in disk.reverse {
          return Some(c);
        }
        attempt := attempt + 1;
      }
      return None;
    }

    /** resolvePair for every pair: nothing is written. */
    method Resolve(records: seq<Record>) returns (r: Resolved)
      requires Valid()
      modifies this`drawn
      ensures old(drawn) <= drawn
      ensures r.Chains? ==> ResolvedOK(disk, r.chains) && r.chains.chains.Keys == (set x <- records :: PairOf(x))
                            && forall p <- r.chains.fwd :: Asked(records, p)
      ensures r.Unresolved? ==> r.why.Relinked? || r.why.NoId?
      ensures r.Unresolved? ==> Justified(disk, signer, origin, records, r.why, false)
      ensures r.Unresolved? && r.why.NoId? ==> Exhausted(disk, drawn[|old(drawn)|..], r.why.pair.1)
    {
      hide DiskCore, ResolvedOK, Erased, Asked, Taken, Exhausted;
      ghost var n := |drawn|;
      var pairs := set x <- records :: PairOf(x);
      forall p | p in pairs ensures Asked(records, p) { AllAsked(records, p); }
      var res := Resolution(map[], map[], map[]);
      assert ResolvedOK(disk, res) by { ResolvedNone(disk); }
      var todo := pairs;
      while todo != {}
        invariant todo <= pairs && res.chains.Keys == pairs - todo && res.fwd.Keys <= res.chains.Keys
        invariant ResolvedOK(disk, res) && n <= |drawn| && old(drawn) == drawn[..n] && forall c <- res.rev :: c in drawn[n..]
        decreases |todo|
      {
        var p :| p in todo;
        todo := todo - {p};
        if p in disk.forward {
          if Erased(EntriesOf(disk, disk.forward[p])) {
            return Unresolved(Relinked(p));
          }
          ResolveBound(disk, res, p);
          res := res.(chains := res.chains[p := disk.forward[p]]);
        } else {
          ghost var before := drawn;
          var c := Mint(p.1, res.rev);
          DrawnSince(before, drawn, n);
          if c.None? {
            TakenMore(disk, before[n..], res.rev.Keys, drawn[|before|..], p.1);
            return Unresolved(NoId(p));
          }
          FreeIs(disk, res.rev.Keys, c.value);
          ResolveNew(disk, res, p, c.value);
          res := Resolution(res.chains[p := c.value], res.fwd[p := c.value], res.rev[c.value := Live(p.0, p.1)]);
        }
      }
      r := Chains(res);
    }

    /** bindAll: the new pairs' index rows, in one transaction, before any of their chains gets an entry. */
    method BindFresh(res: Resolution) returns (f: Fate)
      requires Valid() && ResolvedOK(disk, res)
      modifies this`disk, this`faults, this`cleared, this`lateBinds
      ensures Valid() && (old(Neat()) ==> Neat()) && (AllAccounted(old(disk)) ==> AllAccounted(disk))
      ensures disk == old(disk) || disk == Bind(old(disk), res.fwd, res.rev)
      ensures f.Late? ==> disk == Bind(old(disk), res.fwd, res.rev) && res.rev != map[]
      ensures lateBinds == old(lateBinds) + if f.Late? then 1 else 0
      ensures f.Done? ==> disk == Bind(old(disk), res.fwd, res.rev) && Bound(disk, res.chains)
      ensures f.Refused? ==> disk == old(disk)
      ensures faults == old(faults) + if f.Done? then 0 else 1
      ensures cleared <= old(cleared) && (f.Done? ==> cleared !! res.rev.Keys)
    {
      hide DiskCore, NeatDisk, ResolvedOK, Bound, Bind, AllAccounted;
      BindKeeps(disk, res, origin, nextId, cleared);
      if AllAccounted(disk) { AccountedBound(disk, res); }
      if res.rev == map[] {
        BindNone(disk, res);
        return Done;
      }
      f := Strike();
      if Lands(f) {
        disk := Bind(disk, res.fwd, res.rev);
        cleared := cleared - res.rev.Keys;
      }
      if f.Late? { lateBinds := lateBinds + 1; }
    }

    /** Duplicates dropped, pair by pair, unless a record conflicts or two pairs share a chain. */
    method MakePlans(records: seq<Record>, chains: map<Pair, Chain>) returns (r: Planned)
      requires Valid() && Bound(disk, chains)
      ensures r.Planned? ==> PlansOK(disk, origin, records, chains, r.plans, chains.Keys)
      ensures r.Stopped? ==> FoundLate(r.why) && Justified(disk, signer, origin, records, r.why, false)
    {
      hide DiskCore, PlansOK, DroppedRight, Conflicting, RecordsOf, Erased, Justified, Bound;
      var plans: Plans := map[];
      var todo, done: set<Pair> := chains.Keys, {};
      PlanNothing(disk, origin, records, chains);
      while todo != {}
        invariant todo + done == chains.Keys && todo !! done && PlansOK(disk, origin, records, chains, plans, done)
        decreases |todo|
      {
        var p :| p in todo;
        BoundLive(disk, chains, p);
        var d := DropDuplicates(chains[p], RecordsOf(records, p));
        if d.Conflict? {
          ConflictFound(disk, signer, origin, records, chains, p, d.at);
          return Stopped(Conflicted(p, d.at));
        }
        if d.keep != [] && chains[p] in plans {
          SharedFound(disk, signer, origin, records, chains, plans, done, p);
          return Stopped(SharedChain);
        }
        PlanPair(disk, origin, records, chains, plans, done, p, d.keep, d.dup);
        if d.keep != [] {
          plans := plans[chains[p] := d.keep];
        }
        todo, done := todo - {p}, done + {p};
      }
      assert done == chains.Keys;
      r := Planned(plans);
    }

    /** Every chain's draft, decided before anything is written. */
    method MakeDrafts(plans: Plans) returns (drafts: Drafts)
      requires Valid() && forall c <- plans :: NewSources(EntriesOf(disk, c), origin, plans[c])
      modifies this`nextId, this`origin
      ensures Valid() && Grows(old(origin), old(nextId), origin, nextId)
      ensures drafts.Keys == plans.Keys && Drafted(disk, drafts, plans, origin, signer, old(nextId), nextId)
    {
      hide DiskCore, NewSources, DraftOK, Carries;
      drafts := map[];
      var todo := plans.Keys;
      while todo != {}
        invariant todo <= plans.Keys && drafts.Keys == plans.Keys - todo
        invariant Valid() && Grows(old(origin), old(nextId), origin, nextId)
        invariant Drafted(disk, drafts, plans, origin, signer, old(nextId), nextId)
        invariant forall c <- plans :: NewSources(EntriesOf(disk, c), origin, plans[c])
        decreases |todo|
      {
        var c :| c in todo;
        ghost var before, drawn := origin, nextId;
        var dr := MakeDraft(c, plans[c]);
        DraftedGrows(disk, drafts, plans, signer, old(nextId), before, drawn, origin, nextId);
        PlansGrow(disk, plans, before, drawn, origin, nextId);
        DraftLower(EntriesOf(disk, c), dr, origin, signer, drawn, nextId, old(nextId));
        drafts := drafts[c := dr];
        todo := todo - {c};
      }
    }

    /** commitPairs on bound chains: plans, drafts, transactions. */
    method CommitBound(records: seq<Record>, chains: map<Pair, Chain>) returns (s: Step)
      requires Valid() && Bound(disk, chains) && ModeOK(disk, signer)
      modifies this`disk, this`faults, this`lateContents, this`nextId, this`origin
      ensures Valid() && (old(Neat()) ==> Neat()) && (AllAccounted(old(disk)) ==> AllAccounted(disk))
      ensures lateContents >= old(lateContents)
      ensures disk.forward == old(disk.forward) && disk.reverse == old(disk.reverse)
      ensures OnlyGrown(old(disk), disk)
      ensures (s.Landed? || !SameEntries(old(disk), disk)) ==>
                AllGot(old(disk), disk, records, chains, old(origin), origin)
                && forall r <- records :: PairOf(r) in chains ==> On(EntriesOf(disk, chains[PairOf(r)]), origin, r)
      ensures s.Failed? ==> SameEntries(old(disk), disk)
      ensures s.Failed? && s.cleaned ==> Cleaned(old(disk), disk, lateContents > old(lateContents))
      ensures faults >= old(faults) && (faults == old(faults) ==> s.Landed? || (s.Failed? && s.cleaned))
      ensures s.Failed? ==> FoundLate(s.why) && Justified(old(disk), signer, old(origin), records, s.why, faults > old(faults))
    {
      hide DiskCore, NeatDisk, Bound, ModeOK, PlansOK, Between, After, Appended, SameEntries, Cleaned, OnlyGrown, On, NewSources, Drafted, ForLive, Filled, Justified, AllAccounted, Beside, AllGot, IndexOK;
      ghost var d0, before, lo := disk, origin, nextId;
      FailureFound(d0, signer, origin, records);
      AfterNothing(d0);
      GrownSame(d0, d0);
      SameEntriesRefl(d0);
      var plans := MakePlans(records, chains);
      if plans.Stopped? {
        return Failed(true, plans.why);
      }
      PlansNew(disk, origin, records, chains, plans.plans);
      if plans.plans == map[] {
        AllThere(disk, origin, records, chains, plans.plans);
        NothingGot(disk, records, chains, origin);
        return Landed;
      }
      IdsAllBelow(disk, origin, nextId);
      var drafts := MakeDrafts(plans.plans);
      ghost var call := Call(disk, drafts, origin, signer, lo, nextId, cleared);
      if signer {
        // Every signature is made, and verified, before anything is written.
        var f := Strike();
        if f.Crash? { return Crashed; }
        if !f.Done? { return Failed(true, Failure); }
      }
      CallStarts(disk, drafts, plans.plans, chains, origin, signer, lo, nextId, cleared);
      CallFilled(disk, drafts, plans.plans, records, chains, before, origin, signer, lo, nextId);
      s := CommitDrafts(drafts, call);
      CallEnds(call, disk);
      AppendedGrows(d0, disk, drafts);
      if AllAccounted(d0) { AccountedDrafts(d0, disk, drafts); }
      if Appended(d0, disk, drafts) {
        IndexFound(d0, origin, nextId);
        AllGotNow(d0, disk, drafts, plans.plans, records, chains, before, origin);
        AllOn(d0, disk, drafts, plans.plans, records, chains, before, lo, origin, nextId);
      }
    }

    /** forgetFresh: the new chains' source positions, then their index rows, stopping at a failure. */
    method ForgetFresh(res: Resolution, sourced: bool) returns (ok: bool, crashed: bool)
      requires Valid() && FreshBound(disk, res) && cleared !! res.rev.Keys
      modifies this`disk, this`faults
      ensures Valid() && (old(Neat()) && Blank(old(disk), res.rev) ==> Neat())
      ensures SameEntries(old(disk), disk) && NothingNew(old(disk), disk)
      ensures AllAccounted(old(disk)) ==> AllAccounted(disk)
      ensures ok ==> disk.forward == old(disk.forward) - res.fwd.Keys && disk.reverse == old(disk.reverse) - res.rev.Keys
      ensures (disk.forward == old(disk.forward) && disk.reverse == old(disk.reverse))
              || (disk.forward == old(disk.forward) - res.fwd.Keys && disk.reverse == old(disk.reverse) - res.rev.Keys)
      ensures faults >= old(faults) && (faults == old(faults) ==> ok) && (ok ==> !crashed)
    {
      hide DiskCore, NeatDisk, FreshBound, NothingNew, Blank, SameEntries, Unbind, WipeSources, AllAccounted;
      ghost var d0 := disk;
      AfterNothing(d0);
      SameEntriesRefl(d0);
      BlankAfterAll(d0, res);
      if res.rev == map[] {
        BindNone(d0, res);
        return true, false;
      }
      if sourced {
        var todo := res.rev.Keys;
        while todo != {}
          invariant todo <= res.rev.Keys && Valid() && FreshBound(disk, res)
          invariant old(Neat()) ==> Neat()
          invariant SameEntries(d0, disk) && NothingNew(d0, disk)
          invariant disk.forward == d0.forward && disk.reverse == d0.reverse && faults == old(faults)
          decreases |todo|
        {
          var c :| c in todo;
          todo := todo - {c};
          var f := Strike();
          FreshWipe(d0, disk, res, c, origin, nextId, cleared);
          if Lands(f) { disk := WipeSources(disk, c); }
          if AllAccounted(d0) { AccountedFresh(d0, disk, res); }
          if !f.Done? { return false, f.Crash?; }
        }
      }
      var f := Strike();
      FreshUnbind(d0, disk, res, origin, nextId, cleared);
      if Lands(f) { disk := Unbind(disk, res.fwd, res.rev); }
      if AllAccounted(d0) { AccountedFresh(d0, disk, res); }
      ok, crashed := f.Done?, f.Crash?;
    }

    /** openRecordSigning's check of the folder's mode against this writer's. */
    method CheckMode() returns (ok: bool)
      ensures ok <==> ModeOK(disk, signer)
    {
      if disk.signing {
        ok := signer;
      } else {
        ok := !signer || forall c <- disk.evidence :: disk.evidence[c] == [];
        ModeFound(disk, signer);
      }
    }

    /** The call from its bound chains on, and what a failure of it takes back. */
    method CommitResolved(records: seq<Record>, res: Resolution, ghost d0: Disk) returns (r: Outcome)
      requires Valid() && ModeOK(disk, signer) && ResolvedOK(d0, res) && IndexOK(d0.forward, d0.reverse)
      requires disk == Bind(d0, res.fwd, res.rev) && Bound(disk, res.chains) && cleared !! res.rev.Keys
      requires res.chains.Keys == set r <- records :: PairOf(r)
      modifies this`disk, this`faults, this`lateContents, this`nextId, this`origin
      ensures Valid() && (old(Neat()) && Blank(old(disk), res.rev) && lateContents == old(lateContents) ==> Neat())
      ensures OnlyGrown(d0, disk) && (AllAccounted(old(disk)) ==> AllAccounted(disk)) && lateContents >= old(lateContents)
      ensures r.Accepted? || !SameEntries(d0, disk) ==> Whole(d0, disk, records, old(origin), origin)
      ensures r.Rejected? ==> SameEntries(d0, disk)
      ensures r.Rejected? && r.clean ==> (NothingLeft(d0, disk) <==> lateContents == old(lateContents))
      ensures r.Rejected? ==> FoundLate(r.why) && Justified(d0, signer, old(origin), records, r.why, faults > old(faults))
      ensures (disk.forward == old(disk.forward) && disk.reverse == old(disk.reverse)) || (disk.forward == d0.forward && disk.reverse == d0.reverse)
      ensures faults >= old(faults) && (faults == old(faults) ==> r.Accepted? || (r.Rejected? && r.clean))
    {
      hide DiskCore, NeatDisk, ResolvedOK, Bound, ModeOK, SameEntries, NothingNew, OnlyGrown, On, Bind, Blank, FreshBound, Whole, AllGot, Justified, IndexOK, AllAccounted, Cleaned;
      ghost var d1 := disk;
      var s := CommitBound(records, res.chains);
      ghost var d2, faulted := disk, faults > old(faults);
      CommitGrew(d0, res, d2, d2);
      if s.Landed? || !SameEntries(d1, d2) {
        WholeNow(d0, res, d2, records, old(origin), origin);
      } else {
        CommitFailed(d0, res, d2);
      }
      match s {
        case Crashed => r := Died;
        case Unknown => r := Uncertain;
        case Landed => r := Accepted;
        case Failed(cleaned, why) =>
          StillJustified(d0, res, signer, old(origin), records, why, faulted);
          if !cleaned { return Rejected(false, why); }
          var sourced := exists r <- records :: r.source != "";
          var ok, crashed := ForgetFresh(res, sourced);
          CommitGrew(d0, res, d2, disk);
          CommitUndone(d0, res, d2, disk);
          CleanedExactly(d0, disk, lateContents > old(lateContents));
          r := if crashed then Died else Rejected(ok, why);
      }
    }

    /**
     * Commit: all the records or none, also when the call dies or cannot tell.
     * What a chain gets is its pair's records in order, without those whose source
     * it holds or the call repeats, and a chain of no pair gets nothing. The folder
     * stays sound, and nothing is ever appended after a genuine erasure.
     * A call rejected without a failed clean-up leaves nothing new exactly when
     * neither its index write nor its content write landed under an error.
     */
    method Commit(records: seq<Record>) returns (r: Outcome)
      requires Valid()
      modifies this
      ensures Valid() && OnlyGrown(old(disk), disk)
      ensures lateBinds >= old(lateBinds) && lateContents >= old(lateContents)
      ensures old(Neat()) && lateContents == old(lateContents) ==> Neat()
      ensures AllAccounted(old(disk)) ==> AllAccounted(disk)
      ensures SameEntries(old(disk), disk) || Whole(old(disk), disk, records, old(origin), origin)
      ensures r.Accepted? ==> Whole(old(disk), disk, records, old(origin), origin)
      ensures r.Rejected? ==> SameEntries(old(disk), disk)
      ensures r.Rejected? && r.clean ==>
                (NothingLeft(old(disk), disk) <==> lateBinds == old(lateBinds) && lateContents == old(lateContents))
      ensures r.Rejected? ==> Justified(old(disk), signer, old(origin), records, r.why, faults > old(faults))
      ensures IndexGrown(old(disk), disk, records)
      ensures r.Rejected? && r.why.NoId? ==> old(drawn) <= drawn && Exhausted(old(disk), drawn[|old(drawn)|..], r.why.pair.1)
      ensures faults == old(faults) ==> r.Accepted? || (r.Rejected? && r.clean)
      ensures faults == old(faults) && Committable(old(disk), signer, old(origin), records) ==> r.Accepted? || r.why.NoId?
    {
      hide IndexGrown, Committable, Exhausted, Asked, Taken;
      hide DiskCore, NeatDisk, ResolvedOK, Bound, ModeOK, SameEntries, NothingNew, NothingLeft, OnlyGrown, On, Bind, Blank, FreshBound, Whole, Justified, AllAccounted;
      ghost var d0 := disk;
      IndexFound(d0, origin, nextId);
      IndexSame(d0, records);
      if Committable(d0, signer, origin, records) {
        forall why | Justified(d0, signer, origin, records, why, false) ensures why.NoId? { NoReason(d0, signer, origin, records, why); }
      }
      hide IndexOK;
      EarlyFound(d0, signer, origin, records);
      FailureFound(d0, signer, origin, records);
      assert NothingLeft(d0, d0) by { LeftNothing(d0); }
      GrownSame(d0, d0);
      SameEntriesRefl(d0);
      if |records| == 0 || |records| > MAX_BATCH {
        return Rejected(true, BadCount);
      }
      var mode := CheckMode();
      if !mode {
        return Rejected(true, WrongMode);
      }
      var resolved := Resolve(records);
      if resolved.Unresolved? {
        return Rejected(true, resolved.why);
      }
      var res := resolved.chains;
      ghost var cleared0 := cleared;
      var f := BindFresh(res);
      ResolvedBlank(d0, res, cleared0, signer);
      IndexBound(d0, res, records);
      if f.Crash? { return Died; }
      if !f.Done? {
        // One transaction: taken to have written nothing.
        if f.Late? { LateBindStays(d0, res); }
        return Rejected(true, Failure);
      }
      ghost var d1 := disk;
      r := CommitResolved(records, res, d0);
      IndexEnds(d0, d1, disk, records);
    }

    // ---- Erasure ----

    /** undo: the record row and signature of an erasure entry that is not on the chain. */
    method UndoErasure(c: Chain, id: EntryId, ghost job: Job) returns (crashed: bool)
      requires Erasing(job, disk) && job.c == c && job.signer == signer && EntriesOf(disk, c) != []
      requires FreshId(disk, c, id, job.origin, job.bound)
      modifies this`disk, this`faults
      ensures Erasing(job, disk) && faults >= old(faults)
      ensures faults == old(faults) ==> !crashed && id !in At(disk.secrets, c) && (signer ==> id !in At(disk.signatures, c))
    {
      hide Erasing, FreshId;
      var f := Strike();
      RowStep(job, disk, id, "");
      if signer { SignStep(job, disk, id, Signed(Erasure, 0, ErasureHash(""))); }
      if Lands(f) {
        SameFresh(disk, DeleteRow(disk, c, id), c, id, job.origin, job.bound);
        disk := DeleteRow(disk, c, id);
      }
      if f.Crash? { return true; }
      if signer {
        f := Strike();
        SignStep(job, disk, id, Signed(Erasure, 0, ErasureHash("")));
        if Lands(f) { disk := DeleteSignature(disk, c, id); }
      }
      crashed := f.Crash?;
    }

    /** The erasure entry on the record: its record row, its signature, then the entry, or none of them. */
    method RecordErasure(c: Chain, id: EntryId, ghost job: Job) returns (r: ChainEnd)
      requires Erasing(job, disk) && job.c == c && job.signer == signer && FreshId(disk, c, id, job.origin, job.bound)
      requires EntriesOf(disk, c) == EntriesOf(job.d0, c) != [] && !Erased(EntriesOf(disk, c))
      modifies this`disk, this`faults
      ensures Erasing(job, disk) && faults >= old(faults) && (faults == old(faults) ==> r.Swept?)
      ensures r.Swept? ==> Erased(EntriesOf(disk, c)) && Records(EntriesOf(disk, c)) == map[id := Secret(ErasureRecord(|old(EntriesOf(disk, c))| - 1), None)]
      ensures r.Stuck? && faults == old(faults) + 1 ==>
                disk == old(disk) || disk == PutRow(old(disk), c, id, ErasureRecord(|old(EntriesOf(disk, c))| - 1))
                || (id !in At(disk.secrets, c) && (signer ==> id !in At(disk.signatures, c)))
    {
      hide Erasing, FreshId, Erased, ErasureRecord, Records, Announced, AppendErasure;
      var n := |EntriesOf(disk, c)|;
      var record := ErasureRecord(n - 1);
      ghost var entries := EntriesOf(disk, c);
      var f := Strike();
      RowStep(job, disk, id, record);
      SameFresh(disk, PutRow(disk, c, id, record), c, id, job.origin, job.bound);
      if Lands(f) { disk := PutRow(disk, c, id, record); }
      if !f.Done? { return if f.Crash? then Cut else Stuck; }
      AnnouncedNow(disk, c, id, signer);
      if signer {
        f := Strike();
        var signed := Signed(Erasure, n, ErasureEntry(id, n - 1).hash);
        SignStep(job, disk, id, signed);
        SameFresh(disk, PutSignature(disk, c, id, signed), c, id, job.origin, job.bound);
        if Lands(f) { disk := PutSignature(disk, c, id, signed); }
        if f.Crash? { return Cut; }
        if !f.Done? {
          var crashed := UndoErasure(c, id, job);
          return if crashed then Cut else Stuck;
        }
      }
      f := Strike();
      EntryStep(job, disk, id);
      EntryLands(disk, c, id);
      if Lands(f) { disk := AppendErasure(disk, c, id); }
      if f.Done? { return Swept; }
      if f.Crash? { return Cut; }
      var read := Strike();
      if !read.Done? { return if read.Crash? then Cut else Stuck; }
      var now := EntriesOf(disk, c);
      if |now| > n && now[n].id == id { return Swept; }
      var crashed := UndoErasure(c, id, job);
      r := if crashed then Cut else Stuck;
    }

    /** Content and nonces, then source positions, of a chain with nothing left to open. */
    method SweepChain(c: Chain, keep: map<EntryId, Secret>, ghost job: Job) returns (r: ChainEnd)
      requires Erasing(job, disk) && job.c == c && job.signer == signer
      requires (EntriesOf(disk, c) == [] || Erased(EntriesOf(disk, c))) && keep == Records(EntriesOf(disk, c))
      modifies this`disk, this`faults
      ensures Erasing(job, disk) && EntriesOf(disk, c) == old(EntriesOf(disk, c))
      ensures faults >= old(faults) && (faults == old(faults) ==> r.Swept?)
      ensures r.Swept? ==> Wiped(disk, c)
    {
      hide Erasing, Erased, Records, Wiped, OnlyKept;
      var f := Strike();
      WipeStep(job, disk);
      if Lands(f) { disk := WipeSecrets(disk, c, keep); }
      if !f.Done? { return if f.Crash? then Cut else Stuck; }
      f := Strike();
      WipeStep(job, disk);
      if Lands(f) { disk := WipeSources(disk, c); }
      if !f.Done? { return if f.Crash? then Cut else Stuck; }
      r := Swept;
    }

    /** The signatures of a first commit that never reached its chain. */
    method SweepSignatures(c: Chain, ghost job: Job) returns (r: ChainEnd)
      requires Erasing(job, disk) && job.c == c && EntriesOf(disk, c) == [] && Wiped(disk, c)
      modifies this`disk, this`faults
      ensures Erasing(job, disk) && faults >= old(faults) && (faults == old(faults) ==> r.Swept?)
      ensures r.Swept? ==> Wiped(disk, c) && At(disk.signatures, c) == map[]
    {
      hide Erasing;
      var f := Strike();
      WipeStep(job, disk);
      if Lands(f) { disk := WipeSignatures(disk, c); }
      r := match f case Done => Swept case Crash(_) => Cut case _ => Stuck;
    }

    /**
     * eraseChain. A chain it reports swept holds nothing but the record of its
     * genuine erasure; any other chain is untouched; and run again after a crash
     * at any point, it finishes.
     */
    method EraseChain(c: Chain, p: Option<Presigned>, ghost job: Job) returns (r: ChainEnd)
      requires Erasing(job, disk) && job.d0 == disk && job.c == c && job.signer == signer
      requires p.Some? ==> FreshId(disk, c, p.value.id, job.origin, job.bound)
      modifies this`disk, this`faults
      ensures Erasing(job, disk)
      ensures r.Swept? ==> Wiped(disk, c) && (signer && old(EntriesOf(disk, c)) == [] ==> At(disk.signatures, c) == map[])
      ensures faults >= old(faults) && (faults == old(faults) && Prepared(old(disk), c, p) ==> r.Swept?)
    {
      hide Erasing, FreshId, Wiped, Erased, Records, Shaped, ErasureRecord;
      ChainShaped(job, disk);
      var events, last, keep := ScanChain(EntriesOf(disk, c));
      if EntriesOf(disk, c) == [] {
        r := SweepChain(c, keep, job);
        if r.Swept? && signer { r := SweepSignatures(c, job); }
        return;
      }
      if !last {
        if p.None? || p.value.seqNo != |EntriesOf(disk, c)| { return Stuck; }
        NoRecord(EntriesOf(disk, c));
        keep := keep[p.value.id := Secret(ErasureRecord(p.value.seqNo - 1), None)];
        r := RecordErasure(c, p.value.id, job);
        if !r.Swept? { return; }
      }
      r := SweepChain(c, keep, job);
    }

    /** presignErasures: every entry that will be needed is decided, and signed, before anything is written. */
    method Presign(chains: set<Chain>) returns (f: Fate, pre: Presigns)
      requires Valid()
      modifies this`nextId, this`origin, this`faults
      ensures Valid() && Grows(old(origin), old(nextId), origin, nextId) && PreFresh(disk, chains, pre, origin, nextId)
      ensures faults >= old(faults) && (faults == old(faults) ==> f.Done? && AllPrepared(disk, chains, pre))
    {
      hide DiskCore, Erased, FreshId, Prepared, PreFresh, AllPrepared, Grows;
      f, pre := Done, map[];
      PreNothing(disk, chains, origin, nextId);
      var todo, done: set<Chain> := chains, {};
      while todo != {}
        invariant todo + done == chains && todo !! done && pre.Keys <= done
        invariant Valid() && Grows(old(origin), old(nextId), origin, nextId) && PreFresh(disk, chains, pre, origin, nextId)
        invariant faults >= old(faults) && (faults == old(faults) ==> AllPrepared(disk, done, pre))
        decreases |todo|
      {
        var c :| c in todo;
        MovedOver(chains, todo, done, c);
        todo, done := todo - {c}, done + {c};
        var read := Strike();
        if read.Crash? { return read, pre; }
        PreSkips(disk, chains, done - {c}, pre, c);
        // A chain that cannot be read gets no entry: its own erasure fails, and the others go on.
        if read.Done? && EntriesOf(disk, c) != [] && !Erased(EntriesOf(disk, c)) {
          ghost var before, drawn := origin, nextId;
          IdsDrawn(disk, c, origin, nextId);
          var id := Draw("");
          PreGrows(disk, chains, pre, before, drawn, origin, nextId);
          GrowsTwice(old(origin), old(nextId), before, drawn, origin, nextId);
          PreOne(disk, chains, done - {c}, pre, c, id, before, drawn);
          pre := pre[c := Presigned(id, |EntriesOf(disk, c)|)];
        }
      }
      if signer && pre != map[] { f := Strike(); }
      assert done == chains;
    }

    /** One pending chain of the call. */
    method SweepNext(c: Chain, pre: Presigns, ghost d0: Disk, ghost done: set<Chain>, ghost todo: set<Chain>, ghost swept: set<Chain>)
      returns (end: ChainEnd)
      requires Valid() && ModeOK(disk, signer) && c in todo && c !in done && c in disk.reverse
      requires Touched(d0, disk, done) && swept <= done && AllWiped(disk, swept) && PreFresh(disk, todo, pre, origin, nextId)
      modifies this`disk, this`faults
      ensures Valid() && ModeOK(disk, signer) && (old(Neat()) ==> Neat()) && Touched(d0, disk, done + {c}) && Traced(old(disk), disk)
      ensures disk.forward == old(disk.forward) && disk.reverse == old(disk.reverse)
      ensures PreFresh(disk, todo - {c}, pre, origin, nextId) && AllWiped(disk, if end.Swept? then swept + {c} else swept)
      ensures faults >= old(faults)
      ensures AllPrepared(old(disk), todo, pre) ==> AllPrepared(disk, todo - {c}, pre) && (faults == old(faults) ==> end.Swept?)
    {
      hide DiskCore, NeatDisk, ModeOK, Touched, AllWiped, PreFresh, AllPrepared, Erasing, Wiped, FreshId, Prepared;
      ghost var job := Job(disk, c, signer, origin, nextId, cleared);
      ErasingStarts(disk, c, signer, origin, nextId, cleared);
      PreAt(disk, todo, pre, c, origin, nextId);
      end := EraseChain(c, PreOf(pre, c), job);
      SweptOne(d0, job, disk, done, swept, todo, pre);
      ErasingEnds(job, disk);
    }

    /** Step 3: each pending chain erased; one that fails stays pending and the rest go on. */
    method SweepAll(chains: set<Chain>, pre: Presigns) returns (swept: set<Chain>, cut: bool)
      requires Valid() && ModeOK(disk, signer) && AllPending(disk, chains) && PreFresh(disk, chains, pre, origin, nextId)
      modifies this`disk, this`faults
      ensures Valid() && ModeOK(disk, signer) && (old(Neat()) ==> Neat()) && Touched(old(disk), disk, chains) && Traced(old(disk), disk)
      ensures disk.forward == old(disk.forward) && disk.reverse == old(disk.reverse)
      ensures swept <= chains && AllWiped(disk, swept)
      ensures faults >= old(faults) && (faults == old(faults) && AllPrepared(old(disk), chains, pre) ==> swept == chains && !cut)
      ensures AllPrepared(old(disk), chains, pre) && !cut ==> |chains - swept| <= faults - old(faults)
    {
      hide DiskCore, NeatDisk, ModeOK, Touched, AllWiped, PreFresh, AllPrepared;
      ghost var d0 := disk;
      TouchedNothing(disk);
      SameTraced(disk, disk);
      hide Traced;
      swept, cut := {}, false;
      var todo, done: set<Chain> := chains, {};
      while todo != {}
        invariant todo + done == chains && todo !! done && swept <= done
        invariant Valid() && ModeOK(disk, signer) && (old(Neat()) ==> Neat()) && Touched(d0, disk, done)
        invariant disk.forward == d0.forward && disk.reverse == d0.reverse && Traced(d0, disk)
        invariant PreFresh(disk, todo, pre, origin, nextId) && AllWiped(disk, swept)
        invariant faults >= old(faults)
        invariant AllPrepared(d0, chains, pre) ==> AllPrepared(disk, todo, pre) && |done - swept| <= faults - old(faults)
        invariant faults == old(faults) && AllPrepared(d0, chains, pre) ==> swept == done
        decreases |todo|
      {
        var c :| c in todo;
        MovedOver(chains, todo, done, c);
        ghost var before := disk;
        var end := SweepNext(c, pre, d0, done, todo, swept);
        TracedTwice(d0, before, disk);
        OneLeft(done, swept, c);
        todo, done := todo - {c}, done + {c};
        if end.Swept? { swept := swept + {c}; }
        if end.Cut? {
          TouchedMore(d0, disk, done, chains);
          return swept, true;
        }
      }
      assert done == chains;
    }

    /** Step 4: every file deleted values lived in is rewritten, whatever became of the chains. */
    method Rewrite() returns (compacted: bool, failed: bool, cut: bool)
      requires Valid() && ModeOK(disk, signer)
      modifies this`disk, this`faults
      ensures Valid() && ModeOK(disk, signer) && (old(Neat()) ==> Neat())
      ensures SameFiles(old(disk), disk) && disk.forward == old(disk.forward) && disk.reverse == old(disk.reverse)
      ensures compacted && !cut ==> Rewritten(disk)
      ensures faults >= old(faults) && (faults == old(faults) ==> compacted && !failed && !cut)
    {
      hide DiskCore, NeatDisk, ModeOK;
      compacted, failed, cut := true, false, true;
      var f := Strike();
      RewriteStep(disk, origin, nextId, cleared, signer);
      if Lands(f) { disk := disk.(staleSecrets := {}); }
      if f.Crash? { return; }
      compacted := compacted && f.Done?;
      f := Strike();
      RewriteStep(disk, origin, nextId, cleared, signer);
      if Lands(f) { disk := disk.(staleSources := {}); }
      if f.Crash? { return; }
      compacted := compacted && f.Done?;
      f := Strike();
      RewriteStep(disk, origin, nextId, cleared, signer);
      if Lands(f) { disk := disk.(staleIndex := {}); }
      if f.Crash? { return; }
      compacted := compacted && f.Done?;
      // The signatures file: it holds no erased values, so its failure keeps nothing pending.
      f := Strike();
      failed, cut := !compacted || !f.Done?, f.Crash?;
    }

    /** Step 5: the swept chains' pending rows, one by one, stopping at a failure; then the index is rewritten once more. */
    method ClearSwept(swept: set<Chain>) returns (failed: bool, cut: bool)
      requires Valid() && AllPending(disk, swept) && AllWiped(disk, swept) && Rewritten(disk)
      modifies this`disk, this`faults, this`cleared
      ensures Valid() && (old(Neat()) ==> Neat()) && SameFiles(old(disk), disk)
      ensures disk.forward == old(disk.forward) && OnlyCleared(old(disk), disk, swept)
      ensures !failed && !cut ==> forall c <- swept :: c !in disk.reverse
      ensures faults >= old(faults) && (faults == old(faults) ==> !failed && !cut)
    {
      hide DiskCore, NeatDisk, AllWiped, Clear;
      ghost var d0 := disk;
      failed, cut := false, false;
      var todo := swept;
      while todo != {}
        invariant todo <= swept && Valid() && (old(Neat()) ==> Neat()) && SameFiles(d0, disk) && Rewritten(disk)
        invariant AllPending(disk, todo) && AllWiped(disk, todo) && disk.forward == d0.forward
        invariant OnlyCleared(d0, disk, swept) && (forall c <- swept - todo :: c !in disk.reverse) && faults == old(faults)
        decreases |todo|
      {
        var c :| c in todo;
        var f := Strike();
        ClearNext(d0, disk, c, swept, todo, origin, nextId, cleared);
        if Lands(f) {
          disk := Clear(disk, c);
          cleared := cleared + {c};
        }
        if !f.Done? { return true, f.Crash?; }
        todo := todo - {c};
      }
      if swept != {} {
        var f := Strike();
        failed, cut := !f.Done?, f.Crash?;
      }
    }

    /**
     * Steps 3 to 5, for every pending chain of the call. A row goes only once its
     * chain holds nothing but the record of a genuine erasure and the files were
     * rewritten; no other chain is touched.
     */
    method FinishErasures(chains: set<Chain>, pre: Presigns) returns (r: ErasureEnd)
      requires Valid() && ModeOK(disk, signer) && AllPending(disk, chains) && PreFresh(disk, chains, pre, origin, nextId)
      modifies this`disk, this`faults, this`cleared
      ensures Valid() && (old(Neat()) ==> Neat()) && Touched(old(disk), disk, chains)
      ensures disk.forward == old(disk.forward) && OnlyCleared(old(disk), disk, chains)
      ensures r.Completed? ==> forall c <- chains :: c !in disk.reverse
      ensures r == Completed || r == Incomplete || r == Killed
      ensures faults >= old(faults) && (faults == old(faults) && AllPrepared(old(disk), chains, pre) ==> r.Completed?)
    {
      hide DiskCore, NeatDisk, ModeOK, AllWiped, Touched, PreFresh, AllPrepared, Rewritten, SameFiles, OnlyCleared;
      ghost var d0 := disk;
      NothingCleared(d0, chains);
      var swept, cut := SweepAll(chains, pre);
      ghost var d1 := disk;
      SweptEnds(d0, d1, d1, d1, chains, swept);
      if cut { return Killed; }
      var compacted, failed, cut' := Rewrite();
      ghost var d2 := disk;
      SweptEnds(d0, d1, d2, d2, chains, swept);
      if cut' { return Killed; }
      if !compacted { return Incomplete; }
      var failed', cut'' := ClearSwept(swept);
      SweptEnds(d0, d1, d2, disk, chains, swept);
      r := if cut'' then Killed else if failed || failed' || swept != chains then Incomplete else Completed;
    }

    /**
     * eraseSubject, for a subject or one of its classes. Either nothing is
     * forgotten, or no row of the index names the subject in that scope; what is
     * not finished stays pending; and a completed call has erased every chain.
     */
    method EraseSubject(subject: string, class_: Option<string>) returns (r: ErasureEnd)
      requires Valid()
      modifies this`disk, this`faults, this`cleared, this`nextId, this`origin
      ensures Valid() && (old(Neat()) ==> Neat()) && (AllAccounted(old(disk)) ==> AllAccounted(disk))
      ensures Touched(old(disk), disk, PendingOf(old(disk)) + ChainsOf(old(disk), subject, class_))
      ensures SameIndex(old(disk), disk) || Forgotten(disk, subject, class_)
      ensures r.Completed? || r.Incomplete? ==> Forgotten(disk, subject, class_)
      ensures r.NotStarted? ==> SameFiles(old(disk), disk)
      ensures Dropped(old(disk), disk)
      ensures RestKept(old(disk), disk, subject, class_)
      ensures r.Completed? ==> forall c <- old(disk).reverse :: old(disk).reverse[c] == Pending ==> ErasedFully(disk, c)
      ensures r.Completed? ==> forall pair <- old(disk).forward :: pair.0 == subject && (class_.None? || pair.1 == class_.value) ==>
                                 ErasedFully(disk, old(disk).forward[pair])
      ensures faults == old(faults) ==> r.Completed? || (r.NotStarted? && !ModeOK(old(disk), signer))
    {
      hide DiskCore, NeatDisk, ModeOK, Touched, PreFresh, AllPrepared, OnlyCleared, Forgotten, Forget, SameFiles, Dropped, AllPending, ChainsOf, AllAccounted, RestKept, ErasedFully;
      ghost var d0 := disk;
      RestSame(d0, subject, class_);
      NothingDropped(d0);
      CallChains(d0, subject, class_, origin, nextId);
      AccountedErasing(d0, PendingOf(d0) + ChainsOf(d0, subject, class_));
      var mode := CheckMode();
      if !mode { return NotStarted; }
      var chains := PendingOf(disk) + ChainsOf(disk, subject, class_);
      SmallTouch(d0, chains);
      var read := Strike();
      if !read.Done? { return if read.Crash? then Killed else NotStarted; }
      var f, pre := Presign(chains);
      if !f.Done? { return if f.Crash? then Killed else NotStarted; }
      ForgetStep(d0, subject, class_, pre, signer, origin, nextId, cleared);
      f := Strike();
      if Lands(f) { disk := Forget(disk, subject, class_); }
      if !f.Done? { return if f.Crash? then Killed else NotStarted; }
      ghost var d1 := disk;
      r := FinishErasures(chains, pre);
      FinishedAfter(d0, d1, disk, chains, subject, class_);
    }

    /** forgetRelinked: every live row on a chain that ends with a genuine erasure becomes a pending erasure. */
    method ForgetRelinked() returns (f: Fate)
      requires Valid() && ModeOK(disk, signer)
      modifies this`disk, this`faults
      ensures Valid() && ModeOK(disk, signer) && (old(Neat()) ==> Neat()) && SameFiles(old(disk), disk)
      ensures OnlyPended(old(disk), disk) && LiveKept(old(disk), disk)
      ensures f.Done? ==> forall c <- disk.reverse :: disk.reverse[c].Live? ==> !Erased(EntriesOf(disk, c))
      ensures faults >= old(faults) && (faults == old(faults) ==> f.Done?)
    {
      hide DiskCore, NeatDisk, ModeOK, Erased, SameFiles, OnlyPended, LiveKept;
      ghost var d0 := disk;
      NotRelinked(d0);
      f := Strike();
      if !f.Done? { return; }
      var todo := set c | c in disk.reverse && disk.reverse[c].Live?;
      while todo != {}
        invariant Valid() && ModeOK(disk, signer) && (old(Neat()) ==> Neat()) && SameFiles(d0, disk) && OnlyPended(d0, disk) && LiveKept(d0, disk)
        invariant forall c <- disk.reverse :: disk.reverse[c].Live? ==> c in todo || !Erased(EntriesOf(disk, c))
        invariant forall c <- todo :: c in disk.reverse && disk.reverse[c].Live?
        invariant f.Done? && faults == old(faults)
        decreases |todo|
      {
        var c :| c in todo;
        f := Strike();
        if !f.Done? { return; }
        if Erased(EntriesOf(disk, c)) {
          RelinkedStep(d0, disk, c, signer, origin, nextId, cleared);
          f := Strike();
          if Lands(f) { disk := ForgetChain(disk, c); }
          if !f.Done? { return; }
        }
        todo := todo - {c};
      }
    }

    /**
     * ResumeErasures. It links no subject to anything; a completed call leaves
     * nothing pending and no live row on an erased chain; and without a failing
     * transaction it completes, from any folder a crash or an older index left.
     */
    method ResumeErasures() returns (r: ErasureEnd)
      requires Valid()
      modifies this`disk, this`faults, this`cleared, this`nextId, this`origin
      ensures Valid() && (old(Neat()) ==> Neat()) && (AllAccounted(old(disk)) ==> AllAccounted(disk))
      ensures Touched(old(disk), disk, old(disk).reverse.Keys) && LiveKept(old(disk), disk)
      ensures SubMap(disk.forward, old(disk.forward)) && Dropped(old(disk), disk) && OnlyGrown(old(disk), disk)
      ensures r.NotStarted? ==> SameFiles(old(disk), disk)
      ensures r.Completed? ==> forall c <- disk.reverse :: disk.reverse[c].Live? && !Erased(EntriesOf(disk, c))
      ensures r.Completed? ==> forall c <- PendingOf(old(disk)) :: ErasedFully(disk, c)
      ensures faults == old(faults) ==> r.Completed? || (r.NotStarted? && !ModeOK(old(disk), signer))
    {
      hide DiskCore, NeatDisk, ModeOK, Touched, PreFresh, AllPrepared, OnlyCleared, SameFiles, Dropped, AllPending, Erased, OnlyPended, OnlyGrown, AllAccounted, LiveKept;
      ghost var d0 := disk;
      NothingDropped(d0);
      NotRelinked(d0);
      AccountedErasing(d0, d0.reverse.Keys);
      GrownSame(d0, d0);
      var mode := CheckMode();
      if !mode { return NotStarted; }
      var f := ForgetRelinked();
      ghost var d1 := disk;
      RelinkedEnds(d0, d1);
      FilesGrown(d0, d1);
      if !f.Done? { return if f.Crash? then Killed else NotStarted; }
      var chains := PendingOf(disk);
      var pre: Presigns;
      f, pre := Presign(chains);
      if !f.Done? { return if f.Crash? then Killed else NotStarted; }
      r := FinishErasures(chains, pre);
      ResumedAfter(d0, d1, disk, chains);
      TouchedGrows(d0, d1, disk, chains);
    }

    /** An index put back from a copy: any consistent one, from before an erasure or not. The folder stays sound. */
    method RestoreIndex(forward: map<Pair, Chain>, reverse: map<Chain, Row>)
      requires Valid() && IndexOK(forward, reverse)
      modifies this`disk
      ensures Valid() && SameFiles(old(disk), disk) && disk.forward == forward && disk.reverse == reverse
    {
      ghost var d0 := disk;
      disk := disk.(forward := forward, reverse := reverse);
      hide IndexOK;
      IndexOnly(d0, disk, origin, nextId);
    }
  }
}
