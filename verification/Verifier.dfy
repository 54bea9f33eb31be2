/** The verifier's passes over one chain, proved to find exactly what Verdicts says. */
module ChainVerifier {
  import opened Basics
  import opened Text
  import opened Preimages
  import opened Bundles
  import opened Tallies
  import opened Verdicts

  /** What the checks learn about one entry. */
  datatype State = State(
    seqNo: nat, wellFormed: bool, event: bool, erasure: bool, disclosedBad: bool, holdsErasure: bool, genuine: bool, byRecord: bool)

  predicate Learned(w: World, entries: seq<RawEntry>, i: nat, s: State)
    requires i < |entries|
  {
    var e := entries[i];
    s.wellFormed == WellFormed(e) && (s.wellFormed ==> s.seqNo == SeqOf(e)) && s.event == (e.entryType == EVENT)
    && s.erasure == (e.entryType == ERASURE) && s.disclosedBad == DisclosedBad(w, e) && s.holdsErasure == HoldsErasure(w, entries, i)
  }

  lemma {:induction false} TagMore(codes: seq<Code>, more: seq<Code>, i: nat)
    ensures Tag(codes + more, i) == Tag(codes, i) + Tag(more, i)
  {
    if codes == [] {
      assert codes + more == more;
    } else {
      assert (codes + more)[1..] == codes[1..] + more;
      TagMore(codes[1..], more, i);
    }
  }

  lemma TagOne(code: Code, i: nat)
    ensures Tag([code], i) == [(code, Some(i))] && Tag([], i) == []
  {
  }

  /** One more code of entry i, after those already added. */
  method Report(t: Tally, code: Code, i: nat, ghost before: seq<Found>, ghost codes: seq<Code>)
    requires t.Valid() && t.found == before + Tag(codes, i)
    modifies t
    ensures t.Valid() && t.found == before + Tag(codes + [code], i)
  {
    TagMore(codes, [code], i);
    TagOne(code, i);
    hide Tag;
    t.Add(code, i);
  }

  /** The entry's shape, and whether its id was seen before. */
  method CheckShape(w: World, entries: seq<RawEntry>, i: nat, ids: set<string>, t: Tally, ghost before: seq<Found>)
    returns (s: State)
    requires i < |entries| && ids == IdsOf(entries, i) && t.Valid() && t.found == before
    modifies t
    ensures t.Valid() && t.found == before + Tag(ShapeCodes(w, entries, i), i)
    ensures s.wellFormed == WellFormed(entries[i]) && (s.wellFormed ==> s.seqNo == SeqOf(entries[i]))
    ensures s.event == (entries[i].entryType == EVENT) && s.erasure == (entries[i].entryType == ERASURE)
    ensures s.disclosedBad == DisclosedBad(w, entries[i]) && !s.holdsErasure && !s.genuine && !s.byRecord
  {
    hide WellFormed, DisclosedShape, IdsOf, Tag;
    var e := entries[i];
    var wellFormed := WellFormed(e);
    var bad := e.disclosed.Some? && (e.entryType != EVENT || !DisclosedShape(w, e.disclosed.value));
    TagOne(FieldShape, i);
    assert before + [] == before;
    ghost var codes: seq<Code> := [];
    if !wellFormed || bad {
      Report(t, FieldShape, i, before, codes);
      codes := codes + [FieldShape];
    }
    if e.entryID in ids {
      Report(t, DuplicateEntryId, i, before, codes);
      codes := codes + [DuplicateEntryId];
    }
    assert codes == ShapeCodes(w, entries, i);
    s := State(SeqOf(e), wellFormed, e.entryType == EVENT, e.entryType == ERASURE, bad, false, false, false);
  }

  /** A well-formed entry's place in the chain. */
  method CheckLink(entries: seq<RawEntry>, i: nat, prev: State, seqNo: nat, t: Tally, ghost before: seq<Found>, ghost codes0: seq<Code>)
    requires i < |entries| && WellFormed(entries[i]) && seqNo == SeqOf(entries[i])
    requires i > 0 ==> prev.wellFormed == WellFormed(entries[i - 1]) && (prev.wellFormed ==> prev.seqNo == SeqOf(entries[i - 1]))
    requires t.Valid() && t.found == before + Tag(codes0, i)
    modifies t
    ensures t.Valid() && t.found == before + Tag(codes0 + LinkCodes(entries, i), i)
  {
    hide WellFormed, Tag, SeqOf;
    var e := entries[i];
    ghost var codes: seq<Code> := [];
    assert codes0 + [] == codes0;
    if i == 0 {
      if e.globalSeq != "0" || e.previousHash != "" {
        Report(t, FirstEntry, i, before, codes0);
      }
    } else if prev.wellFormed {
      if prev.seqNo == INT64_MAX || seqNo != prev.seqNo + 1 {
        Report(t, Sequence, i, before, codes0);
        codes := [Sequence];
      }
      if e.previousHash != entries[i - 1].chainHash {
        Report(t, Link, i, before, codes0 + codes);
        assert codes0 + codes + [Link] == codes0 + (codes + [Link]);
        codes := codes + [Link];
      }
      assert codes == LinkCodes(entries, i);
    }
  }

  /** One entry of the first pass. */
  method CheckEntry(w: World, entries: seq<RawEntry>, i: nat, ids: set<string>, prev: State, t: Tally, ghost before: seq<Found>)
    returns (s: State)
    requires i < |entries| && ids == IdsOf(entries, i) && t.Valid() && t.found == before
    requires i > 0 ==> prev.wellFormed == WellFormed(entries[i - 1]) && (prev.wellFormed ==> prev.seqNo == SeqOf(entries[i - 1]))
    modifies t
    ensures t.Valid() && t.found == before + Tag(EntryCodes(w, entries, i), i)
    ensures Learned(w, entries, i, s) && !s.genuine && !s.byRecord
  {
    hide WellFormed, DisclosedBad, Tag, SeqOf, ShapeCodes, LinkCodes, ErasureHash, ExpectedHash;
    s := CheckShape(w, entries, i, ids, t, before);
    ghost var codes := ShapeCodes(w, entries, i);
    assert codes + [] == codes;
    if s.wellFormed {
      CheckLink(entries, i, prev, s.seqNo, t, before, codes);
      codes := codes + LinkCodes(entries, i);
      if i > 0 && prev.wellFormed && entries[i].contentHash == ErasureHash(w, entries[i - 1].globalSeq) {
        s := s.(holdsErasure := true);
      }
      if ExpectedHash(w, entries[i]) != entries[i].chainHash {
        Report(t, ChainHash, i, before, codes);
        codes := codes + [ChainHash];
      }
      assert codes == EntryCodes(w, entries, i) by {
        assert codes == ShapeCodes(w, entries, i) + (LinkCodes(entries, i) + HashCodes(w, entries[i]));
      }
    }
  }

  lemma IdsMore(entries: seq<RawEntry>, i: nat)
    requires i < |entries|
    ensures IdsOf(entries, i + 1) == if WellFormed(entries[i]) then IdsOf(entries, i) + {entries[i].entryID} else IdsOf(entries, i)
  {
    hide WellFormed;
  }

  lemma CountedMore(entries: seq<RawEntry>, i: nat)
    requires i < |entries|
    ensures Events(entries[..i + 1]) == Events(entries[..i]) + if entries[i].entryType == EVENT then 1 else 0
    ensures SignaturesPresent(entries[..i + 1]) == SignaturesPresent(entries[..i]) + if entries[i].sig.Some? then 1 else 0
  {
    assert entries[..i + 1][..i] == entries[..i];
  }

  /** The first malformed entry, or how many entries there are. */
  predicate FirstMalformed(entries: seq<RawEntry>, n: nat, first: nat)
    requires n <= |entries|
  {
    first <= n && PrefixWellFormed(entries, first) && (first < n ==> !WellFormed(entries[first]))
  }

  /** Sections 7.1 to 7.3 of the bundle format in one pass. */
  method CheckEntries(w: World, entries: seq<RawEntry>, t: Tally)
    returns (state: array<State>, first: nat, last: int, events: nat, present: nat)
    requires t.Valid()
    modifies t
    ensures fresh(state) && state.Length == |entries| && t.Valid()
    ensures t.found == old(t.found) + FoundInEntries(w, entries, |entries|)
    ensures forall i | 0 <= i < |entries| :: Learned(w, entries, i, state[i]) && !state[i].genuine && !state[i].byRecord
    ensures FirstMalformed(entries, |entries|, first) && last == LastErasure(w, entries, |entries|)
    ensures events == Events(entries) && present == SignaturesPresent(entries)
  {
    hide WellFormed, DisclosedBad, Tag, EntryCodes, IdsOf, HoldsErasure, SeqOf, Events, SignaturesPresent;
    var n := |entries|;
    state := new State[n](_ => State(0, false, false, false, false, false, false, false));
    first, last, events, present := n, -1, 0, 0;
    var ids: set<string> := {};
    CountedNone(entries);
    var i := 0;
    while i < n
      invariant 0 <= i <= n && t.Valid() && t.found == old(t.found) + FoundInEntries(w, entries, i)
      invariant forall j | 0 <= j < i :: Learned(w, entries, j, state[j]) && !state[j].genuine && !state[j].byRecord
      invariant ids == IdsOf(entries, i) && last == LastErasure(w, entries, i)
      invariant first == n || first < i
      invariant PrefixWellFormed(entries, if first < n then first else i)
      invariant first < n ==> !WellFormed(entries[first])
      invariant events == Events(entries[..i]) && present == SignaturesPresent(entries[..i])
    {
      ghost var before := t.found;
      var s := CheckEntry(w, entries, i, ids, if i > 0 then state[i - 1] else State(0, false, false, false, false, false, false, false), t, before);
      IdsMore(entries, i);
      CountedMore(entries, i);
      state[i] := s;
      if s.event { events := events + 1; }
      if entries[i].sig.Some? { present := present + 1; }
      if s.wellFormed {
        ids := ids + {entries[i].entryID};
      } else {
        first := if i < first then i else first;
      }
      if s.holdsErasure { last := i; }
      i := i + 1;
    }
    assert entries[..n] == entries;
  }

  lemma CountedNone(entries: seq<RawEntry>)
    ensures Events(entries[..0]) == 0 && SignaturesPresent(entries[..0]) == 0 && IdsOf(entries, 0) == {}
  {
  }

  // ---- Classification ----

  lemma OutcomesMore(w: World, entries: seq<RawEntry>, last: int, i: nat, o: Outcome)
    requires i < |entries| && o == OutcomeOf(w, entries, last, i)
    ensures var was, now := Outcomes(w, entries, last, i), Outcomes(w, entries, last, i + 1);
            && FoundInOutcomes(now) == FoundInOutcomes(was) + Tag(CodeOf(o), i)
            && forall x :: Tallied(now, x) == Tallied(was, x) + if x == o then 1 else 0
  {
    hide OutcomeOf, Tag;
    var was, now := Outcomes(w, entries, last, i), Outcomes(w, entries, last, i + 1);
    assert now[..i] == was && now[i] == o;
  }

  /** The four counts of what the entries were found to be. */
  datatype Classes = Classes(erasures: nat, openedEvents: nat, committedEvents: nat, erasedEvents: nat)

  function CountedClasses(outcomes: seq<Outcome>): Classes {
    Classes(Tallied(outcomes, GenuineErasure), Tallied(outcomes, OpenedEvent), Tallied(outcomes, CommittedEvent), Tallied(outcomes, ErasedEvent))
  }

  /** One entry, by section 7.4 of docs/bundle-format.md: the first matching row decides. */
  method ClassifyEntry(w: World, entries: seq<RawEntry>, last: int, i: nat, s: State, k: Classes, t: Tally)
    returns (s': State, k': Classes, ghost o: Outcome)
    requires i < |entries| && Learned(w, entries, i, s) && t.Valid()
    modifies t
    ensures o == OutcomeOf(w, entries, last, i)
    ensures t.Valid() && t.found == old(t.found) + Tag(CodeOf(o), i)
    ensures s' == s.(genuine := s.genuine || o == GenuineErasure)
    ensures k' == Classes(k.erasures + if o == GenuineErasure then 1 else 0, k.openedEvents + if o == OpenedEvent then 1 else 0,
                          k.committedEvents + if o == CommittedEvent then 1 else 0, k.erasedEvents + if o == ErasedEvent then 1 else 0)
  {
    hide WellFormed, DisclosedBad, HoldsErasure, Opens, SeqOf, Tag;
    var e := entries[i];
    s', k', o := s, k, OutcomeOf(w, entries, last, i);
    ghost var before := t.found;
    TagOne(AfterErasure, i); TagOne(ErasureInvalid, i); TagOne(EntryType, i); TagOne(ErasedEventDisclosed, i); TagOne(Modified, i);
    assert before + [] == before;
    if !s.wellFormed {
      return;
    }
    if last >= 0 && i > last {
      t.Add(AfterErasure, i);
    } else if s.disclosedBad {
      // Its field-shape is its outcome.
    } else if s.holdsErasure && s.erasure {
      s' := s.(genuine := true);
      k' := k.(erasures := k.erasures + 1);
    } else if s.holdsErasure || s.erasure {
      t.Add(ErasureInvalid, i);
    } else if !s.event {
      t.Add(EntryType, i);
    } else if last >= 0 && e.disclosed.None? {
      k' := k.(erasedEvents := k.erasedEvents + 1);
    } else if last >= 0 {
      t.Add(ErasedEventDisclosed, i);
    } else if e.disclosed.None? {
      k' := k.(committedEvents := k.committedEvents + 1);
    } else if Opens(w, e) {
      k' := k.(openedEvents := k.openedEvents + 1);
    } else {
      t.Add(Modified, i);
    }
  }

  /** The second pass. */
  method Classify(w: World, entries: seq<RawEntry>, last: int, state: array<State>, t: Tally) returns (k: Classes)
    requires state.Length == |entries| && t.Valid()
    requires forall i | 0 <= i < |entries| :: Learned(w, entries, i, state[i]) && !state[i].genuine && !state[i].byRecord
    modifies t, state
    ensures t.Valid() && t.found == old(t.found) + FoundInOutcomes(Outcomes(w, entries, last, |entries|))
    ensures k == CountedClasses(Outcomes(w, entries, last, |entries|))
    ensures forall i | 0 <= i < |entries| :: Learned(w, entries, i, state[i]) && !state[i].byRecord
                                             && (state[i].genuine <==> OutcomeOf(w, entries, last, i) == GenuineErasure)
  {
    hide Learned, OutcomeOf, FoundInOutcomes, Tallied, Tag, Outcomes, CodeOf;
    k := Classes(0, 0, 0, 0);
    NothingClassified(w, entries, last);
    var i := 0;
    while i < |entries|
      invariant 0 <= i <= |entries| && t.Valid() && t.found == old(t.found) + FoundInOutcomes(Outcomes(w, entries, last, i))
      invariant k == CountedClasses(Outcomes(w, entries, last, i))
      invariant forall j | 0 <= j < |entries| :: Learned(w, entries, j, state[j]) && !state[j].byRecord
      invariant forall j | i <= j < |entries| :: !state[j].genuine
      invariant forall j | 0 <= j < i :: state[j].genuine <==> OutcomeOf(w, entries, last, j) == GenuineErasure
    {
      ghost var o;
      var s;
      s, k, o := ClassifyEntry(w, entries, last, i, state[i], k, t);
      OutcomesMore(w, entries, last, i, o);
      LearnedStill(w, entries, i, state[i], s);
      state[i] := s;
      i := i + 1;
    }
  }

  lemma NothingClassified(w: World, entries: seq<RawEntry>, last: int)
    ensures Outcomes(w, entries, last, 0) == [] && FoundInOutcomes([]) == [] && forall o :: Tallied([], o) == 0
  {
  }

  lemma LearnedStill(w: World, entries: seq<RawEntry>, i: nat, s: State, s': State)
    requires i < |entries| && Learned(w, entries, i, s) && s'.(genuine := s.genuine, byRecord := s.byRecord) == s
    ensures Learned(w, entries, i, s')
  {
  }

  // ---- The checkpoint series ----

  lemma PrefixIs(entries: seq<RawEntry>, first: nat, count: nat)
    requires FirstMalformed(entries, |entries|, first) && count <= |entries|
    ensures count > first <==> !PrefixWellFormed(entries, count)
  {
    hide WellFormed;
    if count > first { assert !WellFormed(entries[first]); }
  }

  /** Steps a to g on one checkpoint: the code of the first that fails. */
  method CheckCheckpoint(t: Trust, c: RawChain, k: nat, first: nat, previousID: string, previousHash: string, previousCount: nat)
    returns (code: Option<Code>)
    requires k < |c.checkpoints| && forall j | 0 <= j < k :: c.checkpoints[j].Some?
    requires HeadAt(c, k) == Head(previousID, previousHash, previousCount) && FirstMalformed(c.entries, |c.entries|, first)
    ensures code == CheckpointCode(t, c, k)
  {
    hide WellFormed, ChainIdOK, PrefixWellFormed, AnchorPreimage, PipeFree, FirstMalformed;
    if c.checkpoints[k].None? { return Some(CheckpointMalformed); }
    var ck := c.checkpoints[k].value;
    if !ChainIdOK(c.id) || ck.subject != c.id { return Some(CheckpointSubject); }
    if ck.previousAnchorID != previousID || ck.entryCount <= previousCount { return Some(CheckpointSequence); }
    if ck.entryCount > |c.entries| { return Some(CheckpointOverreach); }
    PrefixIs(c.entries, first, ck.entryCount);
    var tip := c.entries[ck.entryCount - 1];
    if ck.entryCount > first || ck.rangeStart != c.entries[0].entryID || ck.rangeEnd != tip.entryID {
      return Some(CheckpointBinding);
    }
    var want := AnchorHash(t.world.sha, previousHash, c.id, ck.rangeStart, ck.rangeEnd, tip.chainHash);
    if want != Some(ck.chainHash) { return Some(CheckpointBinding); }
    if t.checkpointKeys == map[] { return None; }
    if ck.signingKeyID !in t.checkpointKeys { return Some(CheckpointUnknownKey); }
    var ok := t.world.verifies(t.checkpointKeys[ck.signingKeyID], t.world.canonical(SignedPart(ck)), ck.signature);
    code := if ok then None else Some(CheckpointBadSignature);
  }

  /** The series, up to the first checkpoint that fails: how many pass, and how many entries the last of them covers. */
  method CheckSeries(t: Trust, c: RawChain, first: nat, problems: Tally) returns (covered: nat, passed: nat)
    requires problems.Valid() && FirstMalformed(c.entries, |c.entries|, first)
    modifies problems
    ensures problems.Valid() && problems.found == old(problems.found) + FoundInSeries(t, c)
    ensures covered == Covered(t, c) && passed == Passing(t, c, 0)
  {
    hide CheckpointCode, FirstMalformed;
    var previousID, previousHash, previousCount := SEED_ANCHOR_ID, SEED_ANCHOR_HASH, 0;
    ghost var before := problems.found;
    assert before + [] == before;
    passed := 0;
    while passed < |c.checkpoints|
      invariant 0 <= passed <= |c.checkpoints| && forall j | 0 <= j < passed :: c.checkpoints[j].Some?
      invariant Passing(t, c, 0) == Passing(t, c, passed)
      invariant HeadAt(c, passed) == Head(previousID, previousHash, previousCount)
      invariant problems.Valid() && problems.found == before
      decreases |c.checkpoints| - passed
    {
      var code := CheckCheckpoint(t, c, passed, first, previousID, previousHash, previousCount);
      if code.Some? {
        problems.Add(code.value, passed);
        return previousCount, passed;
      }
      var ck := c.checkpoints[passed].value;
      previousID, previousHash, previousCount := ck.anchorID, ck.chainHash, ck.entryCount;
      passed := passed + 1;
    }
    covered := previousCount;
  }

  // ---- Record signatures and authentication ----

  /** Section 7.7 of docs/bundle-format.md, on one entry. */
  method CheckRecordSignature(t: Trust, c: RawChain, i: nat, s: State) returns (code: Option<Code>)
    requires i < |c.entries| && Learned(t.world, c.entries, i, s)
    ensures code == RecordCode(t, c, c.entries[i])
  {
    hide WellFormed, ChainIdOK, HoldsErasure, DisclosedBad, SeqOf, LowerHex;
    var e := c.entries[i];
    if e.sig.None? { return Some(Unsigned); }
    var keyID, signature := e.sig.value.a, DecodeCanonical(t.world, e.sig.value.b);
    if !LowerHex(keyID, 32) || signature.None? || |signature.value| != SIGNATURE_SIZE { return Some(MalformedSignature); }
    if keyID !in t.recordKeys { return Some(UnknownKey); }
    if !s.wellFormed || !ChainIdOK(c.id) || !(s.event || s.erasure) || (e.previousHash == "") != (e.globalSeq == "0") {
      return Some(BadSignature);
    }
    var env := BuildEnvelope(RecordValues(c.id, e, keyID));
    if !t.world.verifies(t.recordKeys[keyID], env, signature.value) { return Some(BadSignature); }
    code := None;
  }

  method CheckRecords(t: Trust, c: RawChain, state: array<State>, problems: Tally)
    requires state.Length == |c.entries| && problems.Valid()
    requires forall i | 0 <= i < |c.entries| :: Learned(t.world, c.entries, i, state[i]) && !state[i].byRecord
    modifies state, problems
    ensures problems.Valid()
    ensures problems.found == old(problems.found) + if t.recordKeys == map[] then [] else FoundInRecords(t, c, |c.entries|)
    ensures forall i | 0 <= i < |c.entries| :: Learned(t.world, c.entries, i, state[i])
                                               && state[i].genuine == old(state[i].genuine)
                                               && state[i].byRecord == ByRecord(t, c, c.entries[i])
  {
    hide Learned, RecordCode, Tag;
    ghost var before := problems.found;
    assert before + [] == before;
    if t.recordKeys == map[] { return; }
    var i := 0;
    while i < |c.entries|
      invariant 0 <= i <= |c.entries| && problems.Valid() && problems.found == before + FoundInRecords(t, c, i)
      invariant forall j | 0 <= j < |c.entries| :: Learned(t.world, c.entries, j, state[j]) && state[j].genuine == old(state[j].genuine)
      invariant forall j | 0 <= j < i :: state[j].byRecord == ByRecord(t, c, c.entries[j])
      invariant forall j | i <= j < |c.entries| :: !state[j].byRecord
    {
      var code := CheckRecordSignature(t, c, i, state[i]);
      if code.Some? {
        TagOne(code.value, i);
        problems.Add(code.value, i);
      } else {
        TagOne(Unsigned, i);
        ghost var was := state[i];
        state[i] := state[i].(byRecord := true);
        LearnedStill(t.world, c.entries, i, was, state[i]);
      }
      i := i + 1;
    }
  }

  method CountAuthentic(t: Trust, c: RawChain, covered: nat, state: array<State>) returns (both: nat, byCheckpoint: nat, byRecord: nat)
    requires state.Length == |c.entries| && covered == Covered(t, c)
    requires forall i | 0 <= i < |c.entries| :: Learned(t.world, c.entries, i, state[i]) && state[i].byRecord == ByRecord(t, c, c.entries[i])
    requires covered <= |c.entries| && PrefixWellFormed(c.entries, covered)
    ensures both == CountAuthenticated(t, c, |c.entries|) && byCheckpoint == CountByCheckpoint(t, c, |c.entries|)
    ensures byRecord == CountByRecord(t, c, |c.entries|)
  {
    hide Covered, ByRecord, WellFormed, HoldsErasure, DisclosedBad, SeqOf;
    both, byCheckpoint, byRecord := 0, 0, 0;
    var i := 0;
    while i < |c.entries|
      invariant 0 <= i <= |c.entries|
      invariant both == CountAuthenticated(t, c, i) && byCheckpoint == CountByCheckpoint(t, c, i) && byRecord == CountByRecord(t, c, i)
    {
      assert Learned(t.world, c.entries, i, state[i]);
      var covers := t.checkpointKeys != map[] && i < covered && state[i].wellFormed;
      if covers { byCheckpoint := byCheckpoint + 1; }
      if state[i].byRecord { byRecord := byRecord + 1; }
      if covers || state[i].byRecord { both := both + 1; }
      i := i + 1;
    }
  }

  /**
   * checkChain: the passes in their order. The counts, the erasure state and the
   * verdict are those of the chain, and the problems are exactly those found.
   */
  method CheckChain(t: Trust, c: RawChain) returns (cr: ChainResult, valid: bool)
    ensures valid == ChainIdOK(c.id) && Tells(cr.problems, AllFound(t, c))
    ensures cr.counts == CountsOf(t, c) && cr.erasure == ErasureOf(t, c) && cr.verdict == VerdictOf(t, c)
  {
    hide ChainIdOK, Tells, Learned, OutcomeOf, Outcomes, FoundInEntries, FoundInOutcomes, FoundInSeries, FoundInRecords, LastErasure,
      FirstMalformed, Covered, Passing, ByRecord, CountAuthenticated, CountByCheckpoint, CountByRecord, PrefixWellFormed, Events,
      SignaturesPresent, Tallied;
    var problems := new Tally();
    var n := |c.entries|;
    valid := ChainIdOK(c.id);
    if !valid {
      NoneFound(problems.problems, []);
      problems.AddNoIndex(InvalidChainId);
    }
    ghost var found0: seq<Found> := if valid then [] else [(InvalidChainId, None)];
    assert problems.found == found0;
    var state, first, last, events, present := CheckEntries(t.world, c.entries, problems);
    var k := Classify(t.world, c.entries, last, state, problems);
    var covered, passed := CheckSeries(t, c, first, problems);
    CheckRecords(t, c, state, problems);
    assert problems.found == AllFound(t, c);
    NoneFound(problems.problems, problems.found);
    CoveredIs(t, c);
    var both, byCheckpoint, byRecord := CountAuthentic(t, c, covered, state);
    CountAtMost(t, c, n);
    var counts := Counts(n, events, k.erasures, k.openedEvents, k.committedEvents, k.erasedEvents, passed, n - covered, both, n - both,
                         byCheckpoint, byRecord, present);
    LastInRange(t.world, c.entries);
    var erasure := NoErasure;
    if last >= 0 && state[last].genuine {
      erasure := Recorded;
      if problems.problems == map[] {
        if t.checkpointKeys != map[] && last < covered {
          erasure := Anchored;
        } else if state[last].byRecord {
          erasure := Signed;
        }
      }
    }
    var verdict := if problems.problems != map[] then Failed else if counts.unauthenticated > 0 then Unauthenticated else Ok;
    cr := ChainResult(verdict, erasure, counts, problems.problems);
  }

  lemma LastInRange(w: World, entries: seq<RawEntry>)
    ensures LastErasure(w, entries, |entries|) < |entries|
  {
  }

  lemma CountAtMost(t: Trust, c: RawChain, n: nat)
    requires n <= |c.entries|
    ensures CountAuthenticated(t, c, n) <= n
  {
  }
}
