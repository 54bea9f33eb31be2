/** What a verifier's result means for the chain. */
module Consequences {
  import opened Basics
  import opened Text
  import opened Bundles
  import opened Tallies
  import opened Verdicts
  import opened Tampering

  // ---- Nothing found ----

  lemma {:induction false} TagEmpty(codes: seq<Code>, i: nat)
    ensures Tag(codes, i) == [] <==> codes == []
  {
  }

  lemma {:induction false} EntriesClean(w: World, entries: seq<RawEntry>, n: nat)
    requires n <= |entries|
    ensures FoundInEntries(w, entries, n) == [] <==> forall i | 0 <= i < n :: EntryCodes(w, entries, i) == []
  {
    hide EntryCodes, Tag;
    if n > 0 {
      EntriesClean(w, entries, n - 1);
      TagEmpty(EntryCodes(w, entries, n - 1), n - 1);
    }
  }

  lemma {:induction false} OutcomesClean(outcomes: seq<Outcome>)
    ensures FoundInOutcomes(outcomes) == [] <==> forall o <- outcomes :: CodeOf(o) == []
  {
    hide CodeOf, Tag;
    if outcomes != [] {
      var n := |outcomes| - 1;
      assert outcomes == outcomes[..n] + [outcomes[n]];
      OutcomesClean(outcomes[..n]);
      TagEmpty(CodeOf(outcomes[n]), n);
    }
  }

  lemma {:induction false} RecordsClean(t: Trust, c: RawChain, n: nat)
    requires n <= |c.entries|
    ensures FoundInRecords(t, c, n) == [] <==> forall i | 0 <= i < n :: RecordCode(t, c, c.entries[i]) == None
  {
    hide RecordCode, Tag, Codes;
    if n > 0 {
      RecordsClean(t, c, n - 1);
      TagEmpty(Codes(RecordCode(t, c, c.entries[n - 1])), n - 1);
      NoCode(RecordCode(t, c, c.entries[n - 1]));
    }
  }

  lemma NoCode(code: Option<Code>)
    ensures Codes(code) == [] <==> code == None
  {
  }

  /** No two entries of the chain share an id. */
  predicate DistinctIds(entries: seq<RawEntry>) {
    forall i, j | 0 <= i < j < |entries| :: entries[i].entryID != entries[j].entryID
  }

  /** The chain is sound in itself. */
  predicate Sound(w: World, entries: seq<RawEntry>) {
    Chained(w, entries, |entries|) && DistinctIds(entries) && (forall e <- entries :: !DisclosedBad(w, e))
    && |entries| <= INT64_MAX + 1
  }

  lemma EntryClean(w: World, entries: seq<RawEntry>, i: nat)
    requires i < |entries|
    ensures EntryCodes(w, entries, i) == [] <==>
              WellFormed(entries[i]) && !DisclosedBad(w, entries[i]) && entries[i].entryID !in IdsOf(entries, i)
              && entries[i].chainHash == ExpectedHash(w, entries[i]) && LinkCodes(entries, i) == []
  {
    hide WellFormed, DisclosedBad, IdsOf, LinkCodes, ExpectedHash;
    if WellFormed(entries[i]) && ShapeCodes(w, entries, i) == [] {
      var more := LinkCodes(entries, i) + HashCodes(w, entries[i]);
      assert EntryCodes(w, entries, i) == [] + more == more;
    }
  }

  predicate EntryOK(w: World, entries: seq<RawEntry>, i: nat)
    requires i < |entries|
  {
    WellFormed(entries[i]) && !DisclosedBad(w, entries[i]) && entries[i].entryID !in IdsOf(entries, i)
    && entries[i].chainHash == ExpectedHash(w, entries[i]) && LinkCodes(entries, i) == []
  }

  /** No problem in the first pass: the chain is sound in itself, and the other way round. */
  lemma SoundExactly(w: World, entries: seq<RawEntry>)
    ensures FoundInEntries(w, entries, |entries|) == [] <==> Sound(w, entries)
  {
    EntriesClean(w, entries, |entries|);
    forall i | 0 <= i < |entries| ensures EntryCodes(w, entries, i) == [] <==> EntryOK(w, entries, i) {
      EntryClean(w, entries, i);
    }
    hide EntryCodes, EntryOK, FoundInEntries, Sound;
    if forall i | 0 <= i < |entries| :: EntryOK(w, entries, i) { OKIsSound(w, entries); }
    if Sound(w, entries) { SoundIsOK(w, entries); }
  }

  lemma OKIsSound(w: World, entries: seq<RawEntry>)
    requires forall i | 0 <= i < |entries| :: EntryOK(w, entries, i)
    ensures Sound(w, entries)
  {
    hide ExpectedHash, DisclosedBad, WellFormed, SeqOf;
    forall i, j | 0 <= i < j < |entries| ensures entries[i].entryID != entries[j].entryID {
      assert EntryOK(w, entries, i) && EntryOK(w, entries, j) && entries[i].entryID in IdsOf(entries, j);
    }
    forall i | 1 <= i < |entries|
      ensures SeqOf(entries[i]) == SeqOf(entries[i - 1]) + 1 && entries[i].previousHash == entries[i - 1].chainHash
    {
      assert EntryOK(w, entries, i) && EntryOK(w, entries, i - 1);
    }
    forall i | 0 <= i < |entries|
      ensures WellFormed(entries[i]) && !DisclosedBad(w, entries[i]) && entries[i].chainHash == ExpectedHash(w, entries[i])
    {
      assert EntryOK(w, entries, i);
    }
    if entries != [] {
      assert EntryOK(w, entries, 0);
      SeqIsIndex(w, entries, |entries|, |entries| - 1);
      SeqBound(entries[|entries| - 1]);
    }
  }

  lemma SeqBound(e: RawEntry)
    ensures SeqOf(e) <= INT64_MAX
  {
  }

  lemma SoundIsOK(w: World, entries: seq<RawEntry>)
    requires Sound(w, entries)
    ensures forall i | 0 <= i < |entries| :: EntryOK(w, entries, i)
  {
    hide ExpectedHash, DisclosedBad, WellFormed, SeqOf;
    forall i | 0 <= i < |entries| ensures EntryOK(w, entries, i) {
      if i > 0 { SeqIsIndex(w, entries, |entries|, i - 1); }
    }
  }

  /** A chain without problems: sound, classified without fault, every checkpoint passing, every record signed if that is checked. */
  ghost predicate Clean(t: Trust, c: RawChain) {
    ChainIdOK(c.id) && Sound(t.world, c.entries)
    && (forall i | 0 <= i < |c.entries| :: CodeOf(OutcomeOf(t.world, c.entries, LastErasure(t.world, c.entries, |c.entries|), i)) == [])
    && Passing(t, c, 0) == |c.checkpoints|
    && (t.recordKeys != map[] ==> forall i | 0 <= i < |c.entries| :: RecordCode(t, c, c.entries[i]) == None)
  }

  lemma CleanExactly(t: Trust, c: RawChain)
    ensures AllFound(t, c) == [] <==> Clean(t, c)
  {
    hide ChainIdOK, Sound, CodeOf, OutcomeOf, Outcomes, LastErasure, RecordCode, Passing, FoundInEntries, FoundInRecords, CheckpointCode;
    var n, last := |c.entries|, LastErasure(t.world, c.entries, |c.entries|);
    SoundExactly(t.world, c.entries);
    OutcomesAre(t.world, c.entries, last, n);
    OutcomesClean(Classified(t, c));
    hide FoundInOutcomes;
    RecordsClean(t, c, n);
    PassingIs(t, c, 0);
    var outcomes := Classified(t, c);
    assert (forall o <- outcomes :: CodeOf(o) == []) <==> forall i | 0 <= i < n :: CodeOf(OutcomeOf(t.world, c.entries, last, i)) == [];
  }

  // ---- Classification ----

  lemma {:induction false} Partition(outcomes: seq<Outcome>)
    ensures |outcomes| == Tallied(outcomes, NotWellFormed) + Tallied(outcomes, PastErasure) + Tallied(outcomes, BadDisclosure)
            + Tallied(outcomes, GenuineErasure) + Tallied(outcomes, FalseErasure) + Tallied(outcomes, UnknownType)
            + Tallied(outcomes, ErasedEvent) + Tallied(outcomes, LeakedEvent) + Tallied(outcomes, CommittedEvent)
            + Tallied(outcomes, OpenedEvent) + Tallied(outcomes, AlteredEvent)
  {
    if outcomes != [] { Partition(outcomes[..|outcomes| - 1]); }
  }

  lemma {:induction false} NoneOf(outcomes: seq<Outcome>, o: Outcome)
    ensures Tallied(outcomes, o) == 0 <==> o !in outcomes
  {
    if outcomes != [] {
      var n := |outcomes| - 1;
      assert outcomes == outcomes[..n] + [outcomes[n]];
      NoneOf(outcomes[..n], o);
    }
  }

  predicate IsEvent(o: Outcome) {
    o == ErasedEvent || o == CommittedEvent || o == OpenedEvent
  }

  /** Where every entry is an event or a genuine erasure, the events counted are the events classified. */
  lemma {:induction false} EventsAre(entries: seq<RawEntry>, outcomes: seq<Outcome>)
    requires |outcomes| == |entries|
    requires forall i | 0 <= i < |entries| :: IsEvent(outcomes[i]) || outcomes[i] == GenuineErasure
    requires forall i | 0 <= i < |entries| :: entries[i].entryType == EVENT <==> IsEvent(outcomes[i])
    ensures Events(entries) == Tallied(outcomes, ErasedEvent) + Tallied(outcomes, CommittedEvent) + Tallied(outcomes, OpenedEvent)
    ensures |entries| == Events(entries) + Tallied(outcomes, GenuineErasure)
  {
    if entries != [] {
      var n := |entries| - 1;
      EventsAre(entries[..n], outcomes[..n]);
    }
  }

  /** What an outcome that is no fault says of its entry. */
  predicate CleanlyTold(w: World, entries: seq<RawEntry>, last: int, i: nat)
    requires i < |entries|
  {
    var o, e := OutcomeOf(w, entries, last, i), entries[i];
    && (IsEvent(o) || o == GenuineErasure) && (e.entryType == EVENT <==> IsEvent(o)) && (last >= 0 ==> i <= last)
    && (o == GenuineErasure <==> HoldsErasure(w, entries, i))
    && (o == ErasedEvent <==> IsEvent(o) && last >= 0)
    && (o == ErasedEvent || o == CommittedEvent ==> e.disclosed.None?) && (o == OpenedEvent ==> Opens(w, e))
  }

  /** On a chain without problems, an entry is a genuine erasure or an event of one of three kinds. */
  lemma CleanOutcome(w: World, entries: seq<RawEntry>, last: int, i: nat)
    requires i < |entries| && WellFormed(entries[i]) && !DisclosedBad(w, entries[i]) && CodeOf(OutcomeOf(w, entries, last, i)) == []
    ensures CleanlyTold(w, entries, last, i)
  {
    hide WellFormed, DisclosedBad, HoldsErasure, Opens;
  }

  /** Conservation on a chain without problems. */
  lemma CleanCounts(t: Trust, c: RawChain)
    requires AllFound(t, c) == []
    ensures var k := CountsOf(t, c);
            && k.entries == k.erasures + k.openedEvents + k.committedEvents + k.erasedEvents
            && k.events == k.openedEvents + k.committedEvents + k.erasedEvents
            && k.checkpoints == |c.checkpoints|
  {
    CleanExactly(t, c);
    hide AllFound, Clean, Classified, Passing, Covered, CountAuthenticated, CountByRecord, CountByCheckpoint, IsEvent;
    CleanlyClassified(t, c);
    EventsAre(c.entries, Classified(t, c));
    CleanPasses(t, c);
  }

  lemma CleanlyClassified(t: Trust, c: RawChain)
    requires Clean(t, c)
    ensures var outcomes := Classified(t, c);
            |outcomes| == |c.entries|
            && (forall i | 0 <= i < |c.entries| :: IsEvent(outcomes[i]) || outcomes[i] == GenuineErasure)
            && forall i | 0 <= i < |c.entries| :: c.entries[i].entryType == EVENT <==> IsEvent(outcomes[i])
  {
    hide Clean, OutcomeOf, Outcomes, LastErasure, HoldsErasure, Opens, IsEvent;
    var outcomes := Classified(t, c);
    OutcomesAre(t.world, c.entries, LastErasure(t.world, c.entries, |c.entries|), |c.entries|);
    forall i | 0 <= i < |c.entries|
      ensures IsEvent(outcomes[i]) || outcomes[i] == GenuineErasure
      ensures c.entries[i].entryType == EVENT <==> IsEvent(outcomes[i])
    {
      CleanEntry(t, c, i);
    }
  }

  lemma CleanPasses(t: Trust, c: RawChain)
    requires Clean(t, c)
    ensures Passing(t, c, 0) == |c.checkpoints|
  {
  }

  lemma CleanEntry(t: Trust, c: RawChain, i: nat)
    requires Clean(t, c) && i < |c.entries|
    ensures CleanlyTold(t.world, c.entries, LastErasure(t.world, c.entries, |c.entries|), i)
  {
    hide LastErasure, ChainIdOK, Passing, RecordCode;
    var last := LastErasure(t.world, c.entries, |c.entries|);
    assert c.entries[i] in c.entries;
    assert WellFormed(c.entries[i]) && !DisclosedBad(t.world, c.entries[i]) && CodeOf(OutcomeOf(t.world, c.entries, last, i)) == [];
    hide Clean, OutcomeOf, WellFormed, DisclosedBad, HoldsErasure, Opens, Sound;
    CleanOutcome(t.world, c.entries, last, i);
  }

  /** What the outcome of one entry of a chain without problems says, against the chain's last erasure. */
  predicate EntryTells(t: Trust, c: RawChain, i: nat)
    requires i < |c.entries|
  {
    var w, last := t.world, LastErasure(t.world, c.entries, |c.entries|);
    var o := OutcomeOf(w, c.entries, last, i);
    (IsEvent(o) || o == GenuineErasure) && (last >= 0 ==> i <= last) && (o == GenuineErasure <==> HoldsErasure(w, c.entries, i))
    && (o == ErasedEvent <==> IsEvent(o) && last >= 0) && (last >= 0 ==> c.entries[i].disclosed.None?)
    && (HoldsErasure(w, c.entries, i) ==> i >= 1 && c.entries[i].entryType == ERASURE)
  }

  lemma ErasureUndisclosed(t: Trust, c: RawChain, i: nat)
    requires Clean(t, c) && i < |c.entries|
    ensures OutcomeOf(t.world, c.entries, LastErasure(t.world, c.entries, |c.entries|), i) == GenuineErasure ==>
              c.entries[i].disclosed.None? && c.entries[i].entryType == ERASURE
  {
    hide LastErasure, ChainIdOK, Passing, RecordCode, WellFormed, HoldsErasure, Opens, Chained;
    assert c.entries[i] in c.entries && !DisclosedBad(t.world, c.entries[i]);
  }

  lemma CleanTells(t: Trust, c: RawChain, i: nat)
    requires Clean(t, c) && i < |c.entries|
    ensures EntryTells(t, c, i) && Classified(t, c)[i] == OutcomeOf(t.world, c.entries, LastErasure(t.world, c.entries, |c.entries|), i)
  {
    OutcomesAre(t.world, c.entries, LastErasure(t.world, c.entries, |c.entries|), |c.entries|);
    hide Clean, OutcomeOf, Outcomes, LastErasure, HoldsErasure, Opens, WellFormed, CleanlyTold, EntryTells;
    CleanEntry(t, c, i);
    ErasureUndisclosed(t, c, i);
    HeldAfter(t.world, c.entries, i);
    ToldIsTells(t, c, i);
  }

  lemma ToldIsTells(t: Trust, c: RawChain, i: nat)
    requires i < |c.entries| && (HoldsErasure(t.world, c.entries, i) ==> i >= 1)
    requires CleanlyTold(t.world, c.entries, LastErasure(t.world, c.entries, |c.entries|), i)
    requires OutcomeOf(t.world, c.entries, LastErasure(t.world, c.entries, |c.entries|), i) == GenuineErasure ==>
               c.entries[i].disclosed.None? && c.entries[i].entryType == ERASURE
    ensures EntryTells(t, c, i)
  {
    hide OutcomeOf, LastErasure, HoldsErasure, Opens;
  }

  lemma HeldAfter(w: World, entries: seq<RawEntry>, i: nat)
    requires i < |entries|
    ensures HoldsErasure(w, entries, i) ==> i >= 1
  {
  }

  /** On an erased chain. */
  lemma ErasedAt(t: Trust, c: RawChain, i: nat)
    requires Clean(t, c) && i < |c.entries| && LastErasure(t.world, c.entries, |c.entries|) >= 0
    ensures i <= LastErasure(t.world, c.entries, |c.entries|) && c.entries[i].disclosed.None?
    ensures Classified(t, c)[i] != OpenedEvent && Classified(t, c)[i] != CommittedEvent
    ensures HoldsErasure(t.world, c.entries, i) ==> i >= 1 && c.entries[i].entryType == ERASURE && Classified(t, c)[i] == GenuineErasure
  {
    hide Clean, OutcomeOf, Outcomes, LastErasure, HoldsErasure, Classified;
    CleanTells(t, c, i);
  }

  /** On one that never was. */
  lemma NeverErasedAt(t: Trust, c: RawChain, i: nat)
    requires Clean(t, c) && i < |c.entries| && LastErasure(t.world, c.entries, |c.entries|) < 0
    ensures Classified(t, c)[i] == GenuineErasure ==> HoldsErasure(t.world, c.entries, i)
    ensures Classified(t, c)[i] != ErasedEvent
  {
    hide Clean, OutcomeOf, Outcomes, LastErasure, HoldsErasure, Classified;
    CleanTells(t, c, i);
  }

  lemma ErasedEnd(t: Trust, c: RawChain)
    requires Clean(t, c) && LastErasure(t.world, c.entries, |c.entries|) >= 0
    ensures var n, outcomes := |c.entries|, Classified(t, c);
            && n >= 2 && HoldsErasure(t.world, c.entries, n - 1)
            && c.entries[n - 1].entryType == ERASURE && (forall i | 0 <= i < n :: c.entries[i].disclosed.None?)
            && outcomes[n - 1] == GenuineErasure && OpenedEvent !in outcomes && CommittedEvent !in outcomes
  {
    hide *;
    var n, outcomes := |c.entries|, Classified(t, c);
    LastErasureIs(t.world, c.entries, n);
    ErasedAt(t, c, n - 1);
    forall i | 0 <= i < n ensures c.entries[i].disclosed.None? && outcomes[i] != OpenedEvent && outcomes[i] != CommittedEvent {
      ErasedAt(t, c, i);
    }
  }

  lemma NeverErased(t: Trust, c: RawChain)
    requires Clean(t, c) && LastErasure(t.world, c.entries, |c.entries|) < 0
    ensures forall i | 0 <= i < |c.entries| :: !HoldsErasure(t.world, c.entries, i)
    ensures GenuineErasure !in Classified(t, c) && ErasedEvent !in Classified(t, c)
  {
    hide *;
    var outcomes := Classified(t, c);
    LastErasureIs(t.world, c.entries, |c.entries|);
    forall i | 0 <= i < |c.entries| ensures outcomes[i] != GenuineErasure && outcomes[i] != ErasedEvent {
      NeverErasedAt(t, c, i);
    }
  }

  /** No entry holds the erasure hash for its place. */
  predicate NeverHolds(w: World, entries: seq<RawEntry>) {
    forall i | 0 <= i < |entries| :: !HoldsErasure(w, entries, i)
  }

  /** The last entry is a genuine erasure, and nothing is disclosed. */
  predicate EndsErased(w: World, entries: seq<RawEntry>) {
    var n := |entries|;
    n >= 2 && HoldsErasure(w, entries, n - 1) && entries[n - 1].entryType == ERASURE && forall e <- entries :: e.disclosed.None?
  }

  /**
   * A chain without problems holds no erasure and counts nothing erased, or it
   * ends in a genuine one and every event before it is undisclosed.
   */
  lemma CleanErasure(t: Trust, c: RawChain)
    requires AllFound(t, c) == []
    ensures var k := CountsOf(t, c);
            if k.erasures == 0 then k.erasedEvents == 0 && NeverHolds(t.world, c.entries)
            else k.openedEvents == 0 && k.committedEvents == 0 && EndsErased(t.world, c.entries)
  {
    CleanExactly(t, c);
    hide AllFound, Clean, Outcomes, LastErasure, HoldsErasure, Passing, Covered, CountAuthenticated, CountByRecord, CountByCheckpoint;
    var outcomes := Classified(t, c);
    NoneOf(outcomes, GenuineErasure);
    NoneOf(outcomes, ErasedEvent);
    NoneOf(outcomes, OpenedEvent);
    NoneOf(outcomes, CommittedEvent);
    if LastErasure(t.world, c.entries, |c.entries|) >= 0 { ErasedEnd(t, c); } else { NeverErased(t, c); }
  }

  // ---- The verdict ----

  lemma {:induction false} AllAuthenticated(t: Trust, c: RawChain, n: nat)
    requires n <= |c.entries|
    ensures CountAuthenticated(t, c, n) == n <==> forall i | 0 <= i < n :: Authenticated(t, c, i)
  {
    hide Authenticated;
    if n > 0 { AllAuthenticated(t, c, n - 1); }
  }

  /** The verdict is ok if and only if nothing is wrong and every entry is covered by a trusted checkpoint or signed by a trusted key. */
  lemma VerdictExact(t: Trust, c: RawChain)
    ensures VerdictOf(t, c) == Ok <==> AllFound(t, c) == [] && forall i | 0 <= i < |c.entries| :: Authenticated(t, c, i)
    ensures VerdictOf(t, c) == Failed <==> AllFound(t, c) != []
  {
    hide AllFound, Authenticated;
    AllAuthenticated(t, c, |c.entries|);
  }

  // ---- Record signatures ----

  /** Two checkpoints accepted over the same canonical bytes are one checkpoint under one key, whatever their signatures, if that form is injective. */
  lemma CheckpointBinds(t: Trust, c: RawChain, k: nat, d: RawChain, j: nat)
    requires k < |c.checkpoints| && (forall i | 0 <= i < k :: c.checkpoints[i].Some?) && CheckpointCode(t, c, k) == None
    requires j < |d.checkpoints| && (forall i | 0 <= i < j :: d.checkpoints[i].Some?) && CheckpointCode(t, d, j) == None
    requires var ck, ck' := c.checkpoints[k].value, d.checkpoints[j].value;
             && t.world.canonical(SignedPart(ck)) == t.world.canonical(SignedPart(ck'))
             && (t.world.canonical(SignedPart(ck)) == t.world.canonical(SignedPart(ck')) ==> SignedPart(ck) == SignedPart(ck'))
    ensures c.id == d.id && c.checkpoints[k].value == d.checkpoints[j].value.(signature := c.checkpoints[k].value.signature)
  {
  }

  /** Two records accepted over the same signed bytes are one record of one chain, under one key. */
  lemma SignatureBinds(t: Trust, c: RawChain, e: RawEntry, u: Trust, d: RawChain, f: RawEntry)
    requires RecordCode(t, c, e) == None && RecordCode(u, d, f) == None && e.sig.Some? && f.sig.Some?
    requires RecordEnvelope(c.id, e, e.sig.value.a) == RecordEnvelope(d.id, f, f.sig.value.a)
    ensures c.id == d.id && e.sig.value.a == f.sig.value.a && e.entryID == f.entryID && e.entryType == f.entryType
    ensures e.globalSeq == f.globalSeq && e.previousHash == f.previousHash && e.timestamp == f.timestamp && e.contentHash == f.contentHash
  {
    hide RecordEnvelope, WellFormed, ChainIdOK, LowerHex;
    SignedOnce(c.id, e, e.sig.value.a, d.id, f, f.sig.value.a);
  }
}
