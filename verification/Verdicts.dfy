/** What the verifier must find on one chain, entry by entry and checkpoint by checkpoint. */
module Verdicts {
  import opened Basics
  import opened Text
  import opened Preimages
  import opened Bundles
  import opened Tallies

  /** The two trusted key sets, by key id; an empty set is not checked. */
  datatype Trust = Trust(world: World, checkpointKeys: map<string, Bytes>, recordKeys: map<string, Bytes>)

  function Tag(codes: seq<Code>, i: nat): seq<Found> {
    if codes == [] then [] else [(codes[0], Some(i))] + Tag(codes[1..], i)
  }

  // ---- Shapes, repeated ids, links, hashes ----

  function IdsOf(entries: seq<RawEntry>, n: nat): set<string>
    requires n <= |entries|
  {
    set j | 0 <= j < n && WellFormed(entries[j]) :: entries[j].entryID
  }

  /** The entry's place in the chain: the first, or the one after a well-formed one. */
  function LinkCodes(entries: seq<RawEntry>, i: nat): seq<Code>
    requires i < |entries|
  {
    var e := entries[i];
    if i == 0 then (if e.globalSeq != "0" || e.previousHash != "" then [FirstEntry] else [])
    else if WellFormed(entries[i - 1]) then
      (if SeqOf(entries[i - 1]) == INT64_MAX || SeqOf(e) != SeqOf(entries[i - 1]) + 1 then [Sequence] else [])
      + (if e.previousHash != entries[i - 1].chainHash then [Link] else [])
    else []
  }

  function HashCodes(w: World, e: RawEntry): seq<Code>
    requires WellFormed(e)
  {
    if ExpectedHash(w, e) != e.chainHash then [ChainHash] else []
  }

  function ShapeCodes(w: World, entries: seq<RawEntry>, i: nat): seq<Code>
    requires i < |entries|
  {
    (if !WellFormed(entries[i]) || DisclosedBad(w, entries[i]) then [FieldShape] else [])
    + if entries[i].entryID in IdsOf(entries, i) then [DuplicateEntryId] else []
  }

  function EntryCodes(w: World, entries: seq<RawEntry>, i: nat): seq<Code>
    requires i < |entries|
  {
    ShapeCodes(w, entries, i) + if WellFormed(entries[i]) then LinkCodes(entries, i) + HashCodes(w, entries[i]) else []
  }

  function FoundInEntries(w: World, entries: seq<RawEntry>, n: nat): seq<Found>
    requires n <= |entries|
  {
    if n == 0 then [] else FoundInEntries(w, entries, n - 1) + Tag(EntryCodes(w, entries, n - 1), n - 1)
  }

  /** The entry's content hash is that of the erasure record for the well-formed entry before it. */
  predicate HoldsErasure(w: World, entries: seq<RawEntry>, i: nat)
    requires i < |entries|
  {
    i > 0 && WellFormed(entries[i]) && WellFormed(entries[i - 1])
    && entries[i].contentHash == ErasureHash(w, entries[i - 1].globalSeq)
  }

  function LastErasure(w: World, entries: seq<RawEntry>, n: nat): (last: int)
    requires n <= |entries|
    ensures -1 <= last < n
  {
    if n == 0 then -1 else if HoldsErasure(w, entries, n - 1) then n - 1 else LastErasure(w, entries, n - 1)
  }

  lemma {:induction false} LastErasureIs(w: World, entries: seq<RawEntry>, n: nat)
    requires n <= |entries|
    ensures var last := LastErasure(w, entries, n);
            (last >= 0 ==> HoldsErasure(w, entries, last)) && forall i | last < i < n && i >= 0 :: !HoldsErasure(w, entries, i)
  {
    hide HoldsErasure;
    if n > 0 { LastErasureIs(w, entries, n - 1); }
  }

  // ---- Classification ----

  datatype Outcome = NotWellFormed | PastErasure | BadDisclosure | GenuineErasure | FalseErasure | UnknownType
                   | ErasedEvent | LeakedEvent | CommittedEvent | OpenedEvent | AlteredEvent

  /** The first matching row decides each entry. */
  function OutcomeOf(w: World, entries: seq<RawEntry>, last: int, i: nat): Outcome
    requires i < |entries|
  {
    var e := entries[i];
    if !WellFormed(e) then NotWellFormed
    else if last >= 0 && i > last then PastErasure
    else if DisclosedBad(w, e) then BadDisclosure
    else if HoldsErasure(w, entries, i) && e.entryType == ERASURE then GenuineErasure
    else if HoldsErasure(w, entries, i) || e.entryType == ERASURE then FalseErasure
    else if e.entryType != EVENT then UnknownType
    else if last >= 0 then (if e.disclosed.None? then ErasedEvent else LeakedEvent)
    else if e.disclosed.None? then CommittedEvent
    else if Opens(w, e) then OpenedEvent
    else AlteredEvent
  }

  function CodeOf(o: Outcome): seq<Code> {
    match o
    case PastErasure => [AfterErasure]
    case FalseErasure => [ErasureInvalid]
    case UnknownType => [EntryType]
    case LeakedEvent => [ErasedEventDisclosed]
    case AlteredEvent => [Modified]
    case _ => []
  }

  function Outcomes(w: World, entries: seq<RawEntry>, last: int, n: nat): (r: seq<Outcome>)
    requires n <= |entries|
    ensures |r| == n
  {
    if n == 0 then [] else Outcomes(w, entries, last, n - 1) + [OutcomeOf(w, entries, last, n - 1)]
  }

  function FoundInOutcomes(outcomes: seq<Outcome>): seq<Found> {
    if outcomes == [] then []
    else
      var n := |outcomes| - 1;
      FoundInOutcomes(outcomes[..n]) + Tag(CodeOf(outcomes[n]), n)
  }

  function Tallied(outcomes: seq<Outcome>, o: Outcome): nat {
    if outcomes == [] then 0
    else Tallied(outcomes[..|outcomes| - 1], o) + if outcomes[|outcomes| - 1] == o then 1 else 0
  }

  function Events(entries: seq<RawEntry>): nat {
    if entries == [] then 0
    else Events(entries[..|entries| - 1]) + if entries[|entries| - 1].entryType == EVENT then 1 else 0
  }

  function SignaturesPresent(entries: seq<RawEntry>): nat {
    if entries == [] then 0
    else SignaturesPresent(entries[..|entries| - 1]) + if entries[|entries| - 1].sig.Some? then 1 else 0
  }

  // ---- The checkpoint series ----

  predicate PrefixWellFormed(entries: seq<RawEntry>, n: nat)
    requires n <= |entries|
  {
    forall i | 0 <= i < n :: WellFormed(entries[i])
  }

  /** What a checkpoint follows: the seed, or the checkpoint before it. */
  datatype Head = Head(id: string, hash: string, count: nat)

  function HeadAt(c: RawChain, k: nat): Head
    requires k <= |c.checkpoints| && forall j | 0 <= j < k :: c.checkpoints[j].Some?
  {
    if k == 0 then Head(SEED_ANCHOR_ID, SEED_ANCHOR_HASH, 0)
    else var ck := c.checkpoints[k - 1].value; Head(ck.anchorID, ck.chainHash, ck.entryCount)
  }

  /** The checkpoint's range and chain hash do not describe the entries it covers. */
  predicate Misdescribes(w: World, c: RawChain, head: Head, ck: Checkpoint)
    requires 1 <= ck.entryCount <= |c.entries|
  {
    !PrefixWellFormed(c.entries, ck.entryCount) || ck.rangeStart != c.entries[0].entryID
    || ck.rangeEnd != c.entries[ck.entryCount - 1].entryID
    || AnchorHash(w.sha, head.hash, c.id, ck.rangeStart, ck.rangeEnd, c.entries[ck.entryCount - 1].chainHash) != Some(ck.chainHash)
  }

  function SignatureCode(t: Trust, ck: Checkpoint): Option<Code> {
    if t.checkpointKeys == map[] then None
    else if ck.signingKeyID !in t.checkpointKeys then Some(CheckpointUnknownKey)
    else if !t.world.verifies(t.checkpointKeys[ck.signingKeyID], t.world.canonical(SignedPart(ck)), ck.signature) then Some(CheckpointBadSignature)
    else None
  }

  /** The code of the first step that fails on one checkpoint, if any does. */
  function CheckpointCode(t: Trust, c: RawChain, k: nat): (r: Option<Code>)
    requires k < |c.checkpoints| && forall j | 0 <= j < k :: c.checkpoints[j].Some?
    ensures r == None ==> c.checkpoints[k].Some?
  {
    match c.checkpoints[k]
    case None => Some(CheckpointMalformed)
    case Some(ck) =>
      var head := HeadAt(c, k);
      if !ChainIdOK(c.id) || ck.subject != c.id then Some(CheckpointSubject)
      else if ck.previousAnchorID != head.id || ck.entryCount <= head.count then Some(CheckpointSequence)
      else if ck.entryCount > |c.entries| then Some(CheckpointOverreach)
      else if Misdescribes(t.world, c, head, ck) then Some(CheckpointBinding)
      else SignatureCode(t, ck)
  }

  /** How many checkpoints pass before the first that fails. */
  function Passing(t: Trust, c: RawChain, k: nat): (p: nat)
    requires k <= |c.checkpoints| && forall j | 0 <= j < k :: c.checkpoints[j].Some?
    ensures k <= p <= |c.checkpoints| && (forall j | 0 <= j < p :: c.checkpoints[j].Some?)
    decreases |c.checkpoints| - k
  {
    hide CheckpointCode;
    if k == |c.checkpoints| then k
    else if CheckpointCode(t, c, k).Some? then k
    else
      assert c.checkpoints[k].Some?;
      Passing(t, c, k + 1)
  }

  lemma {:induction false} PassingIs(t: Trust, c: RawChain, k: nat)
    requires k <= |c.checkpoints| && forall j | 0 <= j < k :: c.checkpoints[j].Some?
    ensures forall j | k <= j < Passing(t, c, k) :: CheckpointCode(t, c, j) == None
    ensures Passing(t, c, k) < |c.checkpoints| ==> CheckpointCode(t, c, Passing(t, c, k)).Some?
    decreases |c.checkpoints| - k
  {
    hide CheckpointCode;
    if k < |c.checkpoints| && CheckpointCode(t, c, k) == None {
      PassingIs(t, c, k + 1);
    }
  }

  /** How many entries the last passing checkpoint covers. */
  function Covered(t: Trust, c: RawChain): nat {
    HeadAt(c, Passing(t, c, 0)).count
  }

  function FoundInSeries(t: Trust, c: RawChain): seq<Found> {
    var p := Passing(t, c, 0);
    if p == |c.checkpoints| then []
    else match CheckpointCode(t, c, p) case Some(code) => [(code, Some(p))] case None => []
  }

  // ---- Record signatures ----

  function RecordCode(t: Trust, c: RawChain, e: RawEntry): Option<Code> {
    match e.sig
    case None => Some(Unsigned)
    case Some(s) =>
      if !LowerHex(s.a, 32) || DecodeCanonical(t.world, s.b).None? || |DecodeCanonical(t.world, s.b).value| != SIGNATURE_SIZE then Some(MalformedSignature)
      else if s.a !in t.recordKeys then Some(UnknownKey)
      else if !WellFormed(e) || !ChainIdOK(c.id) || (e.entryType != EVENT && e.entryType != ERASURE)
              || (e.previousHash == "") != (e.globalSeq == "0") then Some(BadSignature)
      else if !t.world.verifies(t.recordKeys[s.a], RecordEnvelope(c.id, e, s.a), DecodeCanonical(t.world, s.b).value) then Some(BadSignature)
      else None
  }

  function Codes(o: Option<Code>): seq<Code> {
    match o case None => [] case Some(c) => [c]
  }

  function FoundInRecords(t: Trust, c: RawChain, n: nat): seq<Found>
    requires n <= |c.entries|
  {
    if n == 0 then [] else FoundInRecords(t, c, n - 1) + Tag(Codes(RecordCode(t, c, c.entries[n - 1])), n - 1)
  }

  // ---- A whole chain ----

  predicate ByCheckpoint(t: Trust, c: RawChain, i: nat) {
    t.checkpointKeys != map[] && i < Covered(t, c)
  }

  predicate ByRecord(t: Trust, c: RawChain, e: RawEntry) {
    t.recordKeys != map[] && RecordCode(t, c, e) == None
  }

  predicate Authenticated(t: Trust, c: RawChain, i: nat)
    requires i < |c.entries|
  {
    ByCheckpoint(t, c, i) || ByRecord(t, c, c.entries[i])
  }

  datatype Counts = Counts(
    entries: nat, events: nat, erasures: nat, openedEvents: nat, committedEvents: nat, erasedEvents: nat, checkpoints: nat, unanchored: nat,
    authenticated: nat, unauthenticated: nat, checkpointAuthenticated: nat, recordAuthenticated: nat, signaturesPresent: nat)

  function CountByCheckpoint(t: Trust, c: RawChain, n: nat): nat {
    if n == 0 then 0 else CountByCheckpoint(t, c, n - 1) + if ByCheckpoint(t, c, n - 1) then 1 else 0
  }

  function CountByRecord(t: Trust, c: RawChain, n: nat): nat
    requires n <= |c.entries|
  {
    if n == 0 then 0 else CountByRecord(t, c, n - 1) + if ByRecord(t, c, c.entries[n - 1]) then 1 else 0
  }

  function CountAuthenticated(t: Trust, c: RawChain, n: nat): (r: nat)
    requires n <= |c.entries|
    ensures r <= n
  {
    if n == 0 then 0 else CountAuthenticated(t, c, n - 1) + if Authenticated(t, c, n - 1) then 1 else 0
  }

  function Classified(t: Trust, c: RawChain): (r: seq<Outcome>)
    ensures |r| == |c.entries|
  {
    Outcomes(t.world, c.entries, LastErasure(t.world, c.entries, |c.entries|), |c.entries|)
  }

  /** Every problem of the chain, in the order the passes find them. */
  function AllFound(t: Trust, c: RawChain): seq<Found> {
    (if ChainIdOK(c.id) then [] else [(InvalidChainId, None)])
    + FoundInEntries(t.world, c.entries, |c.entries|) + FoundInOutcomes(Classified(t, c)) + FoundInSeries(t, c)
    + if t.recordKeys == map[] then [] else FoundInRecords(t, c, |c.entries|)
  }

  datatype ErasureState = NoErasure | Recorded | Anchored | Signed

  datatype Verdict = Ok | Unauthenticated | Failed

  datatype ChainResult = ChainResult(verdict: Verdict, erasure: ErasureState, counts: Counts, problems: map<Code, Problem>)

  /** What the last passing checkpoint covers is well-formed and on the chain. */
  lemma CoveredIs(t: Trust, c: RawChain)
    ensures Covered(t, c) <= |c.entries| && PrefixWellFormed(c.entries, Covered(t, c))
  {
    hide CheckpointCode, Misdescribes, OutcomeOf, ChainIdOK, LastErasure, SignatureCode, Outcomes, PrefixWellFormed, WellFormed;
    var p := Passing(t, c, 0);
    PassingIs(t, c, 0);
    NothingCovered(c.entries);
    if p > 0 { PassedOne(t, c, p - 1); }
  }

  lemma NothingCovered(entries: seq<RawEntry>)
    ensures PrefixWellFormed(entries, 0)
  {
  }

  /** What a passing checkpoint says. */
  lemma PassedOne(t: Trust, c: RawChain, k: nat)
    requires k < |c.checkpoints| && (forall j | 0 <= j < k :: c.checkpoints[j].Some?) && CheckpointCode(t, c, k) == None
    ensures var ck, head := c.checkpoints[k].value, HeadAt(c, k);
            && ChainIdOK(c.id) && ck.subject == c.id && ck.previousAnchorID == head.id && head.count < ck.entryCount <= |c.entries|
            && !Misdescribes(t.world, c, head, ck) && SignatureCode(t, ck) == None && PrefixWellFormed(c.entries, ck.entryCount)
  {
    hide ChainIdOK, PrefixWellFormed, AnchorHash;
  }

  lemma {:induction false} OutcomesAre(w: World, entries: seq<RawEntry>, last: int, n: nat)
    requires n <= |entries|
    ensures forall i | 0 <= i < n :: Outcomes(w, entries, last, n)[i] == OutcomeOf(w, entries, last, i)
  {
    hide OutcomeOf;
    if n > 0 { OutcomesAre(w, entries, last, n - 1); }
  }

  function CountsOf(t: Trust, c: RawChain): Counts {
    var n, outcomes := |c.entries|, Classified(t, c);
    var authentic := CountAuthenticated(t, c, n);
    CoveredIs(t, c);
    Counts(n, Events(c.entries), Tallied(outcomes, GenuineErasure), Tallied(outcomes, OpenedEvent), Tallied(outcomes, CommittedEvent),
           Tallied(outcomes, ErasedEvent), Passing(t, c, 0), n - Covered(t, c), authentic, n - authentic,
           CountByCheckpoint(t, c, n), CountByRecord(t, c, n), SignaturesPresent(c.entries))
  }

  /** What the chain says of its erasure, and how far that can be trusted. */
  function ErasureOf(t: Trust, c: RawChain): ErasureState {
    var last := LastErasure(t.world, c.entries, |c.entries|);
    if last < 0 || OutcomeOf(t.world, c.entries, last, last) != GenuineErasure then NoErasure
    else if AllFound(t, c) != [] then Recorded
    else if ByCheckpoint(t, c, last) then Anchored
    else if ByRecord(t, c, c.entries[last]) then Signed
    else Recorded
  }

  function VerdictOf(t: Trust, c: RawChain): Verdict {
    if AllFound(t, c) != [] then Failed
    else if CountAuthenticated(t, c, |c.entries|) < |c.entries| then Unauthenticated
    else Ok
  }
}
