/** What linking a batch onto a chain must give. */
module Linking {
  import opened Basics
  import opened Text
  import opened Timestamps
  import opened Preimages
  import opened JsonText
  import opened Bundles
  import opened Tampering
  import opened ByteOrder
  import opened Ordering

  datatype Format = V2 | V3

  /** A stored entry. The run id and the number in the run are v2's only. */
  datatype Entry = Entry(
    chainID: string,
    entryID: Bytes,
    entryType: string,
    format: Format,
    globalSeq: int,
    timestamp: Instant,
    contentHash: string,
    previousHash: string,
    chainHash: string,
    runID: string,
    sequenceNum: nat)

  datatype LinkError = BadHashInput(index: nat) | UnexpectedHash(index: nat)

  datatype Outcome = Linked(entries: seq<Entry>) | Refused(error: LinkError)

  /** Where a batch goes: the hash it links from and the sequence number it starts at. */
  datatype Place = Place(chainID: string, previousHash: string, next: int, runID: string)

  /** The linker's own settings. */
  datatype Settings = Settings(sha: string -> string, format: Format)

  const TOMBSTONE_HASH := "TOMBSTONE:"
  const TOMBSTONE_ID := "tomb_"
  const TOMBSTONE_TYPE := "tombstone"
  const CHAIN_PREFIX_V2 := "aleutian.chain.v2:"

  // ---- Which batches can be linked ----

  predicate StartsWith(s: string, prefix: string) {
    |prefix| <= |s| && s[..|prefix|] == prefix
  }

  predicate YearOK(t: Instant) {
    FieldsOf(t).date.year <= 9999
  }

  predicate InputOK(x: Input) {
    && x.entryID != [] && ValidUtf8(x.entryID) && YearOK(x.timestamp) && x.ingestedAt != 0 && x.entryType != TOMBSTONE_TYPE
    && !(|TOMBSTONE_ID| <= |x.entryID| && x.entryID[..|TOMBSTONE_ID|] == Ascii(TOMBSTONE_ID)) && !StartsWith(x.contentHash, TOMBSTONE_HASH)
  }

  predicate ValidBatch(inputs: seq<Input>) {
    inputs != [] && (forall x <- inputs :: InputOK(x)) && DistinctIds(inputs)
  }

  // ---- Chain hashes ----

  predicate TombstoneHash(s: string) {
    |s| == 74 && StartsWith(s, TOMBSTONE_HASH) && LowerHex(s[10..], 64)
  }

  predicate HashInputsOK(previous: string, content: string, t: Instant) {
    (previous == "" || HashShape(previous)) && (TombstoneHash(content) || HashShape(content)) && YearOK(t)
  }

  function PreimageV2(previous: string, runID: string, seqNum: nat, t: Instant, content: string): string {
    CHAIN_PREFIX_V2 + previous + ['|'] + runID + ['|'] + Decimal(seqNum) + ['|'] + FormatTimestamp(t) + ['|'] + content
  }

  /** ComputeChainHashV3 and, for v2, ComputeChainHash. */
  function ChainHashOf(l: Settings, previous: string, runID: string, seqNum: nat, globalSeq: int, x: Input): Option<string> {
    if !HashInputsOK(previous, x.contentHash, x.timestamp) then None
    else if l.format == V2 then
      (if runID == "" || '|' in runID then None else Some(l.sha(PreimageV2(previous, runID, seqNum, x.timestamp, x.contentHash))))
    else if globalSeq < 0 then None
    else Some(l.sha(ChainPreimage(previous, globalSeq, x.timestamp, x.contentHash)))
  }

  // ---- Linking ----

  /** An int64 sum that has passed the largest one. */
  function Wrap64(n: int): int {
    if n > INT64_MAX then n - 0x1_0000_0000_0000_0000 else n
  }

  function EntryOf(l: Settings, p: Place, previous: string, i: nat, x: Input, hash: string): Entry {
    Entry(p.chainID, x.entryID, x.entryType, l.format, Wrap64(p.next + i), x.timestamp, x.contentHash, previous, hash,
          if l.format == V2 then p.runID else "", if l.format == V2 then i else 0)
  }

  function LastHash(p: Place, es: seq<Entry>): string {
    if es == [] then p.previousHash else es[|es| - 1].chainHash
  }

  /** One input more, after those already linked. */
  function LinkOne(l: Settings, p: Place, es: seq<Entry>, x: Input): Outcome {
    match ChainHashOf(l, LastHash(p, es), p.runID, |es|, Wrap64(p.next + |es|), x)
    case None => Refused(BadHashInput(|es|))
    case Some(hash) =>
      if x.expected != "" && x.expected != hash then Refused(UnexpectedHash(|es|))
      else Linked(es + [EntryOf(l, p, LastHash(p, es), |es|, x, hash)])
  }

  function LinkFirst(l: Settings, p: Place, batch: seq<Input>, n: nat): (r: Outcome)
    requires n <= |batch|
    ensures r.Linked? ==> |r.entries| == n
  {
    if n == 0 then Linked([])
    else match LinkFirst(l, p, batch, n - 1)
      case Refused(e) => Refused(e)
      case Linked(es) => LinkOne(l, p, es, batch[n - 1])
  }

  function Link(l: Settings, p: Place, batch: seq<Input>): Outcome {
    LinkFirst(l, p, batch, |batch|)
  }

  /** continuation: the tail of what is stored, or the start of an empty chain. */
  function After(chainID: string, es: seq<Entry>, runID: string): Place {
    if es == [] then Place(chainID, "", 0, runID)
    else Place(chainID, es[|es| - 1].chainHash, Wrap64(es[|es| - 1].globalSeq + 1), runID)
  }

  /** What one Append adds to a chain. */
  function Appended(l: Settings, chainID: string, es: seq<Entry>, runID: string, inputs: seq<Input>): Outcome {
    Link(l, After(chainID, es, runID), Sorted(inputs))
  }

  // ---- Cutting a batch ----

  lemma {:induction false} LinkPrefix(l: Settings, p: Place, a: seq<Input>, b: seq<Input>, n: nat)
    requires n <= |a|
    ensures LinkFirst(l, p, a + b, n) == LinkFirst(l, p, a, n)
  {
    hide LinkOne;
    if n > 0 { LinkPrefix(l, p, a, b, n - 1); }
  }

  lemma {:induction false} SeqOf64(l: Settings, p: Place, batch: seq<Input>, n: nat)
    requires n <= |batch| && LinkFirst(l, p, batch, n).Linked? && l.format == V3 && -0x8000_0000_0000_0000 <= p.next <= INT64_MAX
    ensures n > 0 ==> p.next >= 0 && p.next + n - 1 <= INT64_MAX
    ensures forall i | 0 <= i < n :: LinkFirst(l, p, batch, n).entries[i].globalSeq == p.next + i
  {
    hide HashInputsOK, ChainPreimage;
    if n > 0 { SeqOf64(l, p, batch, n - 1); }
  }

  /** Both refused, or the second the end of the first. */
  predicate Continues(whole: Outcome, front: seq<Entry>, back: Outcome) {
    match back
    case Refused(_) => whole.Refused?
    case Linked(es) => whole == Linked(front + es)
  }

  /**
   * Version 3: linking the rest of a batch onto what its start left is linking
   * the whole, entry for entry.
   */
  lemma {:induction false} LinkRest(l: Settings, p: Place, a: seq<Input>, front: seq<Entry>, b: seq<Input>, k: nat)
    requires l.format == V3 && -0x8000_0000_0000_0000 <= p.next <= INT64_MAX && k <= |b|
    requires Link(l, p, a) == Linked(front)
    ensures Continues(LinkFirst(l, p, a + b, |a| + k), front, LinkFirst(l, Resume(p, front), b, k))
  {
    hide LinkOne;
    if k == 0 {
      LinkPrefix(l, p, a, b, |a|);
      assert front + [] == front;
    } else {
      LinkRest(l, p, a, front, b, k - 1);
      SeqOf64(l, p, a, |a|);
      var q := Resume(p, front);
      match LinkFirst(l, q, b, k - 1) {
        case Refused(_) =>
        case Linked(es) =>
          assert (a + b)[|a| + k - 1] == b[k - 1];
          ResumeFits(l, p, a, front);
          SeqOf64(l, q, b, k - 1);
          OneMore(l, p, q, front, es, b[k - 1]);
      }
    }
  }

  /** Where the next batch goes. */
  function Resume(p: Place, front: seq<Entry>): Place {
    if front == [] then p else p.(previousHash := LastHash(p, front), next := Wrap64(front[|front| - 1].globalSeq + 1))
  }

  lemma ResumeFits(l: Settings, p: Place, a: seq<Input>, front: seq<Entry>)
    requires l.format == V3 && -0x8000_0000_0000_0000 <= p.next <= INT64_MAX && Link(l, p, a) == Linked(front)
    ensures -0x8000_0000_0000_0000 <= Resume(p, front).next <= INT64_MAX
  {
    SeqOf64(l, p, a, |a|);
  }

  lemma OneMore(l: Settings, p: Place, q: Place, front: seq<Entry>, es: seq<Entry>, x: Input)
    requires l.format == V3 && q == Resume(p, front) && -0x8000_0000_0000_0000 <= p.next <= INT64_MAX
    requires front != [] ==> p.next >= 0 && front[|front| - 1].globalSeq == p.next + |front| - 1 <= INT64_MAX
    requires es != [] ==> q.next >= 0
    ensures Continues(LinkOne(l, p, front + es, x), front, LinkOne(l, q, es, x))
  {
    hide HashInputsOK, ChainPreimage;
    assert LastHash(p, front + es) == LastHash(q, es);
    assert forall y :: front + (es + [y]) == front + es + [y];
  }

  lemma {:induction false} RefusedStays(l: Settings, p: Place, batch: seq<Input>, n: nat, m: nat)
    requires n <= m <= |batch| && LinkFirst(l, p, batch, n).Refused?
    ensures LinkFirst(l, p, batch, m).Refused?
  {
    hide LinkOne;
    if n < m { RefusedStays(l, p, batch, n, m - 1); }
  }

  /** Version 3 has no run ids: whatever was minted, the entries are the same. */
  lemma {:induction false} RunIgnored(l: Settings, p: Place, runID: string, batch: seq<Input>, n: nat)
    requires l.format == V3 && n <= |batch|
    ensures LinkFirst(l, p, batch, n) == LinkFirst(l, p.(runID := runID), batch, n)
  {
    hide LinkOne;
    if n > 0 {
      RunIgnored(l, p, runID, batch, n - 1);
      match LinkFirst(l, p, batch, n - 1) {
        case Refused(_) =>
        case Linked(es) => RunIgnoredOne(l, p, runID, es, batch[n - 1]);
      }
    }
  }

  lemma RunIgnoredOne(l: Settings, p: Place, runID: string, es: seq<Entry>, x: Input)
    requires l.format == V3
    ensures LinkOne(l, p, es, x) == LinkOne(l, p.(runID := runID), es, x)
  {
    hide HashInputsOK, ChainPreimage;
  }

  // ---- Batch independence ----

  /** A stored chain's last number is an int64. */
  predicate Stored64(es: seq<Entry>) {
    es != [] ==> -0x8000_0000_0000_0000 <= es[|es| - 1].globalSeq <= INT64_MAX
  }

  function Flat(parts: seq<seq<Input>>): seq<Input> {
    if parts == [] then [] else Flat(parts[..|parts| - 1]) + parts[|parts| - 1]
  }

  /** A chain after one Append, None when it was refused. */
  function AppendOnce(l: Settings, chainID: string, es: seq<Entry>, runID: string, inputs: seq<Input>): Option<seq<Entry>> {
    Grown(es, Appended(l, chainID, es, runID, inputs))
  }

  function Grown(es: seq<Entry>, o: Outcome): Option<seq<Entry>> {
    match o case Linked(more) => Some(es + more) case Refused(_) => None
  }

  /** A chain after several Appends, each with its own run id; None when one was refused. */
  function AppendAll(l: Settings, chainID: string, es: seq<Entry>, runs: nat -> string, parts: seq<seq<Input>>): Option<seq<Entry>> {
    if parts == [] then Some(es)
    else
      var n := |parts| - 1;
      match AppendAll(l, chainID, es, runs, parts[..n])
      case None => None
      case Some(sofar) => AppendOnce(l, chainID, sofar, runs(n), parts[n])
  }

  lemma OrderedParts(a: seq<Input>, b: seq<Input>)
    requires InOrder(a + b) && Ordering.DistinctIds(a + b)
    ensures InOrder(a) && InOrder(b) && Ordering.DistinctIds(a) && Ordering.DistinctIds(b)
  {
    hide Earlier;
    forall i, j | 0 <= i < j < |a| ensures Earlier(a[i], a[j]) && a[i].entryID != a[j].entryID {
      assert (a + b)[i] == a[i] && (a + b)[j] == a[j];
    }
    forall i, j | 0 <= i < j < |b| ensures Earlier(b[i], b[j]) && b[i].entryID != b[j].entryID {
      assert (a + b)[|a| + i] == b[i] && (a + b)[|a| + j] == b[j];
    }
  }

  lemma AfterMore(l: Settings, chainID: string, es: seq<Entry>, a: seq<Input>, front: seq<Entry>, run: string, next: string)
    requires Link(l, After(chainID, es, run), a) == Linked(front)
    ensures After(chainID, es + front, next) == Resume(After(chainID, es, run), front).(runID := next)
  {
    if front == [] {
      assert es + front == es;
    } else {
      assert (es + front)[|es + front| - 1] == front[|front| - 1];
    }
  }

  /** One cut. */
  lemma CutOnce(l: Settings, chainID: string, es: seq<Entry>, run: string, next: string, a: seq<Input>, b: seq<Input>)
    requires l.format == V3 && Stored64(es) && InOrder(a + b) && Ordering.DistinctIds(a + b)
    ensures AppendOnce(l, chainID, es, run, a + b)
         == match AppendOnce(l, chainID, es, run, a) case None => None case Some(sofar) => AppendOnce(l, chainID, sofar, next, b)
  {
    hide LinkFirst, InOrder, Ordering.DistinctIds, Sorted, Resume, After, Grown, Stored64, Continues;
    OrderedParts(a, b);
    OrderedDistinct(a);
    OrderedDistinct(b);
    OrderedDistinct(a + b);
    AfterFits(chainID, es, run);
    CutLinks(l, After(chainID, es, run), a, b, next);
    GrownIs(es);
    match Link(l, After(chainID, es, run), a) {
      case Refused(_) =>
      case Linked(front) =>
        AfterMore(l, chainID, es, a, front, run, next);
        Whole(es, front, Link(l, After(chainID, es, run), a + b), Link(l, After(chainID, es + front, next), b));
    }
  }

  lemma AfterFits(chainID: string, es: seq<Entry>, run: string)
    requires Stored64(es)
    ensures -0x8000_0000_0000_0000 <= After(chainID, es, run).next <= INT64_MAX
  {
  }

  lemma GrownIs(es: seq<Entry>)
    ensures forall o: Outcome :: Grown(es, o) == match o case Linked(more) => Some(es + more) case Refused(_) => None
  {
  }

  lemma CutLinks(l: Settings, p: Place, a: seq<Input>, b: seq<Input>, next: string)
    requires l.format == V3 && -0x8000_0000_0000_0000 <= p.next <= INT64_MAX
    ensures Link(l, p, a).Refused? ==> Link(l, p, a + b).Refused?
    ensures Link(l, p, a).Linked? ==>
              var front := Link(l, p, a).entries; Continues(Link(l, p, a + b), front, Link(l, Resume(p, front).(runID := next), b))
  {
    hide LinkFirst, Resume, Continues;
    LinkPrefix(l, p, a, b, |a|);
    match Link(l, p, a) {
      case Refused(_) => RefusedStays(l, p, a + b, |a|, |a + b|);
      case Linked(front) =>
        LinkRest(l, p, a, front, b, |b|);
        RunIgnored(l, Resume(p, front), next, b, |b|);
    }
  }

  lemma Whole(es: seq<Entry>, front: seq<Entry>, whole: Outcome, back: Outcome)
    requires Continues(whole, front, back)
    ensures Grown(es, whole) == Grown(es + front, back)
  {
    if back.Linked? { assert es + (front + back.entries) == es + front + back.entries; }
  }

  /**
   * Version 3: however a batch is cut into consecutive Appends, in whatever
   * order its inputs were given and whatever run ids were minted, the chain is
   * the same, and it is refused in one way exactly when it is in the other.
   */
  lemma {:induction false} BatchIndependent(l: Settings, chainID: string, es: seq<Entry>, run: string, runs: nat -> string, parts: seq<seq<Input>>, inputs: seq<Input>)
    requires l.format == V3 && Stored64(es) && InOrder(Flat(parts)) && Ordering.DistinctIds(Flat(parts))
    requires Ordering.DistinctIds(inputs) && multiset(inputs) == multiset(Flat(parts))
    ensures AppendAll(l, chainID, es, runs, parts) == AppendOnce(l, chainID, es, run, inputs)
    decreases |parts|
  {
    hide AppendOnce, InOrder, Ordering.DistinctIds;
    PermutedSame(inputs, Flat(parts));
    SameAppend(l, chainID, es, run, inputs, Flat(parts));
    if parts == [] {
      NothingAppended(l, chainID, es, run);
    } else {
      var n := |parts| - 1;
      var a := Flat(parts[..n]);
      OrderedParts(a, parts[n]);
      BatchIndependent(l, chainID, es, run, runs, parts[..n], a);
      CutOnce(l, chainID, es, run, runs(n), a, parts[n]);
    }
  }

  lemma SameAppend(l: Settings, chainID: string, es: seq<Entry>, run: string, a: seq<Input>, b: seq<Input>)
    requires Sorted(a) == Sorted(b)
    ensures AppendOnce(l, chainID, es, run, a) == AppendOnce(l, chainID, es, run, b)
  {
  }

  lemma NothingAppended(l: Settings, chainID: string, es: seq<Entry>, run: string)
    ensures AppendOnce(l, chainID, es, run, []) == Some(es)
  {
    assert es + [] == es;
  }

  lemma {:induction false} NumbersV2(l: Settings, p: Place, batch: seq<Input>, n: nat)
    requires l.format == V2 && n <= |batch| && LinkFirst(l, p, batch, n).Linked?
    ensures forall i | 0 <= i < n :: LinkFirst(l, p, batch, n).entries[i].sequenceNum == i
  {
    hide ChainHashOf;
    if n > 0 { NumbersV2(l, p, batch, n - 1); }
  }

  /** Version 2: no cut gives the chain that one Append gives. */
  lemma BatchDependentV2(l: Settings, chainID: string, es: seq<Entry>, run: string, next: string, a: seq<Input>, b: seq<Input>)
    requires l.format == V2 && a != [] && b != []
    requires AppendOnce(l, chainID, es, run, a + b).Some? && AppendOnce(l, chainID, es, run, a).Some?
    requires AppendOnce(l, chainID, AppendOnce(l, chainID, es, run, a).value, next, b).Some?
    ensures AppendOnce(l, chainID, AppendOnce(l, chainID, es, run, a).value, next, b) != AppendOnce(l, chainID, es, run, a + b)
  {
    hide LinkFirst, Sorted;
    var front := AppendOnce(l, chainID, es, run, a).value;
    NumbersV2(l, After(chainID, es, run), Sorted(a + b), |a + b|);
    NumbersV2(l, After(chainID, front, next), Sorted(b), |b|);
    assert AppendOnce(l, chainID, es, run, a + b).value[|front|].sequenceNum == |a|;
    assert AppendOnce(l, chainID, front, next, b).value[|front|].sequenceNum == 0;
  }

  /** Version 2's preimage tells the number in the run, whatever the run ids. */
  lemma PreimageV2Tells(previous: string, run: string, n: nat, t: Instant, run': string, n': nat, content: string)
    requires '|' !in run && '|' !in run' && n != n'
    ensures PreimageV2(previous, run, n, t, content) != PreimageV2(previous, run', n', t, content)
  {
    var tail := ['|'] + FormatTimestamp(t) + ['|'] + content;
    hide FormatTimestamp, Cut, Decimal;
    var head := CHAIN_PREFIX_V2 + previous + ['|'];
    var x, y := PreimageV2(previous, run, n, t, content), PreimageV2(previous, run', n', t, content);
    Behind(head, run, Decimal(n), tail, x);
    Behind(head, run', Decimal(n'), tail, y);
    if x == y {
      CutPiece(run, '|', Decimal(n) + tail);
      CutPiece(run', '|', Decimal(n') + tail);
      assert (Decimal(n) + tail)[..|Decimal(n)|] == Decimal(n) && |Decimal(n)| == |Decimal(n')|;
      assert (Decimal(n') + tail)[..|Decimal(n')|] == Decimal(n');
      DecimalInjective(n, n');
    }
  }

  lemma Behind(head: string, run: string, number: string, tail: string, x: string)
    requires x == head + run + ['|'] + number + tail
    ensures x[|head|..] == run + ['|'] + (number + tail)
  {
  }

  lemma {:induction false} LinkStops(l: Settings, p: Place, batch: seq<Input>, n: nat, m: nat)
    requires n <= m <= |batch| && LinkFirst(l, p, batch, m).Linked?
    ensures LinkFirst(l, p, batch, n).Linked? && LinkFirst(l, p, batch, m).entries[..n] == LinkFirst(l, p, batch, n).entries
  {
    hide ChainHashOf;
    if n < m { LinkStops(l, p, batch, n, m - 1); }
  }

  /** What is hashed of the first input of a batch, or of one further on. */
  function HashedV2(p: Place, es: seq<Entry>, x: Input): string {
    PreimageV2(LastHash(p, es), p.runID, |es|, x.timestamp, x.contentHash)
  }

  lemma FirstHashV2(l: Settings, p: Place, batch: seq<Input>, n: nat)
    requires l.format == V2 && n < |batch| && Link(l, p, batch).Linked?
    ensures LinkFirst(l, p, batch, n).Linked? && '|' !in p.runID
    ensures Link(l, p, batch).entries[n].chainHash == l.sha(HashedV2(p, LinkFirst(l, p, batch, n).entries, batch[n]))
  {
    LinkStops(l, p, batch, n + 1, |batch|);
    hide HashInputsOK, PreimageV2, LastHash;
    assert Link(l, p, batch).entries[n] == Link(l, p, batch).entries[..n + 1][n];
  }

  /** Version 2: the entry behind a cut has another hash than it gets in one Append, whatever run ids are minted. */
  lemma RehashedV2(l: Settings, chainID: string, es: seq<Entry>, run: string, next: string, a: seq<Input>, b: seq<Input>)
    requires l.format == V2 && a != [] && b != [] && InOrder(a + b) && Ordering.DistinctIds(a + b)
    requires var p := After(chainID, es, run);
             && Link(l, p, a + b).Linked? && Link(l, p, a).Linked?
             && var q := After(chainID, es + Link(l, p, a).entries, next);
                && Link(l, q, b).Linked? && NoCollision(l.sha, {HashedV2(p, Link(l, p, a).entries, b[0]), HashedV2(q, [], b[0])})
    ensures var p := After(chainID, es, run);
            var q := After(chainID, es + Link(l, p, a).entries, next);
            && Appended(l, chainID, es, run, a + b) == Link(l, p, a + b)
            && Appended(l, chainID, es + Link(l, p, a).entries, next, b) == Link(l, q, b)
            && Link(l, p, a + b).entries[|a|].chainHash != Link(l, q, b).entries[0].chainHash
  {
    hide LinkFirst, InOrder, Ordering.DistinctIds, Sorted, PreimageV2;
    OrderedParts(a, b);
    OrderedDistinct(b);
    OrderedDistinct(a + b);
    var p := After(chainID, es, run);
    var front := Link(l, p, a).entries;
    var q := After(chainID, es + front, next);
    LinkPrefix(l, p, a, b, |a|);
    FirstHashV2(l, p, a + b, |a|);
    FirstHashV2(l, q, b, 0);
    NothingFirst(l, q, b);
    AfterMore(l, chainID, es, a, front, run, next);
    assert (a + b)[|a|] == b[0] && LastHash(q, []) == LastHash(p, front);
    PreimageV2Tells(LastHash(p, front), run, |a|, b[0].timestamp, next, 0, b[0].contentHash);
  }

  lemma NothingFirst(l: Settings, p: Place, batch: seq<Input>)
    ensures LinkFirst(l, p, batch, 0) == Linked([])
  {
  }

  // ---- What every appended chain satisfies ----

  /** Entry i at its place, linked to the one before it, under its own hash. */
  predicate EntryLinked(l: Settings, chainID: string, es: seq<Entry>, i: nat)
    requires i < |es|
  {
    && es[i].chainID == chainID && es[i].format == V3 && es[i].globalSeq == i <= INT64_MAX
    && es[i].previousHash == (if i == 0 then "" else es[i - 1].chainHash)
    && HashInputsOK(es[i].previousHash, es[i].contentHash, es[i].timestamp)
    && es[i].chainHash == l.sha(ChainPreimage(es[i].previousHash, i, es[i].timestamp, es[i].contentHash))
  }

  predicate WellLinked(l: Settings, chainID: string, es: seq<Entry>) {
    forall i | 0 <= i < |es| :: EntryLinked(l, chainID, es, i)
  }

  /** One entry more, at the sequence number that is its index. */
  lemma OneLinked(l: Settings, chainID: string, es: seq<Entry>, run: string, front: seq<Entry>, x: Input)
    requires l.format == V3 && WellLinked(l, chainID, es + front)
    requires var p := After(chainID, es, run); p.next >= 0 && p.next + |front| <= INT64_MAX && LinkOne(l, p, front, x).Linked?
    ensures WellLinked(l, chainID, es + LinkOne(l, After(chainID, es, run), front, x).entries)
  {
    hide HashInputsOK, ChainPreimage;
    var p := After(chainID, es, run);
    var was, now := es + front, es + LinkOne(l, p, front, x).entries;
    if es != [] { assert EntryLinked(l, chainID, was, |es| - 1); }
    assert p.next == |es|;
    assert now[..|was|] == was && |now| == |was| + 1;
    assert LastHash(p, front) == if was == [] then "" else was[|was| - 1].chainHash;
    forall i | 0 <= i < |now| ensures EntryLinked(l, chainID, now, i) {
      if i < |was| { assert EntryLinked(l, chainID, was, i) && now[i] == was[i] && (i > 0 ==> now[i - 1] == was[i - 1]); }
    }
  }

  lemma WellLinkedStored(l: Settings, chainID: string, es: seq<Entry>)
    requires WellLinked(l, chainID, es)
    ensures Stored64(es)
  {
    if es != [] { assert EntryLinked(l, chainID, es, |es| - 1); }
  }

  lemma {:induction false} LinkKeeps(l: Settings, chainID: string, es: seq<Entry>, run: string, batch: seq<Input>, n: nat)
    requires l.format == V3 && WellLinked(l, chainID, es) && n <= |batch| && LinkFirst(l, After(chainID, es, run), batch, n).Linked?
    ensures WellLinked(l, chainID, es + LinkFirst(l, After(chainID, es, run), batch, n).entries)
  {
    hide LinkOne, WellLinked;
    WellLinkedStored(l, chainID, es);
    if n == 0 {
      assert es + [] == es;
    } else {
      LinkKeeps(l, chainID, es, run, batch, n - 1);
      SeqOf64(l, After(chainID, es, run), batch, n);
      OneLinked(l, chainID, es, run, LinkFirst(l, After(chainID, es, run), batch, n - 1).entries, batch[n - 1]);
    }
  }

  /** Every run of Appends, from an empty chain on, keeps the chain well linked. */
  lemma {:induction false} AppendsKeep(l: Settings, chainID: string, runs: nat -> string, parts: seq<seq<Input>>)
    requires l.format == V3 && AppendAll(l, chainID, [], runs, parts).Some?
    ensures WellLinked(l, chainID, AppendAll(l, chainID, [], runs, parts).value)
  {
    hide WellLinked, LinkFirst;
    if parts == [] {
      NothingLinked(l, chainID);
    } else {
      var n := |parts| - 1;
      AppendsKeep(l, chainID, runs, parts[..n]);
      LinkKeeps(l, chainID, AppendAll(l, chainID, [], runs, parts[..n]).value, runs(n), Sorted(parts[n]), |parts[n]|);
    }
  }

  lemma NothingLinked(l: Settings, chainID: string)
    ensures WellLinked(l, chainID, [])
  {
  }

  // ---- The order of what one call linked ----

  /** The stored entry was made from this input. */
  predicate MadeOf(e: Entry, x: Input) {
    e.entryID == x.entryID && e.entryType == x.entryType && e.timestamp == x.timestamp && e.contentHash == x.contentHash
  }

  /** The first arrived before the second, or at the same time and its id comes first. */
  ghost predicate ArrivedFirst(x: Input, y: Input) {
    x.ingestedAt < y.ingestedAt || (x.ingestedAt == y.ingestedAt && Precedes(x.entryID, y.entryID))
  }

  /** Each input has its entry among these, and they stand as the inputs arrived. */
  ghost predicate ByArrival(inputs: seq<Input>, es: seq<Entry>) {
    && |es| == |inputs| && (forall x <- inputs :: exists i | 0 <= i < |es| :: MadeOf(es[i], x))
    && forall i, j, x, y | 0 <= i < j < |es| && x in inputs && y in inputs && MadeOf(es[i], x) && MadeOf(es[j], y) :: ArrivedFirst(x, y)
  }

  lemma {:induction false} EntriesMade(l: Settings, p: Place, batch: seq<Input>, n: nat)
    requires n <= |batch| && LinkFirst(l, p, batch, n).Linked?
    ensures forall i | 0 <= i < n :: MadeOf(LinkFirst(l, p, batch, n).entries[i], batch[i])
  {
    hide ChainHashOf;
    if n > 0 { EntriesMade(l, p, batch, n - 1); }
  }

  /** What one call links stands in the order of arrival. */
  lemma LinkedByArrival(l: Settings, p: Place, inputs: seq<Input>)
    requires Ordering.DistinctIds(inputs) && Link(l, p, Sorted(inputs)).Linked?
    ensures ByArrival(inputs, Link(l, p, Sorted(inputs)).entries)
  {
    var s, es := Sorted(inputs), Link(l, p, Sorted(inputs)).entries;
    EntriesMade(l, p, s, |s|);
    SortedOrdered(inputs);
    SameMembers(s, inputs);
    hide LinkFirst, Link, Sorted, MadeOf;
    forall x | x in inputs ensures exists i | 0 <= i < |es| :: MadeOf(es[i], x) {
      assert x in s;
      var i :| 0 <= i < |s| && s[i] == x;
      assert MadeOf(es[i], x);
    }
    forall i, j, x, y | 0 <= i < j < |es| && x in inputs && y in inputs && MadeOf(es[i], x) && MadeOf(es[j], y) ensures ArrivedFirst(x, y) {
      OneInput(inputs, s, es[i], i, x);
      OneInput(inputs, s, es[j], j, y);
      LessIs(x.entryID, y.entryID);
    }
  }

  lemma OneInput(inputs: seq<Input>, s: seq<Input>, e: Entry, i: nat, x: Input)
    requires Ordering.DistinctIds(inputs) && i < |s| && MadeOf(e, s[i]) && MadeOf(e, x) && x in inputs && s[i] in inputs
    ensures x == s[i]
  {
    var a :| 0 <= a < |inputs| && inputs[a] == x;
    var b :| 0 <= b < |inputs| && inputs[b] == s[i];
  }

  // ---- What is refused ----

  /** Version 2's chain hash is over its fields as they are written, behind the domain and between pipes. */
  lemma WireV2(l: Settings, previous: string, runID: string, n: nat, globalSeq: int, x: Input)
    requires l.format == V2 && ChainHashOf(l, previous, runID, n, globalSeq, x).Some?
    ensures runID != "" && '|' !in runID
    ensures ChainHashOf(l, previous, runID, n, globalSeq, x)
         == Some(l.sha("aleutian.chain.v2:" + previous + "|" + runID + "|" + Decimal(n) + "|" + FormatTimestamp(x.timestamp) + "|" + x.contentHash))
  {
    hide FormatTimestamp, Decimal;
  }

  /** Version 3: what the input at place k hashes to behind those entries. */
  function HashAt(l: Settings, p: Place, es: seq<Entry>, x: Input): string
    requires 0 <= p.next + |es|
  {
    l.sha(ChainPreimage(LastHash(p, es), p.next + |es|, x.timestamp, x.contentHash))
  }

  /** A content hash is one, and the number is an int64 from zero on. */
  predicate Linkable(p: Place, batch: seq<Input>, k: nat)
    requires k < |batch|
  {
    HashShape(batch[k].contentHash) && 0 <= p.next + k <= INT64_MAX
  }

  /** The entry of that place is as it must be. */
  predicate Right(l: Settings, p: Place, batch: seq<Input>, es: seq<Entry>, k: nat)
    requires k < |es| <= |batch|
  {
    Linkable(p, batch, k) && es[k].chainHash == HashAt(l, p, es[..k], batch[k]) && batch[k].expected in {"", es[k].chainHash}
  }

  /** What linking the first n of a batch must have come to. */
  predicate LinkedOrNot(l: Settings, p: Place, batch: seq<Input>, n: nat)
    requires n <= |batch|
  {
    match LinkFirst(l, p, batch, n)
    case Linked(es) => forall k | 0 <= k < n :: Right(l, p, batch, es, k)
    case Refused(BadHashInput(k)) => k < n && !Linkable(p, batch, k)
    case Refused(UnexpectedHash(k)) =>
      && k < n && Linkable(p, batch, k) && LinkFirst(l, p, batch, k).Linked?
      && batch[k].expected !in {"", HashAt(l, p, LinkFirst(l, p, batch, k).entries, batch[k])}
  }

  /** Version 3: valid inputs are refused for a hash or a number that is none, or for another hash than the one expected, and for nothing else. */
  lemma {:induction false} LinkedExactly(l: Settings, p: Place, batch: seq<Input>, n: nat)
    requires l.format == V3 && n <= |batch| && -0x8000_0000_0000_0000 <= p.next <= INT64_MAX
    requires (forall x <- batch :: InputOK(x)) && (p.previousHash == "" || HashShape(p.previousHash)) && forall s :: HashShape(l.sha(s))
    ensures LinkedOrNot(l, p, batch, n)
  {
    hide HashShape, InputOK, LinkOne, LinkedOrNot;
    if n > 0 {
      LinkedExactly(l, p, batch, n - 1);
      OneExactly(l, p, batch, n);
    } else {
      NoneExactly(l, p, batch);
    }
  }

  lemma NoneExactly(l: Settings, p: Place, batch: seq<Input>)
    ensures LinkedOrNot(l, p, batch, 0)
  {
  }

  lemma OneExactly(l: Settings, p: Place, batch: seq<Input>, n: nat)
    requires l.format == V3 && 0 < n <= |batch| && -0x8000_0000_0000_0000 <= p.next <= INT64_MAX && LinkedOrNot(l, p, batch, n - 1)
    requires InputOK(batch[n - 1]) && (p.previousHash == "" || HashShape(p.previousHash)) && forall s :: HashShape(l.sha(s))
    ensures LinkedOrNot(l, p, batch, n)
  {
    hide HashShape, InputOK, LinkOne, LinkedOrNot;
    match LinkFirst(l, p, batch, n - 1) {
      case Refused(_) => StillRefused(l, p, batch, n);
      case Linked(es) =>
        NoTombstone(batch[n - 1]);
        HashesShaped(l, p, batch, n - 1);
        AllRight(l, p, batch, n - 1);
        if n > 1 { RightIn(l, p, batch, es, n - 2); }
        InputLinked(l, p, es, batch, n - 1);
        InputAdded(l, p, es, batch, n - 1);
    }
  }

  lemma StillRefused(l: Settings, p: Place, batch: seq<Input>, n: nat)
    requires 0 < n <= |batch| && LinkedOrNot(l, p, batch, n - 1) && LinkFirst(l, p, batch, n - 1).Refused?
    ensures LinkedOrNot(l, p, batch, n)
  {
    hide Linkable, HashAt, Right, LinkOne;
  }

  lemma AllRight(l: Settings, p: Place, batch: seq<Input>, n: nat)
    requires n <= |batch| && LinkedOrNot(l, p, batch, n) && LinkFirst(l, p, batch, n).Linked?
    ensures forall k | 0 <= k < n :: Right(l, p, batch, LinkFirst(l, p, batch, n).entries, k)
  {
  }

  lemma InputAdded(l: Settings, p: Place, es: seq<Entry>, batch: seq<Input>, k: nat)
    requires k < |batch| && LinkFirst(l, p, batch, k) == Linked(es) && (forall j | 0 <= j < k :: Right(l, p, batch, es, j))
    requires OneRight(l, p, es, batch, k)
    ensures LinkedOrNot(l, p, batch, k + 1)
  {
    hide Linkable, HashAt, Right, LinkOne;
    var o := LinkOne(l, p, es, batch[k]);
    assert LinkFirst(l, p, batch, k + 1) == o;
    if o.Linked? { RightMore(l, p, batch, es, o.entries); }
  }

  lemma RightMore(l: Settings, p: Place, batch: seq<Input>, es: seq<Entry>, more: seq<Entry>)
    requires |more| == |es| + 1 <= |batch| && more[..|es|] == es && (forall k | 0 <= k < |es| :: Right(l, p, batch, es, k))
    ensures forall k | 0 <= k < |es| :: Right(l, p, batch, more, k)
  {
    hide Linkable, HashAt;
    forall k | 0 <= k < |es| ensures Right(l, p, batch, more, k) {
      assert Right(l, p, batch, es, k) && more[..k] == es[..k] && more[k] == more[..|es|][k];
    }
  }

  lemma RightIn(l: Settings, p: Place, batch: seq<Input>, es: seq<Entry>, k: nat)
    requires k < |es| <= |batch| && Right(l, p, batch, es, k)
    ensures 0 <= p.next + k <= INT64_MAX
  {
  }

  predicate OneRight(l: Settings, p: Place, es: seq<Entry>, batch: seq<Input>, k: nat)
    requires k < |batch|
  {
    match LinkOne(l, p, es, batch[k])
    case Linked(more) => |more| == k + 1 && |es| == k && more[..k] == es && Right(l, p, batch, more, k)
    case Refused(BadHashInput(at)) => at == k && !Linkable(p, batch, k)
    case Refused(UnexpectedHash(at)) => at == k == |es| && Linkable(p, batch, k) && batch[k].expected !in {"", HashAt(l, p, es, batch[k])}
  }

  /** One valid input behind entries already linked. */
  lemma InputLinked(l: Settings, p: Place, es: seq<Entry>, batch: seq<Input>, k: nat)
    requires l.format == V3 && k < |batch| && |es| == k && -0x8000_0000_0000_0000 <= p.next <= INT64_MAX && !TombstoneHash(batch[k].contentHash) && YearOK(batch[k].timestamp)
    requires LastHash(p, es) == "" || HashShape(LastHash(p, es))
    requires k > 0 ==> 0 <= p.next + (k - 1) <= INT64_MAX
    ensures OneRight(l, p, es, batch, k)
  {
    hide HashShape, YearOK, ChainPreimage, TombstoneHash;
  }

  lemma NoTombstone(x: Input)
    requires InputOK(x)
    ensures !TombstoneHash(x.contentHash) && YearOK(x.timestamp)
  {
  }

  lemma HashesShaped(l: Settings, p: Place, batch: seq<Input>, n: nat)
    requires l.format == V3 && n <= |batch| && LinkFirst(l, p, batch, n).Linked?
    requires (p.previousHash == "" || HashShape(p.previousHash)) && forall s :: HashShape(l.sha(s))
    ensures var h := LastHash(p, LinkFirst(l, p, batch, n).entries); h == "" || HashShape(h)
  {
    hide HashShape, YearOK, ChainPreimage, TombstoneHash;
  }
}
