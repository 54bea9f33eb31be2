/** The memory of checkpoint heads, and what it guarantees of the checkpoint series over every run. */
module HeadMemory {
  import opened Basics
  import opened Preimages
  import opened Bundles
  import opened Tampering

  /** A recorded head: how many checkpoints there were, and the last one's chain hash. */
  datatype Mark = Mark(count: nat, hash: string)

  datatype Update = Update(chain: string, mark: Mark)

  /** A checkpoint file's content, as far as the series depends on it. */
  datatype Anchor = Anchor(first: string, last: string, tip: string, entryCount: nat, hash: string)

  type Heads = map<string, Mark>
  type Folder = map<string, seq<Anchor>>

  function MarkOf(h: Heads, chain: string): Option<Mark> {
    if chain in h then Some(h[chain]) else None
  }

  function SeriesOf(f: Folder, chain: string): seq<Anchor> {
    if chain in f then f[chain] else []
  }

  // ---- Recording ----

  predicate ValidHead(u: Update) {
    ChainIdOK(u.chain) && u.mark.count >= 1 && HashShape(u.mark.hash)
  }

  /** The head does not go back: not to a lower count, and not to another hash at the same one. */
  predicate Forward(was: Option<Mark>, now: Option<Mark>) {
    was.Some? ==> now.Some? && was.value.count <= now.value.count && (was.value.count == now.value.count ==> was == now)
  }

  function Recorded(h: Heads, us: seq<Update>): Option<Heads> {
    if us == [] then Some(h)
    else
      var u := us[|us| - 1];
      match Recorded(h, us[..|us| - 1])
      case None => None
      case Some(m) => if ValidHead(u) && Forward(MarkOf(m, u.chain), Some(u.mark)) then Some(m[u.chain := u.mark]) else None
  }

  predicate Grown(a: Heads, b: Heads) {
    forall c <- a :: Forward(MarkOf(a, c), MarkOf(b, c))
  }

  /** Heads only grow. */
  lemma {:induction false} RecordedGrows(h: Heads, us: seq<Update>)
    requires Recorded(h, us).Some?
    ensures Grown(h, Recorded(h, us).value)
    ensures forall c <- h :: c in Recorded(h, us).value && (Recorded(h, us).value[c] == h[c] || Recorded(h, us).value[c].count > h[c].count)
  {
    hide ValidHead;
    if us != [] { RecordedGrows(h, us[..|us| - 1]); }
  }

  predicate DistinctChains(us: seq<Update>) {
    forall i, j | 0 <= i < j < |us| :: us[i].chain != us[j].chain
  }

  predicate AllForward(h: Heads, us: seq<Update>) {
    forall u <- us :: ValidHead(u) && Forward(MarkOf(h, u.chain), Some(u.mark))
  }

  /** The updated chains have their new heads, all others the old. */
  ghost predicate Marked(h: Heads, us: seq<Update>, m: Heads) {
    (forall u <- us :: MarkOf(m, u.chain) == Some(u.mark))
    && forall c :: (forall u <- us :: u.chain != c) ==> MarkOf(m, c) == MarkOf(h, c)
  }

  /** Updates of different chains are recorded together exactly when each one could be alone. */
  lemma {:induction false} RecordedExactly(h: Heads, us: seq<Update>)
    requires DistinctChains(us)
    ensures Recorded(h, us).Some? <==> AllForward(h, us)
    ensures Recorded(h, us).Some? ==> Marked(h, us, Recorded(h, us).value)
    decreases |us|
  {
    if us != [] {
      var n := |us| - 1;
      RecordedExactly(h, us[..n]);
      ForwardMore(h, us);
      hide ValidHead, Forward, AllForward, Marked, MarkOf;
      if Recorded(h, us[..n]).Some? { MarkedMore(h, us, Recorded(h, us[..n]).value); }
    }
  }

  lemma ForwardMore(h: Heads, us: seq<Update>)
    requires us != []
    ensures var n := |us| - 1;
            AllForward(h, us) <==> AllForward(h, us[..n]) && ValidHead(us[n]) && Forward(MarkOf(h, us[n].chain), Some(us[n].mark))
  {
    hide ValidHead, Forward, MarkOf;
    var n := |us| - 1;
    assert us == us[..n] + [us[n]];
  }

  lemma MarkedMore(h: Heads, us: seq<Update>, m: Heads)
    requires us != [] && DistinctChains(us) && Marked(h, us[..|us| - 1], m)
    ensures var u := us[|us| - 1]; MarkOf(m, u.chain) == MarkOf(h, u.chain) && Marked(h, us, m[u.chain := u.mark])
  {
    var n := |us| - 1;
    MarkSet(m, us[n]);
    hide MarkOf;
    assert us == us[..n] + [us[n]];
    forall u | u in us[..n] ensures u in us && u.chain != us[n].chain {
      var i :| 0 <= i < n && us[..n][i] == u;
    }
    assert us[n] in us && MarkOf(m, us[n].chain) == MarkOf(h, us[n].chain);
    var m' := m[us[n].chain := us[n].mark];
    forall u | u in us ensures MarkOf(m', u.chain) == Some(u.mark) {
      assert u in us[..n] || u == us[n];
    }
  }

  lemma MarkSet(h: Heads, u: Update)
    ensures MarkOf(h[u.chain := u.mark], u.chain) == Some(u.mark)
    ensures forall c | c != u.chain :: MarkOf(h[u.chain := u.mark], c) == MarkOf(h, c)
  {
  }

  // ---- Series ----

  function Previous(s: seq<Anchor>, i: nat): string
    requires i <= |s|
  {
    if i == 0 then SEED_ANCHOR_HASH else s[i - 1].hash
  }

  function InputOf(chain: string, s: seq<Anchor>, i: nat): string
    requires i < |s|
  {
    AnchorPreimage(Previous(s, i), chain, s[i].first, s[i].last, s[i].tip)
  }

  /** Every checkpoint carries the hash of its range, its tip and the checkpoint before it. */
  predicate ChainedAt(sha: string -> string, chain: string, s: seq<Anchor>, i: nat)
    requires i < |s|
  {
    PipeFree([Previous(s, i), chain, s[i].first, s[i].last, s[i].tip]) && s[i].hash == sha(InputOf(chain, s, i))
  }

  predicate Series(sha: string -> string, chain: string, s: seq<Anchor>) {
    forall i | 0 <= i < |s| :: ChainedAt(sha, chain, s, i)
  }

  /** headProblem finds none: the series is the recorded head's, or grew from it. */
  predicate Holds(s: seq<Anchor>, head: Option<Mark>) {
    match head
    case None => true
    case Some(m) => m.count < 1 || (m.count <= |s| && s[m.count - 1].hash == m.hash)
  }

  ghost predicate Inputs(chain: string, s: seq<Anchor>, inputs: set<string>) {
    forall i | 0 <= i < |s| :: InputOf(chain, s, i) in inputs
  }

  predicate SameAnchor(a: Anchor, b: Anchor) {
    a.first == b.first && a.last == b.last && a.tip == b.tip && a.hash == b.hash
  }

  /** One hash, one past: two series of a chain that share a checkpoint's hash share everything before it. */
  lemma {:induction false} SamePast(sha: string -> string, chain: string, a: seq<Anchor>, b: seq<Anchor>, k: nat, inputs: set<string>)
    requires NoCollision(sha, inputs) && Series(sha, chain, a) && Series(sha, chain, b) && Inputs(chain, a, inputs) && Inputs(chain, b, inputs)
    requires k < |a| && k < |b| && a[k].hash == b[k].hash
    ensures forall i | 0 <= i <= k :: SameAnchor(a[i], b[i])
    decreases k
  {
    hide AnchorPreimage, PipeFree;
    assert ChainedAt(sha, chain, a, k) && ChainedAt(sha, chain, b, k);
    AnchorPreimageInjective((Previous(a, k), chain, a[k].first, a[k].last, a[k].tip), (Previous(b, k), chain, b[k].first, b[k].last, b[k].tip));
    if k > 0 { SamePast(sha, chain, a, b, k - 1, inputs); }
  }

  // ---- Histories ----

  /** What was done last: the run signed a checkpoint or wrote its queued heads, or anything else happened to the folder. */
  datatype Act = Outside | Signed(chain: string) | Recording

  /** The folder and the heads at one time. */
  datatype Moment = Moment(act: Act, folder: Folder, heads: Heads)

  /** One checkpoint more, onto a verified series that holds the recorded head. */
  predicate SignStep(sha: string -> string, c: string, f: Folder, h: Heads, f': Folder) {
    var s, s' := SeriesOf(f, c), SeriesOf(f', c);
    && |s'| == |s| + 1 && s'[..|s|] == s && f' == f[c := s'] && Holds(s, MarkOf(h, c)) && Series(sha, c, s')
  }

  /** A new head is that of a series which was verified and held the head that is still the recorded one. */
  predicate StandsBehind(sha: string -> string, at: Moment, now: Moment, c: string, head: Option<Mark>) {
    var s := SeriesOf(at.folder, c);
    && s != [] && head == Some(Mark(|s|, s[|s| - 1].hash)) && Series(sha, c, s) && Holds(s, MarkOf(at.heads, c))
    && MarkOf(at.heads, c) == MarkOf(now.heads, c)
  }

  /** One write of the heads file. What it records may have left the folder since it was verified. */
  ghost predicate RecordStep(sha: string -> string, ms: seq<Moment>, j: nat)
    requires j + 1 < |ms|
  {
    forall c :: RecordedFor(sha, ms, j, c)
  }

  ghost predicate RecordedFor(sha: string -> string, ms: seq<Moment>, j: nat, c: string)
    requires j + 1 < |ms|
  {
    var head, head' := MarkOf(ms[j].heads, c), MarkOf(ms[j + 1].heads, c);
    head' == head || (Forward(head, head') && exists i | 0 <= i <= j :: StandsBehind(sha, ms[i], ms[j], c, head'))
  }

  ghost predicate StepOK(sha: string -> string, ms: seq<Moment>, j: nat)
    requires j + 1 < |ms|
  {
    match ms[j + 1].act
    case Outside => ms[j + 1].heads == ms[j].heads
    case Signed(c) => ms[j + 1].heads == ms[j].heads && SignStep(sha, c, ms[j].folder, ms[j].heads, ms[j + 1].folder)
    case Recording => ms[j + 1].folder == ms[j].folder && RecordStep(sha, ms, j)
  }

  /**
   * Runs of Checkpoint, whole or cut short by a crash, one checkpoint and one
   * write of the heads at a time, and between any two of these steps anyone
   * doing anything to the folder: cutting a series, restarting it, writing
   * another.
   */
  ghost predicate History(sha: string -> string, ms: seq<Moment>) {
    ms != [] && ms[0].heads == map[] && forall j | 0 <= j < |ms| - 1 :: StepOK(sha, ms, j)
  }

  lemma ForwardOn(a: Option<Mark>, b: Option<Mark>, c: Option<Mark>)
    requires Forward(a, b) && Forward(b, c)
    ensures Forward(a, c)
  {
  }

  /** Recorded heads never go back. */
  lemma {:induction false} HeadsForward(sha: string -> string, ms: seq<Moment>, i: nat, j: nat, c: string)
    requires History(sha, ms) && i <= j < |ms|
    ensures Forward(MarkOf(ms[i].heads, c), MarkOf(ms[j].heads, c))
    ensures c in ms[i].heads ==> c in ms[j].heads && (ms[j].heads[c] == ms[i].heads[c] || ms[j].heads[c].count > ms[i].heads[c].count)
    decreases j - i
  {
    hide StepOK;
    if i < j {
      HeadsForward(sha, ms, i, j - 1, c);
      StepForward(sha, ms, j - 1, c);
      ForwardOn(MarkOf(ms[i].heads, c), MarkOf(ms[j - 1].heads, c), MarkOf(ms[j].heads, c));
    }
  }

  lemma StepForward(sha: string -> string, ms: seq<Moment>, j: nat, c: string)
    requires History(sha, ms) && j + 1 < |ms|
    ensures Forward(MarkOf(ms[j].heads, c), MarkOf(ms[j + 1].heads, c))
    ensures MarkOf(ms[j + 1].heads, c) == MarkOf(ms[j].heads, c)
            || exists i | 0 <= i <= j :: StandsBehind(sha, ms[i], ms[j], c, MarkOf(ms[j + 1].heads, c))
  {
    hide StandsBehind, SignStep;
    assert StepOK(sha, ms, j);
    if ms[j + 1].act == Recording { assert RecordedFor(sha, ms, j, c); }
  }

  /** The series that a recorded head stands for: it holds every head recorded up to then. */
  ghost predicate Witness(sha: string -> string, ms: seq<Moment>, j: nat, c: string, s: seq<Anchor>, inputs: set<string>)
    requires j < |ms|
  {
    Series(sha, c, s) && Inputs(c, s, inputs) && (forall i | 0 <= i <= j :: Holds(s, MarkOf(ms[i].heads, c)))
    && match MarkOf(ms[j].heads, c)
       case None => true
       case Some(m) => m.count == |s| && s != [] && s[|s| - 1].hash == m.hash
  }

  /** What is hashed of any series the history knows. */
  ghost predicate AllInputs(ms: seq<Moment>, c: string, inputs: set<string>) {
    forall m <- ms :: Inputs(c, SeriesOf(m.folder, c), inputs)
  }

  lemma {:induction false} WitnessExists(sha: string -> string, ms: seq<Moment>, j: nat, c: string, inputs: set<string>) returns (s: seq<Anchor>)
    requires History(sha, ms) && j < |ms| && NoCollision(sha, inputs) && AllInputs(ms, c, inputs)
    ensures Witness(sha, ms, j, c, s, inputs)
  {
    hide StepOK, Series, Inputs, NoCollision, Forward, StandsBehind;
    if j == 0 {
      NoSeries(sha, c, inputs);
      s := [];
    } else {
      s := WitnessExists(sha, ms, j - 1, c, inputs);
      StepForward(sha, ms, j - 1, c);
      if MarkOf(ms[j].heads, c) != MarkOf(ms[j - 1].heads, c) {
        var i :| 0 <= i <= j - 1 && StandsBehind(sha, ms[i], ms[j - 1], c, MarkOf(ms[j].heads, c));
        assert ms[i] in ms;
        NewWitness(sha, ms, i, j - 1, c, s, inputs);
        s := SeriesOf(ms[i].folder, c);
      }
    }
  }

  lemma NoSeries(sha: string -> string, c: string, inputs: set<string>)
    ensures Series(sha, c, []) && Inputs(c, [], inputs)
  {
  }

  /** A verified series that holds the last head holds every head before it. */
  lemma HoldsAll(sha: string -> string, ms: seq<Moment>, j: nat, c: string, w: seq<Anchor>, s: seq<Anchor>, inputs: set<string>)
    requires History(sha, ms) && j < |ms| && NoCollision(sha, inputs) && Witness(sha, ms, j, c, w, inputs)
    requires Series(sha, c, s) && Inputs(c, s, inputs) && Holds(s, MarkOf(ms[j].heads, c))
    ensures forall i | 0 <= i <= j :: Holds(s, MarkOf(ms[i].heads, c))
  {
    var head := MarkOf(ms[j].heads, c);
    if head.Some? { SamePast(sha, c, w, s, |w| - 1, inputs); }
    hide Series, Inputs, NoCollision, History, Forward;
    forall i | 0 <= i <= j ensures Holds(s, MarkOf(ms[i].heads, c)) {
      HeadsForward(sha, ms, i, j, c);
      if head.Some? { KeptIn(w, s, MarkOf(ms[i].heads, c)); } else { NoneBefore(MarkOf(ms[i].heads, c), head); }
    }
  }

  lemma NewWitness(sha: string -> string, ms: seq<Moment>, k: nat, j: nat, c: string, w: seq<Anchor>, inputs: set<string>)
    requires History(sha, ms) && k <= j && j + 1 < |ms| && NoCollision(sha, inputs) && Witness(sha, ms, j, c, w, inputs)
    requires StandsBehind(sha, ms[k], ms[j], c, MarkOf(ms[j + 1].heads, c)) && Inputs(c, SeriesOf(ms[k].folder, c), inputs)
    ensures Witness(sha, ms, j + 1, c, SeriesOf(ms[k].folder, c), inputs)
  {
    hide Series, Inputs, NoCollision, History;
    HoldsAll(sha, ms, j, c, w, SeriesOf(ms[k].folder, c), inputs);
  }

  lemma KeptIn(w: seq<Anchor>, s: seq<Anchor>, head: Option<Mark>)
    requires Holds(w, head) && forall i | 0 <= i < |w| :: i < |s| && SameAnchor(w[i], s[i])
    ensures Holds(s, head)
  {
  }

  /**
   * Whatever was done to the folder, and whenever: a checkpoint is signed onto
   * a series that holds every head ever recorded for the chain.
   */
  lemma SignedKeepsAll(sha: string -> string, ms: seq<Moment>, j: nat, c: string, inputs: set<string>)
    requires History(sha, ms) && j + 1 < |ms| && NoCollision(sha, inputs) && AllInputs(ms, c, inputs)
    requires ms[j + 1].act == Signed(c)
    ensures forall i | 0 <= i <= j + 1 :: Holds(SeriesOf(ms[j].folder, c), MarkOf(ms[i].heads, c))
  {
    var s, s' := SeriesOf(ms[j].folder, c), SeriesOf(ms[j + 1].folder, c);
    assert StepOK(sha, ms, j) && ms[j + 1] in ms;
    SeriesInit(sha, c, s', |s|, inputs);
    hide Series, Inputs, NoCollision, History;
    var w := WitnessExists(sha, ms, j, c, inputs);
    HoldsAll(sha, ms, j, c, w, s, inputs);
  }

  lemma SeriesInit(sha: string -> string, c: string, s: seq<Anchor>, n: nat, inputs: set<string>)
    requires Series(sha, c, s) && Inputs(c, s, inputs) && n <= |s|
    ensures Series(sha, c, s[..n]) && Inputs(c, s[..n], inputs)
  {
    hide AnchorPreimage, PipeFree;
    forall i | 0 <= i < n ensures ChainedAt(sha, c, s[..n], i) && InputOf(c, s[..n], i) in inputs {
      assert Previous(s[..n], i) == Previous(s, i) && s[..n][i] == s[i] && ChainedAt(sha, c, s, i);
    }
  }

  /**
   * And so onto the past itself: of a series that a run verified and recorded
   * the head of, every checkpoint is the one that stands at its place.
   */
  lemma SignedKeepsPast(sha: string -> string, ms: seq<Moment>, i: nat, j: nat, c: string, inputs: set<string>) returns (k: nat)
    requires History(sha, ms) && i < j && j + 1 < |ms| && NoCollision(sha, inputs) && AllInputs(ms, c, inputs)
    requires ms[j + 1].act == Signed(c) && MarkOf(ms[i + 1].heads, c) != MarkOf(ms[i].heads, c)
    ensures k <= i && StandsBehind(sha, ms[k], ms[i], c, MarkOf(ms[i + 1].heads, c))
    ensures var early, now := SeriesOf(ms[k].folder, c), SeriesOf(ms[j].folder, c);
            0 < |early| <= |now| && forall n | 0 <= n < |early| :: SameAnchor(early[n], now[n])
  {
    StepForward(sha, ms, i, c);
    SignedKeepsAll(sha, ms, j, c, inputs);
    var n :| 0 <= n <= i && StandsBehind(sha, ms[n], ms[i], c, MarkOf(ms[i + 1].heads, c));
    k := n;
    assert StepOK(sha, ms, j) && ms[j + 1] in ms && ms[k] in ms;
    var early, now := SeriesOf(ms[k].folder, c), SeriesOf(ms[j].folder, c);
    SeriesInit(sha, c, SeriesOf(ms[j + 1].folder, c), |now|, inputs);
    hide Series, Inputs, NoCollision, History, StepOK;
    assert Holds(now, MarkOf(ms[i + 1].heads, c));
    SamePast(sha, c, early, now, |early| - 1, inputs);
  }

  lemma NoneBefore(was: Option<Mark>, now: Option<Mark>)
    requires Forward(was, now) && now == None
    ensures was == None
  {
  }

  // ---- One step more ----

  /** What a history has shown, it goes on showing. */
  lemma HistoryOn(sha: string -> string, ms: seq<Moment>, m: Moment)
    requires History(sha, ms) && StepOK(sha, ms + [m], |ms| - 1)
    ensures History(sha, ms + [m])
  {
    hide StandsBehind, SignStep, Forward;
    var next := ms + [m];
    forall j | 0 <= j < |next| - 1 ensures StepOK(sha, next, j) {
      if j < |ms| - 1 {
        assert StepOK(sha, ms, j) && next[j] == ms[j] && next[j + 1] == ms[j + 1];
        if ms[j + 1].act == Recording { StillRecorded(sha, ms, m, j); }
      }
    }
  }

  lemma StillRecorded(sha: string -> string, ms: seq<Moment>, m: Moment, j: nat)
    requires j + 1 < |ms| && RecordStep(sha, ms, j)
    ensures RecordStep(sha, ms + [m], j)
  {
    hide StandsBehind, Forward;
    var next := ms + [m];
    forall c ensures RecordedFor(sha, next, j, c) {
      assert RecordedFor(sha, ms, j, c);
      if MarkOf(ms[j + 1].heads, c) != MarkOf(ms[j].heads, c) {
        var i :| 0 <= i <= j && StandsBehind(sha, ms[i], ms[j], c, MarkOf(ms[j + 1].heads, c));
        assert next[i] == ms[i] && StandsBehind(sha, next[i], next[j], c, MarkOf(next[j + 1].heads, c));
      }
    }
  }
}
