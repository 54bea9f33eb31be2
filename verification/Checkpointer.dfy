/** Checkpointing chains with their heads tracked, one run at a time. */
module Checkpoints {
  import opened Basics
  import opened Preimages
  import opened Bundles
  import opened HeadMemory

  /** What becomes of a write of the heads file: it may land and still report an error. */
  datatype Write = Lands | Fails | LandsUnreported

  /** The heads file. */
  class HeadsFile {
    var heads: Heads

    constructor ()
      ensures heads == map[]
    {
      heads := map[];
    }

    /** setHeads: all of them in one write, or none. */
    method SetHeads(us: seq<Update>, fate: Write) returns (ok: bool)
      modifies this
      ensures ok <==> Recorded(old(heads), us).Some? && (us == [] || fate == Lands)
      ensures heads == if Recorded(old(heads), us).Some? && us != [] && fate != Fails then Recorded(old(heads), us).value else old(heads)
    {
      hide ValidHead, Recorded, ChainIdOK, HashShape;
      RecordedNone(heads);
      if us == [] { return true; }
      var next := heads;
      for i := 0 to |us|
        invariant heads == old(heads) && Recorded(heads, us[..i]) == Some(next)
      {
        var u := us[i];
        RecordedStep(heads, us, i);
        ValidIs(u);
        if !ChainIdOK(u.chain) || u.mark.count < 1 || !HashShape(u.mark.hash) { return false; }
        if u.chain in next {
          var known := next[u.chain];
          if known.count > u.mark.count || (known.count == u.mark.count && known.hash != u.mark.hash) { return false; }
        }
        next := next[u.chain := u.mark];
      }
      assert us[..|us|] == us;
      if fate != Fails { heads := next; }
      ok := fate == Lands;
    }
  }

  lemma ValidIs(u: Update)
    ensures ValidHead(u) <==> ChainIdOK(u.chain) && u.mark.count >= 1 && HashShape(u.mark.hash)
  {
  }

  lemma RecordedNone(h: Heads)
    ensures Recorded(h, []) == Some(h)
  {
  }

  lemma {:induction false} RecordedStep(h: Heads, us: seq<Update>, i: nat)
    requires i < |us| && Recorded(h, us[..i]).Some?
    ensures var m, u := Recorded(h, us[..i]).value, us[i];
            Recorded(h, us[..i + 1]) == if ValidHead(u) && Forward(MarkOf(m, u.chain), Some(u.mark)) then Some(m[u.chain := u.mark]) else None
    ensures Recorded(h, us[..i + 1]) == None ==> Recorded(h, us) == None
  {
    hide ValidHead, Forward;
    assert us[..i + 1][..i] == us[..i];
    if Recorded(h, us[..i + 1]) == None { RecordedStops(h, us, i + 1, |us|); }
  }

  lemma {:induction false} RecordedStops(h: Heads, us: seq<Update>, n: nat, m: nat)
    requires n <= m <= |us| && Recorded(h, us[..n]) == None
    ensures Recorded(h, us[..m]) == None && us[..|us|] == us
  {
    hide ValidHead, Forward;
    if n < m {
      RecordedStops(h, us, n, m - 1);
      assert us[..m][..m - 1] == us[..m - 1];
    }
  }

  /** How signing and writing one checkpoint end: Dies is a crash after the file is durable. */
  datatype Fate = Written | SignFails | WriteFails | Dies

  /**
   * What the run sees of one chain: whether its checkpoints are readable, the
   * number of entries its tail gives, whether everything else Verify checks
   * passes, and what walking its entries gives.
   */
  datatype Look = Look(readable: bool, tail: Option<nat>, clean: bool, total: nat, first: string, last: string, tip: string, fate: Fate, flush: Write)

  datatype Ending = Done | Error | Crash

  // ---- What a run has done so far ----

  function Last(ms: seq<Moment>): Moment
    requires ms != []
  {
    ms[|ms| - 1]
  }

  function OwnMark(f: Folder, c: string): Mark {
    var s := SeriesOf(f, c);
    Mark(|s|, if s == [] then "" else s[|s| - 1].hash)
  }

  /** A head waiting to be written: that of a series the history has shown to be verified, past the one recorded. */
  ghost predicate Waits(sha: string -> string, ms: seq<Moment>, u: Update)
    requires ms != []
  {
    && (exists i | 0 <= i < |ms| :: StandsBehind(sha, ms[i], Last(ms), u.chain, Some(u.mark)))
    && (MarkOf(Last(ms).heads, u.chain).Some? ==> MarkOf(Last(ms).heads, u.chain).value.count < u.mark.count) && ChainIdOK(u.chain)
  }

  /** A run that began at moment from: only the chains it visited were signed or recorded, and what is queued is waiting. */
  ghost predicate SoFar(sha: string -> string, from: nat, ms: seq<Moment>, pending: seq<Update>, visited: set<string>) {
    && from < |ms| && History(sha, ms) && HeadMemory.DistinctChains(pending)
    && (forall c :: c !in visited ==> MarkOf(Last(ms).heads, c) == MarkOf(ms[from].heads, c))
    && (forall k | from < k < |ms| && ms[k].act.Signed? :: ms[k].act.chain in visited) && OncePerChain(from, ms)
    && forall u <- pending :: u.chain in visited && Waits(sha, ms, u)
  }

  predicate OncePerChain(from: nat, ms: seq<Moment>) {
    forall j, k | from < j < k < |ms| && ms[j].act.Signed? && ms[k].act.Signed? :: ms[j].act.chain != ms[k].act.chain
  }

  lemma NothingDone(sha: string -> string, ms: seq<Moment>)
    requires ms != [] && History(sha, ms)
    ensures SoFar(sha, |ms| - 1, ms, [], {}) && Tracked(|ms| - 1, ms, [])
  {
    hide History;
  }

  /** Another chain looked at, and nothing done. */
  lemma Looked(sha: string -> string, from: nat, ms: seq<Moment>, pending: seq<Update>, visited: set<string>, chain: string)
    requires SoFar(sha, from, ms, pending, visited)
    ensures SoFar(sha, from, ms, pending, visited + {chain})
  {
    hide History, Waits, HeadMemory.DistinctChains;
  }

  predicate NotQueued(pending: seq<Update>, chain: string) {
    forall u <- pending :: u.chain != chain
  }

  lemma NotYetQueued(sha: string -> string, from: nat, ms: seq<Moment>, pending: seq<Update>, visited: set<string>, chain: string)
    requires SoFar(sha, from, ms, pending, visited) && chain !in visited
    ensures NotQueued(pending, chain)
  {
    hide History, Waits;
  }

  /** A head put in the queue. */
  lemma Queued(sha: string -> string, from: nat, ms: seq<Moment>, pending: seq<Update>, visited: set<string>, u: Update)
    requires SoFar(sha, from, ms, pending, visited) && u.chain in visited && NotQueued(pending, u.chain) && Waits(sha, ms, u)
    ensures SoFar(sha, from, ms, pending + [u], visited)
  {
    hide History, Waits;
    forall x | x in pending + [u] ensures x.chain in visited && Waits(sha, ms, x) {
      assert x in pending || x == u;
    }
  }

  /** What waits goes on waiting while the heads stay as they are. */
  lemma WaitsOn(sha: string -> string, ms: seq<Moment>, m: Moment, u: Update)
    requires ms != [] && Waits(sha, ms, u) && m.heads == Last(ms).heads
    ensures Waits(sha, ms + [m], u)
  {
    var i :| 0 <= i < |ms| && StandsBehind(sha, ms[i], Last(ms), u.chain, Some(u.mark));
    assert (ms + [m])[i] == ms[i] && Last(ms + [m]) == m;
    assert StandsBehind(sha, ms[i], m, u.chain, Some(u.mark)) by { hide Series; }
    hide StandsBehind;
  }

  lemma SoFarOn(sha: string -> string, from: nat, ms: seq<Moment>, m: Moment, pending: seq<Update>, visited: set<string>)
    requires SoFar(sha, from, ms, pending, visited) && m.heads == Last(ms).heads && History(sha, ms + [m])
    requires m.act.Signed? ==> m.act.chain in visited && forall k | from < k < |ms| && ms[k].act.Signed? :: ms[k].act.chain != m.act.chain
    ensures SoFar(sha, from, ms + [m], pending, visited)
  {
    hide History, Waits, HeadMemory.DistinctChains;
    forall u | u in pending ensures Waits(sha, ms + [m], u) { WaitsOn(sha, ms, m, u); }
  }

  /** Anything done to the folder by anyone else. */
  lemma ElsewhereOn(sha: string -> string, from: nat, ms: seq<Moment>, f: Folder, pending: seq<Update>, visited: set<string>)
    requires SoFar(sha, from, ms, pending, visited)
    ensures SoFar(sha, from, ms + [Moment(Outside, f, Last(ms).heads)], pending, visited)
    ensures Tracked(from, ms, pending) ==> Tracked(from, ms + [Moment(Outside, f, Last(ms).heads)], pending)
  {
    hide History, Waits, HeadMemory.DistinctChains;
    var m := Moment(Outside, f, Last(ms).heads);
    HistoryOn(sha, ms, m);
    SoFarOn(sha, from, ms, m, pending, visited);
    hide SoFar, Tracked;
    if Tracked(from, ms, pending) { TrackedOn(from, ms, m, pending); }
  }

  /** A checkpoint written, its head not yet queued. */
  lemma WroteOne(sha: string -> string, from: nat, ms: seq<Moment>, pending: seq<Update>, visited: set<string>, chain: string, x: Anchor)
    requires SoFar(sha, from, ms, pending, visited) && chain !in visited && ChainIdOK(chain)
    requires var s := SeriesOf(Last(ms).folder, chain); Holds(s, MarkOf(Last(ms).heads, chain)) && Series(sha, chain, s + [x])
    ensures var s := SeriesOf(Last(ms).folder, chain);
            var m := Moment(Signed(chain), Last(ms).folder[chain := s + [x]], Last(ms).heads);
            && SoFar(sha, from, ms + [m], pending, visited + {chain})
            && Waits(sha, ms + [m], Update(chain, Mark(|s| + 1, x.hash)))
            && (Tracked(from, ms, pending) ==> Tracked(from, ms + [m], pending + [Update(chain, Mark(|s| + 1, x.hash))]))
  {
    hide Series, ChainIdOK, History;
    var f, h := Last(ms).folder, Last(ms).heads;
    var s := SeriesOf(f, chain);
    var m := Moment(Signed(chain), f[chain := s + [x]], h);
    var u := Update(chain, Mark(|s| + 1, x.hash));
    assert (s + [x])[..|s|] == s && SeriesOf(m.folder, chain) == s + [x] && (ms + [m])[|ms|] == m;
    HistoryOn(sha, ms, m);
    Looked(sha, from, ms, pending, visited, chain);
    SoFarOn(sha, from, ms, m, pending, visited + {chain});
    LongerHolds(s, x, MarkOf(h, chain));
    assert StandsBehind(sha, m, m, chain, Some(u.mark));
    hide Holds, StandsBehind;
    NotYetQueued(sha, from, ms, pending, visited, chain);
    if Tracked(from, ms, pending) { SignedTracked(from, ms, m, pending, u); }
  }

  lemma LongerHolds(s: seq<Anchor>, x: Anchor, head: Option<Mark>)
    requires Holds(s, head)
    ensures Holds(s + [x], head) && (head.Some? ==> head.value.count < |s| + 1)
  {
  }

  lemma WaitsForward(sha: string -> string, ms: seq<Moment>, u: Update)
    requires ms != [] && Waits(sha, ms, u)
    ensures Forward(MarkOf(Last(ms).heads, u.chain), Some(u.mark)) && (ValidHead(u) <==> HashShape(u.mark.hash))
  {
    hide Series, HashShape, ChainIdOK;
  }

  /** Every waiting head can be recorded, unless its hash is none, and the write is a step of the history. */
  lemma Flushed(sha: string -> string, from: nat, ms: seq<Moment>, pending: seq<Update>, visited: set<string>)
    requires SoFar(sha, from, ms, pending, visited)
    ensures SoFar(sha, from, ms, [], visited)
    ensures Recorded(Last(ms).heads, pending).Some? <==> forall u <- pending :: HashShape(u.mark.hash)
    ensures Recorded(Last(ms).heads, pending).Some? ==>
              var m := Moment(Recording, Last(ms).folder, Recorded(Last(ms).heads, pending).value);
              SoFar(sha, from, ms + [m], [], visited) && (Tracked(from, ms, pending) ==> Tracked(from, ms + [m], []))
  {
    hide History, HashShape, Waits, ValidHead, Forward, Recorded, HeadMemory.DistinctChains, Marked, Tracked;
    var h := Last(ms).heads;
    RecordedExactly(h, pending);
    forall u | u in pending ensures Forward(MarkOf(h, u.chain), Some(u.mark)) && (ValidHead(u) <==> HashShape(u.mark.hash)) {
      WaitsForward(sha, ms, u);
    }
    NoneQueued();
    if Recorded(h, pending).Some? {
      var m := Moment(Recording, Last(ms).folder, Recorded(h, pending).value);
      WrittenOK(sha, ms, m, pending);
      HistoryOn(sha, ms, m);
      OthersMarked(h, pending, m.heads, visited);
      if Tracked(from, ms, pending) { WrittenTracked(from, ms, m, pending); }
    }
  }

  lemma PendingMarked(sha: string -> string, from: nat, ms: seq<Moment>, pending: seq<Update>, visited: set<string>)
    requires SoFar(sha, from, ms, pending, visited)
    ensures Recorded(Last(ms).heads, pending).Some? ==> forall u <- pending :: MarkOf(Recorded(Last(ms).heads, pending).value, u.chain) == Some(u.mark)
  {
    hide History, Waits, Recorded, HeadMemory.DistinctChains, MarkOf;
    RecordedExactly(Last(ms).heads, pending);
  }

  lemma OthersMarked(h: Heads, us: seq<Update>, m: Heads, visited: set<string>)
    requires Marked(h, us, m) && forall u <- us :: u.chain in visited
    ensures forall c :: c !in visited ==> MarkOf(m, c) == MarkOf(h, c)
  {
    hide MarkOf;
  }

  /** The write of the queue as a step: every new head has a verified series behind it. */
  lemma WrittenOK(sha: string -> string, ms: seq<Moment>, m: Moment, pending: seq<Update>)
    requires ms != [] && m.act == Recording && m.folder == Last(ms).folder && Marked(Last(ms).heads, pending, m.heads)
    requires forall u <- pending :: Waits(sha, ms, u)
    ensures StepOK(sha, ms + [m], |ms| - 1)
  {
    hide StandsBehind, Forward, MarkOf, Waits;
    var next, j := ms + [m], |ms| - 1;
    forall c ensures RecordedFor(sha, next, j, c) {
      if u :| u in pending && u.chain == c {
        WaitsShown(sha, ms, u);
        var i :| 0 <= i < |ms| && StandsBehind(sha, ms[i], Last(ms), c, Some(u.mark));
        assert next[i] == ms[i];
      }
    }
  }

  lemma WaitsShown(sha: string -> string, ms: seq<Moment>, u: Update)
    requires ms != [] && Waits(sha, ms, u)
    ensures Forward(MarkOf(Last(ms).heads, u.chain), Some(u.mark))
    ensures exists i | 0 <= i < |ms| :: StandsBehind(sha, ms[i], Last(ms), u.chain, Some(u.mark))
  {
    hide StandsBehind, ChainIdOK;
  }

  lemma NoneQueued()
    ensures HeadMemory.DistinctChains([])
  {
  }

  // ---- Heads of what was signed ----

  /** Every chain that got a checkpoint has the head of its series then recorded or queued. */
  ghost predicate Tracked(from: nat, ms: seq<Moment>, pending: seq<Update>)
    requires ms != []
  {
    forall k | from < k < |ms| && ms[k].act.Signed? :: TrackedAt(ms[k], Last(ms).heads, pending)
  }

  predicate TrackedAt(m: Moment, h: Heads, pending: seq<Update>)
    requires m.act.Signed?
  {
    var c := m.act.chain;
    if NotQueued(pending, c) then MarkOf(h, c) == Some(OwnMark(m.folder, c)) else Update(c, OwnMark(m.folder, c)) in pending
  }

  lemma TrackedOther(m: Moment, h: Heads, pending: seq<Update>, u: Update)
    requires m.act.Signed? && m.act.chain != u.chain && TrackedAt(m, h, pending)
    ensures TrackedAt(m, h, pending + [u])
  {
    hide OwnMark, MarkOf;
  }

  /** A head queued of a chain that had not been signed before. */
  lemma QueuedTracked(sha: string -> string, from: nat, ms: seq<Moment>, pending: seq<Update>, visited: set<string>, u: Update)
    requires SoFar(sha, from, ms, pending, visited) && u.chain !in visited && Tracked(from, ms, pending)
    ensures Tracked(from, ms, pending + [u])
  {
    hide History, Waits, TrackedAt, HeadMemory.DistinctChains;
    forall k | from < k < |ms| && ms[k].act.Signed? ensures TrackedAt(ms[k], Last(ms).heads, pending + [u]) {
      TrackedOther(ms[k], Last(ms).heads, pending, u);
    }
  }

  lemma SignedTracked(from: nat, ms: seq<Moment>, m: Moment, pending: seq<Update>, u: Update)
    requires ms != [] && from < |ms| && Tracked(from, ms, pending) && m.act == Signed(u.chain) && m.heads == Last(ms).heads
    requires u.mark == OwnMark(m.folder, u.chain)
    requires forall k | from < k < |ms| && ms[k].act.Signed? :: ms[k].act.chain != u.chain
    ensures Tracked(from, ms + [m], pending + [u])
  {
    hide OwnMark, MarkOf, TrackedAt;
    var next := ms + [m];
    forall k | from < k < |next| && next[k].act.Signed? ensures TrackedAt(next[k], m.heads, pending + [u]) {
      if k < |ms| {
        assert next[k] == ms[k];
        TrackedOther(ms[k], m.heads, pending, u);
      } else {
        NowTracked(m, pending, u);
      }
    }
  }

  lemma NowTracked(m: Moment, pending: seq<Update>, u: Update)
    requires m.act == Signed(u.chain) && u.mark == OwnMark(m.folder, u.chain)
    ensures TrackedAt(m, m.heads, pending + [u])
  {
    hide OwnMark, MarkOf;
    assert u in pending + [u];
  }

  lemma WrittenTracked(from: nat, ms: seq<Moment>, m: Moment, pending: seq<Update>)
    requires ms != [] && Tracked(from, ms, pending) && m.act == Recording && Marked(Last(ms).heads, pending, m.heads)
    ensures Tracked(from, ms + [m], [])
  {
    hide OwnMark, MarkOf;
    var next := ms + [m];
    forall k | from < k < |next| && next[k].act.Signed? ensures TrackedAt(next[k], m.heads, []) {
      assert next[k] == ms[k] && TrackedAt(ms[k], Last(ms).heads, pending);
    }
  }

  /** A moment in which nothing was signed and no head changed. */
  lemma TrackedOn(from: nat, ms: seq<Moment>, m: Moment, pending: seq<Update>)
    requires ms != [] && Tracked(from, ms, pending) && !m.act.Signed? && m.heads == Last(ms).heads
    ensures Tracked(from, ms + [m], pending)
  {
    hide TrackedAt;
    var next := ms + [m];
    forall k | from < k < |next| && next[k].act.Signed? ensures TrackedAt(next[k], m.heads, pending) {
      assert next[k] == ms[k];
    }
  }

  // ---- A run ----

  class Checkpointer {
    const sha: string -> string
    const file: HeadsFile
    const batch: nat
    /** The checkpoint files of every chain. */
    var folder: Folder
    var pending: seq<Update>
    /** Everything that happened to the folder and the heads so far. */
    ghost var trace: seq<Moment>

    /** The trace is a history, and it ends here. */
    ghost predicate Valid()
      reads this, file
    {
      trace != [] && History(sha, trace) && Last(trace).folder == folder && Last(trace).heads == file.heads
    }

    /** In the middle of a run. */
    ghost predicate Running(from: nat, visited: set<string>)
      reads this, file
    {
      trace != [] && Last(trace).folder == folder && Last(trace).heads == file.heads && SoFar(sha, from, trace, pending, visited)
    }

    constructor (sha: string -> string, file: HeadsFile, batch: nat, folder: Folder, ghost past: seq<Moment>)
      requires past != [] && History(sha, past) && Last(past).folder == folder && Last(past).heads == file.heads
      ensures Valid() && trace == past && pending == []
      ensures this.sha == sha && this.file == file && this.batch == batch && this.folder == folder
    {
      this.sha, this.file, this.batch, this.folder, pending, trace := sha, file, batch, folder, [], past;
    }

    /** The files are not held for the whole run: anyone may change the folder meanwhile. */
    method Elsewhere(ghost from: nat, ghost visited: set<string>)
      requires Running(from, visited)
      modifies this`folder, this`trace
      ensures Running(from, visited) && trace == old(trace) + [Moment(Outside, folder, file.heads)]
      ensures Tracked(from, old(trace), pending) ==> Tracked(from, trace, pending)
    {
      hide SoFar, Tracked;
      var f: Folder := *;
      ElsewhereOn(sha, from, trace, f, pending, visited);
      folder := f;
      trace := trace + [Moment(Outside, f, file.heads)];
    }

    /** flush: the queue is written at once, and gone whether or not that succeeds. */
    method Flush(fate: Write, ghost from: nat, ghost visited: set<string>) returns (ok: bool)
      requires Running(from, visited)
      modifies this`pending, this`trace, file
      ensures Running(from, visited) && pending == []
      ensures trace == old(trace) || trace == old(trace) + [Moment(Recording, folder, file.heads)]
      ensures ok && Tracked(from, old(trace), old(pending)) ==> Tracked(from, trace, [])
      ensures fate == Lands ==> (ok <==> forall u <- old(pending) :: HashShape(u.mark.hash))
      ensures ok ==> forall u <- old(pending) :: MarkOf(file.heads, u.chain) == Some(u.mark)
    {
      hide SoFar, Recorded, HashShape, Tracked, MarkOf;
      Flushed(sha, from, trace, pending, visited);
      PendingMarked(sha, from, trace, pending, visited);
      RecordedNone(file.heads);
      var us := pending;
      pending := [];
      if us == [] { return true; }
      ok := file.SetHeads(us, fate);
      if Recorded(Last(trace).heads, us).Some? && fate != Fails {
        trace := trace + [Moment(Recording, folder, file.heads)];
      }
    }

    /** add: a head queued, and the queue written when it is full. */
    method Add(u: Update, fate: Write, ghost from: nat, ghost visited: set<string>) returns (ok: bool)
      requires Running(from, visited) && u.chain in visited && NotQueued(pending, u.chain) && Waits(sha, trace, u)
      modifies this`pending, this`folder, this`trace, file
      ensures Running(from, visited) && NothingSigned(old(trace), trace) && old(trace) <= trace
      ensures ok && Tracked(from, old(trace), old(pending) + [u]) ==> Tracked(from, trace, pending)
      ensures ok ==> u in pending || MarkOf(file.heads, u.chain) == Some(u.mark)
    {
      hide SoFar, Waits, Tracked, MarkOf;
      Queued(sha, from, trace, pending, visited, u);
      pending := pending + [u];
      Elsewhere(from, visited);
      ok := true;
      if |pending| >= batch { ok := Flush(fate, from, visited); }
    }

    /** One chain: its recorded head before anything else, then everything Verify checks, then one checkpoint more, then its head. */
    method Visit(chain: string, look: Look, ghost from: nat, ghost visited: set<string>) returns (end: Ending)
      requires Running(from, visited) && chain !in visited
      modifies this, file
      ensures Running(from, visited + {chain}) && old(trace) <= trace
      ensures end == Done && Tracked(from, old(trace), old(pending)) ==> Tracked(from, trace, pending)
      ensures !Holds(SeriesOf(old(folder), chain), MarkOf(old(file.heads), chain)) ==> trace == old(trace)
      ensures MustSign(sha, chain, SeriesOf(old(folder), chain), MarkOf(old(file.heads), chain), look) <==> !NothingSigned(old(trace), trace)
      ensures !NothingSigned(old(trace), trace) ==>
                |trace| > |old(trace)| && trace[|old(trace)|].act == Signed(chain) && AddsSeen(SeriesOf(old(folder), chain), SeriesOf(trace[|old(trace)|].folder, chain), look)
      ensures end == Done && OnlyRecords(sha, chain, SeriesOf(old(folder), chain), MarkOf(old(file.heads), chain), look) ==>
                Update(chain, OwnMark(old(folder), chain)) in pending || MarkOf(file.heads, chain) == Some(OwnMark(old(folder), chain))
      ensures NothingSigned(old(trace), trace)
              || (look.clean && look.readable
                  && OneSigned(old(trace), trace, Moment(Signed(chain), old(folder)[chain := SeriesOf(old(folder), chain) + [NewAnchor(sha, chain, SeriesOf(old(folder), chain), look)]], old(file.heads))))
    {
      hide SoFar, Waits, Series, ChainIdOK, PipeFree, NewAnchor, NotQueued, Tracked, NothingSigned, OneSigned, Holds, AddsSeen;
      ghost var before := trace;
      NothingYet(before);
      NotYetQueued(sha, from, trace, pending, visited, chain);
      Looked(sha, from, trace, pending, visited, chain);
      if !ChainIdOK(chain) || !look.readable { return Done; }
      var anchors, head := SeriesOf(folder, chain), MarkOf(file.heads, chain);
      var n := |anchors|;
      HoldsIs(anchors, head);
      if head.Some? && head.value.count >= 1 && (head.value.count > n || anchors[head.value.count - 1].hash != head.value.hash) { return Done; }
      var recorded := n == 0 || (head.Some? && head.value.count == n);
      if n > 0 && look.tail == Some(anchors[n - 1].entryCount) && recorded { return Done; }
      if !look.clean || !Series(sha, chain, anchors) { return Done; }
      if n > 0 && look.total == anchors[n - 1].entryCount {
        if !recorded {
          Unrecorded(sha, trace, chain);
          var u := Update(chain, Mark(n, anchors[n - 1].hash));
          if Tracked(from, trace, pending) { QueuedTracked(sha, from, trace, pending, visited, u); }
          var ok := Add(u, look.flush, from, visited + {chain});
          return if ok then Done else Error;
        }
        return Done;
      }
      if look.total == 0 || !PipeFree([Previous(anchors, n), chain, look.first, look.last, look.tip]) { return Error; }
      if look.fate == SignFails || look.fate == WriteFails { return Error; }
      var signed := NewAnchor(sha, chain, anchors, look);
      Extended(sha, chain, anchors, look);
      NewSeen(sha, chain, anchors, look);
      WroteOne(sha, from, trace, pending, visited, chain, signed);
      folder := folder[chain := anchors + [signed]];
      trace := trace + [Moment(Signed(chain), folder, file.heads)];
      ghost var wrote := trace;
      SignedOnly(before, wrote, wrote);
      OneIsSigned(before, wrote);
      NothingYet(wrote);
      if look.fate == Dies { return Crash; }
      var ok := Add(Update(chain, Mark(n + 1, signed.hash)), look.flush, from, visited + {chain});
      SignedOnly(before, wrote, trace);
      OneIsSigned(before, trace);
      end := if ok then Done else Error;
    }

    /**
     * Checkpoint: every chain in turn, and whatever ends the run but a crash,
     * the heads still queued. looks and last say what the run sees and meets.
     */
    method Checkpoint(chains: seq<string>, looks: seq<Look>, last: Write) returns (end: Ending)
      requires Valid() && pending == [] && |looks| == |chains| && forall i, j | 0 <= i < j < |chains| :: chains[i] != chains[j]
      modifies this, file
      ensures Valid() && pending == [] && old(trace) <= trace
      ensures forall c :: c !in chains ==> MarkOf(file.heads, c) == MarkOf(old(file.heads), c)
      ensures forall k | |old(trace)| <= k < |trace| && trace[k].act.Signed? :: trace[k].act.chain in chains
      ensures OncePerChain(|old(trace)| - 1, trace)
      ensures end == Done ==> forall j | 0 <= j < |chains| :: WasVisited(sha, |old(trace)| - 1, trace, chains[j], looks[j])
      ensures end == Done ==> forall k | |old(trace)| <= k < |trace| && trace[k].act.Signed? ::
                MarkOf(file.heads, trace[k].act.chain) == Some(OwnMark(trace[k].folder, trace[k].act.chain))
    {
      hide SoFar, Tracked, History, MustSign, AddsSeen, NothingSigned, OneSigned, WasVisited, OnlyRecords, NewAnchor, Holds;
      ghost var from := |trace| - 1;
      ghost var visited: set<string> := {};
      NothingDone(sha, trace);
      end := Done;
      var i := 0;
      while i < |chains| && end == Done
        invariant 0 <= i <= |chains| && Running(from, visited) && old(trace) <= trace
        invariant forall c <- visited :: exists j | 0 <= j < i :: chains[j] == c
        invariant end == Done ==> Tracked(from, trace, pending)
        invariant forall j | 0 <= j < i :: WasVisited(sha, from, trace, chains[j], looks[j])
      {
        ghost var before := trace;
        Elsewhere(from, visited);
        ghost var found := trace;
        end := Visit(chains[i], looks[i], from, visited);
        VisitTold(sha, from, found, trace, chains[i], looks[i]);
        VisitedStill(sha, from, before, trace, chains[..i], looks[..i]);
        visited := visited + {chains[i]};
        i := i + 1;
      }
      ghost var before := trace;
      if end != Crash {
        Elsewhere(from, visited);
        var ok := Flush(last, from, visited);
        if !ok { end := Error; }
      }
      VisitedStill(sha, from, before, trace, chains[..i], looks[..i]);
      RunEnds(sha, from, trace, pending, visited, chains);
      pending := [];
      if end == Done { AllTracked(from, trace); }
    }
  }

  /** Between these two moments nothing was signed. */
  predicate NothingSigned(ms: seq<Moment>, more: seq<Moment>) {
    ms <= more && forall k | |ms| <= k < |more| :: !more[k].act.Signed?
  }

  /** The first moment since is this one, and nothing was signed after it. */
  predicate OneSigned(ms: seq<Moment>, more: seq<Moment>, m: Moment) {
    ms + [m] <= more && NothingSigned(ms + [m], more)
  }

  lemma OneIsSigned(ms: seq<Moment>, more: seq<Moment>)
    ensures (exists m: Moment | m.act.Signed? :: OneSigned(ms, more, m)) ==> !NothingSigned(ms, more)
  {
    if m: Moment :| m.act.Signed? && OneSigned(ms, more, m) { assert (ms + [m])[|ms|] == m && more[|ms|] == m; }
  }

  // ---- When a checkpoint is due ----

  /** The chain may be looked at: its id is one of a sink, and its series is readable and holds the recorded head. */
  predicate Readable(chain: string, s: seq<Anchor>, head: Option<Mark>, look: Look) {
    ChainIdOK(chain) && look.readable && Holds(s, head)
  }

  /** Nothing is new since the last checkpoint, by the chain's tail, and its head is recorded. */
  predicate UpToDate(s: seq<Anchor>, head: Option<Mark>, look: Look) {
    s != [] && look.tail == Some(s[|s| - 1].entryCount) && head.Some? && head.value.count == |s|
  }

  /** A clean chain with other than the entries its last checkpoint covers gets one, unless signing or writing it fails. */
  predicate MustSign(sha: string -> string, chain: string, s: seq<Anchor>, head: Option<Mark>, look: Look) {
    && Readable(chain, s, head, look) && !UpToDate(s, head, look) && look.clean && Series(sha, chain, s)
    && look.total > 0 && (s != [] ==> look.total != s[|s| - 1].entryCount)
    && PipeFree([if s == [] then SEED_ANCHOR_HASH else s[|s| - 1].hash, chain, look.first, look.last, look.tip])
    && (look.fate.Written? || look.fate.Dies?)
  }

  /** One with nothing new, whose series is past its recorded head, gets that recorded. */
  predicate OnlyRecords(sha: string -> string, chain: string, s: seq<Anchor>, head: Option<Mark>, look: Look) {
    && Readable(chain, s, head, look) && look.clean && Series(sha, chain, s)
    && s != [] && look.total == s[|s| - 1].entryCount && !(head.Some? && head.value.count == |s|)
  }

  /** The new checkpoint covers the entries seen: their number, the first, the last and the tip. */
  predicate AddsSeen(s: seq<Anchor>, s': seq<Anchor>, look: Look) {
    |s'| == |s| + 1 && s <= s'
    && s'[|s|].entryCount == look.total && s'[|s|].first == look.first && s'[|s|].last == look.last && s'[|s|].tip == look.tip
  }

  lemma HoldsIs(s: seq<Anchor>, head: Option<Mark>)
    ensures Holds(s, head) <==> !(head.Some? && head.value.count >= 1 && (head.value.count > |s| || s[head.value.count - 1].hash != head.value.hash))
  {
  }

  lemma NewSeen(sha: string -> string, chain: string, s: seq<Anchor>, look: Look)
    ensures AddsSeen(s, s + [NewAnchor(sha, chain, s, look)], look)
  {
  }

  lemma NothingYet(ms: seq<Moment>)
    ensures NothingSigned(ms, ms)
  {
  }

  lemma SignedOnly(ms: seq<Moment>, wrote: seq<Moment>, more: seq<Moment>)
    requires |wrote| == |ms| + 1 && ms <= wrote
    ensures NothingSigned(wrote, more) || more == wrote ==> OneSigned(ms, more, Last(wrote)) && ms <= more
  {
    assert wrote == ms + [Last(wrote)];
  }

  /** When a checkpoint was due on the chain as it was found at this moment, it was signed next. */
  predicate VisitedAt(sha: string -> string, ms: seq<Moment>, k: nat, chain: string, look: Look)
    requires k < |ms|
  {
    MustSign(sha, chain, SeriesOf(ms[k].folder, chain), MarkOf(ms[k].heads, chain), look) ==>
      && k + 1 < |ms| && ms[k + 1].act == Signed(chain)
      && AddsSeen(SeriesOf(ms[k].folder, chain), SeriesOf(ms[k + 1].folder, chain), look)
  }

  /** The chain was looked at since. */
  ghost predicate WasVisited(sha: string -> string, from: nat, ms: seq<Moment>, chain: string, look: Look) {
    exists k :: from < k < |ms| && VisitedAt(sha, ms, k, chain, look)
  }

  lemma VisitTold(sha: string -> string, from: nat, found: seq<Moment>, ms: seq<Moment>, chain: string, look: Look)
    requires from + 1 < |found| && found <= ms
    requires MustSign(sha, chain, SeriesOf(Last(found).folder, chain), MarkOf(Last(found).heads, chain), look) ==>
               && |ms| > |found| && ms[|found|].act == Signed(chain)
               && AddsSeen(SeriesOf(Last(found).folder, chain), SeriesOf(ms[|found|].folder, chain), look)
    ensures WasVisited(sha, from, ms, chain, look)
  {
    hide MustSign, AddsSeen;
    assert ms[|found| - 1] == Last(found);
    assert VisitedAt(sha, ms, |found| - 1, chain, look);
  }

  lemma VisitedStill(sha: string -> string, from: nat, ms: seq<Moment>, more: seq<Moment>, chains: seq<string>, looks: seq<Look>)
    requires ms <= more && |chains| == |looks| && forall j | 0 <= j < |chains| :: WasVisited(sha, from, ms, chains[j], looks[j])
    ensures forall j | 0 <= j < |chains| :: WasVisited(sha, from, more, chains[j], looks[j])
  {
    hide MustSign, AddsSeen;
    forall j | 0 <= j < |chains| ensures WasVisited(sha, from, more, chains[j], looks[j]) {
      var k :| from < k < |ms| && VisitedAt(sha, ms, k, chains[j], looks[j]);
      assert VisitedAt(sha, more, k, chains[j], looks[j]);
    }
  }

  lemma RunEnds(sha: string -> string, from: nat, ms: seq<Moment>, pending: seq<Update>, visited: set<string>, chains: seq<string>)
    requires SoFar(sha, from, ms, pending, visited) && forall c <- visited :: c in chains
    ensures History(sha, ms)
    ensures forall c :: c !in chains ==> MarkOf(Last(ms).heads, c) == MarkOf(ms[from].heads, c)
    ensures forall k | from < k < |ms| && ms[k].act.Signed? :: ms[k].act.chain in chains
    ensures OncePerChain(from, ms)
  {
    hide History, Waits;
  }

  lemma AllTracked(from: nat, ms: seq<Moment>)
    requires ms != [] && Tracked(from, ms, [])
    ensures forall k | from < k < |ms| && ms[k].act.Signed? ::
              MarkOf(Last(ms).heads, ms[k].act.chain) == Some(OwnMark(ms[k].folder, ms[k].act.chain))
  {
    hide OwnMark, MarkOf;
    forall k | from < k < |ms| && ms[k].act.Signed?
      ensures MarkOf(Last(ms).heads, ms[k].act.chain) == Some(OwnMark(ms[k].folder, ms[k].act.chain))
    {
      assert TrackedAt(ms[k], Last(ms).heads, []);
    }
  }

  /** FromWalker: the checkpoint that follows a series. */
  function NewAnchor(sha: string -> string, chain: string, s: seq<Anchor>, look: Look): Anchor {
    Anchor(look.first, look.last, look.tip, look.total, sha(AnchorPreimage(Previous(s, |s|), chain, look.first, look.last, look.tip)))
  }

  lemma Extended(sha: string -> string, chain: string, s: seq<Anchor>, look: Look)
    requires Series(sha, chain, s) && PipeFree([Previous(s, |s|), chain, look.first, look.last, look.tip])
    ensures Series(sha, chain, s + [NewAnchor(sha, chain, s, look)])
  {
    hide PipeFree, AnchorPreimage;
    var t := s + [NewAnchor(sha, chain, s, look)];
    forall i | 0 <= i < |t| ensures ChainedAt(sha, chain, t, i) {
      assert Previous(t, i) == Previous(s, i);
      if i < |s| { assert ChainedAt(sha, chain, s, i) && t[i] == s[i]; }
    }
  }

  /** A series longer than its recorded head, on which there is nothing to sign. */
  lemma Unrecorded(sha: string -> string, ms: seq<Moment>, chain: string)
    requires ms != [] && ChainIdOK(chain)
    requires var s, head := SeriesOf(Last(ms).folder, chain), MarkOf(Last(ms).heads, chain);
             s != [] && Holds(s, head) && Series(sha, chain, s) && !(head.Some? && head.value.count == |s|)
    ensures var s := SeriesOf(Last(ms).folder, chain); Waits(sha, ms, Update(chain, Mark(|s|, s[|s| - 1].hash)))
  {
    hide Series, ChainIdOK;
    var s := SeriesOf(Last(ms).folder, chain);
    assert StandsBehind(sha, ms[|ms| - 1], Last(ms), chain, Some(Mark(|s|, s[|s| - 1].hash)));
  }
}
