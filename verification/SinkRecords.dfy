/** The records of a commit: their drafts, and which of them are duplicates. */
module SinkRecords {
  import opened SinkState
  import opened SinkStages
  import opened SinkErasure

  datatype Record = Record(subject: string, class_: string, source: string, content: string)

  datatype Deduped = Kept(keep: seq<Record>, dup: seq<bool>) | Conflict(at: nat)

  /** The chain holds an entry made from this source, committing to this content. */
  predicate On(entries: seq<Entry>, origin: map<EntryId, string>, r: Record) {
    exists e <- entries :: e.hash.Salted? && e.hash.content == r.content && SourceOf(origin, e.id) == r.source
  }

  /** Sources not on the chain, and no source twice. */
  predicate NewSources(entries: seq<Entry>, origin: map<EntryId, string>, recs: seq<Record>) {
    (forall r <- recs :: r.source != "" ==> !HasSource(entries, origin, r.source))
    && forall j, k | 0 <= j < k < |recs| :: recs[j].source != "" ==> recs[j].source != recs[k].source
  }

  /** The entries are the records', in order. */
  predicate MadeFrom(entries: seq<Entry>, origin: map<EntryId, string>, recs: seq<Record>) {
    |entries| == |recs|
    && forall k | 0 <= k < |recs| ::
         entries[k].kind == Event && entries[k].hash.Salted? && entries[k].hash.content == recs[k].content
         && SourceOf(origin, entries[k].id) == recs[k].source
  }

  predicate Carries(dr: Draft, origin: map<EntryId, string>, recs: seq<Record>) {
    MadeFrom(dr.entries, origin, recs)
  }

  /** A chain got exactly these records, in order, after what it held. */
  predicate Got(before: seq<Entry>, after: seq<Entry>, origin: map<EntryId, string>, recs: seq<Record>) {
    before <= after && MadeFrom(after[|before|..], origin, recs)
  }

  lemma DraftStep(entries: seq<Entry>, dr: Draft, origin: map<EntryId, string>, signer: bool, lo: nat,
                  id: EntryId, nonce: nat, recs: seq<Record>, i: nat)
    requires DraftOK(entries, dr, origin, signer, lo, id) && lo <= id && OriginBelow(origin, id)
    requires (forall e <- entries :: e.id < id) && i < |recs|
    requires NewSources(entries, origin, recs) && Carries(dr, origin, recs[..i])
    ensures var r := recs[i];
            var next, origin' := Extend(dr, |entries|, id, r.content, nonce, r.source, signer), origin[id := r.source];
            DraftOK(entries, next, origin', signer, lo, id + 1) && Carries(next, origin', recs[..i + 1])
            && NewSources(entries, origin', recs)
  {
    var r := recs[i];
    SourceIsNew(entries, dr, origin, recs, i);
    ExtendKeeps(entries, dr, origin, signer, lo, id, r.content, nonce, r.source);
    CarriesMore(dr, origin, id, nonce, recs, i, |entries|, signer);
    SourcesGrow(entries, origin, id, origin[id := r.source], id + 1);
    NewSourcesGrow(entries, origin, id, r.source, recs);
  }

  lemma SourceIsNew(entries: seq<Entry>, dr: Draft, origin: map<EntryId, string>, recs: seq<Record>, i: nat)
    requires DraftLocated(dr, |entries|, origin) && i < |recs|
    requires NewSources(entries, origin, recs) && Carries(dr, origin, recs[..i])
    ensures recs[i].source != "" ==> recs[i].source !in dr.positions
    ensures forall e <- entries :: SourceOf(origin, e.id) != "" ==> SourceOf(origin, e.id) != recs[i].source
  {
    forall k | 0 <= k < i && recs[i].source != ""
      ensures SourceOf(origin, dr.entries[k].id) != recs[i].source
    {
      assert recs[..i][k] == recs[k];
    }
    assert recs[i] in recs;
  }

  lemma CarriesMore(dr: Draft, origin: map<EntryId, string>, id: EntryId, nonce: nat, recs: seq<Record>, i: nat,
                    n: nat, signer: bool)
    requires i < |recs| && Carries(dr, origin, recs[..i]) && forall e <- dr.entries :: e.id < id
    ensures var r := recs[i];
            Carries(Extend(dr, n, id, r.content, nonce, r.source, signer), origin[id := r.source], recs[..i + 1])
  {
  }

  lemma NewSourcesGrow(entries: seq<Entry>, origin: map<EntryId, string>, id: EntryId, source: string, recs: seq<Record>)
    requires NewSources(entries, origin, recs) && forall e <- entries :: e.id < id
    ensures NewSources(entries, origin[id := source], recs)
  {
    forall r | r in recs && r.source != "" ensures !HasSource(entries, origin[id := source], r.source) {
      assert !HasSource(entries, origin, r.source);
    }
  }

  lemma NothingDrafted(entries: seq<Entry>, origin: map<EntryId, string>, signer: bool, lo: nat)
    ensures DraftOK(entries, EMPTY_DRAFT, origin, signer, lo, lo) && Carries(EMPTY_DRAFT, origin, [])
  {
  }

  lemma IdsDrawn(d: Disk, c: Chain, origin: map<EntryId, string>, bound: nat)
    requires DiskCore(d, origin, bound)
    ensures forall e <- EntriesOf(d, c) :: e.id < bound
  {
    assert Core(ViewOf(d, c), d.signing, origin, bound);
  }

  // ---- Duplicates ----

  datatype Verdict = New | Held | Clash

  /** What the sources file and the chain say of a sourced record. */
  function Judge(v: View, r: Record): Verdict {
    if r.source !in v.sources then New
    else
      var p := v.sources[r.source];
      if p.seqNo >= |v.entries| || v.entries[p.seqNo].id != p.id then New
      else if p.id !in v.secrets || v.secrets[p.id].content != r.content then Clash
      else Held
  }

  /** The chain holds this source with other content. */
  predicate OnOtherwise(entries: seq<Entry>, origin: map<EntryId, string>, r: Record) {
    exists e <- entries :: e.hash.Salted? && e.hash.content != r.content && SourceOf(origin, e.id) == r.source
  }

  /** The check is exact: a source is new, or held with equal content, or held with other content. */
  lemma JudgeExact(v: View, r: Record, signing: bool, origin: map<EntryId, string>, bound: nat)
    requires Core(v, signing, origin, bound) && !Erased(v.entries) && r.source != ""
    ensures match Judge(v, r)
            case New => !HasSource(v.entries, origin, r.source)
            case Held => On(v.entries, origin, r)
            case Clash => OnOtherwise(v.entries, origin, r)
  {
    hide DistinctIds, IdsBelow, FullySigned, OncePerSource, Erased;
    if Judge(v, r) != New {
      var e := v.entries[v.sources[r.source].seqNo];
      assert Opens(e, v.secrets[e.id]) && SourceOf(origin, e.id) == r.source;
    }
  }

  /** The records that were not dropped, in order. */
  function NotDropped(recs: seq<Record>, dup: seq<bool>): seq<Record>
    requires |dup| == |recs|
  {
    if recs == [] then []
    else
      var n := |recs| - 1;
      NotDropped(recs[..n], dup[..n]) + if dup[n] then [] else [recs[n]]
  }

  /** The record's source is on the chain, or came earlier in the call. */
  predicate Seen(entries: seq<Entry>, origin: map<EntryId, string>, recs: seq<Record>, n: nat)
    requires n < |recs|
  {
    recs[n].source != ""
    && (HasSource(entries, origin, recs[n].source) || exists j | 0 <= j < n :: recs[j].source == recs[n].source)
  }

  function Duplicates(entries: seq<Entry>, origin: map<EntryId, string>, recs: seq<Record>): (dup: seq<bool>)
    ensures |dup| == |recs|
  {
    seq(|recs|, n requires 0 <= n < |recs| => Seen(entries, origin, recs, n))
  }

  /** What of one pair's records its chain gets: every one whose source is new, in order. */
  function ToCommit(entries: seq<Entry>, origin: map<EntryId, string>, recs: seq<Record>): seq<Record> {
    NotDropped(recs, Duplicates(entries, origin, recs))
  }

  predicate Again(keep: seq<Record>, r: Record) {
    exists k <- keep :: k.source == r.source && k.content == r.content
  }

  /** Exactly the duplicates are dropped, and every one of them is on the chain, or is the repeat of one that is kept. */
  predicate DroppedRight(entries: seq<Entry>, origin: map<EntryId, string>, recs: seq<Record>, keep: seq<Record>, dup: seq<bool>) {
    dup == Duplicates(entries, origin, recs) && NewSources(entries, origin, keep) && keep == NotDropped(recs, dup)
    && forall j | 0 <= j < |recs| && dup[j] ::
         recs[j].source != "" && (On(entries, origin, recs[j]) || Again(keep, recs[j]))
  }

  /** The record that cannot be committed: its source is on the chain, or earlier in the call, with other content. */
  predicate Conflicting(entries: seq<Entry>, origin: map<EntryId, string>, recs: seq<Record>, at: nat) {
    at < |recs| && recs[at].source != ""
    && (OnOtherwise(entries, origin, recs[at])
        || exists j | 0 <= j < at :: recs[j].source == recs[at].source && recs[j].content != recs[at].content)
  }

  /** The sources met so far, each with the first record that carried it. */
  predicate Met(entries: seq<Entry>, origin: map<EntryId, string>, recs: seq<Record>, n: nat,
                keep: seq<Record>, inBatch: map<string, nat>) {
    n <= |recs|
    && (forall j | 0 <= j < n && recs[j].source != "" :: recs[j].source in inBatch)
    && (forall s <- inBatch ::
       inBatch[s] < n && recs[inBatch[s]].source == s
       && (On(entries, origin, recs[inBatch[s]]) || Again(keep, recs[inBatch[s]])))
    && forall k <- keep :: k.source != "" ==> k.source in inBatch
  }

  lemma ChainCore(d: Disk, c: Chain, origin: map<EntryId, string>, bound: nat)
    requires DiskCore(d, origin, bound)
    ensures Core(ViewOf(d, c), d.signing, origin, bound)
  {
  }

  lemma NothingMet(entries: seq<Entry>, origin: map<EntryId, string>, recs: seq<Record>)
    ensures DroppedRight(entries, origin, recs[..0], [], []) && Met(entries, origin, recs, 0, [], map[])
  {
  }

  lemma MetBefore(entries: seq<Entry>, origin: map<EntryId, string>, recs: seq<Record>, n: nat,
                  keep: seq<Record>, inBatch: map<string, nat>, source: string)
    requires Met(entries, origin, recs, n, keep, inBatch) && source in inBatch
    ensures inBatch[source] < n <= |recs| && recs[inBatch[source]].source == source
  {
  }

  lemma RepeatClash(entries: seq<Entry>, origin: map<EntryId, string>, recs: seq<Record>, j: nat,
                    keep: seq<Record>, inBatch: map<string, nat>)
    requires Met(entries, origin, recs, j, keep, inBatch) && j < |recs| && recs[j].source in inBatch && recs[j].source != ""
    requires recs[inBatch[recs[j].source]].content != recs[j].content
    ensures Conflicting(entries, origin, recs, j)
  {
  }

  lemma ChainClash(entries: seq<Entry>, origin: map<EntryId, string>, recs: seq<Record>, j: nat)
    requires j < |recs| && recs[j].source != "" && OnOtherwise(entries, origin, recs[j])
    ensures Conflicting(entries, origin, recs, j)
  {
  }

  /** One record more, dropped or kept. */
  lemma DroppedMore(entries: seq<Entry>, origin: map<EntryId, string>, recs: seq<Record>, dup: seq<bool>, j: nat, drop: bool)
    requires j < |recs| && dup == Duplicates(entries, origin, recs[..j]) && drop == Seen(entries, origin, recs, j)
    ensures NotDropped(recs[..j + 1], dup + [drop]) == NotDropped(recs[..j], dup) + if drop then [] else [recs[j]]
    ensures dup + [drop] == Duplicates(entries, origin, recs[..j + 1])
  {
    assert recs[..j + 1][..j] == recs[..j] && (dup + [drop])[..j] == dup;
    forall n | 0 <= n <= j ensures Seen(entries, origin, recs[..j + 1], n) == Seen(entries, origin, recs, n) {
      hide HasSource;
    }
    forall n | 0 <= n < j ensures Seen(entries, origin, recs[..j], n) == Seen(entries, origin, recs, n) {
      hide HasSource;
    }
  }

  lemma OnHas(entries: seq<Entry>, origin: map<EntryId, string>, r: Record)
    requires On(entries, origin, r)
    ensures HasSource(entries, origin, r.source)
  {
  }

  lemma AgainMore(keep: seq<Record>, more: Record)
    ensures forall r :: Again(keep, r) ==> Again(keep + [more], r)
    ensures Again(keep + [more], more)
  {
    assert more in keep + [more];
    forall r | Again(keep, r) ensures Again(keep + [more], r) {
      var k :| k in keep && k.source == r.source && k.content == r.content;
      assert k in keep + [more];
    }
  }

  lemma KeepOne(entries: seq<Entry>, origin: map<EntryId, string>, recs: seq<Record>, j: nat,
                keep: seq<Record>, dup: seq<bool>, inBatch: map<string, nat>)
    requires j < |recs| && recs[j].source == ""
    requires DroppedRight(entries, origin, recs[..j], keep, dup) && Met(entries, origin, recs, j, keep, inBatch)
    ensures DroppedRight(entries, origin, recs[..j + 1], keep + [recs[j]], dup + [false])
    ensures Met(entries, origin, recs, j + 1, keep + [recs[j]], inBatch)
  {
    hide On, Again, HasSource, NotDropped, Duplicates;
    DroppedMore(entries, origin, recs, dup, j, false);
    AgainMore(keep, recs[j]);
  }

  lemma DropSeen(entries: seq<Entry>, origin: map<EntryId, string>, recs: seq<Record>, j: nat, keep: seq<Record>, dup: seq<bool>)
    requires j < |recs| && Seen(entries, origin, recs, j) && (On(entries, origin, recs[j]) || Again(keep, recs[j]))
    requires DroppedRight(entries, origin, recs[..j], keep, dup)
    ensures DroppedRight(entries, origin, recs[..j + 1], keep, dup + [true])
  {
    hide HasSource, NotDropped, NewSources, On, Again, Duplicates;
    DroppedMore(entries, origin, recs, dup, j, true);
  }

  lemma DropRepeat(entries: seq<Entry>, origin: map<EntryId, string>, recs: seq<Record>, j: nat,
                   keep: seq<Record>, dup: seq<bool>, inBatch: map<string, nat>)
    requires j < |recs| && recs[j].source != "" && recs[j].source in inBatch
    requires DroppedRight(entries, origin, recs[..j], keep, dup) && Met(entries, origin, recs, j, keep, inBatch)
    requires recs[inBatch[recs[j].source]].content == recs[j].content
    ensures DroppedRight(entries, origin, recs[..j + 1], keep, dup + [true])
    ensures Met(entries, origin, recs, j + 1, keep, inBatch)
  {
    var first := recs[inBatch[recs[j].source]];
    assert On(entries, origin, recs[j]) <==> On(entries, origin, first);
    assert Again(keep, recs[j]) <==> Again(keep, first);
    hide On, Again, DroppedRight, HasSource;
    assert Seen(entries, origin, recs, j);
    DropSeen(entries, origin, recs, j, keep, dup);
    hide Seen;
  }

  lemma DropHeld(entries: seq<Entry>, origin: map<EntryId, string>, recs: seq<Record>, j: nat,
                 keep: seq<Record>, dup: seq<bool>, inBatch: map<string, nat>)
    requires j < |recs| && recs[j].source != "" && On(entries, origin, recs[j])
    requires DroppedRight(entries, origin, recs[..j], keep, dup) && Met(entries, origin, recs, j, keep, inBatch)
    ensures DroppedRight(entries, origin, recs[..j + 1], keep, dup + [true])
    ensures Met(entries, origin, recs, j + 1, keep, inBatch[recs[j].source := j])
  {
    hide On, Again, DroppedRight, HasSource;
    OnHas(entries, origin, recs[j]);
    DropSeen(entries, origin, recs, j, keep, dup);
    hide Seen;
  }

  lemma KeepNew(entries: seq<Entry>, origin: map<EntryId, string>, recs: seq<Record>, j: nat,
                keep: seq<Record>, dup: seq<bool>, inBatch: map<string, nat>)
    requires j < |recs| && recs[j].source != "" && recs[j].source !in inBatch
    requires !HasSource(entries, origin, recs[j].source)
    requires DroppedRight(entries, origin, recs[..j], keep, dup) && Met(entries, origin, recs, j, keep, inBatch)
    ensures DroppedRight(entries, origin, recs[..j + 1], keep + [recs[j]], dup + [false])
    ensures Met(entries, origin, recs, j + 1, keep + [recs[j]], inBatch[recs[j].source := j])
  {
    hide On, Again, HasSource, NotDropped, Duplicates;
    DroppedMore(entries, origin, recs, dup, j, false);
    AgainMore(keep, recs[j]);
  }

  // ---- A whole call's records ----

  type Pair = (string, string)

  function PairOf(r: Record): Pair {
    (r.subject, r.class_)
  }

  /** One pair's records, in order. */
  function RecordsOf(records: seq<Record>, pair: Pair): seq<Record> {
    if records == [] then []
    else
      var n := |records| - 1;
      RecordsOf(records[..n], pair) + if PairOf(records[n]) == pair then [records[n]] else []
  }

  /** Part by part: those of more records are each part's, the first part's first. */
  lemma {:induction false} RecordsInOrder(a: seq<Record>, b: seq<Record>, pair: Pair)
    ensures RecordsOf(a + b, pair) == RecordsOf(a, pair) + RecordsOf(b, pair)
  {
    if b == [] {
      assert a + b == a;
    } else {
      var n := |b| - 1;
      RecordsInOrder(a, b[..n], pair);
      assert (a + b)[..|a + b| - 1] == a + b[..n] && (a + b)[|a + b| - 1] == b[n];
      hide PairOf;
      var more := if PairOf(b[n]) == pair then [b[n]] else [];
      assert RecordsOf(a, pair) + (RecordsOf(b[..n], pair) + more) == RecordsOf(a, pair) + RecordsOf(b[..n], pair) + more;
    }
  }

  /** And one record is its own pair's alone. */
  lemma OneRecord(r: Record, pair: Pair)
    ensures RecordsOf([r], pair) == if (r.subject, r.class_) == pair then [r] else []
  {
    assert [r][..0] == [];
  }

  lemma {:induction false} RecordOf(records: seq<Record>, r: Record)
    requires r in records
    ensures r in RecordsOf(records, PairOf(r))
  {
    var n := |records| - 1;
    if records[n] != r {
      assert r in records[..n];
      RecordOf(records[..n], r);
    }
  }

  lemma {:induction false} KeptIn(recs: seq<Record>, dup: seq<bool>, j: nat)
    requires |dup| == |recs| && j < |recs| && !dup[j]
    ensures recs[j] in NotDropped(recs, dup)
  {
    var n := |recs| - 1;
    if j < n {
      KeptIn(recs[..n], dup[..n], j);
    }
  }

  /** After the duplicates are dropped, every record is on the chain or will be. */
  lemma Settled(entries: seq<Entry>, origin: map<EntryId, string>, recs: seq<Record>, keep: seq<Record>, dup: seq<bool>, r: Record)
    requires DroppedRight(entries, origin, recs, keep, dup) && r in recs
    ensures On(entries, origin, r) || Again(keep, r)
  {
    var j :| 0 <= j < |recs| && recs[j] == r;
    if !dup[j] {
      KeptIn(recs, dup, j);
    }
  }

  /** Appending a draft puts its records on the chain, and takes none off. */
  lemma NowOn(entries: seq<Entry>, dr: Draft, origin: map<EntryId, string>, keep: seq<Record>, r: Record)
    requires On(entries, origin, r) || (Again(keep, r) && Carries(dr, origin, keep))
    ensures On(entries + dr.entries, origin, r)
  {
    if On(entries, origin, r) {
      var e :| e in entries && e.hash.Salted? && e.hash.content == r.content && SourceOf(origin, e.id) == r.source;
      assert e in entries + dr.entries;
    } else {
      var k :| k in keep && k.source == r.source && k.content == r.content;
      var i :| 0 <= i < |keep| && keep[i] == k;
      assert dr.entries[i] in entries + dr.entries;
    }
  }

  lemma OnGrows(entries: seq<Entry>, r: Record, origin: map<EntryId, string>, bound: nat, origin': map<EntryId, string>, bound': nat)
    requires On(entries, origin, r) && Grows(origin, bound, origin', bound') && forall e <- entries :: e.id < bound
    ensures On(entries, origin', r)
  {
    SourcesGrow(entries, origin, bound, origin', bound');
  }

  lemma NewGrows(entries: seq<Entry>, recs: seq<Record>, origin: map<EntryId, string>, bound: nat, origin': map<EntryId, string>, bound': nat)
    requires NewSources(entries, origin, recs) && Grows(origin, bound, origin', bound') && forall e <- entries :: e.id < bound
    ensures NewSources(entries, origin', recs)
  {
    SourcesGrow(entries, origin, bound, origin', bound');
    forall r | r in recs && r.source != "" ensures !HasSource(entries, origin', r.source) {
      assert !HasSource(entries, origin, r.source);
    }
  }

  lemma CarriesGrows(dr: Draft, recs: seq<Record>, origin: map<EntryId, string>, bound: nat, origin': map<EntryId, string>, bound': nat)
    requires Carries(dr, origin, recs) && Grows(origin, bound, origin', bound') && forall e <- dr.entries :: e.id < bound
    ensures Carries(dr, origin', recs)
  {
    SourcesGrow(dr.entries, origin, bound, origin', bound');
  }
}
