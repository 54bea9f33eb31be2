/** The linker over a store: one chain at a time, or several in one transaction. */
module ChainLinker {
  import opened Basics
  import opened Timestamps
  import opened JsonText
  import opened Ordering
  import opened Linking

  datatype Head = Head(seqNo: int, hash: string)

  datatype AppendError = BadCall | NoRunID | Busy | LinkRefused(error: LinkError) | WriteFailed | HeadStale

  datatype ChainInputs = ChainInputs(chainID: string, inputs: seq<Input>)

  function StoredOf(chains: map<string, seq<Entry>>, id: string): seq<Entry> {
    if id in chains then chains[id] else []
  }

  /** The store: entries, leases and the cached heads. */
  class Store {
    var chains: map<string, seq<Entry>>
    var leased: set<string>
    var heads: map<string, Head>

    constructor ()
      ensures chains == map[] && leased == {} && heads == map[]
    {
      chains, leased, heads := map[], {}, map[];
    }
  }

  predicate CallOK(b: ChainInputs) {
    b.chainID != "" && ValidBatch(b.inputs)
  }

  function HeadOf(es: seq<Entry>): Head
    requires es != []
  {
    Head(es[|es| - 1].globalSeq, es[|es| - 1].chainHash)
  }

  lemma OnceIs(l: Settings, chainID: string, stored: seq<Entry>, runID: string, inputs: seq<Input>)
    ensures AppendOnce(l, chainID, stored, runID, inputs)
         == match Link(l, After(chainID, stored, runID), Sorted(inputs)) case Linked(more) => Some(stored + more) case Refused(_) => None
    ensures Link(l, After(chainID, stored, runID), Sorted(inputs)).Linked? ==>
              |Link(l, After(chainID, stored, runID), Sorted(inputs)).entries| == |inputs|
  {
  }

  lemma SameHead(stored: seq<Entry>, entries: seq<Entry>)
    requires entries != []
    ensures stored + entries != [] && HeadOf(stored + entries) == HeadOf(entries)
    ensures var last := (stored + entries)[|stored + entries| - 1]; HeadOf(entries) == Head(last.globalSeq, last.chainHash)
  {
  }

  predicate DistinctChains(batches: seq<ChainInputs>) {
    forall i, j | 0 <= i < j < |batches| :: batches[i].chainID != batches[j].chainID
  }

  /** One Append per chain, one after the other; None when one is refused. */
  function AppendEach(l: Settings, chains: map<string, seq<Entry>>, batches: seq<ChainInputs>, runs: seq<string>, n: nat): Option<map<string, seq<Entry>>>
    requires n <= |batches| == |runs|
  {
    if n == 0 then Some(chains)
    else match AppendEach(l, chains, batches, runs, n - 1)
      case None => None
      case Some(m) =>
        var b := batches[n - 1];
        match AppendOnce(l, b.chainID, StoredOf(m, b.chainID), runs[n - 1], b.inputs)
        case None => None
        case Some(es) => Some(m[b.chainID := es])
  }

  /** A chain of no earlier batch is as it was. */
  lemma {:induction false} NotYet(l: Settings, chains: map<string, seq<Entry>>, batches: seq<ChainInputs>, runs: seq<string>, n: nat, id: string)
    requires n <= |batches| == |runs| && AppendEach(l, chains, batches, runs, n).Some?
    requires forall i | 0 <= i < n :: batches[i].chainID != id
    ensures StoredOf(AppendEach(l, chains, batches, runs, n).value, id) == StoredOf(chains, id)
  {
    hide AppendOnce;
    if n > 0 { NotYet(l, chains, batches, runs, n - 1, id); }
  }

  lemma {:induction false} EachRefused(l: Settings, chains: map<string, seq<Entry>>, batches: seq<ChainInputs>, runs: seq<string>, n: nat, m: nat)
    requires n <= m <= |batches| == |runs| && AppendEach(l, chains, batches, runs, n) == None
    ensures AppendEach(l, chains, batches, runs, m) == None
  {
    hide AppendOnce;
    if n < m { EachRefused(l, chains, batches, runs, n, m - 1); }
  }

  /** The heads of the first n batches' chains are their last entries. */
  predicate Recorded(chains: map<string, seq<Entry>>, heads: map<string, Head>, batches: seq<ChainInputs>, n: nat)
    requires n <= |batches|
  {
    forall j | 0 <= j < n :: var id := batches[j].chainID;
      id in chains && chains[id] != [] && id in heads && heads[id] == HeadOf(chains[id])
  }

  lemma NoneYet(l: Settings, chains: map<string, seq<Entry>>, heads: map<string, Head>, batches: seq<ChainInputs>, runs: seq<string>)
    requires |runs| == |batches|
    ensures AppendEach(l, chains, batches, runs, 0) == Some(chains) && Recorded(chains, heads, batches, 0)
  {
  }

  lemma RecordedMore(chains: map<string, seq<Entry>>, heads: map<string, Head>, batches: seq<ChainInputs>, b: nat, stored: seq<Entry>, entries: seq<Entry>)
    requires b < |batches| && Recorded(chains, heads, batches, b) && DistinctChains(batches) && entries != []
    ensures Recorded(chains[batches[b].chainID := stored + entries], heads[batches[b].chainID := HeadOf(entries)], batches, b + 1)
  {
    assert (stored + entries)[|stored + entries| - 1] == entries[|entries| - 1];
  }

  /** The next chain, from what it held before the call. */
  lemma EachStep(l: Settings, chains: map<string, seq<Entry>>, batches: seq<ChainInputs>, runs: seq<string>, b: nat)
    requires b < |batches| == |runs| && AppendEach(l, chains, batches, runs, b).Some? && DistinctChains(batches) && CallOK(batches[b])
    ensures var id, m := batches[b].chainID, AppendEach(l, chains, batches, runs, b).value;
            AppendEach(l, chains, batches, runs, b + 1) == match Link(l, After(id, StoredOf(chains, id), runs[b]), Sorted(batches[b].inputs))
              case Linked(more) => Some(m[id := StoredOf(chains, id) + more])
              case Refused(_) => None
    ensures var o := Link(l, After(batches[b].chainID, StoredOf(chains, batches[b].chainID), runs[b]), Sorted(batches[b].inputs));
            o.Linked? ==> o.entries != []
  {
    hide LinkFirst, InputOK, DistinctIds, After;
    NotYet(l, chains, batches, runs, b, batches[b].chainID);
  }

  /** The chain is as it was, and then has the inputs' entries as they arrived. */
  ghost predicate Arrived(was: seq<Entry>, now: seq<Entry>, inputs: seq<Input>) {
    was <= now && ByArrival(inputs, now[|was|..])
  }

  lemma OnceArrived(l: Settings, id: string, es: seq<Entry>, run: string, inputs: seq<Input>)
    requires DistinctIds(inputs) && AppendOnce(l, id, es, run, inputs).Some?
    ensures Arrived(es, AppendOnce(l, id, es, run, inputs).value, inputs)
  {
    hide ByArrival, DistinctIds;
    var p := After(id, es, run);
    LinkedByArrival(l, p, inputs);
    hide Link, After;
    var more := Link(l, p, Sorted(inputs)).entries;
    assert (es + more)[|es|..] == more;
  }

  /** Every chain of the call, once its batch was linked, and whatever was linked onto others. */
  lemma {:induction false} EachArrived(l: Settings, chains: map<string, seq<Entry>>, batches: seq<ChainInputs>, runs: seq<string>, n: nat)
    requires n <= |batches| == |runs| && AppendEach(l, chains, batches, runs, n).Some? && DistinctChains(batches)
    requires forall b <- batches :: CallOK(b)
    ensures forall i | 0 <= i < n ::
              Arrived(StoredOf(chains, batches[i].chainID), StoredOf(AppendEach(l, chains, batches, runs, n).value, batches[i].chainID), batches[i].inputs)
  {
    hide AppendOnce, Arrived;
    if n > 0 {
      EachArrived(l, chains, batches, runs, n - 1);
      var b, m := batches[n - 1], AppendEach(l, chains, batches, runs, n - 1).value;
      NotYet(l, chains, batches, runs, n - 1, b.chainID);
      CallDistinct(b);
      OnceArrived(l, b.chainID, StoredOf(m, b.chainID), runs[n - 1], b.inputs);
    }
  }

  lemma CallDistinct(b: ChainInputs)
    requires CallOK(b)
    ensures DistinctIds(b.inputs)
  {
    hide InputOK, DistinctIds;
  }

  class Linker {
    const l: Settings
    const store: Store

    constructor (l: Settings, store: Store)
      ensures this.l == l && this.store == store
    {
      this.l, this.store := l, store;
    }

    /** validateBatchOrdering. */
    method ValidateBatch(inputs: seq<Input>) returns (ok: bool)
      ensures ok <==> (forall x <- inputs :: InputOK(x)) && DistinctIds(inputs)
    {
      var seen: set<Bytes> := {};
      for i := 0 to |inputs|
        invariant forall x <- inputs[..i] :: InputOK(x)
        invariant seen == set j | 0 <= j < i :: inputs[j].entryID
        invariant DistinctIds(inputs[..i])
      {
        assert inputs[..i + 1] == inputs[..i] + [inputs[i]];
        var x := inputs[i];
        assert !InputOK(x) ==> !(forall y <- inputs :: InputOK(y));
        hide ValidUtf8;
        if x.entryID == [] || !ValidUtf8(x.entryID) || FieldsOf(x.timestamp).date.year > 9999 || x.ingestedAt == 0 { return false; }
        if x.entryType == "tombstone" || Ascii("tomb_") <= x.entryID || "TOMBSTONE:" <= x.contentHash { return false; }
        if inputs[i].entryID in seen {
          ghost var j :| 0 <= j < i && inputs[j].entryID == inputs[i].entryID;
          return false;
        }
        seen := seen + {inputs[i].entryID};
      }
      assert inputs[..|inputs|] == inputs;
      ok := true;
    }

    /** link: the only place chain hashes are computed. */
    method LinkBatch(p: Place, batch: seq<Input>) returns (o: Outcome)
      ensures o == Link(l, p, batch)
    {
      hide ChainHashOf, LinkFirst, EntryOf, LinkOne, Link;
      NothingLinkedYet(l, p, batch);
      var entries: seq<Entry> := [];
      var previousHash := p.previousHash;
      for i := 0 to |batch|
        invariant LinkFirst(l, p, batch, i) == Linked(entries) && previousHash == LastHash(p, entries)
      {
        var globalSeq := Wrap64(p.next + i);
        var hash := ChainHashOf(l, previousHash, p.runID, i, globalSeq, batch[i]);
        LinkStep(l, p, batch, i, entries);
        if hash == None {
          StopsAt(l, p, batch, i + 1);
          return Refused(BadHashInput(i));
        }
        if batch[i].expected != "" && batch[i].expected != hash.value {
          StopsAt(l, p, batch, i + 1);
          return Refused(UnexpectedHash(i));
        }
        entries := entries + [EntryOf(l, p, previousHash, i, batch[i], hash.value)];
        previousHash := hash.value;
      }
      o := Linked(entries);
    }

    /**
     * Append. runID is what was minted, None when minting failed; writeFails
     * and stateFails are the store failing to write the entries or the head.
     */
    method Append(chainID: string, inputs: seq<Input>, runID: Option<string>, writeFails: bool, stateFails: bool)
      returns (err: Option<AppendError>)
      modifies store
      ensures store.leased == old(store.leased)
      ensures err == None || err == Some(HeadStale) <==>
                && CallOK(ChainInputs(chainID, inputs)) && (l.format == V2 ==> runID.Some?) && chainID !in old(store.leased) && !writeFails
                && AppendOnce(l, chainID, StoredOf(old(store.chains), chainID), RunOf(runID), inputs).Some?
      ensures err == None || err == Some(HeadStale) ==> Arrived(StoredOf(old(store.chains), chainID), StoredOf(store.chains, chainID), inputs)
      ensures err == Some(HeadStale) ==> stateFails
      ensures err == None || err == Some(HeadStale) ==>
                && AppendOnce(l, chainID, StoredOf(old(store.chains), chainID), RunOf(runID), inputs).Some?
                && store.chains == old(store.chains)[chainID := AppendOnce(l, chainID, StoredOf(old(store.chains), chainID), RunOf(runID), inputs).value]
      ensures err == None ==> StoredOf(store.chains, chainID) != [] && store.heads == old(store.heads)[chainID := HeadOf(store.chains[chainID])]
      ensures err != None ==> store.heads == old(store.heads)
      ensures err != None && err != Some(HeadStale) ==> store.chains == old(store.chains)
    {
      hide InputOK, DistinctIds, HeadOf, After, Arrived, Link, Sorted;
      OnceIs(l, chainID, StoredOf(store.chains, chainID), RunOf(runID), inputs);
      hide AppendOnce;
      if chainID == "" || inputs == [] { return Some(BadCall); }
      var valid := ValidateBatch(inputs);
      if !valid { return Some(BadCall); }
      var batch := Sorted(inputs);
      if l.format == V2 && runID == None { return Some(NoRunID); }
      if chainID in store.leased { return Some(Busy); }
      store.leased := store.leased + {chainID};
      var stored := StoredOf(store.chains, chainID);
      if AppendOnce(l, chainID, stored, RunOf(runID), inputs).Some? { OnceArrived(l, chainID, stored, RunOf(runID), inputs); }
      var o := LinkBatch(After(chainID, stored, RunOf(runID)), batch);
      match o {
        case Refused(e) =>
          err := Some(LinkRefused(e));
        case Linked(entries) =>
          if writeFails {
            err := Some(WriteFailed);
          } else {
            store.chains := store.chains[chainID := stored + entries];
            if stateFails {
              err := Some(HeadStale);
            } else {
              SameHead(stored, entries);
              store.heads := store.heads[chainID := HeadOf(entries)];
              err := None;
            }
          }
      }
      store.leased := store.leased - {chainID};
    }

    /**
     * AppendChains: what one Append per chain would give, in one transaction,
     * or nothing.
     */
    method AppendChains(batches: seq<ChainInputs>, runs: seq<string>, writeFails: bool) returns (err: Option<AppendError>)
      requires |runs| == |batches|
      modifies store
      ensures store.leased == old(store.leased)
      ensures err == None <==>
                && batches != [] && (forall b <- batches :: CallOK(b)) && DistinctChains(batches) && !writeFails
                && (forall b <- batches :: b.chainID !in old(store.leased))
                && AppendEach(l, old(store.chains), batches, runs, |batches|).Some?
      ensures err == None ==> AppendEach(l, old(store.chains), batches, runs, |batches|) == Some(store.chains)
      ensures err == None ==> Recorded(store.chains, store.heads, batches, |batches|)
      ensures err == None ==> forall b <- batches ::
                Arrived(StoredOf(old(store.chains), b.chainID), StoredOf(store.chains, b.chainID), b.inputs)
      ensures err == None ==> forall id :: (forall b <- batches :: b.chainID != id) ==> StoredOf(store.chains, id) == StoredOf(old(store.chains), id)
      ensures err != None ==> store.chains == old(store.chains) && store.heads == old(store.heads)
    {
      hide CallOK, AppendEach, Recorded, DistinctChains, Arrived, StoredOf;
      if batches == [] { return Some(BadCall); }
      var ok := CheckBatches(batches);
      if !ok { return Some(BadCall); }
      for b := 0 to |batches|
        invariant forall j | 0 <= j < b :: batches[j].chainID !in store.leased
      {
        if batches[b].chainID in store.leased { return Some(Busy); }
      }
      var chains, heads;
      err, chains, heads := LinkChains(batches, runs);
      if err != None { return; }
      if writeFails { return Some(WriteFailed); }
      EachArrived(l, store.chains, batches, runs, |batches|);
      forall id | forall b <- batches :: b.chainID != id ensures StoredOf(chains, id) == StoredOf(store.chains, id) {
        NotYet(l, store.chains, batches, runs, |batches|, id);
      }
      store.chains, store.heads := chains, heads;
    }

    /** The transaction's callback: every chain linked from its tail, and its new head. */
    method LinkChains(batches: seq<ChainInputs>, runs: seq<string>)
      returns (err: Option<AppendError>, chains: map<string, seq<Entry>>, heads: map<string, Head>)
      requires |runs| == |batches| && DistinctChains(batches) && forall b <- batches :: CallOK(b)
      ensures AppendEach(l, store.chains, batches, runs, |batches|) == if err == None then Some(chains) else None
      ensures err == None ==> Recorded(chains, heads, batches, |batches|)
    {
      hide ValidBatch, AppendOnce, Link, Recorded, AppendEach, DistinctChains, CallOK, After, HeadOf;
      chains, heads := store.chains, store.heads;
      NoneYet(l, chains, heads, batches, runs);
      for b := 0 to |batches|
        invariant AppendEach(l, store.chains, batches, runs, b) == Some(chains) && Recorded(chains, heads, batches, b)
      {
        var id := batches[b].chainID;
        var stored := StoredOf(store.chains, id);
        EachStep(l, store.chains, batches, runs, b);
        var o := LinkBatch(After(id, stored, runs[b]), Sorted(batches[b].inputs));
        match o {
          case Refused(e) =>
            EachRefused(l, store.chains, batches, runs, b + 1, |batches|);
            return Some(LinkRefused(e)), chains, heads;
          case Linked(entries) =>
            RecordedMore(chains, heads, batches, b, stored, entries);
            chains := chains[id := stored + entries];
            heads := heads[id := HeadOf(entries)];
        }
      }
      err := None;
    }

    /** Every batch of a call on its own, and no chain twice. */
    method CheckBatches(batches: seq<ChainInputs>) returns (ok: bool)
      ensures ok <==> (forall b <- batches :: CallOK(b)) && DistinctChains(batches)
    {
      hide InputOK, DistinctIds;
      CallIs();
      hide CallOK;
      var seen: set<string> := {};
      for i := 0 to |batches|
        invariant forall b <- batches[..i] :: CallOK(b)
        invariant seen == set j | 0 <= j < i :: batches[j].chainID
        invariant DistinctChains(batches[..i])
      {
        assert batches[..i + 1] == batches[..i] + [batches[i]];
        if batches[i].chainID == "" { return false; }
        if batches[i].chainID in seen {
          ghost var j :| 0 <= j < i && batches[j].chainID == batches[i].chainID;
          return false;
        }
        seen := seen + {batches[i].chainID};
        if batches[i].inputs == [] { return false; }
        var valid := ValidateBatch(batches[i].inputs);
        if !valid { return false; }
      }
      assert batches[..|batches|] == batches;
      ok := true;
    }
  }

  lemma CallIs()
    ensures forall b: ChainInputs :: CallOK(b) <==> b.chainID != "" && b.inputs != [] && (forall x <- b.inputs :: InputOK(x)) && DistinctIds(b.inputs)
  {
    hide InputOK, DistinctIds;
  }

  function RunOf(runID: Option<string>): string {
    match runID case Some(r) => r case None => ""
  }

  lemma NothingLinkedYet(l: Settings, p: Place, batch: seq<Input>)
    ensures LinkFirst(l, p, batch, 0) == Linked([]) && Link(l, p, batch) == LinkFirst(l, p, batch, |batch|)
  {
  }

  lemma LinkStep(l: Settings, p: Place, batch: seq<Input>, i: nat, entries: seq<Entry>)
    requires i < |batch| && LinkFirst(l, p, batch, i) == Linked(entries)
    ensures LinkFirst(l, p, batch, i + 1) == match ChainHashOf(l, LastHash(p, entries), p.runID, i, Wrap64(p.next + i), batch[i])
              case None => Refused(BadHashInput(i))
              case Some(hash) =>
                if batch[i].expected != "" && batch[i].expected != hash then Refused(UnexpectedHash(i))
                else Linked(entries + [EntryOf(l, p, LastHash(p, entries), i, batch[i], hash)])
    ensures forall hash :: EntryOf(l, p, LastHash(p, entries), i, batch[i], hash).chainHash == hash
  {
    hide ChainHashOf;
  }

  /** What is refused early is refused. */
  lemma StopsAt(l: Settings, p: Place, batch: seq<Input>, n: nat)
    requires n <= |batch| && LinkFirst(l, p, batch, n).Refused?
    ensures Link(l, p, batch) == LinkFirst(l, p, batch, n)
  {
    hide LinkOne;
    RefusedSame(l, p, batch, n, |batch|);
  }

  lemma {:induction false} RefusedSame(l: Settings, p: Place, batch: seq<Input>, n: nat, m: nat)
    requires n <= m <= |batch| && LinkFirst(l, p, batch, n).Refused?
    ensures LinkFirst(l, p, batch, m) == LinkFirst(l, p, batch, n)
  {
    hide LinkOne;
    if n < m { RefusedSame(l, p, batch, n, m - 1); }
  }
}
