/** The whole bundle: duplicate chain ids, every chain on its own, one verdict. */
module BundleVerifier {
  import opened Text
  import opened Basics
  import opened Bundles
  import opened Tallies
  import opened Verdicts
  import opened ChainVerifier

  function Worse(a: Verdict, b: Verdict): Verdict {
    if a == Failed || b == Failed then Failed else if a == Unauthenticated || b == Unauthenticated then Unauthenticated else Ok
  }

  function Copies(chains: seq<RawChain>, id: string): nat {
    if chains == [] then 0 else Copies(chains[..|chains| - 1], id) + if chains[|chains| - 1].id == id then 1 else 0
  }

  lemma {:induction false} CopiesTell(chains: seq<RawChain>, id: string)
    ensures Copies(chains, id) > 0 <==> exists c <- chains :: c.id == id
  {
    if chains != [] {
      var init, last := chains[..|chains| - 1], chains[|chains| - 1];
      assert chains == init + [last] && last in chains;
      CopiesTell(init, id);
    }
  }

  predicate DistinctChains(chains: seq<RawChain>) {
    forall i, j | 0 <= i < j < |chains| :: chains[i].id != chains[j].id
  }

  /** An id counted once belongs to one chain. */
  lemma {:induction false} CountedOnce(chains: seq<RawChain>, i: nat, j: nat)
    requires i < j < |chains| && chains[i].id == chains[j].id
    ensures Copies(chains, chains[i].id) >= 2
  {
    var n := |chains| - 1;
    if j < n {
      CountedOnce(chains[..n], i, j);
    } else {
      assert chains[i] in chains[..n];
      CopiesTell(chains[..n], chains[i].id);
    }
  }

  /** The key of a chain's result. */
  function KeyOf(chains: seq<RawChain>, i: nat): string
    requires i < |chains|
  {
    if !ChainIdOK(chains[i].id) || Copies(chains, chains[i].id) > 1 then "#" + Decimal(i) else chains[i].id
  }

  /** No two results share a key, whatever ids the bundle holds. */
  lemma KeysDistinct(chains: seq<RawChain>, i: nat, j: nat)
    requires i < j < |chains|
    ensures KeyOf(chains, i) != KeyOf(chains, j)
  {
    if chains[i].id == chains[j].id { CountedOnce(chains, i, j); }
    var a, b := KeyOf(chains, i), KeyOf(chains, j);
    if a == b {
      assert a[0] == '#' && b[0] == '#';
      assert a[1..] == Decimal(i) && b[1..] == Decimal(j);
      DecimalInjective(i, j);
    }
  }

  /** The problems of the bundle itself: every chain whose id an earlier one has, at its position. */
  function FoundCopies(chains: seq<RawChain>, n: nat): seq<Found>
    requires n <= |chains|
  {
    if n == 0 then []
    else FoundCopies(chains, n - 1) + if Copies(chains[..n - 1], chains[n - 1].id) > 0 then [(DuplicateChain, Some(n - 1))] else []
  }

  /** Every copy of a repeated id is counted, at its position. */
  method CountCopies(chains: seq<RawChain>) returns (copies: map<string, nat>, duplicates: Tally)
    ensures fresh(duplicates) && duplicates.Valid() && (duplicates.problems != map[] <==> !DistinctChains(chains))
    ensures duplicates.found == FoundCopies(chains, |chains|)
    ensures forall i | 0 <= i < |chains| :: chains[i].id in copies && copies[chains[i].id] == Copies(chains, chains[i].id)
  {
    hide Tells, DistinctChains, Copies;
    copies := map[];
    duplicates := new Tally();
    NoneFound(duplicates.problems, []);
    NoChains(chains);
    var i := 0;
    while i < |chains|
      invariant 0 <= i <= |chains| && fresh(duplicates) && duplicates.Valid()
      invariant forall id :: (id in copies <==> Copies(chains[..i], id) > 0) && (id in copies ==> copies[id] == Copies(chains[..i], id))
      invariant duplicates.found == [] <==> DistinctChains(chains[..i])
      invariant duplicates.found == FoundCopies(chains, i)
    {
      var id := chains[i].id;
      OneMoreCopy(chains, i);
      RepeatTells(chains, i);
      copies := copies[id := (if id in copies then copies[id] else 0) + 1];
      if copies[id] > 1 { duplicates.Add(DuplicateChain, i); }
      i := i + 1;
    }
    assert chains[..i] == chains;
    NoneFound(duplicates.problems, duplicates.found);
    forall j | 0 <= j < |chains| ensures chains[j].id in copies {
      CopiesTell(chains, chains[j].id);
    }
  }

  lemma NoChains(chains: seq<RawChain>)
    ensures DistinctChains(chains[..0]) && forall id :: Copies(chains[..0], id) == 0
  {
  }

  lemma OneMoreCopy(chains: seq<RawChain>, i: nat)
    requires i < |chains|
    ensures forall id :: Copies(chains[..i + 1], id) == Copies(chains[..i], id) + if id == chains[i].id then 1 else 0
  {
    assert chains[..i + 1][..i] == chains[..i];
  }

  /**
   * A readable bundle's verdict: ok exactly when it holds a chain, no id twice,
   * and every chain is ok; failed exactly when an id repeats or a chain failed.
   */
  method VerifyBundle(t: Trust, chains: seq<RawChain>)
    returns (verdict: Verdict, results: seq<ChainResult>, keys: seq<string>, problems: map<Code, Problem>)
    ensures |results| == |keys| == |chains| && Tells(problems, FoundCopies(chains, |chains|))
    ensures forall i | 0 <= i < |chains| :: Told(t, chains[i], results[i]) && keys[i] == KeyOf(chains, i)
    ensures verdict == Ok <==> chains != [] && DistinctChains(chains) && forall i | 0 <= i < |chains| :: VerdictOf(t, chains[i]) == Ok
    ensures verdict == Failed <==> !DistinctChains(chains) || exists i | 0 <= i < |chains| :: VerdictOf(t, chains[i]) == Failed
  {
    hide VerdictOf, ChainIdOK, CountsOf, ErasureOf, AllFound, Tells, DistinctChains, Copies, FoundCopies, Worse, WorstOf, Told, KeyOf;
    var copies, duplicates := CountCopies(chains);
    problems := duplicates.problems;
    var failed := problems != map[];
    verdict, results, keys := if chains == [] then Unauthenticated else Ok, [], [];
    WorstNone(t, chains);
    var i := 0;
    while i < |chains|
      invariant 0 <= i <= |chains| && |results| == |keys| == i
      invariant forall j | 0 <= j < i :: Told(t, chains[j], results[j]) && keys[j] == KeyOf(chains, j)
      invariant WorstOf(t, chains, i, verdict)
    {
      WorstOn(t, chains, i, verdict);
      var cr, valid := CheckChain(t, chains[i]);
      ToldNow(t, chains[i], cr);
      KeyNow(chains, i);
      results := results + [cr];
      keys := keys + [if !valid || copies[chains[i].id] > 1 then "#" + Decimal(i) else chains[i].id];
      verdict := Worse(verdict, cr.verdict);
      i := i + 1;
    }
    WorstIs(t, chains, verdict);
    if failed { verdict := Failed; }
  }

  /** Everything a result says of its chain is so. */
  predicate Told(t: Trust, c: RawChain, cr: ChainResult) {
    cr.verdict == VerdictOf(t, c) && cr.counts == CountsOf(t, c) && cr.erasure == ErasureOf(t, c) && Tells(cr.problems, AllFound(t, c))
  }

  lemma ToldNow(t: Trust, c: RawChain, cr: ChainResult)
    ensures Told(t, c, cr) <==> cr.verdict == VerdictOf(t, c) && cr.counts == CountsOf(t, c) && cr.erasure == ErasureOf(t, c)
                                && Tells(cr.problems, AllFound(t, c))
  {
    hide VerdictOf, CountsOf, ErasureOf, AllFound, Tells;
  }

  lemma KeyNow(chains: seq<RawChain>, i: nat)
    requires i < |chains|
    ensures KeyOf(chains, i) == if !ChainIdOK(chains[i].id) || Copies(chains, chains[i].id) > 1 then "#" + Decimal(i) else chains[i].id
  {
    hide ChainIdOK, Copies;
  }

  lemma WorstNone(t: Trust, chains: seq<RawChain>)
    ensures WorstOf(t, chains, 0, if chains == [] then Unauthenticated else Ok)
  {
    hide VerdictOf;
  }

  lemma WorstIs(t: Trust, chains: seq<RawChain>, verdict: Verdict)
    requires WorstOf(t, chains, |chains|, verdict)
    ensures verdict == Ok <==> chains != [] && forall i | 0 <= i < |chains| :: VerdictOf(t, chains[i]) == Ok
    ensures verdict == Failed <==> exists i | 0 <= i < |chains| :: VerdictOf(t, chains[i]) == Failed
  {
    hide VerdictOf;
  }

  /** The worst verdict of the first chains; a bundle without any is never ok. */
  predicate WorstOf(t: Trust, chains: seq<RawChain>, n: nat, verdict: Verdict)
    requires n <= |chains|
  {
    (verdict == Ok <==> chains != [] && forall j | 0 <= j < n :: VerdictOf(t, chains[j]) == Ok)
    && (verdict == Failed <==> exists j | 0 <= j < n :: VerdictOf(t, chains[j]) == Failed)
  }

  lemma WorstOn(t: Trust, chains: seq<RawChain>, n: nat, verdict: Verdict)
    requires n < |chains| && WorstOf(t, chains, n, verdict)
    ensures WorstOf(t, chains, n + 1, Worse(verdict, VerdictOf(t, chains[n])))
  {
    hide VerdictOf;
  }

  lemma RepeatTells(chains: seq<RawChain>, i: nat)
    requires i < |chains|
    ensures DistinctChains(chains[..i + 1]) <==> DistinctChains(chains[..i]) && Copies(chains[..i], chains[i].id) == 0
  {
    CopiesTell(chains[..i], chains[i].id);
    var now, was := chains[..i + 1], chains[..i];
    if DistinctChains(now) {
      forall c | c in was ensures c.id != chains[i].id {
        var j :| 0 <= j < i && was[j] == c;
        assert now[j].id != now[i].id;
      }
      assert DistinctChains(was) by {
        forall a, b | 0 <= a < b < |was| ensures was[a].id != was[b].id { assert now[a].id != now[b].id; }
      }
    }
    if DistinctChains(was) && Copies(was, chains[i].id) == 0 {
      forall a, b | 0 <= a < b < |now| ensures now[a].id != now[b].id {
        assert was[a] in was;
        if b < i { assert was[a].id != was[b].id; }
      }
    }
  }
}
