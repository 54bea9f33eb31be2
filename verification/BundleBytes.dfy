/** A bundle from its bytes to its verdict: read, every checkpoint's text parsed, every chain verified. */
module BundleBytes {
  import opened Basics
  import opened Bundles
  import opened Verdicts
  import Tallies
  import F = Findings
  import J = JsonTree
  import NameArena
  import BundleAnswer
  import BundleDecode
  import BundleVerifier
  import CheckpointText
  import CheckpointReading

  function RawPairOf(p: Option<F.Pair>): Option<RawPair> {
    match p case Some(q) => Some(RawPair(Latin(q.a), Latin(q.b))) case None => None
  }

  function RawOf(e: F.EntryRead): RawEntry
    requires |e.fields| == 7
  {
    RawEntry(Latin(e.fields[0]), Latin(e.fields[1]), Latin(e.fields[2]), Latin(e.fields[3]), Latin(e.fields[4]), Latin(e.fields[5]),
             Latin(e.fields[6]), RawPairOf(e.sig), RawPairOf(e.disclosed))
  }

  function RawEntries(es: seq<F.EntryRead>): (r: seq<RawEntry>)
    requires forall e <- es :: |e.fields| == 7
    ensures |r| == |es| && forall i | 0 <= i < |es| :: r[i] == RawOf(es[i])
  {
    seq(|es|, i requires 0 <= i < |es| => RawOf(es[i]))
  }

  /** What a chain's checkpoint texts mean, one by one. */
  function ParsedTexts(w: World, texts: seq<Option<Bytes>>): (r: seq<Option<Checkpoint>>)
    ensures |r| == |texts|
    ensures forall i | 0 <= i < |r| :: r[i] == match texts[i] case None => None case Some(b) => CheckpointText.Meaning(w, b)
  {
    seq(|texts|, i requires 0 <= i < |texts| => match texts[i] case None => None case Some(b) => CheckpointText.Meaning(w, b))
  }

  predicate AllFields(cs: seq<F.ChainRead>) {
    forall c <- cs :: forall e <- c.entries :: |e.fields| == 7
  }

  function RawChains(w: World, cs: seq<F.ChainRead>): (r: seq<RawChain>)
    requires AllFields(cs)
    ensures |r| == |cs| && forall i | 0 <= i < |cs| :: r[i] == RawChain(Latin(cs[i].id), RawEntries(cs[i].entries), ParsedTexts(w, cs[i].checkpoints))
  {
    seq(|cs|, i requires 0 <= i < |cs| => RawChain(Latin(cs[i].id), RawEntries(cs[i].entries), ParsedTexts(w, cs[i].checkpoints)))
  }

  lemma {:induction false} EntriesFields(es: seq<J.Json>)
    ensures forall e <- BundleDecode.DecodeEntries(es) :: |e.fields| == 7
  {
    if es != [] { EntriesFields(es[..|es| - 1]); }
  }

  lemma {:induction false} ChainsFields(env: F.Env, es: seq<J.Json>)
    ensures AllFields(BundleDecode.DecodeChains(env, es))
  {
    hide BundleDecode.DecodeEntries;
    if es != [] {
      ChainsFields(env, es[..|es| - 1]);
      var last := es[|es| - 1];
      if last.Obj? { EntriesFields(BundleDecode.ArrayAtMember(F.Chain, last.members, 1)); }
    }
  }

  lemma ReadFields(data: Bytes, env: F.Env)
    ensures BundleAnswer.Judge(data, env).Read? ==> AllFields(BundleAnswer.Judge(data, env).chains)
  {
    hide BundleDecode.DecodeChains, J.Document, J.HasDuplicate, J.CountValues, BundleDecode.MemberAt;
    var a := BundleAnswer.Judge(data, env);
    if a.Read? {
      var ms := J.Document(data, env.lim.depth).value.members;
      ChainsFields(env, BundleDecode.ArrayAtMember(F.Bundle, ms, 1));
    }
  }

  datatype Report = Unread(reason: F.Reason) | Verified(verdict: Verdict, results: seq<ChainResult>, keys: seq<string>, problems: map<Tallies.Code, Tallies.Problem>)

  /** What a report must say of a bundle that was read. */
  ghost predicate Right(t: Trust, chains: seq<RawChain>, r: Report) {
    && r.Verified? && |r.results| == |r.keys| == |chains| && Tallies.Tells(r.problems, BundleVerifier.FoundCopies(chains, |chains|))
    && (forall i | 0 <= i < |chains| :: BundleVerifier.Told(t, chains[i], r.results[i]) && r.keys[i] == BundleVerifier.KeyOf(chains, i))
    && (r.verdict == Ok <==> chains != [] && BundleVerifier.DistinctChains(chains) && forall i | 0 <= i < |chains| :: VerdictOf(t, chains[i]) == Ok)
    && (r.verdict == Failed <==> !BundleVerifier.DistinctChains(chains) || exists i | 0 <= i < |chains| :: VerdictOf(t, chains[i]) == Failed)
  }

  method ParseTexts(w: World, texts: seq<Option<Bytes>>) returns (cks: seq<Option<Checkpoint>>)
    ensures cks == ParsedTexts(w, texts)
  {
    hide CheckpointText.Meaning;
    cks := [];
    for i := 0 to |texts|
      invariant |cks| == i && forall j | 0 <= j < i :: cks[j] == ParsedTexts(w, texts)[j]
    {
      var ck := CheckpointReading.ParseCheckpoint(w, texts[i]);
      cks := cks + [ck];
    }
  }

  /** VerifyWithLimits: the reason a bundle cannot be read, or the verdict on exactly the chains it holds. */
  method Verify(t: Trust, data: Bytes, env: F.Env) returns (r: Report)
    requires env.lim.bundleBytes <= NameArena.MAX_INPUT
    ensures match BundleAnswer.Judge(data, env)
            case Unreadable(reason) => r == Unread(reason)
            case Read(chains) => AllFields(chains) && Right(t, RawChains(t.world, chains), r)
  {
    hide BundleAnswer.Judge, VerdictOf, BundleVerifier.DistinctChains, BundleVerifier.KeyOf, BundleVerifier.Told, BundleVerifier.FoundCopies, Tallies.Tells;
    var a := BundleAnswer.ReadBundle(data, env);
    ReadFields(data, env);
    if a.Unreadable? { return Unread(a.reason); }
    var chains: seq<RawChain> := [];
    for i := 0 to |a.chains|
      invariant |chains| == i && forall j | 0 <= j < i :: chains[j] == RawChains(t.world, a.chains)[j]
    {
      var cks := ParseTexts(t.world, a.chains[i].checkpoints);
      assert a.chains[i] in a.chains;
      chains := chains + [RawChain(Latin(a.chains[i].id), RawEntries(a.chains[i].entries), cks)];
    }
    assert chains == RawChains(t.world, a.chains);
    var verdict, results, keys, problems := BundleVerifier.VerifyBundle(t, chains);
    r := Verified(verdict, results, keys, problems);
  }
}
