/** RFC 9162 section 2.1.3: inclusion proofs. */
module Inclusion {
  import opened Basics
  import opened Merkle

  function InclusionProof(m: int, leaves: seq<Bytes>): Option<seq<Digest>> {
    if |leaves| == 0 || m < 0 || m >= |leaves| then None
    else Some(InclusionPath(m, leaves))
  }

  function InclusionPath(m: nat, leaves: seq<Bytes>): seq<Digest>
    requires m < |leaves|
    decreases |leaves|
  {
    if |leaves| == 1 then []
    else
      var k := Split(|leaves|);
      if m < k then InclusionPath(m, leaves[..k]) + [RootFromLeaves(leaves[k..])]
      else InclusionPath(m - k, leaves[k..]) + [RootFromLeaves(leaves[..k])]
  }

  function RootFromInclusion(leafHash: Digest, m: nat, n: nat, proof: seq<Digest>): Option<Digest>
    requires m < n
    decreases n
  {
    if n == 1 then
      if |proof| != 0 then None else Some(leafHash)
    else if |proof| == 0 then None
    else
      var sibling, rest := proof[|proof| - 1], proof[..|proof| - 1];
      var k := Split(n);
      if m < k then
        match RootFromInclusion(leafHash, m, k, rest)
        case None => None
        case Some(left) => Some(NodeHash(left, sibling))
      else
        match RootFromInclusion(leafHash, m - k, n - k, rest)
        case None => None
        case Some(right) => Some(NodeHash(sibling, right))
  }

  predicate VerifyInclusion(leafHash: Digest, m: int, treeSize: int, proof: seq<Digest>, root: Digest) {
    0 <= m < treeSize && RootFromInclusion(leafHash, m, treeSize, proof) == Some(root)
  }

  /**
   * Complete, sound and unique: against the root of a leaf list, exactly one
   * leaf hash and one path are accepted at each index, and none outside it.
   */
  lemma InclusionExact(leafHash: Digest, m: int, leaves: seq<Bytes>, proof: seq<Digest>)
    ensures VerifyInclusion(leafHash, m, |leaves|, proof, RootFromLeaves(leaves)) <==>
            0 <= m < |leaves| && leafHash == LeafHash(leaves[m]) && InclusionProof(m, leaves) == Some(proof)
  {
    if 0 <= m < |leaves| {
      RebuildsLeaf(leafHash, m, leaves, proof);
    }
  }

  lemma {:induction false} RebuildsLeaf(leafHash: Digest, m: nat, leaves: seq<Bytes>, proof: seq<Digest>)
    requires m < |leaves|
    ensures RootFromInclusion(leafHash, m, |leaves|, proof) == Some(RootFromLeaves(leaves)) <==>
            leafHash == LeafHash(leaves[m]) && proof == InclusionPath(m, leaves)
    decreases |leaves|
  {
    if |leaves| > 1 && proof != [] {
      var k := Split(|leaves|);
      var rest, sibling := proof[..|proof| - 1], proof[|proof| - 1];
      assert proof == rest + [sibling];
      if m < k {
        RebuildsLeaf(leafHash, m, leaves[..k], rest);
      } else {
        RebuildsLeaf(leafHash, m - k, leaves[k..], rest);
      }
    }
  }

  function CeilLog2(n: nat): nat {
    if n <= 1 then 0 else 1 + CeilLog2((n + 1) / 2)
  }

  lemma {:induction false} CeilLog2Monotone(a: nat, b: nat)
    requires a <= b
    ensures CeilLog2(a) <= CeilLog2(b)
    decreases b
  {
    if a > 1 {
      CeilLog2Monotone((a + 1) / 2, (b + 1) / 2);
    }
  }

  lemma CeilLog2Double(k: nat)
    requires k >= 1
    ensures CeilLog2(2 * k) == 1 + CeilLog2(k)
  {
    assert (2 * k + 1) / 2 == k;
  }

  /** Both halves of a tree are one level lower. */
  lemma {:induction false} CeilLog2Split(n: nat)
    requires n > 1
    ensures CeilLog2(Split(n)) == CeilLog2(n) - 1
  {
    if n > 2 {
      CeilLog2Split((n + 1) / 2);
      CeilLog2Double(Split((n + 1) / 2));
    }
  }

  lemma {:induction false} InclusionLength(m: nat, leaves: seq<Bytes>)
    requires m < |leaves|
    ensures |InclusionPath(m, leaves)| <= CeilLog2(|leaves|)
    decreases |leaves|
  {
    hide CeilLog2, RootFromLeaves, IsPow2;
    if |leaves| > 1 {
      var k := Split(|leaves|);
      CeilLog2Split(|leaves|);
      CeilLog2Monotone(|leaves| - k, k);
      if m < k {
        InclusionLength(m, leaves[..k]);
      } else {
        InclusionLength(m - k, leaves[k..]);
      }
    }
  }
}
