/** RFC 9162 section 2.1.1: the whole-tree reference every faster form is held to. */
module Merkle {
  import opened Basics

  /**
   * A 64-byte digest, up to collisions: the three domain-separated hashes are
   * distinct injective constructors, and Foreign is any digest that is none of
   * them (a proof or a root from an untrusted source may hold one).
   */
  datatype Digest =
    | EmptyRoot
    | LeafHash(data: Bytes)
    | NodeHash(left: Digest, right: Digest)
    | Foreign(tag: nat)

  predicate IsPow2(k: nat) {
    k == 1 || (k != 0 && k % 2 == 0 && IsPow2(k / 2))
  }

  /** The RFC's split point of a tree of n > 1 leaves. */
  function Split(n: nat): (k: nat)
    requires n > 1
    ensures IsPow2(k) && 1 <= k < n <= 2 * k
  {
    if n == 2 then 1
    else
      var k := Split((n + 1) / 2);
      Pow2Double(k);
      2 * k
  }

  lemma Pow2Double(k: nat)
    requires IsPow2(k)
    ensures IsPow2(2 * k)
  {
    assert 2 * k / 2 == k;
  }

  lemma {:induction false} Pow2Gap(a: nat, b: nat)
    requires IsPow2(a) && IsPow2(b) && a < b
    ensures 2 * a <= b
  {
    if a != 1 {
      Pow2Gap(a / 2, b / 2);
    }
  }

  /** A power of two k with k < n <= 2k can only be the split point. */
  lemma SplitUnique(n: nat, k: nat)
    requires n > 1 && IsPow2(k) && k < n <= 2 * k
    ensures k == Split(n)
  {
    var s := Split(n);
    if k < s { Pow2Gap(k, s); }
    if s < k { Pow2Gap(s, k); }
  }

  /** The loop, on machine integers: the doubling never leaves their range. */
  method LargestPowerOfTwoLessThan(n: int64) returns (k: int64)
    requires n > 1
    ensures k > 0 && k as nat == Split(n as nat)
  {
    k := 1;
    while k <= (n - 1) / 2
      invariant 1 <= k <= n - 1 && IsPow2(k as nat)
    {
      k := k * 2;
    }
    SplitUnique(n as nat, k as nat);
  }

  function RootFromLeaves(leaves: seq<Bytes>): Digest {
    if |leaves| == 0 then EmptyRoot
    else if |leaves| == 1 then LeafHash(leaves[0])
    else
      var k := Split(|leaves|);
      NodeHash(RootFromLeaves(leaves[..k]), RootFromLeaves(leaves[k..]))
  }

  lemma RootOfNone()
    ensures RootFromLeaves([]) == EmptyRoot
  {
  }

  lemma RootOfMany(leaves: seq<Bytes>)
    requires |leaves| > 1
    ensures var k := Split(|leaves|);
            RootFromLeaves(leaves) == NodeHash(RootFromLeaves(leaves[..k]), RootFromLeaves(leaves[k..]))
  {
  }

  /** Two lists of one length with one root are one list. */
  lemma {:induction false} RootInjective(a: seq<Bytes>, b: seq<Bytes>)
    requires |a| == |b| && RootFromLeaves(a) == RootFromLeaves(b)
    ensures a == b
    decreases |a|
  {
    if |a| > 1 {
      var k := Split(|a|);
      RootInjective(a[..k], b[..k]);
      RootInjective(a[k..], b[k..]);
      assert a == a[..k] + a[k..] && b == b[..k] + b[k..];
    }
  }
}
