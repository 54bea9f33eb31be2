/**
 * RFC 9162 section 2.1.4: consistency proofs. The generator recurses from the
 * root; the verifier walks the bits of the two sizes from the leaves up.
 */
module Consistency {
  import opened Basics
  import opened Merkle

  // ---- The generator ----

  function ConsistencyProof(m: int, leaves: seq<Bytes>): Option<seq<Digest>> {
    if m < 0 || m > |leaves| then None
    else if m == 0 || m == |leaves| then Some([])
    else Some(SubProof(m, leaves, true))
  }

  function SubProof(m: nat, leaves: seq<Bytes>, b: bool): seq<Digest>
    requires 0 < m <= |leaves|
    decreases |leaves|
  {
    if m == |leaves| then
      if b then [] else [RootFromLeaves(leaves)]
    else
      var k := Split(|leaves|);
      if m <= k then SubProof(m, leaves[..k], b) + [RootFromLeaves(leaves[k..])]
      else SubProof(m - k, leaves[k..], false) + [RootFromLeaves(leaves[..k])]
  }

  // ---- What a proof means, from the root down ----

  function Joined(h1: Digest, h2: Digest, p: Digest, left: bool): (Digest, Digest) {
    if left then (NodeHash(p, h1), NodeHash(p, h2)) else (h1, NodeHash(h2, p))
  }

  /** Two roots with one more sibling above, on the right of the new root only, or on the left of both. */
  function Above(roots: Option<(Digest, Digest)>, p: Digest, left: bool): Option<(Digest, Digest)> {
    match roots
    case None => None
    case Some(r) => Some(Joined(r.0, r.1, p, left))
  }

  /**
   * The old and the new root a proof spells for sizes m and n, given the root
   * of the subtree where the two trees meet: each level takes the last node.
   */
  function Rebuild(m: nat, n: nat, seed: Digest, proof: seq<Digest>): Option<(Digest, Digest)>
    requires 0 < m <= n
    decreases n
  {
    if m == n then
      if proof == [] then Some((seed, seed)) else None
    else if proof == [] then None
    else
      var k := Split(n);
      var rest, p := proof[..|proof| - 1], proof[|proof| - 1];
      if m <= k then Above(Rebuild(m, k, seed, rest), p, false)
      else Above(Rebuild(m - k, n - k, seed, rest), p, true)
  }

  /** When a verifier must accept: the proof rebuilds exactly the two given roots. */
  predicate Accepts(m: int, n: int, rootA: Digest, rootB: Digest, proof: seq<Digest>) {
    if m < 0 || n < 0 || m > n then false
    else if m == n then proof == [] && rootA == rootB
    else if m == 0 then proof == [] && rootA == EmptyRoot
    else if proof == [] then false
    else if IsPow2(m) then Rebuild(m, n, rootA, proof) == Some((rootA, rootB))
    else Rebuild(m, n, proof[0], proof[1..]) == Some((rootA, rootB))
  }

  // ---- The verifier's walk ----

  /** The first climb: while node is a right child. */
  function Strip(node: nat, last: nat): (nat, nat) {
    if node % 2 == 1 then Strip(node / 2, last / 2) else (node, last)
  }

  /** The climb along the left spine after a left sibling was consumed. */
  function Climb(node: nat, last: nat): (nat, nat) {
    if node % 2 == 0 && node != 0 then Climb(node / 2, last / 2) else (node, last)
  }

  /** The next proof node is a left sibling: node is a right child, or the last node of its level. */
  predicate FromLeft(node: nat, last: nat) {
    node % 2 == 1 || node == last
  }

  /** Where one turn of the loop leaves the two positions. */
  function Up(node: nat, last: nat): (nat, nat) {
    var at := if FromLeft(node, last) then Climb(node, last) else (node, last);
    (at.0 / 2, at.1 / 2)
  }

  /** What is left of the loop at a given state. */
  function Walk(node: nat, last: nat, h1: Digest, h2: Digest, proof: seq<Digest>): Option<(Digest, Digest)>
    decreases |proof|
  {
    if proof == [] then
      if last == 0 then Some((h1, h2)) else None
    else if last == 0 then None
    else
      var up, roots := Up(node, last), Joined(h1, h2, proof[0], FromLeft(node, last));
      Walk(up.0, up.1, roots.0, roots.1, proof[1..])
  }

  lemma WalkTurn(node: nat, last: nat, h1: Digest, h2: Digest, proof: seq<Digest>)
    requires proof != [] && last != 0
    ensures var up, roots := Up(node, last), Joined(h1, h2, proof[0], FromLeft(node, last));
            Walk(node, last, h1, h2, proof) == Walk(up.0, up.1, roots.0, roots.1, proof[1..])
  {
  }

  /** The rest of the proof, from idx on, leads the walk to the two roots. */
  ghost predicate Leads(node: nat, last: nat, h1: Digest, h2: Digest, proof: seq<Digest>, idx: nat, rootA: Digest, rootB: Digest)
    requires idx <= |proof|
  {
    Walk(node, last, h1, h2, proof[idx..]) == Some((rootA, rootB))
  }

  /** One turn of the loop, at the next hash of the proof. */
  lemma LeadsOn(node: nat, last: nat, h1: Digest, h2: Digest, proof: seq<Digest>, idx: nat, rootA: Digest, rootB: Digest)
    requires idx < |proof|
    ensures Leads(node, last, h1, h2, proof, idx, rootA, rootB)
       <==> last != 0
            && if node % 2 == 1 || node == last then
                 var at := Climb(node, last);
                 Leads(at.0 / 2, at.1 / 2, NodeHash(proof[idx], h1), NodeHash(proof[idx], h2), proof, idx + 1, rootA, rootB)
               else Leads(node / 2, last / 2, h1, NodeHash(h2, proof[idx]), proof, idx + 1, rootA, rootB)
  {
    hide Climb, Walk;
    assert proof[idx..][1..] == proof[idx + 1..];
    if last != 0 { WalkTurn(node, last, h1, h2, proof[idx..]); } else { WalkPast(node, h1, h2, proof[idx..]); }
  }

  lemma WalkPast(node: nat, h1: Digest, h2: Digest, proof: seq<Digest>)
    requires proof != []
    ensures Walk(node, 0, h1, h2, proof) == None
  {
  }

  /** Where the proof ends. */
  lemma LeadsTo(node: nat, last: nat, h1: Digest, h2: Digest, proof: seq<Digest>, rootA: Digest, rootB: Digest)
    ensures Leads(node, last, h1, h2, proof, |proof|, rootA, rootB) <==> last == 0 && h1 == rootA && h2 == rootB
  {
  }

  method ClimbRightChildren(m: nat, n: nat) returns (node: nat, lastNode: nat)
    ensures (node, lastNode) == Strip(m, n)
  {
    node, lastNode := m, n;
    while node % 2 == 1
      invariant Strip(node, lastNode) == Strip(m, n)
      decreases node
    {
      node := node / 2;
      lastNode := lastNode / 2;
    }
  }

  method ClimbLeftSpine(m: nat, n: nat) returns (node: nat, lastNode: nat)
    ensures (node, lastNode) == Climb(m, n)
  {
    node, lastNode := m, n;
    while node % 2 == 0 && node != 0
      invariant Climb(node, lastNode) == Climb(m, n)
      decreases node
    {
      node := node / 2;
      lastNode := lastNode / 2;
    }
  }

  /** What is decided before the walk. */
  lemma AcceptsEarly(m: int, n: int, rootA: Digest, rootB: Digest, proof: seq<Digest>)
    ensures m < 0 || n < 0 || m > n ==> !Accepts(m, n, rootA, rootB, proof)
    ensures 0 <= m == n ==> (Accepts(m, n, rootA, rootB, proof) <==> |proof| == 0 && rootA == rootB)
    ensures 0 == m < n ==> (Accepts(m, n, rootA, rootB, proof) <==> |proof| == 0 && rootA == EmptyRoot)
    ensures 0 < m < n && |proof| == 0 ==> !Accepts(m, n, rootA, rootB, proof)
  {
  }

  /** The iterative verifier accepts exactly what the recursive reading accepts. */
  method VerifyConsistency(m: int, n: int, rootA: Digest, rootB: Digest, proof: seq<Digest>) returns (ok: bool)
    ensures ok == Accepts(m, n, rootA, rootB, proof)
  {
    AcceptsEarly(m, n, rootA, rootB, proof);
    hide Accepts, Strip, Climb, Leads;
    if m < 0 || n < 0 || m > n {
      return false;
    }
    if m == n {
      return |proof| == 0 && rootA == rootB;
    }
    if m == 0 {
      return |proof| == 0 && rootA == EmptyRoot;
    }
    if |proof| == 0 {
      return false;
    }
    WalkDecides(m, n, rootA, rootB, proof);
    var node, lastNode := ClimbRightChildren(m - 1, n - 1);
    var hash1, hash2, idx := rootA, rootA, 0;
    if node > 0 {
      hash1, hash2, idx := proof[0], proof[0], 1;
    }
    while idx < |proof|
      invariant 0 <= idx <= |proof|
      invariant Accepts(m, n, rootA, rootB, proof) <==> Leads(node, lastNode, hash1, hash2, proof, idx, rootA, rootB)
    {
      LeadsOn(node, lastNode, hash1, hash2, proof, idx, rootA, rootB);
      if lastNode == 0 {
        return false;
      }
      var p := proof[idx];
      if node % 2 == 1 || node == lastNode {
        hash1 := NodeHash(p, hash1);
        hash2 := NodeHash(p, hash2);
        node, lastNode := ClimbLeftSpine(node, lastNode);
      } else {
        hash2 := NodeHash(hash2, p);
      }
      node := node / 2;
      lastNode := lastNode / 2;
      idx := idx + 1;
    }
    LeadsTo(node, lastNode, hash1, hash2, proof, rootA, rootB);
    if lastNode != 0 {
      return false;
    }
    return hash1 == rootA && hash2 == rootB;
  }

  /** The first climb ends at the root exactly when the old size is a power of two. */
  lemma {:induction false} StripZero(m: nat, n: nat)
    requires 0 < m <= n
    ensures Strip(m - 1, n - 1).0 == 0 <==> IsPow2(m)
    decreases m
  {
    if m % 2 == 0 {
      assert (m - 1) / 2 == m / 2 - 1 && (n - 1) / 2 == (n - 1) / 2 + 1 - 1;
      StripZero(m / 2, (n - 1) / 2 + 1);
    }
  }

  /** Inside a left subtree of w leaves, the walk is that subtree's walk and then one right sibling. */
  lemma {:induction false} WalkLeft(node: nat, w: nat, last: nat, h1: Digest, h2: Digest,
                                    rest: seq<Digest>, p: Digest)
    requires IsPow2(w) && node < w <= last < 2 * w
    ensures Walk(node, last, h1, h2, rest + [p]) == Above(Walk(node, w - 1, h1, h2, rest), p, false)
    decreases |rest|
  {
    var all := rest + [p];
    assert rest != [] ==> all[0] == rest[0] && all[1..] == rest[1..] + [p];
    if rest != [] && w > 1 {
      assert (w - 1) / 2 == w / 2 - 1;
      if node % 2 == 1 {
        WalkLeft(node / 2, w / 2, last / 2, NodeHash(rest[0], h1), NodeHash(rest[0], h2), rest[1..], p);
      } else {
        WalkLeft(node / 2, w / 2, last / 2, h1, NodeHash(h2, rest[0]), rest[1..], p);
      }
    }
  }

  lemma {:induction false} ClimbPow2(w: nat)
    requires IsPow2(w)
    ensures Climb(w, w) == (1, 1)
  {
    if w > 1 {
      ClimbPow2(w / 2);
    }
  }

  /** Where a climb ends, with and without the leading bit w: the bits below it decide. */
  lemma {:induction false} ClimbShift(node: nat, w: nat) returns (x: nat, v: nat)
    requires IsPow2(w) && 0 < node < w
    ensures IsPow2(v) && x % 2 == 1 && x < v
    ensures Climb(node, node) == (x, x) && Climb(node + w, node + w) == (x + v, x + v)
  {
    if node % 2 == 1 {
      x, v := node, w;
    } else {
      assert (node + w) / 2 == node / 2 + w / 2;
      x, v := ClimbShift(node / 2, w / 2);
    }
  }

  /** One turn of the loop, with and without the leading bit w. */
  lemma UpShift(node: nat, last: nat, w: nat) returns (v: nat)
    requires IsPow2(w) && node <= last < w && last != 0
    ensures FromLeft(node + w, last + w) == FromLeft(node, last)
    ensures var up := Up(node, last);
            IsPow2(v) && up.0 <= up.1 < v && Up(node + w, last + w) == (up.0 + v, up.1 + v)
  {
    if node % 2 == 0 && node == last {
      var x, u := ClimbShift(node, w);
      v := u / 2;
      assert (x + u) / 2 == x / 2 + v;
    } else {
      v := w / 2;
      assert (node + w) / 2 == node / 2 + v && (last + w) / 2 == last / 2 + v;
    }
  }

  lemma WalkRightEnd(node: nat, last: nat, w: nat, h1: Digest, h2: Digest, rest: seq<Digest>, p: Digest)
    requires IsPow2(w) && node <= last < w && (last == 0 || rest == [])
    ensures Walk(node + w, last + w, h1, h2, rest + [p]) == Above(Walk(node, last, h1, h2, rest), p, true)
  {
    WalkTurn(node + w, last + w, h1, h2, rest + [p]);
    if last == 0 {
      ClimbPow2(w);
      assert Up(w, w) == (0, 0);
    } else {
      var v := UpShift(node, last, w);
      hide Up, Climb, IsPow2;
      assert (rest + [p])[1..] == [];
    }
  }

  /** Inside a right subtree behind w leaves, the walk is that subtree's walk and then one left sibling. */
  lemma {:induction false} WalkRight(node: nat, last: nat, w: nat, h1: Digest, h2: Digest,
                                     rest: seq<Digest>, p: Digest)
    requires IsPow2(w) && node <= last < w
    ensures Walk(node + w, last + w, h1, h2, rest + [p]) == Above(Walk(node, last, h1, h2, rest), p, true)
    decreases |rest|
  {
    hide Walk, Up, Climb, IsPow2, Joined, Above, FromLeft;
    if last == 0 || rest == [] {
      WalkRightEnd(node, last, w, h1, h2, rest, p);
    } else {
      var all, up := rest + [p], Up(node, last);
      var v := UpShift(node, last, w);
      WalkTurn(node + w, last + w, h1, h2, all);
      WalkTurn(node, last, h1, h2, rest);
      assert all[0] == rest[0] && all[1..] == rest[1..] + [p];
      var g := Joined(h1, h2, rest[0], FromLeft(node, last));
      WalkRight(up.0, up.1, v, g.0, g.1, rest[1..], p);
    }
  }

  /** The first climb in a left subtree of w leaves, and in the tree around it. */
  lemma {:induction false} StripLeft(node: nat, w: nat, last: nat) returns (x: nat, v: nat, l: nat)
    requires IsPow2(w) && node < w <= last < 2 * w
    ensures IsPow2(v) && x < v <= l < 2 * v
    ensures Strip(node, last) == (x, l) && Strip(node, w - 1) == (x, v - 1)
  {
    if node % 2 == 0 {
      x, v, l := node, w, last;
    } else {
      assert (w - 1) / 2 == w / 2 - 1;
      x, v, l := StripLeft(node / 2, w / 2, last / 2);
    }
  }

  /** The first climb in a right subtree behind w leaves, and in the tree around it. */
  lemma {:induction false} StripRight(node: nat, last: nat, w: nat) returns (x: nat, l: nat, v: nat)
    requires IsPow2(w) && node <= last < w && node + 1 < w
    ensures IsPow2(v) && x <= l < v
    ensures Strip(node, last) == (x, l) && Strip(node + w, last + w) == (x + v, l + v)
  {
    hide IsPow2;
    Pow2Halves(w);
    if node % 2 == 0 {
      x, l, v := node, last, w;
    } else {
      assert (node + w) / 2 == node / 2 + w / 2 && (last + w) / 2 == last / 2 + w / 2;
      x, l, v := StripRight(node / 2, last / 2, w / 2);
    }
  }

  lemma Pow2Halves(w: nat)
    requires IsPow2(w)
    ensures w == 1 || (w % 2 == 0 && IsPow2(w / 2))
  {
  }

  lemma {:induction false} StripFull(w: nat)
    requires IsPow2(w)
    ensures Strip(w - 1, w - 1) == (0, 0)
  {
    if w > 1 {
      assert (w - 1) / 2 == w / 2 - 1;
      StripFull(w / 2);
    }
  }

  /** The last sibling decides one level: what it must be, on either side of the split. */
  lemma {:induction false} RebuildStep(m: nat, n: nat, seed: Digest, rest: seq<Digest>, p: Digest)
    requires 0 < m < n
    ensures Rebuild(m, n, seed, rest + [p]) ==
            var k := Split(n);
            if m <= k then Above(Rebuild(m, k, seed, rest), p, false)
            else Above(Rebuild(m - k, n - k, seed, rest), p, true)
  {
    assert (rest + [p])[..|rest|] == rest;
  }

  /** The bit walk from the leaf m - 1 rebuilds what the recursion from the root rebuilds. */
  predicate Agrees(m: nat, n: nat, seed: Digest, proof: seq<Digest>)
    requires 0 < m <= n
  {
    var start := Strip(m - 1, n - 1);
    Walk(start.0, start.1, seed, seed, proof) == Rebuild(m, n, seed, proof)
  }

  lemma AgreesEmpty(m: nat, n: nat, seed: Digest)
    requires 0 < m < n
    ensures Agrees(m, n, seed, [])
  {
    hide Strip, IsPow2;
    var k := Split(n);
    if m <= k {
      var _, _, _ := StripLeft(m - 1, k, n - 1);
    } else {
      var _, _, _ := StripRight(m - k - 1, n - k - 1, k);
    }
  }

  lemma AgreesLeft(m: nat, n: nat, seed: Digest, rest: seq<Digest>, p: Digest)
    requires 0 < m < n && m <= Split(n) && Agrees(m, Split(n), seed, rest)
    ensures Agrees(m, n, seed, rest + [p])
  {
    hide IsPow2, Strip, Walk, Rebuild, Above;
    RebuildStep(m, n, seed, rest, p);
    var x, v, l := StripLeft(m - 1, Split(n), n - 1);
    WalkLeft(x, v, l, seed, seed, rest, p);
  }

  lemma AgreesRight(m: nat, n: nat, seed: Digest, rest: seq<Digest>, p: Digest)
    requires 0 < m < n && m > Split(n) && Agrees(m - Split(n), n - Split(n), seed, rest)
    ensures Agrees(m, n, seed, rest + [p])
  {
    hide IsPow2, Strip, Walk, Rebuild, Above;
    RebuildStep(m, n, seed, rest, p);
    var x, l, v := StripRight(m - Split(n) - 1, n - Split(n) - 1, Split(n));
    WalkRight(x, l, v, seed, seed, rest, p);
  }

  lemma {:induction false} WalkIsRebuild(m: nat, n: nat, seed: Digest, proof: seq<Digest>)
    requires 0 < m <= n && (m < n || IsPow2(n))
    ensures Agrees(m, n, seed, proof)
    decreases n
  {
    if m == n {
      StripFull(n);
    } else if proof == [] {
      AgreesEmpty(m, n, seed);
    } else {
      hide Agrees;
      var k := Split(n);
      var rest, p := proof[..|proof| - 1], proof[|proof| - 1];
      assert proof == rest + [p];
      if m <= k {
        WalkIsRebuild(m, k, seed, rest);
        AgreesLeft(m, n, seed, rest, p);
      } else {
        WalkIsRebuild(m - k, n - k, seed, rest);
        AgreesRight(m, n, seed, rest, p);
      }
    }
  }

  /** From the first climb on, the walk's two roots decide. */
  lemma WalkDecides(m: nat, n: nat, rootA: Digest, rootB: Digest, proof: seq<Digest>)
    requires 0 < m < n && proof != []
    ensures var start := Strip(m - 1, n - 1);
            Accepts(m, n, rootA, rootB, proof) <==>
            if start.0 > 0 then Leads(start.0, start.1, proof[0], proof[0], proof, 1, rootA, rootB)
            else Leads(start.0, start.1, rootA, rootA, proof, 0, rootA, rootB)
  {
    assert proof[0..] == proof;
    hide Strip, Walk, Rebuild, IsPow2;
    StripZero(m, n);
    WalkIsRebuild(m, n, rootA, proof);
    WalkIsRebuild(m, n, proof[0], proof[1..]);
  }

  // ---- Completeness and soundness ----

  /** The root of the subtree where the tree of m leaves and the whole tree meet. */
  function SeedRoot(m: nat, leaves: seq<Bytes>): Digest
    requires 0 < m <= |leaves|
    decreases |leaves|
  {
    if m == |leaves| then RootFromLeaves(leaves)
    else
      var k := Split(|leaves|);
      if m <= k then SeedRoot(m, leaves[..k]) else SeedRoot(m - k, leaves[k..])
  }

  /** The siblings above that subtree, lowest first. */
  function Siblings(m: nat, leaves: seq<Bytes>): seq<Digest>
    requires 0 < m <= |leaves|
    decreases |leaves|
  {
    if m == |leaves| then []
    else
      var k := Split(|leaves|);
      if m <= k then Siblings(m, leaves[..k]) + [RootFromLeaves(leaves[k..])]
      else Siblings(m - k, leaves[k..]) + [RootFromLeaves(leaves[..k])]
  }

  /** The generator's flag only decides whether the meeting subtree's root is spelled out. */
  lemma {:induction false} SubProofShape(m: nat, leaves: seq<Bytes>, b: bool)
    requires 0 < m <= |leaves| && (b && m == |leaves| ==> IsPow2(m))
    ensures SubProof(m, leaves, b) ==
            (if b && IsPow2(m) then [] else [SeedRoot(m, leaves)]) + Siblings(m, leaves)
    ensures b && IsPow2(m) ==> SeedRoot(m, leaves) == RootFromLeaves(leaves[..m])
    ensures m < |leaves| ==> Siblings(m, leaves) != []
    decreases |leaves|
  {
    hide RootFromLeaves, IsPow2;
    if m == |leaves| {
      assert leaves[..m] == leaves;
    } else {
      var k := Split(|leaves|);
      if m <= k {
        SubProofShape(m, leaves[..k], b);
        assert leaves[..k][..m] == leaves[..m];
      } else {
        if IsPow2(m) { Pow2Gap(k, m); }
        SubProofShape(m - k, leaves[k..], false);
      }
    }
  }

  /**
   * One seed and one path rebuild the root of the leaves, and with it the root
   * of the first m leaves.
   */
  predicate Exact(m: nat, leaves: seq<Bytes>, seed: Digest, path: seq<Digest>)
    requires 0 < m <= |leaves|
  {
    var roots := Rebuild(m, |leaves|, seed, path);
    if seed == SeedRoot(m, leaves) && path == Siblings(m, leaves) then
      roots == Some((RootFromLeaves(leaves[..m]), RootFromLeaves(leaves)))
    else roots.Some? ==> roots.value.1 != RootFromLeaves(leaves)
  }

  lemma AppendInjective<T>(s: seq<T>, t: seq<T>, x: T, y: T)
    ensures s + [x] == t + [y] <==> s == t && x == y
  {
    if s + [x] == t + [y] {
      assert (s + [x])[|s|] == x && (t + [y])[|t|] == y;
      assert s == (s + [x])[..|s|] && t == (t + [y])[..|t|];
    }
  }

  lemma ExactLeft(m: nat, leaves: seq<Bytes>, seed: Digest, rest: seq<Digest>, p: Digest)
    requires 0 < m < |leaves| && m <= Split(|leaves|) && Exact(m, leaves[..Split(|leaves|)], seed, rest)
    ensures Exact(m, leaves, seed, rest + [p])
  {
    hide Rebuild, IsPow2, RootFromLeaves;
    var left, right := leaves[..Split(|leaves|)], leaves[Split(|leaves|)..];
    RebuildStep(m, |leaves|, seed, rest, p);
    RootOfMany(leaves);
    assert left[..m] == leaves[..m];
    AppendInjective(rest, Siblings(m, left), p, RootFromLeaves(right));
  }

  /** Behind a complete left subtree, the last sibling is that subtree's root in both trees. */
  lemma ExactRight(m: nat, leaves: seq<Bytes>, seed: Digest, rest: seq<Digest>, p: Digest)
    requires 0 < m < |leaves| && m > Split(|leaves|) && Exact(m - Split(|leaves|), leaves[Split(|leaves|)..], seed, rest)
    ensures Exact(m, leaves, seed, rest + [p])
  {
    hide Rebuild, IsPow2, RootFromLeaves;
    var k := Split(|leaves|);
    RebuildStep(m, |leaves|, seed, rest, p);
    RootOfMany(leaves);
    BothFull(m, leaves);
    AppendInjective(rest, Siblings(m - k, leaves[k..]), p, RootFromLeaves(leaves[..k]));
  }

  lemma BothFull(m: nat, leaves: seq<Bytes>)
    requires 1 < |leaves| && Split(|leaves|) < m < |leaves|
    ensures var k := Split(|leaves|);
            RootFromLeaves(leaves[..m]) == NodeHash(RootFromLeaves(leaves[..k]), RootFromLeaves(leaves[k..][..m - k]))
  {
    hide RootFromLeaves, IsPow2;
    var k := Split(|leaves|);
    SplitUnique(m, k);
    RootOfMany(leaves[..m]);
    assert leaves[..m][..k] == leaves[..k] && leaves[..m][k..] == leaves[k..][..m - k];
  }

  lemma {:induction false} RebuildExact(m: nat, leaves: seq<Bytes>, seed: Digest, path: seq<Digest>)
    requires 0 < m <= |leaves|
    ensures Exact(m, leaves, seed, path)
    decreases |leaves|
  {
    hide RootFromLeaves, IsPow2;
    if m == |leaves| {
      assert leaves[..m] == leaves;
    } else if path == [] {
      NoSiblings(m, leaves);
    } else {
      var k := Split(|leaves|);
      var rest, p := path[..|path| - 1], path[|path| - 1];
      assert path == rest + [p];
      hide Exact;
      if m <= k {
        RebuildExact(m, leaves[..k], seed, rest);
        ExactLeft(m, leaves, seed, rest, p);
      } else {
        RebuildExact(m - k, leaves[k..], seed, rest);
        ExactRight(m, leaves, seed, rest, p);
      }
    }
  }

  lemma NoSiblings(m: nat, leaves: seq<Bytes>)
    requires 0 < m < |leaves|
    ensures Siblings(m, leaves) != []
  {
  }

  /**
   * Complete, sound and unique: against the root of a leaf list, an old root of
   * any size and a proof are accepted exactly when the old root is that of the
   * first m leaves and the proof is the one generated for them.
   */
  lemma ConsistencyExact(m: int, leaves: seq<Bytes>, rootA: Digest, proof: seq<Digest>)
    ensures Accepts(m, |leaves|, rootA, RootFromLeaves(leaves), proof) <==>
            0 <= m <= |leaves| && rootA == RootFromLeaves(leaves[..m]) && ConsistencyProof(m, leaves) == Some(proof)
  {
    hide RootFromLeaves, SubProof, Rebuild, SeedRoot, Siblings, IsPow2;
    if m == |leaves| {
      assert leaves[..m] == leaves;
    } else if m == 0 {
      assert leaves[..m] == [] && RootFromLeaves([]) == EmptyRoot by { RootOfNone(); }
    } else if 0 < m < |leaves| {
      SubProofShape(m, leaves, true);
      if IsPow2(m) {
        RebuildExact(m, leaves, rootA, proof);
        assert SubProof(m, leaves, true) == Siblings(m, leaves);
      } else if proof != [] {
        assert proof == [proof[0]] + proof[1..];
        RebuildExact(m, leaves, proof[0], proof[1..]);
      }
    }
  }

  /** Between two leaf lists: exactly a prefix has a proof, and one proof. */
  lemma PrefixExact(a: seq<Bytes>, b: seq<Bytes>, proof: seq<Digest>)
    ensures Accepts(|a|, |b|, RootFromLeaves(a), RootFromLeaves(b), proof) <==>
            a <= b && ConsistencyProof(|a|, b) == Some(proof)
  {
    ConsistencyExact(|a|, b, RootFromLeaves(a), proof);
    hide Accepts, RootFromLeaves, ConsistencyProof;
    if |a| <= |b| && RootFromLeaves(a) == RootFromLeaves(b[..|a|]) { RootInjective(a, b[..|a|]); }
    assert a <= b ==> a == b[..|a|];
  }
}
