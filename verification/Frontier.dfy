/** The incremental frontier: the roots of the perfect subtrees on a tree's right edge. */
module Frontier {
  import opened Basics
  import opened Merkle
  import opened Text

  type Levels = seq<Option<Digest>>

  // ---- The reference tree over leaf hashes ----

  function RootOf(hashes: seq<Digest>): Digest {
    if |hashes| == 0 then EmptyRoot
    else if |hashes| == 1 then hashes[0]
    else
      var k := Split(|hashes|);
      NodeHash(RootOf(hashes[..k]), RootOf(hashes[k..]))
  }

  function LeafHashes(leaves: seq<Bytes>): (hashes: seq<Digest>) {
    seq(|leaves|, i requires 0 <= i < |leaves| => LeafHash(leaves[i]))
  }

  lemma {:induction false} RootOfLeafHashes(leaves: seq<Bytes>)
    ensures RootOf(LeafHashes(leaves)) == RootFromLeaves(leaves)
    decreases |leaves|
  {
    if |leaves| > 1 {
      var k := Split(|leaves|);
      assert LeafHashes(leaves)[..k] == LeafHashes(leaves[..k]);
      assert LeafHashes(leaves)[k..] == LeafHashes(leaves[k..]);
      RootOfLeafHashes(leaves[..k]);
      RootOfLeafHashes(leaves[k..]);
    }
  }

  /** A full block of w leaves, then at most w more: the split falls between them. */
  lemma RootOfBlocks(block: seq<Digest>, tail: seq<Digest>)
    requires IsPow2(|block|) && 0 < |tail| <= |block|
    ensures RootOf(block + tail) == NodeHash(RootOf(block), RootOf(tail))
  {
    var all := block + tail;
    SplitUnique(|all|, |block|);
    assert all[..|block|] == block && all[|block|..] == tail;
  }

  // ---- What the levels of a frontier mean ----

  /** The occupied levels are exactly the set bits of size. */
  predicate Bits(levels: Levels, size: nat)
    decreases |levels|
  {
    if levels == [] then size == 0
    else (levels[0].Some? <==> size % 2 == 1) && Bits(levels[1..], size / 2)
  }

  predicate Trimmed(levels: Levels) {
    levels != [] ==> levels[|levels| - 1].Some?
  }

  /** Counting blocks of w, 2w, 4w, ... leaves from the right end: every occupied level holds its block's root. */
  predicate Holds(levels: Levels, w: nat, hashes: seq<Digest>)
    decreases |levels|
  {
    if levels == [] then hashes == []
    else if levels[0].None? then Holds(levels[1..], 2 * w, hashes)
    else
      |hashes| >= w && levels[0].value == RootOf(hashes[|hashes| - w..])
      && Holds(levels[1..], 2 * w, hashes[..|hashes| - w])
  }

  function PopCount(n: nat): nat {
    if n == 0 then 0 else n % 2 + PopCount(n / 2)
  }

  /** How many leaves the levels stand for, the lowest in blocks of w. */
  function Covered(levels: Levels, w: nat): nat
    decreases |levels|
  {
    if levels == [] then 0 else (if levels[0].Some? then w else 0) + Covered(levels[1..], 2 * w)
  }

  lemma {:induction false} CoveredTwice(levels: Levels, w: nat)
    ensures Covered(levels, 2 * w) == 2 * Covered(levels, w)
    decreases |levels|
  {
    if levels != [] {
      CoveredTwice(levels[1..], 2 * w);
    }
  }

  lemma {:induction false} BitsCovered(levels: Levels, size: nat)
    ensures Bits(levels, size) <==> size == Covered(levels, 1)
    decreases |levels|
  {
    if levels != [] {
      CoveredTwice(levels[1..], 1);
      BitsCovered(levels[1..], size / 2);
    }
  }

  lemma {:induction false} HoldsCovered(levels: Levels, w: nat, hashes: seq<Digest>)
    requires Holds(levels, w, hashes)
    ensures |hashes| == Covered(levels, w)
    decreases |levels|
  {
    if levels != [] {
      HoldsCovered(levels[1..], 2 * w, if levels[0].Some? then hashes[..|hashes| - w] else hashes);
    }
  }

  // ---- Appending ----

  /** The levels after one leaf hash was carried up through the occupied ones. */
  function Carry(levels: Levels, carry: Digest): Levels
    decreases |levels|
  {
    if levels == [] then [Some(carry)]
    else if levels[0].None? then [Some(carry)] + levels[1..]
    else [None] + Carry(levels[1..], NodeHash(levels[0].value, carry))
  }

  /** How many levels the carry goes through: one NodeHash each. */
  function Carries(levels: Levels): nat
    decreases |levels|
  {
    if levels == [] || levels[0].None? then 0 else 1 + Carries(levels[1..])
  }

  lemma {:induction false} CarryBits(levels: Levels, carry: Digest, size: nat)
    requires Bits(levels, size)
    ensures Bits(Carry(levels, carry), size + 1)
    ensures Carries(levels) + PopCount(size + 1) == PopCount(size) + 1
    ensures Trimmed(levels) ==> Trimmed(Carry(levels, carry))
    decreases |levels|
  {
    if levels != [] && levels[0].Some? {
      CarryBits(levels[1..], NodeHash(levels[0].value, carry), size / 2);
      assert (size + 1) / 2 == size / 2 + 1;
    }
  }

  lemma HoldsBlock(levels: Levels, w: nat, hashes: seq<Digest>, block: seq<Digest>)
    requires |block| == w && levels != [] && levels[0] == Some(RootOf(block)) && Holds(levels[1..], 2 * w, hashes)
    ensures Holds(levels, w, hashes + block)
  {
    var all := hashes + block;
    assert all[|all| - w..] == block && all[..|all| - w] == hashes;
  }

  /** Appending a block of w leaves by its root. */
  lemma {:induction false} CarryHolds(levels: Levels, w: nat, hashes: seq<Digest>, block: seq<Digest>)
    requires IsPow2(w) && |block| == w && Holds(levels, w, hashes)
    ensures Holds(Carry(levels, RootOf(block)), w, hashes + block)
    decreases |levels|
  {
    hide RootOf;
    var after := Carry(levels, RootOf(block));
    if levels == [] || levels[0].None? {
      HoldsBlock(after, w, hashes, block);
    } else {
      var last, rest := hashes[|hashes| - w..], hashes[..|hashes| - w];
      RootOfBlocks(last, block);
      CarryHolds(levels[1..], 2 * w, rest, last + block);
      assert rest + (last + block) == hashes + block;
      assert after[1..] == Carry(levels[1..], RootOf(last + block));
    }
  }

  /** The levels once a carry that reached level lvl has found its place. */
  function Placed(levels: Levels, lvl: nat, carry: Digest): Levels
    requires lvl <= |levels|
  {
    levels[..lvl] + Carry(levels[lvl..], carry)
  }

  lemma PlacedHigher(levels: Levels, lvl: nat, carry: Digest)
    requires lvl < |levels| && levels[lvl].Some?
    ensures Placed(levels[lvl := None], lvl + 1, NodeHash(levels[lvl].value, carry)) == Placed(levels, lvl, carry)
    ensures Carries(levels[lvl..]) == 1 + Carries(levels[lvl := None][lvl + 1..])
  {
    var next := levels[lvl := None];
    assert next[..lvl + 1] == levels[..lvl] + [None];
    assert next[lvl + 1..] == levels[lvl..][1..];
  }

  lemma PlacedHere(levels: Levels, lvl: nat, carry: Digest)
    requires lvl <= |levels| && (lvl == |levels| || levels[lvl].None?)
    ensures Placed(levels, lvl, carry) == (if lvl == |levels| then levels + [None] else levels)[lvl := Some(carry)]
    ensures Carries(levels[lvl..]) == 0
  {
  }

  /** In the middle of an append: what the carry still has to do, and the node hashes it has made. */
  ghost predicate Rising(before: Levels, leafHash: Digest, made: nat, levels: Levels, lvl: nat, carry: Digest, now: nat)
    requires lvl <= |levels|
  {
    Placed(levels, lvl, carry) == Carry(before, leafHash) && now + Carries(levels[lvl..]) == made + Carries(before)
  }

  lemma RisingStarts(levels: Levels, leafHash: Digest, made: nat)
    ensures Rising(levels, leafHash, made, levels, 0, leafHash, made)
  {
    assert levels[0..] == levels && [] + Carry(levels, leafHash) == Carry(levels, leafHash);
  }

  lemma RisingOn(before: Levels, leafHash: Digest, made: nat, levels: Levels, lvl: nat, carry: Digest, now: nat)
    requires lvl < |levels| && levels[lvl].Some? && Rising(before, leafHash, made, levels, lvl, carry, now)
    ensures Rising(before, leafHash, made, levels[lvl := None], lvl + 1, NodeHash(levels[lvl].value, carry), now + 1)
  {
    hide Placed, Carries;
    PlacedHigher(levels, lvl, carry);
  }

  lemma RisingEnds(before: Levels, leafHash: Digest, made: nat, levels: Levels, lvl: nat, carry: Digest, now: nat)
    requires lvl <= |levels| && (lvl == |levels| || levels[lvl].None?) && Rising(before, leafHash, made, levels, lvl, carry, now)
    ensures (if lvl == |levels| then levels + [None] else levels)[lvl := Some(carry)] == Carry(before, leafHash)
    ensures now == made + Carries(before)
  {
    hide Placed, Carries;
    PlacedHere(levels, lvl, carry);
  }

  // ---- The root ----

  function Fold(levels: Levels, acc: Option<Digest>): Option<Digest>
    decreases |levels|
  {
    if levels == [] then acc
    else if levels[0].None? then Fold(levels[1..], acc)
    else if acc.None? then Fold(levels[1..], levels[0])
    else Fold(levels[1..], Some(NodeHash(levels[0].value, acc.value)))
  }

  function RootOrNone(hashes: seq<Digest>): Option<Digest> {
    if hashes == [] then None else Some(RootOf(hashes))
  }

  lemma FoldBlock(block: seq<Digest>, tail: seq<Digest>)
    requires IsPow2(|block|) && |tail| < |block|
    ensures RootOrNone(block + tail)
         == Some(if tail == [] then RootOf(block) else NodeHash(RootOf(block), RootOf(tail)))
  {
    if tail == [] { assert block + tail == block; } else { RootOfBlocks(block, tail); }
  }

  /** The fold of a frontier whose tail of fewer than w leaves is already folded. */
  lemma {:induction false} FoldHolds(levels: Levels, w: nat, hashes: seq<Digest>, tail: seq<Digest>)
    requires IsPow2(w) && Holds(levels, w, hashes) && |tail| < w
    ensures Fold(levels, RootOrNone(tail)) == RootOrNone(hashes + tail)
    decreases |levels|
  {
    hide RootOf, IsPow2;
    if levels == [] {
      assert hashes + tail == tail;
    } else if levels[0].None? {
      Pow2Double(w);
      FoldHolds(levels[1..], 2 * w, hashes, tail);
    } else {
      var last, rest := hashes[|hashes| - w..], hashes[..|hashes| - w];
      assert rest + (last + tail) == hashes + tail;
      FoldBlock(last, tail);
      Pow2Double(w);
      FoldHolds(levels[1..], 2 * w, rest, last + tail);
      assert Fold(levels, RootOrNone(tail)) == Fold(levels[1..], RootOrNone(last + tail));
    }
  }

  class Frontier {
    var levels: Levels
    var size: nat
    ghost var nodeHashes: nat

    ghost predicate Valid()
      reads this
    {
      Bits(levels, size) && Trimmed(levels)
    }

    /** The frontier stands for exactly these leaf hashes. */
    ghost predicate StandsFor(hashes: seq<Digest>)
      reads this
    {
      Holds(levels, 1, hashes)
    }

    constructor ()
      ensures Valid() && size == 0 && StandsFor([]) && nodeHashes == 0
    {
      levels, size, nodeHashes := [], 0, 0;
    }

    method Append(leafHash: Digest)
      requires Valid()
      modifies this
      ensures Valid() && size == old(size) + 1
      ensures forall hashes :: old(StandsFor(hashes)) ==> StandsFor(hashes + [leafHash])
      ensures nodeHashes + PopCount(size) == old(nodeHashes) + PopCount(old(size)) + 1
    {
      hide Carry, Carries, Bits, Holds, Trimmed, PopCount, Rising;
      ghost var levels0, made := levels, nodeHashes;
      AppendCarries(levels, leafHash, size);
      var carry, lvl := leafHash, 0;
      RisingStarts(levels, leafHash, made);
      while lvl < |levels| && levels[lvl].Some?
        invariant 0 <= lvl <= |levels| && size == old(size)
        invariant Rising(levels0, leafHash, made, levels, lvl, carry, nodeHashes)
      {
        RisingOn(levels0, leafHash, made, levels, lvl, carry, nodeHashes);
        carry := NodeHash(levels[lvl].value, carry);
        nodeHashes := nodeHashes + 1;
        levels := levels[lvl := None];
        lvl := lvl + 1;
      }
      RisingEnds(levels0, leafHash, made, levels, lvl, carry, nodeHashes);
      if lvl == |levels| {
        levels := levels + [None];
      }
      levels := levels[lvl := Some(carry)];
      size := size + 1;
    }

    method Root() returns (root: Digest)
      requires Valid()
      ensures forall hashes :: StandsFor(hashes) ==> root == RootOf(hashes)
    {
      RootMeaning(levels, size);
      if size == 0 {
        return EmptyRoot;
      }
      var acc: Option<Digest> := None;
      var lvl := 0;
      while lvl < |levels|
        invariant 0 <= lvl <= |levels|
        invariant Fold(levels[lvl..], acc) == Fold(levels, None)
      {
        assert levels[lvl..][1..] == levels[lvl + 1..];
        if levels[lvl].None? {
        } else if acc.None? {
          acc := levels[lvl];
        } else {
          acc := Some(NodeHash(levels[lvl].value, acc.value));
        }
        lvl := lvl + 1;
      }
      root := if acc.Some? then acc.value else EmptyRoot;
    }
  }

  lemma AppendCarries(levels: Levels, leafHash: Digest, size: nat)
    requires Bits(levels, size) && Trimmed(levels)
    ensures var after := Carry(levels, leafHash);
            Bits(after, size + 1) && Trimmed(after)
            && forall hashes :: Holds(levels, 1, hashes) ==> Holds(after, 1, hashes + [leafHash])
    ensures Carries(levels) + PopCount(size + 1) == PopCount(size) + 1
  {
    CarryBits(levels, leafHash, size);
    forall hashes | Holds(levels, 1, hashes)
      ensures Holds(Carry(levels, leafHash), 1, hashes + [leafHash])
    {
      CarryHolds(levels, 1, hashes, [leafHash]);
    }
  }

  lemma RootMeaning(levels: Levels, size: nat)
    requires Bits(levels, size)
    ensures forall hashes :: Holds(levels, 1, hashes) ==>
              |hashes| == size && (if size == 0 then EmptyRoot == RootOf(hashes) else Fold(levels, None) == Some(RootOf(hashes)))
  {
    BitsCovered(levels, size);
    forall hashes | Holds(levels, 1, hashes)
      ensures |hashes| == size && (if size == 0 then EmptyRoot == RootOf(hashes) else Fold(levels, None) == Some(RootOf(hashes)))
    {
      HoldsCovered(levels, 1, hashes);
      FoldHolds(levels, 1, hashes, []);
      assert hashes + [] == hashes;
    }
  }

  /** The incremental root is the whole-tree root, and n appends cost n - popcount(n) node hashes. */
  method FrontierFromLeaves(leaves: seq<Bytes>) returns (f: Frontier)
    ensures fresh(f) && f.Valid() && f.size == |leaves| && f.StandsFor(LeafHashes(leaves))
    ensures f.nodeHashes + PopCount(|leaves|) == |leaves|
  {
    f := new Frontier();
    var i := 0;
    while i < |leaves|
      invariant 0 <= i <= |leaves| && fresh(f)
      invariant f.Valid() && f.size == i && f.StandsFor(LeafHashes(leaves[..i]))
      invariant f.nodeHashes + PopCount(i) == i
    {
      f.Append(LeafHash(leaves[i]));
      assert LeafHashes(leaves[..i + 1]) == LeafHashes(leaves[..i]) + [LeafHash(leaves[i])];
      i := i + 1;
    }
    assert leaves[..i] == leaves;
  }

  method FrontierRoot(leaves: seq<Bytes>) returns (root: Digest)
    ensures root == RootFromLeaves(leaves)
  {
    var f := FrontierFromLeaves(leaves);
    RootOfLeafHashes(leaves);
    root := f.Root();
  }

  // ---- Persistence: "size|lvl:hexhash|lvl:hexhash|..." ----

  /** Bit i of a size. */
  predicate BitSet(size: nat, i: nat) {
    if i == 0 then size % 2 == 1 else BitSet(size / 2, i - 1)
  }

  function Exp2(n: nat): nat {
    if n == 0 then 1 else 2 * Exp2(n - 1)
  }

  lemma {:induction false} HighBit(size: nat, i: nat)
    requires size < Exp2(i)
    ensures !BitSet(size, i)
  {
    if i > 0 {
      HighBit(size / 2, i - 1);
    }
  }

  lemma {:induction false} HighBits(size: nat, bound: nat, i: nat)
    requires size < Exp2(bound) && bound <= i
    ensures !BitSet(size, i)
    decreases i - bound
  {
    if i == bound {
      HighBit(size, i);
    } else {
      HighBits(size, bound + 1, i);
    }
  }

  /** A level is occupied exactly when its bit of the size is set. */
  lemma {:induction false} OccupiedBit(levels: Levels, size: nat, i: nat)
    requires Bits(levels, size)
    ensures BitSet(size, i) <==> i < |levels| && levels[i].Some?
    decreases i
  {
    if levels == [] {
      HighBits(0, 0, i);
    } else if i > 0 {
      OccupiedBit(levels[1..], size / 2, i - 1);
    }
  }

  const MAX_FRONTIER_LEVEL := 62

  lemma Exp2By8(n: nat)
    ensures Exp2(n + 8) == 256 * Exp2(n)
  {
    assert Exp2(n + 2) == 4 * Exp2(n) && Exp2(n + 4) == 4 * Exp2(n + 2);
    assert Exp2(n + 6) == 4 * Exp2(n + 4) && Exp2(n + 8) == 4 * Exp2(n + 6);
  }

  lemma Exp2Of63()
    ensures Exp2(63) == INT64_MAX + 1
  {
    assert Exp2(2) == 4 && Exp2(4) == 16 && Exp2(6) == 64;
    Exp2By8(7); Exp2By8(15); Exp2By8(23); Exp2By8(31); Exp2By8(39); Exp2By8(47); Exp2By8(55);
  }

  lemma SizeBits(size: nat, i: nat)
    requires size <= INT64_MAX && BitSet(size, i)
    ensures i <= MAX_FRONTIER_LEVEL
  {
    if i > MAX_FRONTIER_LEVEL {
      Exp2Of63();
      HighBits(size, 63, i);
    }
  }

  /** Hex text of a digest and back; what it may not contain is the field separator. */
  ghost predicate HexCodec(hex: Digest -> string, unhex: string -> Option<Digest>) {
    forall d :: unhex(hex(d)) == Some(d) && '|' !in hex(d)
  }

  function NodeText(lvl: nat, d: Digest, hex: Digest -> string): string {
    Decimal(lvl) + [':'] + hex(d)
  }

  /** The occupied levels from lvl on, in text. */
  function NodeTexts(levels: Levels, lvl: nat, hex: Digest -> string): seq<string>
    requires lvl <= |levels|
    decreases |levels| - lvl
  {
    if lvl == |levels| then []
    else (if levels[lvl].None? then [] else [NodeText(lvl, levels[lvl].value, hex)]) + NodeTexts(levels, lvl + 1, hex)
  }

  function Line(levels: Levels, size: nat, hex: Digest -> string): string {
    JoinWith([Decimal(size)] + NodeTexts(levels, 0, hex), '|')
  }

  function ParseNode(levels: Levels, size: nat, p: string, unhex: string -> Option<Digest>): (r: Option<Levels>)
  {
    match Cut(p, ':')
    case None => None
    case Some((level, text)) =>
      match ParseInt(level)
      case None => None
      case Some(lvl) =>
        if lvl < 0 || lvl > MAX_FRONTIER_LEVEL || !BitSet(size, lvl) then None
        else if unhex(text).None? then None
        else
          var grown := Grow(levels, lvl + 1);
          if grown[lvl].Some? then None else Some(grown[lvl := unhex(text)])
  }

  function Grow(levels: Levels, n: nat): (r: Levels)
    ensures |r| == if n <= |levels| then |levels| else n
    decreases n - |levels|
  {
    if n <= |levels| then levels else Grow(levels + [None], n)
  }

  function ParseNodes(levels: Levels, size: nat, parts: seq<string>, unhex: string -> Option<Digest>): Option<Levels>
    decreases |parts|
  {
    if parts == [] then Some(levels)
    else
      match ParseNode(levels, size, parts[0], unhex)
      case None => None
      case Some(next) => ParseNodes(next, size, parts[1..], unhex)
  }

  function ParseFrontier(s: string, unhex: string -> Option<Digest>): Option<(Levels, nat)> {
    var parts := SplitOn(s, '|');
    match ParseInt(parts[0])
    case None => None
    case Some(size) =>
      if size < 0 then None
      else
        match ParseNodes([], size, parts[1..], unhex)
        case None => None
        case Some(levels) => if Covered(levels, 1) == size then Some((levels, size)) else None
  }

  lemma {:induction false} ParseNodesTrimmed(levels: Levels, size: nat, parts: seq<string>, unhex: string -> Option<Digest>)
    requires Trimmed(levels)
    ensures var r := ParseNodes(levels, size, parts, unhex);
            r.Some? ==> Trimmed(r.value)
    decreases |parts|
  {
    if parts != [] {
      var next := ParseNode(levels, size, parts[0], unhex);
      if next.Some? {
        ParseNodesTrimmed(next.value, size, parts[1..], unhex);
      }
    }
  }

  /** Whatever line is accepted: the occupied levels are the set bits of the size. */
  lemma ParsedIsValid(s: string, unhex: string -> Option<Digest>)
    ensures var r := ParseFrontier(s, unhex);
            r.Some? ==> Bits(r.value.0, r.value.1) && Trimmed(r.value.0) && r.value.1 <= INT64_MAX
  {
    var r := ParseFrontier(s, unhex);
    if r.Some? {
      var parts := SplitOn(s, '|');
      ParseNodesTrimmed([], r.value.1, parts[1..], unhex);
      BitsCovered(r.value.0, r.value.1);
    }
  }

  /** Reading back the occupied levels from i on, when those before i were read into acc. */
  lemma {:induction false} ParseRest(levels: Levels, size: nat, i: nat, acc: Levels,
                                     hex: Digest -> string, unhex: string -> Option<Digest>)
    requires HexCodec(hex, unhex) && Bits(levels, size) && Trimmed(levels) && size <= INT64_MAX
    requires i <= |levels| && |acc| <= i && acc == levels[..|acc|]
    requires forall j :: |acc| <= j < i ==> levels[j].None?
    ensures ParseNodes(acc, size, NodeTexts(levels, i, hex), unhex) == Some(levels)
    decreases |levels| - i
  {
    hide Bits, Trimmed, ParseNode, HexCodec;
    if i == |levels| {
      TrimmedPrefix(levels, acc);
    } else if levels[i].None? {
      assert NodeTexts(levels, i, hex) == NodeTexts(levels, i + 1, hex);
      ParseRest(levels, size, i + 1, acc, hex, unhex);
    } else {
      var next := levels[..i + 1];
      var rest := NodeTexts(levels, i + 1, hex);
      ParseOne(levels, size, i, acc, hex, unhex);
      assert ([NodeText(i, levels[i].value, hex)] + rest)[1..] == rest;
      ParseRest(levels, size, i + 1, next, hex, unhex);
    }
  }

  lemma TrimmedPrefix(levels: Levels, acc: Levels)
    requires Trimmed(levels) && |acc| <= |levels| && acc == levels[..|acc|]
    requires forall j :: |acc| <= j < |levels| ==> levels[j].None?
    ensures acc == levels
  {
  }

  lemma {:induction false} GrowNones(levels: Levels, n: nat)
    requires |levels| <= n
    ensures Grow(levels, n)[..|levels|] == levels
    ensures forall j :: |levels| <= j < n ==> Grow(levels, n)[j].None?
    decreases n - |levels|
  {
    if |levels| < n {
      GrowNones(levels + [None], n);
    }
  }

  lemma ParseOne(levels: Levels, size: nat, i: nat, acc: Levels, hex: Digest -> string, unhex: string -> Option<Digest>)
    requires HexCodec(hex, unhex) && Bits(levels, size) && size <= INT64_MAX
    requires i < |levels| && levels[i].Some? && |acc| <= i && acc == levels[..|acc|]
    requires forall j :: |acc| <= j < i ==> levels[j].None?
    ensures ParseNode(acc, size, NodeText(i, levels[i].value, hex), unhex) == Some(levels[..i + 1])
  {
    OccupiedBit(levels, size, i);
    SizeBits(size, i);
    ParseDecimal(i);
    CutPiece(Decimal(i), ':', hex(levels[i].value));
    GrowNones(acc, i + 1);
    assert Grow(acc, i + 1)[i := levels[i]] == levels[..i + 1];
  }

  lemma {:induction false} NodeTextsClean(levels: Levels, lvl: nat, hex: Digest -> string, unhex: string -> Option<Digest>)
    requires HexCodec(hex, unhex) && lvl <= |levels|
    ensures forall p <- NodeTexts(levels, lvl, hex) :: '|' !in p
    decreases |levels| - lvl
  {
    if lvl < |levels| {
      NodeTextsClean(levels, lvl + 1, hex, unhex);
    }
  }

  /** Reading a written frontier rebuilds it, for every frontier a run of appends can reach. */
  lemma ParseLine(levels: Levels, size: nat, hex: Digest -> string, unhex: string -> Option<Digest>)
    requires HexCodec(hex, unhex) && Bits(levels, size) && Trimmed(levels) && size <= INT64_MAX
    ensures ParseFrontier(Line(levels, size, hex), unhex) == Some((levels, size))
  {
    var parts := [Decimal(size)] + NodeTexts(levels, 0, hex);
    NodeTextsClean(levels, 0, hex, unhex);
    SplitJoin(parts, '|');
    ParseDecimal(size);
    assert parts[1..] == NodeTexts(levels, 0, hex);
    ParseRest(levels, size, 0, [], hex, unhex);
    BitsCovered(levels, size);
  }

  method Marshal(f: Frontier, hex: Digest -> string) returns (s: string)
    ensures s == Line(f.levels, f.size, hex)
  {
    s := Decimal(f.size);
    var lvl := 0;
    ghost var done := [s];
    while lvl < |f.levels|
      invariant 0 <= lvl <= |f.levels| && done != [] && s == JoinWith(done, '|')
      invariant done + NodeTexts(f.levels, lvl, hex) == [Decimal(f.size)] + NodeTexts(f.levels, 0, hex)
    {
      if f.levels[lvl].Some? {
        var p := NodeText(lvl, f.levels[lvl].value, hex);
        JoinOneMore(done, '|', p);
        s := s + ['|'] + p;
        done := done + [p];
      }
      lvl := lvl + 1;
    }
    assert done == done + NodeTexts(f.levels, lvl, hex);
  }

  method UnmarshalFrontier(s: string, unhex: string -> Option<Digest>) returns (f: Frontier?)
    ensures f == null <==> ParseFrontier(s, unhex).None?
    ensures f != null ==> fresh(f) && f.Valid() && (f.levels, f.size) == ParseFrontier(s, unhex).value
  {
    ParsedIsValid(s, unhex);
    var parts := SplitOn(s, '|');
    var size := ParseInt(parts[0]);
    if size.None? || size.value < 0 {
      return null;
    }
    var levels: Levels := [];
    var i := 1;
    while i < |parts|
      invariant 1 <= i <= |parts|
      invariant ParseNodes(levels, size.value, parts[i..], unhex) == ParseNodes([], size.value, parts[1..], unhex)
    {
      assert parts[i..][1..] == parts[i + 1..];
      var next := ParseNode(levels, size.value, parts[i], unhex);
      if next.None? {
        return null;
      }
      levels := next.value;
      i := i + 1;
    }
    var reconstructed, lvl, bit: nat := 0, 0, 1;
    while lvl < |levels|
      invariant 0 <= lvl <= |levels|
      invariant reconstructed + Covered(levels[lvl..], bit) == Covered(levels, 1)
    {
      assert levels[lvl..][1..] == levels[lvl + 1..];
      if levels[lvl].Some? {
        reconstructed := reconstructed + bit;
      }
      lvl, bit := lvl + 1, bit * 2;
    }
    if reconstructed != size.value {
      return null;
    }
    f := new Frontier();
    f.levels, f.size := levels, size.value;
  }
}
