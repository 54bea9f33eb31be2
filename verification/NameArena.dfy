/** Unknown member names in four bytes each: where they are, and how two equal ones are found. */
module NameArena {
  import opened Basics
  import opened ByteOrder
  import opened JsonText
  import opened JsonTree
  import opened Findings

  const ARENA_BIT := 0x8000_0000
  const MAX_INPUT := 0x7FFF_FFFF

  /** Four bytes: an offset in the input, or with the top bit an offset in the arena. */
  type NameRef = x: int | 0 <= x < 0x1_0000_0000

  // ---- Lengths, as binary.AppendUvarint writes them ----

  function Uvarint(n: nat): (b: Bytes)
    ensures |b| >= 1
  {
    if n < 128 then [n as byte] else [(n % 128 + 128) as byte] + Uvarint(n / 128)
  }

  /** binary.Uvarint: the length at i and its width; width 0 at the end of the input. */
  function ReadUvarint(b: Bytes, i: nat): (r: (nat, nat))
    requires i <= |b|
    ensures i + r.1 <= |b|
    decreases |b| - i
  {
    if i == |b| then (0, 0)
    else if b[i] < 128 then (b[i] as nat, 1)
    else var rest := ReadUvarint(b, i + 1); (b[i] as nat - 128 + 128 * rest.0, rest.1 + 1)
  }

  lemma {:induction false} UvarintBack(b: Bytes, i: nat, n: nat)
    requires i + |Uvarint(n)| <= |b| && b[i..i + |Uvarint(n)|] == Uvarint(n)
    ensures ReadUvarint(b, i) == (n, |Uvarint(n)|)
    decreases n
  {
    var u := Uvarint(n);
    assert b[i] == b[i..i + |u|][0];
    if n >= 128 {
      assert b[i + 1..i + 1 + |Uvarint(n / 128)|] == b[i..i + |u|][1..];
      UvarintBack(b, i + 1, n / 128);
    }
  }

  lemma UvarintWidth(n: nat)
    requires n <= MAX_INPUT
    ensures |Uvarint(n)| <= 5 && (n < 0x10_0000 ==> |Uvarint(n)| <= 3)
  {
    var a, c, d := n / 128, n / 128 / 128, n / 128 / 128 / 128;
    var e := d / 128;
    assert e < 128;
    assert n >= 128 ==> |Uvarint(n)| == 1 + |Uvarint(a)|;
    assert a >= 128 ==> |Uvarint(a)| == 1 + |Uvarint(c)|;
    assert c >= 128 ==> |Uvarint(c)| == 1 + |Uvarint(d)|;
    assert d >= 128 ==> |Uvarint(d)| == 1 + |Uvarint(e)|;
  }

  // ---- Where a name is ----

  /**
   * The reference finds the name: in the input up to the next quote, or in the
   * arena behind its length.
   */
  predicate Locates(b: Bytes, arena: Bytes, ref: NameRef, name: Bytes) {
    if ref >= ARENA_BIT then
      var at, u := ref - ARENA_BIT, Uvarint(|name|);
      at + |u| + |name| <= |arena| && arena[at..at + |u| + |name|] == u + name
    else
      ref + |name| < |b| && b[ref..ref + |name|] == name && b[ref + |name|] == QUOTE && QUOTE !in name
  }

  predicate AllLocated(b: Bytes, arena: Bytes, refs: seq<NameRef>, names: seq<Bytes>) {
    |refs| == |names| && forall k | 0 <= k < |refs| :: Locates(b, arena, refs[k], names[k])
  }

  /** What is appended to the arena moves no name. */
  lemma ArenaGrows(b: Bytes, arena: Bytes, arena': Bytes, refs: seq<NameRef>, names: seq<Bytes>)
    requires AllLocated(b, arena, refs, names) && arena <= arena'
    ensures AllLocated(b, arena', refs, names)
  {
    forall k | 0 <= k < |refs| ensures Locates(b, arena', refs[k], names[k]) {
      var ref, name := refs[k], names[k];
      assert Locates(b, arena, ref, name);
      if ref >= ARENA_BIT {
        var at, n := ref - ARENA_BIT, |Uvarint(|name|)| + |name|;
        assert arena'[at..at + n] == arena[at..at + n];
      }
    }
  }

  lemma TailOf(a: Bytes, u: Bytes, name: Bytes)
    ensures var all := a + u + name; |all| == |a| + |u| + |name| && all[|a|..|a| + |u| + |name|] == u + name
  {
    assert a + u + name == a + (u + name);
  }

  lemma LocatedAt(b: Bytes, arena: Bytes, at: nat, name: Bytes)
    requires at < ARENA_BIT && at + |Uvarint(|name|)| + |name| <= |arena|
    requires arena[at..at + |Uvarint(|name|)| + |name|] == Uvarint(|name|) + name
    ensures Locates(b, arena, at + ARENA_BIT, name)
  {
    hide Uvarint;
  }

  lemma NewInArena(b: Bytes, arena: Bytes, name: Bytes)
    requires |arena| < ARENA_BIT
    ensures Locates(b, arena + Uvarint(|name|) + name, |arena| + ARENA_BIT, name)
  {
    hide Uvarint, Locates;
    TailOf(arena, Uvarint(|name|), name);
    LocatedAt(b, arena + Uvarint(|name|) + name, |arena|, name);
  }

  /** nameBytes. */
  method NameBytes(b: Bytes, arena: Bytes, ref: NameRef, ghost name: Bytes) returns (r: Bytes)
    requires Locates(b, arena, ref, name)
    ensures r == name
  {
    if ref >= ARENA_BIT {
      var at := ref - ARENA_BIT;
      ghost var u := Uvarint(|name|);
      assert arena[at..at + |u|] == arena[at..at + |u| + |name|][..|u|];
      UvarintBack(arena, at, |name|);
      var n, width := ReadUvarint(arena, at).0, ReadUvarint(arena, at).1;
      r := arena[at + width..at + width + n];
      assert r == arena[at..at + |u| + |name|][|u|..];
    } else {
      var end := ref;
      assert forall k | ref <= k < ref + |name| :: b[k] != QUOTE by {
        forall k | ref <= k < ref + |name| ensures b[k] != QUOTE { assert b[k] == b[ref..ref + |name|][k - ref]; }
      }
      while b[end] != QUOTE
        invariant ref <= end <= ref + |name|
        decreases ref + |name| - end
      {
        end := end + 1;
      }
      r := b[ref..end];
    }
  }

  // ---- Order ----

  predicate Sorted(names: seq<Bytes>) {
    forall i | 0 < i < |names| :: LexLe(names[i - 1], names[i])
  }

  predicate Distinct(names: seq<Bytes>) {
    forall i, j | 0 <= i < j < |names| :: names[i] != names[j]
  }

  lemma {:induction false} SortedLe(names: seq<Bytes>, i: nat, j: nat)
    requires Sorted(names) && i <= j < |names|
    ensures LexLe(names[i], names[j])
    decreases j - i
  {
    if i == j {
      LexTotal(names[i], names[i]);
    } else {
      SortedLe(names, i, j - 1);
      LexTrans(names[i], names[j - 1], names[j]);
    }
  }

  /** In order, equal names are neighbours. */
  lemma NeighboursTell(names: seq<Bytes>)
    requires Sorted(names) && forall i | 0 < i < |names| :: names[i - 1] != names[i]
    ensures Distinct(names)
  {
    forall i, j | 0 <= i < j < |names| ensures names[i] != names[j] {
      var k := i + 1;
      assert names[k - 1] != names[k] && LexLe(names[k - 1], names[k]);
      SortedLe(names, k, j);
      if LexLe(names[k], names[i]) { LexEqual(names[i], names[k]); }
    }
  }

  lemma {:induction false} DistinctCounts(names: seq<Bytes>)
    ensures Distinct(names) <==> forall x :: multiset(names)[x] <= 1
  {
    if names != [] {
      var n := |names| - 1;
      var init := names[..n];
      assert names == init + [names[n]];
      DistinctCounts(init);
      if Distinct(names) {
        assert Distinct(init) && names[n] !in init;
      } else if Distinct(init) {
        var i, j :| 0 <= i < j < |names| && names[i] == names[j];
        assert j == n && init[i] == names[n];
        assert multiset(init)[names[n]] >= 1;
        assert multiset(names)[names[n]] >= 2;
      } else {
        var x :| multiset(init)[x] > 1;
        assert multiset(names)[x] > 1;
      }
    }
  }

  lemma SameDistinct(a: seq<Bytes>, c: seq<Bytes>)
    requires multiset(a) == multiset(c)
    ensures Distinct(a) <==> Distinct(c)
  {
    DistinctCounts(a);
    DistinctCounts(c);
  }

  /** slices.SortFunc over the names the references find: the references, reordered with their names. */
  method SortRefs(b: Bytes, arena: Bytes, refs: seq<NameRef>, ghost names: seq<Bytes>) returns (sorted: seq<NameRef>, ghost order: seq<Bytes>)
    requires AllLocated(b, arena, refs, names)
    ensures AllLocated(b, arena, sorted, order) && Sorted(order) && multiset(order) == multiset(names)
  {
    hide Locates, LexLe;
    sorted, order := [], [];
    var i := 0;
    while i < |refs|
      invariant 0 <= i <= |refs| && AllLocated(b, arena, sorted, order) && Sorted(order)
      invariant multiset(order) == multiset(names[..i])
    {
      assert names[..i + 1] == names[..i] + [names[i]];
      sorted, order := InsertRef(b, arena, sorted, order, refs[i], names[i]);
      i := i + 1;
    }
    assert names[..i] == names;
  }

  method InsertRef(b: Bytes, arena: Bytes, refs: seq<NameRef>, ghost names: seq<Bytes>, ref: NameRef, ghost name: Bytes)
    returns (sorted: seq<NameRef>, ghost order: seq<Bytes>)
    requires AllLocated(b, arena, refs, names) && Sorted(names) && Locates(b, arena, ref, name)
    ensures AllLocated(b, arena, sorted, order) && Sorted(order) && multiset(order) == multiset(names) + multiset{name}
  {
    hide Locates, LexLe;
    var x := NameBytes(b, arena, ref, name);
    var k := 0;
    while k < |refs|
      invariant 0 <= k <= |refs| && (k > 0 ==> LexLe(names[k - 1], name)) && x == name
      decreases |refs| - k
    {
      var y := NameBytes(b, arena, refs[k], names[k]);
      LexTotal(x, y);
      if !LexLe(y, x) { break; }
      assert names[k] == y;
      k := k + 1;
    }
    sorted := refs[..k] + [ref] + refs[k..];
    order := names[..k] + [name] + names[k..];
    Inserted(b, arena, refs, names, ref, name, k);
  }

  lemma Inserted(b: Bytes, arena: Bytes, refs: seq<NameRef>, names: seq<Bytes>, ref: NameRef, name: Bytes, k: nat)
    requires AllLocated(b, arena, refs, names) && Sorted(names) && Locates(b, arena, ref, name) && k <= |names|
    requires (k > 0 ==> LexLe(names[k - 1], name)) && (k < |names| ==> LexLe(name, names[k]))
    ensures var sorted, order := refs[..k] + [ref] + refs[k..], names[..k] + [name] + names[k..];
            AllLocated(b, arena, sorted, order) && Sorted(order) && multiset(order) == multiset(names) + multiset{name}
  {
    InsertedLocated(b, arena, refs, names, ref, name, k);
    SameNames(names, name, k);
    InsertedSorted(names, name, k);
    hide *;
  }

  lemma InsertedLocated(b: Bytes, arena: Bytes, refs: seq<NameRef>, names: seq<Bytes>, ref: NameRef, name: Bytes, k: nat)
    requires AllLocated(b, arena, refs, names) && Locates(b, arena, ref, name) && k <= |names|
    ensures AllLocated(b, arena, refs[..k] + [ref] + refs[k..], names[..k] + [name] + names[k..])
  {
    hide Locates;
    InsertedAt(refs, ref, k);
    InsertedAt(names, name, k);
  }

  lemma SameNames(names: seq<Bytes>, name: Bytes, k: nat)
    requires k <= |names|
    ensures multiset(names[..k] + [name] + names[k..]) == multiset(names) + multiset{name}
  {
    assert names == names[..k] + names[k..];
  }

  lemma InsertedAt<T>(s: seq<T>, x: T, k: nat)
    requires k <= |s|
    ensures var t := s[..k] + [x] + s[k..];
            |t| == |s| + 1 && forall j | 0 <= j < |t| :: t[j] == if j < k then s[j] else if j == k then x else s[j - 1]
  {
  }

  lemma InsertedSorted(names: seq<Bytes>, name: Bytes, k: nat)
    requires Sorted(names) && k <= |names| && (k > 0 ==> LexLe(names[k - 1], name)) && (k < |names| ==> LexLe(name, names[k]))
    ensures Sorted(names[..k] + [name] + names[k..])
  {
    hide LexLe;
    var order := names[..k] + [name] + names[k..];
    InsertedAt(names, name, k);
    forall j | 0 < j < |order| ensures LexLe(order[j - 1], order[j]) {
      if j < k { assert LexLe(names[j - 1], names[j]); }
      if j > k + 1 { assert LexLe(names[j - 2], names[j - 1]); }
    }
  }

  // ---- Names of an object ----

  function UnknownNames(kind: Kind, ms: seq<Member>): seq<Bytes> {
    if ms == [] then []
    else
      var n := |ms| - 1;
      UnknownNames(kind, ms[..n]) + if IndexOf(kind, ms[n].name).None? then [ms[n].name] else []
  }

  /** No defined name twice. */
  predicate DefinedOnce(kind: Kind, ms: seq<Member>) {
    forall i, j | 0 <= i < j < |ms| :: ms[i].name == ms[j].name ==> IndexOf(kind, ms[j].name).None?
  }

  lemma {:induction false} UnknownIn(kind: Kind, ms: seq<Member>, name: Bytes)
    ensures name in UnknownNames(kind, ms) <==> Named(ms, name) && IndexOf(kind, name).None?
  {
    hide IndexOf;
    if ms != [] {
      var n := |ms| - 1;
      assert ms == ms[..n] + [ms[n]];
      UnknownIn(kind, ms[..n], name);
    }
  }

  /** Names are distinct exactly when no defined name repeats and no unknown one does. */
  lemma {:induction false} DistinctParts(kind: Kind, ms: seq<Member>)
    ensures DistinctNames(ms) <==> DefinedOnce(kind, ms) && Distinct(UnknownNames(kind, ms))
  {
    hide IndexOf;
    if ms != [] {
      var n := |ms| - 1;
      var init, last := ms[..n], ms[n];
      DistinctParts(kind, init);
      UnknownIn(kind, init, last.name);
      NamedAt(init, last.name);
      OnceMore(kind, ms);
      NamesMore(ms);
      hide DefinedOnce, DistinctNames;
      if IndexOf(kind, last.name).None? {
        DistinctMore(UnknownNames(kind, init), last.name);
      } else {
        assert UnknownNames(kind, ms) == UnknownNames(kind, init);
      }
    }
  }

  lemma NamedAt(ms: seq<Member>, name: Bytes)
    ensures Named(ms, name) <==> exists i | 0 <= i < |ms| :: ms[i].name == name
  {
    if Named(ms, name) {
      var m :| m in ms && m.name == name;
      var i :| 0 <= i < |ms| && ms[i] == m;
      assert ms[i].name == name;
    }
  }

  lemma OnceMore(kind: Kind, ms: seq<Member>)
    requires ms != []
    ensures var n := |ms| - 1;
            DefinedOnce(kind, ms) <==> DefinedOnce(kind, ms[..n]) && (IndexOf(kind, ms[n].name).None? || !Named(ms[..n], ms[n].name))
  {
    hide IndexOf;
    var n := |ms| - 1;
    NamedAt(ms[..n], ms[n].name);
    assert forall i | 0 <= i < n :: ms[..n][i] == ms[i];
  }

  lemma NamesMore(ms: seq<Member>)
    requires ms != []
    ensures var n := |ms| - 1; DistinctNames(ms) <==> DistinctNames(ms[..n]) && !Named(ms[..n], ms[n].name)
  {
    var n := |ms| - 1;
    NamedAt(ms[..n], ms[n].name);
    assert forall i | 0 <= i < n :: ms[..n][i] == ms[i];
  }

  lemma DistinctMore(names: seq<Bytes>, name: Bytes)
    ensures Distinct(names + [name]) <==> Distinct(names) && name !in names
  {
    var all := names + [name];
    if Distinct(all) {
      assert forall i, j | 0 <= i < j < |names| :: all[i] == names[i] && all[j] == names[j];
      forall i | 0 <= i < |names| ensures names[i] != name {
        assert all[i] != all[|names|];
      }
    }
  }
}
