/** The order of a batch: by arrival, then by entry id. */
module Ordering {
  import opened Basics
  import opened ByteOrder
  import opened Timestamps

  /** An entry awaiting linkage. Times are counted from the zero time, which is no arrival. */
  datatype Input = Input(
    entryID: Bytes,
    entryType: string,
    timestamp: Instant,
    contentHash: string,
    ingestedAt: int,
    expected: string)

  /** sortInputs' comparator. */
  predicate Earlier(a: Input, b: Input) {
    if a.ingestedAt == b.ingestedAt then Less(a.entryID, b.entryID) else a.ingestedAt < b.ingestedAt
  }

  /** A strict order, total on inputs whose ids differ. */
  lemma EarlierTotal(a: Input, b: Input)
    ensures a.entryID != b.entryID ==> Earlier(a, b) || Earlier(b, a)
    ensures !(Earlier(a, b) && Earlier(b, a)) && !Earlier(a, a)
  {
    LessTotal(a.entryID, b.entryID);
  }

  lemma EarlierTransitive(a: Input, b: Input, c: Input)
    requires Earlier(a, b) && Earlier(b, c)
    ensures Earlier(a, c)
  {
    if a.ingestedAt == b.ingestedAt == c.ingestedAt { LessTransitive(a.entryID, b.entryID, c.entryID); }
  }

  predicate DistinctIds(s: seq<Input>) {
    forall i, j | 0 <= i < j < |s| :: s[i].entryID != s[j].entryID
  }

  predicate InOrder(s: seq<Input>) {
    forall i, j | 0 <= i < j < |s| :: Earlier(s[i], s[j])
  }

  /** The batch in order. */
  function Sorted(s: seq<Input>): (r: seq<Input>)
    ensures |r| == |s| && multiset(r) == multiset(s)
  {
    if s == [] then [] else (assert s == s[..|s| - 1] + [s[|s| - 1]]; Insert(Sorted(s[..|s| - 1]), s[|s| - 1]))
  }

  function Insert(s: seq<Input>, x: Input): (r: seq<Input>)
    ensures |r| == |s| + 1 && multiset(r) == multiset(s) + multiset{x}
  {
    if s == [] then [x]
    else if Earlier(x, s[0]) then [x] + s
    else
      assert s == [s[0]] + s[1..];
      [s[0]] + Insert(s[1..], x)
  }

  lemma SameMembers(a: seq<Input>, b: seq<Input>)
    requires multiset(a) == multiset(b)
    ensures |a| == |b| && forall x :: x in a <==> x in b
  {
    assert forall x :: x in a <==> x in multiset(a);
    assert forall x :: x in b <==> x in multiset(b);
    assert |multiset(a)| == |a| && |multiset(b)| == |b|;
  }

  lemma {:induction false} InsertOrdered(s: seq<Input>, x: Input)
    requires InOrder(s) && forall y <- s :: y.entryID != x.entryID
    ensures InOrder(Insert(s, x))
  {
    hide Earlier;
    if s != [] {
      EarlierTotal(x, s[0]);
      if Earlier(x, s[0]) {
        forall j | 0 <= j < |s| ensures Earlier(x, s[j]) { if j > 0 { EarlierTransitive(x, s[0], s[j]); } }
      } else {
        InsertOrdered(s[1..], x);
        var r := Insert(s[1..], x);
        assert multiset(r) == multiset(s[1..] + [x]);
        SameMembers(r, s[1..] + [x]);
        forall j | 0 <= j < |r| ensures Earlier(s[0], r[j]) {
          assert r[j] in r;
          if r[j] != x {
            var k :| 0 <= k < |s[1..]| && s[1..][k] == r[j];
            assert s[1..][k] == s[k + 1];
          }
        }
      }
    }
  }

  lemma {:induction false} SortedOrdered(s: seq<Input>)
    requires DistinctIds(s)
    ensures InOrder(Sorted(s))
  {
    hide Earlier, Insert;
    if s != [] {
      var n := |s| - 1;
      SortedOrdered(s[..n]);
      SameMembers(Sorted(s[..n]), s[..n]);
      forall y | y in Sorted(s[..n]) ensures y.entryID != s[n].entryID {
        assert y in s[..n];
        var i :| 0 <= i < n && s[..n][i] == y;
      }
      InsertOrdered(Sorted(s[..n]), s[n]);
    }
  }

  /** Two orderings of the same inputs are one. */
  lemma {:induction false} OneOrder(a: seq<Input>, b: seq<Input>)
    requires InOrder(a) && InOrder(b) && multiset(a) == multiset(b)
    ensures a == b
    decreases |a|
  {
    hide Earlier;
    SameMembers(a, b);
    if a != [] {
      FirstSame(a, b);
      TailIs(a);
      TailIs(b);
      assert a == [a[0]] + a[1..] && b == [b[0]] + b[1..];
      OneOrder(a[1..], b[1..]);
    }
  }

  lemma FirstSame(a: seq<Input>, b: seq<Input>)
    requires InOrder(a) && InOrder(b) && a != [] && b != [] && forall x :: x in a <==> x in b
    ensures a[0] == b[0]
  {
    hide Earlier;
    assert a[0] in b && b[0] in a;
    EarlierTotal(a[0], b[0]);
  }

  lemma TailIs(a: seq<Input>)
    requires a != []
    ensures multiset(a[1..]) == multiset(a) - multiset{a[0]}
  {
    assert a == [a[0]] + a[1..];
  }

  /** Whatever way a batch is put in order, and in whatever order it was given, the result is the same. */
  lemma OrderIndependent(given: seq<Input>, sorted: seq<Input>)
    requires DistinctIds(given) && multiset(sorted) == multiset(given)
    ensures InOrder(sorted) <==> sorted == Sorted(given)
  {
    hide InOrder, Sorted;
    SortedOrdered(given);
    if InOrder(sorted) { OneOrder(sorted, Sorted(given)); }
  }

  lemma PermutedSame(a: seq<Input>, b: seq<Input>)
    requires DistinctIds(a) && DistinctIds(b) && multiset(a) == multiset(b)
    ensures Sorted(a) == Sorted(b)
  {
    SortedOrdered(b);
    OrderIndependent(a, Sorted(b));
  }

  lemma OrderedDistinct(s: seq<Input>)
    requires DistinctIds(s) && InOrder(s)
    ensures Sorted(s) == s
  {
    OrderIndependent(s, s);
  }
}
