/** The order of byte strings, as Go compares them. */
module ByteOrder {
  import opened Basics

  /** bytes.Compare(a, c) <= 0. */
  predicate LexLe(a: Bytes, c: Bytes)
    decreases |a|
  {
    a == [] || (c != [] && (a[0] < c[0] || (a[0] == c[0] && LexLe(a[1..], c[1..]))))
  }

  lemma {:induction false} LexTotal(a: Bytes, c: Bytes)
    ensures LexLe(a, c) || LexLe(c, a)
    decreases |a|
  {
    if a != [] && c != [] { LexTotal(a[1..], c[1..]); }
  }

  lemma {:induction false} LexEqual(a: Bytes, c: Bytes)
    requires LexLe(a, c) && LexLe(c, a)
    ensures a == c
    decreases |a|
  {
    if a != [] {
      LexEqual(a[1..], c[1..]);
      assert a == [a[0]] + a[1..] && c == [c[0]] + c[1..];
    }
  }

  lemma {:induction false} LexTrans(a: Bytes, c: Bytes, d: Bytes)
    requires LexLe(a, c) && LexLe(c, d)
    ensures LexLe(a, d)
    decreases |a|
  {
    if a != [] && a[0] == c[0] && c[0] == d[0] { LexTrans(a[1..], c[1..], d[1..]); }
  }

  /** Go's < on strings. */
  predicate Less(a: Bytes, c: Bytes) {
    !LexLe(c, a)
  }

  lemma LessTotal(a: Bytes, c: Bytes)
    ensures Less(a, c) || Less(c, a) || a == c
    ensures !(Less(a, c) && Less(c, a)) && !Less(a, a)
  {
    hide LexLe;
    LexTotal(a, c);
    LexTotal(a, a);
    if LexLe(a, c) && LexLe(c, a) { LexEqual(a, c); }
  }

  lemma LessTransitive(a: Bytes, c: Bytes, d: Bytes)
    requires Less(a, c) && Less(c, d)
    ensures Less(a, d)
  {
    hide LexLe;
    LexTotal(a, c);
    LexTotal(c, d);
    if LexLe(d, a) { LexTrans(d, a, c); }
  }

  /** At the first byte where they differ a's is the smaller, or a is a proper prefix of c. */
  ghost predicate Precedes(a: Bytes, c: Bytes) {
    exists k | 0 <= k <= |a| :: PrecedesAt(a, c, k)
  }

  predicate PrecedesAt(a: Bytes, c: Bytes, k: nat)
    requires k <= |a|
  {
    k < |c| && a[..k] == c[..k] && (k == |a| || a[k] < c[k])
  }

  /** The order, told by the first difference. */
  lemma {:induction false} LessIs(a: Bytes, c: Bytes)
    ensures Less(a, c) <==> Precedes(a, c)
    decreases |a|
  {
    if a == [] {
      assert c != [] ==> PrecedesAt(a, c, 0);
    } else if c != [] {
      if a[0] == c[0] {
        LessIs(a[1..], c[1..]);
        if Precedes(a[1..], c[1..]) {
          var k :| 0 <= k <= |a[1..]| && PrecedesAt(a[1..], c[1..], k);
          assert a[..k + 1] == [a[0]] + a[1..][..k] && c[..k + 1] == [c[0]] + c[1..][..k];
          assert PrecedesAt(a, c, k + 1);
        }
        if Precedes(a, c) {
          var k :| 0 <= k <= |a| && PrecedesAt(a, c, k);
          assert k > 0;
          assert a[1..][..k - 1] == a[..k][1..] && c[1..][..k - 1] == c[..k][1..];
          assert PrecedesAt(a[1..], c[1..], k - 1);
        }
      } else {
        assert a[0] < c[0] ==> PrecedesAt(a, c, 0);
        forall k | 0 < k <= |a| && k <= |c| ensures a[..k] != c[..k] { assert a[..k][0] != c[..k][0]; }
      }
    }
  }
}
