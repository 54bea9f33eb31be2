/** Reading a checkpoint's text member by member, and the proof that it accepts exactly what Meaning does. */
module CheckpointReading {
  import opened Basics
  import Timestamps
  import opened JsonText
  import opened JsonTree
  import opened Findings
  import opened Bundles
  import opened CheckpointText

  // ---- Names ----

  /** The member cannot follow these: it is undefined, of another type, or a repeat. */
  predicate Wrong(p: Place, done: seq<Member>, m: Member) {
    IndexAt(p, m.name).None? || !Typed(p, IndexAt(p, m.name).value, m.value) || Named(done, m.name)
  }

  lemma GoodMore(p: Place, done: seq<Member>, m: Member)
    requires Good(p, done)
    ensures Good(p, done + [m]) <==> !Wrong(p, done, m)
  {
    hide IndexAt, Typed;
    var ms := done + [m];
    assert ms[|done|] == m && forall i | 0 <= i < |done| :: ms[i] == done[i];
    if !Wrong(p, done, m) {
      forall i, j | 0 <= i < j < |ms| ensures ms[i].name != ms[j].name {
        if j == |done| { assert done[i] in done; }
      }
      forall x | x in ms ensures IndexAt(p, x.name).Some? && Typed(p, IndexAt(p, x.name).value, x.value) {
        assert x in done || x == m;
      }
    }
  }

  lemma GoodStart(p: Place, done: seq<Member>, rest: seq<Member>)
    requires Good(p, done + rest)
    ensures Good(p, done)
  {
    hide IndexAt, Typed;
    var ms := done + rest;
    assert forall i | 0 <= i < |done| :: ms[i] == done[i];
    forall x | x in done ensures IndexAt(p, x.name).Some? && Typed(p, IndexAt(p, x.name).value, x.value) { assert x in ms; }
  }

  lemma SeenMore(p: Place, done: seq<Member>, m: Member)
    ensures Seen(p, done + [m]) == Seen(p, done) + match IndexAt(p, m.name) case Some(k) => {k} case None => {}
    ensures IndexAt(p, m.name).Some? ==> (IndexAt(p, m.name).value in Seen(p, done) <==> Named(done, m.name))
    ensures Seen(p, []) == {}
  {
    hide NamesAt;
    assert forall x :: x in done + [m] <==> x in done || x == m;
    if IndexAt(p, m.name).Some? && IndexAt(p, m.name).value in Seen(p, done) {
      var x :| x in done && IndexAt(p, x.name).Some? && IndexAt(p, x.name).value == IndexAt(p, m.name).value;
      assert x.name == m.name;
    }
  }

  lemma SetMore(p: Place, f: Fields, done: seq<Member>, m: Member)
    ensures SetAll(p, f, done + [m]) == SetOne(p, SetAll(p, f, done), m)
  {
    hide SetOne;
    assert (done + [m])[..|done|] == done;
  }

  // ---- Values ----

  lemma TextHere(b: Bytes, i: nat, d: nat)
    requires i <= |b|
    ensures var j := SkipSpace(b, i);
            if j < |b| && b[j] == QUOTE && Chars(b, j + 1).Some? then
              Value(b, i, d) == Some(Parsed(Str(Chars(b, j + 1).value.s), Chars(b, j + 1).value.end))
            else Value(b, i, d).Some? ==> !Value(b, i, d).value.v.Str?
  {
    hide SkipSpace, Chars, NumberEnd, WordEnd, Members, Elems;
    ValueSkips(b, i, d);
  }

  lemma ObjectHere(b: Bytes, i: nat, d: nat)
    requires i <= |b|
    ensures var j := SkipSpace(b, i);
            if j < |b| && b[j] == OPEN_OBJECT then
              Value(b, i, d) == match ObjectAt(b, j, d) case None => None case Some(r) => Some(Parsed(Obj(r.v), r.end))
            else Value(b, i, d).Some? ==> !Value(b, i, d).value.v.Obj?
  {
    hide SkipSpace, Chars, NumberEnd, WordEnd, Members, Elems, ObjectAt, ArrayAt;
    ValueSkips(b, i, d);
  }

  /** A digit follows: no delimiter. */
  predicate Followed(b: Bytes, e: nat) {
    e < |b| && IsDigitByte(b[e])
  }

  predicate PointOrExponent(b: Bytes, e: nat) {
    e < |b| && b[e] in {0x2E, 0x65, 0x45}
  }

  lemma DigitHere(b: Bytes, i: nat, d: nat)
    requires i <= |b|
    ensures var j := SkipSpace(b, i);
            if j < |b| && IsDigitByte(b[j]) then
              Value(b, i, d) == match NumberEnd(b, j) case None => None case Some(e) => Some(Parsed(Num(b[j..e]), e))
            else Value(b, i, d).Some? ==> !(Value(b, i, d).value.v.Num? && Canonical(Value(b, i, d).value.v.text))
  {
    hide SkipSpace, Chars, NumberEnd, WordEnd, Members, Elems, ObjectAt, ArrayAt, ValueOf;
    ValueSkips(b, i, d);
    var j := SkipSpace(b, i);
    if j < |b| && !IsDigitByte(b[j]) && Value(b, i, d).Some? && Value(b, i, d).value.v.Num? {
      assert Value(b, i, d).value.v.text[0] == b[j];
    }
  }

  lemma {:induction false} DigitsAre(b: Bytes, i: nat)
    requires i <= |b|
    ensures forall k | i <= k < Digits(b, i) :: IsDigitByte(b[k])
    ensures Digits(b, i) < |b| ==> !IsDigitByte(b[Digits(b, i)])
    decreases |b| - i
  {
    if i < |b| && IsDigitByte(b[i]) { DigitsAre(b, i + 1); }
  }

  /** The end of a number that starts with a digit. */
  lemma NumberEnds(b: Bytes, j: nat)
    requires j < |b| && IsDigitByte(b[j])
    ensures var e := Digits(b, j);
            && j < e
            && (b[j] == 0x30 && e > j + 1 ==> NumberEnd(b, j) == Some(j + 1) && Followed(b, j + 1))
            && ((b[j] != 0x30 || e == j + 1) && !PointOrExponent(b, e) ==> NumberEnd(b, j) == Some(e))
            && ((b[j] != 0x30 || e == j + 1) && PointOrExponent(b, e) && NumberEnd(b, j).Some? ==> NumberEnd(b, j).value > e)
  {
    DigitsAre(b, j);
    var e := Digits(b, j);
    assert e == Digits(b, j + 1);
    hide Digits;
    DigitsAre(b, e + if e < |b| then 1 else 0);
  }

  lemma {:induction false} LongNumber(text: Bytes)
    requires text != [] && (forall c <- text :: IsDigitByte(c)) && text[0] != 0x30
    ensures ValueOf(text) >= Timestamps.Pow10(|text| - 1)
  {
    var n := |text| - 1;
    assert text[n] in text;
    if n > 0 {
      assert forall c <- text[..n] :: c in text;
      LongNumber(text[..n]);
    } else {
      assert text[..0] == [];
    }
  }

  lemma PowSixteen(k: nat)
    requires k >= 16
    ensures Timestamps.Pow10(k) > MAX_SAFE
  {
    Timestamps.PowAdd(8, 8);
    Timestamps.PowAdd(4, 4);
    assert Timestamps.Pow10(4) == 10000 by { assert Timestamps.Pow10(2) == 100; }
    assert Timestamps.Pow10(16) > MAX_SAFE;
    Timestamps.PowAdd(16, k - 16);
    PowPositive(k - 16);
  }

  lemma {:induction false} PowPositive(k: nat)
    ensures Timestamps.Pow10(k) >= 1
  {
    if k > 0 { PowPositive(k - 1); }
  }

  /** checkpointNumber's checks tell exactly the canonical numbers, up to a digit that no delimiter can be. */
  lemma NumberTold(b: Bytes, i: nat, d: nat)
    requires i <= |b| && SkipSpace(b, i) < |b| && IsDigitByte(b[SkipSpace(b, i)])
    ensures var j := SkipSpace(b, i);
            var e := Digits(b, j);
            j < e <= |b|
            && if e - j <= 16 && (e - j == 1 || b[j] != 0x30) && !PointOrExponent(b, e) && ValueOf(b[j..e]) <= MAX_SAFE
               then Value(b, i, d) == Some(Parsed(Num(b[j..e]), e)) && Canonical(b[j..e])
               else Value(b, i, d).Some? ==>
                      !(Value(b, i, d).value.v.Num? && Canonical(Value(b, i, d).value.v.text)) || Followed(b, Value(b, i, d).value.end)
  {
    hide SkipSpace, Digits, NumberEnd, ValueOf, Value;
    var j := SkipSpace(b, i);
    var e := Digits(b, j);
    DigitHere(b, i, d);
    NumberEnds(b, j);
    DigitsAre(b, j);
    var text := b[j..e];
    forall c | c in text ensures IsDigitByte(c) {
      var k :| 0 <= k < |text| && text[k] == c;
      assert c == b[j + k];
    }
    if e - j > 16 && b[j] != 0x30 {
      LongNumber(text);
      PowSixteen(e - j - 1);
    }
    if (b[j] != 0x30 || e == j + 1) && PointOrExponent(b, e) && NumberEnd(b, j).Some? {
      var far := NumberEnd(b, j).value;
      assert b[j..far][e - j] == b[e] && b[j..far][e - j] in b[j..far];
    }
  }

  // ---- Objects ----

  /** A name and a colon from i on. */
  predicate NameHere(b: Bytes, i: nat)
    requires i < |b|
  {
    b[i] == QUOTE && Chars(b, i + 1).Some?
    && var colon := SkipSpace(b, Chars(b, i + 1).value.end); colon < |b| && b[colon] == COLON
  }

  /** Where the value after them starts. */
  function AfterName(b: Bytes, i: nat): (j: nat)
    requires i < |b| && NameHere(b, i)
    ensures i < j <= |b|
  {
    SkipSpace(b, Chars(b, i + 1).value.end) + 1
  }

  /** The delimiter after a member whose value ended at e. */
  function AfterValue(b: Bytes, m: Member, e: nat): (r: Option<Step<Member>>)
    requires e <= |b|
    ensures r.Some? ==> r.value.v == m
  {
    var k := SkipSpace(b, e);
    if k == |b| then None
    else if b[k] == CLOSE_OBJECT then Some(Step(m, true, k + 1))
    else if b[k] != COMMA || SkipSpace(b, k + 1) == |b| then None
    else Some(Step(m, false, SkipSpace(b, k + 1)))
  }

  lemma MemberIs(b: Bytes, i: nat, d: nat)
    requires i < |b|
    ensures NextMember(b, i, d) ==
              if !NameHere(b, i) then None
              else match Value(b, AfterName(b, i), d)
                case None => None
                case Some(v) => AfterValue(b, Member(Chars(b, i + 1).value.s, v.v), v.end)
  {
    hide Chars, Value, SkipSpace;
    var nv, om := NameAndValue(b, i, d), OneMember(b, i, d);
    if NameHere(b, i) && Value(b, AfterName(b, i), d).Some? {
      var v := Value(b, AfterName(b, i), d).value;
      assert nv == Some(Parsed(Member(Chars(b, i + 1).value.s, v.v), v.end));
    } else {
      assert nv == None;
    }
  }

  /** A member whose value a digit follows is no member. */
  lemma NotFollowed(b: Bytes, m: Member, e: nat)
    requires Followed(b, e)
    ensures AfterValue(b, m, e) == None
  {
  }

  class CheckpointReader {
    const b: Bytes
    var i: nat
    /** A name that is undefined or repeated was met. */
    var bad: bool
    var ck: Fields

    constructor (b: Bytes)
      ensures this.b == b && i == 0 && !bad && ck == NO_FIELDS
    {
      this.b, i, bad, ck := b, 0, false, NO_FIELDS;
    }

    method Peek() returns (c: byte, ok: bool)
      requires i <= |b|
      modifies this`i
      ensures i == SkipSpace(b, old(i)) && (ok <==> i < |b|) && (ok ==> c == b[i])
    {
      ghost var start := i;
      while i < |b| && IsSpace(b[i])
        invariant i <= |b| && SkipSpace(b, i) == SkipSpace(b, start)
      {
        i := i + 1;
      }
      ok := i < |b|;
      c := if ok then b[i] else 0;
    }

    /** checkpointString. */
    method String(ghost d: nat) returns (s: Bytes, ok: bool)
      requires i <= |b|
      modifies this`i
      ensures ok <==> Value(b, old(i), d).Some? && Value(b, old(i), d).value.v.Str?
      ensures ok ==> Value(b, old(i), d) == Some(Parsed(Str(s), i)) && i <= |b|
    {
      hide Value, Chars, SkipSpace, Unescape;
      TextHere(b, i, d);
      var c, more := Peek();
      s := [];
      if !more || c != QUOTE { return s, false; }
      var raw, n, escaped, end, scanned := ScanString(b, i);
      if !scanned { return s, false; }
      Scanned(b, i + 1);
      s := raw;
      if escaped { s := AppendUnescaped([], raw); }
      assert [] + Unescape(raw) == Unescape(raw);
      i := end;
      ok := true;
    }

    /** The number these digits give. */
    method DigitsNumber(text: Bytes) returns (v: nat)
      requires forall c <- text :: IsDigitByte(c)
      ensures v == ValueOf(text)
    {
      v := 0;
      for k := 0 to |text|
        invariant v == ValueOf(text[..k])
      {
        assert text[..k + 1][..k] == text[..k] && IsDigitByte(text[k]);
        v := v * 10 + (text[k] - 0x30) as nat;
      }
      assert text[..|text|] == text;
    }

    /** checkpointNumber. */
    method Number(ghost d: nat) returns (v: nat, ok: bool)
      requires i <= |b|
      modifies this`i
      ensures ok ==> Value(b, old(i), d).Some? && i == Value(b, old(i), d).value.end
                     && var t := Value(b, old(i), d).value.v; t.Num? && Canonical(t.text) && v == ValueOf(t.text)
      ensures !ok && Value(b, old(i), d).Some? ==>
                var r := Value(b, old(i), d).value; !(r.v.Num? && Canonical(r.v.text)) || Followed(b, r.end)
    {
      hide Value, SkipSpace, Canonical;
      ghost var start := i;
      DigitHere(b, i, d);
      var c, more := Peek();
      v := 0;
      if !more || !IsDigitByte(c) { return 0, false; }
      NumberTold(b, start, d);
      var end := Digits(b, i);
      var text := b[i..end];
      if |text| > 16 || (|text| > 1 && text[0] == 0x30) { return 0, false; }
      if end < |b| && (b[end] == 0x2E || b[end] == 0x65 || b[end] == 0x45) { return 0, false; }
      DigitsAre(b, i);
      v := DigitsNumber(text);
      if v >= 0x20_0000_0000_0000 { return 0, false; }
      i := end;
      ok := true;
    }

    /** A member of the whole, or of its range. */
    method MemberOf(p: Place, idx: nat, d: nat) returns (ok: bool)
      requires i <= |b| && idx < |NamesAt(p)|
      modifies this
      ensures ok ==> Value(b, old(i), d).Some? && i == Value(b, old(i), d).value.end <= |b|
      ensures ok && old(bad) ==> bad
      ensures ok && !old(bad) ==> (bad <==> !Typed(p, idx, Value(b, old(i), d).value.v))
      ensures ok && !bad ==> ck == Set(p, old(ck), idx, Value(b, old(i), d).value.v)
      ensures !ok && !old(bad) && Value(b, old(i), d).Some? ==>
                var r := Value(b, old(i), d).value; !Typed(p, idx, r.v) || Followed(b, r.end)
      decreases |b| - i, 1
    {
      hide Value, SkipSpace, Canonical, Good, Seen, ObjectAt, SetAll;
      if p == Range {
        var s;
        s, ok := String(d);
        if ok { ck := if idx == 0 then ck.(first := s) else ck.(last := s); }
      } else if IsNumber(idx) {
        var v;
        v, ok := Number(d);
        if ok { ck := ck.(numbers := ck.numbers[idx := v]); }
      } else if idx == 5 {
        ObjectHere(b, i, d);
        var c, more := Peek();
        if !more || c != OPEN_OBJECT { return false; }
        var seen;
        seen, ok := Object(Range, d);
        ok := ok && seen == {0, 1};
      } else {
        var s;
        s, ok := String(d);
        if ok { ck := ck.(texts := ck.texts[idx := s]); }
      }
    }

    /** A value where none is defined, or a repeat: read past by the same grammar. */
    method Skip(d: nat) returns (ok: bool)
      requires i <= |b|
      modifies this`i
      ensures ok <==> Value(b, old(i), d).Some?
      ensures ok ==> i == Value(b, old(i), d).value.end <= |b|
    {
      var v := Value(b, i, d);
      ok := v.Some?;
      if ok { i := v.value.end; }
    }

    /** A name and its colon. */
    method ReadName() returns (name: Bytes, ok: bool)
      requires i < |b|
      modifies this`i
      ensures ok <==> NameHere(b, old(i))
      ensures ok ==> name == Chars(b, old(i) + 1).value.s && i == AfterName(b, old(i))
    {
      hide SkipSpace, Chars, Unescape;
      if b[i] != QUOTE { return [], false; }
      var raw, n, escaped, end, scanned := ScanString(b, i);
      if !scanned { return [], false; }
      Scanned(b, i + 1);
      name := raw;
      if escaped { name := AppendUnescaped([], raw); }
      assert [] + Unescape(raw) == Unescape(raw);
      i := end;
      var c, more := Peek();
      if !more || c != COLON { return name, false; }
      i := i + 1;
      ok := true;
    }

    /** The delimiter after a member, and what follows a comma. */
    method Delimiter(ghost m: Member) returns (closed: bool, ok: bool)
      requires i <= |b|
      modifies this`i
      ensures ok <==> AfterValue(b, m, old(i)).Some?
      ensures ok ==> AfterValue(b, m, old(i)) == Some(Step(m, closed, i))
    {
      hide SkipSpace;
      var c, more := Peek();
      closed, ok := false, false;
      if !more || (c != CLOSE_OBJECT && c != COMMA) { return; }
      i := i + 1;
      closed, ok := c == CLOSE_OBJECT, true;
      if c == COMMA { c, ok := Peek(); }
    }

    /** One member and the delimiter after it. */
    method ReadMember(p: Place, d: nat, seen: set<nat>, ghost done: seq<Member>) returns (seen': set<nat>, closed: bool, ok: bool)
      requires i < |b| && seen == Seen(p, done)
      modifies this
      ensures ok ==> NextMember(b, old(i), d).Some?
                     && var x := NextMember(b, old(i), d).value; i == x.next && closed == x.closed && seen' == Seen(p, done + [x.v])
      ensures ok && old(bad) ==> bad
      ensures ok && !old(bad) ==> (bad <==> Wrong(p, done, NextMember(b, old(i), d).value.v))
      ensures ok && !bad ==> ck == SetOne(p, old(ck), NextMember(b, old(i), d).value.v)
      ensures !ok && !old(bad) && NextMember(b, old(i), d).Some? ==> Wrong(p, done, NextMember(b, old(i), d).value.v)
      decreases |b| - i, 2
    {
      hide Value, SkipSpace, Chars, Typed, IndexAt, Seen, Set, NextMember, Named, Followed, NameHere, AfterName, AfterValue;
      seen', closed := seen, false;
      MemberIs(b, i, d);
      var name;
      name, ok := ReadName();
      if !ok { return; }
      ghost var value := Value(b, i, d);
      ghost var m := if value.Some? then JsonTree.Member(name, value.value.v) else JsonTree.Member(name, Word);
      SeenMore(p, done, m);
      if value.Some? && Followed(b, value.value.end) { NotFollowed(b, m, value.value.end); }
      var idx := IndexAt(p, name);
      if idx.None? || idx.value in seen {
        bad := true;
        ok := Skip(d);
      } else {
        ok := MemberOf(p, idx.value, d);
      }
      if !ok { return; }
      if idx.Some? { seen' := seen + {idx.value}; }
      closed, ok := Delimiter(m);
    }

    /** object, from its brace. */
    method Object(p: Place, d: nat) returns (seen: set<nat>, ok: bool)
      requires i < |b| && b[i] == OPEN_OBJECT
      modifies this
      ensures ok ==> ObjectAt(b, old(i), d).Some? && i == ObjectAt(b, old(i), d).value.end && seen == Seen(p, ObjectAt(b, old(i), d).value.v)
      ensures ok && old(bad) ==> bad
      ensures ok && !old(bad) ==> (bad <==> !Good(p, ObjectAt(b, old(i), d).value.v))
      ensures ok && !bad ==> ck == SetAll(p, old(ck), ObjectAt(b, old(i), d).value.v)
      ensures !ok && !old(bad) && ObjectAt(b, old(i), d).Some? ==> !Good(p, ObjectAt(b, old(i), d).value.v)
      decreases |b| - i, 0
    {
      hide SkipSpace, Members, NextMember, Prepend, Seen, Good, SetAll, SetOne, Wrong;
      seen := {};
      NothingRead(p, ck);
      if d == 0 { return seen, false; }
      ghost var first := i;
      i := i + 1;
      var c, more := Peek();
      if !more { return seen, false; }
      if c == CLOSE_OBJECT {
        i := i + 1;
        return seen, true;
      }
      ghost var start, done, ck0, bad0 := i, [], ck, bad;
      assert ObjectAt(b, first, d) == Members(b, start, d - 1);
      PrependNothing(Members(b, i, d - 1));
      var closed := false;
      while !closed
        invariant first < i <= |b| && seen == Seen(p, done) && (bad0 ==> bad)
        invariant !bad0 ==> (bad <==> !Good(p, done))
        invariant !bad ==> ck == SetAll(p, ck0, done)
        invariant !closed ==> i < |b| && Members(b, start, d - 1) == Prepend(done, Members(b, i, d - 1))
        invariant closed ==> Members(b, start, d - 1) == Some(Parsed(done, i))
        decreases |b| - i, !closed
      {
        ghost var at, was := i, bad;
        MembersUnfold(b, i, d - 1);
        seen, closed, ok := ReadMember(p, d - 1, seen, done);
        Onward(b, start, at, d - 1, done);
        if !ok {
          if !bad0 && Members(b, start, d - 1).Some? { Stopped(p, b, start, at, d - 1, done, was); }
          return seen, false;
        }
        ghost var x := NextMember(b, at, d - 1).value;
        SetMore(p, ck0, done, x.v);
        if !bad0 { GoodStep(p, done, x.v); }
        done := done + [x.v];
      }
      ok := true;
    }
  }

  lemma NothingRead(p: Place, f: Fields)
    ensures Good(p, []) && Seen(p, []) == {} && SetAll(p, f, []) == f
  {
  }

  lemma GoodStep(p: Place, done: seq<Member>, m: Member)
    ensures Good(p, done + [m]) <==> Good(p, done) && !Wrong(p, done, m)
  {
    hide Good, Wrong;
    if Good(p, done) { GoodMore(p, done, m); }
    if Good(p, done + [m]) { GoodStart(p, done, [m]); }
  }

  /** One member further on. */
  lemma Onward(b: Bytes, start: nat, at: nat, d: nat, done: seq<Member>)
    requires start < |b| && at < |b| && Members(b, start, d) == Prepend(done, Members(b, at, d))
    ensures match NextMember(b, at, d)
            case None => Members(b, start, d) == None
            case Some(x) =>
              if x.closed then Members(b, start, d) == Some(Parsed(done + [x.v], x.next))
              else Members(b, start, d) == Prepend(done + [x.v], Members(b, x.next, d))
  {
    hide Members, NextMember;
    MembersUnfold(b, at, d);
    match NextMember(b, at, d) {
      case None =>
      case Some(x) => if !x.closed { PrependTwice(done, [x.v], Members(b, x.next, d)); }
    }
  }

  /** Where a reading stopped, the object is no object, or not a good one. */
  lemma Stopped(p: Place, b: Bytes, start: nat, at: nat, d: nat, done: seq<Member>, bad: bool)
    requires start < |b| && at < |b| && Members(b, start, d) == Prepend(done, Members(b, at, d)) && Members(b, start, d).Some?
    requires bad <==> !Good(p, done)
    requires !bad && NextMember(b, at, d).Some? ==> Wrong(p, done, NextMember(b, at, d).value.v)
    ensures !Good(p, Members(b, start, d).value.v)
  {
    hide Members, NextMember, Good, Wrong, Prepend;
    Onward(b, start, at, d, done);
    var all := Members(b, start, d).value.v;
    var x := NextMember(b, at, d).value;
    GoodStep(p, done, x.v);
    if Good(p, all) {
      if !x.closed {
        var rest := Members(b, x.next, d).value.v;
        assert all == done + [x.v] + rest;
        GoodStart(p, done + [x.v], rest);
      }
    }
  }

  /** parseCheckpoint: the checkpoint a text means, and nothing of any other text or of one that was too long. */
  method ParseCheckpoint(w: World, text: Option<Bytes>) returns (ck: Option<Checkpoint>)
    ensures ck == match text case None => None case Some(b) => Meaning(w, b)
  {
    hide Value, SkipSpace, Good, Seen, SetAll, ObjectAt, CheckpointText.Shaped;
    if text.None? { return None; }
    var b := text.value;
    var r := new CheckpointReader(b);
    ObjectHere(b, 0, DEPTH);
    var c, more := r.Peek();
    if !more || c != OPEN_OBJECT { return None; }
    var seen, ok := r.Object(Whole, DEPTH);
    if !ok || seen != {0, 1, 2, 3, 4, 5, 6, 7, 8, 9, 10} || r.bad { return None; }
    c, more := r.Peek();
    if more { return None; }
    var f := r.ck;
    ShapedIs(w, f);
    var signature := DecodeCanonical(w, Latin(TextAt(f, 6)));
    if signature.None? || |signature.value| != SIGNATURE_SIZE { return None; }
    var anchorID, previous, subject := Latin(TextAt(f, 0)), Latin(TextAt(f, 4)), Latin(TextAt(f, 8));
    if NumberAt(f, 10) != 6 || anchorID == "" || '|' in anchorID || !HashShape(Latin(TextAt(f, 1))) || NumberAt(f, 3) < 1
       || previous == "" || '|' in previous || !EntryIdOK(Latin(f.first)) || !EntryIdOK(Latin(f.last)) || !LowerHex(Latin(TextAt(f, 7)), 32)
       || subject == "" || '|' in subject || NumberAt(f, 9) < 1
    {
      return None;
    }
    ck := Some(Checkpoint(anchorID, Latin(TextAt(f, 1)), NumberAt(f, 2), NumberAt(f, 3), previous, Latin(f.first), Latin(f.last),
                          signature.value, Latin(TextAt(f, 7)), subject, NumberAt(f, 9)));
  }

  /** The shapes asked for, of the members as strings. */
  lemma ShapedIs(w: World, f: Fields)
    ensures var signature := DecodeCanonical(w, Latin(TextAt(f, 6)));
            CheckpointText.Shaped(w, f) ==
              if signature.Some? && |signature.value| == SIGNATURE_SIZE && NumberAt(f, 10) == 6
                 && Latin(TextAt(f, 0)) != "" && '|' !in Latin(TextAt(f, 0)) && HashShape(Latin(TextAt(f, 1))) && NumberAt(f, 3) >= 1
                 && Latin(TextAt(f, 4)) != "" && '|' !in Latin(TextAt(f, 4)) && EntryIdOK(Latin(f.first)) && EntryIdOK(Latin(f.last))
                 && LowerHex(Latin(TextAt(f, 7)), 32) && Latin(TextAt(f, 8)) != "" && '|' !in Latin(TextAt(f, 8)) && NumberAt(f, 9) >= 1
              then Some(Checkpoint(Latin(TextAt(f, 0)), Latin(TextAt(f, 1)), NumberAt(f, 2), NumberAt(f, 3), Latin(TextAt(f, 4)),
                                   Latin(f.first), Latin(f.last), signature.value, Latin(TextAt(f, 7)), Latin(TextAt(f, 8)), NumberAt(f, 9)))
              else None
  {
    LabelIs(TextAt(f, 0));
    LabelIs(TextAt(f, 4));
    LabelIs(TextAt(f, 8));
    hide Label, HashShape, EntryIdOK, LowerHex, DecodeCanonical, TextAt, NumberAt, Latin;
  }

  lemma LabelIs(s: Bytes)
    ensures CheckpointText.Label(s) <==> Latin(s) != "" && '|' !in Latin(s)
  {
    if 0x7C in s {
      var i :| 0 <= i < |s| && s[i] == 0x7C;
      assert Latin(s)[i] == '|';
    }
    if '|' in Latin(s) {
      var i :| 0 <= i < |s| && Latin(s)[i] == '|';
      assert s[i] == 0x7C;
    }
  }
}
