/** JSON values, and the whole input read as one: RFC 8259 with a limit on depth. */
module JsonTree {
  import opened Basics
  import opened JsonText

  datatype Json = Obj(members: seq<Member>) | Arr(elems: seq<Json>) | Str(s: Bytes) | Num(text: Bytes) | Word

  /** A member: its name unescaped. */
  datatype Member = Member(name: Bytes, value: Json)

  /** What was read, and the index after it. */
  datatype Parsed<T> = Parsed(v: T, end: nat)

  const OPEN_OBJECT: byte := 0x7B
  const CLOSE_OBJECT: byte := 0x7D
  const OPEN_ARRAY: byte := 0x5B
  const CLOSE_ARRAY: byte := 0x5D
  const COLON: byte := 0x3A
  const COMMA: byte := 0x2C

  const TRUE_WORD: Bytes := [0x74, 0x72, 0x75, 0x65]
  const FALSE_WORD: Bytes := [0x66, 0x61, 0x6C, 0x73, 0x65]
  const NULL_WORD: Bytes := [0x6E, 0x75, 0x6C, 0x6C]

  predicate IsDigitByte(c: byte) { 0x30 <= c <= 0x39 }

  /** The index after the run of digits at i. */
  function Digits(b: Bytes, i: nat): (j: nat)
    requires i <= |b|
    ensures i <= j <= |b|
    decreases |b| - i
  {
    if i < |b| && IsDigitByte(b[i]) then Digits(b, i + 1) else i
  }

  /** A run of digits, as long as can be. */
  lemma {:induction false} DigitsRun(b: Bytes, i: nat)
    requires i <= |b|
    ensures var j := Digits(b, i);
            && (forall k | i <= k < j :: '0' <= b[k] as char <= '9') && (j < |b| ==> !('0' <= b[j] as char <= '9'))
    decreases |b| - i
  {
    if i < |b| && IsDigitByte(b[i]) { DigitsRun(b, i + 1); }
  }

  function FractionEnd(b: Bytes, i: nat): (r: Option<nat>)
    requires i <= |b|
    ensures r.Some? ==> i <= r.value <= |b|
  {
    if i < |b| && b[i] == 0x2E then (if Digits(b, i + 1) == i + 1 then None else Some(Digits(b, i + 1))) else Some(i)
  }

  function ExponentEnd(b: Bytes, i: nat): (r: Option<nat>)
    requires i <= |b|
    ensures r.Some? ==> i <= r.value <= |b|
  {
    if i < |b| && (b[i] == 0x65 || b[i] == 0x45) then
      var j := if i + 1 < |b| && (b[i + 1] == 0x2B || b[i + 1] == 0x2D) then i + 2 else i + 1;
      if Digits(b, j) == j then None else Some(Digits(b, j))
    else Some(i)
  }

  /** RFC 8259 section 6: a minus, an integer without leading zeros, a fraction, an exponent. */
  function NumberEnd(b: Bytes, i: nat): (r: Option<nat>)
    requires i <= |b|
    ensures r.Some? ==> i < r.value <= |b|
  {
    var j := if i < |b| && b[i] == 0x2D then i + 1 else i;
    if j >= |b| || !IsDigitByte(b[j]) then None
    else
      match FractionEnd(b, if b[j] == 0x30 then j + 1 else Digits(b, j + 1))
      case None => None
      case Some(k) => ExponentEnd(b, k)
  }

  function WordEnd(b: Bytes, i: nat, word: Bytes): (r: Option<nat>)
    requires i <= |b| && word != []
    ensures r.Some? ==> i < r.value <= |b|
  {
    if i + |word| <= |b| && b[i..i + |word|] == word then Some(i + |word|) else None
  }

  /** A value, after whitespace, nested at most d deep. */
  function Value(b: Bytes, i: nat, d: nat): (r: Option<Parsed<Json>>)
    requires i <= |b|
    ensures r.Some? ==> i < r.value.end <= |b|
    decreases |b| - i, 5
  {
    var j := SkipSpace(b, i);
    if j == |b| then None else ValueAt(b, j, d)
  }

  /** A string, a number, or one of the three words. */
  function ScalarAt(b: Bytes, i: nat): (r: Option<Parsed<Json>>)
    requires i < |b|
    ensures r.Some? ==> i < r.value.end <= |b| && (r.value.v.Str? || r.value.v.Num? || r.value.v.Word?)
    ensures r.Some? ==> (r.value.v.Str? <==> b[i] == QUOTE)
  {
    var c := b[i];
    if c == QUOTE then
      match Chars(b, i + 1) case None => None case Some(t) => Some(Parsed(Str(t.s), t.end))
    else if c == 0x74 then
      match WordEnd(b, i, TRUE_WORD) case None => None case Some(e) => Some(Parsed(Word, e))
    else if c == 0x66 then
      match WordEnd(b, i, FALSE_WORD) case None => None case Some(e) => Some(Parsed(Word, e))
    else if c == 0x6E then
      match WordEnd(b, i, NULL_WORD) case None => None case Some(e) => Some(Parsed(Word, e))
    else if c == 0x2D || IsDigitByte(c) then
      match NumberEnd(b, i) case None => None case Some(e) => Some(Parsed(Num(b[i..e]), e))
    else None
  }

  /** A value that starts at i. */
  function ValueAt(b: Bytes, i: nat, d: nat): (r: Option<Parsed<Json>>)
    requires i < |b|
    ensures r.Some? ==> i < r.value.end <= |b|
    ensures r.Some? ==> (r.value.v.Obj? <==> b[i] == OPEN_OBJECT) && (r.value.v.Arr? <==> b[i] == OPEN_ARRAY)
                        && (r.value.v.Str? <==> b[i] == QUOTE)
    decreases |b| - i, 4
  {
    if b[i] == OPEN_OBJECT then
      match ObjectAt(b, i, d) case None => None case Some(p) => Some(Parsed(Obj(p.v), p.end))
    else if b[i] == OPEN_ARRAY then
      match ArrayAt(b, i, d) case None => None case Some(p) => Some(Parsed(Arr(p.v), p.end))
    else ScalarAt(b, i)
  }

  function ObjectAt(b: Bytes, i: nat, d: nat): (r: Option<Parsed<seq<Member>>>)
    requires i < |b|
    ensures r.Some? ==> i < r.value.end <= |b|
    decreases |b| - i, 3
  {
    if d == 0 then None
    else
      var j := SkipSpace(b, i + 1);
      if j == |b| then None
      else if b[j] == CLOSE_OBJECT then Some(Parsed([], j + 1))
      else Members(b, j, d - 1)
  }

  function ArrayAt(b: Bytes, i: nat, d: nat): (r: Option<Parsed<seq<Json>>>)
    requires i < |b|
    ensures r.Some? ==> i < r.value.end <= |b|
    decreases |b| - i, 3
  {
    if d == 0 then None
    else
      var j := SkipSpace(b, i + 1);
      if j == |b| then None
      else if b[j] == CLOSE_ARRAY then Some(Parsed([], j + 1))
      else Elems(b, j, d - 1)
  }

  /** One member whose name's quote is at i. */
  function NameAndValue(b: Bytes, i: nat, d: nat): (r: Option<Parsed<Member>>)
    requires i < |b|
    ensures r.Some? ==> i < r.value.end <= |b|
    decreases |b| - i, 0
  {
    if b[i] != QUOTE then None
    else
      match Chars(b, i + 1)
      case None => None
      case Some(name) =>
        var k := SkipSpace(b, name.end);
        if k == |b| || b[k] != COLON then None
        else
          match Value(b, k + 1, d)
          case None => None
          case Some(v) => Some(Parsed(Member(name.s, v.v), v.end))
  }

  /** And where the byte after it is. */
  function OneMember(b: Bytes, i: nat, d: nat): (r: Option<Parsed<Member>>)
    requires i < |b|
    ensures r.Some? ==> i < r.value.end < |b|
    decreases |b| - i, 1
  {
    match NameAndValue(b, i, d)
    case None => None
    case Some(m) =>
      var e := SkipSpace(b, m.end);
      if e == |b| then None else Some(Parsed(m.v, e))
  }

  /** The rest of an object, from a member's name on. */
  function Members(b: Bytes, i: nat, d: nat): (r: Option<Parsed<seq<Member>>>)
    requires i < |b|
    ensures r.Some? ==> i < r.value.end <= |b|
    decreases |b| - i, 2
  {
    match OneMember(b, i, d)
    case None => None
    case Some(m) =>
      if b[m.end] == CLOSE_OBJECT then Some(Parsed([m.v], m.end + 1))
      else if b[m.end] != COMMA then None
      else
        var j := SkipSpace(b, m.end + 1);
        if j == |b| then None else Prepend([m.v], Members(b, j, d))
  }

  /** One element that starts at i, and where the byte after it is. */
  function OneElem(b: Bytes, i: nat, d: nat): (r: Option<Parsed<Json>>)
    requires i <= |b|
    ensures r.Some? ==> i < r.value.end < |b|
    decreases |b| - i, 6
  {
    match Value(b, i, d)
    case None => None
    case Some(v) =>
      var e := SkipSpace(b, v.end);
      if e == |b| then None else Some(Parsed(v.v, e))
  }

  function Elems(b: Bytes, i: nat, d: nat): (r: Option<Parsed<seq<Json>>>)
    requires i <= |b|
    ensures r.Some? ==> i < r.value.end <= |b|
    decreases |b| - i, 7
  {
    match OneElem(b, i, d)
    case None => None
    case Some(x) =>
      if b[x.end] == CLOSE_ARRAY then Some(Parsed([x.v], x.end + 1))
      else if b[x.end] != COMMA then None
      else Prepend([x.v], Elems(b, x.end + 1, d))
  }

  function Prepend<T>(a: seq<T>, r: Option<Parsed<seq<T>>>): (q: Option<Parsed<seq<T>>>)
    ensures q.Some? <==> r.Some?
    ensures r.Some? ==> q.value == Parsed(a + r.value.v, r.value.end)
  {
    match r case None => None case Some(p) => Some(Parsed(a + p.v, p.end))
  }

  lemma PrependNothing<T>(r: Option<Parsed<seq<T>>>)
    ensures Prepend([], r) == r
  {
    if r.Some? { assert [] + r.value.v == r.value.v; }
  }

  lemma PrependTwice<T>(a: seq<T>, c: seq<T>, r: Option<Parsed<seq<T>>>)
    ensures Prepend(a, Prepend(c, r)) == Prepend(a + c, r)
  {
    if r.Some? { assert a + (c + r.value.v) == (a + c) + r.value.v; }
  }

  /** One member and the delimiter after it: whether the object ends here, and where to go on. */
  datatype Step<T> = Step(v: T, closed: bool, next: nat)

  function NextMember(b: Bytes, i: nat, d: nat): (r: Option<Step<Member>>)
    requires i < |b|
    ensures r.Some? ==> i < r.value.next <= |b| && (!r.value.closed ==> r.value.next < |b|)
  {
    match OneMember(b, i, d)
    case None => None
    case Some(m) =>
      if b[m.end] == CLOSE_OBJECT then Some(Step(m.v, true, m.end + 1))
      else if b[m.end] != COMMA then None
      else
        var j := SkipSpace(b, m.end + 1);
        if j == |b| then None else Some(Step(m.v, false, j))
  }

  lemma MembersUnfold(b: Bytes, i: nat, d: nat)
    requires i < |b|
    ensures Members(b, i, d) ==
              match NextMember(b, i, d)
              case None => None
              case Some(x) => if x.closed then Some(Parsed([x.v], x.next)) else Prepend([x.v], Members(b, x.next, d))
  {
  }

  function NextElem(b: Bytes, i: nat, d: nat): (r: Option<Step<Json>>)
    requires i <= |b|
    ensures r.Some? ==> i < r.value.next <= |b|
  {
    match OneElem(b, i, d)
    case None => None
    case Some(x) =>
      if b[x.end] == CLOSE_ARRAY then Some(Step(x.v, true, x.end + 1))
      else if b[x.end] != COMMA then None
      else Some(Step(x.v, false, x.end + 1))
  }

  lemma ElemsUnfold(b: Bytes, i: nat, d: nat)
    requires i <= |b|
    ensures Elems(b, i, d) ==
              match NextElem(b, i, d)
              case None => None
              case Some(x) => if x.closed then Some(Parsed([x.v], x.next)) else Prepend([x.v], Elems(b, x.next, d))
  {
  }

  /** Whitespace before a value is no part of it. */
  lemma ValueSkips(b: Bytes, i: nat, d: nat)
    requires i <= |b|
    ensures Value(b, SkipSpace(b, i), d) == Value(b, i, d)
    ensures var j := SkipSpace(b, i); Value(b, i, d) == if j == |b| then None else ValueAt(b, j, d)
  {
    SkipTwice(b, i);
  }

  /** The whole input: one value, and nothing but whitespace after it. */
  function Document(b: Bytes, d: nat): Option<Json> {
    match Value(b, 0, d)
    case None => None
    case Some(p) => if SkipSpace(b, p.end) == |b| then Some(p.v) else None
  }

  // ---- What can be said of any value ----

  /** How many JSON values, at every depth. */
  function CountValues(t: Json): (n: nat)
    ensures n >= 1
    decreases t
  {
    match t
    case Obj(ms) => 1 + CountMembers(ms)
    case Arr(es) => 1 + CountElems(es)
    case _ => 1
  }

  function CountMembers(ms: seq<Member>): nat
    decreases ms
  {
    if ms == [] then 0 else CountMembers(ms[..|ms| - 1]) + CountValues(ms[|ms| - 1].value)
  }

  function CountElems(es: seq<Json>): nat
    decreases es
  {
    if es == [] then 0 else CountElems(es[..|es| - 1]) + CountValues(es[|es| - 1])
  }

  predicate DistinctNames(ms: seq<Member>) {
    forall i, j | 0 <= i < j < |ms| :: ms[i].name != ms[j].name
  }

  /** Some object has two members of one name. */
  predicate HasDuplicate(t: Json)
    decreases t
  {
    match t
    case Obj(ms) => !DistinctNames(ms) || exists m <- ms :: HasDuplicate(m.value)
    case Arr(es) => exists e <- es :: HasDuplicate(e)
    case _ => false
  }
}
