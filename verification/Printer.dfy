/** JSON text as Go's encoding/json writes it, and the reader's grammar reading it back. */
module Printer {
  import opened Basics
  import opened Encodings
  import opened JsonText
  import opened JsonTree

  // ---- Strings ----

  /** How one character is written: its text, how many bytes of the value it takes, and what it decodes to. */
  datatype Piece = Piece(text: Bytes, size: nat, value: Bytes)

  const REPLACEMENT: Bytes := [0xEF, 0xBF, 0xBD]

  function AsciiPiece(c: byte): Piece
    requires c < 0x80
  {
    var text: Bytes :=
      if c == 0x22 || c == 0x5C then [BACKSLASH, c]
      else if c == 0x08 then [BACKSLASH, 0x62]
      else if c == 0x0C then [BACKSLASH, 0x66]
      else if c == 0x0A then [BACKSLASH, 0x6E]
      else if c == 0x0D then [BACKSLASH, 0x72]
      else if c == 0x09 then [BACKSLASH, 0x74]
      else if c < 0x20 || c == 0x3C || c == 0x3E || c == 0x26 then
        [0x5C, 0x75, 0x30, 0x30, HexLower(c as nat / 16), HexLower(c as nat % 16)]
      else [c];
    Piece(text, 1, [c])
  }

  /** The first character of s: a byte that is no UTF-8 becomes the replacement character; U+2028 and U+2029 are escaped. */
  function PieceOf(s: Bytes): (p: Piece)
    requires s != []
    ensures 1 <= p.size <= |s| && p.text != []
  {
    if s[0] < 0x80 then AsciiPiece(s[0])
    else
      var n := RuneSize(s, 0);
      if n == 0 then Piece([0x5C, 0x75, 0x66, 0x66, 0x66, 0x64], 1, REPLACEMENT)
      else if n == 3 && s[0] == 0xE2 && s[1] == 0x80 && (s[2] == 0xA8 || s[2] == 0xA9) then
        Piece([0x5C, 0x75, 0x32, 0x30, 0x32, if s[2] == 0xA8 then 0x38 else 0x39], 3, s[..3])
      else Piece(s[..n], n, s[..n])
  }

  function Escaped(s: Bytes): Bytes
    decreases |s|
  {
    if s == [] then [] else PieceOf(s).text + Escaped(s[PieceOf(s).size..])
  }

  /** What is written of a value that need not be UTF-8. */
  function Repaired(s: Bytes): Bytes
    decreases |s|
  {
    if s == [] then [] else PieceOf(s).value + Repaired(s[PieceOf(s).size..])
  }

  /** No control character, none of <, > and &. */
  predicate Harmless(c: byte) {
    c >= 0x20 && c as char !in {'<', '>', '&'}
  }

  /** The line separators U+2028 and U+2029 at this place. */
  predicate Separator(t: Bytes, i: nat) {
    i + 2 < |t| && t[i] == 0xE2 && t[i + 1] == 0x80 && t[i + 2] in {0xA8, 0xA9}
  }

  /** A written string can stand in a script: no harmful character, and no line separator. */
  lemma {:induction false} EscapedHarmless(s: Bytes)
    ensures forall c <- Escaped(s) :: Harmless(c)
    ensures forall i: nat | i < |Escaped(s)| :: !Separator(Escaped(s), i)
    decreases |s|
  {
    if s != [] {
      var t, rest := PieceOf(s).text, s[PieceOf(s).size..];
      PieceHarmless(s);
      EscapedHarmless(rest);
      hide PieceOf, Harmless;
      forall i: nat | i < |Escaped(s)| ensures !Separator(Escaped(s), i) {
        if i >= |t| {
          assert !Separator(Escaped(rest), i - |t|);
        } else if t[i] == 0xE2 {
          assert !Separator(t, i);
        }
      }
    }
  }

  lemma PieceHarmless(s: Bytes)
    requires s != []
    ensures var t := PieceOf(s).text;
            && (forall c <- t :: Harmless(c)) && forall i: nat | i < |t| && t[i] == 0xE2 :: i + 2 < |t| && !Separator(t, i)
  {
  }

  /** Any other printable character is written as it is. */
  lemma {:induction false} PlainWritten(s: Bytes)
    requires forall c <- s :: Harmless(c) && c < 0x80 && c as char !in {'"', '\\'}
    ensures Escaped(s) == s
    decreases |s|
  {
    if s != [] {
      assert s[0] in s;
      forall c | c in s[1..] ensures c in s {}
      PlainWritten(s[1..]);
    }
  }

  function Quoted(s: Bytes): Bytes {
    [QUOTE] + Escaped(s) + [QUOTE]
  }

  lemma PieceSelf(s: Bytes)
    requires s != [] && RuneSize(s, 0) > 0
    ensures PieceOf(s).size == RuneSize(s, 0) && PieceOf(s).value == s[..RuneSize(s, 0)]
  {
    if s[0] < 0x80 { assert s[..1] == [s[0]]; }
  }

  lemma ValidParts(s: Bytes)
    requires ValidUtf8(s) && s != []
    ensures RuneSize(s, 0) > 0 && ValidUtf8(s[RuneSize(s, 0)..])
  {
    hide RuneSize;
  }

  /** A value that is UTF-8 is written as it is. */
  lemma {:induction false} RepairedSelf(s: Bytes)
    requires ValidUtf8(s)
    ensures Repaired(s) == s
    decreases |s|
  {
    hide PieceOf, RuneSize, ValidUtf8;
    if s != [] {
      ValidParts(s);
      PieceSelf(s);
      var n := RuneSize(s, 0);
      RepairedSelf(s[n..]);
      assert s == s[..n] + s[n..];
    }
  }

  /** What the piece's own escape decodes to, where it is one. */
  lemma PieceEscape(s: Bytes)
    requires s != [] && PieceOf(s).text[0] == BACKSLASH
    ensures var p := PieceOf(s);
            var e := EscapeAt(p.text, 0);
            e.Some? && e.value.size == |p.text| && Encode(e.value.ch) == p.value
  {
    var p := PieceOf(s);
    if s[0] < 0x80 {
      AsciiEscape(s[0]);
    } else {
      var t := p.text;
      assert |t| == 6 && t[1] == 0x75;
      if RuneSize(s, 0) == 0 {
        assert Hex4(t, 2) == Some(0xFFFD);
      } else {
        assert Hex4(t, 2) == Some(if s[2] == 0xA8 then 0x2028 else 0x2029);
        assert s[..3] == [0xE2, 0x80, s[2]];
      }
    }
  }

  lemma AsciiEscape(c: byte)
    requires c < 0x80 && AsciiPiece(c).text[0] == BACKSLASH
    ensures var p := AsciiPiece(c);
            var e := EscapeAt(p.text, 0);
            e.Some? && e.value.size == |p.text| && Encode(e.value.ch) == [c]
  {
    var t := AsciiPiece(c).text;
    if |t| == 6 {
      var hi, lo := c as nat / 16, c as nat % 16;
      HexBack(hi);
      HexBack(lo);
      assert Hex4(t, 2) == Some(hi * 16 + lo);
    }
  }

  lemma HexBack(n: nat)
    requires n < 16
    ensures HexDigit(HexLower(n)) == Some(n)
  {
  }

  lemma PiecePlain(s: Bytes)
    requires s != [] && PieceOf(s).text[0] != BACKSLASH
    ensures var p := PieceOf(s);
            p.text == p.value && p.text[0] != QUOTE && p.text[0] >= 0x20 && RuneSize(p.text, 0) == |p.text|
  {
    if s[0] >= 0x80 {
      var n := RuneSize(s, 0);
      assert s[0..n] == s[..n][0..n];
      RuneSizeLocal(s, 0, s[..n], 0);
    }
  }

  lemma EscapeReads(t: Bytes, v: Bytes, b: Bytes, i: nat)
    requires t != [] && t[0] == BACKSLASH && i + |t| <= |b| && b[i..i + |t|] == t
    requires EscapeAt(t, 0).Some? && EscapeAt(t, 0).value.size == |t| && Encode(EscapeAt(t, 0).value.ch) == v
    ensures Chars(b, i) == Before(v, Chars(b, i + |t|))
  {
    hide Chars, EscapeAt, Encode, Before;
    assert b[i] == b[i..i + |t|][0] && t[0..|t|] == t;
    CharsUnfold(b, i);
    EscapeLocal(t, 0, b, i);
  }

  lemma PlainReads(t: Bytes, b: Bytes, i: nat)
    requires t != [] && t[0] != BACKSLASH && t[0] != QUOTE && t[0] >= 0x20 && RuneSize(t, 0) == |t|
    requires i + |t| <= |b| && b[i..i + |t|] == t
    ensures Chars(b, i) == Before(t, Chars(b, i + |t|))
  {
    hide Chars, RuneSize, Before;
    assert b[i] == b[i..i + |t|][0] && t[0..|t|] == t;
    CharsUnfold(b, i);
    RuneSizeLocal(t, 0, b, i);
  }

  /** One character written is one step of a scan. */
  lemma PieceReads(s: Bytes, b: Bytes, i: nat)
    requires s != [] && i + |PieceOf(s).text| <= |b| && b[i..i + |PieceOf(s).text|] == PieceOf(s).text
    ensures Chars(b, i) == Before(PieceOf(s).value, Chars(b, i + |PieceOf(s).text|))
  {
    hide PieceOf, Chars, EscapeAt, Encode, RuneSize, Before;
    var p := PieceOf(s);
    if p.text[0] == BACKSLASH {
      PieceEscape(s);
      EscapeReads(p.text, p.value, b, i);
    } else {
      PiecePlain(s);
      PlainReads(p.text, b, i);
    }
  }

  /** A string written reads back, wherever it stands and whatever follows. */
  lemma {:induction false} EscapedReads(s: Bytes, b: Bytes, i: nat)
    requires i + |Escaped(s)| < |b| && b[i..i + |Escaped(s)|] == Escaped(s) && b[i + |Escaped(s)|] == QUOTE
    ensures Chars(b, i) == Some(Text(Repaired(s), i + |Escaped(s)| + 1))
    decreases |s|
  {
    hide Chars, PieceOf, Escaped, Repaired;
    CharsUnfold(b, i);
    NothingEscaped();
    if s != [] {
      EscapedIs(s);
      var p := PieceOf(s);
      var rest := s[p.size..];
      EscapedParts(b, i, p.text, Escaped(rest));
      PieceReads(s, b, i);
      EscapedReads(rest, b, i + |p.text|);
    }
  }

  lemma NothingEscaped()
    ensures Escaped([]) == [] && Repaired([]) == []
  {
  }

  lemma EscapedIs(s: Bytes)
    requires s != []
    ensures Escaped(s) == PieceOf(s).text + Escaped(s[PieceOf(s).size..])
    ensures Repaired(s) == PieceOf(s).value + Repaired(s[PieceOf(s).size..])
  {
    hide PieceOf;
  }

  lemma EscapedParts(b: Bytes, i: nat, a: Bytes, c: Bytes)
    requires i + |a + c| <= |b| && b[i..i + |a + c|] == a + c
    ensures b[i..i + |a|] == a && b[i + |a|..i + |a| + |c|] == c
  {
    assert b[i..i + |a|] == (a + c)[..|a|];
    assert b[i + |a|..i + |a| + |c|] == (a + c)[|a|..];
  }

  // ---- Values ----

  /** A value made of objects, arrays and strings. */
  predicate Printable(t: Json)
    decreases t
  {
    match t
    case Obj(ms) => forall m <- ms :: Printable(m.value)
    case Arr(es) => forall e <- es :: Printable(e)
    case Str(_) => true
    case _ => false
  }

  function Print(t: Json): Bytes
    decreases t, 1
  {
    match t
    case Obj(ms) => [OPEN_OBJECT] + PrintMembers(ms) + [CLOSE_OBJECT]
    case Arr(es) => [OPEN_ARRAY] + PrintElems(es) + [CLOSE_ARRAY]
    case Str(s) => Quoted(s)
    case _ => []
  }

  function PrintMember(m: Member): Bytes
    decreases m, 2
  {
    Quoted(m.name) + [COLON] + Print(m.value)
  }

  function PrintMembers(ms: seq<Member>): Bytes
    decreases ms, 0
  {
    if ms == [] then [] else PrintMember(ms[0]) + if |ms| == 1 then [] else [COMMA] + PrintMembers(ms[1..])
  }

  function PrintElems(es: seq<Json>): Bytes
    decreases es, 0
  {
    if es == [] then [] else Print(es[0]) + if |es| == 1 then [] else [COMMA] + PrintElems(es[1..])
  }

  /** What the text says: every string repaired. */
  function Meant(t: Json): Json
    decreases t, 1
  {
    match t
    case Obj(ms) => Obj(MeantMembers(ms))
    case Arr(es) => Arr(MeantElems(es))
    case Str(s) => Str(Repaired(s))
    case _ => t
  }

  function MeantMembers(ms: seq<Member>): (r: seq<Member>)
    ensures |r| == |ms|
    decreases ms, 0
  {
    if ms == [] then [] else [Member(Repaired(ms[0].name), Meant(ms[0].value))] + MeantMembers(ms[1..])
  }

  function MeantElems(es: seq<Json>): (r: seq<Json>)
    ensures |r| == |es|
    decreases es, 0
  {
    if es == [] then [] else [Meant(es[0])] + MeantElems(es[1..])
  }

  /** Nested at most d deep. */
  predicate Shallow(t: Json, d: nat)
    decreases t
  {
    match t
    case Obj(ms) => d > 0 && forall m <- ms :: Shallow(m.value, d - 1)
    case Arr(es) => d > 0 && forall e <- es :: Shallow(e, d - 1)
    case _ => true
  }

  /** The text stands at i. */
  predicate Stands(b: Bytes, i: nat, text: Bytes) {
    i + |text| <= |b| && b[i..i + |text|] == text
  }

  lemma StandsParts(b: Bytes, i: nat, a: Bytes, c: Bytes)
    requires Stands(b, i, a + c)
    ensures Stands(b, i, a) && Stands(b, i + |a|, c)
  {
    EscapedParts(b, i, a, c);
  }

  lemma StandsByte(b: Bytes, i: nat, c: byte)
    requires Stands(b, i, [c])
    ensures i < |b| && b[i] == c && (!IsSpace(c) ==> SkipSpace(b, i) == i)
  {
    assert b[i] == b[i..i + 1][0];
  }

  lemma QuotedReads(s: Bytes, b: Bytes, i: nat)
    requires Stands(b, i, Quoted(s))
    ensures i < |b| && b[i] == QUOTE && Chars(b, i + 1) == Some(Text(Repaired(s), i + |Quoted(s)|)) && SkipSpace(b, i) == i
  {
    hide Chars, Escaped, Repaired;
    var e := Escaped(s);
    assert [QUOTE] + e + [QUOTE] == [QUOTE] + (e + [QUOTE]);
    StandsParts(b, i, [QUOTE], e + [QUOTE]);
    StandsParts(b, i + 1, e, [QUOTE]);
    StandsByte(b, i, QUOTE);
    StandsByte(b, i + 1 + |e|, QUOTE);
    EscapedReads(s, b, i + 1);
  }

  lemma FirstByte(t: Json)
    requires Printable(t)
    ensures Print(t) != [] && !IsSpace(Print(t)[0])
    ensures Print(t)[0] == match t case Obj(_) => OPEN_OBJECT case Arr(_) => OPEN_ARRAY case _ => QUOTE
  {
  }

  lemma StandsFirst(b: Bytes, i: nat, t: Json)
    requires Stands(b, i, Print(t)) && Printable(t)
    ensures i < |b| && SkipSpace(b, i) == i && b[i] == Print(t)[0]
  {
    FirstByte(t);
    hide Print;
    assert b[i] == b[i..i + |Print(t)|][0];
  }

  /** A value written is the value read, wherever it stands and whatever follows. */
  lemma {:induction false} PrintReads(t: Json, b: Bytes, i: nat, d: nat)
    requires Printable(t) && Shallow(t, d) && Stands(b, i, Print(t))
    ensures i < |b| && Value(b, i, d) == Some(Parsed(Meant(t), i + |Print(t)|)) && SkipSpace(b, i) == i
    decreases t, 1
  {
    hide Chars, Members, Elems, SkipSpace, PrintMembers, PrintElems, Quoted, Meant, Shallow, Printable, Stands;
    StandsFirst(b, i, t);
    FirstByte(t);
    ValueSkips(b, i, d);
    MeantIs(t);
    if t.Obj? {
      ObjectReads(t.members, b, i, d);
    } else if t.Arr? {
      ArrayReads(t.elems, b, i, d);
    } else {
      StringOnly(t);
      QuotedReads(t.s, b, i);
    }
  }

  lemma StringOnly(t: Json)
    requires Printable(t) && !t.Obj? && !t.Arr?
    ensures t.Str?
  {
  }

  lemma MeantIs(t: Json)
    ensures t.Obj? ==> Meant(t) == Obj(MeantMembers(t.members))
    ensures t.Arr? ==> Meant(t) == Arr(MeantElems(t.elems))
    ensures t.Str? ==> Meant(t) == Str(Repaired(t.s))
  {
  }

  lemma {:induction false} ObjectReads(ms: seq<Member>, b: Bytes, i: nat, d: nat)
    requires Printable(Obj(ms)) && Shallow(Obj(ms), d) && Stands(b, i, Print(Obj(ms)))
    ensures i < |b| && ObjectAt(b, i, d) == Some(Parsed(MeantMembers(ms), i + |Print(Obj(ms))|))
    decreases ms, 3
  {
    hide Chars, Members, SkipSpace, PrintMember, Quoted, Stands, IsSpace;
    var text := PrintMembers(ms);
    assert [OPEN_OBJECT] + text + [CLOSE_OBJECT] == [OPEN_OBJECT] + (text + [CLOSE_OBJECT]);
    StandsParts(b, i, [OPEN_OBJECT], text + [CLOSE_OBJECT]);
    StandsByte(b, i, OPEN_OBJECT);
    if ms == [] {
      assert text + [CLOSE_OBJECT] == [CLOSE_OBJECT];
      StandsByte(b, i + 1, CLOSE_OBJECT);
      NotSpaces();
    } else {
      ShallowIs(Obj(ms), d);
      MembersRead(ms, b, i + 1, d - 1);
    }
  }

  lemma NotSpaces()
    ensures !IsSpace(CLOSE_OBJECT) && !IsSpace(CLOSE_ARRAY) && !IsSpace(COMMA) && !IsSpace(COLON) && !IsSpace(QUOTE)
  {
  }

  lemma ShallowIs(t: Json, d: nat)
    requires Shallow(t, d) && Printable(t)
    ensures t.Obj? ==> d > 0 && forall m <- t.members :: Shallow(m.value, d - 1) && Printable(m.value)
    ensures t.Arr? ==> d > 0 && forall e <- t.elems :: Shallow(e, d - 1) && Printable(e)
  {
  }

  lemma {:induction false} MembersRead(ms: seq<Member>, b: Bytes, i: nat, d: nat)
    requires ms != [] && (forall m <- ms :: Printable(m.value) && Shallow(m.value, d)) && Stands(b, i, PrintMembers(ms) + [CLOSE_OBJECT])
    ensures i < |b| && SkipSpace(b, i) == i && b[i] == QUOTE
    ensures Members(b, i, d) == Some(Parsed(MeantMembers(ms), i + |PrintMembers(ms)| + 1))
    decreases ms, 2
  {
    hide Chars, SkipSpace, PrintMember, Stands, Members, NextMember, IsSpace, Prepend, PrintMembers, MeantMembers, NameAndValue, Repaired, Meant,
         Shallow, Printable;
    var first := PrintMember(ms[0]);
    MembersParts(ms);
    assert ms[0] in ms;
    var e := i + |first|;
    NotSpaces();
    if |ms| == 1 {
      LastMember(ms, b, i, d);
    } else {
      var rest := PrintMembers(ms[1..]) + [CLOSE_OBJECT];
      StandsParts(b, i, first, [COMMA] + rest);
      MemberReads(ms[0], b, i, d);
      StandsParts(b, e, [COMMA], rest);
      StandsByte(b, e, COMMA);
      MembersRead(ms[1..], b, e + 1, d);
      MemberStep(b, i, d, e);
      MembersGo(ms, b, i, d, e + 1, e + 1 + |PrintMembers(ms[1..])| + 1);
    }
  }

  lemma {:induction false} LastMember(ms: seq<Member>, b: Bytes, i: nat, d: nat)
    requires |ms| == 1 && Printable(ms[0].value) && Shallow(ms[0].value, d) && Stands(b, i, PrintMember(ms[0]) + [CLOSE_OBJECT])
    ensures i < |b| && SkipSpace(b, i) == i && b[i] == QUOTE
    ensures Members(b, i, d) == Some(Parsed(MeantMembers(ms), i + |PrintMember(ms[0])| + 1))
    decreases ms, 1
  {
    hide Chars, SkipSpace, PrintMember, Stands, Members, NextMember, IsSpace, MeantMembers, NameAndValue, Repaired, Meant, Shallow, Printable;
    StandsParts(b, i, PrintMember(ms[0]), [CLOSE_OBJECT]);
    MemberReads(ms[0], b, i, d);
    MembersUnfold(b, i, d);
    NotSpaces();
    StandsByte(b, i + |PrintMember(ms[0])|, CLOSE_OBJECT);
    MemberStep(b, i, d, i + |PrintMember(ms[0])|);
    OneMeant(ms);
  }

  lemma MembersGo(ms: seq<Member>, b: Bytes, i: nat, d: nat, next: nat, end: nat)
    requires ms != [] && i < next <= end && i < |b| && next < |b|
    requires NextMember(b, i, d) == Some(Step(Member(Repaired(ms[0].name), Meant(ms[0].value)), false, next))
    requires Members(b, next, d) == Some(Parsed(MeantMembers(ms[1..]), end))
    ensures Members(b, i, d) == Some(Parsed(MeantMembers(ms), end))
  {
    hide Members, NextMember, Repaired, Meant, MeantMembers, Prepend;
    MembersUnfold(b, i, d);
    MeantPrepend(ms, end);
  }

  lemma MembersParts(ms: seq<Member>)
    requires ms != []
    ensures PrintMembers(ms) + [CLOSE_OBJECT]
         == PrintMember(ms[0]) + if |ms| == 1 then [CLOSE_OBJECT] else [COMMA] + (PrintMembers(ms[1..]) + [CLOSE_OBJECT])
    ensures |ms| == 1 ==> |PrintMembers(ms)| == |PrintMember(ms[0])|
    ensures |ms| > 1 ==> |PrintMembers(ms)| == |PrintMember(ms[0])| + 1 + |PrintMembers(ms[1..])|
  {
    hide PrintMember;
  }

  lemma OneMeant(ms: seq<Member>)
    requires |ms| == 1
    ensures MeantMembers(ms) == [Member(Repaired(ms[0].name), Meant(ms[0].value))]
  {
    assert ms[1..] == [];
  }

  lemma MeantPrepend(ms: seq<Member>, end: nat)
    requires ms != []
    ensures Prepend([Member(Repaired(ms[0].name), Meant(ms[0].value))], Some(Parsed(MeantMembers(ms[1..]), end)))
         == Some(Parsed(MeantMembers(ms), end))
  {
  }

  /** The delimiter after a member that ends at e. */
  lemma MemberStep(b: Bytes, i: nat, d: nat, e: nat)
    requires i < |b| && NameAndValue(b, i, d).Some? && NameAndValue(b, i, d).value.end == e < |b| && SkipSpace(b, e) == e
    ensures b[e] == CLOSE_OBJECT ==> NextMember(b, i, d) == Some(Step(NameAndValue(b, i, d).value.v, true, e + 1))
    ensures b[e] == COMMA && e + 1 < |b| && SkipSpace(b, e + 1) == e + 1 ==>
              NextMember(b, i, d) == Some(Step(NameAndValue(b, i, d).value.v, false, e + 1))
  {
    hide NameAndValue, SkipSpace;
  }

  lemma {:induction false} MemberReads(m: Member, b: Bytes, i: nat, d: nat)
    requires Printable(m.value) && Shallow(m.value, d) && Stands(b, i, PrintMember(m))
    ensures i < |b| && b[i] == QUOTE && SkipSpace(b, i) == i
    ensures NameAndValue(b, i, d) == Some(Parsed(Member(Repaired(m.name), Meant(m.value)), i + |PrintMember(m)|))
    decreases m, 2
  {
    hide Chars, SkipSpace, Stands, Quoted, Print, Meant, Repaired, Value, IsSpace;
    var q, v := Quoted(m.name), Print(m.value);
    assert q + [COLON] + v == q + ([COLON] + v);
    StandsParts(b, i, q, [COLON] + v);
    StandsParts(b, i + |q|, [COLON], v);
    NotSpaces();
    StandsByte(b, i + |q|, COLON);
    QuotedReads(m.name, b, i);
    PrintReads(m.value, b, i + |q| + 1, d);
  }

  lemma {:induction false} ArrayReads(es: seq<Json>, b: Bytes, i: nat, d: nat)
    requires Printable(Arr(es)) && Shallow(Arr(es), d) && Stands(b, i, Print(Arr(es)))
    ensures i < |b| && ArrayAt(b, i, d) == Some(Parsed(MeantElems(es), i + |Print(Arr(es))|))
    decreases es, 3
  {
    hide Chars, Elems, SkipSpace, Stands, IsSpace;
    var text := PrintElems(es);
    assert [OPEN_ARRAY] + text + [CLOSE_ARRAY] == [OPEN_ARRAY] + (text + [CLOSE_ARRAY]);
    StandsParts(b, i, [OPEN_ARRAY], text + [CLOSE_ARRAY]);
    StandsByte(b, i, OPEN_ARRAY);
    if es == [] {
      assert text + [CLOSE_ARRAY] == [CLOSE_ARRAY];
      StandsByte(b, i + 1, CLOSE_ARRAY);
      NotSpaces();
    } else {
      ShallowIs(Arr(es), d);
      ElemsRead(es, b, i + 1, d - 1);
    }
  }

  lemma {:induction false} ElemsRead(es: seq<Json>, b: Bytes, i: nat, d: nat)
    requires es != [] && (forall e <- es :: Printable(e) && Shallow(e, d)) && Stands(b, i, PrintElems(es) + [CLOSE_ARRAY])
    ensures i < |b| && SkipSpace(b, i) == i && b[i] != CLOSE_ARRAY
    ensures Elems(b, i, d) == Some(Parsed(MeantElems(es), i + |PrintElems(es)| + 1))
    decreases es, 2
  {
    hide Chars, SkipSpace, Print, Stands, Elems, NextElem, IsSpace, Prepend, Value;
    var first := Print(es[0]);
    NotSpaces();
    if |es| == 1 {
      assert PrintElems(es) + [CLOSE_ARRAY] == first + [CLOSE_ARRAY];
      StandsParts(b, i, first, [CLOSE_ARRAY]);
      StandsByte(b, i + |first|, CLOSE_ARRAY);
      PrintReads(es[0], b, i, d);
      StandsFirst(b, i, es[0]);
      FirstByte(es[0]);
      ElemsUnfold(b, i, d);
      ElemStep(b, i, d, i + |first|);
      OneElemMeant(es);
    } else {
      var rest := PrintElems(es[1..]) + [CLOSE_ARRAY];
      assert PrintElems(es) + [CLOSE_ARRAY] == first + ([COMMA] + rest);
      StandsParts(b, i, first, [COMMA] + rest);
      StandsParts(b, i + |first|, [COMMA], rest);
      StandsByte(b, i + |first|, COMMA);
      PrintReads(es[0], b, i, d);
      StandsFirst(b, i, es[0]);
      FirstByte(es[0]);
      ElemsRead(es[1..], b, i + |first| + 1, d);
      ElemsUnfold(b, i, d);
      ElemStep(b, i, d, i + |first|);
      ElemsPrepend(es, i + |PrintElems(es)| + 1);
    }
  }

  lemma OneElemMeant(es: seq<Json>)
    requires |es| == 1
    ensures MeantElems(es) == [Meant(es[0])]
  {
    assert es[1..] == [];
  }

  lemma ElemsPrepend(es: seq<Json>, end: nat)
    requires es != []
    ensures Prepend([Meant(es[0])], Some(Parsed(MeantElems(es[1..]), end))) == Some(Parsed(MeantElems(es), end))
  {
  }

  lemma ElemStep(b: Bytes, i: nat, d: nat, e: nat)
    requires i <= |b| && Value(b, i, d).Some? && Value(b, i, d).value.end == e < |b| && SkipSpace(b, e) == e
    ensures b[e] == CLOSE_ARRAY ==> NextElem(b, i, d) == Some(Step(Value(b, i, d).value.v, true, e + 1))
    ensures b[e] == COMMA ==> NextElem(b, i, d) == Some(Step(Value(b, i, d).value.v, false, e + 1))
  {
    hide Value, SkipSpace;
  }

  /** A whole document. */
  lemma DocumentReads(t: Json, d: nat)
    requires Printable(t) && Shallow(t, d)
    ensures Document(Print(t), d) == Some(Meant(t))
  {
    hide Value, Print, Meant;
    assert Print(t)[0..|Print(t)|] == Print(t);
    PrintReads(t, Print(t), 0, d);
  }
}
