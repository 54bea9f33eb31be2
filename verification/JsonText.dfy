/** JSON strings as bytes: whitespace, UTF-8, escapes, scanning and unescaping. */
module JsonText {
  import opened Basics

  const QUOTE: byte := 0x22
  const BACKSLASH: byte := 0x5C

  predicate IsSpace(c: byte) {
    c == 0x20 || c == 0x09 || c == 0x0A || c == 0x0D
  }

  /** The first index from i on that is not whitespace. */
  function SkipSpace(b: Bytes, i: nat): (j: nat)
    requires i <= |b|
    ensures i <= j <= |b| && (j < |b| ==> !IsSpace(b[j]))
    decreases |b| - i
  {
    if i < |b| && IsSpace(b[i]) then SkipSpace(b, i + 1) else i
  }

  lemma {:induction false} SkipTwice(b: Bytes, i: nat)
    requires i <= |b|
    ensures SkipSpace(b, SkipSpace(b, i)) == SkipSpace(b, i)
    decreases |b| - i
  {
    if i < |b| && IsSpace(b[i]) { SkipTwice(b, i + 1); }
  }

  // ---- UTF-8 (RFC 3629) ----

  predicate Tail(c: byte) { 0x80 <= c <= 0xBF }

  /** How many bytes the well-formed sequence at i has; 0 if there is none. */
  function RuneSize(b: Bytes, i: nat): (n: nat)
    requires i < |b|
    ensures n <= 4 && i + n <= |b|
  {
    var c := b[i];
    if c < 0x80 then 1
    else if 0xC2 <= c <= 0xDF && i + 1 < |b| && Tail(b[i + 1]) then 2
    else if 0xE0 <= c <= 0xEF && i + 2 < |b| && Tail(b[i + 2]) && Tail(b[i + 1])
            && (c == 0xE0 ==> b[i + 1] >= 0xA0) && (c == 0xED ==> b[i + 1] <= 0x9F) then 3
    else if 0xF0 <= c <= 0xF4 && i + 3 < |b| && Tail(b[i + 3]) && Tail(b[i + 2]) && Tail(b[i + 1])
            && (c == 0xF0 ==> b[i + 1] >= 0x90) && (c == 0xF4 ==> b[i + 1] <= 0x8F) then 4
    else 0
  }

  predicate ValidUtf8(s: Bytes)
    decreases |s|
  {
    s == [] || (RuneSize(s, 0) > 0 && ValidUtf8(s[RuneSize(s, 0)..]))
  }

  type Rune = x: int | 0 <= x <= 0x10FFFF && !(0xD800 <= x <= 0xDFFF)

  /** utf8.AppendRune of one character. */
  function Encode(r: Rune): (s: Bytes)
    ensures 1 <= |s| <= 4
  {
    if r < 0x80 then [r as byte]
    else if r < 0x800 then [(0xC0 + r / 64) as byte, (0x80 + r % 64) as byte]
    else if r < 0x10000 then [(0xE0 + r / 4096) as byte, (0x80 + r / 64 % 64) as byte, (0x80 + r % 64) as byte]
    else [(0xF0 + r / 262144) as byte, (0x80 + r / 4096 % 64) as byte, (0x80 + r / 64 % 64) as byte, (0x80 + r % 64) as byte]
  }

  lemma EncodeValid(r: Rune)
    ensures RuneSize(Encode(r), 0) == |Encode(r)|
  {
    var s := Encode(r);
    if 0x800 <= r < 0x10000 {
      assert r / 64 % 64 == r / 64 - 64 * (r / 4096);
    } else if r >= 0x10000 {
      assert r / 4096 % 64 == r / 4096 - 64 * (r / 262144);
    }
  }

  lemma RuneSizeLocal(b: Bytes, i: nat, c: Bytes, j: nat)
    requires i < |b| && j < |c| && RuneSize(b, i) > 0
    requires j + RuneSize(b, i) <= |c| && b[i..i + RuneSize(b, i)] == c[j..j + RuneSize(b, i)]
    ensures RuneSize(c, j) == RuneSize(b, i)
  {
    var n := RuneSize(b, i);
    var x, y := b[i..i + n], c[j..j + n];
    assert b[i] == x[0] && c[j] == y[0];
    if n > 1 { assert b[i + 1] == x[1] && c[j + 1] == y[1]; }
    if n > 2 { assert b[i + 2] == x[2] && c[j + 2] == y[2]; }
    if n > 3 { assert b[i + 3] == x[3] && c[j + 3] == y[3]; }
  }

  /** A character in front of valid UTF-8 is valid UTF-8. */
  lemma ValidMore(a: Bytes, rest: Bytes)
    requires a != [] && RuneSize(a, 0) == |a| && ValidUtf8(rest)
    ensures ValidUtf8(a + rest)
  {
    var s := a + rest;
    assert s[0..|a|] == a[0..|a|];
    RuneSizeLocal(a, 0, s, 0);
    assert s[|a|..] == rest;
  }

  // ---- Escapes ----

  function HexDigit(c: byte): Option<nat> {
    if 0x30 <= c <= 0x39 then Some(c as nat - 0x30)
    else if 0x61 <= c <= 0x66 then Some(c as nat - 0x61 + 10)
    else if 0x41 <= c <= 0x46 then Some(c as nat - 0x41 + 10)
    else None
  }

  /** Four hex digits, of either case. */
  function Hex4(b: Bytes, i: nat): (r: Option<nat>)
    ensures r.Some? ==> i + 4 <= |b| && r.value < 0x10000
  {
    if i + 4 > |b| || HexDigit(b[i]).None? || HexDigit(b[i + 1]).None? || HexDigit(b[i + 2]).None? || HexDigit(b[i + 3]).None? then None
    else Some(((HexDigit(b[i]).value * 16 + HexDigit(b[i + 1]).value) * 16 + HexDigit(b[i + 2]).value) * 16 + HexDigit(b[i + 3]).value)
  }

  datatype Escape = Escape(ch: Rune, size: nat)

  /** The escape at the backslash b[i]; a lone surrogate is none. */
  function EscapeAt(b: Bytes, i: nat): (r: Option<Escape>)
    requires i < |b|
    ensures r.Some? ==> 2 <= r.value.size && i + r.value.size <= |b| && |Encode(r.value.ch)| < r.value.size
  {
    if i + 1 >= |b| then None
    else
      var c := b[i + 1];
      if c == 0x22 || c == 0x5C || c == 0x2F then Some(Escape(c as int, 2))
      else if c == 0x62 then Some(Escape(8, 2))
      else if c == 0x66 then Some(Escape(12, 2))
      else if c == 0x6E then Some(Escape(10, 2))
      else if c == 0x72 then Some(Escape(13, 2))
      else if c == 0x74 then Some(Escape(9, 2))
      else if c == 0x75 then
        var hi := Hex4(b, i + 2);
        if hi.None? || 0xDC00 <= hi.value <= 0xDFFF then None
        else if hi.value < 0xD800 || hi.value > 0xDBFF then Some(Escape(hi.value, 6))
        else if i + 7 >= |b| || b[i + 6] != BACKSLASH || b[i + 7] != 0x75 then None
        else
          var lo := Hex4(b, i + 8);
          if lo.None? || lo.value < 0xDC00 || lo.value > 0xDFFF then None
          else Some(Escape(0x10000 + (hi.value - 0xD800) * 1024 + (lo.value - 0xDC00), 12))
      else None
  }

  lemma SameByte(b: Bytes, i: nat, c: Bytes, j: nat, n: nat, k: nat)
    requires k < n && i + n <= |b| && j + n <= |c| && b[i..i + n] == c[j..j + n]
    ensures b[i + k] == c[j + k]
  {
    assert b[i + k] == b[i..i + n][k] == c[j..j + n][k];
  }

  lemma SameFour(b: Bytes, i: nat, c: Bytes, j: nat, n: nat, k: nat)
    requires k + 4 <= n && i + n <= |b| && j + n <= |c| && b[i..i + n] == c[j..j + n]
    ensures Hex4(c, j + k) == Hex4(b, i + k)
  {
    SameByte(b, i, c, j, n, k);
    SameByte(b, i, c, j, n, k + 1);
    SameByte(b, i, c, j, n, k + 2);
    SameByte(b, i, c, j, n, k + 3);
  }

  /** An escape is decided by its own bytes. */
  lemma EscapeLocal(b: Bytes, i: nat, c: Bytes, j: nat)
    requires i < |b| && j < |c| && EscapeAt(b, i).Some?
    requires var n := EscapeAt(b, i).value.size; j + n <= |c| && b[i..i + n] == c[j..j + n]
    ensures EscapeAt(c, j) == EscapeAt(b, i)
  {
    hide Hex4;
    var n := EscapeAt(b, i).value.size;
    SameByte(b, i, c, j, n, 1);
    if n >= 6 { SameFour(b, i, c, j, n, 2); }
    if n == 12 {
      SameByte(b, i, c, j, n, 6);
      SameByte(b, i, c, j, n, 7);
      SameFour(b, i, c, j, n, 8);
    }
  }

  // ---- Strings ----

  /** What a string spells, and where it ends. */
  datatype Text = Text(s: Bytes, end: nat)

  /** From inside a string at i: the characters up to the closing quote, unescaped, and the index after it. */
  function Chars(b: Bytes, i: nat): (r: Option<Text>)
    requires i <= |b|
    ensures r.Some? ==> i < r.value.end <= |b| && b[r.value.end - 1] == QUOTE
    decreases |b| - i
  {
    if i == |b| then None
    else if b[i] == QUOTE then Some(Text([], i + 1))
    else if b[i] == BACKSLASH then
      match EscapeAt(b, i)
      case None => None
      case Some(e) => Before(Encode(e.ch), Chars(b, i + e.size))
    else if b[i] < 0x20 || RuneSize(b, i) == 0 then None
    else Before(b[i..i + RuneSize(b, i)], Chars(b, i + RuneSize(b, i)))
  }

  function Before(a: Bytes, r: Option<Text>): (q: Option<Text>)
    ensures q.Some? <==> r.Some?
    ensures r.Some? ==> q.value == Text(a + r.value.s, r.value.end)
  {
    match r case None => None case Some(t) => Some(Text(a + t.s, t.end))
  }

  /** appendUnescaped's answer on raw text that was scanned. */
  function Unescape(raw: Bytes): Bytes
    decreases |raw|
  {
    if raw == [] then []
    else if raw[0] != BACKSLASH then [raw[0]] + Unescape(raw[1..])
    else
      match EscapeAt(raw, 0)
      case None => []
      case Some(e) => Encode(e.ch) + Unescape(raw[e.size..])
  }

  lemma {:induction false} UnescapePlain(p: Bytes, rest: Bytes)
    requires BACKSLASH !in p
    ensures Unescape(p + rest) == p + Unescape(rest)
  {
    if p == [] {
      assert p + rest == rest;
    } else {
      assert (p + rest)[1..] == p[1..] + rest;
      UnescapePlain(p[1..], rest);
    }
  }

  lemma PlainSelf(p: Bytes)
    requires BACKSLASH !in p
    ensures Unescape(p) == p
  {
    UnescapePlain(p, []);
    assert p + [] == p;
  }

  lemma RuneHasNoBackslash(b: Bytes, i: nat)
    requires i < |b| && RuneSize(b, i) > 0 && b[i] != BACKSLASH
    ensures BACKSLASH !in b[i..i + RuneSize(b, i)]
  {
  }

  lemma PlainStep(b: Bytes, i: nat, rest: Bytes, s: Bytes)
    requires i < |b| && b[i] != BACKSLASH && RuneSize(b, i) > 0 && Unescape(rest) == s && ValidUtf8(s)
    ensures var a := b[i..i + RuneSize(b, i)];
            Unescape(a + rest) == a + s && ValidUtf8(a + s) && BACKSLASH !in a
  {
    var n := RuneSize(b, i);
    var a := b[i..i + n];
    RuneHasNoBackslash(b, i);
    UnescapePlain(a, rest);
    assert b[i..i + n] == a[0..n];
    RuneSizeLocal(b, i, a, 0);
    ValidMore(a, s);
  }

  lemma EscapeStep(b: Bytes, i: nat, rest: Bytes, s: Bytes)
    requires i < |b| && b[i] == BACKSLASH && EscapeAt(b, i).Some? && Unescape(rest) == s && ValidUtf8(s)
    ensures var e := EscapeAt(b, i).value;
            Unescape(b[i..i + e.size] + rest) == Encode(e.ch) + s && ValidUtf8(Encode(e.ch) + s)
  {
    var e := EscapeAt(b, i).value;
    var raw := b[i..i + e.size] + rest;
    assert b[i..i + e.size] == raw[0..e.size];
    EscapeLocal(b, i, raw, 0);
    assert raw[e.size..] == rest && raw[0] == BACKSLASH;
    hide EscapeAt, Encode, RuneSize;
    EncodeValid(e.ch);
    ValidMore(Encode(e.ch), s);
  }

  lemma Slices(b: Bytes, i: nat, n: nat, k: nat)
    requires i + n <= k <= |b|
    ensures b[i..k] == b[i..i + n] + b[i + n..k]
  {
  }

  /** How many bytes the character at i takes in the text, and what it spells. */
  function CharSize(b: Bytes, i: nat): nat
    requires i < |b|
  {
    if b[i] == BACKSLASH then (match EscapeAt(b, i) case Some(e) => e.size case None => 0) else RuneSize(b, i)
  }

  lemma CharsStep(b: Bytes, i: nat)
    requires i <= |b| && Chars(b, i).Some?
    ensures i < |b| && (b[i] == QUOTE ==> Chars(b, i).value == Text([], i + 1))
    ensures b[i] != QUOTE ==>
              var n := CharSize(b, i);
              && n > 0 && i + n <= |b| && Chars(b, i + n).Some? && Chars(b, i).value.end == Chars(b, i + n).value.end
              && (b[i] == BACKSLASH ==> EscapeAt(b, i).Some? && Chars(b, i).value.s == Encode(EscapeAt(b, i).value.ch) + Chars(b, i + n).value.s)
              && (b[i] != BACKSLASH ==> Chars(b, i).value.s == b[i..i + n] + Chars(b, i + n).value.s)
  {
    hide EscapeAt, RuneSize, Encode;
  }

  /**
   * Scanning and unescaping agree: a string accepted spells exactly what
   * unescaping its raw bytes gives, all of them, in valid UTF-8.
   */
  lemma {:induction false} ScanUnescape(b: Bytes, i: nat)
    requires i <= |b| && Chars(b, i).Some?
    ensures var r := Chars(b, i).value;
            Unescape(b[i..r.end - 1]) == r.s && ValidUtf8(r.s)
    decreases |b| - i
  {
    hide EscapeAt, RuneSize, Encode, Unescape, ValidUtf8, Chars;
    var end := Chars(b, i).value.end;
    CharsStep(b, i);
    if b[i] == QUOTE {
      NothingSpelled();
      assert b[i..i] == [];
    } else {
      var n := CharSize(b, i);
      ScanUnescape(b, i + n);
      Slices(b, i, n, end - 1);
      if b[i] == BACKSLASH {
        EscapeStep(b, i, b[i + n..end - 1], Chars(b, i + n).value.s);
      } else {
        PlainStep(b, i, b[i + n..end - 1], Chars(b, i + n).value.s);
      }
    }
  }

  /** A string with an escape is spelled in fewer bytes than it takes. */
  lemma {:induction false} ScanShrinks(b: Bytes, i: nat)
    requires i <= |b| && Chars(b, i).Some?
    ensures var r := Chars(b, i).value;
            |r.s| <= r.end - 1 - i && (BACKSLASH in b[i..r.end - 1] ==> |r.s| < r.end - 1 - i)
    decreases |b| - i
  {
    hide EscapeAt, RuneSize, Encode;
    var end := Chars(b, i).value.end;
    if b[i] == BACKSLASH {
      ScanShrinks(b, i + EscapeAt(b, i).value.size);
    } else if b[i] != QUOTE {
      var n := RuneSize(b, i);
      ScanShrinks(b, i + n);
      RuneHasNoBackslash(b, i);
      Slices(b, i, n, end - 1);
    }
  }

  lemma NothingSpelled()
    ensures Unescape([]) == [] && ValidUtf8([])
  {
  }

  // ---- One character at a time ----

  lemma BeforeTwice(a: Bytes, c: Bytes, r: Option<Text>)
    ensures Before(a, Before(c, r)) == Before(a + c, r)
  {
    if r.Some? { assert a + (c + r.value.s) == (a + c) + r.value.s; }
  }

  /** What one step of a scan does, whatever follows. */
  lemma CharsUnfold(b: Bytes, i: nat)
    requires i < |b|
    ensures b[i] == QUOTE ==> Chars(b, i) == Some(Text([], i + 1))
    ensures b[i] == BACKSLASH ==>
              Chars(b, i) == match EscapeAt(b, i) case None => None case Some(e) => Before(Encode(e.ch), Chars(b, i + e.size))
    ensures b[i] != QUOTE && b[i] != BACKSLASH ==>
              Chars(b, i) == if b[i] < 0x20 || RuneSize(b, i) == 0 then None else Before(b[i..i + RuneSize(b, i)], Chars(b, i + RuneSize(b, i)))
  {
    hide EscapeAt, RuneSize, Encode;
  }

  lemma ScanStep(b: Bytes, start: nat, k: nat, p: Bytes, a: Bytes, n: nat)
    requires start <= k && k + n <= |b| && Chars(b, start) == Before(p, Chars(b, k)) && Chars(b, k) == Before(a, Chars(b, k + n))
    ensures Chars(b, start) == Before(p + a, Chars(b, k + n))
    ensures b[start..k + n] == b[start..k] + b[k..k + n]
  {
    hide Chars, Before;
    BeforeTwice(p, a, Chars(b, k + n));
    Slices(b, start, k - start, k + n);
  }

  /** scanString, from the opening quote: the raw bytes, the length they unescape to, and whether there is an escape. */
  method ScanString(b: Bytes, i: nat) returns (raw: Bytes, n: nat, escaped: bool, end: nat, ok: bool)
    requires i < |b| && b[i] == QUOTE
    ensures ok <==> Chars(b, i + 1).Some?
    ensures ok ==> end == Chars(b, i + 1).value.end && raw == b[i + 1..end - 1] && n == |Chars(b, i + 1).value.s|
    ensures ok ==> (escaped <==> BACKSLASH in raw)
  {
    hide Chars, EscapeAt, RuneSize, Encode;
    var start := i + 1;
    var k := start;
    ghost var p: Bytes := [];
    n, escaped := 0, false;
    NothingBefore(Chars(b, start));
    while k < |b|
      invariant start <= k <= |b| && Chars(b, start) == Before(p, Chars(b, k)) && n == |p|
      invariant escaped <==> BACKSLASH in b[start..k]
      decreases |b| - k
    {
      CharsUnfold(b, k);
      if b[k] == QUOTE {
        return b[start..k], n, escaped, k + 1, true;
      }
      if b[k] == BACKSLASH {
        var e := EscapeAt(b, k);
        if e.None? { return [], 0, false, k, false; }
        ScanStep(b, start, k, p, Encode(e.value.ch), e.value.size);
        assert b[k..k + e.value.size][0] == BACKSLASH;
        p := p + Encode(e.value.ch);
        escaped, n, k := true, n + |Encode(e.value.ch)|, k + e.value.size;
      } else {
        if b[k] < 0x20 { return [], 0, false, k, false; }
        var size := RuneSize(b, k);
        if size == 0 { return [], 0, false, k, false; }
        ScanStep(b, start, k, p, b[k..k + size], size);
        RuneHasNoBackslash(b, k);
        p := p + b[k..k + size];
        n, k := n + size, k + size;
      }
    }
    CharsEnd(b);
    ok := false;
    raw, end := [], k;
  }

  lemma NothingBefore(r: Option<Text>)
    ensures Before([], r) == r
  {
    if r.Some? { assert [] + r.value.s == r.value.s; }
  }

  lemma CharsEnd(b: Bytes)
    ensures Chars(b, |b|) == None
  {
  }

  /** bytes.IndexByte for a backslash: how many bytes come before the first. */
  function PlainLength(raw: Bytes): (n: nat)
    ensures n <= |raw| && BACKSLASH !in raw[..n] && (n < |raw| ==> raw[n] == BACKSLASH)
  {
    if raw == [] || raw[0] == BACKSLASH then 0
    else
      var n := PlainLength(raw[1..]);
      assert raw[..n + 1] == [raw[0]] + raw[1..][..n];
      n + 1
  }

  lemma PlainWhole(raw: Bytes)
    requires BACKSLASH !in raw[..|raw|]
    ensures Unescape(raw) == raw
  {
    assert raw[..|raw|] == raw;
    PlainSelf(raw);
  }

  /** One step of unescaping: a plain run, and the escape after it. */
  lemma UnescapeAt(raw: Bytes, n: nat)
    requires n < |raw| && raw[n] == BACKSLASH && BACKSLASH !in raw[..n]
    ensures Unescape(raw) == match EscapeAt(raw, n)
                             case None => raw[..n]
                             case Some(e) => raw[..n] + Encode(e.ch) + Unescape(raw[n + e.size..])
  {
    hide *;
    RestAt(raw, n);
    RunThen(raw[..n], raw[n..]);
  }

  lemma RestAt(raw: Bytes, n: nat)
    requires n < |raw|
    ensures raw[..n] + raw[n..] == raw && raw[n..] != [] && raw[n..][0] == raw[n] && EscapeAt(raw[n..], 0) == EscapeAt(raw, n)
    ensures EscapeAt(raw, n).Some? ==> raw[n..][EscapeAt(raw, n).value.size..] == raw[n + EscapeAt(raw, n).value.size..]
  {
    hide *;
    EscapeDrop(raw, n);
    if EscapeAt(raw, n).Some? { SliceSlice(raw, n, EscapeAt(raw, n).value.size); }
  }

  lemma SliceSlice(s: Bytes, a: nat, c: nat)
    requires a + c <= |s|
    ensures s[a..][c..] == s[a + c..]
  {
  }

  lemma RunThen(p: Bytes, rest: Bytes)
    requires BACKSLASH !in p && rest != [] && rest[0] == BACKSLASH
    ensures Unescape(p + rest) == match EscapeAt(rest, 0) case None => p case Some(e) => p + Encode(e.ch) + Unescape(rest[e.size..])
  {
    hide EscapeAt, Encode, Unescape;
    UnescapePlain(p, rest);
    UnescapeHead(rest);
    match EscapeAt(rest, 0) {
      case None => assert p + [] == p;
      case Some(e) => AddThree(p, Encode(e.ch), Unescape(rest[e.size..]));
    }
  }

  lemma AddThree(a: Bytes, c: Bytes, d: Bytes)
    ensures a + (c + d) == a + c + d
  {
  }

  lemma AddFour(w: Bytes, a: Bytes, c: Bytes, d: Bytes)
    ensures w + (a + c + d) == w + a + c + d
  {
  }

  lemma UnescapeHead(raw: Bytes)
    requires raw != [] && raw[0] == BACKSLASH
    ensures Unescape(raw) == match EscapeAt(raw, 0) case None => [] case Some(e) => Encode(e.ch) + Unescape(raw[e.size..])
  {
  }

  lemma EscapeDrop(raw: Bytes, n: nat)
    requires n < |raw|
    ensures EscapeAt(raw[n..], 0) == EscapeAt(raw, n)
  {
    hide Hex4;
    var rest := raw[n..];
    assert |rest| > 1 ==> rest[1] == raw[n + 1];
    assert |rest| > 7 ==> rest[6] == raw[n + 6] && rest[7] == raw[n + 7];
    Hex4Drop(raw, n, 2);
    Hex4Drop(raw, n, 8);
  }

  lemma Hex4Drop(raw: Bytes, n: nat, k: nat)
    requires n <= |raw|
    ensures Hex4(raw[n..], k) == Hex4(raw, n + k)
  {
    hide HexDigit;
    var rest := raw[n..];
    if n + k + 4 <= |raw| {
      assert rest[k] == raw[n + k] && rest[k + 1] == raw[n + k + 1] && rest[k + 2] == raw[n + k + 2] && rest[k + 3] == raw[n + k + 3];
    }
  }

  /** What is written once the rest is unescaped too. */
  ghost function Told(written: Bytes, rest: Bytes): Bytes {
    written + Unescape(rest)
  }

  /** A plain rest is written as it is. */
  lemma ToldPlain(written: Bytes, rest: Bytes)
    requires BACKSLASH !in rest[..|rest|]
    ensures Told(written, rest) == written + rest
  {
    hide Unescape;
    PlainWhole(rest);
  }

  /** A rest without a valid escape ends there. */
  lemma ToldBroken(written: Bytes, rest: Bytes, n: nat)
    requires n < |rest| && rest[n] == BACKSLASH && BACKSLASH !in rest[..n] && EscapeAt(rest, n).None?
    ensures Told(written, rest) == written + rest[..n]
  {
    hide Unescape, EscapeAt;
    UnescapeAt(rest, n);
  }

  /** Any other: the plain run and the escape are written, and the rest goes on. */
  lemma ToldOn(written: Bytes, rest: Bytes, n: nat)
    requires n < |rest| && rest[n] == BACKSLASH && BACKSLASH !in rest[..n] && EscapeAt(rest, n).Some?
    ensures var e := EscapeAt(rest, n).value; Told(written, rest) == Told(written + rest[..n] + Encode(e.ch), rest[n + e.size..])
  {
    hide Unescape, EscapeAt, Encode;
    var e := EscapeAt(rest, n).value;
    UnescapeAt(rest, n);
    AddFour(written, rest[..n], Encode(e.ch), Unescape(rest[n + e.size..]));
  }

  lemma ToldEnds(written: Bytes, raw: Bytes)
    ensures Told(written, []) == written && Told([], raw) == Unescape(raw)
  {
    hide Unescape;
    NothingSpelled();
    assert written + [] == written && [] + Unescape(raw) == Unescape(raw);
  }

  /** appendUnescaped. */
  method AppendUnescaped(dst: Bytes, raw: Bytes) returns (r: Bytes)
    ensures r == dst + Unescape(raw)
  {
    assert Told(dst, raw) == dst + Unescape(raw);
    hide Unescape, EscapeAt, Encode, PlainLength, Told;
    r := dst;
    var rest := raw;
    while rest != []
      invariant Told(r, rest) == Told(dst, raw)
      decreases |rest|
    {
      var j := PlainLength(rest);
      if j == |rest| {
        ToldPlain(r, rest);
        return r + rest;
      }
      var e := EscapeAt(rest, j);
      if e.None? {
        ToldBroken(r, rest, j);
        return r + rest[..j];
      }
      ToldOn(r, rest, j);
      r := r + rest[..j] + Encode(e.value.ch);
      rest := rest[j + e.value.size..];
    }
    ToldEnds(r, raw);
  }

  /** digestUnescaped: the hash of the unescaped form, fed to it piece by piece. */
  method DigestUnescaped(sha: Bytes -> Bytes, raw: Bytes) returns (h: Bytes)
    ensures h == sha(Unescape(raw))
  {
    hide Unescape, EscapeAt, Encode, PlainLength, Told;
    var written: Bytes := [];
    var rest := raw;
    ToldEnds(written, raw);
    while rest != []
      invariant Told(written, rest) == Unescape(raw)
      decreases |rest|
    {
      var j := PlainLength(rest);
      if j == |rest| {
        ToldPlain(written, rest);
        return sha(written + rest);
      }
      var e := EscapeAt(rest, j);
      if e.None? {
        ToldBroken(written, rest, j);
        return sha(written + rest[..j]);
      }
      ToldOn(written, rest, j);
      written := written + rest[..j] + Encode(e.value.ch);
      rest := rest[j + e.value.size..];
    }
    ToldEnds(written, raw);
    h := sha(written);
  }

  /** Without an escape, the raw text ends at the first quote. */
  lemma {:induction false} PlainHasNoQuote(b: Bytes, i: nat)
    requires i <= |b| && Chars(b, i).Some? && BACKSLASH !in b[i..Chars(b, i).value.end - 1]
    ensures QUOTE !in b[i..Chars(b, i).value.end - 1]
    decreases |b| - i
  {
    hide EscapeAt, RuneSize, Encode, Chars;
    var end := Chars(b, i).value.end;
    CharsStep(b, i);
    if b[i] != QUOTE {
      var n := CharSize(b, i);
      assert b[i] in b[i..end - 1];
      Slices(b, i, n, end - 1);
      PlainHasNoQuote(b, i + n);
      RuneHasNoQuote(b, i);
    }
  }

  lemma RuneHasNoQuote(b: Bytes, i: nat)
    requires i < |b| && RuneSize(b, i) > 0 && b[i] != QUOTE
    ensures QUOTE !in b[i..i + RuneSize(b, i)]
  {
  }

  /** What a scanned string is, all told. */
  lemma Scanned(b: Bytes, i: nat)
    requires i <= |b| && Chars(b, i).Some?
    ensures var r := Chars(b, i).value;
            var raw := b[i..r.end - 1];
            && Unescape(raw) == r.s && |r.s| <= |raw| && (BACKSLASH in raw ==> |r.s| < |raw|) && (BACKSLASH !in raw ==> QUOTE !in raw && raw == r.s)
  {
    hide *;
    ScanUnescape(b, i);
    ScanShrinks(b, i);
    var raw := b[i..Chars(b, i).value.end - 1];
    if BACKSLASH !in raw {
      PlainHasNoQuote(b, i);
      PlainSelf(raw);
    }
  }

  // ---- What a character is written as ----

  /** The character a UTF-8 sequence stands for, by RFC 3629, section 3. */
  function CodePoint(s: Bytes): int {
    if |s| == 1 then s[0] as int
    else if |s| == 2 then (s[0] as int - 0xC0) * 0x40 + (s[1] as int - 0x80)
    else if |s| == 3 then (s[0] as int - 0xE0) * 0x1000 + (s[1] as int - 0x80) * 0x40 + (s[2] as int - 0x80)
    else if |s| == 4 then
      (s[0] as int - 0xF0) * 0x40000 + (s[1] as int - 0x80) * 0x1000 + (s[2] as int - 0x80) * 0x40 + (s[3] as int - 0x80)
    else 0
  }

  /** A character is encoded as itself. */
  lemma EncodeMeans(r: Rune)
    ensures CodePoint(Encode(r)) == r
  {
    SixBits(r, 64);
    SixBits(r, 4096);
  }

  lemma SixBits(n: nat, k: nat)
    requires k in {64, 4096}
    ensures n / k % 64 == n / k - 64 * (n / (k * 64))
  {
    var q, r := n / (k * 64), n % (k * 64);
    assert n == k * (q * 64) + r && r / k < 64;
    assert n / k == q * 64 + r / k;
  }

  /** A \\u escape of a number, its four digits in lower or in upper case. */
  function UnitText(u: nat, upper: bool): (t: Bytes)
    requires u < 0x10000
    ensures |t| == 6
  {
    [BACKSLASH, 0x75, HexChar(u / 0x1000, upper), HexChar(u / 0x100 % 16, upper), HexChar(u / 16 % 16, upper), HexChar(u % 16, upper)]
  }

  function HexChar(n: nat, upper: bool): byte
    requires n < 16
  {
    "0123456789abcdef0123456789ABCDEF"[if upper then n + 16 else n] as byte
  }

  lemma HexCharRead(n: nat, upper: bool)
    requires n < 16
    ensures HexDigit(HexChar(n, upper)) == Some(n)
  {
  }

  lemma UnitRead(u: nat, upper: bool, rest: Bytes)
    requires u < 0x10000
    ensures Hex4(UnitText(u, upper) + rest, 2) == Some(u)
  {
    hide HexDigit, HexChar;
    HexCharRead(u / 0x1000, upper);
    HexCharRead(u / 0x100 % 16, upper);
    HexCharRead(u / 16 % 16, upper);
    HexCharRead(u % 16, upper);
    var s := UnitText(u, upper) + rest;
    assert s[..6] == UnitText(u, upper);
    NumberInHex(u);
  }

  lemma NumberInHex(u: nat)
    ensures u == ((u / 0x1000 * 16 + u / 0x100 % 16) * 16 + u / 16 % 16) * 16 + u % 16
  {
    DigitOff(u, 0x100);
    DigitOff(u, 16);
  }

  lemma DigitOff(u: nat, n: nat)
    requires n in {16, 0x100}
    ensures u / n == u / (n * 16) * 16 + u / n % 16
  {
    var q, r := u / (n * 16), u % (n * 16);
    assert u == n * (q * 16) + r && r / n < 16;
    assert u / n == q * 16 + r / n;
  }

  /** Every character of the basic plane reads from its escape, in either case of digits. */
  lemma PlainUnit(r: Rune, upper: bool)
    requires r < 0x10000
    ensures EscapeAt(UnitText(r, upper), 0) == Some(Escape(r, 6))
  {
    UnitRead(r, upper, []);
    assert UnitText(r, upper) + [] == UnitText(r, upper);
    hide Hex4, HexChar;
  }

  /** A pair of surrogates stands for the character it is made of. */
  lemma PairRead(s: Bytes, hi: nat, lo: nat)
    requires |s| == 12 && s[0] == BACKSLASH && s[1] == 0x75 && s[6] == BACKSLASH && s[7] == 0x75
    requires Hex4(s, 2) == Some(hi) && Hex4(s, 8) == Some(lo) && 0xD800 <= hi < 0xDC00 <= lo < 0xE000
    ensures EscapeAt(s, 0) == Some(Escape(0x10000 + (hi - 0xD800) * 0x400 + (lo - 0xDC00), 12))
  {
    hide Hex4;
  }

  /** And every other from its pair of surrogates (RFC 8259, section 7). */
  lemma SurrogatePair(r: Rune, upper: bool)
    requires r >= 0x10000
    ensures var hi, lo := 0xD800 + (r - 0x10000) / 0x400, 0xDC00 + (r - 0x10000) % 0x400;
            hi < 0xDC00 && lo < 0xE000 && EscapeAt(UnitText(hi, upper) + UnitText(lo, upper), 0) == Some(Escape(r, 12))
  {
    hide EscapeAt, HexChar, HexDigit;
    var hi, lo := 0xD800 + (r - 0x10000) / 0x400, 0xDC00 + (r - 0x10000) % 0x400;
    var s := UnitText(hi, upper) + UnitText(lo, upper);
    UnitRead(hi, upper, UnitText(lo, upper));
    UnitRead(lo, upper, []);
    assert UnitText(lo, upper) + [] == UnitText(lo, upper) && s[6..] == UnitText(lo, upper);
    Hex4Drop(s, 6, 2);
    assert s[6] == s[6..][0] && s[7] == s[6..][1];
    hide Hex4;
    PairRead(s, hi, lo);
  }

  /** The two-character escapes, and the four characters of whitespace. */
  lemma ShortEscapes(c: byte)
    ensures EscapeAt([BACKSLASH, c], 0) == match c as char
              case '"' => Some(Escape(0x22, 2)) case '\\' => Some(Escape(0x5C, 2)) case '/' => Some(Escape(0x2F, 2))
              case 'b' => Some(Escape(0x08, 2)) case 'f' => Some(Escape(0x0C, 2)) case 'n' => Some(Escape(0x0A, 2))
              case 'r' => Some(Escape(0x0D, 2)) case 't' => Some(Escape(0x09, 2)) case _ => None
    ensures IsSpace(c) <==> c as char in {' ', '\t', '\n', '\r'}
  {
  }

  lemma Sextets(a: nat, x: nat, y: nat)
    requires x < 64 && y < 64
    ensures var r := a * 4096 + x * 64 + y; r / 4096 == a && r / 64 == a * 64 + x && r / 64 % 64 == x && r % 64 == y
  {
    var r := a * 4096 + x * 64 + y;
    assert r == (a * 64 + x) * 64 + y;
    assert r / 64 == a * 64 + x;
  }

  lemma FourParts(a: nat, x: nat, y: nat, z: nat)
    requires x < 64 && y < 64 && z < 64
    ensures var r := a * 262144 + x * 4096 + y * 64 + z;
            r / 262144 == a && r / 4096 % 64 == x && r / 64 % 64 == y && r % 64 == z
  {
    Sextets(a * 64 + x, y, z);
    assert (a * 64 + x) / 64 == a && (a * 64 + x) % 64 == x;
  }

  /** The bytes are those of a character that is no surrogate, and the shortest for it. */
  predicate Encodes(t: Bytes) {
    var r := CodePoint(t);
    0 <= r <= 0x10FFFF && !(0xD800 <= r <= 0xDFFF) && Encode(r) == t
  }

  /** The well-formed sequences are the encodings of characters, and no others. */
  lemma RuneOnly(s: Bytes)
    requires s != [] && RuneSize(s, 0) > 0
    ensures Encodes(s[..RuneSize(s, 0)])
  {
    var n := RuneSize(s, 0);
    if n == 1 { OneByte(s[..1]); }
    if n == 2 { TwoBytes(s[..2]); }
    if n == 3 { ThreeBytes(s[..3]); }
    if n == 4 { FourBytes(s[..4]); }
    hide Encodes;
  }

  lemma OneByte(t: Bytes)
    requires |t| == 1 && t[0] < 0x80
    ensures Encodes(t)
  {
  }

  lemma TwoBytes(t: Bytes)
    requires |t| == 2 && 0xC2 <= t[0] <= 0xDF && Tail(t[1])
    ensures Encodes(t)
  {
    var a, x := t[0] as nat - 0xC0, t[1] as nat - 0x80;
    assert (a * 64 + x) / 64 == a && (a * 64 + x) % 64 == x;
  }

  lemma ThreeBytes(t: Bytes)
    requires |t| == 3 && 0xE0 <= t[0] <= 0xEF && Tail(t[1]) && Tail(t[2]) && (t[0] == 0xE0 ==> t[1] >= 0xA0) && (t[0] == 0xED ==> t[1] <= 0x9F)
    ensures Encodes(t)
  {
    Sextets(t[0] as nat - 0xE0, t[1] as nat - 0x80, t[2] as nat - 0x80);
  }

  lemma FourBytes(t: Bytes)
    requires |t| == 4 && 0xF0 <= t[0] <= 0xF4 && Tail(t[1]) && Tail(t[2]) && Tail(t[3]) && (t[0] == 0xF0 ==> t[1] >= 0x90) && (t[0] == 0xF4 ==> t[1] <= 0x8F)
    ensures Encodes(t)
  {
    FourParts(t[0] as nat - 0xF0, t[1] as nat - 0x80, t[2] as nat - 0x80, t[3] as nat - 0x80);
  }

  /** What is read as four hex digits is four of these characters. */
  lemma OnlyHexDigits(b: Bytes, i: nat)
    ensures Hex4(b, i).Some? <==>
              i + 4 <= |b| && forall k | i <= k < i + 4 ::
                '0' <= b[k] as char <= '9' || 'a' <= b[k] as char <= 'f' || 'A' <= b[k] as char <= 'F'
  {
  }

  /** And no other escape is any: with u, it is the number itself, never a surrogate, or both surrogates of the character. */
  lemma EscapeOnly(b: Bytes, i: nat)
    requires i + 1 < |b|
    ensures b[i + 1] != 0x75 ==> EscapeAt(b, i) == EscapeAt([BACKSLASH, b[i + 1]], 0)
    ensures b[i + 1] == 0x75 && EscapeAt(b, i).Some? ==>
              var e := EscapeAt(b, i).value;
              || (e.size == 6 && Hex4(b, i + 2) == Some(e.ch))
              || (e.size == 12 && e.ch >= 0x10000 && i + 7 < |b| && b[i + 6] == BACKSLASH && b[i + 7] == 0x75
                  && Hex4(b, i + 2) == Some(0xD800 + (e.ch - 0x10000) / 0x400) && Hex4(b, i + 8) == Some(0xDC00 + (e.ch - 0x10000) % 0x400))
  {
    hide Hex4;
  }
}
