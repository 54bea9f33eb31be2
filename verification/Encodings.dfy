/** Hex and standard base64: as they are written, and strict decoders by their alphabets. */
module Encodings {
  import opened Basics

  const PAD: byte := 0x3D

  /** hex.EncodeToString. */
  function Hex(b: Bytes): (r: Bytes)
    ensures |r| == 2 * |b|
    ensures forall i | 0 <= i < |r| :: 0x30 <= r[i] <= 0x39 || 0x61 <= r[i] <= 0x66
  {
    if b == [] then [] else Hex(b[..|b| - 1]) + [HexLower(b[|b| - 1] as nat / 16), HexLower(b[|b| - 1] as nat % 16)]
  }

  function HexLower(n: nat): byte
    requires n < 16
  {
    if n < 10 then (0x30 + n) as byte else (0x61 + n - 10) as byte
  }

  function Sextet(n: nat): (c: byte)
    requires n < 64
    ensures c < 0x80
  {
    if n < 26 then (0x41 + n) as byte else if n < 52 then (0x61 + n - 26) as byte else if n < 62 then (0x30 + n - 52) as byte
    else if n == 62 then 0x2B else 0x2F
  }

  /** Three bytes as four characters. */
  function Quad(x: byte, y: byte, z: byte): (r: Bytes)
    ensures |r| == 4 && forall c <- r :: c < 0x80
  {
    [Sextet(x as nat / 4), Sextet(x as nat % 4 * 16 + y as nat / 16), Sextet(y as nat % 16 * 4 + z as nat / 64), Sextet(z as nat % 64)]
  }

  /** One or two bytes left over, with padding. */
  function Tail(b: Bytes): (r: Bytes)
    requires 1 <= |b| <= 2
    ensures |r| == 4 && forall c <- r :: c < 0x80
  {
    if |b| == 1 then [Sextet(b[0] as nat / 4), Sextet(b[0] as nat % 4 * 16), PAD, PAD]
    else [Sextet(b[0] as nat / 4), Sextet(b[0] as nat % 4 * 16 + b[1] as nat / 16), Sextet(b[1] as nat % 16 * 4), PAD]
  }

  /** base64.StdEncoding: four characters for every three bytes, the last ones padded. */
  function Base64(b: Bytes): (r: Bytes)
    ensures |r| == (|b| + 2) / 3 * 4
    ensures forall c <- r :: c < 0x80
    decreases |b|
  {
    if b == [] then [] else if |b| < 3 then Tail(b) else Quad(b[0], b[1], b[2]) + Base64(b[3..])
  }

  // ---- Decoding, by the tables of RFC 4648, sections 4 and 8 ----

  /** What a character of base64 stands for. */
  function SextetOf(c: byte): (r: Option<nat>)
    ensures r.Some? ==> r.value < 64
  {
    var ch := c as char;
    if 'A' <= ch <= 'Z' then Some((ch - 'A') as nat)
    else if 'a' <= ch <= 'z' then Some((ch - 'a') as nat + 26)
    else if '0' <= ch <= '9' then Some((ch - '0') as nat + 52)
    else if ch == '+' then Some(62)
    else if ch == '/' then Some(63)
    else None
  }

  /** What a lower-case hex digit stands for. */
  function NibbleOf(c: byte): (r: Option<nat>)
    ensures r.Some? ==> r.value < 16
  {
    var ch := c as char;
    if '0' <= ch <= '9' then Some((ch - '0') as nat) else if 'a' <= ch <= 'f' then Some((ch - 'a') as nat + 10) else None
  }

  /** Two digits for each byte, in lower case. */
  function FromHex(s: Bytes): Option<Bytes> {
    if s == [] then Some([])
    else if |s| == 1 then None
    else
      match (NibbleOf(s[0]), NibbleOf(s[1]), FromHex(s[2..]))
      case (Some(hi), Some(lo), Some(rest)) => Some([(hi * 16 + lo) as byte] + rest)
      case _ => None
  }

  /** Four characters, none of them padding. */
  function FromQuad(s: Bytes): (r: Option<Bytes>)
    requires |s| == 4
    ensures r.Some? ==> |r.value| == 3
  {
    match (SextetOf(s[0]), SextetOf(s[1]), SextetOf(s[2]), SextetOf(s[3]))
    case (Some(a), Some(b), Some(c), Some(d)) =>
      Some([(a * 4 + b / 16) as byte, (b % 16 * 16 + c / 4) as byte, (c % 4 * 64 + d) as byte])
    case _ => None
  }

  /** The last four, padded: no bit may be set that encodes nothing. */
  function FromTail(s: Bytes): (r: Option<Bytes>)
    requires |s| == 4
    ensures r.Some? ==> 1 <= |r.value| <= 2
  {
    if s[2] == PAD then
      match (SextetOf(s[0]), SextetOf(s[1]))
      case (Some(a), Some(b)) => if b % 16 == 0 then Some([(a * 4 + b / 16) as byte]) else None
      case _ => None
    else
      match (SextetOf(s[0]), SextetOf(s[1]), SextetOf(s[2]))
      case (Some(a), Some(b), Some(c)) =>
        if c % 4 == 0 then Some([(a * 4 + b / 16) as byte, (b % 16 * 16 + c / 4) as byte]) else None
      case _ => None
  }

  /** Strict: whole groups of four, padding at the end only, and no bits set that encode nothing. */
  function FromBase64(s: Bytes): Option<Bytes> {
    if s == [] then Some([])
    else if |s| < 4 then None
    else if |s| == 4 && s[3] == PAD then FromTail(s)
    else
      match (FromQuad(s[..4]), FromBase64(s[4..]))
      case (Some(x), Some(rest)) => Some(x + rest)
      case _ => None
  }

  lemma SextetBack(n: nat)
    requires n < 64
    ensures SextetOf(Sextet(n)) == Some(n) && Sextet(n) != PAD
  {
  }

  lemma NibbleBack(n: nat)
    requires n < 16
    ensures NibbleOf(HexLower(n)) == Some(n)
  {
  }

  lemma SextetIs(c: byte)
    ensures SextetOf(c).Some? ==> Sextet(SextetOf(c).value) == c && c != PAD
  {
  }

  // ---- Hex ----

  lemma {:induction false} HexAppend(a: Bytes, b: Bytes)
    ensures Hex(a + b) == Hex(a) + Hex(b)
    decreases |b|
  {
    if b == [] {
      assert a + b == a;
    } else {
      var n := |b| - 1;
      assert (a + b)[..|a + b| - 1] == a + b[..n];
      HexAppend(a, b[..n]);
    }
  }

  /** What is written in hex reads back. */
  lemma {:induction false} HexReads(b: Bytes)
    ensures FromHex(Hex(b)) == Some(b)
    decreases |b|
  {
    if b != [] {
      var x := b[0] as nat;
      assert b == [b[0]] + b[1..];
      HexAppend([b[0]], b[1..]);
      assert [b[0]][..0] == [];
      NibbleBack(x / 16);
      NibbleBack(x % 16);
      HexReads(b[1..]);
      assert Hex(b)[2..] == Hex(b[1..]);
    }
  }

  /** And every even number of lower-case digits is the hex of something. */
  lemma {:induction false} HexOnly(s: Bytes)
    requires |s| % 2 == 0 && forall c <- s :: NibbleOf(c).Some?
    ensures FromHex(s).Some? && 2 * |FromHex(s).value| == |s| && Hex(FromHex(s).value) == s
    decreases |s|
  {
    if s == [] {
      return;
    }
    forall c | c in s[2..] ensures c in s {}
    HexOnly(s[2..]);
    assert s[0] in s && s[1] in s;
    HexOnward(s);
  }

  lemma HexOnward(s: Bytes)
    requires |s| >= 2 && NibbleOf(s[0]).Some? && NibbleOf(s[1]).Some?
    requires FromHex(s[2..]).Some? && 2 * |FromHex(s[2..]).value| == |s| - 2 && Hex(FromHex(s[2..]).value) == s[2..]
    ensures FromHex(s).Some? && 2 * |FromHex(s).value| == |s| && Hex(FromHex(s).value) == s
  {
    hide NibbleOf, Hex, FromHex;
    PairOfDigits(s[0], s[1]);
    FromPair(s);
    var x, rest := (NibbleOf(s[0]).value * 16 + NibbleOf(s[1]).value) as byte, FromHex(s[2..]).value;
    HexJoined(s, x, rest);
  }

  lemma FromPair(s: Bytes)
    requires |s| >= 2 && NibbleOf(s[0]).Some? && NibbleOf(s[1]).Some? && FromHex(s[2..]).Some?
    ensures FromHex(s) == Some([(NibbleOf(s[0]).value * 16 + NibbleOf(s[1]).value) as byte] + FromHex(s[2..]).value)
  {
    hide NibbleOf;
  }

  lemma HexJoined(s: Bytes, x: byte, rest: Bytes)
    requires |s| >= 2 && Hex([x]) == [s[0], s[1]] && Hex(rest) == s[2..]
    ensures Hex([x] + rest) == s
  {
    HexAppend([x], rest);
    hide Hex;
    assert s == [s[0], s[1]] + s[2..];
  }

  lemma PairOfDigits(c: byte, d: byte)
    requires NibbleOf(c).Some? && NibbleOf(d).Some?
    ensures Hex([(NibbleOf(c).value * 16 + NibbleOf(d).value) as byte]) == [c, d]
  {
    NibbleIs(c);
    NibbleIs(d);
    hide NibbleOf, HexLower;
    var x := (NibbleOf(c).value * 16 + NibbleOf(d).value) as byte;
    assert [x][..0] == [];
  }

  lemma NibbleIs(c: byte)
    ensures NibbleOf(c).Some? ==> HexLower(NibbleOf(c).value) == c
  {
  }

  // ---- Base64 ----

  lemma QuadReads(x: byte, y: byte, z: byte)
    ensures FromQuad(Quad(x, y, z)) == Some([x, y, z]) && Quad(x, y, z)[3] != PAD
  {
    hide Sextet, SextetOf;
    SextetBack(x as nat / 4);
    SextetBack(x as nat % 4 * 16 + y as nat / 16);
    SextetBack(y as nat % 16 * 4 + z as nat / 64);
    SextetBack(z as nat % 64);
    QuadBytes(x as nat, y as nat, z as nat);
  }

  lemma QuadBytes(x: nat, y: nat, z: nat)
    requires x < 256 && y < 256 && z < 256
    ensures x / 4 * 4 + (x % 4 * 16 + y / 16) / 16 == x
    ensures (x % 4 * 16 + y / 16) % 16 * 16 + (y % 16 * 4 + z / 64) / 4 == y
    ensures (y % 16 * 4 + z / 64) % 4 * 64 + z % 64 == z
  {
    assert (x % 4 * 16 + y / 16) / 16 == x % 4 && (x % 4 * 16 + y / 16) % 16 == y / 16;
    assert (y % 16 * 4 + z / 64) / 4 == y % 16 && (y % 16 * 4 + z / 64) % 4 == z / 64;
  }

  lemma TailReads(b: Bytes)
    requires 1 <= |b| <= 2
    ensures FromTail(Tail(b)) == Some(b) && Tail(b)[3] == PAD
  {
    hide Sextet, SextetOf;
    var x, y := b[0] as nat, if |b| == 1 then 0 else b[1] as nat;
    SextetBack(x / 4);
    SextetBack(x % 4 * 16 + y / 16);
    SextetBack(y % 16 * 4);
    assert b == if |b| == 1 then [b[0]] else [b[0], b[1]];
  }

  /** What is written in base64 reads back. */
  lemma {:induction false} Base64Reads(b: Bytes)
    ensures FromBase64(Base64(b)) == Some(b)
    decreases |b|
  {
    hide Quad, Tail, FromQuad, FromTail;
    if 1 <= |b| <= 2 {
      TailReads(b);
    } else if |b| >= 3 {
      QuadReads(b[0], b[1], b[2]);
      Base64Reads(b[3..]);
      QuadThen(Quad(b[0], b[1], b[2]), Base64(b[3..]));
      assert b == [b[0], b[1], b[2]] + b[3..];
    }
  }

  lemma QuadThen(four: Bytes, rest: Bytes)
    requires |four| == 4 && four[3] != PAD && FromQuad(four).Some? && FromBase64(rest).Some?
    ensures FromBase64(four + rest) == Some(FromQuad(four).value + FromBase64(rest).value)
  {
    hide FromQuad, FromTail;
    var s := four + rest;
    assert s[..4] == four && s[4..] == rest && s[3] == four[3];
  }

  lemma QuadOnly(s: Bytes)
    requires |s| == 4 && FromQuad(s).Some?
    ensures var b := FromQuad(s).value; Quad(b[0], b[1], b[2]) == s
  {
    hide Sextet, SextetOf;
    SextetIs(s[0]);
    SextetIs(s[1]);
    SextetIs(s[2]);
    SextetIs(s[3]);
  }

  lemma TailOnly(s: Bytes)
    requires |s| == 4 && s[3] == PAD && FromTail(s).Some?
    ensures Tail(FromTail(s).value) == s
  {
    if s[2] == PAD { TailOne(s); } else { TailTwo(s); }
  }

  lemma TailOne(s: Bytes)
    requires |s| == 4 && s[2] == PAD && s[3] == PAD && FromTail(s).Some?
    ensures Tail(FromTail(s).value) == s
  {
    hide Sextet, SextetOf;
    SextetIs(s[0]);
    SextetIs(s[1]);
    var a, b := SextetOf(s[0]).value, SextetOf(s[1]).value;
    assert (a * 4 + b / 16) / 4 == a && (a * 4 + b / 16) % 4 * 16 == b;
  }

  lemma TailTwo(s: Bytes)
    requires |s| == 4 && s[2] != PAD && s[3] == PAD && FromTail(s).Some?
    ensures Tail(FromTail(s).value) == s
  {
    hide Sextet, SextetOf;
    SextetIs(s[0]);
    SextetIs(s[1]);
    SextetIs(s[2]);
    var a, b, c := SextetOf(s[0]).value, SextetOf(s[1]).value, SextetOf(s[2]).value;
    assert (a * 4 + b / 16) / 4 == a && (a * 4 + b / 16) % 4 == b / 16;
    assert (b % 16 * 16 + c / 4) / 16 == b % 16 && (b % 16 * 16 + c / 4) % 16 * 4 == c;
  }

  /** And nothing else reads as it: the strict decoder accepts what is written, and no other spelling. */
  lemma {:induction false} Base64Only(s: Bytes)
    requires FromBase64(s).Some?
    ensures Base64(FromBase64(s).value) == s
    decreases |s|
  {
    hide Quad, Tail, FromQuad, FromTail;
    if s != [] {
      if |s| == 4 && s[3] == PAD {
        TailOnly(s);
      } else {
        QuadOnly(s[..4]);
        Base64Only(s[4..]);
        var b, four := FromBase64(s).value, FromQuad(s[..4]).value;
        assert b == four + FromBase64(s[4..]).value && b[3..] == FromBase64(s[4..]).value && b[0] == four[0] && b[1] == four[1] && b[2] == four[2];
        assert s == s[..4] + s[4..];
      }
    }
  }
}
