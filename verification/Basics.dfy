/** Small types every other module uses. */
module Basics {

  datatype Option<+T> = None | Some(value: T)

  /** One byte of a file, a hash input or a JSON text. */
  newtype byte = x: int | 0 <= x < 256

  type Bytes = seq<byte>

  /** Go's int on a 64-bit target. */
  newtype int64 = x: int | -0x8000_0000_0000_0000 <= x < 0x8000_0000_0000_0000

  /** The bytes of an ASCII text. */
  function Ascii(s: string): (b: Bytes)
    ensures |b| == |s|
  {
    seq(|s|, i requires 0 <= i < |s| => (s[i] as int % 256) as byte)
  }

  /** A Go string's bytes as characters. */
  function Latin(b: Bytes): (s: string)
    ensures |s| == |b| && forall i | 0 <= i < |b| :: s[i] == b[i] as char
  {
    seq(|b|, i requires 0 <= i < |b| => b[i] as char)
  }

  predicate Low(s: string) {
    forall i | 0 <= i < |s| :: s[i] < 128 as char
  }

  lemma LatinOfAscii(s: string)
    requires Low(s)
    ensures Latin(Ascii(s)) == s && Low(Latin(Ascii(s)))
  {
  }

  lemma AsciiOfLatin(b: Bytes)
    ensures Ascii(Latin(b)) == b
  {
  }

  lemma AsciiTells(a: string, c: string)
    requires Low(a) && Low(c) && Ascii(a) == Ascii(c)
    ensures a == c
  {
    LatinOfAscii(a);
    LatinOfAscii(c);
  }
}
