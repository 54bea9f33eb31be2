/** The two delimited preimages, of an entry's chain hash and of a checkpoint's, and the length-prefixed record envelope. */
module Preimages {
  import opened Basics
  import opened Text
  import opened Timestamps

  const CHAIN_PREFIX := "aleutian.chain.v3:"
  const ANCHOR_DOMAIN := "aleutian.anchor.v2:"

  /** What ComputeChainHashV3Unchecked hashes. */
  function ChainPreimage(previous: string, seqNo: nat, t: Instant, content: string): string {
    CHAIN_PREFIX + previous + ['|'] + Decimal(seqNo) + ['|'] + FormatTimestamp(t) + ['|'] + content
  }

  lemma {:induction false} PaddedHasNoPipe(n: nat, width: nat)
    ensures '|' !in Padded(n, width)
  {
  }

  lemma TimestampHasNoPipe(t: Instant)
    ensures '|' !in FormatTimestamp(t)
  {
    var f := FieldsOf(t);
    PaddedHasNoPipe(f.date.year, 4);
    PaddedHasNoPipe(f.date.month, 2);
    PaddedHasNoPipe(f.date.day, 2);
    PaddedHasNoPipe(f.hour, 2);
    PaddedHasNoPipe(f.minute, 2);
    PaddedHasNoPipe(f.second, 2);
    PaddedHasNoPipe(f.micro, 6);
    hide Padded, FieldsOf;
  }

  /** The preimage cut into its fields, from the left. */
  function ChainFields(s: string): Option<(string, string, string, string)> {
    match Cut(s, '|')
    case None => None
    case Some(a) =>
      match Cut(a.1, '|')
      case None => None
      case Some(b) =>
        match Cut(b.1, '|')
        case None => None
        case Some(c) => Some((a.0, b.0, c.0, c.1))
  }

  lemma FieldsBack(previous: string, seqNo: nat, t: Instant, content: string)
    requires '|' !in previous
    ensures ChainFields(ChainPreimage(previous, seqNo, t, content)[|CHAIN_PREFIX|..])
         == Some((previous, Decimal(seqNo), FormatTimestamp(t), content))
  {
    var stamp, rest := FormatTimestamp(t), FormatTimestamp(t) + ['|'] + content;
    TimestampHasNoPipe(t);
    hide Cut, FormatTimestamp;
    var number := Decimal(seqNo);
    hide Decimal;
    assert ChainPreimage(previous, seqNo, t, content)[|CHAIN_PREFIX|..] == previous + ['|'] + (number + ['|'] + rest);
    CutPiece(previous, '|', number + ['|'] + rest);
    CutPiece(number, '|', rest);
    CutPiece(stamp, '|', content);
  }

  /**
   * Two entries hashed alike are alike, whatever their content hashes are, as
   * long as neither previous hash holds the delimiter.
   */
  lemma ChainPreimageInjective(p: string, n: nat, t: Instant, c: string, p': string, n': nat, t': Instant, c': string)
    requires '|' !in p && '|' !in p'
    requires ChainPreimage(p, n, t, c) == ChainPreimage(p', n', t', c')
    ensures p == p' && n == n' && FormatTimestamp(t) == FormatTimestamp(t') && c == c'
  {
    FieldsBack(p, n, t, c);
    FieldsBack(p', n', t', c');
    hide FormatTimestamp, ChainFields, ChainPreimage;
    DecimalInjective(n, n');
  }

  /** A delimiter inside the previous hash is what lets two different entries hash alike. */
  lemma ChainPreimageAmbiguous(p: string, n: nat, t: Instant, c: string, m: nat, u: Instant)
    ensures var p' := p + ['|'] + Decimal(n) + ['|'] + FormatTimestamp(t);
            var c' := Decimal(m) + ['|'] + FormatTimestamp(u) + ['|'] + c;
            p' != p && ChainPreimage(p', m, u, c) == ChainPreimage(p, n, t, c')
  {
    hide FormatTimestamp, Decimal;
    var p' := p + ['|'] + Decimal(n) + ['|'] + FormatTimestamp(t);
    assert |p'| > |p|;
  }

  // ---- The anchor hash ----

  /** What anchor.ChainHash hashes. */
  function AnchorPreimage(previous: string, subject: string, first: string, last: string, tip: string): string {
    ANCHOR_DOMAIN + previous + ['|'] + subject + ['|'] + first + ['|'] + last + ['|'] + tip
  }

  predicate PipeFree(fields: seq<string>) {
    forall f <- fields :: '|' !in f
  }

  lemma AnchorJoined(previous: string, subject: string, first: string, last: string, tip: string)
    ensures AnchorPreimage(previous, subject, first, last, tip)
         == ANCHOR_DOMAIN + JoinWith([previous, subject, first, last, tip], '|')
  {
    assert [previous, subject, first, last, tip][1..] == [subject, first, last, tip];
    assert [subject, first, last, tip][1..] == [first, last, tip];
    assert [first, last, tip][1..] == [last, tip] && [last, tip][1..] == [tip];
    var j := JoinWith([last, tip], '|');
    assert JoinWith([tip], '|') == tip && j == last + ['|'] + tip;
    assert JoinWith([first, last, tip], '|') == first + ['|'] + j;
    assert JoinWith([subject, first, last, tip], '|') == subject + ['|'] + (first + ['|'] + j);
    assert JoinWith([previous, subject, first, last, tip], '|') == previous + ['|'] + (subject + ['|'] + (first + ['|'] + j));
  }

  /** With no delimiter in any field, the five fields come back. */
  lemma AnchorPreimageInjective(a: (string, string, string, string, string), b: (string, string, string, string, string))
    requires PipeFree([a.0, a.1, a.2, a.3, a.4]) && PipeFree([b.0, b.1, b.2, b.3, b.4])
    requires AnchorPreimage(a.0, a.1, a.2, a.3, a.4) == AnchorPreimage(b.0, b.1, b.2, b.3, b.4)
    ensures a == b
  {
    var x, y := [a.0, a.1, a.2, a.3, a.4], [b.0, b.1, b.2, b.3, b.4];
    hide AnchorPreimage, JoinWith, SplitOn;
    AnchorJoined(a.0, a.1, a.2, a.3, a.4);
    AnchorJoined(b.0, b.1, b.2, b.3, b.4);
    var j, k := JoinWith(x, '|'), JoinWith(y, '|');
    assert j == (ANCHOR_DOMAIN + j)[|ANCHOR_DOMAIN|..] && k == (ANCHOR_DOMAIN + k)[|ANCHOR_DOMAIN|..];
    SplitJoin(x, '|');
    SplitJoin(y, '|');
    assert x[0] == y[0] && x[1] == y[1] && x[2] == y[2] && x[3] == y[3] && x[4] == y[4];
  }

  /** With one in an entry id, another range has the same preimage: the ban cannot be dropped. */
  lemma AnchorPreimageAmbiguous(previous: string, subject: string, a: string, b: string, c: string, tip: string)
    ensures AnchorPreimage(previous, subject, a + ['|'] + b, c, tip) == AnchorPreimage(previous, subject, a, b + ['|'] + c, tip)
    ensures a + ['|'] + b != a
  {
    assert |a + ['|'] + b| > |a|;
  }

  /** anchor.ChainHash: the digest, unless a field holds the delimiter. */
  function AnchorHash(sha: string -> string, previous: string, subject: string, first: string, last: string, tip: string): Option<string> {
    if PipeFree([previous, subject, first, last, tip]) then Some(sha(AnchorPreimage(previous, subject, first, last, tip))) else None
  }

  // ---- The record envelope ----

  /** A uint32, big-endian. */
  function BigEndian(n: nat): (b: Bytes)
    ensures |b| == 4
  {
    var m := n % 0x1_0000_0000;
    [(m / 0x100_0000) as byte, (m / 0x1_0000 % 0x100) as byte, (m / 0x100 % 0x100) as byte, (m % 0x100) as byte]
  }

  function FromBigEndian(b: Bytes): nat
    requires |b| == 4
  {
    b[0] as nat * 0x100_0000 + b[1] as nat * 0x1_0000 + b[2] as nat * 0x100 + b[3] as nat
  }

  lemma BigEndianBack(n: nat)
    requires n < 0x1_0000_0000
    ensures FromBigEndian(BigEndian(n)) == n
  {
    BigEndianIs(n);
    FromFour(n / 0x100_0000, n / 0x1_0000 % 0x100, n / 0x100 % 0x100, n % 0x100);
    hide BigEndian, FromBigEndian;
    ByteDivisions(n);
  }

  lemma BigEndianIs(n: nat)
    requires n < 0x1_0000_0000
    ensures BigEndian(n) == [(n / 0x100_0000) as byte, (n / 0x1_0000 % 0x100) as byte, (n / 0x100 % 0x100) as byte, (n % 0x100) as byte]
  {
  }

  lemma FromFour(a: nat, b: nat, c: nat, d: nat)
    requires a < 0x100 && b < 0x100 && c < 0x100 && d < 0x100
    ensures FromBigEndian([a as byte, b as byte, c as byte, d as byte]) == a * 0x100_0000 + b * 0x1_0000 + c * 0x100 + d
  {
  }

  lemma ByteDivisions(n: nat)
    requires n < 0x1_0000_0000
    ensures n / 0x100_0000 < 0x100
    ensures n == n / 0x100_0000 * 0x100_0000 + n / 0x1_0000 % 0x100 * 0x1_0000 + n / 0x100 % 0x100 * 0x100 + n % 0x100
  {
    var a := n / 0x100;
    var b := a / 0x100;
    assert 0 <= n - b * 0x1_0000 < 0x1_0000;
    assert 0 <= n - b / 0x100 * 0x100_0000 < 0x100_0000;
    assert n / 0x1_0000 == b && n / 0x100_0000 == b / 0x100;
  }

  /** Each value behind its tag and its length. */
  function Tagged(fields: seq<Bytes>, tag: byte): Bytes
    requires tag as int + |fields| < 256
  {
    if fields == [] then [] else [tag] + BigEndian(|fields[0]|) + fields[0] + Tagged(fields[1..], tag + 1)
  }

  predicate Short(fields: seq<Bytes>) {
    forall f <- fields :: |f| < 0x1_0000_0000
  }

  /** Length prefixes make the envelope injective, whatever bytes the values hold and however many there are. */
  lemma {:induction false} TaggedInjective(a: seq<Bytes>, b: seq<Bytes>, tag: byte)
    requires tag as int + |a| < 256 && tag as int + |b| < 256 && Short(a) && Short(b)
    requires Tagged(a, tag) == Tagged(b, tag)
    ensures a == b
    decreases |a|
  {
    if a != [] && b != [] {
      var x, y := Tagged(a, tag), Tagged(b, tag);
      var n, m := |a[0]|, |b[0]|;
      HeadOf(a, tag);
      HeadOf(b, tag);
      BigEndianBack(n);
      BigEndianBack(m);
      assert n == m && a[0] == b[0];
      TaggedInjective(a[1..], b[1..], tag + 1);
      assert a == [a[0]] + a[1..] && b == [b[0]] + b[1..];
    }
  }

  lemma HeadOf(a: seq<Bytes>, tag: byte)
    requires a != [] && tag as int + |a| < 256
    ensures var x, n := Tagged(a, tag), |a[0]|;
            |x| >= 5 + n && x[1..5] == BigEndian(n) && x[5..5 + n] == a[0] && x[5 + n..] == Tagged(a[1..], tag + 1)
  {
    hide BigEndian;
    var rest := Tagged(a[1..], tag + 1);
    assert Tagged(a, tag) == [tag] + BigEndian(|a[0]|) + a[0] + rest;
  }

  const RECORD_DOMAIN: seq<char> := "aleutian.proof.record.v1"

  /** The signed bytes: the domain, a NUL, then eight tagged values. */
  function Envelope(fields: seq<Bytes>): Bytes
    requires |fields| == 8
  {
    Ascii(RECORD_DOMAIN) + [0] + Tagged(fields, 1)
  }

  /** One record signature covers one record. */
  lemma EnvelopeInjective(a: seq<Bytes>, b: seq<Bytes>)
    requires |a| == 8 && |b| == 8 && Short(a) && Short(b) && Envelope(a) == Envelope(b)
    ensures a == b
  {
    var d := Ascii(RECORD_DOMAIN) + [0 as byte];
    assert Envelope(a)[|d|..] == Tagged(a, 1) && Envelope(b)[|d|..] == Tagged(b, 1) by { hide Tagged; }
    TaggedInjective(a, b, 1);
  }

  lemma {:induction false} TaggedMore(fields: seq<Bytes>, f: Bytes, tag: byte)
    requires tag as int + |fields| + 1 < 256
    ensures Tagged(fields + [f], tag) == Tagged(fields, tag) + ([(tag as int + |fields|) as byte] + BigEndian(|f|) + f)
  {
    hide BigEndian;
    if fields == [] {
      assert [] + [f] == [f] && [f][1..] == [];
    } else {
      assert (fields + [f])[1..] == fields[1..] + [f];
      TaggedMore(fields[1..], f, tag + 1);
    }
  }

  /** recordEnvelope: the domain, then each value behind its tag and its length. */
  method BuildEnvelope(fields: seq<Bytes>) returns (env: Bytes)
    requires |fields| == 8
    ensures env == Envelope(fields)
  {
    hide Tagged, BigEndian;
    env := Ascii(RECORD_DOMAIN) + [0];
    ghost var domain := env;
    NothingTagged();
    for i := 0 to 8
      invariant env == domain + Tagged(fields[..i], 1)
    {
      assert fields[..i + 1] == fields[..i] + [fields[i]];
      TaggedMore(fields[..i], fields[i], 1);
      env := env + ([(i + 1) as byte] + BigEndian(|fields[i]|) + fields[i]);
    }
    assert fields[..8] == fields;
  }

  lemma NothingTagged()
    ensures Tagged([], 1) == []
  {
  }

  function PieceAt(v: seq<Bytes>, k: nat): Bytes
    requires k < |v| < 255
  {
    [(k + 1) as byte] + BigEndian(|v[k]|) + v[k]
  }

  /** The start, and the first k values, one after another. */
  function PiecesFrom(start: Bytes, v: seq<Bytes>, k: nat): Bytes
    requires k <= |v| < 255
  {
    if k == 0 then start else PiecesFrom(start, v, k - 1) + PieceAt(v, k - 1)
  }

  lemma {:induction false} TaggedPieces(start: Bytes, v: seq<Bytes>, k: nat)
    requires k <= |v| < 255
    ensures start + Tagged(v[..k], 1) == PiecesFrom(start, v, k)
  {
    hide BigEndian;
    if k == 0 {
      NothingTagged();
      assert v[..0] == [] && start + [] == start;
    } else {
      TaggedPieces(start, v, k - 1);
      assert v[..k] == v[..k - 1] + [v[k - 1]];
      TaggedMore(v[..k - 1], v[k - 1], 1);
      hide Tagged, PieceAt;
      assert start + (Tagged(v[..k - 1], 1) + PieceAt(v, k - 1)) == start + Tagged(v[..k - 1], 1) + PieceAt(v, k - 1);
    }
  }

  lemma EnvelopePieces(v: seq<Bytes>)
    requires |v| == 8
    ensures Envelope(v) == Ascii("aleutian.proof.record.v1") + [0] + PieceAt(v, 0) + PieceAt(v, 1) + PieceAt(v, 2) + PieceAt(v, 3)
                           + PieceAt(v, 4) + PieceAt(v, 5) + PieceAt(v, 6) + PieceAt(v, 7)
  {
    hide PieceAt, Tagged, Ascii;
    var start := Ascii("aleutian.proof.record.v1") + [0];
    TaggedPieces(start, v, 8);
    assert v[..8] == v;
    PieceOn(start, v, 0);
    PieceOn(start, v, 1);
    PieceOn(start, v, 2);
    PieceOn(start, v, 3);
    PieceOn(start, v, 4);
    PieceOn(start, v, 5);
    PieceOn(start, v, 6);
    PieceOn(start, v, 7);
    hide PiecesFrom;
  }

  lemma PieceOn(start: Bytes, v: seq<Bytes>, k: nat)
    requires k < |v| < 255
    ensures PiecesFrom(start, v, k + 1) == PiecesFrom(start, v, k) + PieceAt(v, k) && PiecesFrom(start, v, 0) == start
  {
  }

  /** A checkpoint's chain hash is over its fields as they are stored, behind the domain and between pipes. */
  lemma AnchorWire(sha: string -> string, previous: string, subject: string, first: string, last: string, tip: string)
    ensures AnchorHash(sha, previous, subject, first, last, tip)
         == if '|' in previous + subject + first + last + tip then None
            else Some(sha("aleutian.anchor.v2:" + previous + "|" + subject + "|" + first + "|" + last + "|" + tip))
  {
  }
}
