/** A bundle's entries and checkpoints as read, and the shapes the verifier asks of them. */
module Bundles {
  import opened Basics
  import opened Text
  import opened Timestamps
  import opened Preimages

  /** record_signature (key_id, signature) or disclosed (content, nonce). */
  datatype RawPair = RawPair(a: string, b: string)

  datatype RawEntry = RawEntry(
    entryID: string,
    entryType: string,
    globalSeq: string,
    previousHash: string,
    timestamp: string,
    contentHash: string,
    chainHash: string,
    sig: Option<RawPair>,
    disclosed: Option<RawPair>)

  datatype Checkpoint = Checkpoint(
    anchorID: string,
    chainHash: string,
    createdAtMs: nat,
    entryCount: nat,
    previousAnchorID: string,
    rangeStart: string,
    rangeEnd: string,
    signature: Bytes,
    signingKeyID: string,
    subject: string,
    verifiedThrough: nat)

  /** One chain. A checkpoint is what its text parses to, None when it is malformed or was too long. */
  datatype RawChain = RawChain(id: string, entries: seq<RawEntry>, checkpoints: seq<Option<Checkpoint>>)

  /**
   * What the verifier takes from libraries: SHA-512 as hex, strict base64, the
   * commitment check, ML-DSA verification, and the signed bytes of a checkpoint.
   */
  datatype World = World(
    sha: string -> string,
    decode: string -> Option<Bytes>,
    commits: (string, string, Bytes) -> bool,
    verifies: (Bytes, Bytes, Bytes) -> bool,
    canonical: Checkpoint -> Bytes)

  const EVENT := "sink.event"
  const ERASURE := "sink.erasure"
  const SEED_ANCHOR_ID := "anchor_00000000-0000-0000-0000-000000000000"
  const SEED_ANCHOR_HASH := "03443d96d3b369839f63f98b712463efba04c00551822743108d60c5f291627859ff0b7dc29f99e3c847b07b0b18bb385426c744847c1b070563f8dd07271f27"
  const MAX_CONTENT := 87384
  const SIGNATURE_SIZE := 3309

  /** What a checkpoint's signature covers: all its members but the signature. */
  function SignedPart(ck: Checkpoint): Checkpoint {
    ck.(signature := [])
  }

  /** decodeCanonicalBase64: the strict decoder, for whole groups of four. */
  function DecodeCanonical(w: World, s: string): Option<Bytes> {
    if |s| % 4 != 0 then None else w.decode(s)
  }

  predicate LowerHex(s: string, n: nat) {
    |s| == n && forall c <- s :: IsDigit(c) || 'a' <= c <= 'f'
  }

  /** chainIDPattern: a class of 1 to 31 characters, a dot, 32 hex. */
  predicate ChainIdOK(s: string) {
    34 <= |s| <= 64 && s[|s| - 33] == '.' && LowerHex(s[|s| - 32..], 32)
    && (IsDigit(s[0]) || 'a' <= s[0] <= 'z')
    && forall c <- s[..|s| - 33] :: IsDigit(c) || 'a' <= c <= 'z' || c == '_' || c == '-'
  }

  predicate EntryIdOK(s: string) {
    |s| == 37 && s[..5] == "sink-" && LowerHex(s[5..], 32)
  }

  /** parseGlobalSeq: base 10, no sign, no leading zeros, at most 2^63-1. */
  function ParseSeq(s: string): (r: Option<nat>)
    ensures r.Some? ==> r.value <= INT64_MAX
  {
    if s == [] || |s| > 19 || !AllDigits(s) || (s[0] == '0' && |s| > 1) || DigitsValue(s) > INT64_MAX then None
    else Some(DigitsValue(s))
  }

  lemma {:induction false} CanonicalDigits(s: string)
    requires s != [] && AllDigits(s) && (s[0] == '0' ==> |s| == 1)
    ensures Decimal(DigitsValue(s)) == s
    ensures s[0] != '0' ==> DigitsValue(s) > 0
  {
    var init, c := s[..|s| - 1], s[|s| - 1];
    assert s == init + [c] && c in s && IsDigit(c);
    DigitsMore(init, c);
    DigitBack(c);
    hide DigitsValue, Decimal;
    if init == [] {
      OneDecimal(c);
    } else {
      CanonicalDigits(init);
      DecimalMore(DigitsValue(init), DigitOf(c));
    }
  }

  lemma OneDecimal(c: char)
    requires IsDigit(c)
    ensures Decimal(DigitOf(c)) == [c] && (c != '0' ==> DigitOf(c) > 0)
  {
  }

  lemma DecimalMore(v: nat, d: nat)
    requires v > 0 && d < 10
    ensures Decimal(10 * v + d) == Decimal(v) + [DigitChar(d)]
  {
    TenTimes(v, d);
  }

  /** A sequence accepted is spelled in the one way it is hashed. */
  lemma SeqSpelled(s: string)
    requires ParseSeq(s).Some?
    ensures Decimal(ParseSeq(s).value) == s
  {
    CanonicalDigits(s);
  }

  predicate HashShape(s: string) { LowerHex(s, 128) }

  /** entryShape: the six members that make an entry well-formed. */
  predicate WellFormed(e: RawEntry) {
    ParseTimestamp(e.timestamp).Some? && ParseSeq(e.globalSeq).Some? && EntryIdOK(e.entryID)
    && (e.previousHash == "" || HashShape(e.previousHash)) && HashShape(e.contentHash) && HashShape(e.chainHash)
  }

  function SeqOf(e: RawEntry): nat {
    match ParseSeq(e.globalSeq) case Some(n) => n case None => 0
  }

  /** The chain hash an entry must carry. */
  function ExpectedHash(w: World, e: RawEntry): string
    requires WellFormed(e)
  {
    w.sha(ChainPreimage(e.previousHash, SeqOf(e), ParseTimestamp(e.timestamp).value, e.contentHash))
  }

  function ErasureHash(w: World, previousSeq: string): string {
    w.sha("aleutian.sink.erasure.v1:" + ("{\"erased\":\"every earlier event on this chain\",\"through_global_seq\":\"" + previousSeq + "\"}"))
  }

  predicate DisclosedShape(w: World, d: RawPair) {
    LowerHex(d.b, 64) && 0 < |d.a| <= MAX_CONTENT && DecodeCanonical(w, d.a).Some? && 1 <= |DecodeCanonical(w, d.a).value| <= 65536
  }

  predicate DisclosedBad(w: World, e: RawEntry) {
    e.disclosed.Some? && (e.entryType != EVENT || !DisclosedShape(w, e.disclosed.value))
  }

  /** The disclosed content and nonce open the entry's commitment. */
  predicate Opens(w: World, e: RawEntry) {
    e.disclosed.Some? && DecodeCanonical(w, e.disclosed.value.a).Some?
    && w.commits(e.contentHash, e.disclosed.value.b, DecodeCanonical(w, e.disclosed.value.a).value)
  }

  // ---- The shapes, spelled out ----

  const HEX := "0123456789abcdef"
  const G_TO_Z := "ghijklmnopqrstuvwxyz"

  lemma HexIs(s: string, n: nat)
    ensures LowerHex(s, n) <==> |s| == n && forall c <- s :: c in HEX
  {
    hide HEX;
    forall c: char ensures c in HEX <==> IsDigit(c) || 'a' <= c <= 'f' { InHex(c); }
  }

  lemma InHex(c: char)
    ensures c in HEX <==> IsDigit(c) || 'a' <= c <= 'f'
  {
    if IsDigit(c) { assert HEX[c as int - '0' as int] == c; }
    if 'a' <= c <= 'f' { assert HEX[10 + (c as int - 'a' as int)] == c; }
  }

  lemma InRest(c: char)
    ensures c in G_TO_Z <==> 'g' <= c <= 'z'
  {
    if 'g' <= c <= 'z' { assert G_TO_Z[c as int - 'g' as int] == c; }
  }

  /** A chain id: 1 to 31 characters of a class name, the first a letter or a digit, a dot, and 32 digits. */
  predicate IdOf(s: string, class_: string, digits: string) {
    && s == class_ + "." + digits && 1 <= |class_| <= 31 && |digits| == 32
    && (class_[0] in HEX || class_[0] in G_TO_Z) && (forall c <- class_ :: c in HEX || c in G_TO_Z || c in {'_', '-'}) && forall c <- digits :: c in HEX
  }

  lemma ChainIdIs(s: string)
    ensures ChainIdOK(s) <==> exists class_: string, digits: string :: IdOf(s, class_, digits)
  {
    hide IdOf;
    StartIs();
    if ChainIdOK(s) {
      ChainIdMade(s);
    }
    if class_: string, digits: string :| IdOf(s, class_, digits) {
      ChainIdFrom(s, class_, digits);
    }
  }

  lemma StartIs()
    ensures forall c: char :: (c in HEX || c in G_TO_Z) <==> IsDigit(c) || 'a' <= c <= 'z'
  {
    hide HEX, G_TO_Z;
    forall c: char ensures (c in HEX || c in G_TO_Z) <==> IsDigit(c) || 'a' <= c <= 'z' {
      InHex(c);
      InRest(c);
    }
  }

  lemma ChainIdMade(s: string)
    requires ChainIdOK(s)
    ensures IdOf(s, s[..|s| - 33], s[|s| - 32..])
  {
    StartIs();
    hide HEX, G_TO_Z;
    var n := |s| - 33;
    HexIs(s[n + 1..], 32);
    assert s[..n][0] == s[0] && s == s[..n] + "." + s[n + 1..];
  }

  lemma ChainIdFrom(s: string, class_: string, digits: string)
    requires IdOf(s, class_, digits)
    ensures ChainIdOK(s)
  {
    StartIs();
    hide HEX, G_TO_Z;
    HexIs(digits, 32);
    var n := |s| - 33;
    assert s[..n] == class_ && s[n + 1..] == digits && s[0] == class_[0];
  }

  /** An entry id: the prefix and 32 digits. */
  lemma EntryIdIs(s: string)
    ensures EntryIdOK(s) <==> exists digits: string :: s == "sink-" + digits && |digits| == 32 && forall c <- digits :: c in HEX
  {
    hide HEX;
    if |s| == 37 && s[..5] == "sink-" {
      HexIs(s[5..], 32);
      assert s == "sink-" + s[5..];
    }
    if digits: string :| s == "sink-" + digits && |digits| == 32 && forall c <- digits :: c in HEX {
      HexIs(digits, 32);
      assert s[5..] == digits;
    }
  }

  // ---- What is in shape is ASCII ----

  lemma HexLow(s: string, n: nat)
    requires LowerHex(s, n)
    ensures Low(s) && |s| == n
  {
    forall i | 0 <= i < |s| ensures s[i] < 128 as char { assert s[i] in s; }
  }

  lemma EntryIdLow(s: string)
    requires EntryIdOK(s)
    ensures Low(s) && |s| == 37
  {
    HexLow(s[5..], 32);
    forall i | 0 <= i < |s| ensures s[i] < 128 as char {
      if i < 5 { assert s[i] == s[..5][i]; } else { assert s[i] == s[5..][i - 5]; }
    }
  }

  lemma ChainIdLow(s: string)
    requires ChainIdOK(s)
    ensures Low(s) && |s| <= 64
  {
    var n := |s| - 33;
    HexLow(s[|s| - 32..], 32);
    forall i | 0 <= i < |s| ensures s[i] < 128 as char {
      if i < n {
        assert s[i] == s[..n][i];
        assert s[i] in s[..n];
        assert IsDigit(s[i]) || 'a' <= s[i] <= 'z' || s[i] == '_' || s[i] == '-';
      } else if i > n {
        assert s[i] == s[|s| - 32..][i - n - 1];
      }
    }
  }

  lemma SeqLow(s: string)
    requires ParseSeq(s).Some?
    ensures Low(s) && |s| <= 19
  {
    forall i | 0 <= i < |s| ensures s[i] < 128 as char { assert s[i] in s; }
  }

  // ---- The signed bytes of a record ----

  /** The eight values a record signature covers, from the entry's strings as read. */
  function RecordValues(chainID: string, e: RawEntry, keyID: string): (r: seq<Bytes>)
    ensures |r| == 8
  {
    [Ascii(chainID), Ascii(e.entryID), Ascii(e.entryType), Ascii(e.globalSeq), Ascii(e.previousHash), Ascii(e.timestamp),
     Ascii(e.contentHash), Ascii(keyID)]
  }

  function RecordEnvelope(chainID: string, e: RawEntry, keyID: string): Bytes {
    Envelope(RecordValues(chainID, e, keyID))
  }

  /** What a record must be for its signature to be looked at. */
  predicate Signed(chainID: string, e: RawEntry, keyID: string) {
    ChainIdOK(chainID) && WellFormed(e) && (e.entryType == EVENT || e.entryType == ERASURE) && LowerHex(keyID, 32)
  }

  lemma SignedLow(chainID: string, e: RawEntry, keyID: string)
    requires Signed(chainID, e, keyID)
    ensures Low(chainID) && Low(e.entryID) && Low(e.entryType) && Low(e.globalSeq) && Low(e.previousHash) && Low(e.timestamp)
    ensures Low(e.contentHash) && Low(keyID) && Short(RecordValues(chainID, e, keyID))
  {
    ChainIdLow(chainID);
    EntryIdLow(e.entryID);
    SeqLow(e.globalSeq);
    StampLow(e.timestamp);
    HexLow(e.contentHash, 128);
    HexLow(keyID, 32);
    if e.previousHash != "" { HexLow(e.previousHash, 128); }
    hide ChainIdOK, EntryIdOK, LowerHex, ParseSeq, ParseTimestamp;
  }

  /** One record signature covers one record of one chain, under one key: its bytes are no other record's. */
  lemma SignedOnce(chainID: string, e: RawEntry, keyID: string, chainID': string, e': RawEntry, keyID': string)
    requires Signed(chainID, e, keyID) && Signed(chainID', e', keyID')
    requires RecordEnvelope(chainID, e, keyID) == RecordEnvelope(chainID', e', keyID')
    ensures chainID == chainID' && keyID == keyID' && e.entryID == e'.entryID && e.entryType == e'.entryType && e.globalSeq == e'.globalSeq
    ensures e.previousHash == e'.previousHash && e.timestamp == e'.timestamp && e.contentHash == e'.contentHash
  {
    SignedLow(chainID, e, keyID);
    SignedLow(chainID', e', keyID');
    var a, b := RecordValues(chainID, e, keyID), RecordValues(chainID', e', keyID');
    hide Signed, Low, Envelope, Short;
    EnvelopeInjective(a, b);
    assert a[0] == b[0] && a[1] == b[1] && a[2] == b[2] && a[3] == b[3] && a[4] == b[4] && a[5] == b[5] && a[6] == b[6] && a[7] == b[7];
    hide Ascii;
    AsciiTells(chainID, chainID');
    AsciiTells(e.entryID, e'.entryID);
    AsciiTells(e.entryType, e'.entryType);
    AsciiTells(e.globalSeq, e'.globalSeq);
    AsciiTells(e.previousHash, e'.previousHash);
    AsciiTells(e.timestamp, e'.timestamp);
    AsciiTells(e.contentHash, e'.contentHash);
    AsciiTells(keyID, keyID');
  }

  // ---- What is hashed and signed, byte by byte ----

  /** A chain hash is over the strings as they are stored, behind the domain and between pipes. */
  lemma HashedAsStored(w: World, e: RawEntry)
    requires WellFormed(e)
    ensures ExpectedHash(w, e) == w.sha("aleutian.chain.v3:" + e.previousHash + "|" + e.globalSeq + "|" + e.timestamp + "|" + e.contentHash)
  {
    hide FormatTimestamp, ParseTimestamp, ParseSeq, Decimal, HashShape, EntryIdOK;
    SeqSpelled(e.globalSeq);
    FormatParsed(e.timestamp);
  }

  /** One field of a record envelope: its tag, its length in four bytes, and its value. */
  function Field(tag: byte, value: string): Bytes {
    [tag] + BigEndian(|value|) + Ascii(value)
  }

  /** A record envelope: the domain and a NUL, and eight fields numbered from one. */
  lemma EnvelopeFields(chainID: string, e: RawEntry, keyID: string)
    ensures RecordEnvelope(chainID, e, keyID)
         == Ascii("aleutian.proof.record.v1") + [0] + Field(1, chainID) + Field(2, e.entryID) + Field(3, e.entryType) + Field(4, e.globalSeq)
            + Field(5, e.previousHash) + Field(6, e.timestamp) + Field(7, e.contentHash) + Field(8, keyID)
  {
    hide BigEndian, Ascii;
    EnvelopePieces(RecordValues(chainID, e, keyID));
  }
}
