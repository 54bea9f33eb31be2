/** What a recipient's verifier makes of an exported bundle: the same chains, the same erasures, every disclosure opened. */
module ExportMeaning {
  import opened Basics
  import opened Text
  import opened Timestamps
  import opened Preimages
  import opened JsonText
  import F = Findings
  import opened Bundles
  import opened Verdicts
  import opened BundleAnswer
  import opened Encodings
  import opened Printer
  import opened ExportTree
  import opened Exports
  import opened BundleBytes

  /** An exported bundle is read, and what is read is what was exported. */
  lemma ExportRoundTrip(p: Policy, w: World, env: F.Env, cs: seq<Selected>)
    requires env.lim == DEFAULTS && Exportable(p, w, DEFAULTS, cs)
    ensures Judge(Print(BundleTree(TextsOf(p, w, cs))), env) == F.Read(CappedChains(env, RepairedChains(TextsOf(p, w, cs))))
  {
    ExportReads(env, TextsOf(p, w, cs));
  }

  // ---- The limits of strings ----

  /** No limit is shorter than what is in shape, and none is longer than the longest that is. */
  lemma LimitsOfEntries(e: RawEntry)
    requires WellFormed(e)
    ensures var limits := F.Caps(F.Entry);
            && |limits| == 7 && |e.entryID| == limits[0] && |EVENT| < |ERASURE| == limits[1] && |e.globalSeq| <= |"9223372036854775807"| == limits[2]
            && |e.timestamp| == limits[4] && |e.contentHash| == |e.chainHash| == limits[3] == limits[5] == limits[6]
  {
    SeqLow(e.globalSeq);
    StampLow(e.timestamp);
    hide ParseSeq, ParseTimestamp;
  }

  lemma LimitOfIds(id: string)
    requires ChainIdOK(id)
    ensures |id| <= F.MAX_CHAIN_ID == 31 + 1 + 32
  {
  }

  lemma LimitsOfPairs(content: Bytes, signature: Bytes)
    requires |content| == 65536 && |signature| == SIGNATURE_SIZE
    ensures |Base64(content)| == F.Caps(F.Disclosed)[0] == MAX_CONTENT && |Base64(signature)| == F.Caps(F.Signature)[1]
  {
  }

  // ---- Fields in shape are read as they are ----

  predicate AllAscii(s: Bytes) {
    forall i | 0 <= i < |s| :: s[i] < 0x80
  }

  /** A string as a bundle's reader has it: repaired, and marked when too long. */
  function Received(s: Bytes, limit: nat): Bytes {
    F.Cap(Repaired(s), limit)
  }

  lemma {:induction false} AsciiUtf8(s: Bytes)
    requires AllAscii(s)
    ensures ValidUtf8(s)
    decreases |s|
  {
    if s != [] { AsciiUtf8(s[1..]); }
  }

  lemma AsciiReceived(s: Bytes, limit: nat)
    requires AllAscii(s) && |s| <= limit
    ensures Received(s, limit) == s
  {
    AsciiUtf8(s);
    RepairedSelf(s);
  }

  lemma PieceHigh(s: Bytes)
    requires s != [] && s[0] >= 0x80
    ensures PieceOf(s).value[0] >= 0x80
  {
  }

  lemma PieceAscii(s: Bytes)
    requires s != [] && AllAscii(PieceOf(s).value)
    ensures PieceOf(s).value == s[..PieceOf(s).size]
  {
    if s[0] >= 0x80 { PieceHigh(s); }
  }

  lemma {:induction false} RepairedAscii(s: Bytes)
    requires AllAscii(Repaired(s))
    ensures Repaired(s) == s
    decreases |s|
  {
    hide PieceOf;
    if s != [] {
      var piece := PieceOf(s);
      var rest := s[piece.size..];
      AsciiParts(piece.value, Repaired(rest));
      PieceAscii(s);
      RepairedAscii(rest);
    }
  }

  lemma AsciiParts(a: Bytes, b: Bytes)
    requires AllAscii(a + b)
    ensures AllAscii(a) && AllAscii(b)
  {
    assert forall i | 0 <= i < |a| :: a[i] == (a + b)[i];
    assert forall i | 0 <= i < |b| :: b[i] == (a + b)[|a| + i];
  }

  /** Nothing out of shape is made to look in shape. */
  lemma ReceivedAscii(s: Bytes, limit: nat)
    requires AllAscii(Received(s, limit)) && Received(s, limit) != F.OVERSIZE
    ensures Received(s, limit) == s && |s| <= limit
  {
    RepairedAscii(s);
  }

  /** A shape of ASCII strings no longer than the limit: the received string has it exactly when the original does. */
  lemma SameShape(s: Bytes, limit: nat, shape: bool, originalShape: bool)
    requires shape ==> AllAscii(Received(s, limit)) && Received(s, limit) != F.OVERSIZE
    requires originalShape ==> AllAscii(s) && |s| <= limit
    requires Received(s, limit) == s ==> shape == originalShape
    ensures shape == originalShape && (shape ==> Received(s, limit) == s)
  {
    if shape { ReceivedAscii(s, limit); }
    if originalShape { AsciiReceived(s, limit); }
  }

  // ---- Shapes are ASCII ----

  lemma LatinAscii(s: Bytes)
    requires Low(Latin(s))
    ensures AllAscii(s)
  {
    forall i | 0 <= i < |s| ensures s[i] < 0x80 { assert Latin(s)[i] < 128 as char; }
  }

  lemma HexAscii(s: Bytes, n: nat)
    requires LowerHex(Latin(s), n)
    ensures AllAscii(s) && |s| == n
  {
    HexLow(Latin(s), n);
    LatinAscii(s);
  }

  lemma TextAscii(s: string)
    requires Low(s)
    ensures Latin(Ascii(s)) == s && AllAscii(Ascii(s))
  {
    LatinOfAscii(s);
    LatinAscii(Ascii(s));
  }

  lemma OversizeShapes()
    ensures !EntryIdOK(Latin(F.OVERSIZE)) && !HashShape(Latin(F.OVERSIZE)) && Latin(F.OVERSIZE) != "" && Latin(F.OVERSIZE) != EVENT
  {
  }

  lemma EntryIdAscii(s: Bytes)
    requires EntryIdOK(Latin(s))
    ensures AllAscii(s) && |s| == 37
  {
    EntryIdLow(Latin(s));
    LatinAscii(s);
  }

  lemma EntryIdSame(s: Bytes)
    ensures EntryIdOK(Latin(Received(s, 37))) == EntryIdOK(Latin(s))
    ensures EntryIdOK(Latin(s)) ==> Received(s, 37) == s
  {
    hide EntryIdOK, Received, HashShape;
    OversizeShapes();
    if EntryIdOK(Latin(s)) { EntryIdAscii(s); }
    if EntryIdOK(Latin(Received(s, 37))) { EntryIdAscii(Received(s, 37)); }
    SameShape(s, 37, EntryIdOK(Latin(Received(s, 37))), EntryIdOK(Latin(s)));
  }

  lemma HashSame(s: Bytes)
    ensures HashShape(Latin(Received(s, 128))) == HashShape(Latin(s))
    ensures HashShape(Latin(s)) ==> Received(s, 128) == s
  {
    hide Received, EntryIdOK;
    OversizeShapes();
    if HashShape(Latin(s)) { HexAscii(s, 128); }
    if HashShape(Latin(Received(s, 128))) { HexAscii(Received(s, 128), 128); }
    SameShape(s, 128, HashShape(Latin(Received(s, 128))), HashShape(Latin(s)));
  }

  lemma EmptySame(s: Bytes, limit: nat)
    ensures Latin(Received(s, limit)) == "" <==> s == []
  {
    if Received(s, limit) == [] { ReceivedAscii(s, limit); }
    if s == [] { AsciiReceived(s, limit); }
  }

  lemma EventSame(s: Bytes)
    ensures Latin(Received(s, 12)) == EVENT <==> Latin(s) == EVENT
    ensures Latin(s) == EVENT ==> Received(s, 12) == s
  {
    hide Received, EntryIdOK, HashShape;
    OversizeShapes();
    if Latin(s) == EVENT { LatinAscii(s); }
    if Latin(Received(s, 12)) == EVENT { LatinAscii(Received(s, 12)); }
    SameShape(s, 12, Latin(Received(s, 12)) == EVENT, Latin(s) == EVENT);
  }

  // ---- Numbers and timestamps ----

  /** A sequence number is read back when it is not negative, and is out of shape when it is. */
  lemma SeqReceived(n: int64)
    ensures var s := Latin(Received(Ascii(FormatInt(n as int)), 19));
            if n >= 0 then ParseSeq(s) == Some(n as nat) && s == Decimal(n as nat) else ParseSeq(s) == None
  {
    hide Received;
    var t := FormatInt(n as int);
    FormatIntAscii(n as int);
    TextAscii(t);
    if n >= 0 {
      PowNineteen();
      DecimalShape(n as nat);
      DecimalValue(n as nat);
      AsciiReceived(Ascii(t), 19);
    } else {
      var r := Received(Ascii(t), 19);
      if r == F.OVERSIZE {
        OversizeNumber();
      } else {
        CappedOr(Ascii(t), 19);
        assert Latin(r)[0] == '-' && Latin(r)[0] in Latin(r);
      }
    }
  }

  lemma FormatIntAscii(n: int)
    ensures var t := FormatInt(n); forall i | 0 <= i < |t| :: t[i] < 128 as char
  {
    var t := FormatInt(n);
    var digits := Decimal(if n < 0 then -n else n);
    forall i | 0 <= i < |t| ensures t[i] < 128 as char {
      if n >= 0 { assert t[i] in digits; } else if i > 0 { assert t[i] == digits[i - 1] && digits[i - 1] in digits; }
    }
  }

  lemma OversizeNumber()
    ensures ParseSeq(Latin(F.OVERSIZE)) == None
  {
    assert Latin(F.OVERSIZE)[0] in Latin(F.OVERSIZE);
  }

  lemma CappedOr(s: Bytes, limit: nat)
    requires AllAscii(s)
    ensures Received(s, limit) in {s, F.OVERSIZE}
  {
    AsciiUtf8(s);
    RepairedSelf(s);
  }

  lemma TimestampReceived(t: Instant)
    requires 1 <= FieldsOf(t).date.year <= 9999
    ensures var s := Latin(Received(Ascii(FormatTimestamp(t)), 27)); s == FormatTimestamp(t) && ParseTimestamp(s) == Some(t)
  {
    hide Received, FieldsOf;
    var s := FormatTimestamp(t);
    ParseFormatted(t);
    StampLow(s);
    TextAscii(s);
    AsciiReceived(Ascii(s), 27);
  }

  // ---- An exported entry, as its verifier has it ----

  function ReceivedPair(a: nat, b: nat, p: Option<F.Pair>): Option<F.Pair> {
    match p case Some(q) => Some(F.Pair(Received(q.a, a), Received(q.b, b))) case None => None
  }

  /** Entry i of the exported chain as the verifier reads it. */
  function Exported(p: Policy, w: World, h: Holding, i: nat): RawEntry
    requires i < |h.rows|
  {
    RawOf(CappedEntry(RepairedEntry(EntryText(p, w, h, i))))
  }

  function ExportedEntries(p: Policy, w: World, h: Holding): (r: seq<RawEntry>)
    ensures |r| == |h.rows| && forall i | 0 <= i < |r| :: r[i] == Exported(p, w, h, i)
  {
    seq(|h.rows|, i requires 0 <= i < |h.rows| => Exported(p, w, h, i))
  }

  lemma ExportedIs(p: Policy, w: World, h: Holding, i: nat)
    requires i < |h.rows|
    ensures var e, r := Exported(p, w, h, i), h.rows[i];
            && e.entryID == Latin(Received(r.entryID, 37)) && e.entryType == Latin(Received(r.entryType, 12))
            && e.globalSeq == Latin(Received(Ascii(FormatInt(r.seqNo as int)), 19))
            && e.previousHash == Latin(Received(r.previousHash, 128))
            && e.timestamp == Latin(Received(Ascii(FormatTimestamp(r.timestamp)), 27))
            && e.contentHash == Latin(Received(r.contentHash, 128)) && e.chainHash == Latin(Received(r.chainHash, 128))
            && e.sig == RawPairOf(ReceivedPair(32, 4412, SignatureText(h, r)))
            && e.disclosed == RawPairOf(ReceivedPair(87384, 64, DisclosedText(p, w, h, i)))
  {
    hide Repaired, FormatInt, FormatTimestamp, SignatureText, DisclosedText;
    var t := RepairedEntry(EntryText(p, w, h, i));
    assert F.Caps(F.Entry) == [37, 12, 19, 128, 27, 128, 128];
    assert t.fields[0] == Repaired(h.rows[i].entryID);
  }

  /** The verifier calls an exported entry well-formed exactly when the exporter does, and has its fields as they are stored. */
  lemma SameWellFormed(p: Policy, w: World, h: Holding, i: nat)
    requires i < |h.rows| && Representable(h.rows[i])
    ensures WellFormed(Exported(p, w, h, i)) == RowWellFormed(h.rows[i])
    ensures RowWellFormed(h.rows[i]) ==> FieldsKept(Exported(p, w, h, i), h.rows[i])
    ensures (Exported(p, w, h, i).entryType == EVENT) == (Latin(h.rows[i].entryType) == EVENT)
  {
    hide Exported, Received, ParseTimestamp, ParseSeq, FormatTimestamp, HashShape, EntryIdOK, FieldsOf;
    var e, r := Exported(p, w, h, i), h.rows[i];
    ExportedIs(p, w, h, i);
    EntryIdSame(r.entryID);
    SeqReceived(r.seqNo);
    EmptySame(r.previousHash, 128);
    HashSame(r.previousHash);
    HashSame(r.contentHash);
    HashSame(r.chainHash);
    TimestampReceived(r.timestamp);
    EventSame(r.entryType);
    if r.previousHash == [] { AsciiReceived([], 128); }
  }

  predicate FieldsKept(e: RawEntry, r: Row) {
    r.seqNo >= 0 && e.entryID == Latin(r.entryID) && e.globalSeq == FormatInt(r.seqNo as int) && e.previousHash == Latin(r.previousHash)
    && e.timestamp == FormatTimestamp(r.timestamp) && e.contentHash == Latin(r.contentHash) && e.chainHash == Latin(r.chainHash)
  }

  // ---- The same erasure ----

  lemma SameHolds(p: Policy, w: World, h: Holding, i: nat)
    requires i < |h.rows| && forall r <- h.rows :: Representable(r)
    ensures HoldsErasure(w, ExportedEntries(p, w, h), i) == RowHoldsErasure(w, h.rows, i)
  {
    hide Exported, WellFormed, RowWellFormed, ErasureHash, Representable, FormatInt, FormatTimestamp;
    SameWellFormed(p, w, h, i);
    if i > 0 { SameWellFormed(p, w, h, i - 1); }
  }

  /** The exporter withholds up to exactly the entry that the verifier takes for the last erasure. */
  lemma {:induction false} SameErasure(p: Policy, w: World, h: Holding, n: nat)
    requires n <= |h.rows| && forall r <- h.rows :: Representable(r)
    ensures LastErasure(w, ExportedEntries(p, w, h), n) == ErasedBefore(w, h.rows, n)
  {
    hide HoldsErasure, RowHoldsErasure, Representable;
    if n > 0 {
      SameHolds(p, w, h, n - 1);
      SameErasure(p, w, h, n - 1);
    }
  }

  // ---- Disclosures ----

  /** The verifier's decoder agrees with the strict one on all that the strict one accepts. */
  ghost predicate StrictBase64(w: World) {
    forall s: Bytes :: FromBase64(s).Some? ==> w.decode(Latin(s)) == FromBase64(s)
  }

  /** The strict decoder, on strings. */
  function StrictDecode(s: string): Option<Bytes> {
    if Low(s) then FromBase64(Ascii(s)) else None
  }

  /** There is such a decoder. */
  lemma StrictExists(w: World)
    ensures StrictBase64(w.(decode := StrictDecode))
  {
    forall s: Bytes | FromBase64(s).Some? ensures StrictDecode(Latin(s)) == FromBase64(s) { DecodedAlike(s); }
    hide StrictDecode, FromBase64;
  }

  lemma DecodedAlike(s: Bytes)
    requires FromBase64(s).Some?
    ensures StrictDecode(Latin(s)) == FromBase64(s)
  {
    Base64Only(s);
    AsciiOfLatin(s);
    hide FromBase64, Base64;
    forall i | 0 <= i < |s| ensures s[i] < 0x80 { assert s[i] in s; }
  }

  /** The pair is the base64 of 1 to 65,536 bytes and the hex of a nonce of 32. */
  predicate WrittenAs(d: RawPair, content: Bytes, nonce: Bytes) {
    1 <= |content| <= 65536 && |nonce| == 32 && d.a == Latin(Base64(content)) && d.b == Latin(Hex(nonce))
  }

  /** The disclosures in shape are exactly those. */
  lemma DisclosedMeans(w: World, d: RawPair)
    ensures DisclosedShape(w.(decode := StrictDecode), d) <==> exists content: Bytes, nonce: Bytes :: WrittenAs(d, content, nonce)
  {
    hide WrittenAs, DisclosedShape;
    if content: Bytes, nonce: Bytes :| WrittenAs(d, content, nonce) { WrittenShape(w, d, content, nonce); }
    if DisclosedShape(w.(decode := StrictDecode), d) {
      ShapeWritten(w, d);
      assert exists content: Bytes, nonce: Bytes :: WrittenAs(d, content, nonce);
    }
  }

  lemma WrittenShape(w: World, d: RawPair, content: Bytes, nonce: Bytes)
    requires WrittenAs(d, content, nonce)
    ensures DisclosedShape(w.(decode := StrictDecode), d)
  {
    Base64Reads(content);
    DecodedAlike(Base64(content));
    HexIsLower(nonce);
    Base64Size(|content|);
    hide FromBase64, Base64, Hex, StrictDecode, LowerHex;
  }

  lemma Base64Size(n: nat)
    ensures var size := (n + 2) / 3 * 4; size % 4 == 0 && (1 <= n <= 65536 ==> 0 < size <= MAX_CONTENT)
  {
  }

  lemma HexIsLower(b: Bytes)
    ensures LowerHex(Latin(Hex(b)), 2 * |b|)
  {
    hide Hex;
    var s := Latin(Hex(b));
    forall c | c in s ensures IsDigit(c) || 'a' <= c <= 'f' {
      var i :| 0 <= i < |s| && s[i] == c;
    }
  }

  lemma ShapeWritten(w: World, d: RawPair)
    requires DisclosedShape(w.(decode := StrictDecode), d)
    ensures exists content: Bytes, nonce: Bytes :: WrittenAs(d, content, nonce)
  {
    HexLow(d.b, 64);
    LatinOfAscii(d.a);
    LatinOfAscii(d.b);
    Base64Only(Ascii(d.a));
    forall c | c in Ascii(d.b) ensures NibbleOf(c).Some? {
      var i :| 0 <= i < |d.b| && Ascii(d.b)[i] == c;
      assert d.b[i] in d.b;
    }
    HexOnly(Ascii(d.b));
    hide FromBase64, Base64, Hex, FromHex, NibbleOf;
    assert WrittenAs(d, StrictDecode(d.a).value, FromHex(Ascii(d.b)).value);
  }

  lemma DecodesWritten(w: World, b: Bytes)
    requires StrictBase64(w)
    ensures w.decode(Latin(Base64(b))) == Some(b)
  {
    Base64Reads(b);
  }

  /** What is disclosed reaches the verifier whole. */
  lemma DisclosedReceived(p: Policy, w: World, h: Holding, i: nat)
    requires i < |h.rows| && Discloses(p, w, h, i) && Openable(w, h, h.rows[i])
    ensures var id := h.rows[i].entryID;
            && Content(h, id).Some? && Nonce(h, id).Some?
            && Exported(p, w, h, i).disclosed == Some(RawPair(Latin(Base64(Content(h, id).value)), Latin(Hex(Nonce(h, id).value))))
  {
    hide Exported, Received, Live, Base64, Hex;
    ExportedIs(p, w, h, i);
    var id := h.rows[i].entryID;
    var c, n := Content(h, id).value, Nonce(h, id).value;
    Base64Ascii(c);
    HexTextAscii(n);
    AsciiReceived(Base64(c), 87384);
    AsciiReceived(Hex(n), 64);
  }

  lemma Base64Ascii(b: Bytes)
    ensures AllAscii(Base64(b)) && |Base64(b)| == (|b| + 2) / 3 * 4
  {
  }

  lemma HexTextAscii(b: Bytes)
    ensures AllAscii(Hex(b)) && |Hex(b)| == 2 * |b| && LowerHex(Latin(Hex(b)), 2 * |b|)
  {
  }

  lemma NotDisclosed(p: Policy, w: World, h: Holding, i: nat)
    requires i < |h.rows| && !Discloses(p, w, h, i)
    ensures Exported(p, w, h, i).disclosed == None
  {
    hide Exported, Discloses;
    ExportedIs(p, w, h, i);
  }

  lemma DisclosedInShape(p: Policy, w: World, h: Holding, i: nat)
    requires i < |h.rows| && Discloses(p, w, h, i) && Openable(w, h, h.rows[i]) && Representable(h.rows[i]) && StrictBase64(w)
    ensures !DisclosedBad(w, Exported(p, w, h, i))
    ensures RowWellFormed(h.rows[i]) ==> Opens(w, Exported(p, w, h, i))
  {
    hide Exported, Base64, Hex, RowWellFormed, Representable, WellFormed;
    var id := h.rows[i].entryID;
    DisclosedReceived(p, w, h, i);
    SameWellFormed(p, w, h, i);
    var c, n := Content(h, id).value, Nonce(h, id).value;
    Base64Ascii(c);
    HexTextAscii(n);
    DecodesWritten(w, c);
  }

  /**
   * The verifier never blames a disclosure of an exported chain, and opens
   * exactly the well-formed events disclosed on a chain without an erasure.
   */
  lemma ExportedOutcomes(p: Policy, w: World, c: Selected, i: nat)
    requires ChainAllowed(p, w, c) && i < |c.held.rows| && StrictBase64(w)
    ensures var es := ExportedEntries(p, w, c.held);
            var last := LastErasure(w, es, |es|);
            var o := OutcomeOf(w, es, last, i);
            && last == ErasedBefore(w, c.held.rows, |c.held.rows|)
            && o !in {BadDisclosure, LeakedEvent, AlteredEvent}
            && (o == OpenedEvent <==> last < 0 && RowWellFormed(c.held.rows[i]) && Discloses(p, w, c.held, i))
  {
    var h := c.held;
    hide Exported, WellFormed, RowWellFormed, DisclosedBad, Openable, Representable, HoldsErasure, Opens, Wants, IsListed, ChainAllowed,
         OutcomeOf, LastErasure, ErasedBefore;
    AllowedEntry(p, w, c, i);
    var es := ExportedEntries(p, w, h);
    SameErasure(p, w, h, |h.rows|);
    SameWellFormed(p, w, h, i);
    if Discloses(p, w, h, i) {
      DisclosedReceived(p, w, h, i);
      DisclosedInShape(p, w, h, i);
    } else {
      NotDisclosed(p, w, h, i);
      UndisclosedFine(w, es[i]);
    }
    LastErasureIs(w, es, |es|);
    OutcomeTells(w, es, LastErasure(w, es, |es|), i);
  }

  lemma OutcomeTells(w: World, es: seq<RawEntry>, last: int, i: nat)
    requires i < |es| && -1 <= last < |es| && !DisclosedBad(w, es[i]) && (i > last ==> !HoldsErasure(w, es, i))
    requires es[i].disclosed.Some? ==> es[i].entryType == EVENT && i > last && (WellFormed(es[i]) ==> Opens(w, es[i]))
    ensures var o := OutcomeOf(w, es, last, i);
            o !in {BadDisclosure, LeakedEvent, AlteredEvent} && (o == OpenedEvent <==> last < 0 && WellFormed(es[i]) && es[i].disclosed.Some?)
  {
    hide WellFormed, DisclosedBad, HoldsErasure, Opens;
  }

  lemma AllowedEntry(p: Policy, w: World, c: Selected, i: nat)
    requires ChainAllowed(p, w, c) && i < |c.held.rows|
    ensures EntryAllowed(p, w, c.held, i) && forall r <- c.held.rows :: Representable(r)
  {
  }

  lemma UndisclosedFine(w: World, e: RawEntry)
    requires e.disclosed == None
    ensures !DisclosedBad(w, e)
  {
  }

  // ---- Record signatures ----

  /** What the sink signs of a row. */
  function SignedValues(chainID: Bytes, r: Row, keyID: Bytes): seq<Bytes> {
    [chainID, r.entryID, r.entryType, Ascii(FormatInt(r.seqNo as int)), r.previousHash, Ascii(FormatTimestamp(r.timestamp)), r.contentHash, keyID]
  }

  /** Go's zero time, the start of year 1. */
  const ZERO_TIME: Instant := 366 * DAY

  /** What recordEnvelope does not refuse to sign. */
  predicate Signable(chainID: Bytes, r: Row, keyID: Bytes) {
    && ChainIdOK(Latin(chainID)) && EntryIdOK(Latin(r.entryID)) && Latin(r.entryType) in {EVENT, ERASURE} && r.seqNo >= 0
    && (if r.seqNo == 0 then r.previousHash == [] else HashShape(Latin(r.previousHash)))
    && r.timestamp != ZERO_TIME && 1 <= FieldsOf(r.timestamp).date.year <= 9999 && HashShape(Latin(r.contentHash)) && LowerHex(Latin(keyID), 32)
  }

  /** The sink's recordEnvelope: what it would never write it does not sign. */
  method SignedBytes(chainID: Bytes, r: Row, keyID: Bytes) returns (env: Option<Bytes>)
    ensures env == if Signable(chainID, r, keyID) then Some(Envelope(SignedValues(chainID, r, keyID))) else None
  {
    hide Envelope, ChainIdOK, EntryIdOK, HashShape, LowerHex, FieldsOf, FormatInt, FormatTimestamp;
    if !ChainIdOK(Latin(chainID)) || !EntryIdOK(Latin(r.entryID)) { return None; }
    if Latin(r.entryType) != EVENT && Latin(r.entryType) != ERASURE { return None; }
    if r.seqNo < 0 { return None; }
    if r.seqNo == 0 && r.previousHash != [] { return None; }
    if r.seqNo > 0 && !HashShape(Latin(r.previousHash)) { return None; }
    if r.timestamp == ZERO_TIME { return None; }
    var year := FieldsOf(r.timestamp).date.year;
    if year < 1 || year > 9999 { return None; }
    if !HashShape(Latin(r.contentHash)) || !LowerHex(Latin(keyID), 32) { return None; }
    var bytes := BuildEnvelope(SignedValues(chainID, r, keyID));
    env := Some(bytes);
  }

  lemma ChainIdAscii(s: Bytes)
    requires ChainIdOK(Latin(s))
    ensures AllAscii(s) && |s| <= 64
  {
    ChainIdLow(Latin(s));
    LatinAscii(s);
  }

  lemma TypeReceived(s: Bytes)
    requires Latin(s) in {EVENT, ERASURE}
    ensures Received(s, 12) == s
  {
    hide Received;
    LatinAscii(s);
    AsciiReceived(s, 12);
  }

  /** A row the sink signed is verified over the very bytes that were signed. */
  lemma EnvelopeKept(p: Policy, w: World, env: F.Env, id: Bytes, h: Holding, i: nat, keyID: Bytes)
    requires i < |h.rows| && Signable(id, h.rows[i], keyID)
    ensures F.StoredId(env, Repaired(id)) == id
    ensures RecordEnvelope(Latin(id), Exported(p, w, h, i), Latin(keyID)) == Envelope(SignedValues(id, h.rows[i], keyID))
  {
    hide Envelope, FormatTimestamp, FormatInt, Received, HashShape, EntryIdOK, ChainIdOK, FieldsOf, Exported, Ascii, Latin;
    var r := h.rows[i];
    ChainIdAscii(id);
    AsciiUtf8(id);
    RepairedSelf(id);
    ExportedIs(p, w, h, i);
    EntryIdSame(r.entryID);
    TypeReceived(r.entryType);
    SeqKept(r.seqNo);
    if r.previousHash == [] { AsciiReceived([], 128); } else { HashSame(r.previousHash); }
    StampKept(r.timestamp);
    HashSame(r.contentHash);
    forall b: Bytes ensures Ascii(Latin(b)) == b { AsciiOfLatin(b); }
    assert RecordValues(Latin(id), Exported(p, w, h, i), Latin(keyID)) == SignedValues(id, r, keyID);
  }

  lemma SeqKept(n: int64)
    requires n >= 0
    ensures Received(Ascii(FormatInt(n as int)), 19) == Ascii(FormatInt(n as int))
  {
    hide Received;
    PowNineteen();
    FormatIntAscii(n as int);
    DecimalShape(n as nat);
    TextAscii(FormatInt(n as int));
    AsciiReceived(Ascii(FormatInt(n as int)), 19);
  }

  lemma StampKept(t: Instant)
    requires 1 <= FieldsOf(t).date.year <= 9999
    ensures Received(Ascii(FormatTimestamp(t)), 27) == Ascii(FormatTimestamp(t))
  {
    hide Received, FieldsOf;
    ParseFormatted(t);
    StampLow(FormatTimestamp(t));
    TextAscii(FormatTimestamp(t));
    AsciiReceived(Ascii(FormatTimestamp(t)), 27);
  }

  // ---- From the folder to the verdicts ----

  /** Chain k of what is read back, entry by entry and with its id. */
  lemma ExportedAre(p: Policy, w: World, env: F.Env, cs: seq<Selected>, k: nat)
    requires k < |cs| && forall c <- cs :: ChainAllowed(p, w, c)
    ensures var r := CappedChains(env, RepairedChains(TextsOf(p, w, cs)))[k];
            && r.id == cs[k].id && (forall e <- r.entries :: |e.fields| == 7)
            && RawEntries(r.entries) == ExportedEntries(p, w, cs[k].held)
            && AnchorsAllowed(cs[k].held.anchors) && r.checkpoints == CappedTexts(env.lim.checkpointBytes, AnchorTexts(cs[k].held.anchors))
  {
    hide Repaired, RepairedEntry, CappedEntry, EntryText, ChainIdOK, EntryAllowed, Representable, AnchorsAllowed, Shaped;
    var c := cs[k];
    assert c in cs;
    ChainIdAscii(c.id);
    AsciiUtf8(c.id);
    RepairedSelf(c.id);
    var t := TextOfChain(p, w, c);
    var r := CappedChains(env, RepairedChains(TextsOf(p, w, cs)))[k];
    assert r == CappedChain(env, RepairedChain(t));
    ReadEntries(p, w, env, c);
    TextsWhole(AnchorTexts(c.held.anchors), c.held.anchors);
  }

  lemma TextsWhole(ts: seq<Bytes>, anchors: Option<seq<AnchorFile>>)
    requires AnchorsAllowed(anchors) && ts == AnchorTexts(anchors)
    ensures RepairedTexts(ts) == ts
  {
    hide Repaired, ValidUtf8;
    forall i | 0 <= i < |ts| ensures Repaired(ts[i]) == ts[i] { RepairedSelf(ts[i]); }
  }

  lemma ReadEntries(p: Policy, w: World, env: F.Env, c: Selected)
    requires ChainAllowed(p, w, c)
    ensures var r := CappedChain(env, RepairedChain(TextOfChain(p, w, c)));
            && r.id == F.StoredId(env, Repaired(c.id)) && (forall e <- r.entries :: |e.fields| == 7)
            && RawEntries(r.entries) == ExportedEntries(p, w, c.held)
  {
    hide Repaired, EntryText, ChainAllowed, F.Cap, FieldsOfRow, CappedPair, RepairedPair, RawPairOf, F.StoredId;
    var t := TextOfChain(p, w, c);
    var r := CappedChain(env, RepairedChain(t));
    forall i | 0 <= i < |r.entries| ensures r.entries[i] == CappedEntry(RepairedEntry(EntryText(p, w, c.held, i))) {
      assert t.entries[i] == EntryText(p, w, c.held, i);
    }
    hide CappedEntry, RepairedEntry;
    assert RawEntries(r.entries) == ExportedEntries(p, w, c.held);
  }

  /**
   * Whatever the folder holds: an export that succeeds is a bundle that is
   * read, and on which no disclosure is blamed and every one that can be is opened.
   */
  lemma ExportVerifies(p: Policy, w: World, env: F.Env, cs: seq<Selected>)
    requires env.lim == DEFAULTS && Exportable(p, w, DEFAULTS, cs) && StrictBase64(w)
    ensures var a := Judge(Print(BundleTree(TextsOf(p, w, cs))), env);
            && a.Read? && |a.chains| == |cs|
            && forall k | 0 <= k < |cs| ::
                 && a.chains[k].id == cs[k].id && |a.chains[k].entries| == |cs[k].held.rows| && (forall e <- a.chains[k].entries :: |e.fields| == 7)
                 && FairlyDisclosed(p, w, cs[k].held, RawEntries(a.chains[k].entries))
  {
    hide Judge, Print, BundleTree, ChainAllowed, CappedChain, RepairedChain, TextOfChain, FairlyDisclosed, WithinCounts, ListedOnce;
    ExportRoundTrip(p, w, env, cs);
    forall k | 0 <= k < |cs| ensures FairlyDisclosed(p, w, cs[k].held, ExportedEntries(p, w, cs[k].held)) {
      assert cs[k] in cs;
      FairlyExported(p, w, cs[k]);
    }
    forall k | 0 <= k < |cs|
      ensures var r := CappedChains(env, RepairedChains(TextsOf(p, w, cs)))[k];
              && r.id == cs[k].id && (forall e <- r.entries :: |e.fields| == 7)
              && RawEntries(r.entries) == ExportedEntries(p, w, cs[k].held)
    {
      ExportedAre(p, w, env, cs, k);
    }
  }

  ghost predicate FairlyDisclosed(p: Policy, w: World, h: Holding, es: seq<RawEntry>) {
    |es| == |h.rows|
    && var last := LastErasure(w, es, |es|);
       forall i | 0 <= i < |es| ::
         && OutcomeOf(w, es, last, i) !in {BadDisclosure, LeakedEvent, AlteredEvent}
         && (OutcomeOf(w, es, last, i) == OpenedEvent <==> last < 0 && RowWellFormed(h.rows[i]) && Discloses(p, w, h, i))
  }

  lemma FairlyExported(p: Policy, w: World, c: Selected)
    requires ChainAllowed(p, w, c) && StrictBase64(w)
    ensures FairlyDisclosed(p, w, c.held, ExportedEntries(p, w, c.held))
  {
    hide OutcomeOf, LastErasure, ChainAllowed, RowWellFormed, Discloses, StrictBase64;
    forall i | 0 <= i < |c.held.rows|
      ensures var es := ExportedEntries(p, w, c.held);
              var o := OutcomeOf(w, es, LastErasure(w, es, |es|), i);
              o !in {BadDisclosure, LeakedEvent, AlteredEvent}
              && (o == OpenedEvent <==> LastErasure(w, es, |es|) < 0 && RowWellFormed(c.held.rows[i]) && Discloses(p, w, c.held, i))
    {
      ExportedOutcomes(p, w, c, i);
    }
  }
}
