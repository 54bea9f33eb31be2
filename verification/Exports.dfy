/** What an export may write of the stored chains, and when it may write anything at all. */
module Exports {
  import opened Basics
  import opened Text
  import opened Timestamps
  import opened JsonText
  import Findings
  import opened Bundles
  import opened Encodings
  import opened Printer
  import opened ExportTree

  // ---- Texts ----

  /** strconv.FormatInt. */
  function FormatInt(n: int): string {
    if n < 0 then "-" + Decimal(-n) else Decimal(n)
  }

  // ---- What is stored ----

  /** A stored entry. */
  datatype Row = Row(
    format: nat,
    entryID: Bytes,
    entryType: Bytes,
    seqNo: int64,
    previousHash: Bytes,
    timestamp: Instant,
    contentHash: Bytes,
    chainHash: Bytes)

  /** A checkpoint file: its number, and its text unless it could not be read. */
  datatype AnchorFile = AnchorFile(number: nat, text: Option<Bytes>)

  /** What the folder holds of one chain. The files are in the order of their numbers, None when another file is among them. */
  datatype Holding = Holding(
    rows: seq<Row>,
    damagedSignatures: bool,
    signatures: map<Bytes, Bytes>,
    contents: map<Bytes, Bytes>,
    nonces: map<Bytes, Bytes>,
    pending: bool,
    anchors: Option<seq<AnchorFile>>)

  /** Which events are disclosed. */
  datatype Policy = Undisclosed | All | Listed(ids: seq<Bytes>)

  datatype Selected = Selected(id: Bytes, held: Holding)

  const MAX_CONTENT_BYTES := 65536
  const NONCE_SIZE := 32
  const KEY_ID_SIZE := 16
  const FORMAT_V3 := 3

  predicate IsListed(p: Policy, id: Bytes) {
    p.Listed? && id in p.ids
  }

  predicate Wants(p: Policy, id: Bytes) {
    p.All? || IsListed(p, id)
  }

  // ---- Entries ----

  function FieldsOfRow(r: Row): (fs: seq<Bytes>)
    ensures |fs| == 7
  {
    [r.entryID, r.entryType, Ascii(FormatInt(r.seqNo as int)), r.previousHash, Ascii(FormatTimestamp(r.timestamp)), r.contentHash, r.chainHash]
  }

  predicate Representable(r: Row) {
    r.format == FORMAT_V3 && 1 <= FieldsOf(r.timestamp).date.year <= 9999
  }

  /** The exporter's well-formedness, of what the store can hold out of shape. */
  predicate RowWellFormed(r: Row) {
    EntryIdOK(Latin(r.entryID)) && r.seqNo >= 0 && (r.previousHash == [] || HashShape(Latin(r.previousHash)))
    && HashShape(Latin(r.contentHash)) && HashShape(Latin(r.chainHash))
  }

  predicate RowHoldsErasure(w: World, rows: seq<Row>, i: nat)
    requires i < |rows|
  {
    i > 0 && RowWellFormed(rows[i]) && RowWellFormed(rows[i - 1])
    && Latin(rows[i].contentHash) == ErasureHash(w, FormatInt(rows[i - 1].seqNo as int))
  }

  /** The last entry that holds the erasure hash for its place, whatever its label. */
  function ErasedBefore(w: World, rows: seq<Row>, n: nat): (last: int)
    requires n <= |rows|
    ensures -1 <= last < n
  {
    if n == 0 then -1 else if RowHoldsErasure(w, rows, n - 1) then n - 1 else ErasedBefore(w, rows, n - 1)
  }

  lemma {:induction false} ErasedBeforeIs(w: World, rows: seq<Row>, n: nat)
    requires n <= |rows|
    ensures var last := ErasedBefore(w, rows, n);
            (last >= 0 ==> RowHoldsErasure(w, rows, last)) && forall i | last < i < n && i >= 0 :: !RowHoldsErasure(w, rows, i)
  {
    hide RowHoldsErasure;
    if n > 0 { ErasedBeforeIs(w, rows, n - 1); }
  }

  // ---- Disclosure ----

  /** What reading the stored content and nonce gives: an empty content is none, a nonce of another size opens nothing. */
  function Content(h: Holding, id: Bytes): Option<Bytes> {
    if id in h.contents && h.contents[id] != [] && |h.contents[id]| <= MAX_CONTENT_BYTES then Some(h.contents[id]) else None
  }

  predicate TooBig(h: Holding, id: Bytes) {
    id in h.contents && |h.contents[id]| > MAX_CONTENT_BYTES
  }

  function Nonce(h: Holding, id: Bytes): Option<Bytes> {
    if id !in h.nonces then None else Some(if |h.nonces[id]| == NONCE_SIZE then h.nonces[id] else [])
  }

  /** An event that may be disclosed: not erased, not the erasure, on a chain whose subject is not forgotten. */
  predicate Live(w: World, h: Holding, i: nat)
    requires i < |h.rows|
  {
    Latin(h.rows[i].entryType) == EVENT && i > ErasedBefore(w, h.rows, |h.rows|) && !h.pending
  }

  predicate Discloses(p: Policy, w: World, h: Holding, i: nat)
    requires i < |h.rows|
  {
    Wants(p, h.rows[i].entryID) && Live(w, h, i)
  }

  /** What is stored opens the commitment on the chain. */
  predicate Openable(w: World, h: Holding, r: Row) {
    var c, n := Content(h, r.entryID), Nonce(h, r.entryID);
    !TooBig(h, r.entryID) && c.Some? && n.Some? && |n.value| == NONCE_SIZE
    && w.commits(Latin(r.contentHash), Latin(Hex(n.value)), c.value)
  }

  /** A listed entry must be one that may be disclosed, and what is disclosed must open. */
  predicate EntryAllowed(p: Policy, w: World, h: Holding, i: nat)
    requires i < |h.rows|
  {
    (IsListed(p, h.rows[i].entryID) ==> Live(w, h, i)) && (Discloses(p, w, h, i) ==> Openable(w, h, h.rows[i]))
  }

  function SignatureText(h: Holding, r: Row): Option<Findings.Pair> {
    if r.entryID !in h.signatures then None
    else
      var raw := h.signatures[r.entryID];
      var cut := if |raw| < KEY_ID_SIZE then |raw| else KEY_ID_SIZE;
      Some(Findings.Pair(Hex(raw[..cut]), Base64(raw[cut..])))
  }

  function DisclosedText(p: Policy, w: World, h: Holding, i: nat): Option<Findings.Pair>
    requires i < |h.rows|
  {
    var id := h.rows[i].entryID;
    if !Discloses(p, w, h, i) || Content(h, id).None? || Nonce(h, id).None? then None
    else Some(Findings.Pair(Base64(Content(h, id).value), Hex(Nonce(h, id).value)))
  }

  /** A record signature is written whole: decoded, its two strings are the stored row, split after sixteen bytes. */
  lemma SignatureBack(h: Holding, r: Row)
    ensures SignatureText(h, r).Some? <==> r.entryID in h.signatures
    ensures SignatureText(h, r).Some? ==>
              var q, raw := SignatureText(h, r).value, h.signatures[r.entryID];
              var keyID, signature := FromHex(q.a), FromBase64(q.b);
              keyID.Some? && signature.Some? && keyID.value + signature.value == raw && |keyID.value| == if |raw| < 16 then |raw| else 16
  {
    if r.entryID in h.signatures {
      var raw := h.signatures[r.entryID];
      var cut := if |raw| < KEY_ID_SIZE then |raw| else KEY_ID_SIZE;
      HexReads(raw[..cut]);
      Base64Reads(raw[cut..]);
      assert raw == raw[..cut] + raw[cut..];
      hide Hex, Base64, FromHex, FromBase64;
    }
  }

  /** A disclosure is written whole: decoded, its two strings are the stored content and the stored nonce. */
  lemma DisclosedBack(p: Policy, w: World, h: Holding, i: nat)
    requires i < |h.rows| && DisclosedText(p, w, h, i).Some?
    ensures var q, id := DisclosedText(p, w, h, i).value, h.rows[i].entryID;
            && id in h.contents && id in h.nonces && 1 <= |h.contents[id]| <= 65536
            && FromBase64(q.a) == Some(h.contents[id]) && FromHex(q.b) == Some(if |h.nonces[id]| == 32 then h.nonces[id] else [])
  {
    hide Discloses, Hex, Base64, FromHex, FromBase64;
    var id := h.rows[i].entryID;
    Base64Reads(Content(h, id).value);
    HexReads(Nonce(h, id).value);
  }

  /** An entry whose disclosure can be made. */
  predicate Disclosable(w: World, h: Holding, r: Row) {
    && r.entryID in h.contents && 1 <= |h.contents[r.entryID]| <= 65536 && r.entryID in h.nonces && |h.nonces[r.entryID]| == 32
    && w.commits(Latin(r.contentHash), Latin(Hex(h.nonces[r.entryID])), h.contents[r.entryID])
  }

  /** An event behind the last entry that holds an erasure hash, on a chain that is not pending. */
  predicate Undestroyed(w: World, h: Holding, i: nat)
    requires i < |h.rows|
  {
    Latin(h.rows[i].entryType) == "sink.event" && !h.pending && forall j | i <= j < |h.rows| :: !RowHoldsErasure(w, h.rows, j)
  }

  /** An entry is refused, or disclosed, exactly for what is stored of it and what was asked for. */
  lemma DisclosedExactly(p: Policy, w: World, h: Holding, i: nat)
    requires i < |h.rows|
    ensures var id, live := h.rows[i].entryID, Undestroyed(w, h, i);
            var listed := p.Listed? && id in p.ids;
            && (EntryAllowed(p, w, h, i) <==> (listed ==> live) && (live && (listed || p.All?) ==> Disclosable(w, h, h.rows[i])))
            && (EntryAllowed(p, w, h, i) ==> (DisclosedText(p, w, h, i).Some? <==> live && (listed || p.All?)))
  {
    hide RowHoldsErasure, Hex, Base64;
    var n := |h.rows|;
    ErasedBeforeIs(w, h.rows, n);
    assert Live(w, h, i) <==> Undestroyed(w, h, i) by {
      if ErasedBefore(w, h.rows, n) >= i { assert RowHoldsErasure(w, h.rows, ErasedBefore(w, h.rows, n)); }
    }
    hide ErasedBefore, Undestroyed, Live;
  }

  function EntryText(p: Policy, w: World, h: Holding, i: nat): (e: Findings.EntryRead)
    requires i < |h.rows|
    ensures |e.fields| == 7
  {
    Findings.EntryRead(FieldsOfRow(h.rows[i]), SignatureText(h, h.rows[i]), DisclosedText(p, w, h, i))
  }

  // ---- Chains ----

  predicate AnchorsAllowed(anchors: Option<seq<AnchorFile>>) {
    anchors.Some?
    && forall i | 0 <= i < |anchors.value| ::
         anchors.value[i].number == i + 1 && anchors.value[i].text.Some? && ValidUtf8(anchors.value[i].text.value)
  }

  function AnchorTexts(anchors: Option<seq<AnchorFile>>): (ts: seq<Bytes>)
    requires AnchorsAllowed(anchors)
    ensures |ts| == |anchors.value| && forall i | 0 <= i < |ts| :: ts[i] == anchors.value[i].text.value
  {
    seq(|anchors.value|, i requires 0 <= i < |anchors.value| => anchors.value[i].text.value)
  }

  function EntryTexts(p: Policy, w: World, h: Holding, n: nat): (es: seq<Findings.EntryRead>)
    requires n <= |h.rows|
    ensures |es| == n && forall i | 0 <= i < n :: es[i] == EntryText(p, w, h, i)
  {
    seq(n, i requires 0 <= i < n => EntryText(p, w, h, i))
  }

  /** A chain a bundle can carry, with every requested disclosure made. */
  predicate ChainAllowed(p: Policy, w: World, c: Selected) {
    ChainIdOK(Latin(c.id)) && !c.held.damagedSignatures && c.held.rows != [] && (forall r <- c.held.rows :: Representable(r))
    && AnchorsAllowed(c.held.anchors) && forall i | 0 <= i < |c.held.rows| :: EntryAllowed(p, w, c.held, i)
  }

  function TextOfChain(p: Policy, w: World, c: Selected): (t: ChainText)
    requires ChainAllowed(p, w, c)
    ensures Shaped(t) && |t.entries| == |c.held.rows|
  {
    ChainText(c.id, EntryTexts(p, w, c.held, |c.held.rows|), AnchorTexts(c.held.anchors))
  }

  function TextsOf(p: Policy, w: World, cs: seq<Selected>): (ts: seq<ChainText>)
    requires forall c <- cs :: ChainAllowed(p, w, c)
    ensures |ts| == |cs| && (forall i | 0 <= i < |cs| :: ts[i] == TextOfChain(p, w, cs[i])) && forall t <- ts :: Shaped(t)
  {
    seq(|cs|, i requires 0 <= i < |cs| => TextOfChain(p, w, cs[i]))
  }

  /** How many live events of a chain, and of all, have the id. */
  function LiveCopies(w: World, h: Holding, id: Bytes, n: nat): nat
    requires n <= |h.rows|
  {
    if n == 0 then 0 else LiveCopies(w, h, id, n - 1) + if h.rows[n - 1].entryID == id && Live(w, h, n - 1) then 1 else 0
  }

  function Matches(w: World, cs: seq<Selected>, id: Bytes): nat {
    if cs == [] then 0 else Matches(w, cs[..|cs| - 1], id) + LiveCopies(w, cs[|cs| - 1].held, id, |cs[|cs| - 1].held.rows|)
  }

  /** Every listed entry is one live event, and one only. */
  predicate ListedOnce(p: Policy, w: World, cs: seq<Selected>) {
    p.Listed? ==> forall id <- p.ids :: Matches(w, cs, id) == 1
  }

  /** What an export may write: a bundle within the four limits, with nothing left out or made up. */
  predicate Exportable(p: Policy, w: World, lim: Findings.Limits, cs: seq<Selected>) {
    && cs != []
    && (forall c <- cs :: ChainAllowed(p, w, c))
    && WithinCounts(lim, TextsOf(p, w, cs))
    && |Print(BundleTree(TextsOf(p, w, cs)))| <= lim.bundleBytes
    && ListedOnce(p, w, cs)
  }
}
