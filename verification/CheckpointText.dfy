/** A checkpoint's text: the reader's second use, one value that must be exactly a checkpoint. */
module CheckpointText {
  import opened Basics
  import opened JsonTree
  import opened Bundles
  import Findings

  /** An object's position in checkpoint text. */
  datatype Place = Whole | Range

  const WHOLE_NAMES: seq<string> := ["anchor_id", "chain_hash", "created_at_ms", "entry_count", "previous_anchor_id", "range", "signature",
                                     "signing_key_id", "subject", "verified_through", "version"]
  const RANGE_NAMES: seq<string> := ["start_entry_id", "end_entry_id"]

  function NamesAt(p: Place): seq<string> {
    match p case Whole => WHOLE_NAMES case Range => RANGE_NAMES
  }

  function AllOf(p: Place): set<nat> {
    match p case Whole => {0, 1, 2, 3, 4, 5, 6, 7, 8, 9, 10} case Range => {0, 1}
  }

  function IndexAt(p: Place, name: Bytes): (r: Option<nat>)
    ensures r.Some? ==> r.value < |NamesAt(p)|
  {
    Findings.Find(NamesAt(p), name, 0)
  }

  // ---- Numbers ----

  const MAX_SAFE: nat := 0x1f_ffff_ffff_ffff

  function DigitByte(c: byte): nat {
    if IsDigitByte(c) then (c - 0x30) as nat else 0
  }

  function ValueOf(digits: Bytes): nat {
    if digits == [] then 0 else 10 * ValueOf(digits[..|digits| - 1]) + DigitByte(digits[|digits| - 1])
  }

  /** `0` or digits without a leading zero, at most 2^53-1. */
  predicate Canonical(text: Bytes) {
    text != [] && (forall c <- text :: IsDigitByte(c)) && (|text| > 1 ==> text[0] != 0x30) && ValueOf(text) <= MAX_SAFE
  }

  // ---- What a checkpoint's text must be ----

  /** The members read: the strings and the numbers by index, and the range's two strings. */
  datatype Fields = Fields(texts: map<nat, Bytes>, numbers: map<nat, nat>, first: Bytes, last: Bytes)

  const NO_FIELDS := Fields(map[], map[], [], [])

  predicate IsNumber(idx: nat) {
    idx in {2, 3, 9, 10}
  }

  /** A member of its type. */
  predicate Typed(p: Place, idx: nat, t: Json)
    decreases t, 1
  {
    if p == Range || (idx != 5 && !IsNumber(idx)) then t.Str?
    else if idx == 5 then t.Obj? && Good(Range, t.members) && Seen(Range, t.members) == AllOf(Range)
    else t.Num? && Canonical(t.text)
  }

  function Seen(p: Place, ms: seq<Member>): set<nat> {
    set m | m in ms && IndexAt(p, m.name).Some? :: IndexAt(p, m.name).value
  }

  /** Every name defined and none twice, every value of its type. */
  predicate Good(p: Place, ms: seq<Member>)
    decreases ms, 0
  {
    DistinctNames(ms) && forall m <- ms :: IndexAt(p, m.name).Some? && Typed(p, IndexAt(p, m.name).value, m.value)
  }

  function Set(p: Place, f: Fields, idx: nat, t: Json): Fields
    decreases t, 1
  {
    match p
    case Range => if idx == 0 then f.(first := TextOf(t)) else f.(last := TextOf(t))
    case Whole =>
      if idx == 5 then (match t case Obj(ms) => SetAll(Range, f, ms) case _ => f)
      else if IsNumber(idx) then f.(numbers := f.numbers[idx := match t case Num(text) => ValueOf(text) case _ => 0])
      else f.(texts := f.texts[idx := TextOf(t)])
  }

  function TextOf(t: Json): Bytes {
    match t case Str(s) => s case _ => []
  }

  function SetOne(p: Place, f: Fields, m: Member): Fields
    decreases m, 2
  {
    match IndexAt(p, m.name) case Some(idx) => Set(p, f, idx, m.value) case None => f
  }

  function SetAll(p: Place, f: Fields, ms: seq<Member>): Fields
    decreases ms, 0
  {
    if ms == [] then f else SetOne(p, SetAll(p, f, ms[..|ms| - 1]), ms[|ms| - 1])
  }

  const DEPTH: nat := 8

  predicate Label(s: Bytes) {
    s != [] && 0x7C !in s
  }

  function TextAt(f: Fields, idx: nat): Bytes {
    if idx in f.texts then f.texts[idx] else []
  }

  function NumberAt(f: Fields, idx: nat): nat {
    if idx in f.numbers then f.numbers[idx] else 0
  }

  /** Its values' shapes, once its members were read. */
  function Shaped(w: World, f: Fields): Option<Checkpoint> {
    match DecodeCanonical(w, Latin(TextAt(f, 6)))
    case None => None
    case Some(signature) =>
      if |signature| == SIGNATURE_SIZE && NumberAt(f, 10) == 6 && Label(TextAt(f, 0)) && HashShape(Latin(TextAt(f, 1)))
         && NumberAt(f, 3) >= 1 && Label(TextAt(f, 4)) && EntryIdOK(Latin(f.first)) && EntryIdOK(Latin(f.last))
         && LowerHex(Latin(TextAt(f, 7)), 32) && Label(TextAt(f, 8)) && NumberAt(f, 9) >= 1
      then Some(Checkpoint(Latin(TextAt(f, 0)), Latin(TextAt(f, 1)), NumberAt(f, 2), NumberAt(f, 3), Latin(TextAt(f, 4)), Latin(f.first),
                           Latin(f.last), signature, Latin(TextAt(f, 7)), Latin(TextAt(f, 8)), NumberAt(f, 9)))
      else None
  }

  /**
   * No member is dropped: two texts' members that make one checkpoint are the
   * same, all eleven, up to how a signature that decodes alike was written.
   */
  lemma ShapedTells(w: World, f: Fields, g: Fields)
    requires Shaped(w, f).Some? && Shaped(w, f) == Shaped(w, g)
    ensures forall i | i in {0, 1, 4, 7, 8} :: TextAt(f, i) == TextAt(g, i)
    ensures forall i | i in {2, 3, 9, 10} :: NumberAt(f, i) == NumberAt(g, i)
    ensures f.first == g.first && f.last == g.last
    ensures DecodeCanonical(w, Latin(TextAt(f, 6))) == DecodeCanonical(w, Latin(TextAt(g, 6)))
  {
    hide Label, HashShape, EntryIdOK, LowerHex, DecodeCanonical, TextAt, NumberAt, Latin;
    forall i | i in {0, 1, 4, 7, 8} ensures TextAt(f, i) == TextAt(g, i) {
      LatinTells(TextAt(f, i), TextAt(g, i));
    }
    LatinTells(f.first, g.first);
    LatinTells(f.last, g.last);
  }

  lemma LatinTells(a: Bytes, b: Bytes)
    ensures Latin(a) == Latin(b) ==> a == b
  {
    AsciiOfLatin(a);
    AsciiOfLatin(b);
  }

  /** The whole text parsed, then judged: exactly the eleven members, each of its type and in shape. */
  function Meaning(w: World, text: Bytes): Option<Checkpoint> {
    match Document(text, DEPTH)
    case Some(Obj(ms)) => if Good(Whole, ms) && Seen(Whole, ms) == AllOf(Whole) then Shaped(w, SetAll(Whole, NO_FIELDS, ms)) else None
    case _ => None
  }
}
