/** Which member of a bundle, and of a checkpoint's text, each field is: by the names the format gives them. */
module MemberNames {
  import opened Basics
  import opened Bundles
  import opened JsonTree
  import F = Findings
  import BundleMeaning
  import BundleDecode
  import BundleBytes
  import CheckpointText

  /** The string member of this name, as a bundle's reader keeps it. */
  function TextNamed(ms: seq<Member>, name: string, limit: nat): string {
    Latin(CappedText(BundleDecode.Lookup(ms, Ascii(name)), limit))
  }

  function CappedText(t: Option<Json>, limit: nat): Bytes {
    match t case Some(Str(s)) => F.Cap(s, limit) case _ => []
  }

  function PairNamed(ms: seq<Member>, name: string, first: string, last: string, a: nat, b: nat): Option<RawPair> {
    match BundleDecode.Lookup(ms, Ascii(name))
    case Some(Obj(pair)) => Some(RawPair(TextNamed(pair, first, a), TextNamed(pair, last, b)))
    case _ => None
  }

  /** An entry's nine members. */
  lemma EntryByName(ms: seq<Member>)
    ensures var e := BundleBytes.RawOf(BundleDecode.DecodeEntry(ms));
            && e.entryID == TextNamed(ms, "entry_id", 37) && e.entryType == TextNamed(ms, "entry_type", 12)
            && e.globalSeq == TextNamed(ms, "global_seq", 19) && e.previousHash == TextNamed(ms, "previous_hash", 128)
            && e.timestamp == TextNamed(ms, "timestamp", 27) && e.contentHash == TextNamed(ms, "content_hash", 128)
            && e.chainHash == TextNamed(ms, "chain_hash", 128)
            && e.sig == PairNamed(ms, "record_signature", "key_id", "signature", 32, 4412)
            && e.disclosed == PairNamed(ms, "disclosed", "content", "nonce", 87384, 64)
  {
    hide BundleDecode.Lookup, F.Cap, Latin, Ascii;
    EntryNames();
    TextsByName(F.Entry, ms);
    PairByName(F.Signature, BundleDecode.MemberAt(F.Entry, ms, 7));
    PairByName(F.Disclosed, BundleDecode.MemberAt(F.Entry, ms, 8));
  }

  lemma EntryNames()
    ensures F.NamesOf(F.Entry) == ["entry_id", "entry_type", "global_seq", "previous_hash", "timestamp", "content_hash", "chain_hash",
                                   "record_signature", "disclosed"]
    ensures F.NamesOf(F.Signature) == ["key_id", "signature"] && F.NamesOf(F.Disclosed) == ["content", "nonce"]
    ensures F.Caps(F.Entry) == [37, 12, 19, 128, 27, 128, 128] && F.Caps(F.Signature) == [32, 4412] && F.Caps(F.Disclosed) == [87384, 64]
  {
  }

  lemma TextsByName(kind: F.Kind, ms: seq<Member>)
    ensures forall k | 0 <= k < |F.NamesOf(kind)| && k < |F.Caps(kind)| ::
              Latin(BundleDecode.TextAt(kind, ms, k)) == TextNamed(ms, F.NamesOf(kind)[k], F.Caps(kind)[k])
  {
    hide BundleDecode.Lookup, F.Cap, Ascii, F.NamesOf, F.Caps;
  }

  lemma PairByName(kind: F.Kind, t: Option<Json>)
    requires kind in {F.Signature, F.Disclosed}
    ensures var names, caps := F.NamesOf(kind), F.Caps(kind);
            |names| == |caps| == 2
            && BundleBytes.RawPairOf(BundleDecode.DecodePair(kind, t))
            == match t case Some(Obj(ms)) => Some(RawPair(TextNamed(ms, names[0], caps[0]), TextNamed(ms, names[1], caps[1]))) case _ => None
  {
    hide BundleDecode.Lookup, F.Cap, Latin, Ascii;
    EntryNames();
    match t case Some(Obj(ms)) => TextsByName(kind, ms); case _ =>
  }

  function ArrayNamed(ms: seq<Member>, name: string): seq<Json> {
    match BundleDecode.Lookup(ms, Ascii(name)) case Some(Arr(es)) => es case _ => []
  }

  function IdNamed(env: F.Env, ms: seq<Member>): Bytes {
    match BundleDecode.Lookup(ms, Ascii("chain_id")) case Some(Str(s)) => F.StoredId(env, s) case _ => []
  }

  /** A bundle's chains, and a chain's id, entries and checkpoints. */
  lemma ChainByName(env: F.Env, bundle: seq<Member>, ms: seq<Member>)
    ensures BundleDecode.DecodeBundle(env, bundle) == BundleDecode.DecodeChains(env, ArrayNamed(bundle, "chains"))
    ensures var c := BundleDecode.DecodeChain(env, ms);
            && c.id == IdNamed(env, ms)
            && c.entries == BundleDecode.DecodeEntries(ArrayNamed(ms, "entries"))
            && c.checkpoints == BundleDecode.DecodeCheckpoints(env.lim.checkpointBytes, ArrayNamed(ms, "checkpoints"))
  {
    hide BundleDecode.Lookup, BundleDecode.DecodeChains, BundleDecode.DecodeEntries, BundleDecode.DecodeCheckpoints, Ascii;
  }

  // ---- A checkpoint's text ----

  function ValueNamed(ms: seq<Member>, name: string): Option<Json> {
    BundleDecode.Lookup(ms, Ascii(name))
  }

  function BytesNamed(ms: seq<Member>, name: string): Bytes {
    match ValueNamed(ms, name) case Some(t) => CheckpointText.TextOf(t) case None => []
  }

  function NumberNamed(ms: seq<Member>, name: string): nat {
    match ValueNamed(ms, name) case Some(Num(text)) => CheckpointText.ValueOf(text) case _ => 0
  }

  lemma PlaceNames(p: CheckpointText.Place, k: nat)
    requires k < |CheckpointText.NamesAt(p)|
    ensures CheckpointText.IndexAt(p, Ascii(CheckpointText.NamesAt(p)[k])) == Some(k)
  {
    var names := CheckpointText.NamesAt(p);
    var j := CheckpointText.IndexAt(p, Ascii(names[k])).value;
    if j != k { PlacesApart(p, j, k); }
  }

  lemma PlacesApart(p: CheckpointText.Place, j: nat, k: nat)
    requires j < |CheckpointText.NamesAt(p)| && k < |CheckpointText.NamesAt(p)| && j != k
    ensures Ascii(CheckpointText.NamesAt(p)[j]) != Ascii(CheckpointText.NamesAt(p)[k])
  {
    BundleDecode.AsciiApart(CheckpointText.NamesAt(p)[j], CheckpointText.NamesAt(p)[k]);
  }

  /** The last member is set last. */
  lemma SetLast(p: CheckpointText.Place, f: CheckpointText.Fields, ms: seq<Member>, k: nat)
    requires ms != [] && CheckpointText.IndexAt(p, ms[|ms| - 1].name) == Some(k)
    ensures CheckpointText.SetAll(p, f, ms) == CheckpointText.Set(p, CheckpointText.SetAll(p, f, ms[..|ms| - 1]), k, ms[|ms| - 1].value)
  {
  }

  lemma LookedUp(ms: seq<Member>, name: Bytes)
    requires ms != [] && DistinctNames(ms)
    ensures var n := |ms| - 1;
            BundleDecode.Lookup(ms, name) == if ms[n].name == name then Some(ms[n].value) else BundleDecode.Lookup(ms[..n], name)
  {
    var n := |ms| - 1;
    BundleDecode.LookupNone(ms[..n], ms[n].name);
  }

  /** The two strings of a range. */
  lemma {:induction false} RangeByName(f: CheckpointText.Fields, ms: seq<Member>)
    requires CheckpointText.Good(CheckpointText.Range, ms)
    ensures var g := CheckpointText.SetAll(CheckpointText.Range, f, ms);
            && g.texts == f.texts && g.numbers == f.numbers
            && g.first == (if ValueNamed(ms, "start_entry_id").Some? then BytesNamed(ms, "start_entry_id") else f.first)
            && g.last == (if ValueNamed(ms, "end_entry_id").Some? then BytesNamed(ms, "end_entry_id") else f.last)
  {
    if ms == [] {
      NothingSet(CheckpointText.Range, f);
    } else {
      var n := |ms| - 1;
      assert ms[n] in ms;
      var k := CheckpointText.IndexAt(CheckpointText.Range, ms[n].name).value;
      hide CheckpointText.TextOf, CheckpointText.IndexAt, CheckpointText.Typed, CheckpointText.SetAll, BundleDecode.Lookup, Ascii;
      RangeByName(f, ms[..n]);
      SetLast(CheckpointText.Range, f, ms, k);
      LookedUp(ms, Ascii("start_entry_id"));
      LookedUp(ms, Ascii("end_entry_id"));
      NameAt(CheckpointText.Range, ms[n].name);
      PlaceNames(CheckpointText.Range, 0);
      PlaceNames(CheckpointText.Range, 1);
    }
  }

  lemma NothingSet(p: CheckpointText.Place, f: CheckpointText.Fields)
    ensures CheckpointText.SetAll(p, f, []) == f && forall name :: BundleDecode.Lookup([], name) == None
  {
  }

  /** The value of one member, as a checkpoint's text or number. */
  predicate SetTo(f: CheckpointText.Fields, k: nat, t: Option<Json>) {
    if CheckpointText.IsNumber(k) then
      CheckpointText.NumberAt(f, k) == match t case Some(Num(text)) => CheckpointText.ValueOf(text) case _ => 0
    else CheckpointText.TextAt(f, k) == match t case Some(v) => CheckpointText.TextOf(v) case None => []
  }

  /** Setting one member sets its own field, and of the others none. */
  lemma SetField(f: CheckpointText.Fields, idx: nat, v: Json, k: nat, t: Option<Json>)
    requires k < 11 && k != 5 && SetTo(f, k, t) && CheckpointText.Typed(CheckpointText.Whole, idx, v)
    ensures SetTo(CheckpointText.Set(CheckpointText.Whole, f, idx, v), k, if idx == k then Some(v) else t)
  {
    hide CheckpointText.TextOf, CheckpointText.ValueOf;
    if idx == 5 {
      RangeTyped(v);
      RangeByName(f, v.members);
    }
  }

  /** One name of the whole. */
  lemma {:induction false} WholeByName(ms: seq<Member>, k: nat)
    requires CheckpointText.Good(CheckpointText.Whole, ms) && k < 11 && k != 5
    ensures SetTo(CheckpointText.SetAll(CheckpointText.Whole, CheckpointText.NO_FIELDS, ms), k, ValueNamed(ms, CheckpointText.WHOLE_NAMES[k]))
  {
    var name := CheckpointText.WHOLE_NAMES[k];
    if ms == [] {
      NothingSet(CheckpointText.Whole, CheckpointText.NO_FIELDS);
    } else {
      var n := |ms| - 1;
      assert ms[n] in ms;
      var idx := CheckpointText.IndexAt(CheckpointText.Whole, ms[n].name).value;
      hide SetTo, CheckpointText.IndexAt, CheckpointText.Typed, CheckpointText.SetAll, CheckpointText.Set, BundleDecode.Lookup, Ascii;
      WholeByName(ms[..n], k);
      SetLast(CheckpointText.Whole, CheckpointText.NO_FIELDS, ms, idx);
      LookedUp(ms, Ascii(name));
      NameAt(CheckpointText.Whole, ms[n].name);
      PlaceNames(CheckpointText.Whole, k);
      SetField(CheckpointText.SetAll(CheckpointText.Whole, CheckpointText.NO_FIELDS, ms[..n]), idx, ms[n].value, k, ValueNamed(ms[..n], name));
    }
  }

  lemma NameAt(p: CheckpointText.Place, name: Bytes)
    ensures var k := CheckpointText.IndexAt(p, name); k.Some? ==> name == Ascii(CheckpointText.NamesAt(p)[k.value])
  {
  }

  lemma RangeTyped(v: Json)
    requires CheckpointText.Typed(CheckpointText.Whole, 5, v)
    ensures v.Obj? && CheckpointText.Good(CheckpointText.Range, v.members)
            && CheckpointText.Seen(CheckpointText.Range, v.members) == CheckpointText.AllOf(CheckpointText.Range)
  {
  }

  function RangeNamed(ms: seq<Member>): seq<Member> {
    match ValueNamed(ms, "range") case Some(Obj(rs)) => rs case _ => []
  }

  /** The range's two strings are set when it is, and by no other member. */
  lemma SetEnds(f: CheckpointText.Fields, idx: nat, v: Json)
    requires idx < 11 && CheckpointText.Typed(CheckpointText.Whole, idx, v)
    ensures var g := CheckpointText.Set(CheckpointText.Whole, f, idx, v);
            if idx != 5 then g.first == f.first && g.last == f.last
            else v.Obj? && g.first == BytesNamed(v.members, "start_entry_id") && g.last == BytesNamed(v.members, "end_entry_id")
  {
    hide CheckpointText.TextOf, CheckpointText.ValueOf;
    if idx == 5 {
      RangeTyped(v);
      RangeByName(f, v.members);
      BothEnds(v.members);
    }
  }

  lemma BothEnds(rs: seq<Member>)
    requires CheckpointText.Seen(CheckpointText.Range, rs) == CheckpointText.AllOf(CheckpointText.Range)
    ensures ValueNamed(rs, "start_entry_id").Some? && ValueNamed(rs, "end_entry_id").Some?
  {
    SeenNamed(CheckpointText.Range, rs, 0);
    SeenNamed(CheckpointText.Range, rs, 1);
  }

  lemma SeenNamed(p: CheckpointText.Place, ms: seq<Member>, k: nat)
    requires k in CheckpointText.Seen(p, ms)
    ensures k < |CheckpointText.NamesAt(p)| && ValueNamed(ms, CheckpointText.NamesAt(p)[k]).Some?
  {
    hide CheckpointText.IndexAt;
    var m :| m in ms && CheckpointText.IndexAt(p, m.name) == Some(k);
    NameAt(p, m.name);
    BundleDecode.LookupNone(ms, m.name);
  }

  lemma {:induction false} EndsByName(ms: seq<Member>)
    requires CheckpointText.Good(CheckpointText.Whole, ms)
    ensures var f := CheckpointText.SetAll(CheckpointText.Whole, CheckpointText.NO_FIELDS, ms);
            ValueNamed(ms, "range").Some? ==>
              f.first == BytesNamed(RangeNamed(ms), "start_entry_id") && f.last == BytesNamed(RangeNamed(ms), "end_entry_id")
  {
    if ms == [] {
      NothingSet(CheckpointText.Whole, CheckpointText.NO_FIELDS);
    } else {
      var n := |ms| - 1;
      assert ms[n] in ms;
      var idx := CheckpointText.IndexAt(CheckpointText.Whole, ms[n].name).value;
      hide CheckpointText.IndexAt, CheckpointText.Typed, CheckpointText.SetAll, CheckpointText.Set, BundleDecode.Lookup, BytesNamed, Ascii,
           CheckpointText.Seen;
      EndsByName(ms[..n]);
      SetLast(CheckpointText.Whole, CheckpointText.NO_FIELDS, ms, idx);
      LookedUp(ms, Ascii("range"));
      NameAt(CheckpointText.Whole, ms[n].name);
      PlaceNames(CheckpointText.Whole, 5);
      var f := CheckpointText.SetAll(CheckpointText.Whole, CheckpointText.NO_FIELDS, ms[..n]);
      SetEnds(f, idx, ms[n].value);
      hide CheckpointText.NO_FIELDS, CheckpointText.Good;
      if ms[n].name == Ascii("range") { assert idx == 5; }
    }
  }

  /** A checkpoint's eleven members, and the two of its range. */
  lemma CheckpointByName(w: World, text: Bytes, ms: seq<Member>)
    requires Document(text, 8) == Some(Obj(ms)) && CheckpointText.Meaning(w, text).Some?
    ensures var ck := CheckpointText.Meaning(w, text).value;
            && ck.anchorID == Latin(BytesNamed(ms, "anchor_id")) && ck.chainHash == Latin(BytesNamed(ms, "chain_hash"))
            && ck.createdAtMs == NumberNamed(ms, "created_at_ms") && ck.entryCount == NumberNamed(ms, "entry_count")
            && ck.previousAnchorID == Latin(BytesNamed(ms, "previous_anchor_id"))
            && ck.rangeStart == Latin(BytesNamed(RangeNamed(ms), "start_entry_id")) && ck.rangeEnd == Latin(BytesNamed(RangeNamed(ms), "end_entry_id"))
            && DecodeCanonical(w, Latin(BytesNamed(ms, "signature"))) == Some(ck.signature)
            && ck.signingKeyID == Latin(BytesNamed(ms, "signing_key_id")) && ck.subject == Latin(BytesNamed(ms, "subject"))
            && ck.verifiedThrough == NumberNamed(ms, "verified_through") && NumberNamed(ms, "version") == 6
  {
    hide Document, DecodeCanonical, Latin, Ascii, BundleDecode.Lookup, HashShape, EntryIdOK, LowerHex, CheckpointText.Label, CheckpointText.SetAll,
         CheckpointText.Good, CheckpointText.Seen, CheckpointText.ValueOf, CheckpointText.TextOf;
    WholeByName(ms, 0);
    WholeByName(ms, 1);
    WholeByName(ms, 2);
    WholeByName(ms, 3);
    WholeByName(ms, 4);
    WholeByName(ms, 6);
    WholeByName(ms, 7);
    WholeByName(ms, 8);
    WholeByName(ms, 9);
    WholeByName(ms, 10);
    SeenNamed(CheckpointText.Whole, ms, 5);
    EndsByName(ms);
  }

  // ---- The structure of a bundle, name by name ----

  predicate OnlyNames(ms: seq<Member>, names: seq<string>) {
    forall m <- ms :: exists k | 0 <= k < |names| :: m.name == Ascii(names[k])
  }

  predicate IsText(ms: seq<Member>, name: string) {
    ValueNamed(ms, name).Some? && ValueNamed(ms, name).value.Str?
  }

  /** Absent, or an object of just these two strings. */
  predicate PairOrNone(t: Option<Json>, first: string, last: string) {
    t.Some? ==> t.value.Obj? && OnlyNames(t.value.members, [first, last]) && IsText(t.value.members, first) && IsText(t.value.members, last)
  }

  predicate EntryShaped(t: Json) {
    t.Obj? && var ms := t.members;
    && OnlyNames(ms, ["entry_id", "entry_type", "global_seq", "previous_hash", "timestamp", "content_hash", "chain_hash",
                      "record_signature", "disclosed"])
    && IsText(ms, "entry_id") && IsText(ms, "entry_type") && IsText(ms, "global_seq") && IsText(ms, "previous_hash")
    && IsText(ms, "timestamp") && IsText(ms, "content_hash") && IsText(ms, "chain_hash")
    && PairOrNone(ValueNamed(ms, "record_signature"), "key_id", "signature") && PairOrNone(ValueNamed(ms, "disclosed"), "content", "nonce")
  }

  predicate ChainShaped(t: Json) {
    t.Obj? && var ms := t.members;
    && OnlyNames(ms, ["chain_id", "entries", "checkpoints"]) && IsText(ms, "chain_id")
    && ValueNamed(ms, "entries").Some? && ValueNamed(ms, "entries").value.Arr? && ValueNamed(ms, "entries").value.elems != []
    && (forall e <- ValueNamed(ms, "entries").value.elems :: EntryShaped(e))
    && ValueNamed(ms, "checkpoints").Some? && ValueNamed(ms, "checkpoints").value.Arr?
    && forall e <- ValueNamed(ms, "checkpoints").value.elems :: e.Str?
  }

  predicate BundleShaped(ms: seq<Member>) {
    && OnlyNames(ms, ["format", "chains"]) && (ValueNamed(ms, "format").Some? ==> ValueNamed(ms, "format").value.Str?)
    && ValueNamed(ms, "chains").Some? && ValueNamed(ms, "chains").value.Arr? && forall e <- ValueNamed(ms, "chains").value.elems :: ChainShaped(e)
  }

  /** A slot is filled as it must be, or left empty where it may. */
  predicate SlotFilled(kind: F.Kind, ms: seq<Member>, k: nat) {
    match BundleDecode.MemberAt(kind, ms, k)
    case None => k !in BundleMeaning.Needed(kind)
    case Some(v) => BundleMeaning.SlotFits(F.SlotOf(kind, k), v)
  }

  lemma MemberSlot(kind: F.Kind, ms: seq<Member>, m: Member)
    requires DistinctNames(ms) && m in ms && F.IndexOf(kind, m.name).Some?
    ensures var k := F.IndexOf(kind, m.name).value; k < |F.NamesOf(kind)| && BundleDecode.MemberAt(kind, ms, k) == Some(m.value)
  {
    hide F.NamesOf, F.IndexOf, Ascii;
    IndexNamed(kind, m.name);
    LookedUpIs(ms, m);
  }

  lemma SlotMember(kind: F.Kind, ms: seq<Member>, k: nat) returns (m: Member)
    requires k < |F.NamesOf(kind)| && BundleDecode.MemberAt(kind, ms, k).Some?
    ensures m in ms && F.IndexOf(kind, m.name) == Some(k) && BundleDecode.MemberAt(kind, ms, k) == Some(m.value)
  {
    hide F.NamesOf, F.IndexOf, Ascii;
    m :| m in ms && m.name == Ascii(F.NamesOf(kind)[k]) && m.value == BundleDecode.MemberAt(kind, ms, k).value;
    BundleDecode.IndexOfName(kind, k);
  }

  lemma SlotSeen(kind: F.Kind, ms: seq<Member>, k: nat)
    requires DistinctNames(ms) && k < |F.NamesOf(kind)|
    ensures k in F.SeenIn(kind, ms) <==> BundleDecode.MemberAt(kind, ms, k).Some?
  {
    hide F.NamesOf, F.IndexOf, Ascii;
    if BundleDecode.MemberAt(kind, ms, k).Some? { var m := SlotMember(kind, ms, k); }
    if k in F.SeenIn(kind, ms) {
      var m :| m in ms && F.IndexOf(kind, m.name).Some? && F.IndexOf(kind, m.name).value == k;
      MemberSlot(kind, ms, m);
    }
  }

  /** Each defined member may be looked at by its name. */
  lemma FitsSlots(kind: F.Kind, ms: seq<Member>)
    requires DistinctNames(ms) && forall k <- BundleMeaning.Needed(kind) :: k < |F.NamesOf(kind)|
    ensures BundleMeaning.Fits(kind, ms) <==> OnlyNames(ms, F.NamesOf(kind)) && forall k | 0 <= k < |F.NamesOf(kind)| :: SlotFilled(kind, ms, k)
  {
    hide F.NamesOf, F.SlotOf, F.IndexOf, F.SeenIn, BundleMeaning.SlotFits, BundleMeaning.Needed, BundleDecode.MemberAt;
    if BundleMeaning.Fits(kind, ms) {
      forall m | m in ms ensures exists k | 0 <= k < |F.NamesOf(kind)| :: m.name == Ascii(F.NamesOf(kind)[k]) { IndexNamed(kind, m.name); }
      forall k | 0 <= k < |F.NamesOf(kind)| ensures SlotFilled(kind, ms, k) {
        SlotSeen(kind, ms, k);
        if BundleDecode.MemberAt(kind, ms, k).Some? { var m := SlotMember(kind, ms, k); }
      }
    }
    if OnlyNames(ms, F.NamesOf(kind)) && forall k | 0 <= k < |F.NamesOf(kind)| :: SlotFilled(kind, ms, k) {
      forall m | m in ms ensures F.IndexOf(kind, m.name).Some? && BundleMeaning.SlotFits(F.SlotOf(kind, F.IndexOf(kind, m.name).value), m.value) {
        IndexNamed(kind, m.name);
        MemberSlot(kind, ms, m);
        assert SlotFilled(kind, ms, F.IndexOf(kind, m.name).value);
      }
      forall k | k in BundleMeaning.Needed(kind) ensures k in F.SeenIn(kind, ms) {
        SlotSeen(kind, ms, k);
        assert SlotFilled(kind, ms, k);
      }
    }
  }

  lemma IndexNamed(kind: F.Kind, name: Bytes)
    ensures F.IndexOf(kind, name).Some? <==> exists k | 0 <= k < |F.NamesOf(kind)| :: name == Ascii(F.NamesOf(kind)[k])
    ensures F.IndexOf(kind, name).Some? ==>
              F.IndexOf(kind, name).value < |F.NamesOf(kind)| && name == Ascii(F.NamesOf(kind)[F.IndexOf(kind, name).value])
  {
    hide F.NamesOf, Ascii;
    if k :| 0 <= k < |F.NamesOf(kind)| && name == Ascii(F.NamesOf(kind)[k]) { BundleDecode.IndexOfName(kind, k); }
  }

  lemma {:induction false} LookedUpIs(ms: seq<Member>, m: Member)
    requires DistinctNames(ms) && m in ms
    ensures BundleDecode.Lookup(ms, m.name) == Some(m.value)
  {
    var n := |ms| - 1;
    LookedUp(ms, m.name);
    if ms[n] != m {
      assert m in ms[..n];
      var i :| 0 <= i < n && ms[i] == m;
      LookedUpIs(ms[..n], m);
    }
  }

  lemma PairFits(kind: F.Kind, t: Option<Json>)
    requires kind in {F.Signature, F.Disclosed} && (t.Some? ==> !HasDuplicate(t.value))
    ensures (t.Some? ==> BundleMeaning.SlotFits(F.PairValue(kind), t.value)) <==> PairOrNone(t, F.NamesOf(kind)[0], F.NamesOf(kind)[1])
  {
    hide BundleDecode.Lookup, Ascii, BundleMeaning.Fits;
    EntryNames();
    if t.Some? && t.value.Obj? {
      var ms := t.value.members;
      BundleMeaning.NoneInside(t.value);
      FitsSlots(kind, ms);
      assert SlotFilled(kind, ms, 0) <==> IsText(ms, F.NamesOf(kind)[0]);
      assert SlotFilled(kind, ms, 1) <==> IsText(ms, F.NamesOf(kind)[1]);
    }
  }

  lemma ValueInside(ms: seq<Member>, name: string)
    requires !HasDuplicate(Obj(ms)) && ValueNamed(ms, name).Some?
    ensures !HasDuplicate(ValueNamed(ms, name).value)
  {
    hide HasDuplicate, Ascii;
    BundleMeaning.NoneInside(Obj(ms));
  }

  lemma EntryFits(t: Json)
    requires !HasDuplicate(t)
    ensures BundleMeaning.ElemFits(F.EntryElem, t) <==> EntryShaped(t)
  {
    hide BundleDecode.Lookup, Ascii, BundleMeaning.Fits, HasDuplicate, PairOrNone;
    EntryNames();
    if t.Obj? {
      var ms := t.members;
      BundleMeaning.NoneInside(t);
      FitsSlots(F.Entry, ms);
      if ValueNamed(ms, "record_signature").Some? { ValueInside(ms, "record_signature"); }
      if ValueNamed(ms, "disclosed").Some? { ValueInside(ms, "disclosed"); }
      PairSlots(ms);
      TextSlots(ms);
      NineSlots(ms);
      EntryIs(t);
      hide OnlyNames, SlotFilled, IsText, EntryShaped, F.NamesOf, BundleMeaning.SlotFits;
    }
  }

  lemma EntryIs(t: Json)
    requires t.Obj?
    ensures BundleMeaning.ElemFits(F.EntryElem, t) <==> BundleMeaning.Fits(F.Entry, t.members)
    ensures EntryShaped(t) <==>
              (OnlyNames(t.members, F.NamesOf(F.Entry)) && (forall k | 0 <= k < 7 :: IsText(t.members, F.NamesOf(F.Entry)[k]))
               && PairOrNone(ValueNamed(t.members, "record_signature"), "key_id", "signature")
               && PairOrNone(ValueNamed(t.members, "disclosed"), "content", "nonce"))
  {
    hide OnlyNames, IsText, PairOrNone, BundleMeaning.Fits, BundleDecode.Lookup;
    EntryNames();
    var names := F.NamesOf(F.Entry);
    assert (forall k | 0 <= k < 7 :: IsText(t.members, names[k])) <==>
           IsText(t.members, names[0]) && IsText(t.members, names[1]) && IsText(t.members, names[2]) && IsText(t.members, names[3])
           && IsText(t.members, names[4]) && IsText(t.members, names[5]) && IsText(t.members, names[6]);
  }

  lemma NineSlots(ms: seq<Member>)
    ensures |F.NamesOf(F.Entry)| == 9
    ensures (forall k | 0 <= k < 9 :: SlotFilled(F.Entry, ms, k)) <==>
              (forall k | 0 <= k < 7 :: SlotFilled(F.Entry, ms, k)) && SlotFilled(F.Entry, ms, 7) && SlotFilled(F.Entry, ms, 8)
  {
    hide SlotFilled;
    EntryNames();
    if (forall k | 0 <= k < 7 :: SlotFilled(F.Entry, ms, k)) && SlotFilled(F.Entry, ms, 7) && SlotFilled(F.Entry, ms, 8) {
      forall k | 0 <= k < 9 ensures SlotFilled(F.Entry, ms, k) { assert k < 7 || k == 7 || k == 8; }
    }
  }

  lemma TextSlots(ms: seq<Member>)
    ensures forall k | 0 <= k < 7 :: SlotFilled(F.Entry, ms, k) <==> IsText(ms, F.NamesOf(F.Entry)[k])
  {
    hide BundleDecode.Lookup, Ascii;
    EntryNames();
    forall k | 0 <= k < 7 ensures SlotFilled(F.Entry, ms, k) <==> IsText(ms, F.NamesOf(F.Entry)[k]) {
      assert F.SlotOf(F.Entry, k).TextValue? && k in BundleMeaning.Needed(F.Entry);
    }
  }

  lemma PairSlots(ms: seq<Member>)
    requires ValueNamed(ms, "record_signature").Some? ==> !HasDuplicate(ValueNamed(ms, "record_signature").value)
    requires ValueNamed(ms, "disclosed").Some? ==> !HasDuplicate(ValueNamed(ms, "disclosed").value)
    ensures SlotFilled(F.Entry, ms, 7) <==> PairOrNone(ValueNamed(ms, "record_signature"), "key_id", "signature")
    ensures SlotFilled(F.Entry, ms, 8) <==> PairOrNone(ValueNamed(ms, "disclosed"), "content", "nonce")
  {
    hide BundleDecode.Lookup, Ascii, HasDuplicate, PairOrNone, BundleMeaning.SlotFits;
    EntryNames();
    PairFits(F.Signature, ValueNamed(ms, "record_signature"));
    PairFits(F.Disclosed, ValueNamed(ms, "disclosed"));
  }

  lemma ChainFits(t: Json)
    requires !HasDuplicate(t)
    ensures BundleMeaning.ElemFits(F.ChainElem, t) <==> ChainShaped(t)
  {
    hide BundleDecode.Lookup, Ascii, BundleMeaning.Fits, HasDuplicate, EntryShaped, BundleMeaning.ElemFits;
    ElemKinds(t);
    if t.Obj? {
      var ms := t.members;
      BundleMeaning.NoneInside(t);
      FitsSlots(F.Chain, ms);
      assert SlotFilled(F.Chain, ms, 0) <==> IsText(ms, "chain_id");
      assert SlotFilled(F.Chain, ms, 1) <==> ValueNamed(ms, "entries").Some? && BundleMeaning.SlotFits(F.EntriesValue, ValueNamed(ms, "entries").value);
      assert SlotFilled(F.Chain, ms, 2) <==> ValueNamed(ms, "checkpoints").Some? && BundleMeaning.SlotFits(F.CheckpointsValue, ValueNamed(ms, "checkpoints").value);
      if ValueNamed(ms, "entries").Some? {
        ValueInside(ms, "entries");
        ArraysFit(ValueNamed(ms, "entries").value);
      }
      if ValueNamed(ms, "checkpoints").Some? {
        ValueInside(ms, "checkpoints");
        ArraysFit(ValueNamed(ms, "checkpoints").value);
      }
    }
  }

  lemma ElemKinds(t: Json)
    ensures BundleMeaning.ElemFits(F.ChainElem, t) <==> t.Obj? && BundleMeaning.Fits(F.Chain, t.members)
    ensures F.NamesOf(F.Chain) == ["chain_id", "entries", "checkpoints"] && F.NamesOf(F.Bundle) == ["format", "chains"]
  {
    hide BundleMeaning.Fits;
  }

  /** Arrays of entries and of checkpoint texts. */
  lemma ArraysFit(t: Json)
    requires !HasDuplicate(t)
    ensures BundleMeaning.SlotFits(F.EntriesValue, t) <==> t.Arr? && t.elems != [] && forall e <- t.elems :: EntryShaped(e)
    ensures BundleMeaning.SlotFits(F.CheckpointsValue, t) <==> t.Arr? && forall e <- t.elems :: e.Str?
  {
    hide HasDuplicate, EntryShaped, BundleMeaning.Fits;
    if t.Arr? {
      BundleMeaning.NoneInside(t);
      forall e | e in t.elems ensures BundleMeaning.ElemFits(F.EntryElem, e) <==> EntryShaped(e) { EntryFits(e); }
    }
  }

  /** The structure asked of a bundle, by the names and the types the format gives. */
  lemma BundleFits(ms: seq<Member>)
    requires !HasDuplicate(Obj(ms))
    ensures BundleMeaning.Fits(F.Bundle, ms) <==> BundleShaped(ms)
  {
    hide BundleDecode.Lookup, Ascii, BundleMeaning.Fits, HasDuplicate, ChainShaped, BundleMeaning.ElemFits;
    ElemKinds(Obj(ms));
    BundleMeaning.NoneInside(Obj(ms));
    FitsSlots(F.Bundle, ms);
    assert SlotFilled(F.Bundle, ms, 0) <==> (ValueNamed(ms, "format").Some? ==> ValueNamed(ms, "format").value.Str?);
    if ValueNamed(ms, "chains").Some? {
      var t := ValueNamed(ms, "chains").value;
      ValueInside(ms, "chains");
      if t.Arr? {
        BundleMeaning.NoneInside(t);
        forall e | e in t.elems ensures BundleMeaning.ElemFits(F.ChainElem, e) <==> ChainShaped(e) { ChainFits(e); }
      }
    }
    assert SlotFilled(F.Bundle, ms, 1) <==> ValueNamed(ms, "chains").Some? && BundleMeaning.SlotFits(F.ChainsValue, ValueNamed(ms, "chains").value);
  }
}
