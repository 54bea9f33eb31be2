/** The export itself: chains written one after another through a counting writer. */
module BundleExporter {
  import opened Basics
  import opened Timestamps
  import opened JsonText
  import opened JsonTree
  import F = Findings
  import opened Bundles
  import opened BundleDecode
  import opened Encodings
  import opened Printer
  import opened ExportTree
  import opened Exports
  import opened Pieces

  datatype ExportError = Empty | TooLarge | Unrepresentable | Disclosure | Selection | WriteFailed

  /** What a destination with so much room takes of a text. */
  function Taken(room: Option<nat>, text: Bytes): Bytes {
    if room.Some? && |text| > room.value then text[..room.value] else text
  }

  predicate Overflows(room: Option<nat>, text: Bytes) {
    room.Some? && |text| > room.value
  }

  /** Writes, counts bytes, and writes nothing after the first error. */
  class CountingWriter {
    const room: Option<nat>
    var out: Bytes
    var n: nat
    var failed: bool
    /** Everything it was asked to write. */
    ghost var meant: Bytes

    ghost predicate Valid()
      reads this
    {
      out == Taken(room, meant) && n == |out| && failed == Overflows(room, meant)
    }

    constructor (room: Option<nat>)
      ensures Valid() && this.room == room && meant == []
    {
      this.room := room;
      out, n, failed, meant := [], 0, false, [];
    }

    method Str(s: Bytes)
      requires Valid()
      modifies this
      ensures Valid() && meant == old(meant) + s
    {
      meant := meant + s;
      if failed { return; }
      var k := if room.Some? && n + |s| > room.value then room.value - n else |s|;
      assert (old(meant) + s)[..n + k] == old(meant) + s[..k];
      out := out + s[..k];
      n := n + k;
      failed := k < |s|;
    }

    method Json(s: Bytes)
      requires Valid()
      modifies this
      ensures Valid() && meant == old(meant) + Quoted(s)
    {
      Str(Quoted(s));
    }
  }

  function CountOf(found: map<Bytes, nat>, id: Bytes): nat {
    if id in found then found[id] else 0
  }

  /** The live events of the rows from i to j that a listed id matched are counted. */
  ghost predicate Matched(p: Policy, w: World, h: Holding, i: nat, j: nat, was: map<Bytes, nat>, now: map<Bytes, nat>)
    requires i <= j <= |h.rows|
  {
    forall id :: CountOf(now, id) - CountOf(was, id) == if IsListed(p, id) then LiveCopies(w, h, id, j) - LiveCopies(w, h, id, i) else 0
  }

  lemma MatchedOn(p: Policy, w: World, h: Holding, i: nat, j: nat, a: map<Bytes, nat>, b: map<Bytes, nat>, c: map<Bytes, nat>)
    requires i <= j <= |h.rows| && Matched(p, w, h, 0, i, a, b) && Matched(p, w, h, i, j, b, c)
    ensures Matched(p, w, h, 0, j, a, c)
  {
    hide CountOf, IsListed, LiveCopies;
  }

  /** One row more: what is counted is its own id, if it is listed and live. */
  lemma MatchedOne(p: Policy, w: World, h: Holding, i: nat, was: map<Bytes, nat>, now: map<Bytes, nat>)
    requires i < |h.rows|
    requires var id := h.rows[i].entryID;
             now == if IsListed(p, id) && Live(w, h, i) then was[id := CountOf(was, id) + 1] else was
    ensures Matched(p, w, h, i, i + 1, was, now)
  {
    hide Live, IsListed;
  }

  lemma EntryJoined(p: Policy, w: World, h: Holding, i: nat, before: Bytes)
    requires i < |h.rows|
    ensures var e := EntryText(p, w, h, i);
            var items := FieldItems(FieldsOfRow(h.rows[i])) + SignatureItems(SignatureText(h, h.rows[i])) + DisclosedItems(e.disclosed);
            InRange(F.Entry, items) && before + Run(F.Entry, items) + [CLOSE_OBJECT] == before + Print(EntryTree(e))
  {
    hide Run, InRange, PairTree, Print, EntryTree, SignatureText, DisclosedText, FieldsOfRow;
    var e := EntryText(p, w, h, i);
    EntryPieces(e);
    assert FieldItems(e.fields) + SignatureItems(e.sig) + DisclosedItems(e.disclosed) == EntryItems(e);
    hide EntryItems;
    assert before + Run(F.Entry, EntryItems(e)) + [CLOSE_OBJECT] == before + (Run(F.Entry, EntryItems(e)) + [CLOSE_OBJECT]);
  }

  /** One entry more in the array. */
  lemma EntriesStep(p: Policy, w: World, h: Holding, i: nat)
    requires i < |h.rows|
    ensures var trees := EntryTrees(EntryTexts(p, w, h, |h.rows|));
            && PrintElems(trees[..i + 1]) == PrintElems(trees[..i]) + (if i == 0 then [] else [COMMA]) + Print(EntryTree(EntryText(p, w, h, i)))
            && |PrintElems(trees[..i + 1])| <= |PrintElems(trees)|
  {
    hide Print, PrintElems, EntryTree, EntryText;
    var trees := EntryTrees(EntryTexts(p, w, h, |h.rows|));
    assert trees[..i + 1] == trees[..i] + [EntryTree(EntryText(p, w, h, i))];
    ElemsMore(trees[..i], EntryTree(EntryText(p, w, h, i)));
    ElemsLonger(trees, i + 1);
  }

  /** All the text of a chain's entries. */
  ghost function EntriesPrinted(p: Policy, w: World, h: Holding, n: nat): Bytes
    requires n <= |h.rows|
  {
    PrintElems(EntryTrees(EntryTexts(p, w, h, |h.rows|))[..n])
  }

  class Exporter {
    const w: World
    const lim: F.Limits
    const policy: Policy
    const cw: CountingWriter
    var entries: nat
    var checkpoints: nat
    /** Listed ids, and the live events each matched. */
    var found: map<Bytes, nat>

    constructor (w: World, lim: F.Limits, policy: Policy, cw: CountingWriter)
      ensures this.w == w && this.lim == lim && this.policy == policy && this.cw == cw
      ensures entries == checkpoints == 0 && found == map[]
    {
      this.w, this.lim, this.policy, this.cw := w, lim, policy, cw;
      entries, checkpoints, found := 0, 0, map[];
    }

    /** One member whose value is a string. */
    method Member(open: byte, kind: F.Kind, k: nat, s: Bytes, ghost before: Bytes, ghost items: Items)
      requires cw.Valid() && InRange(kind, items) && k < |F.NamesOf(kind)| && open == (if items == [] then OPEN_OBJECT else COMMA)
      requires cw.meant == before + Run(kind, items)
      modifies cw
      ensures InRange(kind, items + [(k, Str(s))])
      ensures cw.Valid() && cw.meant == before + Run(kind, items + [(k, Str(s))])
    {
      hide Run, Label, Quoted, InRange, F.NamesOf;
      RunMore(kind, items, k, JsonTree.Str(s));
      StrIs(s);
      hide Print;
      cw.Str(Label(open, kind, k));
      cw.Json(s);
    }

    /** The seven strings of an entry. */
    method Fields(r: Row, ghost before: Bytes)
      requires cw.Valid() && cw.meant == before
      modifies cw
      ensures InRange(F.Entry, FieldItems(FieldsOfRow(r)))
      ensures cw.Valid() && cw.meant == before + Run(F.Entry, FieldItems(FieldsOfRow(r)))
    {
      NineNames();
      NothingRun(F.Entry);
      hide Run, F.NamesOf, InRange, FormatInt, FormatTimestamp;
      assert before + [] == before;
      ghost var items := FieldItems(FieldsOfRow(r));
      assert items[..1] == [] + [items[0]] && items[..2] == items[..1] + [items[1]] && items[..3] == items[..2] + [items[2]];
      assert items[..4] == items[..3] + [items[3]] && items[..5] == items[..4] + [items[4]] && items[..6] == items[..5] + [items[5]];
      assert items == items[..6] + [items[6]];
      Member(OPEN_OBJECT, F.Entry, 0, r.entryID, before, []);
      Member(COMMA, F.Entry, 1, r.entryType, before, items[..1]);
      Member(COMMA, F.Entry, 2, Ascii(FormatInt(r.seqNo as int)), before, items[..2]);
      Member(COMMA, F.Entry, 3, r.previousHash, before, items[..3]);
      Member(COMMA, F.Entry, 4, Ascii(FormatTimestamp(r.timestamp)), before, items[..4]);
      Member(COMMA, F.Entry, 5, r.contentHash, before, items[..5]);
      Member(COMMA, F.Entry, 6, r.chainHash, before, items[..6]);
    }

    /** A member whose value is an object of two strings. */
    method PairMember(k: nat, kind: F.Kind, p: F.Pair, ghost before: Bytes, ghost items: Items)
      requires kind in {F.Signature, F.Disclosed} && k < 9 && items != [] && InRange(F.Entry, items)
      requires cw.Valid() && cw.meant == before + Run(F.Entry, items)
      modifies cw
      ensures InRange(F.Entry, items + [(k, PairTree(kind, p))])
      ensures cw.Valid() && cw.meant == before + Run(F.Entry, items + [(k, PairTree(kind, p))])
    {
      NineNames();
      TwoNames(kind);
      PairPieces(kind, p);
      hide Run, Label, F.NamesOf, InRange, Print, PairTree;
      RunMore(F.Entry, items, k, PairTree(kind, p));
      NothingRun(kind);
      cw.Str(Label(COMMA, F.Entry, k));
      ghost var sofar := cw.meant;
      assert sofar + [] == sofar;
      Member(OPEN_OBJECT, kind, 0, p.a, sofar, []);
      assert [] + [(0, JsonTree.Str(p.a))] == [(0, JsonTree.Str(p.a))];
      Member(COMMA, kind, 1, p.b, sofar, [(0, JsonTree.Str(p.a))]);
      assert [(0, JsonTree.Str(p.a))] + [(1, JsonTree.Str(p.b))] == PairItems(p);
      cw.Str([CLOSE_OBJECT]);
      Grouped(before, Run(F.Entry, items), Label(COMMA, F.Entry, k), Run(kind, PairItems(p)));
    }

    /** The stored signature row, split at its storage boundary, whatever its length. */
    method Signature(h: Holding, r: Row, ghost before: Bytes, ghost items: Items)
      requires items != [] && InRange(F.Entry, items) && cw.Valid() && cw.meant == before + Run(F.Entry, items)
      modifies cw
      ensures InRange(F.Entry, items + SignatureItems(SignatureText(h, r)))
      ensures cw.Valid() && cw.meant == before + Run(F.Entry, items + SignatureItems(SignatureText(h, r)))
    {
      hide Run, InRange, PairTree;
      assert items + [] == items;
      if r.entryID !in h.signatures { return; }
      var raw := h.signatures[r.entryID];
      var cut := if |raw| < KEY_ID_SIZE then |raw| else KEY_ID_SIZE;
      PairMember(7, F.Signature, F.Pair(Hex(raw[..cut]), Base64(raw[cut..])), before, items);
    }

    /** An event's content and nonce, when they are to be disclosed, may be, and open what the chain holds. */
    method Disclosure(h: Holding, i: nat, erasedBefore: int, ghost before: Bytes, ghost items: Items) returns (err: Option<ExportError>)
      requires i < |h.rows| && erasedBefore == ErasedBefore(w, h.rows, |h.rows|)
      requires items != [] && InRange(F.Entry, items) && cw.Valid() && cw.meant == before + Run(F.Entry, items)
      modifies cw, this`found
      ensures cw.Valid() && (err == None <==> EntryAllowed(policy, w, h, i))
      ensures err == None ==> InRange(F.Entry, items + DisclosedItems(DisclosedText(policy, w, h, i)))
      ensures err == None ==> cw.meant == before + Run(F.Entry, items + DisclosedItems(DisclosedText(policy, w, h, i)))
      ensures err == None ==> Matched(policy, w, h, i, i + 1, old(found), found)
      ensures err in {None, Some(ExportError.Disclosure), Some(Unrepresentable)}
      ensures err == Some(Unrepresentable) ==> Discloses(policy, w, h, i) && !Openable(w, h, h.rows[i])
    {
      hide Run, InRange, PairTree, ErasedBefore;
      assert items + [] == items;
      hide Matched, Live;
      MatchedOne(policy, w, h, i, found, if IsListed(policy, h.rows[i].entryID) && Live(w, h, i) then
                   found[h.rows[i].entryID := CountOf(found, h.rows[i].entryID) + 1] else found);
      LiveIs(w, h, i);
      hide CountOf;
      var r := h.rows[i];
      var listed := IsListed(policy, r.entryID);
      if Latin(r.entryType) != EVENT || i == erasedBefore {
        return if listed then Some(ExportError.Disclosure) else None;
      }
      var want := policy.All? || listed;
      var content, nonce, tooBig := Content(h, r.entryID), Nonce(h, r.entryID), TooBig(h, r.entryID);
      if i < erasedBefore || (h.pending && want) {
        return if listed then Some(ExportError.Disclosure) else None;
      }
      if !want { return None; }
      if listed { found := found[r.entryID := CountOf(found, r.entryID) + 1]; }
      if tooBig || content == None || nonce == None || |nonce.value| != NONCE_SIZE
         || !w.commits(Latin(r.contentHash), Latin(Hex(nonce.value)), content.value)
      {
        return Some(Unrepresentable);
      }
      PairMember(8, F.Disclosed, F.Pair(Base64(content.value), Hex(nonce.value)), before, items);
      err := None;
    }

    /** One entry, whole. */
    method Entry(h: Holding, i: nat, erasedBefore: int) returns (err: Option<ExportError>)
      requires i < |h.rows| && erasedBefore == ErasedBefore(w, h.rows, |h.rows|) && cw.Valid()
      modifies cw, this`found
      ensures cw.Valid() && (err == None <==> EntryAllowed(policy, w, h, i))
      ensures err == None ==> cw.meant == old(cw.meant) + Print(EntryTree(EntryText(policy, w, h, i)))
      ensures err == None ==> Matched(policy, w, h, i, i + 1, old(found), found)
      ensures err in {None, Some(ExportError.Disclosure), Some(Unrepresentable)}
      ensures err == Some(Unrepresentable) ==> Discloses(policy, w, h, i) && !Openable(w, h, h.rows[i])
    {
      hide Run, InRange, PairTree, ErasedBefore, EntryAllowed, Live, Discloses, Print, EntryTree, Matched, SignatureText, DisclosedText, FieldsOfRow, Openable;
      ghost var before := cw.meant;
      ghost var items := FieldItems(FieldsOfRow(h.rows[i]));
      Fields(h.rows[i], before);
      Signature(h, h.rows[i], before, items);
      err := Disclosure(h, i, erasedBefore, before, items + SignatureItems(SignatureText(h, h.rows[i])));
      if err.Some? { return; }
      cw.Str([CLOSE_OBJECT]);
      EntryJoined(policy, w, h, i, before);
    }

    /** The entries, and after each the byte limit. */
    method Entries(h: Holding, erasedBefore: int) returns (err: Option<ExportError>)
      requires erasedBefore == ErasedBefore(w, h.rows, |h.rows|) && cw.Valid()
      modifies cw, this`found
      ensures cw.Valid() && err in {None, Some(ExportError.Disclosure), Some(Unrepresentable), Some(TooLarge)}
      ensures err == None ==> forall i | 0 <= i < |h.rows| :: EntryAllowed(policy, w, h, i)
      ensures err == None ==> cw.meant == old(cw.meant) + EntriesPrinted(policy, w, h, |h.rows|)
      ensures err == None ==> Matched(policy, w, h, 0, |h.rows|, old(found), found)
      ensures err in {Some(ExportError.Disclosure), Some(Unrepresentable)} ==> exists i | 0 <= i < |h.rows| :: !EntryAllowed(policy, w, h, i)
      ensures err == Some(TooLarge) ==> |old(cw.meant)| + |EntriesPrinted(policy, w, h, |h.rows|)| > lim.bundleBytes
    {
      hide ErasedBefore, EntryAllowed, Live, Discloses, Print, EntryTree, EntryText, Openable, EntriesPrinted, Matched, Taken;
      ghost var before := cw.meant;
      NothingPrinted(policy, w, h, found, before);
      var i := 0;
      while i < |h.rows|
        invariant 0 <= i <= |h.rows| && cw.Valid()
        invariant forall j | 0 <= j < i :: EntryAllowed(policy, w, h, j)
        invariant cw.meant == before + EntriesPrinted(policy, w, h, i)
        invariant Matched(policy, w, h, 0, i, old(found), found)
      {
        ghost var was := found;
        if i > 0 { cw.Str([COMMA]); }
        err := Entry(h, i, erasedBefore);
        if err.Some? { return; }
        EntriesOn(policy, w, h, i, before);
        MatchedOn(policy, w, h, i, i + 1, old(found), was, found);
        i := i + 1;
        WriterCounts(cw);
        if cw.n > lim.bundleBytes { return Some(TooLarge); }
      }
      err := None;
    }

    /** A chain's checkpoint texts, exactly, in the order of their numbers. */
    method ReadAnchors(anchors: Option<seq<AnchorFile>>, maxCount: int, maxBytes: int) returns (err: Option<ExportError>, texts: seq<Bytes>)
      ensures err == None ==> AnchorsAllowed(anchors) && texts == AnchorTexts(anchors) && |texts| <= maxCount
      ensures err in {None, Some(Unrepresentable), Some(TooLarge)}
      ensures err == Some(Unrepresentable) ==> !AnchorsAllowed(anchors)
      ensures err == Some(TooLarge) && AnchorsAllowed(anchors) ==>
                |anchors.value| > maxCount || |PrintElems(TextTrees(AnchorTexts(anchors)))| > maxBytes
    {
      texts := [];
      if anchors.None? { return Some(Unrepresentable), []; }
      var files := anchors.value;
      AnchorsRefused(anchors);
      hide PrintElems, ValidUtf8, Print, AnchorsAllowed, AnchorTexts, TotalLength, TextTrees;
      assert TotalLength([]) == 0 by { NoLength(); }
      if |files| > maxCount { return Some(TooLarge), []; }
      var total := 0;
      var i := 0;
      while i < |files|
        invariant 0 <= i <= |files| && |texts| == i && total == TotalLength(texts)
        invariant FilesHold(anchors, texts)
      {
        if files[i].number != i + 1 || files[i].text.None? || !ValidUtf8(files[i].text.value) { return Some(Unrepresentable), []; }
        var raw := files[i].text.value;
        total := total + |raw|;
        TotalMore(texts, raw);
        texts := texts + [raw];
        i := i + 1;
        if total > maxBytes {
          if AnchorsAllowed(anchors) { AnchorsLonger(anchors, texts); }
          return Some(TooLarge), [];
        }
      }
      AnchorsRead(anchors, texts);
      err := None;
    }

    /** The checkpoint texts, and after each the byte limit. */
    method Texts(ts: seq<Bytes>) returns (err: Option<ExportError>)
      requires cw.Valid()
      modifies cw
      ensures cw.Valid() && err in {None, Some(TooLarge)}
      ensures err == None ==> cw.meant == old(cw.meant) + PrintElems(TextTrees(ts))
      ensures err == Some(TooLarge) ==> |old(cw.meant)| + |PrintElems(TextTrees(ts))| > lim.bundleBytes
    {
      hide PrintElems, Quoted, TextTrees, TextsPrinted, Taken, Overflows;
      ghost var before := cw.meant;
      TextsNone(before, ts);
      var i := 0;
      while i < |ts|
        invariant 0 <= i <= |ts| && cw.Valid() && cw.meant == TextsPrinted(before, ts, i)
      {
        TextsOn(before, ts, i);
        if i > 0 { cw.Str([COMMA]); }
        cw.Json(ts[i]);
        i := i + 1;
        WriterCounts(cw);
        if cw.n > lim.bundleBytes { return Some(TooLarge); }
      }
      err := None;
    }

    /** One chain, whole, or the first thing that forbids it. */
    method Chain(c: Selected) returns (err: Option<ExportError>)
      requires cw.Valid()
      modifies cw, this`entries, this`checkpoints, this`found
      ensures cw.Valid()
      ensures err == None ==> ChainAllowed(policy, w, c) && cw.meant == old(cw.meant) + ChainPrinted(policy, w, c)
      ensures err == None ==> entries == old(entries) + |c.held.rows| <= lim.entries
      ensures err == None ==> checkpoints == old(checkpoints) + |c.held.anchors.value| <= lim.checkpoints
      ensures err == None ==> Matched(policy, w, c.held, 0, |c.held.rows|, old(found), found)
      ensures err == Some(Selection) ==> !ChainIdOK(Latin(c.id))
      ensures err == Some(Empty) ==> c.held.rows == []
      ensures err.Some? && err != Some(TooLarge) ==> !ChainAllowed(policy, w, c)
      ensures err == Some(TooLarge) && ChainAllowed(policy, w, c) ==>
                || old(entries) + |c.held.rows| > lim.entries
                || old(checkpoints) + |c.held.anchors.value| > lim.checkpoints
                || |old(cw.meant)| + |ChainPrinted(policy, w, c)| > lim.bundleBytes
    {
      hide ErasedBefore, EntryAllowed, Matched, Taken, EntriesPrinted, ChainPrinted, PrintElems, TextTrees, ChainIdOK, Representable, Quoted, Label,
           AnchorsAllowed;
      var h := c.held;
      if !ChainIdOK(Latin(c.id)) { return Some(Selection); }
      if h.damagedSignatures { return Some(Unrepresentable); }
      if entries + |h.rows| > lim.entries { return Some(TooLarge); }
      if h.rows == [] { return Some(Empty); }
      RepresentableAre(h.rows);
      for i := 0 to |h.rows|
        invariant forall j | 0 <= j < i :: Representable(h.rows[j])
      {
        var year := FieldsOf(h.rows[i].timestamp).date.year;
        if h.rows[i].format != FORMAT_V3 || year < 1 || year > 9999 { return Some(Unrepresentable); }
      }
      entries := entries + |h.rows|;
      WriterCounts(cw);
      var texts;
      err, texts := ReadAnchors(h.anchors, lim.checkpoints - checkpoints, lim.bundleBytes - cw.n);
      ChainLengths(policy, w, c);
      if err.Some? { return; }
      checkpoints := checkpoints + |texts|;
      var erasedBefore := ErasedBefore(w, h.rows, |h.rows|);
      ghost var before := cw.meant;
      NineNames();
      cw.Str(Label(OPEN_OBJECT, F.Chain, 0));
      cw.Json(c.id);
      cw.Str(Label(COMMA, F.Chain, 1) + [OPEN_ARRAY]);
      assert cw.meant == before + ChainHead(c.id);
      err := Entries(h, erasedBefore);
      if err.Some? { return; }
      assert ChainAllowed(policy, w, c);
      cw.Str(ChainMiddle());
      err := Texts(texts);
      if err.Some? { return; }
      cw.Str(TAIL);
      ChainJoined(policy, w, c, before);
      WriterCounts(cw);
      if cw.n > lim.bundleBytes { err := Some(TooLarge); }
    }

    /** The chains, and after each the writer's error and the byte limit. */
    method Chains(cs: seq<Selected>) returns (err: Option<ExportError>)
      requires cw.Valid() && cw.meant == BundleHead() && entries == checkpoints == 0 && found == map[]
      modifies cw, this`entries, this`checkpoints, this`found
      ensures cw.Valid()
      ensures err == None ==> AllAllowed(policy, w, cs, |cs|) && cw.meant == SoFar(policy, w, cs, |cs|) && WithinCountsSoFar(policy, w, lim, cs, |cs|)
      ensures err == None ==> forall id :: IsListed(policy, id) ==> CountOf(found, id) == Matches(w, cs, id)
      ensures err == Some(Selection) ==> exists c <- cs :: !ChainIdOK(Latin(c.id))
      ensures err == Some(Empty) ==> exists c <- cs :: c.held.rows == []
      ensures err == Some(ExportError.Disclosure) ==> !AllAllowed(policy, w, cs, |cs|)
      ensures err.Some? ==> !(AllAllowed(policy, w, cs, |cs|) && WithinCountsSoFar(policy, w, lim, cs, |cs|)
                              && |SoFar(policy, w, cs, |cs|)| <= lim.bundleBytes && !Overflows(cw.room, SoFar(policy, w, cs, |cs|)))
    {
      hide ChainAllowed, ChainPrinted, AllAllowed, SoFar, EntriesSoFar, CheckpointsSoFar, Matched, BundleHead, ChainIdOK, Taken, Matches, CountOf;
      NothingSoFar(policy, w, lim, cs);
      var i := 0;
      while i < |cs|
        invariant 0 <= i <= |cs| && cw.Valid()
        invariant AllAllowed(policy, w, cs, i) && cw.meant == SoFar(policy, w, cs, i) && WithinCountsSoFar(policy, w, lim, cs, i)
        invariant entries == EntriesSoFar(policy, w, cs, i) && checkpoints == CheckpointsSoFar(policy, w, cs, i)
        invariant forall id :: IsListed(policy, id) ==> CountOf(found, id) == Matches(w, cs[..i], id)
      {
        ghost var was := found;
        if i > 0 { cw.Str([COMMA]); }
        err := Chain(cs[i]);
        SoFarOn(policy, w, lim, cs, i);
        AllowedPrefix(policy, w, cs, i + 1);
        if AllAllowed(policy, w, cs, i + 1) { SoFarBelow(policy, w, lim, cs, i + 1); }
        if err.Some? { return; }
        MatchesOn(policy, w, cs, i, was, found);
        i := i + 1;
        WriterCounts(cw);
        if cw.failed { return Some(WriteFailed); }
        if cw.n > lim.bundleBytes { return Some(TooLarge); }
      }
      assert cs[..i] == cs;
      err := None;
    }

    /** Export: the bundle, or the reason there is none. */
    method Export(cs: seq<Selected>) returns (err: Option<ExportError>)
      requires cw.Valid() && cw.meant == [] && entries == checkpoints == 0 && found == map[]
      modifies cw, this`entries, this`checkpoints, this`found
      ensures err == None <==> Exportable(policy, w, lim, cs) && !Overflows(cw.room, Print(BundleTree(TextsOf(policy, w, cs))))
      ensures err == None ==> cw.out == Print(BundleTree(TextsOf(policy, w, cs)))
      ensures err == Some(Selection) ==> exists c <- cs :: !ChainIdOK(Latin(c.id))
      ensures err == Some(Empty) ==> cs == [] || exists c <- cs :: c.held.rows == []
      ensures err == Some(ExportError.Disclosure) && (forall c <- cs :: ChainAllowed(policy, w, c)) ==> !ListedOnce(policy, w, cs)
    {
      hide ChainAllowed, AllAllowed, SoFar, WithinCountsSoFar, BundleHead, ChainIdOK, Matches, CountOf, Print, BundleTree, WithinCounts, ListedOnce, IsListed;
      ExportableIs(policy, w, lim, cs);
      if cs == [] { return Some(Empty); }
      if |cs| > lim.chains { return Some(TooLarge); }
      NineNames();
      cw.Str(Label(OPEN_OBJECT, F.Bundle, 0));
      cw.Json(Ascii(F.FORMAT_ID));
      cw.Str(Label(COMMA, F.Bundle, 1) + [OPEN_ARRAY]);
      HeadJoined();
      err := Chains(cs);
      if err.Some? { return; }
      cw.Str(TAIL);
      if cw.failed { return Some(WriteFailed); }
      if cw.n > lim.bundleBytes { return Some(TooLarge); }
      var once := FoundOnce(cs);
      err := if once then None else Some(ExportError.Disclosure);
    }

    /** Whether every listed entry was met exactly once. */
    method FoundOnce(cs: seq<Selected>) returns (once: bool)
      requires forall id :: IsListed(policy, id) ==> CountOf(found, id) == Matches(w, cs, id)
      ensures once <==> ListedOnce(policy, w, cs)
    {
      hide Matches, CountOf;
      if policy.Listed? {
        for i := 0 to |policy.ids|
          invariant forall j | 0 <= j < i :: Matches(w, cs, policy.ids[j]) == 1
        {
          assert IsListed(policy, policy.ids[i]);
          if CountOf(found, policy.ids[i]) != 1 { return false; }
        }
      }
      once := true;
    }
  }

  // ---- What is written before chain i ----

  ghost predicate AllAllowed(p: Policy, w: World, cs: seq<Selected>, i: nat)
    requires i <= |cs|
  {
    forall c <- cs[..i] :: ChainAllowed(p, w, c)
  }

  ghost function SoFar(p: Policy, w: World, cs: seq<Selected>, i: nat): Bytes
    requires i <= |cs| && AllAllowed(p, w, cs, i)
  {
    BundleHead() + PrintElems(ChainTrees(TextsOf(p, w, cs[..i])))
  }

  ghost function EntriesSoFar(p: Policy, w: World, cs: seq<Selected>, i: nat): nat
    requires i <= |cs| && AllAllowed(p, w, cs, i)
  {
    Total(TextsOf(p, w, cs[..i]), true)
  }

  ghost function CheckpointsSoFar(p: Policy, w: World, cs: seq<Selected>, i: nat): nat
    requires i <= |cs| && AllAllowed(p, w, cs, i)
  {
    Total(TextsOf(p, w, cs[..i]), false)
  }

  ghost predicate WithinCountsSoFar(p: Policy, w: World, lim: F.Limits, cs: seq<Selected>, i: nat)
    requires i <= |cs| && AllAllowed(p, w, cs, i)
  {
    EntriesSoFar(p, w, cs, i) <= lim.entries && CheckpointsSoFar(p, w, cs, i) <= lim.checkpoints
  }

  lemma NothingSoFar(p: Policy, w: World, lim: F.Limits, cs: seq<Selected>)
    ensures AllAllowed(p, w, cs, 0) && SoFar(p, w, cs, 0) == BundleHead() && WithinCountsSoFar(p, w, lim, cs, 0)
    ensures EntriesSoFar(p, w, cs, 0) == CheckpointsSoFar(p, w, cs, 0) == 0
    ensures forall id :: Matches(w, cs[..0], id) == 0 && CountOf(map[], id) == 0
  {
    hide ChainAllowed, BundleHead, TextOfChain, ChainTree;
    NoMembers();
    assert cs[..0] == [];
    assert ChainTrees(TextsOf(p, w, [])) == [];
  }

  lemma TextsMore(p: Policy, w: World, cs: seq<Selected>, i: nat)
    requires i < |cs| && AllAllowed(p, w, cs, i) && ChainAllowed(p, w, cs[i])
    ensures AllAllowed(p, w, cs, i + 1)
    ensures TextsOf(p, w, cs[..i + 1]) == TextsOf(p, w, cs[..i]) + [TextOfChain(p, w, cs[i])]
    ensures |TextOfChain(p, w, cs[i]).checkpoints| == |cs[i].held.anchors.value| && |TextOfChain(p, w, cs[i]).entries| == |cs[i].held.rows|
  {
    hide ChainAllowed, EntryText;
    assert cs[..i + 1] == cs[..i] + [cs[i]];
    AllowedAnchors(p, w, cs[i]);
  }

  lemma TotalOn(ts: seq<ChainText>, t: ChainText, entries: bool)
    ensures Total(ts + [t], entries) == Total(ts, entries) + if entries then |t.entries| else |t.checkpoints|
  {
    assert (ts + [t])[..|ts|] == ts;
  }

  /** One chain more. */
  lemma SoFarOn(p: Policy, w: World, lim: F.Limits, cs: seq<Selected>, i: nat)
    requires i < |cs| && AllAllowed(p, w, cs, i)
    ensures AllAllowed(p, w, cs, i + 1) <==> ChainAllowed(p, w, cs[i])
    ensures ChainAllowed(p, w, cs[i]) ==>
              && cs[i].held.anchors.Some?
              && SoFar(p, w, cs, i + 1) == (if i == 0 then SoFar(p, w, cs, i) else SoFar(p, w, cs, i) + [COMMA]) + ChainPrinted(p, w, cs[i])
              && EntriesSoFar(p, w, cs, i + 1) == EntriesSoFar(p, w, cs, i) + |cs[i].held.rows|
              && CheckpointsSoFar(p, w, cs, i + 1) == CheckpointsSoFar(p, w, cs, i) + |cs[i].held.anchors.value|
  {
    hide ChainAllowed, BundleHead, TextOfChain, ChainTree, Print, PrintElems, Total;
    assert cs[..i + 1] == cs[..i] + [cs[i]];
    if ChainAllowed(p, w, cs[i]) {
      AllowedAnchors(p, w, cs[i]);
      TextsMore(p, w, cs, i);
      var ts, t := TextsOf(p, w, cs[..i]), TextOfChain(p, w, cs[i]);
      TotalOn(ts, t, true);
      TotalOn(ts, t, false);
      assert ChainTrees(ts + [t]) == ChainTrees(ts) + [ChainTree(t)];
      ElemsMore(ChainTrees(ts), ChainTree(t));
    }
  }

  lemma AllowedPrefix(p: Policy, w: World, cs: seq<Selected>, i: nat)
    requires i <= |cs|
    ensures AllAllowed(p, w, cs, |cs|) ==> AllAllowed(p, w, cs, i)
  {
    assert forall c <- cs[..i] :: c in cs;
    assert cs[..|cs|] == cs;
  }

  /** What is written of some chains is not longer than what is written of all. */
  lemma {:induction false} SoFarBelow(p: Policy, w: World, lim: F.Limits, cs: seq<Selected>, i: nat)
    requires i <= |cs| && AllAllowed(p, w, cs, i)
    ensures AllAllowed(p, w, cs, |cs|) ==>
              && |SoFar(p, w, cs, i)| <= |SoFar(p, w, cs, |cs|)|
              && EntriesSoFar(p, w, cs, i) <= EntriesSoFar(p, w, cs, |cs|) && CheckpointsSoFar(p, w, cs, i) <= CheckpointsSoFar(p, w, cs, |cs|)
    decreases |cs| - i
  {
    hide ChainAllowed, SoFar, EntriesSoFar, CheckpointsSoFar, ChainPrinted;
    if i < |cs| && AllAllowed(p, w, cs, |cs|) {
      assert cs[..|cs|] == cs;
      assert AllAllowed(p, w, cs, i + 1);
      SoFarOn(p, w, lim, cs, i);
      SoFarBelow(p, w, lim, cs, i + 1);
    }
  }

  lemma MatchesOn(p: Policy, w: World, cs: seq<Selected>, i: nat, was: map<Bytes, nat>, now: map<Bytes, nat>)
    requires i < |cs| && Matched(p, w, cs[i].held, 0, |cs[i].held.rows|, was, now)
    requires forall id :: IsListed(p, id) ==> CountOf(was, id) == Matches(w, cs[..i], id)
    ensures forall id :: IsListed(p, id) ==> CountOf(now, id) == Matches(w, cs[..i + 1], id)
  {
    hide CountOf, Live, IsListed;
    assert cs[..i + 1][..i] == cs[..i];
  }

  lemma HeadJoined()
    ensures |F.NamesOf(F.Bundle)| == 2
    ensures [] + Label(OPEN_OBJECT, F.Bundle, 0) + Quoted(Ascii(F.FORMAT_ID)) + (Label(COMMA, F.Bundle, 1) + [OPEN_ARRAY]) == BundleHead()
  {
    NineNames();
    hide F.NamesOf, Label, Quoted;
  }

  lemma ExportableIs(p: Policy, w: World, lim: F.Limits, cs: seq<Selected>)
    ensures Exportable(p, w, lim, cs) <==>
              && cs != [] && |cs| <= lim.chains && AllAllowed(p, w, cs, |cs|) && WithinCountsSoFar(p, w, lim, cs, |cs|)
              && |SoFar(p, w, cs, |cs|) + TAIL| <= lim.bundleBytes && ListedOnce(p, w, cs)
    ensures AllAllowed(p, w, cs, |cs|) <==> forall c <- cs :: ChainAllowed(p, w, c)
    ensures AllAllowed(p, w, cs, |cs|) ==> Print(BundleTree(TextsOf(p, w, cs))) == SoFar(p, w, cs, |cs|) + TAIL
  {
    hide ChainAllowed, Print, PrintElems, ChainTrees, BundleTree, ListedOnce, TextOfChain, Total, BundleHead;
    assert cs[..|cs|] == cs;
    if AllAllowed(p, w, cs, |cs|) { BundlePieces(TextsOf(p, w, cs)); }
  }

  ghost function ChainPrinted(p: Policy, w: World, c: Selected): Bytes
    requires ChainAllowed(p, w, c)
  {
    Print(ChainTree(TextOfChain(p, w, c)))
  }

  lemma ChainIs(p: Policy, w: World, c: Selected)
    requires ChainAllowed(p, w, c)
    ensures ChainPrinted(p, w, c) == ChainHead(c.id) + EntriesPrinted(p, w, c.held, |c.held.rows|) + ChainMiddle()
                                     + PrintElems(TextTrees(AnchorTexts(c.held.anchors))) + TAIL
  {
    hide Print, PrintElems, EntryTree, EntryText, ChainAllowed, Label;
    var t := TextOfChain(p, w, c);
    ChainPieces(t);
    assert EntryTrees(t.entries)[..|t.entries|] == EntryTrees(t.entries);
  }

  lemma ChainJoined(p: Policy, w: World, c: Selected, before: Bytes)
    requires ChainAllowed(p, w, c)
    ensures before + ChainPrinted(p, w, c) == before + ChainHead(c.id) + EntriesPrinted(p, w, c.held, |c.held.rows|) + ChainMiddle()
                                              + PrintElems(TextTrees(AnchorTexts(c.held.anchors))) + TAIL
  {
    ChainIs(p, w, c);
    Regrouped(before, ChainHead(c.id), EntriesPrinted(p, w, c.held, |c.held.rows|), ChainMiddle(), PrintElems(TextTrees(AnchorTexts(c.held.anchors))), TAIL);
    hide *;
  }

  lemma Regrouped(before: Bytes, a: Bytes, b: Bytes, c: Bytes, d: Bytes, e: Bytes)
    ensures before + (a + b + c + d + e) == before + a + b + c + d + e
  {
  }

  /** Every part of a chain's text is shorter than the whole. */
  lemma ChainLengths(p: Policy, w: World, c: Selected)
    ensures ChainAllowed(p, w, c) ==>
              && c.held.anchors.Some? && AnchorsAllowed(c.held.anchors)
              && |ChainPrinted(p, w, c)| >= |PrintElems(TextTrees(AnchorTexts(c.held.anchors)))|
              && |ChainPrinted(p, w, c)| >= |ChainHead(c.id)| + |EntriesPrinted(p, w, c.held, |c.held.rows|)|
              && |ChainPrinted(p, w, c)| >= |ChainHead(c.id)| + |EntriesPrinted(p, w, c.held, |c.held.rows|)| + |ChainMiddle()|
                                            + |PrintElems(TextTrees(AnchorTexts(c.held.anchors)))|
  {
    if ChainAllowed(p, w, c) {
      ChainIs(p, w, c);
      AllowedAnchors(p, w, c);
      hide *;
    }
  }

  lemma AllowedAnchors(p: Policy, w: World, c: Selected)
    requires ChainAllowed(p, w, c)
    ensures c.held.anchors.Some? && AnchorsAllowed(c.held.anchors)
  {
  }

  lemma RepresentableAre(rows: seq<Row>)
    ensures forall r <- rows :: Representable(r) <==> r.format == 3 && 1 <= FieldsOf(r.timestamp).date.year <= 9999
  {
  }

  lemma LiveIs(w: World, h: Holding, i: nat)
    requires i < |h.rows|
    ensures Live(w, h, i) <==> Latin(h.rows[i].entryType) == EVENT && i > ErasedBefore(w, h.rows, |h.rows|) && !h.pending
  {
  }

  lemma NothingPrinted(p: Policy, w: World, h: Holding, found: map<Bytes, nat>, before: Bytes)
    ensures before + EntriesPrinted(p, w, h, 0) == before && Matched(p, w, h, 0, 0, found, found)
  {
    hide EntryTree, EntryText;
    NoMembers();
    assert EntryTrees(EntryTexts(p, w, h, |h.rows|))[..0] == [];
  }

  lemma EntriesOn(p: Policy, w: World, h: Holding, i: nat, before: Bytes)
    requires i < |h.rows|
    ensures before + EntriesPrinted(p, w, h, i + 1)
         == (if i == 0 then before + EntriesPrinted(p, w, h, i) else before + EntriesPrinted(p, w, h, i) + [COMMA])
            + Print(EntryTree(EntryText(p, w, h, i)))
    ensures |EntriesPrinted(p, w, h, i + 1)| <= |EntriesPrinted(p, w, h, |h.rows|)|
  {
    hide Print, PrintElems, EntryTree, EntryText;
    EntriesStep(p, w, h, i);
    var trees := EntryTrees(EntryTexts(p, w, h, |h.rows|));
    assert trees[..|trees|] == trees;
  }

  lemma NoLength()
    ensures TotalLength([]) == 0
  {
  }

  lemma AnchorsRefused(anchors: Option<seq<AnchorFile>>)
    ensures AnchorsAllowed(anchors) ==>
              anchors.Some? && forall i | 0 <= i < |anchors.value| ::
                anchors.value[i].number == i + 1 && anchors.value[i].text.Some? && ValidUtf8(anchors.value[i].text.value)
  {
    hide ValidUtf8;
  }

  /** The files read so far hold these texts. */
  predicate FilesHold(anchors: Option<seq<AnchorFile>>, texts: seq<Bytes>) {
    anchors.Some? && |texts| <= |anchors.value|
    && forall j | 0 <= j < |texts| ::
         anchors.value[j].number == j + 1 && anchors.value[j].text == Some(texts[j]) && ValidUtf8(texts[j])
  }

  lemma AnchorsRead(anchors: Option<seq<AnchorFile>>, texts: seq<Bytes>)
    requires FilesHold(anchors, texts) && |texts| == |anchors.value|
    ensures AnchorsAllowed(anchors) && texts == AnchorTexts(anchors)
  {
    hide ValidUtf8;
  }

  lemma AnchorsLonger(anchors: Option<seq<AnchorFile>>, texts: seq<Bytes>)
    requires FilesHold(anchors, texts) && AnchorsAllowed(anchors)
    ensures TotalLength(texts) <= |PrintElems(TextTrees(AnchorTexts(anchors)))|
  {
    hide ValidUtf8, PrintElems, TextTrees;
    assert texts == AnchorTexts(anchors)[..|texts|];
    TextsLonger(AnchorTexts(anchors), |texts|);
  }

  /** What was written, and then the first texts of an array. */
  ghost function TextsPrinted(before: Bytes, ts: seq<Bytes>, i: nat): Bytes
    requires i <= |ts|
  {
    before + PrintElems(TextTrees(ts)[..i])
  }

  lemma TextsNone(before: Bytes, ts: seq<Bytes>)
    ensures TextsPrinted(before, ts, 0) == before && TextsPrinted(before, ts, |ts|) == before + PrintElems(TextTrees(ts))
  {
    hide PrintElems;
    NoMembers();
    assert before + [] == before && TextTrees(ts)[..0] == [] && TextTrees(ts)[..|ts|] == TextTrees(ts);
  }

  lemma TextsOn(before: Bytes, ts: seq<Bytes>, i: nat)
    requires i < |ts|
    ensures TextsPrinted(before, ts, i + 1) == (if i > 0 then TextsPrinted(before, ts, i) + [COMMA] else TextsPrinted(before, ts, i)) + Quoted(ts[i])
    ensures |TextsPrinted(before, ts, i + 1)| <= |before| + |PrintElems(TextTrees(ts))|
  {
    hide PrintElems, Quoted;
    var trees := TextTrees(ts);
    StrIs(ts[i]);
    assert trees[..i + 1] == trees[..i] + [JsonTree.Str(ts[i])];
    ElemsMore(trees[..i], JsonTree.Str(ts[i]));
    ElemsLonger(trees, i + 1);
  }

  lemma WriterCounts(cw: CountingWriter)
    requires cw.Valid()
    ensures cw.n <= |cw.meant|
  {
  }

  lemma Grouped(before: Bytes, run: Bytes, name: Bytes, inner: Bytes)
    ensures before + run + name + inner + [CLOSE_OBJECT] == before + (run + (name + (inner + [CLOSE_OBJECT])))
  {
  }

  function SignatureItems(p: Option<F.Pair>): Items {
    match p case Some(q) => [(7, PairTree(F.Signature, q))] case None => []
  }

  function DisclosedItems(p: Option<F.Pair>): Items {
    match p case Some(q) => [(8, PairTree(F.Disclosed, q))] case None => []
  }
}
