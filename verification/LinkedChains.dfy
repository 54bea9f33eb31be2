/** What the linker appends, the verifier finds sound. */
module LinkedChains {
  import opened Basics
  import opened Text
  import opened Timestamps
  import opened Preimages
  import opened Bundles
  import opened Tampering
  import opened Verdicts
  import opened Linking
  import Consequences
  import F = Findings
  import opened BundleAnswer
  import opened Printer
  import opened ExportTree
  import opened Exports
  import opened BundleBytes
  import opened ExportMeaning

  /** The verifier's entry holds what is stored, with any signature and disclosure. */
  predicate Carries(e: RawEntry, s: Linking.Entry) {
    && e.entryID == Latin(s.entryID) && s.globalSeq >= 0 && e.globalSeq == Decimal(s.globalSeq)
    && e.previousHash == s.previousHash && e.timestamp == FormatTimestamp(s.timestamp) && e.contentHash == s.contentHash
    && e.chainHash == s.chainHash
  }

  /** In the shapes bundles have: the ids of a sink, whole hashes, no year 0000. */
  predicate InShape(s: Linking.Entry) {
    EntryIdOK(Latin(s.entryID)) && HashShape(s.contentHash) && HashShape(s.chainHash) && 1 <= FieldsOf(s.timestamp).date.year
  }

  lemma ParsedBack(n: nat)
    requires n <= INT64_MAX
    ensures ParseSeq(Decimal(n)) == Some(n)
  {
    PowNineteen();
    DecimalShape(n);
    DecimalValue(n);
  }

  lemma EntryFound(l: Settings, w: World, chainID: string, es: seq<Linking.Entry>, raws: seq<RawEntry>, i: nat)
    requires w.sha == l.sha && i < |es| == |raws| && WellLinked(l, chainID, es) && InShape(es[i]) && Carries(raws[i], es[i])
    ensures WellFormed(raws[i]) && SeqOf(raws[i]) == i && raws[i].globalSeq == Decimal(i)
    ensures raws[i].chainHash == ExpectedHash(w, raws[i]) && raws[i].previousHash == if i == 0 then "" else es[i - 1].chainHash
  {
    hide EntryIdOK, HashShape, FormatTimestamp, ParseTimestamp, ParseSeq, ChainPreimage, FieldsOf;
    assert EntryLinked(l, chainID, es, i);
    ParsedBack(i);
    ParseFormatted(es[i].timestamp);
  }

  /** Whatever was appended, in whatever calls, its export has no fault in any entry's shape, place, link or hash. */
  lemma LinkedSound(l: Settings, w: World, chainID: string, runs: nat -> string, parts: seq<seq<Ordering.Input>>, raws: seq<RawEntry>)
    requires w.sha == l.sha && l.format == V3 && AppendAll(l, chainID, [], runs, parts).Some?
    requires var es := AppendAll(l, chainID, [], runs, parts).value;
             && |raws| == |es| && (forall i | 0 <= i < |es| :: InShape(es[i]) && Carries(raws[i], es[i]))
    requires Consequences.DistinctIds(raws) && forall e <- raws :: !DisclosedBad(w, e)
    ensures Chained(w, raws, |raws|) && FoundInEntries(w, raws, |raws|) == []
  {
    hide InShape, WellFormed, ExpectedHash, WellLinked, Carries, FoundInEntries, DisclosedBad, AppendAll, AtPlace, Chained;
    AppendsKeep(l, chainID, runs, parts);
    var es := AppendAll(l, chainID, [], runs, parts).value;
    forall i | 0 <= i < |es| ensures AtPlace(w, raws, i) { Placed(l, w, chainID, es, raws, i); }
    AllPlaced(w, raws);
    Consequences.SoundExactly(w, raws);
  }

  predicate AtPlace(w: World, raws: seq<RawEntry>, i: nat)
    requires i < |raws|
  {
    && WellFormed(raws[i]) && SeqOf(raws[i]) == i && raws[i].globalSeq == Decimal(i) && raws[i].chainHash == ExpectedHash(w, raws[i])
    && raws[i].previousHash == if i == 0 then "" else raws[i - 1].chainHash
  }

  lemma Placed(l: Settings, w: World, chainID: string, es: seq<Linking.Entry>, raws: seq<RawEntry>, i: nat)
    requires w.sha == l.sha && |raws| == |es| && WellLinked(l, chainID, es) && i < |es|
    requires forall j | 0 <= j < |es| :: InShape(es[j]) && Carries(raws[j], es[j])
    ensures AtPlace(w, raws, i)
  {
    hide InShape, WellFormed, ExpectedHash, WellLinked, Carries;
    EntryFound(l, w, chainID, es, raws, i);
    if i > 0 { SameHash(raws[i - 1], es[i - 1]); }
  }

  lemma AllPlaced(w: World, raws: seq<RawEntry>)
    requires forall i | 0 <= i < |raws| :: AtPlace(w, raws, i)
    ensures Chained(w, raws, |raws|) && |raws| <= INT64_MAX + 1
  {
    hide WellFormed, ExpectedHash;
    if raws != [] {
      assert AtPlace(w, raws, 0) && AtPlace(w, raws, |raws| - 1);
      assert Decimal(0) == "0";
      SeqBounded(raws[|raws| - 1]);
    }
    forall i | 0 <= i < |raws| ensures WellFormed(raws[i]) && raws[i].chainHash == ExpectedHash(w, raws[i]) {
      assert AtPlace(w, raws, i);
    }
    forall i | 1 <= i < |raws|
      ensures SeqOf(raws[i]) == SeqOf(raws[i - 1]) + 1 && raws[i].previousHash == raws[i - 1].chainHash
    {
      assert AtPlace(w, raws, i) && AtPlace(w, raws, i - 1);
    }
  }

  lemma SameHash(e: RawEntry, s: Linking.Entry)
    requires Carries(e, s)
    ensures e.chainHash == s.chainHash
  {
  }

  lemma SeqBounded(e: RawEntry)
    ensures SeqOf(e) <= INT64_MAX
  {
  }

  // ---- Exported and read back ----

  /** The stored row is that entry. */
  predicate Holds(r: Row, s: Linking.Entry) {
    && r.format == FORMAT_V3 && r.entryID == s.entryID && Latin(r.entryType) == s.entryType && r.seqNo as int == s.globalSeq
    && Latin(r.previousHash) == s.previousHash && r.timestamp == s.timestamp && Latin(r.contentHash) == s.contentHash
    && Latin(r.chainHash) == s.chainHash
  }

  /** The folder's chain is what some calls linked, each entry under an id of its own. */
  ghost predicate LinkedRows(l: Settings, c: Selected, runs: nat -> string, parts: seq<seq<Ordering.Input>>) {
    && l.format == V3 && AppendAll(l, Latin(c.id), [], runs, parts).Some?
    && var es, rows := AppendAll(l, Latin(c.id), [], runs, parts).value, c.held.rows;
       && |rows| == |es| && (forall i | 0 <= i < |es| :: InShape(es[i]) && Holds(rows[i], es[i]))
       && forall i, j | 0 <= i < j < |es| :: es[i].entryID != es[j].entryID
  }

  lemma RowCarried(p: Policy, w: World, h: Holding, l: Settings, chainID: string, es: seq<Linking.Entry>, i: nat)
    requires i < |es| == |h.rows| && WellLinked(l, chainID, es) && InShape(es[i]) && Holds(h.rows[i], es[i])
    requires Representable(h.rows[i])
    ensures Carries(Exported(p, w, h, i), es[i])
  {
    hide EntryIdOK, HashShape, FormatTimestamp, ChainPreimage, FieldsOf, Exported, WellFormed, TombstoneHash;
    assert EntryLinked(l, chainID, es, i);
    SameWellFormed(p, w, h, i);
    ContentShape(l, chainID, es, i);
    assert RowWellFormed(h.rows[i]) by { EmptyPrevious(h.rows[i].previousHash); }
  }

  lemma ContentShape(l: Settings, chainID: string, es: seq<Linking.Entry>, i: nat)
    requires i < |es| && WellLinked(l, chainID, es)
    ensures es[i].previousHash == "" || HashShape(es[i].previousHash)
  {
    hide HashShape, ChainPreimage, TombstoneHash, FieldsOf;
    assert EntryLinked(l, chainID, es, i);
  }

  lemma EmptyPrevious(s: Bytes)
    ensures Latin(s) == "" <==> s == []
  {
  }

  /** No disclosure an export makes is out of shape. */
  lemma ExportedDisclosure(p: Policy, w: World, c: Selected, i: nat)
    requires ChainAllowed(p, w, c) && i < |c.held.rows| && StrictBase64(w)
    ensures !DisclosedBad(w, Exported(p, w, c.held, i)) && Representable(c.held.rows[i])
  {
    hide Exported, DisclosedBad, Representable, Openable, ChainAllowed, RowWellFormed, Bundles.Opens;
    AllowedEntry(p, w, c, i);
    if Discloses(p, w, c.held, i) {
      DisclosedInShape(p, w, c.held, i);
    } else {
      NotDisclosed(p, w, c.held, i);
      UndisclosedFine(w, Exported(p, w, c.held, i));
    }
  }

  /** One chain: linked, stored and exported, it has no fault. */
  lemma ExportedLinked(p: Policy, w: World, c: Selected, l: Settings, runs: nat -> string, parts: seq<seq<Ordering.Input>>)
    requires w.sha == l.sha && LinkedRows(l, c, runs, parts) && ChainAllowed(p, w, c) && StrictBase64(w)
    ensures var raws := ExportedEntries(p, w, c.held); Chained(w, raws, |raws|) && FoundInEntries(w, raws, |raws|) == []
  {
    var es, raws := AppendAll(l, Latin(c.id), [], runs, parts).value, ExportedEntries(p, w, c.held);
    AppendsKeep(l, Latin(c.id), runs, parts);
    hide InShape, Holds, WellLinked, Carries, Exported, DisclosedBad, Representable, AppendAll, ChainAllowed, Chained, FoundInEntries;
    forall i | 0 <= i < |es|
      ensures Carries(raws[i], es[i]) && !DisclosedBad(w, raws[i])
    {
      ExportedDisclosure(p, w, c, i);
      RowCarried(p, w, c.held, l, Latin(c.id), es, i);
    }
    IdsApart(es, raws);
    LinkedSound(l, w, Latin(c.id), runs, parts, raws);
  }

  lemma IdsApart(es: seq<Linking.Entry>, raws: seq<RawEntry>)
    requires |raws| == |es| && forall i | 0 <= i < |es| :: Carries(raws[i], es[i])
    requires forall i, j | 0 <= i < j < |es| :: es[i].entryID != es[j].entryID
    ensures Consequences.DistinctIds(raws)
  {
    forall i, j | 0 <= i < j < |raws| ensures raws[i].entryID != raws[j].entryID {
      AsciiOfLatin(es[i].entryID);
      AsciiOfLatin(es[j].entryID);
      assert Carries(raws[i], es[i]) && Carries(raws[j], es[j]);
    }
  }

  /**
   * From the linker to the recipient: every chain that was linked, whatever the
   * calls, is read back from the bundle without a fault in any entry's shape,
   * place, link or hash.
   */
  lemma LinkedExportSound(p: Policy, w: World, env: F.Env, cs: seq<Selected>, k: nat,
                          l: Settings, runs: nat -> string, parts: seq<seq<Ordering.Input>>)
    requires env.lim == DEFAULTS && Exportable(p, w, DEFAULTS, cs) && StrictBase64(w)
    requires k < |cs| && w.sha == l.sha && LinkedRows(l, cs[k], runs, parts)
    ensures var a := Judge(Print(BundleTree(TextsOf(p, w, cs))), env);
            && a.Read? && |a.chains| == |cs| && a.chains[k].id == cs[k].id && (forall e <- a.chains[k].entries :: |e.fields| == 7)
            && var raws := RawEntries(a.chains[k].entries); Chained(w, raws, |raws|) && FoundInEntries(w, raws, |raws|) == []
  {
    hide Judge, Print, BundleTree, ChainAllowed, CappedChain, RepairedChain, TextOfChain, LinkedRows, Chained, FoundInEntries,
         WithinCounts, ListedOnce;
    ExportRoundTrip(p, w, env, cs);
    assert cs[k] in cs;
    ExportedAre(p, w, env, cs, k);
    ExportedLinked(p, w, cs[k], l, runs, parts);
  }
}
