/** One commit's way through its transactions: what holds between any two of them. */
module SinkCommit {
  import opened SinkState
  import opened SinkStages
  import opened SinkTransactions

  /** openRecordSigning: a signing folder needs a signer, and only a folder without entries can start signing. */
  ghost predicate ModeOK(d: Disk, signer: bool) {
    (d.signing ==> signer) && (signer ==> d.signing || forall c :: EntriesOf(d, c) == [])
  }

  ghost predicate NeatDisk(d: Disk, cleared: set<Chain>) {
    DiskTidy(d) && Gone(d, cleared)
  }

  /** A commit in progress: how it found the folder, what it is writing, and the ids drawn for it. */
  datatype Call = Call(
    d0: Disk, drafts: Drafts, origin: map<EntryId, string>, signer: bool, lo: nat, bound: nat, cleared: set<Chain>)

  /** The folder is sound and, until the append, differs from how the call found it by the drafts' rows alone. */
  ghost predicate Between(call: Call, d: Disk) {
    match call
    case Call(d0, drafts, origin, signer, lo, bound, cleared) =>
      DiskCore(d, origin, bound) && DraftsOK(d, drafts, origin, signer, lo, bound) && ForLive(d, drafts)
      && AllSameBut(d0, d, drafts) && ModeOK(d, signer)
      && d.evidence == d0.evidence && d.forward == d0.forward && d.reverse == d0.reverse
      && (NeatDisk(d0, cleared) ==> NeatDisk(d, cleared))
  }

  /** A folder a call may leave: sound, its index and all other chains as they were, and neat if it was. */
  ghost predicate After(call: Call, d: Disk) {
    match call
    case Call(d0, drafts, origin, _, _, bound, cleared) =>
      DiskCore(d, origin, bound) && (NeatDisk(d0, cleared) ==> NeatDisk(d, cleared))
      && d.forward == d0.forward && d.reverse == d0.reverse && Beside(d0, d, drafts.Keys)
  }

  lemma NeatStays(d: Disk, d': Disk, drafts: Drafts, cleared: set<Chain>)
    requires NeatDisk(d, cleared) && d'.reverse == d.reverse && drafts.Keys <= d.reverse.Keys
    requires forall c: Chain :: c !in drafts ==> ViewOf(d', c) == ViewOf(d, c)
    requires d'.staleSecrets <= d.staleSecrets + drafts.Keys && d'.staleSources <= d.staleSources + drafts.Keys
    requires d'.staleIndex == d.staleIndex
    ensures NeatDisk(d', cleared)
  {
    TidyElsewhere(d, d', drafts.Keys);
  }

  lemma SameEvidence(d: Disk, d': Disk, drafts: Drafts, origin: map<EntryId, string>, signer: bool, lo: nat, bound: nat)
    requires d'.evidence == d.evidence && d'.reverse == d.reverse
    requires d'.signing == d.signing || (signer && d'.signing)
    requires DraftsOK(d, drafts, origin, signer, lo, bound) && ForLive(d, drafts) && ModeOK(d, signer)
    ensures DraftsOK(d', drafts, origin, signer, lo, bound) && ForLive(d', drafts) && ModeOK(d', signer)
  {
    hide DraftOK, Erased;
    assert forall c :: EntriesOf(d', c) == EntriesOf(d, c);
  }

  lemma BetweenNext(call: Call, d: Disk, d': Disk)
    requires Between(call, d)
    requires d'.evidence == d.evidence && d'.forward == d.forward && d'.reverse == d.reverse
    requires d'.signing == d.signing || (call.signer && d'.signing)
    requires DiskCore(d', call.origin, call.bound) && AllSameBut(call.d0, d', call.drafts)
    requires forall c: Chain :: c !in call.drafts ==> ViewOf(d', c) == ViewOf(d, c)
    requires d'.staleSecrets <= d.staleSecrets + call.drafts.Keys && d'.staleSources <= d.staleSources + call.drafts.Keys
    requires d'.staleIndex == d.staleIndex
    ensures Between(call, d')
  {
    SameEvidence(d, d', call.drafts, call.origin, call.signer, call.lo, call.bound);
    hide DiskCore, AllSameBut, NeatDisk, DraftsOK, ModeOK;
    if NeatDisk(call.d0, call.cleared) {
      assert call.drafts.Keys <= d.reverse.Keys;
      hide ForLive;
      NeatStays(d, d', call.drafts, call.cleared);
    }
  }

  lemma AfterSecrets(call: Call, d: Disk)
    requires Between(call, d)
    ensures Between(call, PutSecrets(d, call.drafts)) && Between(call, DeleteSecrets(d, call.drafts))
  {
    hide DiskCore, AllSameBut, NeatDisk, Erased, DraftOK, ForLive, DraftsOK, ViewOf;
    SecretsKeep(d, call.drafts, call.origin, call.signer, call.lo, call.bound);
    SameButKeeps(call.d0, d, call.drafts);
    Untouched(d, call.drafts);
    BetweenNext(call, d, PutSecrets(d, call.drafts));
    BetweenNext(call, d, DeleteSecrets(d, call.drafts));
  }

  lemma AfterSignatures(call: Call, d: Disk)
    requires Between(call, d) && call.signer
    ensures Between(call, PutSignatures(d, call.drafts)) && Between(call, DeleteSignatures(d, call.drafts))
  {
    hide DiskCore, AllSameBut, NeatDisk, Erased, DraftOK, ForLive, DraftsOK, ViewOf;
    SignaturesKeep(d, call.drafts, call.origin, call.signer, call.lo, call.bound);
    SameButKeeps(call.d0, d, call.drafts);
    Untouched(d, call.drafts);
    BetweenNext(call, d, PutSignatures(d, call.drafts));
    BetweenNext(call, d, DeleteSignatures(d, call.drafts));
  }

  lemma AfterSources(call: Call, d: Disk)
    requires Between(call, d)
    ensures Between(call, PutSources(d, call.drafts)) && Between(call, DeleteSources(d, call.drafts))
  {
    hide DiskCore, AllSameBut, NeatDisk, Erased, DraftOK, ForLive, DraftsOK, ViewOf;
    SourcesKeep(d, call.drafts, call.origin, call.signer, call.lo, call.bound);
    SameButKeeps(call.d0, d, call.drafts);
    Untouched(d, call.drafts);
    BetweenNext(call, d, PutSources(d, call.drafts));
    BetweenNext(call, d, DeleteSources(d, call.drafts));
  }

  // ---- What is staged, file by file ----

  predicate RowsStaged(d: Disk, drafts: Drafts) {
    forall c <- drafts :: SubMap(drafts[c].rows, At(d.secrets, c))
  }

  predicate SigsStaged(d: Disk, drafts: Drafts) {
    forall c <- drafts :: SubMap(drafts[c].sigs, At(d.signatures, c))
  }

  predicate PositionsStaged(d: Disk, drafts: Drafts) {
    forall c <- drafts :: SubMap(drafts[c].positions, At(d.sources, c))
  }

  lemma StagedAll(d: Disk, drafts: Drafts)
    requires RowsStaged(d, drafts) && SigsStaged(d, drafts) && PositionsStaged(d, drafts)
    ensures AllStaged(d, drafts)
  {
  }

  lemma NeatAppend(d: Disk, drafts: Drafts, cleared: set<Chain>)
    requires NeatDisk(d, cleared) && ForLive(d, drafts)
    ensures NeatDisk(AppendChains(d, drafts), cleared)
  {
    hide NeatDisk, Erased, ViewOf;
    Untouched(d, drafts);
    NeatStays(d, AppendChains(d, drafts), drafts, cleared);
  }

  /** Every chain of the drafts was extended by its draft, and no other chain. */
  predicate Appended(d0: Disk, d: Disk, drafts: Drafts) {
    match d0 case Disk(_, _, _, _, _, _, _, _, _, _) => d.evidence == AppendChains(d0, drafts).evidence
  }

  predicate SameEntries(d0: Disk, d: Disk) {
    match d0 case Disk(evidence, _, _, _, _, _, _, _, _, _) => d.evidence == evidence
  }

  /** Everything the append relies on is on disk. */
  predicate Ready(d: Disk, drafts: Drafts) {
    match d case Disk(_, _, _, _, _, _, _, _, _, _) => RowsStaged(d, drafts) && SigsStaged(d, drafts) && PositionsStaged(d, drafts)
  }

  /** The commit point. */
  lemma AfterAppend(call: Call, d: Disk)
    requires Between(call, d) && Ready(d, call.drafts)
    ensures After(call, AppendChains(d, call.drafts)) && Appended(call.d0, AppendChains(d, call.drafts), call.drafts)
  {
    hide DiskCore, AllSameBut, NeatDisk, DraftsOK, RowsStaged, SigsStaged, PositionsStaged, Appended, AppendChains;
    BesideSame(call.d0, d, call.drafts);
    hide Beside;
    Untouched(d, call.drafts);
    BesideNext(call.d0, d, AppendChains(d, call.drafts), call.drafts.Keys);
    SameAppend(call.d0, d, call.drafts);
    StagedAll(d, call.drafts);
    AppendKeepsAll(d, call.drafts, call.origin, call.signer, call.lo, call.bound);
    if NeatDisk(call.d0, call.cleared) {
      NeatAppend(d, call.drafts, call.cleared);
    }
  }

  lemma StagedRows(d: Disk, drafts: Drafts)
    ensures RowsStaged(PutSecrets(d, drafts), drafts)
    ensures RowsStaged(d, drafts) ==> RowsStaged(PutSignatures(d, drafts), drafts) && RowsStaged(PutSources(d, drafts), drafts)
  {
  }

  lemma StagedSigs(d: Disk, drafts: Drafts)
    ensures SigsStaged(PutSignatures(d, drafts), drafts)
    ensures SigsStaged(d, drafts) ==> SigsStaged(PutSources(d, drafts), drafts)
    ensures (forall c <- drafts :: drafts[c].sigs == map[]) ==> SigsStaged(d, drafts)
  {
  }

  lemma StagedPositions(d: Disk, drafts: Drafts)
    ensures PositionsStaged(PutSources(d, drafts), drafts)
    ensures (forall c <- drafts :: drafts[c].positions == map[]) ==> PositionsStaged(d, drafts)
  {
  }

  /** Whether a chain holds a draft's first entry where it was predicted. */
  predicate HoldsFirst(entries: seq<Entry>, n: nat, dr: Draft) {
    |entries| > n && dr.entries != [] && entries[n].id == dr.entries[0].id
  }

  predicate Hold(d: Disk, drafts: Drafts, next: map<Chain, nat>, landed: bool)
    requires next.Keys == drafts.Keys
  {
    forall c <- drafts :: HoldsFirst(EntriesOf(d, c), next[c], drafts[c]) == landed
  }

  predicate Filled(drafts: Drafts) {
    drafts != map[] && forall c <- drafts :: drafts[c].entries != []
  }

  /** The entries land together or not at all, so the first entry of any chain tells. */
  lemma LandedOrNot(d: Disk, drafts: Drafts, next: map<Chain, nat>)
    requires Filled(drafts) && next.Keys == drafts.Keys && forall c <- drafts :: next[c] == |EntriesOf(d, c)|
    ensures Hold(d, drafts, next, false) && Hold(AppendChains(d, drafts), drafts, next, true)
  {
    hide AppendChains, EntriesOf;
    forall c | c in drafts
      ensures !HoldsFirst(EntriesOf(d, c), next[c], drafts[c]) && HoldsFirst(EntriesOf(AppendChains(d, drafts), c), next[c], drafts[c])
    {
      AppendedEntries(d, drafts, c);
    }
  }

  lemma AppendedEntries(d: Disk, drafts: Drafts, c: Chain)
    requires c in drafts
    ensures EntriesOf(AppendChains(d, drafts), c) == EntriesOf(d, c) + drafts[c].entries
  {
  }

  lemma BetweenIs(call: Call, d: Disk)
    requires Between(call, d)
    ensures After(call, d) && SameEntries(call.d0, d)
  {
    BesideSame(call.d0, d, call.drafts);
    hide DiskCore, NeatDisk, DraftsOK, ForLive, AllSameBut, Beside;
  }

  /** A content write that lands under an error leaves content behind: every draft has a row, under an id just drawn. */
  lemma LateContentStays(call: Call)
    requires Between(call, call.d0) && Filled(call.drafts)
    ensures !SameSecrets(call.d0, PutSecrets(call.d0, call.drafts))
  {
    var d, drafts := call.d0, call.drafts;
    var c :| c in drafts;
    var dr := drafts[c];
    var id := dr.entries[0].id;
    assert DraftOK(EntriesOf(d, c), dr, call.origin, call.signer, call.lo, call.bound);
    assert id in dr.rows;
    assert SameBut(ViewOf(d, c), ViewOf(d, c), DraftAt(drafts, c));
    hide DiskCore, NeatDisk, DraftsOK, ForLive, AllSameBut, Between, PutSecrets;
    ViewPutSecrets(d, drafts, c);
    assert id !in ViewOf(d, c).secrets;
    assert id in ViewOf(PutSecrets(d, drafts), c).secrets;
  }

  lemma LateContentCleaned(call: Call)
    requires Between(call, call.d0) && Filled(call.drafts)
    ensures Cleaned(call.d0, call.d0, false) && Cleaned(call.d0, PutSecrets(call.d0, call.drafts), true)
  {
    AfterNothing(call.d0);
    hide Between, PutSecrets, SameSecrets, NothingNew, Filled;
    LateContentStays(call);
  }

  /** Which of the two optional files the call has nothing for. */
  ghost predicate Quiet(drafts: Drafts, signer: bool, positions: bool) {
    forall c :: (signer || DraftAt(drafts, c).sigs == map[]) && (positions || DraftAt(drafts, c).positions == map[])
  }

  lemma StagedEmpty(drafts: Drafts, signer: bool, positions: bool)
    requires Quiet(drafts, signer, positions)
    ensures !signer ==> forall d :: SigsStaged(d, drafts)
    ensures !positions ==> forall d :: PositionsStaged(d, drafts)
  {
    forall c | c in drafts
      ensures (signer || drafts[c].sigs == map[]) && (positions || drafts[c].positions == map[])
    {
      assert DraftAt(drafts, c) == drafts[c];
    }
  }

  lemma NoSigsWithoutSigner(d: Disk, drafts: Drafts, origin: map<EntryId, string>, signer: bool, lo: nat, bound: nat)
    requires DraftsOK(d, drafts, origin, signer, lo, bound)
    ensures forall c :: signer || DraftAt(drafts, c).sigs == map[]
  {
  }

  lemma AfterNothing(d: Disk)
    ensures NothingNew(d, d) && Cleaned(d, d, false)
  {
  }

  lemma SameAppend(d0: Disk, d: Disk, drafts: Drafts)
    requires d.evidence == d0.evidence
    ensures Appended(d0, AppendChains(d, drafts), drafts)
    ensures AppendChains(d, drafts).forward == d.forward && AppendChains(d, drafts).reverse == d.reverse
  {
    assert forall c :: EntriesOf(d, c) == EntriesOf(d0, c);
  }

  lemma CommitFacts(call: Call)
    requires Between(call, call.d0)
    ensures Quiet(call.drafts, call.signer, exists x <- call.drafts :: call.drafts[x].positions != map[])
  {
    NoSigsWithoutSigner(call.d0, call.drafts, call.origin, call.signer, call.lo, call.bound);
    assert forall c <- call.drafts :: DraftAt(call.drafts, c) == call.drafts[c];
  }

  lemma CallCleanedUp(call: Call, d: Disk, positions: bool)
    requires Between(call, d) && Quiet(call.drafts, call.signer, positions)
    ensures NothingNew(call.d0, CleanUp(d, call.drafts, call.signer, positions))
  {
    CleanedUp(call.d0, d, call.drafts, call.signer, positions);
  }
}
