/**
 * What a sink folder holds on disk, chain by chain, and what must be true of
 * it in every state a crash can leave.
 */
module SinkState {
  import opened Basics
  import opened Text

  /** An opaque chain id: the class it starts with, and its random part. */
  datatype Chain = Chain(class_: string, tag: nat)

  /** Entry ids are 128 random bits: drawn from a counter here, so never drawn twice. */
  type EntryId = nat

  datatype Kind = Event | Erasure

  /** The two domain-separated content hashes an entry can hold. */
  datatype Digest = Salted(content: string, nonce: nat) | ErasureHash(record: string)

  datatype Entry = Entry(id: EntryId, kind: Kind, hash: Digest)

  /** A row of the secrets file: content, and the nonce unless the row is an erasure record. */
  datatype Secret = Secret(content: string, nonce: Option<nat>)

  /** A row of the sources file: where a sourced record was, or will be, committed. */
  datatype Position = Position(id: EntryId, seqNo: nat)

  /** A row of the signatures file: what the record signature covers. */
  datatype Signed = Signed(kind: Kind, seqNo: nat, hash: Digest)

  /** A reverse row of the subject index. */
  datatype Row = Live(subject: string, class_: string) | Pending

  /** Everything the files hold about one chain, apart from its index row. */
  datatype View = View(
    entries: seq<Entry>,
    secrets: map<EntryId, Secret>,
    sources: map<string, Position>,
    signatures: map<EntryId, Signed>)

  function ErasureRecord(throughSeq: nat): string {
    "{\"erased\":\"every earlier event on this chain\",\"through_global_seq\":\"" + Decimal(throughSeq) + "\"}"
  }

  function ErasureEntry(id: EntryId, throughSeq: nat): Entry {
    Entry(id, Erasure, ErasureHash(ErasureRecord(throughSeq)))
  }

  /** endsWithGenuineErasure: the type, and the hash of the exact record for its predecessor's sequence. */
  predicate Erased(entries: seq<Entry>) {
    |entries| >= 2 && entries[|entries| - 1].kind == Erasure
    && entries[|entries| - 1].hash == ErasureHash(ErasureRecord(|entries| - 2))
  }

  predicate Opens(e: Entry, s: Secret) {
    s.nonce.Some? && e.hash == Salted(s.content, s.nonce.value)
  }

  // ---- The invariant of one chain ----

  /** Events commit to content; an erasure is genuine and nothing comes after it. */
  predicate Shaped(entries: seq<Entry>) {
    forall i | 0 <= i < |entries| ::
      if entries[i].kind == Event then entries[i].hash.Salted? else i == |entries| - 1 && Erased(entries)
  }

  predicate DistinctIds(entries: seq<Entry>) {
    forall i, j | 0 <= i < j < |entries| :: entries[i].id != entries[j].id
  }

  predicate IdsBelow(v: View, bound: nat) {
    (forall e <- v.entries :: e.id < bound)
    && (forall id <- v.secrets :: id < bound) && (forall id <- v.signatures :: id < bound)
  }

  /**
   * Every event with no genuine erasure after it has stored content and a nonce
   * that open its commitment; a genuine erasure has its record.
   */
  predicate Openable(entries: seq<Entry>, secrets: map<EntryId, Secret>) {
    if Erased(entries) then
      var last := entries[|entries| - 1];
      last.id in secrets && secrets[last.id] == Secret(ErasureRecord(|entries| - 2), None)
    else
      forall i | 0 <= i < |entries| :: entries[i].id in secrets && Opens(entries[i], secrets[entries[i].id])
  }

  predicate FullySigned(entries: seq<Entry>, signatures: map<EntryId, Signed>) {
    forall i | 0 <= i < |entries| ::
      entries[i].id in signatures && signatures[entries[i].id] == Signed(entries[i].kind, i, entries[i].hash)
  }

  /** The source of the record an entry was made from, "" if it had none: history, not stored on the entry. */
  function SourceOf(origin: map<EntryId, string>, id: EntryId): string {
    if id in origin then origin[id] else ""
  }

  /** At most one entry per source. */
  predicate OncePerSource(entries: seq<Entry>, origin: map<EntryId, string>) {
    forall i, j | 0 <= i < j < |entries| ::
      SourceOf(origin, entries[i].id) != "" ==> SourceOf(origin, entries[i].id) != SourceOf(origin, entries[j].id)
  }

  /** Until a chain is erased, the sources file finds every sourced entry where it is. */
  predicate Located(entries: seq<Entry>, sources: map<string, Position>, origin: map<EntryId, string>) {
    !Erased(entries) ==>
      forall i | 0 <= i < |entries| ::
        var source := SourceOf(origin, entries[i].id);
        source != "" ==> source in sources && sources[source] == Position(entries[i].id, i)
  }

  /** A sources row only ever names an entry id drawn for that very source. */
  predicate Truthful(sources: map<string, Position>, origin: map<EntryId, string>) {
    forall source <- sources :: source != "" && SourceOf(origin, sources[source].id) == source
  }

  predicate Core(v: View, signing: bool, origin: map<EntryId, string>, bound: nat) {
    Shaped(v.entries) && DistinctIds(v.entries) && IdsBelow(v, bound)
    && Openable(v.entries, v.secrets) && (signing ==> FullySigned(v.entries, v.signatures))
    && OncePerSource(v.entries, origin) && Located(v.entries, v.sources, origin) && Truthful(v.sources, origin)
  }

  /** Nothing but the record of its last entry, a genuine erasure: what a forgotten chain may keep. */
  predicate OnlyRecord(v: View) {
    v.sources == map[]
    && forall id <- v.secrets ::
         Erased(v.entries) && id == v.entries[|v.entries| - 1].id
         && v.secrets[id] == Secret(ErasureRecord(|v.entries| - 2), None)
  }

  /** A chain with entries is bound, pending or erased; one that is neither bound nor pending holds nothing secret. */
  predicate Tidy(v: View, row: Option<Row>) {
    row.None? ==> (v.entries == [] || Erased(v.entries)) && OnlyRecord(v)
  }

  // ---- The files ----

  type PerChain<K, V> = map<Chain, map<K, V>>

  /**
   * The five files. forward and reverse are the subject index. The stale sets
   * are the chains whose deleted rows a file may still hold in free pages (of
   * the index, the rows that name a subject): deleting a row adds its chain,
   * rewriting the file empties the set.
   */
  datatype Disk = Disk(
    evidence: map<Chain, seq<Entry>>,
    secrets: PerChain<EntryId, Secret>,
    sources: PerChain<string, Position>,
    signatures: PerChain<EntryId, Signed>,
    signing: bool,
    forward: map<(string, string), Chain>,
    reverse: map<Chain, Row>,
    staleSecrets: set<Chain>,
    staleSources: set<Chain>,
    staleIndex: set<Chain>)

  const EMPTY_DISK := Disk(map[], map[], map[], map[], false, map[], map[], {}, {}, {})

  function At<K, V>(m: PerChain<K, V>, c: Chain): map<K, V> {
    if c in m then m[c] else map[]
  }

  function EntriesOf(d: Disk, c: Chain): seq<Entry> {
    if c in d.evidence then d.evidence[c] else []
  }

  function ViewOf(d: Disk, c: Chain): View {
    View(EntriesOf(d, c), At(d.secrets, c), At(d.sources, c), At(d.signatures, c))
  }

  function RowOf(d: Disk, c: Chain): Option<Row> {
    if c in d.reverse then Some(d.reverse[c]) else None
  }

  /** Forward and reverse rows agree in both directions, and a chain is of its pair's class. */
  predicate IndexOK(forward: map<(string, string), Chain>, reverse: map<Chain, Row>) {
    (forall pair <- forward ::
       forward[pair] in reverse && reverse[forward[pair]] == Live(pair.0, pair.1) && forward[pair].class_ == pair.1)
    && (forall c <- reverse ::
          reverse[c].Live? ==> (reverse[c].subject, reverse[c].class_) in forward
                               && forward[(reverse[c].subject, reverse[c].class_)] == c)
  }

  ghost predicate DiskCore(d: Disk, origin: map<EntryId, string>, bound: nat) {
    IndexOK(d.forward, d.reverse) && forall c :: Core(ViewOf(d, c), d.signing, origin, bound)
  }

  ghost predicate DiskTidy(d: Disk) {
    forall c :: Tidy(ViewOf(d, c), RowOf(d, c))
  }

  /** A chain whose erasure was completed left nothing in free pages either. */
  predicate Gone(d: Disk, cleared: set<Chain>) {
    forall c <- cleared :: c !in d.reverse && c !in d.staleSecrets && c !in d.staleSources && c !in d.staleIndex
  }

  /** What a file held and holds no longer is of a chain marked for it: its free pages may hold it still. */
  ghost predicate Traced(d: Disk, d': Disk) {
    && d.staleSecrets <= d'.staleSecrets && d.staleSources <= d'.staleSources && d.staleIndex <= d'.staleIndex
    && (forall c: Chain :: At(d.secrets, c).Keys <= At(d'.secrets, c).Keys || c in d'.staleSecrets)
    && (forall c: Chain :: At(d.sources, c).Keys <= At(d'.sources, c).Keys || c in d'.staleSources)
    && forall pair <- d.forward :: pair in d'.forward || d.forward[pair] in d'.staleIndex
  }

  lemma TracedTwice(d0: Disk, d: Disk, d': Disk)
    requires Traced(d0, d) && Traced(d, d') && d.forward == d0.forward
    ensures Traced(d0, d')
  {
  }

  /** A chain with entries is bound, pending, or erased with nothing left but its erasure's record. */
  predicate Accounted(d: Disk, c: Chain) {
    EntriesOf(d, c) != [] ==> c in d.reverse || (Erased(EntriesOf(d, c)) && OnlyRecord(ViewOf(d, c)))
  }

  ghost predicate AllAccounted(d: Disk) {
    forall c :: Accounted(d, c)
  }
}
