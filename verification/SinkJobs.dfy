/** One chain's erasure, and a whole erasing call: what holds between any two of their transactions. */
module SinkJobs {
  import opened Basics
  import opened SinkState
  import opened SinkErasure
  import opened SinkCommit

  /** What one chain's entries can become under an erasure: one genuine erasure more, on a chain that had none at its end. */
  predicate Ended(before: seq<Entry>, after: seq<Entry>) {
    after == before
    || (before != [] && !Erased(before) && |after| == |before| + 1 && after[..|before|] == before && Erased(after))
  }

  /** An erasure of one chain in progress: the chain, and how the call found the folder. */
  datatype Job = Job(d0: Disk, c: Chain, signer: bool, origin: map<EntryId, string>, bound: nat, cleared: set<Chain>)

  /** The folder is sound, and nothing but this chain has changed. */
  ghost predicate Erasing(job: Job, d: Disk) {
    match job
    case Job(d0, c, signer, origin, bound, cleared) =>
      DiskCore(d, origin, bound) && ModeOK(d, signer) && d.forward == d0.forward && d.reverse == d0.reverse
      && c in d.reverse && (NeatDisk(d0, cleared) ==> NeatDisk(d, cleared))
      && (forall x: Chain :: x != c ==> ViewOf(d, x) == ViewOf(d0, x))
      && Ended(EntriesOf(d0, c), EntriesOf(d, c)) && Traced(d0, d)
  }

  lemma ErasingStarts(d: Disk, c: Chain, signer: bool, origin: map<EntryId, string>, bound: nat, cleared: set<Chain>)
    requires DiskCore(d, origin, bound) && ModeOK(d, signer) && c in d.reverse
    ensures Erasing(Job(d, c, signer, origin, bound, cleared), d)
  {
  }

  /** One transaction on the chain. */
  lemma ErasingNext(job: Job, d: Disk, d': Disk)
    requires Erasing(job, d) && Core(ViewOf(d', job.c), d'.signing, job.origin, job.bound)
    requires d'.forward == d.forward && d'.reverse == d.reverse && d'.signing == d.signing
    requires ModeOK(d', job.signer) && Ended(EntriesOf(job.d0, job.c), EntriesOf(d', job.c))
    requires forall x: Chain :: x != job.c ==> ViewOf(d', x) == ViewOf(d, x)
    requires d'.staleSecrets <= d.staleSecrets + {job.c} && d'.staleSources <= d.staleSources + {job.c}
    requires d'.staleIndex == d.staleIndex && Traced(d, d')
    ensures Erasing(job, d')
  {
    TracedTwice(job.d0, d, d');
    hide Traced;
    hide Core, Ended, DiskTidy, ModeOK, DiskCore;
    OneChain(d, d', job.c, job.origin, job.bound);
  }

  lemma SameMode(d: Disk, d': Disk, signer: bool)
    requires ModeOK(d, signer) && d'.evidence == d.evidence && d'.signing == d.signing
    ensures ModeOK(d', signer)
  {
    assert forall c :: EntriesOf(d', c) == EntriesOf(d, c);
  }

  predicate FreshId(d: Disk, c: Chain, id: EntryId, origin: map<EntryId, string>, bound: nat) {
    Unused(ViewOf(d, c), id) && id < bound && SourceOf(origin, id) == ""
  }

  /** The record row, put or taken back. */
  lemma RowStep(job: Job, d: Disk, id: EntryId, record: string)
    requires Erasing(job, d) && FreshId(d, job.c, id, job.origin, job.bound)
    ensures Erasing(job, PutRow(d, job.c, id, record)) && Erasing(job, DeleteRow(d, job.c, id))
  {
    var p, q := PutRow(d, job.c, id, record), DeleteRow(d, job.c, id);
    assert forall x: Chain :: x != job.c ==> ViewOf(p, x) == ViewOf(d, x) == ViewOf(q, x);
    assert Core(ViewOf(d, job.c), d.signing, job.origin, job.bound);
    hide Erasing, Core, Ended, DiskCore, NeatDisk;
    RecordKeeps(ViewOf(d, job.c), id, record, d.signing, job.origin, job.bound);
    SameMode(d, p, job.signer);
    SameMode(d, q, job.signer);
    hide ModeOK;
    assert Ended(EntriesOf(job.d0, job.c), EntriesOf(d, job.c)) by { StillEnded(job, d); }
    RowTraced(d, job.c, id, record);
    DeletesTraced(d, job.c, id, map[]);
    hide Traced;
    ErasingNext(job, d, p);
    ErasingNext(job, d, q);
  }

  lemma StillEnded(job: Job, d: Disk)
    requires Erasing(job, d)
    ensures Ended(EntriesOf(job.d0, job.c), EntriesOf(d, job.c))
  {
  }

  /** The erasure's signature, put or taken back. */
  lemma SignStep(job: Job, d: Disk, id: EntryId, s: Signed)
    requires Erasing(job, d) && FreshId(d, job.c, id, job.origin, job.bound)
    requires job.signer && EntriesOf(d, job.c) != []
    ensures Erasing(job, PutSignature(d, job.c, id, s)) && Erasing(job, DeleteSignature(d, job.c, id))
  {
    var p, q := PutSignature(d, job.c, id, s), DeleteSignature(d, job.c, id);
    SignedViews(d, job.c, id, s);
    hide PutSignature, DeleteSignature, ViewOf;
    assert Core(ViewOf(d, job.c), d.signing, job.origin, job.bound) && d.signing;
    SignatureKeeps(ViewOf(d, job.c), id, s, d.signing, job.origin, job.bound);
    SameMode(d, p, job.signer);
    SameMode(d, q, job.signer);
    hide Erasing, Core, ModeOK, Ended;
    assert Ended(EntriesOf(job.d0, job.c), EntriesOf(d, job.c)) by { StillEnded(job, d); }
    SameTraced(d, p);
    SameTraced(d, q);
    hide Traced;
    ErasingNext(job, d, p);
    ErasingNext(job, d, q);
  }

  lemma SignedViews(d: Disk, c: Chain, id: EntryId, s: Signed)
    ensures var p, q := PutSignature(d, c, id, s), DeleteSignature(d, c, id);
            && (forall x: Chain :: x != c ==> ViewOf(p, x) == ViewOf(d, x) == ViewOf(q, x))
            && ViewOf(p, c) == ViewOf(d, c).(signatures := ViewOf(d, c).signatures[id := s])
            && ViewOf(q, c) == ViewOf(d, c).(signatures := ViewOf(d, c).signatures - {id})
            && (forall x :: EntriesOf(p, x) == EntriesOf(d, x) == EntriesOf(q, x))
            && p == d.(signatures := p.signatures, signing := true) && q == d.(signatures := q.signatures)
            && ViewOf(d, c).entries == EntriesOf(d, c)
  {
  }

  /** The record and, in a signing folder, the signature are there. */
  predicate Announced(d: Disk, c: Chain, id: EntryId, signer: bool)
    requires EntriesOf(d, c) != []
  {
    var v, n := ViewOf(d, c), |EntriesOf(d, c)|;
    id in v.secrets && v.secrets[id] == Secret(ErasureRecord(n - 1), None)
    && (signer ==> id in v.signatures && v.signatures[id] == Signed(Erasure, n, ErasureEntry(id, n - 1).hash))
  }

  /** The erasure entry itself. */
  lemma EntryStep(job: Job, d: Disk, id: EntryId)
    requires Erasing(job, d) && FreshId(d, job.c, id, job.origin, job.bound)
    requires EntriesOf(d, job.c) != [] && !Erased(EntriesOf(d, job.c)) && Announced(d, job.c, id, job.signer)
    requires EntriesOf(d, job.c) == EntriesOf(job.d0, job.c)
    ensures Erasing(job, AppendErasure(d, job.c, id)) && Erased(EntriesOf(AppendErasure(d, job.c, id), job.c))
  {
    hide ErasureRecord;
    var v, e := ViewOf(d, job.c), ErasureEntry(id, |EntriesOf(d, job.c)| - 1);
    var a := AppendErasure(d, job.c, id);
    assert forall x: Chain :: x != job.c ==> ViewOf(a, x) == ViewOf(d, x);
    assert ViewOf(a, job.c) == v.(entries := v.entries + [e]);
    assert Core(v, d.signing, job.origin, job.bound) && (d.signing ==> job.signer);
    assert ModeOK(a, job.signer);
    hide Core, ModeOK, Erased;
    ErasureKeeps(v, id, d.signing, job.origin, job.bound);
    assert Ended(EntriesOf(job.d0, job.c), EntriesOf(a, job.c));
    hide Erasing, Ended;
    SameTraced(d, a);
    hide Traced;
    ErasingNext(job, d, a);
  }

  /** What is left of a chain's content, nonces and positions once it is wiped. */
  predicate Wiped(d: Disk, c: Chain) {
    match c case Chain(_, _) => (EntriesOf(d, c) == [] || Erased(EntriesOf(d, c))) && OnlyRecord(ViewOf(d, c))
  }

  /** The deletes. */
  lemma WipeStep(job: Job, d: Disk)
    requires Erasing(job, d) && (EntriesOf(d, job.c) == [] || Erased(EntriesOf(d, job.c)))
    ensures Erasing(job, WipeSecrets(d, job.c, Records(EntriesOf(d, job.c)))) && Erasing(job, WipeSources(d, job.c))
    ensures EntriesOf(d, job.c) == [] ==> Erasing(job, WipeSignatures(d, job.c))
    ensures Wiped(WipeSources(WipeSecrets(d, job.c, Records(EntriesOf(d, job.c))), job.c), job.c)
  {
    var v := ViewOf(d, job.c);
    var a, b, s := WipeSecrets(d, job.c, Records(v.entries)), WipeSources(d, job.c), WipeSignatures(d, job.c);
    WipeViews(d, job.c, Records(v.entries));
    assert Core(v, d.signing, job.origin, job.bound);
    SameMode(d, a, job.signer);
    SameMode(d, b, job.signer);
    SameMode(d, s, job.signer);
    StillEnded(job, d);
    hide Core, ModeOK, Erased, Erasing, Ended, OnlyRecord;
    WipeKeeps(v, d.signing, job.origin, job.bound);
    DeletesTraced(d, job.c, 0, Records(v.entries));
    SameTraced(d, s);
    hide Traced;
    ErasingNext(job, d, a);
    ErasingNext(job, d, b);
    if EntriesOf(d, job.c) == [] { ErasingNext(job, d, s); }
  }

  lemma WipeViews(d: Disk, c: Chain, keep: map<EntryId, Secret>)
    ensures var v := ViewOf(d, c);
            var a, b, s := WipeSecrets(d, c, keep), WipeSources(d, c), WipeSignatures(d, c);
            && ViewOf(a, c) == v.(secrets := OnlyKept(v.secrets, keep)) && ViewOf(b, c) == v.(sources := map[])
            && ViewOf(s, c) == v.(signatures := map[])
            && ViewOf(WipeSources(a, c), c) == v.(secrets := OnlyKept(v.secrets, keep), sources := map[])
            && forall x: Chain :: x != c ==> ViewOf(a, x) == ViewOf(b, x) == ViewOf(s, x) == ViewOf(d, x)
  {
    hide OnlyKept;
    forall x: Chain | x != c
      ensures ViewOf(WipeSecrets(d, c, keep), x) == ViewOf(WipeSources(d, c), x) == ViewOf(WipeSignatures(d, c), x) == ViewOf(d, x)
    {
      WipeOthers(d, c, keep, x);
    }
  }

  lemma WipeOthers(d: Disk, c: Chain, keep: map<EntryId, Secret>, x: Chain)
    requires x != c
    ensures ViewOf(WipeSecrets(d, c, keep), x) == ViewOf(WipeSources(d, c), x) == ViewOf(WipeSignatures(d, c), x) == ViewOf(d, x)
  {
    hide OnlyKept;
  }

  /** An erasure entry decided before the subject was forgotten. */
  datatype Presigned = Presigned(id: EntryId, seqNo: nat)

  /** How the erasure of one chain ended: done, to be resumed, or cut short. */
  datatype ChainEnd = Swept | Stuck | Cut

  /** Whether eraseChain can go through: the chain needs no entry, or its entry was decided against its tail. */
  predicate Prepared(d: Disk, c: Chain, p: Option<Presigned>) {
    EntriesOf(d, c) == [] || Erased(EntriesOf(d, c)) || (p.Some? && p.value.seqNo == |EntriesOf(d, c)|)
  }

  lemma AnnouncedNow(d: Disk, c: Chain, id: EntryId, signer: bool)
    requires EntriesOf(d, c) != [] && FreshRow(d, c, id)
    ensures var p := PutSignature(d, c, id, Signed(Erasure, |EntriesOf(d, c)|, ErasureEntry(id, |EntriesOf(d, c)| - 1).hash));
            Announced(p, c, id, signer) && EntriesOf(p, c) == EntriesOf(d, c)
    ensures !signer ==> Announced(d, c, id, signer)
  {
    hide ErasureRecord;
  }

  /** The record row is where the erasure entry will need it. */
  predicate FreshRow(d: Disk, c: Chain, id: EntryId)
    requires EntriesOf(d, c) != []
  {
    id in At(d.secrets, c) && At(d.secrets, c)[id] == Secret(ErasureRecord(|EntriesOf(d, c)| - 1), None)
  }

  lemma SameFresh(d: Disk, d': Disk, c: Chain, id: EntryId, origin: map<EntryId, string>, bound: nat)
    requires FreshId(d, c, id, origin, bound) && d'.evidence == d.evidence
    ensures FreshId(d', c, id, origin, bound)
  {
  }

  lemma EntryLands(d: Disk, c: Chain, id: EntryId)
    requires EntriesOf(d, c) != []
    ensures var n, now := |EntriesOf(d, c)|, EntriesOf(AppendErasure(d, c, id), c);
            |now| == n + 1 && now[n].id == id
            && (Erased(now) ==> Records(now) == map[id := Secret(ErasureRecord(n - 1), None)])
  {
    hide ErasureRecord;
  }

  lemma ChainShaped(job: Job, d: Disk)
    requires Erasing(job, d)
    ensures Shaped(EntriesOf(d, job.c))
  {
    assert Core(ViewOf(d, job.c), d.signing, job.origin, job.bound);
  }

  lemma NoRecord(entries: seq<Entry>)
    requires !Erased(entries)
    ensures Records(entries) == map[]
  {
  }
}
