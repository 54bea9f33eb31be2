/** Tamper evidence: an accepted checkpoint admits one covered history. */
module Tampering {
  import opened Basics
  import opened Text
  import opened Timestamps
  import opened Preimages
  import opened Bundles

  // ---- One hash, one preimage ----

  /** Among the inputs that were hashed, no two have the same hash. */
  ghost predicate NoCollision(sha: string -> string, inputs: set<string>) {
    forall x <- inputs, y <- inputs :: sha(x) == sha(y) ==> x == y
  }

  function EntryPreimage(e: RawEntry): string
    requires WellFormed(e)
  {
    ChainPreimage(e.previousHash, SeqOf(e), ParseTimestamp(e.timestamp).value, e.contentHash)
  }

  /** What is hashed to check the first n entries of a chain. */
  function Hashed(entries: seq<RawEntry>, n: nat): set<string>
    requires n <= |entries| && AllWellFormed(entries, n)
  {
    set i | 0 <= i < n :: EntryPreimage(entries[i])
  }

  predicate AllWellFormed(entries: seq<RawEntry>, n: nat)
    requires n <= |entries|
  {
    forall i | 0 <= i < n :: WellFormed(entries[i])
  }

  /** The first n entries carry their own chain hashes, start a chain, and follow one another. */
  predicate Chained(w: World, entries: seq<RawEntry>, n: nat) {
    n <= |entries| && AllWellFormed(entries, n)
    && (forall i | 0 <= i < n :: entries[i].chainHash == ExpectedHash(w, entries[i]))
    && (n > 0 ==> entries[0].globalSeq == "0" && entries[0].previousHash == "")
    && forall i | 1 <= i < n ::
         SeqOf(entries[i]) == SeqOf(entries[i - 1]) + 1 && entries[i].previousHash == entries[i - 1].chainHash
  }

  /** What an accepted checkpoint says of its chain. */
  predicate Binds(w: World, c: RawChain, previous: string, ck: Checkpoint) {
    1 <= ck.entryCount <= |c.entries| && ck.rangeStart == c.entries[0].entryID
    && ck.rangeEnd == c.entries[ck.entryCount - 1].entryID
    && AnchorHash(w.sha, previous, c.id, ck.rangeStart, ck.rangeEnd, c.entries[ck.entryCount - 1].chainHash) == Some(ck.chainHash)
  }

  function AnchorInput(c: RawChain, previous: string, ck: Checkpoint): string
    requires 1 <= ck.entryCount <= |c.entries|
  {
    AnchorPreimage(previous, c.id, ck.rangeStart, ck.rangeEnd, c.entries[ck.entryCount - 1].chainHash)
  }

  lemma {:induction false} SeqIsIndex(w: World, entries: seq<RawEntry>, n: nat, i: nat)
    requires Chained(w, entries, n) && i < n
    ensures SeqOf(entries[i]) == i
  {
    if i > 0 {
      SeqIsIndex(w, entries, n, i - 1);
    } else {
      assert DigitsValue("0") == 0;
    }
  }

  lemma HexHasNoPipe(s: string)
    requires s == "" || HashShape(s)
    ensures '|' !in s
  {
  }

  /** The same in everything the chain hash covers. */
  predicate SameEntry(a: RawEntry, b: RawEntry) {
    a.globalSeq == b.globalSeq && a.timestamp == b.timestamp && a.contentHash == b.contentHash
    && a.previousHash == b.previousHash && a.chainHash == b.chainHash
  }

  /** Two well-formed entries with one preimage are the same in everything it covers, as strings. */
  lemma PreimageTells(a: RawEntry, b: RawEntry)
    requires WellFormed(a) && WellFormed(b) && EntryPreimage(a) == EntryPreimage(b)
    ensures a.globalSeq == b.globalSeq && a.timestamp == b.timestamp && a.contentHash == b.contentHash && a.previousHash == b.previousHash
  {
    HexHasNoPipe(a.previousHash);
    HexHasNoPipe(b.previousHash);
    SeqSpelled(a.globalSeq);
    SeqSpelled(b.globalSeq);
    FormatParsed(a.timestamp);
    FormatParsed(b.timestamp);
    hide ChainPreimage, ParseTimestamp, FormatTimestamp, ParseSeq, Decimal, HashShape, EntryIdOK;
    ChainPreimageInjective(a.previousHash, SeqOf(a), ParseTimestamp(a.timestamp).value, a.contentHash,
                           b.previousHash, SeqOf(b), ParseTimestamp(b.timestamp).value, b.contentHash);
  }

  lemma HashTells(w: World, a: seq<RawEntry>, n: nat, i: nat, b: seq<RawEntry>, m: nat, j: nat, inputs: set<string>)
    requires Chained(w, a, n) && Chained(w, b, m) && i < n && j < m
    requires NoCollision(w.sha, inputs) && Hashed(a, n) + Hashed(b, m) <= inputs
    requires a[i].chainHash == b[j].chainHash
    ensures i == j && SameEntry(a[i], b[j])
  {
    assert EntryPreimage(a[i]) in Hashed(a, n) && EntryPreimage(b[j]) in Hashed(b, m);
    SeqIsIndex(w, a, n, i);
    SeqIsIndex(w, b, m, j);
    hide WellFormed, EntryPreimage, ParseSeq;
    assert w.sha(EntryPreimage(a[i])) == w.sha(EntryPreimage(b[j])) by { Expected(w, a[i]); Expected(w, b[j]); }
    PreimageTells(a[i], b[j]);
  }

  lemma Expected(w: World, e: RawEntry)
    requires WellFormed(e)
    ensures ExpectedHash(w, e) == w.sha(EntryPreimage(e))
  {
  }

  lemma Linked(w: World, a: seq<RawEntry>, n: nat, b: seq<RawEntry>, m: nat, i: nat)
    requires Chained(w, a, n) && Chained(w, b, m) && 1 <= i < n && i < m && SameEntry(a[i], b[i])
    ensures a[i - 1].chainHash == b[i - 1].chainHash
  {
    hide WellFormed;
    assert a[i].previousHash == a[i - 1].chainHash && b[i].previousHash == b[i - 1].chainHash;
  }

  /** One chain hash fixes the whole chain before it. */
  lemma {:induction false} SameBack(w: World, a: seq<RawEntry>, n: nat, b: seq<RawEntry>, m: nat, i: nat, inputs: set<string>)
    requires Chained(w, a, n) && Chained(w, b, m) && i < n && i < m
    requires NoCollision(w.sha, inputs) && Hashed(a, n) + Hashed(b, m) <= inputs
    requires a[i].chainHash == b[i].chainHash
    ensures forall k | 0 <= k <= i :: SameEntry(a[k], b[k])
  {
    hide Chained, NoCollision, Hashed, SameEntry;
    HashTells(w, a, n, i, b, m, i, inputs);
    if i > 0 {
      Linked(w, a, n, b, m, i);
      SameBack(w, a, n, b, m, i - 1, inputs);
    }
  }

  /** One anchor hash fixes its five fields. */
  lemma AnchorTells(w: World, a: RawChain, pa: string, ka: Checkpoint, b: RawChain, pb: string, kb: Checkpoint, inputs: set<string>)
    requires Binds(w, a, pa, ka) && Binds(w, b, pb, kb) && ka.chainHash == kb.chainHash
    requires NoCollision(w.sha, inputs) && AnchorInput(a, pa, ka) in inputs && AnchorInput(b, pb, kb) in inputs
    ensures a.id == b.id && pa == pb && ka.rangeStart == kb.rangeStart && ka.rangeEnd == kb.rangeEnd
    ensures a.entries[ka.entryCount - 1].chainHash == b.entries[kb.entryCount - 1].chainHash
  {
    var tipA, tipB := a.entries[ka.entryCount - 1], b.entries[kb.entryCount - 1];
    assert AnchorInput(a, pa, ka) == AnchorInput(b, pb, kb);
    hide AnchorPreimage, NoCollision;
    AnchorPreimageInjective((pa, a.id, ka.rangeStart, ka.rangeEnd, tipA.chainHash), (pb, b.id, kb.rangeStart, kb.rangeEnd, tipB.chainHash));
  }

  /**
   * Two chains that pass checkpoints with the same chain hash are the same chain
   * as far as it covers: as many entries, equal in sequence, time, content hash
   * and links, under one chain id and between the same two entry ids.
   */
  lemma OneHistory(w: World, a: RawChain, pa: string, ka: Checkpoint, b: RawChain, pb: string, kb: Checkpoint, inputs: set<string>)
    requires Binds(w, a, pa, ka) && Chained(w, a.entries, ka.entryCount)
    requires Binds(w, b, pb, kb) && Chained(w, b.entries, kb.entryCount)
    requires ka.chainHash == kb.chainHash && NoCollision(w.sha, inputs)
    requires Hashed(a.entries, ka.entryCount) + Hashed(b.entries, kb.entryCount) <= inputs
    requires AnchorInput(a, pa, ka) in inputs && AnchorInput(b, pb, kb) in inputs
    ensures ka.entryCount == kb.entryCount && a.id == b.id && pa == pb
    ensures ka.rangeStart == kb.rangeStart && ka.rangeEnd == kb.rangeEnd
    ensures forall i | 0 <= i < ka.entryCount :: SameEntry(a.entries[i], b.entries[i])
  {
    var n, m := ka.entryCount, kb.entryCount;
    hide Chained, Hashed, NoCollision, SameEntry;
    AnchorTells(w, a, pa, ka, b, pb, kb, inputs);
    HashTells(w, a.entries, n, n - 1, b.entries, m, m - 1, inputs);
    SameBack(w, a.entries, n, b.entries, m, n - 1, inputs);
  }
}
