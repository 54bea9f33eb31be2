/** Two bundles against one checkpoint: the histories, and the checkpoint series, are the same. */
module Histories {
  import opened Basics
  import opened Preimages
  import opened Bundles
  import opened Verdicts
  import opened Tampering
  import opened Consequences

  const SEED_PREIMAGE := "aleutian.anchor.seed.v2"

  /** Checkpoint k of the chain passed, and the chain has no problem. */
  ghost predicate Accepted(t: Trust, c: RawChain, k: nat) {
    AllFound(t, c) == [] && k < |c.checkpoints|
  }

  /** What checkpoint k follows. */
  function Before(c: RawChain, k: nat): string
    requires k <= |c.checkpoints|
  {
    if k == 0 then SEED_ANCHOR_HASH else match c.checkpoints[k - 1] case Some(ck) => ck.chainHash case None => ""
  }

  function AnchorInputs(c: RawChain): set<string> {
    set k | 0 <= k < |c.checkpoints| && c.checkpoints[k].Some? && 1 <= c.checkpoints[k].value.entryCount <= |c.entries| ::
      AnchorInput(c, Before(c, k), c.checkpoints[k].value)
  }

  /** Everything hashed to check the chain, its checkpoints and the seed they start from. */
  function Inputs(c: RawChain): set<string>
    requires AllWellFormed(c.entries, |c.entries|)
  {
    Hashed(c.entries, |c.entries|) + AnchorInputs(c) + {SEED_PREIMAGE}
  }

  lemma AcceptedMeans(t: Trust, c: RawChain, k: nat)
    requires Accepted(t, c, k)
    ensures k < |c.checkpoints| && Sound(t.world, c.entries) && AllWellFormed(c.entries, |c.entries|) && c.checkpoints[k].Some?
    ensures var ck := c.checkpoints[k].value;
            Binds(t.world, c, Before(c, k), ck) && Chained(t.world, c.entries, ck.entryCount)
            && Hashed(c.entries, ck.entryCount) <= Hashed(c.entries, |c.entries|)
            && AnchorInput(c, Before(c, k), ck) in AnchorInputs(c)
    ensures k > 0 ==> Accepted(t, c, k - 1)
  {
    CleanExactly(t, c);
    PassingIs(t, c, 0);
    assert CheckpointCode(t, c, k) == None;
    hide AllFound, CheckpointCode, Passing, Misdescribes, SignatureCode;
    PassedOne(t, c, k);
    BindsWell(t.world, c, k);
    ChainedLess(t.world, c.entries, c.checkpoints[k].value.entryCount);
  }

  lemma BindsWell(w: World, c: RawChain, k: nat)
    requires k < |c.checkpoints| && forall j | 0 <= j <= k :: c.checkpoints[j].Some?
    requires 1 <= c.checkpoints[k].value.entryCount <= |c.entries|
    requires !Misdescribes(w, c, HeadAt(c, k), c.checkpoints[k].value)
    ensures Binds(w, c, Before(c, k), c.checkpoints[k].value)
    ensures AnchorInput(c, Before(c, k), c.checkpoints[k].value) in AnchorInputs(c)
  {
    hide AnchorHash, PrefixWellFormed, AnchorPreimage;
  }

  lemma ChainedLess(w: World, entries: seq<RawEntry>, n: nat)
    requires Chained(w, entries, |entries|) && n <= |entries|
    ensures Chained(w, entries, n) && Hashed(entries, n) <= Hashed(entries, |entries|)
  {
    hide WellFormed, ExpectedHash, EntryPreimage;
  }

  /** The seed is no checkpoint's chain hash. */
  lemma SeedIsApart(c: RawChain, previous: string, ck: Checkpoint)
    requires 1 <= ck.entryCount <= |c.entries|
    ensures AnchorInput(c, previous, ck) != SEED_PREIMAGE
  {
    assert AnchorInput(c, previous, ck)[16] == 'v' && SEED_PREIMAGE[16] == 's';
  }

  /**
   * Tamper evidence. Two chains without problems that carry a checkpoint of the
   * same chain hash are one history up to it: every covered entry the same in
   * sequence, time, content hash and links, the same place in the series, and
   * the same chain hash at every checkpoint before it.
   */
  lemma {:induction false} SameHistory(t: Trust, a: RawChain, k: nat, u: Trust, b: RawChain, l: nat)
    requires t.world == u.world && Accepted(t, a, k) && Accepted(u, b, l)
    requires AllWellFormed(a.entries, |a.entries|) && AllWellFormed(b.entries, |b.entries|)
    requires NoCollision(t.world.sha, Inputs(a) + Inputs(b)) && t.world.sha(SEED_PREIMAGE) == SEED_ANCHOR_HASH
    requires a.checkpoints[k].Some? && b.checkpoints[l].Some? && a.checkpoints[k].value.chainHash == b.checkpoints[l].value.chainHash
    ensures a.id == b.id && k == l && a.checkpoints[k].value.entryCount == b.checkpoints[l].value.entryCount
    ensures a.checkpoints[k].value.entryCount <= |a.entries| && a.checkpoints[k].value.entryCount <= |b.entries|
    ensures forall i | 0 <= i < a.checkpoints[k].value.entryCount :: SameEntry(a.entries[i], b.entries[i])
    ensures forall j | 0 <= j <= k ::
              a.checkpoints[j].Some? && b.checkpoints[j].Some?
              && a.checkpoints[j].value.chainHash == b.checkpoints[j].value.chainHash
              && a.checkpoints[j].value.entryCount == b.checkpoints[j].value.entryCount
    decreases k
  {
    hide Accepted, NoCollision, Sound, Chained, Hashed, AnchorInputs, SameEntry, Binds, AnchorInput, AllWellFormed;
    AcceptedMeans(t, a, k);
    AcceptedMeans(u, b, l);
    var ka, kb := a.checkpoints[k].value, b.checkpoints[l].value;
    OneHistory(t.world, a, Before(a, k), ka, b, Before(b, l), kb, Inputs(a) + Inputs(b));
    BindsCounts(t.world, a, Before(a, k), ka);
    BindsCounts(t.world, b, Before(b, l), kb);
    assert Before(a, k) == Before(b, l);
    if k == 0 && l > 0 {
      SeedNotReached(u, b, l - 1, Inputs(a) + Inputs(b));
    } else if k > 0 && l == 0 {
      SeedNotReached(t, a, k - 1, Inputs(a) + Inputs(b));
    } else if k > 0 {
      AcceptedMeans(t, a, k - 1);
      AcceptedMeans(u, b, l - 1);
      SameHistory(t, a, k - 1, u, b, l - 1);
    }
  }

  lemma BindsCounts(w: World, c: RawChain, previous: string, ck: Checkpoint)
    requires Binds(w, c, previous, ck)
    ensures 1 <= ck.entryCount <= |c.entries|
  {
  }

  lemma SeedNotReached(t: Trust, c: RawChain, k: nat, inputs: set<string>)
    requires Accepted(t, c, k) && NoCollision(t.world.sha, inputs)
    requires AllWellFormed(c.entries, |c.entries|) && Inputs(c) <= inputs && t.world.sha(SEED_PREIMAGE) == SEED_ANCHOR_HASH
    ensures Before(c, k + 1) != SEED_ANCHOR_HASH
  {
    AcceptedMeans(t, c, k);
    var ck := c.checkpoints[k].value;
    SeedIsApart(c, Before(c, k), ck);
    hide Accepted, Sound, Chained, Hashed, AnchorInputs, AnchorPreimage, AllWellFormed;
    assert AnchorInput(c, Before(c, k), ck) in inputs && SEED_PREIMAGE in inputs;
  }
}
