/** The erasure a sink writes is the one a bundle's verifier recognises, and no other. */
module ErasureMeaning {
  import opened Basics
  import opened Text
  import opened Bundles
  import opened Verdicts
  import S = SinkState

  /** A sink's chain as a verifier has it: numbered from 0, under the two types, an erasure's hash that of its record. */
  ghost predicate HeldAs(w: World, es: seq<S.Entry>, raws: seq<RawEntry>) {
    |raws| == |es|
    && forall i | 0 <= i < |es| ::
         && WellFormed(raws[i]) && raws[i].globalSeq == Decimal(i)
         && raws[i].entryType == (match es[i].kind case Event => "sink.event" case Erasure => "sink.erasure")
         && (es[i].hash.ErasureHash? ==> raws[i].contentHash == w.sha("aleutian.sink.erasure.v1:" + es[i].hash.record))
  }

  /** No event's commitment is the hash of an erasure record. */
  ghost predicate EventsApart(w: World, es: seq<S.Entry>, raws: seq<RawEntry>)
    requires |raws| == |es|
  {
    forall i | 0 < i < |es| && es[i].kind == S.Event :: raws[i].contentHash != ErasureHash(w, raws[i - 1].globalSeq)
  }

  /** The record the sink stores is the one the verifier hashes. */
  lemma RecordHashed(w: World, n: nat)
    ensures w.sha("aleutian.sink.erasure.v1:" + S.ErasureRecord(n)) == ErasureHash(w, Decimal(n))
  {
    hide Decimal;
  }

  /**
   * A verifier finds an erasure on a sink's chain exactly when the sink does:
   * at its end, of the right type, and the last there is.
   */
  lemma ErasureRecognised(w: World, es: seq<S.Entry>, raws: seq<RawEntry>)
    requires HeldAs(w, es, raws) && S.Shaped(es) && EventsApart(w, es, raws)
    ensures LastErasure(w, raws, |raws|) == if S.Erased(es) then |es| - 1 else -1
    ensures S.Erased(es) ==> HoldsErasure(w, raws, |es| - 1) && raws[|es| - 1].entryType == ERASURE
  {
    hide S.ErasureRecord, Decimal, WellFormed, ErasureHash;
    LastErasureIs(w, raws, |raws|);
    forall i | 0 <= i < |es| && es[i].kind == S.Event ensures !HoldsErasure(w, raws, i) {}
    if S.Erased(es) { RecordHashed(w, |es| - 2); }
  }
}
