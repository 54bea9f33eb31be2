/** The chains a well-structured bundle holds, looked up member by member, and the proof that one pass builds them. */
module BundleDecode {
  import opened Basics
  import opened JsonTree
  import opened Findings
  import opened BundleMeaning

  // ---- Lookups ----

  function Lookup(ms: seq<Member>, name: Bytes): (r: Option<Json>)
    ensures r.Some? ==> exists m <- ms :: m.name == name && m.value == r.value
  {
    if ms == [] then None
    else
      var n := |ms| - 1;
      match Lookup(ms[..n], name)
      case Some(v) => Some(v)
      case None => if ms[n].name == name then Some(ms[n].value) else None
  }

  lemma {:induction false} LookupNone(ms: seq<Member>, name: Bytes)
    ensures Lookup(ms, name) == None <==> !Named(ms, name)
  {
    if ms != [] {
      var n := |ms| - 1;
      assert ms == ms[..n] + [ms[n]];
      LookupNone(ms[..n], name);
    }
  }

  /** The value of a defined member, by its index. */
  function MemberAt(kind: Kind, ms: seq<Member>, k: nat): Option<Json> {
    if k < |NamesOf(kind)| then Lookup(ms, Ascii(NamesOf(kind)[k])) else None
  }

  function TextAt(kind: Kind, ms: seq<Member>, k: nat): Bytes {
    match MemberAt(kind, ms, k) case Some(Str(s)) => (if k < |Caps(kind)| then Cap(s, Caps(kind)[k]) else s) case _ => []
  }

  function ArrayAtMember(kind: Kind, ms: seq<Member>, k: nat): seq<Json> {
    match MemberAt(kind, ms, k) case Some(Arr(es)) => es case _ => []
  }

  // ---- Decoding ----

  function DecodePair(kind: Kind, t: Option<Json>): Option<Pair> {
    match t case Some(Obj(ms)) => Some(Pair(TextAt(kind, ms, 0), TextAt(kind, ms, 1))) case _ => None
  }

  function DecodeEntry(ms: seq<Member>): EntryRead {
    EntryRead(seq(7, k requires 0 <= k < 7 => TextAt(Entry, ms, k)),
              DecodePair(Signature, MemberAt(Entry, ms, 7)), DecodePair(Disclosed, MemberAt(Entry, ms, 8)))
  }

  function DecodeEntries(es: seq<Json>): seq<EntryRead> {
    if es == [] then []
    else
      var n := |es| - 1;
      DecodeEntries(es[..n]) + match es[n] case Obj(ms) => [DecodeEntry(ms)] case _ => []
  }

  function DecodeCheckpoints(limit: nat, es: seq<Json>): seq<Option<Bytes>> {
    if es == [] then []
    else
      var n := |es| - 1;
      DecodeCheckpoints(limit, es[..n]) + match es[n] case Str(s) => [if |s| <= limit then Some(s) else None] case _ => []
  }

  function DecodeId(env: Env, t: Option<Json>): Bytes {
    match t case Some(Str(s)) => StoredId(env, s) case _ => []
  }

  function DecodeChain(env: Env, ms: seq<Member>): ChainRead {
    ChainRead(DecodeId(env, MemberAt(Chain, ms, 0)), DecodeEntries(ArrayAtMember(Chain, ms, 1)),
              DecodeCheckpoints(env.lim.checkpointBytes, ArrayAtMember(Chain, ms, 2)))
  }

  function DecodeChains(env: Env, es: seq<Json>): seq<ChainRead> {
    if es == [] then []
    else
      var n := |es| - 1;
      DecodeChains(env, es[..n]) + match es[n] case Obj(ms) => [DecodeChain(env, ms)] case _ => []
  }

  function DecodeBundle(env: Env, ms: seq<Member>): seq<ChainRead> {
    DecodeChains(env, ArrayAtMember(Bundle, ms, 1))
  }

  // ---- Names ----

  lemma AsciiApart(a: string, c: string)
    requires |a| != |c| || (a != [] && a[0] != c[0] && a[0] < 256 as char && c[0] < 256 as char)
    ensures Ascii(a) != Ascii(c)
  {
    if |a| == |c| { assert Ascii(a)[0] != Ascii(c)[0]; }
  }

  /** No two members of an object are defined by one name. */
  lemma NamesApart(kind: Kind, j: nat, k: nat)
    requires j < k < |NamesOf(kind)|
    ensures Ascii(NamesOf(kind)[j]) != Ascii(NamesOf(kind)[k])
  {
    AsciiApart(NamesOf(kind)[j], NamesOf(kind)[k]);
  }

  lemma IndexOfName(kind: Kind, k: nat)
    requires k < |NamesOf(kind)|
    ensures IndexOf(kind, Ascii(NamesOf(kind)[k])) == Some(k)
  {
    hide NamesOf;
    var name := Ascii(NamesOf(kind)[k]);
    var j := IndexOf(kind, name).value;
    if j < k { NamesApart(kind, j, k); }
    if k < j { NamesApart(kind, k, j); }
  }

  /** One more member changes what is looked up under its own name, and nothing else. */
  lemma MemberAtMore(kind: Kind, ms: seq<Member>, m: Member, idx: nat, k: nat)
    requires IndexOf(kind, m.name) == Some(idx) && !Named(ms, m.name) && k < |NamesOf(kind)|
    ensures idx < |NamesOf(kind)|
    ensures MemberAt(kind, ms + [m], k) == if k == idx then Some(m.value) else MemberAt(kind, ms, k)
    ensures MemberAt(kind, ms, idx) == None
  {
    hide NamesOf;
    IndexOfName(kind, k);
    LookupNone(ms, m.name);
    assert (ms + [m])[..|ms|] == ms;
    assert m.name == Ascii(NamesOf(kind)[idx]);
  }

  // ---- What is built ----

  predicate AllDefined(kind: Kind, ms: seq<Member>) {
    DistinctNames(ms) && forall m <- ms :: IndexOf(kind, m.name).Some? && SlotFits(SlotOf(kind, IndexOf(kind, m.name).value), m.value)
  }

  lemma InitDefined(kind: Kind, ms: seq<Member>)
    requires AllDefined(kind, ms) && ms != []
    ensures var n := |ms| - 1;
            && AllDefined(kind, ms[..n]) && !Named(ms[..n], ms[n].name) && IndexOf(kind, ms[n].name).Some?
            && SlotFits(SlotOf(kind, IndexOf(kind, ms[n].name).value), ms[n].value) && ms == ms[..n] + [ms[n]]
            && IndexOf(kind, ms[n].name).value < |NamesOf(kind)|
  {
    hide IndexOf, SlotFits, SlotOf;
    NotBefore(ms);
    IndexInRange(kind, ms[|ms| - 1].name);
  }

  lemma IndexInRange(kind: Kind, name: Bytes)
    ensures IndexOf(kind, name).Some? ==> IndexOf(kind, name).value < |NamesOf(kind)|
  {
  }

  function PairSoFar(kind: Kind, ms: seq<Member>): Pair {
    Pair(TextAt(kind, ms, 0), TextAt(kind, ms, 1))
  }

  lemma {:induction false} PairBuilt(env: Env, kind: Kind, b: Built, ms: seq<Member>)
    requires kind in {Signature, Disclosed} && AllDefined(kind, ms)
    ensures BuildMembers(env, kind, WithPair(kind, b, Pair([], [])), ms) == WithPair(kind, b, PairSoFar(kind, ms))
  {
    hide IndexOf, SlotFits, DistinctNames, Lookup, NamesOf, BuildSlot, PairSoFar;
    if ms != [] {
      InitDefined(kind, ms);
      var n := |ms| - 1;
      PairBuilt(env, kind, b, ms[..n]);
      PairStep(env, kind, b, ms[..n], ms[n], IndexOf(kind, ms[n].name).value);
    } else {
      PairBlank(kind);
    }
  }

  lemma PairBlank(kind: Kind)
    ensures PairSoFar(kind, []) == Pair([], [])
  {
    NothingThere(kind, 0);
    NothingThere(kind, 1);
  }

  lemma PairStep(env: Env, kind: Kind, b: Built, ms: seq<Member>, m: Member, idx: nat)
    requires kind in {Signature, Disclosed} && IndexOf(kind, m.name) == Some(idx) && !Named(ms, m.name)
    requires SlotFits(SlotOf(kind, idx), m.value)
    ensures BuildSlot(env, kind, idx, WithPair(kind, b, PairSoFar(kind, ms)), m.value) == WithPair(kind, b, PairSoFar(kind, ms + [m]))
  {
    hide IndexOf, Lookup, NamesOf, MemberAt;
    TwoNames(kind);
    IndexInRange(kind, m.name);
    MemberAtMore(kind, ms, m, idx, 0);
    MemberAtMore(kind, ms, m, idx, 1);
    TextSlot(kind, idx, m.value);
  }

  lemma TwoNames(kind: Kind)
    requires kind in {Signature, Disclosed}
    ensures |NamesOf(kind)| == 2
  {
  }

  lemma TextSlot(kind: Kind, idx: nat, t: Json)
    requires kind in {Signature, Disclosed} && idx < 2 && SlotFits(SlotOf(kind, idx), t)
    ensures t.Str?
  {
  }

  lemma NothingThere(kind: Kind, k: nat)
    ensures MemberAt(kind, [], k) == None
  {
  }

  lemma {:induction false} EntryBuilt(env: Env, b: Built, ms: seq<Member>)
    requires AllDefined(Entry, ms) && b.entry == BLANK_ENTRY && forall m <- ms :: !HasDuplicate(m.value)
    ensures BuildMembers(env, Entry, b, ms) == b.(entry := DecodeEntry(ms))
  {
    hide IndexOf, SlotFits, DistinctNames, Lookup, NamesOf, MemberAt, HasDuplicate, BuildSlot;
    if ms != [] {
      InitDefined(Entry, ms);
      var n := |ms| - 1;
      EntryBuilt(env, b, ms[..n]);
      EntryStep(env, b, ms[..n], ms[n], IndexOf(Entry, ms[n].name).value);
    } else {
      assert forall k :: MemberAt(Entry, [], k) == None by {
        forall k: nat ensures MemberAt(Entry, [], k) == None { NothingThere(Entry, k); }
      }
      assert DecodeEntry([]) == BLANK_ENTRY;
    }
  }

  lemma EntryStep(env: Env, b: Built, ms: seq<Member>, m: Member, idx: nat)
    requires IndexOf(Entry, m.name) == Some(idx) && !Named(ms, m.name) && SlotFits(SlotOf(Entry, idx), m.value) && !HasDuplicate(m.value)
    ensures BuildSlot(env, Entry, idx, b.(entry := DecodeEntry(ms)), m.value) == b.(entry := DecodeEntry(ms + [m]))
  {
    hide IndexOf, Lookup, MemberAt, HasDuplicate, SlotFits, NamesOf, BuildMembers;
    NineNames();
    IndexInRange(Entry, m.name);
    forall k: nat | k < 9
      ensures MemberAt(Entry, ms + [m], k) == if k == idx then Some(m.value) else MemberAt(Entry, ms, k)
    {
      MemberAtMore(Entry, ms, m, idx, k);
    }
    MemberAtMore(Entry, ms, m, idx, idx);
    EntrySlot(idx, m.value);
    if idx < 7 {
      assert DecodeEntry(ms + [m]).fields == DecodeEntry(ms).fields[idx := TextAt(Entry, ms + [m], idx)];
    } else {
      assert DecodeEntry(ms + [m]).fields == DecodeEntry(ms).fields;
      var kind := if idx == 7 then Signature else Disclosed;
      PairFits(kind, m.value);
      PairBuilt(env, kind, b.(entry := DecodeEntry(ms)), m.value.members);
    }
  }

  lemma NineNames()
    ensures |NamesOf(Entry)| == 9 && |NamesOf(Chain)| == 3 && |NamesOf(Bundle)| == 2
  {
  }

  lemma EntrySlot(idx: nat, t: Json)
    requires idx < 9 && SlotFits(SlotOf(Entry, idx), t)
    ensures if idx < 7 then t.Str? else t.Obj? && Fits(if idx == 7 then Signature else Disclosed, t.members)
  {
    hide Fits;
  }

  lemma PairFits(kind: Kind, t: Json)
    requires t.Obj? && Fits(kind, t.members) && !HasDuplicate(t)
    ensures AllDefined(kind, t.members) && forall m <- t.members :: !HasDuplicate(m.value)
  {
    NoneInside(t);
    hide HasDuplicate, SlotFits, IndexOf;
  }

  /** Built so far, apart from the entry in hand. */
  predicate SameChain(b: Built, c: Built) {
    b.chains == c.chains && b.chain == c.chain
  }

  lemma {:induction false} EntriesBuilt(env: Env, b: Built, es: seq<Json>)
    requires forall e <- es :: ElemFits(EntryElem, e) && !HasDuplicate(e)
    ensures SameChain(BuildElems(env, EntryElem, b, es), b.(chain := b.chain.(entries := b.chain.entries + DecodeEntries(es))))
    ensures |DecodeEntries(es)| == |es|
  {
    hide Fits, HasDuplicate, BuildMembers, DecodeEntry;
    if es != [] {
      var n := |es| - 1;
      assert es == es[..n] + [es[n]];
      EntriesBuilt(env, b, es[..n]);
      var c := BuildElems(env, EntryElem, b, es[..n]);
      assert es[n] in es && es[n].Obj? && Fits(Entry, es[n].members);
      PairFits(Entry, es[n]);
      EntryBuilt(env, c.(entry := BLANK_ENTRY), es[n].members);
      assert b.chain.entries + DecodeEntries(es[..n]) + [DecodeEntry(es[n].members)]
          == b.chain.entries + (DecodeEntries(es[..n]) + [DecodeEntry(es[n].members)]);
    } else {
      assert b.chain.entries + [] == b.chain.entries;
    }
  }

  lemma {:induction false} CheckpointsBuilt(env: Env, b: Built, es: seq<Json>)
    requires forall e <- es :: ElemFits(CheckpointElem, e)
    ensures BuildElems(env, CheckpointElem, b, es)
         == b.(chain := b.chain.(checkpoints := b.chain.checkpoints + DecodeCheckpoints(env.lim.checkpointBytes, es)))
    ensures |DecodeCheckpoints(env.lim.checkpointBytes, es)| == |es|
  {
    if es != [] {
      var n := |es| - 1;
      assert es == es[..n] + [es[n]];
      CheckpointsBuilt(env, b, es[..n]);
      assert es[n] in es && es[n].Str?;
      var text := if |es[n].s| <= env.lim.checkpointBytes then Some(es[n].s) else None;
      assert b.chain.checkpoints + DecodeCheckpoints(env.lim.checkpointBytes, es[..n]) + [text]
          == b.chain.checkpoints + (DecodeCheckpoints(env.lim.checkpointBytes, es[..n]) + [text]);
    } else {
      assert b.chain.checkpoints + [] == b.chain.checkpoints;
    }
  }

  lemma {:induction false} ChainBuilt(env: Env, b: Built, ms: seq<Member>)
    requires AllDefined(Chain, ms) && b.chain == BLANK_CHAIN && forall m <- ms :: !HasDuplicate(m.value)
    ensures SameChain(BuildMembers(env, Chain, b, ms), b.(chain := DecodeChain(env, ms)))
  {
    hide IndexOf, SlotFits, DistinctNames, Lookup, NamesOf, MemberAt, HasDuplicate, BuildSlot, DecodeChain;
    if ms != [] {
      InitDefined(Chain, ms);
      var n := |ms| - 1;
      ChainBuilt(env, b, ms[..n]);
      ChainStep(env, BuildMembers(env, Chain, b, ms[..n]), ms[..n], ms[n], IndexOf(Chain, ms[n].name).value);
    } else {
      ChainBlank(env);
    }
  }

  lemma ChainBlank(env: Env)
    ensures DecodeChain(env, []) == BLANK_CHAIN
  {
    NothingThere(Chain, 0);
    NothingThere(Chain, 1);
    NothingThere(Chain, 2);
    hide MemberAt;
  }

  lemma ChainStep(env: Env, b: Built, ms: seq<Member>, m: Member, idx: nat)
    requires IndexOf(Chain, m.name) == Some(idx) && !Named(ms, m.name) && SlotFits(SlotOf(Chain, idx), m.value) && !HasDuplicate(m.value)
    requires b.chain == DecodeChain(env, ms)
    ensures SameChain(BuildSlot(env, Chain, idx, b, m.value), b.(chain := DecodeChain(env, ms + [m])))
  {
    hide IndexOf, Lookup, MemberAt, HasDuplicate, NamesOf, BuildElems, ElemFits, DecodeEntries, DecodeCheckpoints;
    NineNames();
    MemberAtMore(Chain, ms, m, idx, 0);
    MemberAtMore(Chain, ms, m, idx, 1);
    MemberAtMore(Chain, ms, m, idx, 2);
    MemberAtMore(Chain, ms, m, idx, idx);
    NothingDecoded(env);
    if idx == 1 {
      NoneInside(m.value);
      EntriesBuilt(env, b, m.value.elems);
      assert b.chain.entries + DecodeEntries(m.value.elems) == DecodeEntries(m.value.elems);
    } else if idx == 2 {
      CheckpointsBuilt(env, b, m.value.elems);
      assert b.chain.checkpoints + DecodeCheckpoints(env.lim.checkpointBytes, m.value.elems)
          == DecodeCheckpoints(env.lim.checkpointBytes, m.value.elems);
    }
  }

  lemma NothingDecoded(env: Env)
    ensures DecodeEntries([]) == [] && DecodeCheckpoints(env.lim.checkpointBytes, []) == [] && DecodeChains(env, []) == []
  {
  }

  lemma {:induction false} ChainsBuilt(env: Env, b: Built, es: seq<Json>)
    requires forall e <- es :: ElemFits(ChainElem, e) && !HasDuplicate(e)
    ensures BuildElems(env, ChainElem, b, es).chains == b.chains + DecodeChains(env, es)
    ensures |DecodeChains(env, es)| == |es|
  {
    hide Fits, HasDuplicate, BuildMembers, DecodeChain;
    if es != [] {
      var n := |es| - 1;
      assert es == es[..n] + [es[n]];
      ChainsBuilt(env, b, es[..n]);
      var c := BuildElems(env, ChainElem, b, es[..n]);
      assert es[n] in es && es[n].Obj? && Fits(Chain, es[n].members);
      PairFits(Chain, es[n]);
      ChainBuilt(env, c.(chain := BLANK_CHAIN), es[n].members);
      assert b.chains + DecodeChains(env, es[..n]) + [DecodeChain(env, es[n].members)]
          == b.chains + (DecodeChains(env, es[..n]) + [DecodeChain(env, es[n].members)]);
    } else {
      assert b.chains + [] == b.chains;
    }
  }

  /** What one pass builds of a bundle that fits is what the bundle holds. */
  lemma {:induction false} BundleBuilt(env: Env, ms: seq<Member>)
    requires AllDefined(Bundle, ms) && forall m <- ms :: !HasDuplicate(m.value)
    ensures BuildMembers(env, Bundle, Built([], BLANK_CHAIN, BLANK_ENTRY), ms).chains == DecodeBundle(env, ms)
  {
    hide IndexOf, SlotFits, DistinctNames, Lookup, NamesOf, MemberAt, HasDuplicate, BuildSlot, DecodeBundle;
    if ms != [] {
      InitDefined(Bundle, ms);
      var n := |ms| - 1;
      BundleBuilt(env, ms[..n]);
      BundleStep(env, BuildMembers(env, Bundle, Built([], BLANK_CHAIN, BLANK_ENTRY), ms[..n]), ms[..n], ms[n], IndexOf(Bundle, ms[n].name).value);
    } else {
      BundleBlank(env);
    }
  }

  lemma BundleBlank(env: Env)
    ensures DecodeBundle(env, []) == []
  {
    NothingThere(Bundle, 1);
  }

  lemma BundleStep(env: Env, b: Built, ms: seq<Member>, m: Member, idx: nat)
    requires IndexOf(Bundle, m.name) == Some(idx) && !Named(ms, m.name) && SlotFits(SlotOf(Bundle, idx), m.value) && !HasDuplicate(m.value)
    requires b.chains == DecodeBundle(env, ms)
    ensures BuildSlot(env, Bundle, idx, b, m.value).chains == DecodeBundle(env, ms + [m])
  {
    hide IndexOf, Lookup, MemberAt, HasDuplicate, NamesOf, BuildElems, ElemFits, DecodeChains;
    NineNames();
    MemberAtMore(Bundle, ms, m, idx, 1);
    MemberAtMore(Bundle, ms, m, idx, idx);
    NothingDecoded(env);
    if idx == 1 {
      NoneInside(m.value);
      ChainsBuilt(env, b, m.value.elems);
      assert b.chains + DecodeChains(env, m.value.elems) == DecodeChains(env, m.value.elems);
    }
  }
}
