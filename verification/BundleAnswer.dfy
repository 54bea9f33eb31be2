/** The answer a bundle deserves, parsed whole and then judged, and the reader's one pass giving exactly it. */
module BundleAnswer {
  import opened Basics
  import opened JsonTree
  import opened Findings
  import opened NameArena
  import opened ReaderState
  import opened BundleReader
  import opened BundleMeaning
  import opened BundleDecode

  // ---- Only the bundle's own `format` says anything of a format ----

  predicate Plain(e: Eff) {
    match e case Eff(_, _, _, _, _, _, misformat, format) => format == None && !misformat
  }

  lemma PlainBoth(a: Eff, c: Eff)
    requires Plain(a) && Plain(c)
    ensures Plain(Plus(a, c))
  {
  }

  lemma PlainIf(a: Eff, cond: bool)
    requires Plain(a)
    ensures Plain(Plus(a, If(cond, VIOLATION))) && Plain(Plus(VIOLATION, a)) && Plain(ONE_VALUE) && Plain(NOTHING)
  {
  }

  lemma {:induction false} AnyPlain(t: Json)
    ensures Plain(EffAny(t))
    decreases t, 0
  {
    match t
    case Obj(ms) => ObjPlain(Other, ms);
    case Arr(es) => ElemsPlain(AnyElem, es); PlainBoth(ONE_VALUE, EffElems(AnyElem, es));
    case _ =>
  }

  lemma {:induction false} ObjPlain(kind: Kind, ms: seq<Member>)
    requires kind != Bundle
    ensures Plain(EffObj(kind, ms))
    decreases ms, 2
  {
    hide EffMembers, DistinctNames;
    MembersPlain(kind, ms);
  }

  lemma {:induction false} MembersPlain(kind: Kind, ms: seq<Member>)
    requires kind != Bundle
    ensures Plain(EffMembers(kind, ms))
    decreases ms, 1
  {
    hide EffMember, Plus;
    if ms != [] {
      var n := |ms| - 1;
      MembersPlain(kind, ms[..n]);
      MemberPlain(kind, ms[..n], ms[n].name, ms[n].value);
      PlainBoth(EffMembers(kind, ms[..n]), EffMember(kind, ms[..n], ms[n].name, ms[n].value));
    }
  }

  lemma {:induction false} MemberPlain(kind: Kind, before: seq<Member>, name: Bytes, t: Json)
    requires kind != Bundle
    ensures Plain(EffMember(kind, before, name, t))
    decreases t, 3
  {
    hide IndexOf, EffAny, EffSlot, Plus, Plain;
    AnyPlain(t);
    PlainIf(EffAny(t), true);
    if IndexOf(kind, name).Some? { SlotPlain(SlotOf(kind, IndexOf(kind, name).value), t); }
  }

  lemma {:induction false} TextPlain(t: Json)
    ensures Plain(EffText(t))
    decreases t, 1
  {
    hide EffAny, Plus, Plain;
    AnyPlain(t);
    PlainIf(EffAny(t), true);
  }

  lemma {:induction false} SlotPlain(slot: Slot, t: Json)
    requires slot != FormatValue && (slot.PairValue? ==> slot.kind != Bundle)
    ensures Plain(EffSlot(slot, t))
    decreases t, 2
  {
    hide EffAny, EffArray, EffText, EffObj, Plus, If, Plain, SeenIn;
    AnyPlain(t);
    TextPlain(t);
    PlainIf(EffAny(t), true);
    ArrayPlain(ChainElem, t);
    ArrayPlain(EntryElem, t);
    ArrayPlain(CheckpointElem, t);
    PlainIf(EffArray(EntryElem, t), t.Arr? && t.elems == []);
    match slot {
      case PairValue(kind) =>
        if t.Obj? {
          ObjPlain(kind, t.members);
          PlainIf(EffObj(kind, t.members), SeenIn(kind, t.members) != {0, 1});
        }
      case _ =>
    }
  }

  lemma {:induction false} ArrayPlain(elem: Elem, t: Json)
    ensures Plain(EffArray(elem, t))
    decreases t, 1
  {
    hide EffAny, EffElems, Plus, Plain;
    AnyPlain(t);
    PlainIf(EffAny(t), true);
    if t.Arr? {
      ElemsPlain(elem, t.elems);
      PlainBoth(ONE_VALUE, EffElems(elem, t.elems));
    }
  }

  lemma {:induction false} ElemsPlain(elem: Elem, es: seq<Json>)
    ensures Plain(EffElems(elem, es))
    decreases es, 1
  {
    hide EffElem, Plus;
    if es != [] {
      var n := |es| - 1;
      ElemsPlain(elem, es[..n]);
      ElemPlain(elem, es[n]);
      PlainBoth(EffElems(elem, es[..n]), EffElem(elem, es[n]));
    }
  }

  lemma {:induction false} ElemPlain(elem: Elem, t: Json)
    ensures Plain(EffElem(elem, t))
    decreases t, 3
  {
    hide EffAny, EffText, EffObj, Plus, If, SeenIn, ElemBody, RequiredOf, EffElem;
    AnyPlain(t);
    TextPlain(t);
    PlainIf(EffAny(t), true);
    if t.Obj? {
      ObjPlain(Chain, t.members);
      ObjPlain(Entry, t.members);
      PlainIf(EffObj(Chain, t.members), SeenIn(Chain, t.members) != RequiredOf(Chain));
      PlainIf(EffObj(Entry, t.members), !(RequiredOf(Entry) <= SeenIn(Entry, t.members)));
    }
    BodyPlain(elem, t);
    if elem == AnyElem { AnyElemIs(Env(Limits(0, 0, 0, 0, 0, 0, 0), x => x), UNBUILT, t); } else { TypedElemIs(elem, t); }
    PlainBoth(Counts(elem), ElemBody(elem, t));
  }

  lemma BodyPlain(elem: Elem, t: Json)
    requires Plain(EffAny(t)) && Plain(EffText(t)) && Plain(Plus(VIOLATION, EffAny(t)))
    requires t.Obj? ==> Plain(Plus(EffObj(Chain, t.members), If(SeenIn(Chain, t.members) != RequiredOf(Chain), VIOLATION)))
    requires t.Obj? ==> Plain(Plus(EffObj(Entry, t.members), If(!(RequiredOf(Entry) <= SeenIn(Entry, t.members)), VIOLATION)))
    ensures Plain(ElemBody(elem, t))
  {
    hide Plain, Plus, If, EffObj, EffAny, EffText, SeenIn, RequiredOf;
  }

  /** The bundle's members, no two of one name: what `format` was found to be is what it is. */
  lemma {:induction false} FormatFound(ms: seq<Member>)
    requires DistinctNames(ms)
    ensures var e := EffMembers(Bundle, ms);
            match MemberAt(Bundle, ms, 0)
            case None => Plain(e)
            case Some(v) => e.format == Some(v == Str(Ascii(FORMAT_ID))) && (e.misformat <==> e.format == Some(false))
  {
    hide IndexOf, EffMember, DistinctNames, Lookup, NamesOf, MemberAt;
    if ms != [] {
      var n := |ms| - 1;
      assert ms == ms[..n] + [ms[n]];
      NotBefore(ms);
      FormatFound(ms[..n]);
      FormatMemberTells(ms[..n], ms[n]);
    } else {
      NothingThere(Bundle, 0);
    }
  }

  lemma FormatMemberTells(ms: seq<Member>, m: Member)
    requires !Named(ms, m.name)
    ensures var e := EffMember(Bundle, ms, m.name, m.value);
            if IndexOf(Bundle, m.name) == Some(0) then
              MemberAt(Bundle, ms, 0) == None && MemberAt(Bundle, ms + [m], 0) == Some(m.value)
              && e.format == Some(m.value == Str(Ascii(FORMAT_ID))) && (e.misformat <==> e.format == Some(false))
            else MemberAt(Bundle, ms + [m], 0) == MemberAt(Bundle, ms, 0) && Plain(e)
  {
    hide IndexOf, EffAny, EffArray, Lookup, NamesOf, MemberAt, Ascii;
    NineNames();
    AnyPlain(m.value);
    PlainIf(EffAny(m.value), true);
    if IndexOf(Bundle, m.name).Some? {
      IndexInRange(Bundle, m.name);
      MemberAtMore(Bundle, ms, m, IndexOf(Bundle, m.name).value, 0);
      ArrayPlain(ChainElem, m.value);
    } else {
      UnknownElsewhere(Bundle, ms, m, 0);
    }
  }

  lemma UnknownElsewhere(kind: Kind, ms: seq<Member>, m: Member, k: nat)
    requires IndexOf(kind, m.name) == None
    ensures MemberAt(kind, ms + [m], k) == MemberAt(kind, ms, k)
  {
    hide NamesOf;
    if k < |NamesOf(kind)| {
      IndexOfName(kind, k);
      assert (ms + [m])[..|ms|] == ms;
    }
  }

  // ---- Counts ----

  function TotalEntries(chains: seq<ChainRead>): nat {
    if chains == [] then 0 else TotalEntries(chains[..|chains| - 1]) + |chains[|chains| - 1].entries|
  }

  function TotalCheckpoints(chains: seq<ChainRead>): nat {
    if chains == [] then 0 else TotalCheckpoints(chains[..|chains| - 1]) + |chains[|chains| - 1].checkpoints|
  }

  predicate Sizes(e: Eff, chains: nat, entries: nat, checkpoints: nat) {
    match e case Eff(_, _, _, c, n, k, _, _) => c == chains && n == entries && k == checkpoints
  }

  /** What fits is read without a violation, and a defined member once. */
  lemma MemberIsSlot(kind: Kind, ms: seq<Member>)
    requires AllDefined(kind, ms) && ms != []
    ensures var n := |ms| - 1;
            var idx := IndexOf(kind, ms[n].name).value;
            && EffMember(kind, ms[..n], ms[n].name, ms[n].value) == EffSlot(SlotOf(kind, idx), ms[n].value)
            && EffMembers(kind, ms) == Plus(EffMembers(kind, ms[..n]), EffSlot(SlotOf(kind, idx), ms[n].value))
  {
    hide IndexOf, SlotFits, EffSlot, SlotOf;
    InitDefined(kind, ms);
  }

  lemma {:induction false} PairSizes(kind: Kind, ms: seq<Member>)
    requires kind in {Signature, Disclosed} && AllDefined(kind, ms)
    ensures Sizes(EffMembers(kind, ms), 0, 0, 0)
  {
    hide IndexOf, SlotFits, DistinctNames, NamesOf, EffMembers, EffSlot, SlotOf;
    if ms != [] {
      InitDefined(kind, ms);
      var n := |ms| - 1;
      PairSizes(kind, ms[..n]);
      MemberIsSlot(kind, ms);
      TwoNames(kind);
      TextSlot(kind, IndexOf(kind, ms[n].name).value, ms[n].value);
      TextSlotEff(kind, IndexOf(kind, ms[n].name).value, ms[n].value);
    } else {
      NoSizes(kind);
    }
  }

  lemma NoSizes(kind: Kind)
    ensures Sizes(EffMembers(kind, []), 0, 0, 0)
  {
  }

  lemma TextSlotEff(kind: Kind, idx: nat, t: Json)
    requires t.Str? && ((kind in {Signature, Disclosed} && idx < 2) || (kind == Entry && idx < 7) || (kind == Chain && idx == 0))
    ensures EffSlot(SlotOf(kind, idx), t) == ONE_VALUE
  {
    assert SlotOf(kind, idx).TextValue? || SlotOf(kind, idx).IdValue? by { hide EffSlot; }
    hide SlotOf, EffAny, EffArray, EffObj, SeenIn, Plus, FormatWas;
  }

  lemma {:induction false} EntrySizes(ms: seq<Member>)
    requires AllDefined(Entry, ms) && forall m <- ms :: !HasDuplicate(m.value)
    ensures Sizes(EffMembers(Entry, ms), 0, 0, 0)
  {
    hide IndexOf, SlotFits, DistinctNames, NamesOf, EffMembers, EffSlot, SlotOf, HasDuplicate;
    if ms != [] {
      InitDefined(Entry, ms);
      var n := |ms| - 1;
      EntrySizes(ms[..n]);
      MemberIsSlot(Entry, ms);
      NineNames();
      EntrySlotSizes(IndexOf(Entry, ms[n].name).value, ms[n].value);
    } else {
      NoSizes(Entry);
    }
  }

  lemma EntrySlotSizes(idx: nat, t: Json)
    requires idx < 9 && SlotFits(SlotOf(Entry, idx), t) && !HasDuplicate(t)
    ensures Sizes(EffSlot(SlotOf(Entry, idx), t), 0, 0, 0)
  {
    hide SlotFits, EffMembers, HasDuplicate, Fits, SeenIn;
    EntrySlot(idx, t);
    if idx < 7 {
      TextSlotEff(Entry, idx, t);
    } else {
      var kind := if idx == 7 then Signature else Disclosed;
      PairFits(kind, t);
      PairSizes(kind, t.members);
    }
  }

  lemma SizesBoth(a: Eff, c: Eff, n: nat, m: nat, k: nat, n': nat, m': nat, k': nat)
    requires Sizes(a, n, m, k) && Sizes(c, n', m', k')
    ensures Sizes(Plus(a, c), n + n', m + m', k + k')
  {
  }

  lemma ObjSizes(kind: Kind, ms: seq<Member>, n: nat, k: nat, bad: bool)
    requires Sizes(EffMembers(kind, ms), 0, n, k)
    ensures Sizes(Plus(EffObj(kind, ms), If(bad, VIOLATION)), 0, n, k)
  {
    hide EffMembers, DistinctNames;
  }

  /** A typed element counts itself and what its members count. */
  lemma ElemSizes(elem: Elem, t: Json, n: nat, k: nat)
    requires if elem == CheckpointElem then t.Str? && n == k == 0
             else elem != AnyElem && t.Obj? && Sizes(EffMembers(KindOf(elem), t.members), 0, n, k)
    ensures var c := Counts(elem); Sizes(EffElem(elem, t), c.chains, c.entries + n, c.checkpoints + k)
  {
    hide EffMembers, SeenIn, RequiredOf, EffObj, Plus, If, EffElem, EffAny;
    TypedElemIs(elem, t);
    if t.Obj? {
      ObjSizes(KindOf(elem), t.members, n, k, SeenIn(Chain, t.members) != RequiredOf(Chain));
      ObjSizes(KindOf(elem), t.members, n, k, !(RequiredOf(Entry) <= SeenIn(Entry, t.members)));
    }
    SizesBoth(Counts(elem), ElemBody(elem, t), Counts(elem).chains, Counts(elem).entries, Counts(elem).checkpoints, 0, n, k);
  }

  lemma {:induction false} EntriesSizes(es: seq<Json>)
    requires forall e <- es :: ElemFits(EntryElem, e) && !HasDuplicate(e)
    ensures Sizes(EffElems(EntryElem, es), 0, |es|, 0)
  {
    hide Fits, HasDuplicate, EffMembers, SeenIn, EffElem;
    if es != [] {
      var n := |es| - 1;
      assert es == es[..n] + [es[n]];
      EntriesSizes(es[..n]);
      assert es[n] in es && ElemFits(EntryElem, es[n]);
      PairFits(Entry, es[n]);
      EntrySizes(es[n].members);
      ElemSizes(EntryElem, es[n], 0, 0);
    }
  }

  lemma {:induction false} CheckpointsSizes(es: seq<Json>)
    requires forall e <- es :: ElemFits(CheckpointElem, e)
    ensures Sizes(EffElems(CheckpointElem, es), 0, 0, |es|)
  {
    hide EffElem;
    if es != [] {
      var n := |es| - 1;
      assert es == es[..n] + [es[n]];
      CheckpointsSizes(es[..n]);
      assert es[n] in es && ElemFits(CheckpointElem, es[n]);
      ElemSizes(CheckpointElem, es[n], 0, 0);
    }
  }

  lemma {:induction false} ChainSizes(ms: seq<Member>)
    requires AllDefined(Chain, ms) && forall m <- ms :: !HasDuplicate(m.value)
    ensures Sizes(EffMembers(Chain, ms), 0, |ArrayAtMember(Chain, ms, 1)|, |ArrayAtMember(Chain, ms, 2)|)
  {
    hide IndexOf, SlotFits, DistinctNames, NamesOf, EffMembers, EffSlot, SlotOf, HasDuplicate, MemberAt;
    if ms != [] {
      InitDefined(Chain, ms);
      var n := |ms| - 1;
      ChainSizes(ms[..n]);
      MemberIsSlot(Chain, ms);
      NineNames();
      ChainSlotSizes(ms[..n], ms[n], IndexOf(Chain, ms[n].name).value);
    } else {
      NoSizes(Chain);
      NothingThere(Chain, 1);
      NothingThere(Chain, 2);
    }
  }

  lemma ChainSlotSizes(ms: seq<Member>, m: Member, idx: nat)
    requires IndexOf(Chain, m.name) == Some(idx) && !Named(ms, m.name) && SlotFits(SlotOf(Chain, idx), m.value) && !HasDuplicate(m.value)
    ensures |ArrayAtMember(Chain, ms + [m], 1)| >= |ArrayAtMember(Chain, ms, 1)|
    ensures |ArrayAtMember(Chain, ms + [m], 2)| >= |ArrayAtMember(Chain, ms, 2)|
    ensures Sizes(EffSlot(SlotOf(Chain, idx), m.value), 0, |ArrayAtMember(Chain, ms + [m], 1)| - |ArrayAtMember(Chain, ms, 1)|,
                  |ArrayAtMember(Chain, ms + [m], 2)| - |ArrayAtMember(Chain, ms, 2)|)
  {
    hide IndexOf, Lookup, MemberAt, HasDuplicate, NamesOf, EffElems, ElemFits;
    NineNames();
    IndexInRange(Chain, m.name);
    MemberAtMore(Chain, ms, m, idx, 1);
    MemberAtMore(Chain, ms, m, idx, 2);
    if idx == 1 {
      NoneInside(m.value);
      EntriesSizes(m.value.elems);
    } else if idx == 2 {
      CheckpointsSizes(m.value.elems);
    }
  }

  lemma {:induction false} ChainsSizes(env: Env, es: seq<Json>)
    requires forall e <- es :: ElemFits(ChainElem, e) && !HasDuplicate(e)
    ensures |DecodeChains(env, es)| == |es|
    ensures Sizes(EffElems(ChainElem, es), |es|, TotalEntries(DecodeChains(env, es)), TotalCheckpoints(DecodeChains(env, es)))
  {
    hide Fits, HasDuplicate, EffMembers, SeenIn, DecodeChain, EffElem, TotalEntries, TotalCheckpoints;
    if es != [] {
      var n := |es| - 1;
      assert es == es[..n] + [es[n]];
      ChainsSizes(env, es[..n]);
      assert es[n] in es && ElemFits(ChainElem, es[n]);
      PairFits(Chain, es[n]);
      ChainSizes(es[n].members);
      DecodedSizes(env, es[n].members);
      ElemSizes(ChainElem, es[n], |ArrayAtMember(Chain, es[n].members, 1)|, |ArrayAtMember(Chain, es[n].members, 2)|);
      TotalsMore(DecodeChains(env, es[..n]), DecodeChain(env, es[n].members));
      assert DecodeChains(env, es) == DecodeChains(env, es[..n]) + [DecodeChain(env, es[n].members)];
    } else {
      assert DecodeChains(env, es) == [];
      NoTotals();
    }
  }

  lemma NoTotals()
    ensures TotalEntries([]) == 0 && TotalCheckpoints([]) == 0
  {
  }

  lemma TotalsMore(chains: seq<ChainRead>, c: ChainRead)
    ensures TotalEntries(chains + [c]) == TotalEntries(chains) + |c.entries|
    ensures TotalCheckpoints(chains + [c]) == TotalCheckpoints(chains) + |c.checkpoints|
  {
    assert (chains + [c])[..|chains|] == chains;
  }

  lemma DecodedSizes(env: Env, ms: seq<Member>)
    requires AllDefined(Chain, ms) && forall m <- ms :: !HasDuplicate(m.value)
    ensures |DecodeChain(env, ms).entries| == |ArrayAtMember(Chain, ms, 1)|
    ensures |DecodeChain(env, ms).checkpoints| == |ArrayAtMember(Chain, ms, 2)|
  {
    ArrayFits(ms, 1);
    ArrayFits(ms, 2);
    hide AllDefined, MemberAt, ElemFits, HasDuplicate, BuildElems;
    EntriesBuilt(env, UNBUILT, ArrayAtMember(Chain, ms, 1));
    CheckpointsBuilt(env, UNBUILT, ArrayAtMember(Chain, ms, 2));
  }

  lemma ArrayFits(ms: seq<Member>, k: nat)
    requires AllDefined(Chain, ms) && (forall m <- ms :: !HasDuplicate(m.value)) && 1 <= k <= 2
    ensures forall e <- ArrayAtMember(Chain, ms, k) :: ElemFits(if k == 1 then EntryElem else CheckpointElem, e) && !HasDuplicate(e)
  {
    hide DistinctNames, IndexOf, HasDuplicate, ElemFits;
    NineNames();
    IndexOfName(Chain, k);
    var name := Ascii(NamesOf(Chain)[k]);
    if Lookup(ms, name).Some? {
      var m :| m in ms && m.name == name && m.value == Lookup(ms, name).value;
      NoneInside(m.value);
    }
  }

  lemma {:induction false} BundleSizes(env: Env, ms: seq<Member>)
    requires AllDefined(Bundle, ms) && forall m <- ms :: !HasDuplicate(m.value)
    ensures var cs := DecodeBundle(env, ms); Sizes(EffMembers(Bundle, ms), |cs|, TotalEntries(cs), TotalCheckpoints(cs))
  {
    hide IndexOf, SlotFits, DistinctNames, NamesOf, EffMembers, EffSlot, SlotOf, HasDuplicate, MemberAt, DecodeBundle;
    if ms != [] {
      InitDefined(Bundle, ms);
      var n := |ms| - 1;
      BundleSizes(env, ms[..n]);
      MemberIsSlot(Bundle, ms);
      NineNames();
      BundleSlotSizes(env, ms[..n], ms[n], IndexOf(Bundle, ms[n].name).value);
    } else {
      NoSizes(Bundle);
      BundleBlank(env);
    }
  }

  lemma BundleSlotSizes(env: Env, ms: seq<Member>, m: Member, idx: nat)
    requires IndexOf(Bundle, m.name) == Some(idx) && !Named(ms, m.name) && SlotFits(SlotOf(Bundle, idx), m.value) && !HasDuplicate(m.value)
    ensures var was, now := DecodeBundle(env, ms), DecodeBundle(env, ms + [m]);
            if idx == 1 then was == [] && Sizes(EffSlot(SlotOf(Bundle, idx), m.value), |now|, TotalEntries(now), TotalCheckpoints(now))
            else now == was && Sizes(EffSlot(SlotOf(Bundle, idx), m.value), 0, 0, 0)
  {
    hide IndexOf, MemberAt, HasDuplicate, NamesOf, EffSlot, SlotFits, Sizes, DecodeChains;
    NineNames();
    IndexInRange(Bundle, m.name);
    MemberAtMore(Bundle, ms, m, idx, 1);
    NothingDecoded(env);
    if idx == 1 { ChainsSlotSizes(env, m.value); } else { FormatSlotSizes(m.value); }
  }

  lemma ChainsSlotSizes(env: Env, t: Json)
    requires SlotFits(ChainsValue, t) && !HasDuplicate(t)
    ensures t.Arr? && var cs := DecodeChains(env, t.elems); Sizes(EffSlot(ChainsValue, t), |cs|, TotalEntries(cs), TotalCheckpoints(cs))
  {
    hide HasDuplicate, EffElems, ElemFits, DecodeChains, TotalEntries, TotalCheckpoints;
    NoneInside(t);
    ChainsSizes(env, t.elems);
  }

  lemma FormatSlotSizes(t: Json)
    requires SlotFits(FormatValue, t)
    ensures Sizes(EffSlot(FormatValue, t), 0, 0, 0)
  {
    hide Ascii;
  }

  // ---- The answer ----

  /**
   * A bundle parsed whole, then judged: the first of the reasons that applies,
   * or the chains it holds.
   */
  function Judge(data: Bytes, env: Env): Answer {
    if |data| > env.lim.bundleBytes then Unreadable(TooLarge)
    else
      match Document(data, env.lim.depth)
      case None => Unreadable(BadJson)
      case Some(t) =>
        if CountValues(t) > env.lim.values then Unreadable(TooLarge)
        else if HasDuplicate(t) then Unreadable(DuplicateKey)
        else if t.Obj? && MemberAt(Bundle, t.members, 0) != Some(Str(Ascii(FORMAT_ID))) then Unreadable(BadFormat)
        else if !t.Obj? || !Fits(Bundle, t.members) then Unreadable(BadStructure)
        else
          var chains := DecodeBundle(env, t.members);
          if |chains| > env.lim.chains || TotalEntries(chains) > env.lim.entries || TotalCheckpoints(chains) > env.lim.checkpoints
          then Unreadable(TooLarge)
          else Read(chains)
  }

  /** What one pass found and built of a document without duplicates, told in the document's own terms. */
  lemma DocumentMeans(t: Json, env: Env)
    requires !HasDuplicate(t)
    ensures var e := EffDocument(t);
            && (t.Obj? ==> (e.format == Some(true) <==> MemberAt(Bundle, t.members, 0) == Some(Str(Ascii(FORMAT_ID)))))
            && (e.misformat ==> t.Obj? && e.format == Some(false))
    ensures t.Obj? && Fits(Bundle, t.members) ==>
              var cs := DecodeBundle(env, t.members);
              && Sizes(EffDocument(t), |cs|, TotalEntries(cs), TotalCheckpoints(cs))
              && BuildMembers(env, Bundle, UNBUILT, t.members).chains == cs
  {
    hide HasDuplicate, MemberAt, EffMembers, DecodeBundle, BuildMembers, IndexOf, SlotFits, SeenIn, EffAny, SlotOf;
    NoneInside(t);
    if t.Obj? {
      FormatFound(t.members);
      if Fits(Bundle, t.members) {
        BundleSizes(env, t.members);
        BundleBuilt(env, t.members);
      }
    } else {
      AnyPlain(t);
    }
  }

  /**
   * readBundle. Whatever order the defects come in, and although a bundle with
   * one is not held in memory, its one pass gives the answer of parsing the
   * whole bundle first.
   */
  method ReadBundle(data: Bytes, env: Env) returns (a: Answer)
    requires env.lim.bundleBytes <= MAX_INPUT
    ensures a == Judge(data, env)
  {
    hide Sound, Coherent, EffDocument, Document, BuildMembers, HasDuplicate, CountValues, Fits, DecodeBundle, MemberAt;
    if |data| > env.lim.bundleBytes { return Unreadable(TooLarge); }
    var r := new Reader(data, env, true);
    var topObject, ok := r.ReadDocument();
    if !ok { return Unreadable(BadJson); }
    ghost var t := Document(data, env.lim.depth).value;
    FlagsTell(data, env, r.Now());
    DocumentTells(t);
    if r.found.overValues { return Unreadable(TooLarge); }
    if r.found.duplicate { return Unreadable(DuplicateKey); }
    DocumentMeans(t, env);
    DocumentFits(t);
    if topObject && !r.found.formatOK { return Unreadable(BadFormat); }
    if r.found.structure { return Unreadable(BadStructure); }
    if r.found.overCount { return Unreadable(TooLarge); }
    a := Read(r.built.chains);
  }

  lemma FlagsTell(b: Bytes, env: Env, s: Snap)
    requires Sound(b, env, true, s)
    ensures s.found.overValues <==> s.eff.values > env.lim.values
    ensures !s.found.overValues ==> (s.found.duplicate <==> s.eff.dup)
    ensures s.found.structure == s.eff.bad && s.found.overCount == OverCount(s.eff, env.lim) && s.found.formatOK == (s.eff.format == Some(true))
    ensures s.build <==> Clear(s.eff, env.lim)
  {
  }
}
