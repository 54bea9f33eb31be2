/**
 * A bundle's meaning, by parsing it whole and judging it afterwards, and the
 * proof that what one pass finds and builds is exactly that.
 */
module BundleMeaning {
  import opened Basics
  import opened JsonTree
  import opened Findings

  // ---- Counting and duplicates: what one pass finds of any value, in any position ----

  lemma {:induction false} AnyTells(t: Json)
    ensures Tells(EffAny(t), t)
    decreases t, 0
  {
    match t
    case Obj(ms) => ObjTells(Other, ms);
    case Arr(es) => ElemsTell(AnyElem, es);
    case _ =>
  }

  lemma {:induction false} ObjTells(kind: Kind, ms: seq<Member>)
    ensures Tells(EffObj(kind, ms), Obj(ms))
    decreases ms, 2
  {
    hide EffMembers, DistinctNames;
    MembersTell(kind, ms);
  }

  lemma {:induction false} MembersTell(kind: Kind, ms: seq<Member>)
    ensures EffMembers(kind, ms).values == CountMembers(ms) && (EffMembers(kind, ms).dup <==> exists m <- ms :: HasDuplicate(m.value))
    decreases ms, 1
  {
    hide EffMember, HasDuplicate, CountValues;
    if ms != [] {
      var n := |ms| - 1;
      assert ms == ms[..n] + [ms[n]];
      MembersTell(kind, ms[..n]);
      MemberTells(kind, ms[..n], ms[n].name, ms[n].value);
    }
  }

  lemma {:induction false} MemberTells(kind: Kind, before: seq<Member>, name: Bytes, t: Json)
    ensures Tells(EffMember(kind, before, name, t), t)
    decreases t, 3
  {
    hide IndexOf, EffAny, EffSlot, HasDuplicate, CountValues, SlotOf, Plus, Tells;
    AnyTells(t);
    TellsIf(EffAny(t), true, t);
    if IndexOf(kind, name).Some? { SlotTells(SlotOf(kind, IndexOf(kind, name).value), t); }
  }

  /** What was found counts the value's values, and knows its duplicates. */
  predicate Tells(e: Eff, t: Json) {
    match e case Eff(values, dup, _, _, _, _, _, _) => values == CountValues(t) && (dup <==> HasDuplicate(t))
  }

  /** A finding of something else says the same of the value. */
  lemma TellsWith(e: Eff, x: Eff, t: Json)
    requires Tells(e, t) && x.values == 0 && !x.dup
    ensures Tells(Plus(e, x), t) && Tells(Plus(x, e), t)
  {
    hide CountValues, HasDuplicate;
  }

  lemma TellsIf(e: Eff, cond: bool, t: Json)
    requires Tells(e, t)
    ensures Tells(Plus(e, If(cond, VIOLATION)), t) && Tells(Plus(VIOLATION, e), t)
  {
    hide CountValues, HasDuplicate, Plus, Tells;
    TellsWith(e, If(cond, VIOLATION), t);
    TellsWith(e, VIOLATION, t);
  }

  lemma {:induction false} SlotTells(slot: Slot, t: Json)
    ensures Tells(EffSlot(slot, t), t)
    decreases t, 2
  {
    hide EffAny, EffArray, EffObj, HasDuplicate, CountValues, SeenIn, Plus, If, Tells;
    TextTells(t);
    AnyTells(t);
    TellsIf(EffAny(t), true, t);
    TellsWith(EffText(t), FormatWas(t.Str? && t.s == Ascii(FORMAT_ID)), t);
    ArrayTells(ChainElem, t);
    ArrayTells(EntryElem, t);
    ArrayTells(CheckpointElem, t);
    TellsIf(EffArray(EntryElem, t), t.Arr? && t.elems == [], t);
    match slot {
      case PairValue(kind) =>
        if t.Obj? {
          ObjTells(kind, t.members);
          TellsIf(EffObj(kind, t.members), SeenIn(kind, t.members) != {0, 1}, t);
        }
      case _ =>
    }
  }

  lemma {:induction false} TextTells(t: Json)
    ensures Tells(EffText(t), t)
    decreases t, 1
  {
    hide EffAny, HasDuplicate, CountValues, Plus, Tells;
    AnyTells(t);
    TellsIf(EffAny(t), true, t);
    if t.Str? { StringTells(t); }
  }

  lemma StringTells(t: Json)
    requires t.Str?
    ensures Tells(ONE_VALUE, t)
  {
  }

  lemma {:induction false} ArrayTells(elem: Elem, t: Json)
    ensures Tells(EffArray(elem, t), t)
    decreases t, 1
  {
    hide EffAny, EffElems;
    AnyTells(t);
    if t.Arr? { ElemsTell(elem, t.elems); }
  }

  lemma {:induction false} ElemsTell(elem: Elem, es: seq<Json>)
    ensures EffElems(elem, es).values == CountElems(es) && (EffElems(elem, es).dup <==> exists e <- es :: HasDuplicate(e))
    decreases es, 1
  {
    hide EffElem, HasDuplicate, CountValues;
    if es != [] {
      var n := |es| - 1;
      assert es == es[..n] + [es[n]];
      ElemsTell(elem, es[..n]);
      ElemTells(elem, es[n]);
      assert (exists e <- es :: HasDuplicate(e)) <==> (exists e <- es[..n] :: HasDuplicate(e)) || HasDuplicate(es[n]);
    }
  }

  lemma {:induction false} ElemTells(elem: Elem, t: Json)
    ensures Tells(EffElem(elem, t), t)
    decreases t, 3
  {
    hide EffAny, EffObj, EffText, HasDuplicate, CountValues, SeenIn, Plus, If, Tells, RequiredOf;
    AnyTells(t);
    TextTells(t);
    TellsIf(EffAny(t), true, t);
    TellsWith(EffText(t), NOTHING.(checkpoints := 1), t);
    var body := if !t.Obj? || elem == AnyElem || elem == CheckpointElem then Plus(VIOLATION, EffAny(t))
                else if elem == ChainElem then Plus(EffObj(Chain, t.members), If(SeenIn(Chain, t.members) != RequiredOf(Chain), VIOLATION))
                else Plus(EffObj(Entry, t.members), If(!(RequiredOf(Entry) <= SeenIn(Entry, t.members)), VIOLATION));
    if t.Obj? {
      ObjTells(Chain, t.members);
      ObjTells(Entry, t.members);
      TellsIf(EffObj(Chain, t.members), SeenIn(Chain, t.members) != RequiredOf(Chain), t);
      TellsIf(EffObj(Entry, t.members), !(RequiredOf(Entry) <= SeenIn(Entry, t.members)), t);
    }
    TellsWith(body, if elem == ChainElem then NOTHING.(chains := 1) else NOTHING.(entries := 1), t);
  }

  /** The whole input: every value counted once, and a duplicate found if and only if there is one. */
  lemma DocumentTells(t: Json)
    ensures Tells(EffDocument(t), t)
  {
    hide EffAny, EffObj, HasDuplicate, CountValues, SeenIn, Plus, If, Tells;
    AnyTells(t);
    TellsIf(EffAny(t), true, t);
    if t.Obj? {
      ObjTells(Bundle, t.members);
      TellsIf(EffObj(Bundle, t.members), 1 !in SeenIn(Bundle, t.members), t);
    }
  }

  // ---- Structure ----

  /** Every name is defined, every value fits its place, and what is required is there. */
  predicate Fits(kind: Kind, ms: seq<Member>)
    decreases ms, 1
  {
    (forall m <- ms :: IndexOf(kind, m.name).Some? && SlotFits(SlotOf(kind, IndexOf(kind, m.name).value), m.value))
    && forall k <- Needed(kind) :: k in SeenIn(kind, ms)
  }

  function Needed(kind: Kind): set<nat> {
    if kind == Bundle then {1} else RequiredOf(kind)
  }

  predicate SlotFits(slot: Slot, t: Json)
    decreases t, 2
  {
    match slot
    case AnyValue => true
    case FormatValue => t.Str?
    case ChainsValue => t.Arr? && forall e <- t.elems :: ElemFits(ChainElem, e)
    case IdValue => t.Str?
    case EntriesValue => t.Arr? && t.elems != [] && forall e <- t.elems :: ElemFits(EntryElem, e)
    case CheckpointsValue => t.Arr? && forall e <- t.elems :: ElemFits(CheckpointElem, e)
    case TextValue(_) => t.Str?
    case PairValue(kind) => t.Obj? && Fits(kind, t.members)
  }

  predicate ElemFits(elem: Elem, t: Json)
    decreases t, 1
  {
    match elem
    case AnyElem => true
    case ChainElem => t.Obj? && Fits(Chain, t.members)
    case EntryElem => t.Obj? && Fits(Entry, t.members)
    case CheckpointElem => t.Str?
  }

  /** An object's own kind: one whose missing members are a violation noted by its reader. */
  predicate Typed(kind: Kind) {
    kind in {Chain, Entry, Signature, Disclosed}
  }

  /** An object without two equal names breaks the structure exactly when a member does, or one is missing. */
  lemma {:induction false} MembersFit(kind: Kind, ms: seq<Member>)
    requires DistinctNames(ms) && kind != Other && forall m <- ms :: !HasDuplicate(m.value)
    ensures EffMembers(kind, ms).bad <==> exists m <- ms :: IndexOf(kind, m.name).None? || !SlotFits(SlotOf(kind, IndexOf(kind, m.name).value), m.value)
    decreases ms, 1
  {
    hide IndexOf, EffMember, SlotFits, SlotOf, HasDuplicate;
    if ms != [] {
      var n := |ms| - 1;
      assert ms == ms[..n] + [ms[n]];
      MembersFit(kind, ms[..n]);
      assert !Named(ms[..n], ms[n].name) by { NotBefore(ms); }
      MemberFits(kind, ms[..n], ms[n].name, ms[n].value);
    }
  }

  lemma NotBefore(ms: seq<Member>)
    requires DistinctNames(ms) && ms != []
    ensures !Named(ms[..|ms| - 1], ms[|ms| - 1].name) && DistinctNames(ms[..|ms| - 1])
  {
    var n := |ms| - 1;
    forall m | m in ms[..n] ensures m.name != ms[n].name {
      var i :| 0 <= i < n && ms[..n][i] == m;
      assert ms[i].name != ms[n].name;
    }
  }

  lemma {:induction false} MemberFits(kind: Kind, before: seq<Member>, name: Bytes, t: Json)
    requires !Named(before, name) && kind != Other && !HasDuplicate(t)
    ensures EffMember(kind, before, name, t).bad <==> IndexOf(kind, name).None? || !SlotFits(SlotOf(kind, IndexOf(kind, name).value), t)
    decreases t, 3
  {
    hide IndexOf, EffAny, EffSlot, SlotFits, HasDuplicate, SlotOf;
    if IndexOf(kind, name).Some? {
      DefinedSlot(kind, name);
      SlotFitsExactly(SlotOf(kind, IndexOf(kind, name).value), t);
    }
  }

  lemma DefinedSlot(kind: Kind, name: Bytes)
    requires kind != Other && IndexOf(kind, name).Some?
    ensures var slot := SlotOf(kind, IndexOf(kind, name).value);
            slot != AnyValue && (slot.PairValue? ==> slot.kind == Signature || slot.kind == Disclosed)
  {
  }

  lemma {:induction false} SlotFitsExactly(slot: Slot, t: Json)
    requires slot != AnyValue && (slot.PairValue? ==> slot.kind in {Signature, Disclosed}) && !HasDuplicate(t)
    ensures EffSlot(slot, t).bad <==> !SlotFits(slot, t)
    decreases t, 2
  {
    hide EffAny, EffElems, EffObj, HasDuplicate, SeenIn, Fits, ElemFits;
    if t.Arr? {
      NoneInside(t);
      ElemsFit(match slot case ChainsValue => ChainElem case EntriesValue => EntryElem case _ => CheckpointElem, t.elems);
    }
    if t.Obj? && slot.PairValue? { ObjFits(slot.kind, t.members); }
  }

  lemma NoneInside(t: Json)
    requires !HasDuplicate(t)
    ensures t.Arr? ==> forall e <- t.elems :: !HasDuplicate(e)
    ensures t.Obj? ==> DistinctNames(t.members) && forall m <- t.members :: !HasDuplicate(m.value)
  {
  }

  /** A typed object, with the check of what is required. */
  lemma {:induction false} ObjFits(kind: Kind, ms: seq<Member>)
    requires Typed(kind) && !HasDuplicate(Obj(ms))
    ensures EffObj(kind, ms).bad || !(RequiredOf(kind) <= SeenIn(kind, ms)) <==> !Fits(kind, ms)
    ensures kind != Entry && Fits(kind, ms) ==> SeenIn(kind, ms) == RequiredOf(kind)
    decreases ms, 2
  {
    hide EffMembers, SlotFits, SlotOf, IndexOf, SeenIn, HasDuplicate;
    NoneInside(Obj(ms));
    MembersFit(kind, ms);
    SeenAtMost(kind, ms);
  }

  lemma SeenAtMost(kind: Kind, ms: seq<Member>)
    ensures kind in {Chain, Signature, Disclosed} ==> SeenIn(kind, ms) <= RequiredOf(kind)
  {
    assert forall m <- ms :: IndexOf(kind, m.name).Some? ==> IndexOf(kind, m.name).value < |NamesOf(kind)|;
  }

  lemma {:induction false} ElemsFit(elem: Elem, es: seq<Json>)
    requires elem != AnyElem && forall e <- es :: !HasDuplicate(e)
    ensures EffElems(elem, es).bad <==> exists e <- es :: !ElemFits(elem, e)
    decreases es, 1
  {
    hide EffElem, ElemFits, HasDuplicate;
    if es != [] {
      var n := |es| - 1;
      assert es == es[..n] + [es[n]];
      ElemsFit(elem, es[..n]);
      ElemFitsExactly(elem, es[n]);
    }
  }

  lemma {:induction false} ElemFitsExactly(elem: Elem, t: Json)
    requires elem != AnyElem && !HasDuplicate(t)
    ensures EffElem(elem, t).bad <==> !ElemFits(elem, t)
    decreases t, 3
  {
    hide EffAny, EffObj, HasDuplicate, SeenIn, Fits;
    if t.Obj? && elem != CheckpointElem { ObjFits(if elem == ChainElem then Chain else Entry, t.members); }
  }

  /** The top-level object. */
  lemma DocumentFits(t: Json)
    requires !HasDuplicate(t)
    ensures EffDocument(t).bad <==> !(t.Obj? && Fits(Bundle, t.members))
  {
    hide EffAny, EffMembers, SlotFits, SlotOf, IndexOf, SeenIn, HasDuplicate;
    NoneInside(t);
    if t.Obj? { MembersFit(Bundle, t.members); }
  }
}
