/**
 * The strict one-pass reader of a bundle: a cursor over the bytes, flags for
 * what was found, and what is built while nothing was.
 */
module BundleReader {
  import opened Basics
  import opened ByteOrder
  import opened JsonText
  import opened JsonTree
  import opened Findings
  import opened NameArena
  import opened ReaderState

  const FIRST_NAME_CHECK := 4096

  class Reader {
    const b: Bytes
    const env: Env
    /** Whether anything is to be built at all. */
    const building: bool

    var i: nat
    var depth: nat
    var found: Found
    var build: bool
    var built: Built
    var names: Names

    /** All that was found so far. */
    ghost var eff: Eff

    ghost function Now(): Snap
      reads this
    {
      Snap(i, depth, found, build, built, names, eff)
    }

    ghost predicate Valid()
      reads this
    {
      Sound(b, env, building, Now())
    }

    constructor (b: Bytes, env: Env, building: bool)
      requires |b| <= MAX_INPUT
      ensures Valid() && this.b == b && this.env == env && this.building == building
      ensures i == 0 && depth == 0 && eff == NOTHING && names.track && names.arena == [] && built == UNBUILT
    {
      this.b, this.env, this.building := b, env, building;
      i, depth, eff := 0, 0, NOTHING;
      found := Found(0, false, false, false, false, false, 0, 0, 0);
      build, built := building, UNBUILT;
      names := Names(true, seq(env.lim.depth + 1, _ => []), seq(env.lim.depth + 1, _ => 0), []);
    }

    // ---- Flags ----

    method StopBuilding()
      modifies this`build, this`built
      ensures !build && built == UNBUILT
    {
      build, built := false, UNBUILT;
    }

    method StopTracking()
      modifies this`names
      ensures names == UNTRACKED
    {
      names := UNTRACKED;
    }

    method Violate()
      modifies this
      ensures Now() == Violated(old(Now()))
    {
      found, eff := found.(structure := true), Plus(eff, VIOLATION);
      StopBuilding();
    }

    method FoundDuplicate()
      modifies this
      ensures Now() == Doubled(old(Now()))
    {
      found, eff := found.(duplicate := true), Plus(eff, DOUBLE);
      StopBuilding();
      StopTracking();
    }

    /** One JSON value against the value limit. */
    method CountValue()
      modifies this
      ensures Now() == ValueCounted(env, old(Now()))
    {
      found, eff := found.(values := found.values + 1), Plus(eff, ONE_VALUE);
      if found.values > env.lim.values && !found.overValues {
        found := found.(overValues := true);
        StopBuilding();
        StopTracking();
      }
    }

    /** An element of a typed array against its limit. */
    method CountElement(elem: Elem)
      modifies this
      ensures Now() == ElementCounted(env, elem, old(Now()))
    {
      eff := Plus(eff, Counts(elem));
      match elem {
        case ChainElem => found := found.(nChains := found.nChains + 1);
        case EntryElem => found := found.(nEntries := found.nEntries + 1);
        case CheckpointElem => found := found.(nCheckpoints := found.nCheckpoints + 1);
        case AnyElem =>
      }
      if PastLimit(env.lim, elem, found) && !found.overCount {
        found := found.(overCount := true);
        StopBuilding();
      }
    }

    /** What `format` was. */
    method SetFormat(ok: bool)
      modifies this
      ensures Now() == FormatSet(old(Now()), ok)
    {
      found, eff := found.(formatOK := ok), Plus(eff, FormatWas(ok));
      if !ok { StopBuilding(); }
    }

    // ---- The cursor ----

    /** Skips whitespace; the next byte, not consumed. */
    method Peek() returns (c: byte, ok: bool)
      requires i <= |b|
      modifies this`i
      ensures i == SkipSpace(b, old(i)) && Now() == old(Now()).(i := i)
      ensures (ok <==> i < |b|) && (ok ==> c == b[i])
    {
      while i < |b| && IsSpace(b[i])
        invariant i <= |b| && SkipSpace(b, i) == SkipSpace(b, old(i)) && Now() == old(Now()).(i := i)
      {
        i := i + 1;
      }
      ok := i < |b|;
      c := if ok then b[i] else 0;
    }

    // ---- Member names ----

    /** checkNames: two equal names among one object's unknown names. */
    method CheckNames(d: nat, ghost unknowns: seq<Bytes>) returns (dup: bool)
      requires names.track && d < |names.unknown| && Tracks(b, names.arena, names.unknown[d], unknowns)
      modifies this
      ensures dup <==> !Distinct(unknowns)
      ensures dup ==> Now() == Doubled(old(Now()))
      ensures !dup ==> Now() == old(Now()).(names := names) && |names.unknown| == old(|names.unknown|)
                       && names == old(names).(unknown := old(names.unknown)[d := names.unknown[d]])
                       && Tracks(b, names.arena, names.unknown[d], unknowns)
    {
      hide Locates, LexLe, Distinct, Sorted;
      ghost var order :| AllLocated(b, names.arena, names.unknown[d], order) && multiset(order) == multiset(unknowns);
      var sorted;
      sorted, order := SortRefs(b, names.arena, names.unknown[d], order);
      SameDistinct(order, unknowns);
      names := names.(unknown := names.unknown[d := sorted]);
      var k := 1;
      while k < |sorted|
        invariant 1 <= k && forall j | 0 < j < k && j < |sorted| :: order[j - 1] != order[j]
        invariant Now() == old(Now()).(names := names) && names == old(names).(unknown := old(names.unknown)[d := sorted])
        decreases |sorted| - k
      {
        var x := NameBytes(b, names.arena, sorted[k - 1], order[k - 1]);
        var y := NameBytes(b, names.arena, sorted[k], order[k]);
        if x == y {
          EqualTells(order, k);
          FoundDuplicate();
          return true;
        }
        k := k + 1;
      }
      NeighboursTell(order);
      dup := false;
    }

    /** The unscanned name at the cursor is remembered, and looked for among the others early if there are many. */
    method KeepName(start: nat, end: nat, raw: Bytes, n: nat, escaped: bool, ghost o: Inner, ghost done: seq<Member>, ghost name: Bytes)
      requires Valid() && i < start <= end <= |b| && names.track && |names.arena| <= i && depth == o.depth && o.b == b
      requires Inside(o, done, Now()) && IndexOf(o.kind, name).None?
      requires name == Unescape(raw) && n == |name| && n <= |raw| && (escaped ==> n < |raw|) && (escaped <==> BACKSLASH in raw)
      requires start + |raw| + 1 == end && raw == b[start..end - 1] && b[end - 1] == QUOTE && (!escaped ==> QUOTE !in raw)
      modifies this
      ensures Valid() && i == end && depth == old(depth) && NameRead(o, done, name, Now())
      ensures names.track ==> |names.arena| <= i + 2
    {
      hide Sound, Inside, NameRead, Locates, Unescape, IndexOf, Tracks, Distinct, Uvarint;
      ghost var s := Now();
      Bounded(b, env, building, s);
      UvarintWidth(n);
      var at: NameRef := start;
      var grown := names.arena;
      if escaped {
        at := |names.arena| + ARENA_BIT;
        NewInArena(b, names.arena, name);
        grown := names.arena + Uvarint(n);
        grown := AppendUnescaped(grown, raw);
      } else {
        PlainSelf(raw);
        PlainLocated(b, names.arena, start, name);
      }
      NameKept(o, done, name, s, end, at, grown);
      i := end;
      names := WithRef(names, depth, at, grown);
      Advanced(b, env, building, s, end);
      Renamed(b, env, building, s.(i := end), names);
      if |names.unknown[depth]| >= names.nextCheck[depth] {
        ghost var unknowns := UnknownNames(o.kind, done) + [name];
        names := names.(nextCheck := names.nextCheck[depth := 2 * |names.unknown[depth]|]);
        Renamed(b, env, building, s.(i := end), names);
        TracksRead(o, done, name, s.(i := end, names := WithRef(s.names, o.depth, at, grown)));
        NameChecked(o, done, name, s.(i := end, names := WithRef(s.names, o.depth, at, grown)), names);
        ghost var s2 := Now();
        var dup := CheckNames(depth, unknowns);
        if dup {
          DoubledSound(b, env, building, s2, depth);
          NameDoubled(o, done, name, s2);
        } else {
          Renamed(b, env, building, s2, names);
          NameChecked(o, done, name, s2, names);
        }
      }
    }

    /** name: a defined member's index, or None; an unknown name is remembered. */
    method Name(kind: Kind, ghost o: Inner, ghost done: seq<Member>) returns (idx: Option<nat>, ok: bool, ghost name: Bytes)
      requires Valid() && i < |b| && b[i] == QUOTE && depth == o.depth && o.b == b && o.kind == kind && Inside(o, done, Now())
      requires names.track ==> |names.arena| <= i
      modifies this
      ensures ok <==> Chars(b, old(i) + 1).Some?
      ensures ok ==> Valid() && i == Chars(b, old(i) + 1).value.end && depth == old(depth) && name == Chars(b, old(i) + 1).value.s
      ensures ok ==> idx == IndexOf(kind, name) && NameRead(o, done, name, Now())
      ensures ok && names.track ==> |names.arena| <= i + 2
    {
      hide Sound, Inside, NameRead, Locates, Unescape, Tracks, Distinct, Uvarint, Chars, IndexOf;
      name := [];
      var start := i + 1;
      var raw, n, escaped, end, scanned := ScanString(b, i);
      if !scanned { return None, false, name; }
      Scanned(b, start);
      name := Chars(b, start).value.s;
      ghost var s := Now();
      Bounded(b, env, building, s);
      Advanced(b, env, building, s, end);
      idx := None;
      if n <= MAX_MEMBER_NAME {
        var val := raw;
        if escaped { val := AppendUnescaped([], raw); }
        idx := IndexOf(kind, val);
        assert [] + Unescape(raw) == Unescape(raw);
      } else {
        LongIsUnknown(kind, name);
      }
      if idx.Some? || !names.track {
        NamePassed(o, done, name, s, end);
        i := end;
      } else {
        KeepName(start, end, raw, n, escaped, o, done, name);
      }
      ok := true;
    }

    // ---- Values ----

    method Fraction(j: nat) returns (end: nat, ok: bool)
      requires j <= |b|
      ensures ok <==> FractionEnd(b, j).Some?
      ensures ok ==> end == FractionEnd(b, j).value
    {
      hide Digits;
      end, ok := j, true;
      if j < |b| && b[j] == 0x2E {
        end := Digits(b, j + 1);
        ok := end > j + 1;
      }
    }

    method Exponent(j: nat) returns (end: nat, ok: bool)
      requires j <= |b|
      ensures ok <==> ExponentEnd(b, j).Some?
      ensures ok ==> end == ExponentEnd(b, j).value
    {
      hide Digits;
      end, ok := j, true;
      if j < |b| && (b[j] == 0x65 || b[j] == 0x45) {
        var k := j + 1;
        if k < |b| && (b[k] == 0x2B || b[k] == 0x2D) { k := k + 1; }
        end := Digits(b, k);
        ok := end > k;
      }
    }

    /** number: the grammar of RFC 8259, section 6. */
    method Number() returns (ok: bool)
      requires i <= |b|
      modifies this`i
      ensures ok <==> NumberEnd(b, old(i)).Some?
      ensures ok ==> i == NumberEnd(b, old(i)).value && Now() == old(Now()).(i := i)
    {
      hide Digits, FractionEnd, ExponentEnd;
      var j := i;
      if j < |b| && b[j] == 0x2D { j := j + 1; }
      if j >= |b| || !IsDigitByte(b[j]) { return false; }
      if b[j] == 0x30 { j := j + 1; } else { j := Digits(b, j + 1); }
      j, ok := Fraction(j);
      if !ok { return; }
      j, ok := Exponent(j);
      if !ok { return; }
      i := j;
      ok := true;
    }

    /** true, false or null. */
    method Literal(word: Bytes) returns (ok: bool)
      requires Valid() && word != []
      modifies this
      ensures ok <==> WordEnd(b, old(i), word).Some?
      ensures ok ==> Now() == ValueCounted(env, old(Now())).(i := WordEnd(b, old(i), word).value)
    {
      hide Sound;
      Bounded(b, env, building, Now());
      if !(i + |word| <= |b| && b[i..i + |word|] == word) { return false; }
      i := i + |word|;
      CountValue();
      ok := true;
    }

    /** A value that is neither an array nor an object. */
    method SkipScalar() returns (ok: bool)
      requires Valid() && i < |b| && b[i] != OPEN_OBJECT && b[i] != OPEN_ARRAY
      modifies this
      ensures ok <==> ScalarAt(b, old(i)).Some?
      ensures ok ==> Took(b, env, building, old(Now()), Now(), ScalarAt(b, old(i)).value.end, ONE_VALUE) && BuiltSame(old(Now()), Now())
    {
      hide Sound, Took, ValueCounted, BuiltSame, Chars, NumberEnd, WordEnd;
      ghost var s := Now();
      Bounded(b, env, building, s);
      forall end: nat | end <= |b|
        ensures Took(b, env, building, s, ValueCounted(env, s).(i := end), end, ONE_VALUE) && BuiltSame(s, ValueCounted(env, s).(i := end))
      {
        TookValue(b, env, building, s, end);
      }
      ValueKeepsPlace(env, s);
      var c := b[i];
      if c == QUOTE {
        CountValue();
        var raw, n, escaped, end, scanned := ScanString(b, i);
        if scanned { i := end; }
        return scanned;
      } else if c == 0x74 {
        ok := Literal(TRUE_WORD);
      } else if c == 0x66 {
        ok := Literal(FALSE_WORD);
      } else if c == 0x6E {
        ok := Literal(NULL_WORD);
      } else if c == 0x2D || IsDigitByte(c) {
        CountValue();
        ok := Number();
      } else {
        ok := false;
      }
    }

    /** Any value, where none is defined or another type is. It builds nothing. */
    method SkipValue() returns (ok: bool)
      requires Valid() && (names.track ==> |names.arena| <= i + 1)
      modifies this
      ensures ok <==> ValueHere(b, env, old(Now())).Some?
      ensures ok ==> var r := ValueHere(b, env, old(Now())).value;
                     Took(b, env, building, old(Now()), Now(), r.end, EffAny(r.v)) && BuiltSame(old(Now()), Now())
      decreases |b| - i, 2, 0
    {
      hide Sound, Took, BuiltSame, EffAny, EffObj, EffElems, ObjectHere, ArrayHere, ScalarAt, ValueHere, BuildMembers, BuildElems;
      ghost var s := Now();
      Bounded(b, env, building, s);
      ValueIs(b, env, s);
      var c, more := Peek();
      if !more { return false; }
      Advanced(b, env, building, s, i);
      ghost var p := Now();
      if c == OPEN_OBJECT {
        var seen;
        seen, ok := Object(Other);
        if ok {
          BuildsNothing(env, p.built, ObjectHere(b, env, p).value.v);
          SameBuilt(p, Now());
          EffAnyIs(Obj(ObjectHere(b, env, p).value.v));
          TookAfterPeek(b, env, building, s, p.i, Now(), ObjectHere(b, env, p).value.end, EffObj(Other, ObjectHere(b, env, p).value.v));
        }
      } else if c == OPEN_ARRAY {
        var n;
        n, ok := Array(AnyElem);
        if ok {
          BuildsNoElems(env, p.built, ArrayHere(b, env, p).value.v);
          SameBuilt(p, Now());
          EffAnyIs(Arr(ArrayHere(b, env, p).value.v));
          TookAfterPeek(b, env, building, s, p.i, Now(), ArrayHere(b, env, p).value.end,
                        Plus(ONE_VALUE, EffElems(AnyElem, ArrayHere(b, env, p).value.v)));
        }
      } else {
        ok := SkipScalar();
        if ok {
          EffAnyIs(ScalarAt(b, p.i).value.v);
          TookAfterPeek(b, env, building, s, p.i, Now(), ScalarAt(b, p.i).value.end, ONE_VALUE);
        }
      }
    }

    /** A member that must be a string: any other type is a violation, and is read past. */
    method StringValue(limit: nat, keep: bool) returns (s: Bytes, isString: bool, ok: bool)
      requires Valid() && (names.track ==> |names.arena| <= i + 1)
      modifies this
      ensures ok <==> ValueHere(b, env, old(Now())).Some?
      ensures ok ==> var r := ValueHere(b, env, old(Now())).value;
                     && Took(b, env, building, old(Now()), Now(), r.end, EffText(r.v)) && BuiltSame(old(Now()), Now())
                     && isString == r.v.Str? && (isString && keep ==> s == Cap(r.v.s, limit)) && (!isString ==> !build)
      decreases |b| - i, 3
    {
      hide Sound, Took, BuiltSame, EffAny, ScalarAt, ValueHere, ObjectHere, ArrayHere, Violated, ValueCounted, Chars, Unescape, SkipSpace;
      ghost var s0 := Now();
      s, isString := [], false;
      Bounded(b, env, building, s0);
      ValueIs(b, env, s0);
      var c, more := Peek();
      if !more { return s, false, false; }
      Advanced(b, env, building, s0, i);
      ghost var p := Now();
      if c != QUOTE {
        ok := NotThis(s0);
        return;
      }
      StringIs(b, i);
      CountValue();
      ValueKeepsPlace(env, p);
      var raw, n, escaped, end, scanned := ScanString(b, i);
      if !scanned { return s, true, false; }
      Scanned(b, p.i + 1);
      isString, ok := true, true;
      if keep {
        if n > limit {
          s := OVERSIZE;
        } else if escaped {
          s := AppendUnescaped([], raw);
          assert [] + Unescape(raw) == Unescape(raw);
        } else {
          s := raw;
        }
      }
      i := end;
      TookValue(b, env, building, p, end);
      TookAfterPeek(b, env, building, s0, p.i, Now(), end, ONE_VALUE);
    }

    /** A value of another type than the member's: a violation, and the value read past. */
    method NotThis(ghost s0: Snap) returns (ok: bool)
      requires Valid() && (names.track ==> |names.arena| <= i + 1) && s0.i <= |b| && Now() == s0.(i := SkipSpace(b, s0.i)) && i < |b|
      modifies this
      ensures ok <==> ValueHere(b, env, s0).Some?
      ensures ok ==> var r := ValueHere(b, env, s0).value;
                     Took(b, env, building, s0, Now(), r.end, Plus(VIOLATION, EffAny(r.v))) && BuiltSame(s0, Now()) && !build
      decreases |b| - i, 2, 1
    {
      hide Sound, Took, BuiltSame, EffAny, ScalarAt, ValueHere, ObjectHere, ArrayHere, Violated, SkipSpace;
      ghost var p := Now();
      ValueIs(b, env, s0);
      Violate();
      TookViolation(b, env, building, p);
      ViolatedPlace(b, env, p);
      ghost var v := Now();
      TookEnds(b, env, building, p, v, p.i, VIOLATION);
      ok := SkipValue();
      if ok {
        ghost var r := ValueHere(b, env, s0).value;
        TookEnds(b, env, building, v, Now(), r.end, EffAny(r.v));
        TookThen(b, env, building, p, v, Now(), VIOLATION, EffAny(r.v));
        TookAfterPeek(b, env, building, s0, p.i, Now(), i, Plus(VIOLATION, EffAny(r.v)));
      }
    }

    /** The value after a member's name: of a defined member, of a repeat, or of an unknown one. */
    method MemberValue(kind: Kind, idx: Option<nat>, seen: set<nat>) returns (ok: bool)
      requires Valid() && (names.track ==> |names.arena| <= i + 1)
      requires idx.Some? ==> idx.value < |NamesOf(kind)|
      modifies this
      ensures ok <==> ValueHere(b, env, old(Now())).Some?
      ensures ok ==> var r := ValueHere(b, env, old(Now())).value;
                     && Took(b, env, building, old(Now()), Now(), r.end, Plus(ExtraOf(idx, seen), EffRead(kind, idx, seen, r.v)))
                     && (build ==> idx.Some? && built == BuildSlot(env, kind, idx.value, old(built), r.v))
                     && (names.track ==> !ExtraOf(idx, seen).dup)
      decreases |b| - i, 6
    {
      hide Sound, Took, EffAny, EffSlot, BuildSlot, ValueHere, Violated, Doubled, Plus, BuiltSame;
      ghost var s := Now();
      match idx {
        case None =>
          Violate();
          TookViolation(b, env, building, s);
          TookEnds(b, env, building, s, Now(), s.i, VIOLATION);
          ViolatedPlace(b, env, s);
        case Some(k) =>
          if k !in seen {
            ok := MemberOf(kind, k);
            if ok { TookNothing(ValueHere(b, env, s).value.v, SlotOf(kind, k)); }
            return;
          }
          // Its value builds nothing: the first one already has.
          FoundDuplicate();
          TookDouble(b, env, building, s);
          TookEnds(b, env, building, s, Now(), s.i, DOUBLE);
          DoubledPlace(b, env, s);
      }
      ghost var v := Now();
      ok := SkipValue();
      if ok {
        ghost var r := ValueHere(b, env, s).value;
        TookEnds(b, env, building, v, Now(), r.end, EffAny(r.v));
        TookThen(b, env, building, s, v, Now(), ExtraOf(idx, seen), EffAny(r.v));
      }
    }

    /** One member's name, its colon and its value. */
    method ReadNameAndValue(kind: Kind, seen: set<nat>, ghost o: Inner, ghost done: seq<Member>)
      returns (idx: Option<nat>, ok: bool)
      requires InObject(o, building, done, Now()) && o.b == b && o.env == env && o.kind == kind && i < |b| && seen == SeenIn(kind, done)
      requires names.track ==> |names.arena| <= i
      modifies this
      ensures ok <==> NameAndValue(b, old(i), Left(env, old(Now()))).Some?
      ensures ok ==> var x := NameAndValue(b, old(i), Left(env, old(Now()))).value;
                     && i == x.end && InObject(o, building, done + [x.v], Now()) && idx == IndexOf(kind, x.v.name)
                     && (names.track ==> |names.arena| <= i)
      decreases |b| - i, 0
    {
      hide Sound, Took, InObject, Inside, NameRead, EffRead, ExtraOf, BuildSlot, IndexOf, SeenIn, Plus, ValueHere, Chars, SkipSpace,
        NameAndValue, Value;
      idx := None;
      ghost var s, d := Now(), Left(env, Now());
      InObjectIs(o, building, done, s);
      NameAndValueIs(b, i, d);
      if b[i] != QUOTE { return None, false; }
      ghost var name;
      idx, ok, name := Name(kind, o, done);
      if !ok { return; }
      ghost var s1 := Now();
      Bounded(b, env, building, s1);
      var c, more := Peek();
      if !more || c != COLON { return idx, false; }
      i := i + 1;
      ghost var s2 := Now();
      NameReadFurther(o, done, name, s1, i);
      Advanced(b, env, building, s1, i);
      NamePlace(kind, name);
      ValueHereIs(b, env, s2);
      ok := MemberValue(kind, idx, seen);
      if !ok { return; }
      ghost var r := ValueHere(b, env, s2).value;
      TookEnds(b, env, building, s2, Now(), r.end, Plus(ExtraOf(idx, seen), EffRead(kind, idx, seen, r.v)));
      InObjectMore(o, building, done, Member(name, r.v), s2, Now());
    }

    /** One member and the delimiter after it. */
    method ReadMember(kind: Kind, seen: set<nat>, ghost o: Inner, ghost done: seq<Member>) returns (seen': set<nat>, closed: bool, ok: bool)
      requires InObject(o, building, done, Now()) && o.b == b && o.env == env && o.kind == kind && i < |b| && seen == SeenIn(kind, done)
      requires names.track ==> |names.arena| <= i
      modifies this
      ensures ok <==> NextMember(b, old(i), Left(env, old(Now()))).Some?
      ensures ok ==> var x := NextMember(b, old(i), Left(env, old(Now()))).value;
                     && i == x.next && closed == x.closed && InObject(o, building, done + [x.v], Now())
                     && seen' == SeenIn(kind, done + [x.v]) && (names.track ==> |names.arena| <= i)
      decreases |b| - i, 1
    {
      hide InObject, IndexOf, SeenIn, SkipSpace, NameAndValue, NextMember, OneMember, Sound, Inside, Left;
      seen', closed := seen, false;
      ghost var s := Now();
      InObjectIs(o, building, done, s);
      NextMemberIs(b, i, Left(env, s));
      var idx;
      idx, ok := ReadNameAndValue(kind, seen, o, done);
      if !ok { return; }
      ghost var m := NameAndValue(b, s.i, Left(env, s)).value.v;
      ghost var s3 := Now();
      SeenMore(kind, done, m);
      if idx.Some? { seen' := seen + {idx.value}; }
      InObjectIs(o, building, done + [m], s3);
      var c, more := Peek();
      if !more || (c != CLOSE_OBJECT && c != COMMA) { return seen', false, false; }
      i := i + 1;
      closed := c == CLOSE_OBJECT;
      if c == COMMA {
        c, more := Peek();
        ok := more;
      }
      InObjectFurther(o, building, done + [m], s3, i);
    }

    /** The members of an object, one by one. */
    method MembersOf(kind: Kind, ghost o: Inner) returns (seen: set<nat>, ok: bool)
      requires InObject(o, building, [], Now()) && o.b == b && o.env == env && o.kind == kind && i < |b|
      requires names.track ==> |names.arena| <= i
      modifies this
      ensures ok <==> Members(b, old(i), Left(env, old(Now()))).Some?
      ensures ok ==> var r := Members(b, old(i), Left(env, old(Now()))).value;
                     i == r.end && InObject(o, building, r.v, Now()) && seen == SeenIn(kind, r.v)
      decreases |b| - i, 2, 0
    {
      hide Sound, Members, NextMember, InObject, Prepend, SeenIn, Inside, Left;
      ghost var start, d, done := i, Left(env, Now()), [];
      seen := {};
      SeenNone(kind);
      PrependNothing(Members(b, i, d));
      var closed := false;
      while !closed
        invariant InObject(o, building, done, Now()) && seen == SeenIn(kind, done) && start <= i <= |b| && d == Left(env, Now())
        invariant names.track ==> |names.arena| <= i
        invariant !closed ==> i < |b| && Members(b, start, d) == Prepend(done, Members(b, i, d))
        invariant closed ==> Members(b, start, d) == Some(Parsed(done, i))
        decreases |b| - i, !closed
      {
        ghost var s := Now();
        MembersUnfold(b, i, d);
        InObjectIs(o, building, done, s);
        seen, closed, ok := ReadMember(kind, seen, o, done);
        if !ok { return seen, false; }
        ghost var x := NextMember(b, s.i, d).value;
        if closed { PrependLast(done, x.v, x.next); } else { PrependTwice(done, [x.v], Members(b, x.next, d)); }
        done := done + [x.v];
        InObjectIs(o, building, done, Now());
        SameLeft(env, s, Now());
      }
      ok := true;
    }

    /** The end of an object: its unknown names are looked at, and its part of the arena given back. */
    method CloseNames(mark: nat, ghost o: Inner, ghost ms: seq<Member>)
      requires InObject(o, building, ms, Now()) && o.b == b && o.env == env && o.depth > 0 && (o.s0.names.track ==> mark == |o.s0.names.arena|)
      modifies this
      ensures Valid() && i == old(i) && depth == old(depth) && eff == old(eff).(dup := old(eff).dup || !DistinctNames(ms))
      ensures build ==> old(build) && built == old(built)
      ensures names.track ==> old(names).track && |names.unknown| == |old(names).unknown| && o.depth < |names.unknown|
                              && names == old(names).(unknown := old(names).unknown[o.depth := names.unknown[o.depth]], arena := o.s0.names.arena)
    {
      hide Sound, DistinctNames, Inside, Locates, Tracks, UnknownNames, DefinedOnce;
      ghost var s := Now();
      InObjectIs(o, building, ms, s);
      if names.track {
        NamesNow(o, ms, s);
        var dup := false;
        if |names.unknown[depth]| > 1 {
          dup := CheckNames(depth, UnknownNames(o.kind, ms));
        } else {
          FewNames(b, names.arena, names.unknown[depth], UnknownNames(o.kind, ms));
        }
        DistinctParts(o.kind, ms);
        if dup {
          DoubledSound(b, env, building, s, 0);
          DoubledIs(s);
        } else {
          names := names.(arena := names.arena[..mark]);
          Renamed(b, env, building, s, names);
        }
      } else {
        NamesLate(b, env, building, s, DistinctNames(ms));
        eff := eff.(dup := eff.dup || !DistinctNames(ms));
      }
    }

    /** No names yet at the depth just entered. */
    method BlankNames(ghost o: Inner)
      requires Now() == o.s0 && Valid() && o.b == b && o.env == env && o.depth == depth > 0
      modifies this`names
      ensures InObject(o, building, [], Now()) && (names.track ==> old(names).track && names.arena == old(names).arena)
    {
      hide Sound, InObject, Inside;
      Bounded(b, env, building, o.s0);
      if names.track {
        names := names.(unknown := names.unknown[depth := []], nextCheck := names.nextCheck[depth := FIRST_NAME_CHECK]);
      }
      InObjectStarts(o, building, names, i);
    }

    /** An object entered: counted, no names at its depth yet, and the first byte inside it found. */
    method EnterObject(kind: Kind) returns (mark: nat, c: byte, ok: bool, ghost o: Inner)
      requires Valid() && i < |b| && (names.track ==> |names.arena| <= i + 1)
      modifies this
      ensures o.b == b && o.env == env && o.kind == kind && o.depth == old(depth) + 1
      ensures ok <==> old(depth) < env.lim.depth && SkipSpace(b, old(i) + 1) < |b|
      ensures ok ==> InObject(o, building, [], Now()) && i == SkipSpace(b, old(i) + 1) && c == b[i]
      ensures ok ==> Moved(old(Now()), o.s0, ONE_VALUE, old(depth)) && BuiltSame(old(Now()), o.s0)
      ensures ok ==> (names.track ==> |names.arena| <= i) && (o.s0.names.track ==> mark == |o.s0.names.arena|)
      ensures ok ==> (names.track ==> names.arena == o.s0.names.arena)
    {
      hide Sound, Moved, BuiltSame, ValueCounted, SkipSpace, InObject, Plus, Inside;
      ghost var s0 := Now();
      mark, c := 0, 0;
      o := Inner(b, env, kind, depth + 1, s0);
      Bounded(b, env, building, s0);
      ok := Open();
      if !ok { return; }
      OpenedSound(b, env, building, s0);
      o := Inner(b, env, kind, depth, Now());
      mark := |names.arena|;
      BlankNames(o);
      ghost var s := Now();
      i := i + 1;
      c, ok := Peek();
      InObjectFurther(o, building, [], s, i);
    }

    /** object, from its brace: the defined members present. */
    method Object(kind: Kind) returns (seen: set<nat>, ok: bool)
      requires Valid() && i < |b| && b[i] == OPEN_OBJECT && (names.track ==> |names.arena| <= i + 1)
      modifies this
      ensures ok <==> ObjectHere(b, env, old(Now())).Some?
      ensures ok ==> var r := ObjectHere(b, env, old(Now())).value;
                     && Took(b, env, building, old(Now()), Now(), r.end, EffObj(kind, r.v)) && seen == SeenIn(kind, r.v)
                     && (build ==> built == BuildMembers(env, kind, old(built), r.v))
      decreases |b| - i, 1
    {
      hide Sound, Took, Moved, BuiltSame, EffObj, BuildMembers, ObjectHere, Members, SkipSpace, InObject, Plus, DistinctNames, SeenIn;
      ghost var s0 := Now();
      seen := {};
      SeenNone(kind);
      Bounded(b, env, building, s0);
      ObjectIs(b, env, s0);
      var mark, c, entered;
      ghost var o;
      mark, c, entered, o := EnterObject(kind);
      if !entered { return seen, false; }
      ghost var s := Now();
      InObjectIs(o, building, [], s);
      if c == CLOSE_OBJECT {
        NoNames();
        EmptyNames(s, o.depth);
        InObjectEnds(o, building, [], s, s, s0, i + 1);
        i, depth := i + 1, depth - 1;
        return seen, true;
      }
      seen, ok := MembersOf(kind, o);
      if ok {
        ghost var ms := ObjectHere(b, env, s0).value.v;
        s := Now();
        InObjectIs(o, building, ms, s);
        CloseNames(mark, o, ms);
        InObjectEnds(o, building, ms, s, Now(), s0, i);
        depth := depth - 1;
      }
    }

    /** member: the value of a defined member. */
    method MemberOf(kind: Kind, idx: nat) returns (ok: bool)
      requires Valid() && (names.track ==> |names.arena| <= i + 1) && idx < |NamesOf(kind)|
      modifies this
      ensures ok <==> ValueHere(b, env, old(Now())).Some?
      ensures ok ==> var r := ValueHere(b, env, old(Now())).value;
                     && Took(b, env, building, old(Now()), Now(), r.end, EffSlot(SlotOf(kind, idx), r.v))
                     && (build ==> built == BuildSlot(env, kind, idx, old(built), r.v))
      decreases |b| - i, 5
    {
      hide Sound, Took, EffAny, EffText, EffArray, EffObj, ValueHere, BuildElems, BuildMembers, Plus, BuiltSame;
      if kind == Bundle {
        if idx == 0 { ok := FormatMember(); } else { ok := PlainArray(Bundle, 1, ChainElem); }
      } else if kind == Chain {
        if idx == 0 { ok := ChainId(); } else if idx == 1 { ok := EntriesMember(); } else { ok := PlainArray(Chain, 2, CheckpointElem); }
      } else if kind == Entry && idx >= 7 {
        ok := PairMember(if idx == 7 then Signature else Disclosed);
      } else {
        ok := TextMember(kind, idx);
      }
    }

    /** format. */
    method FormatMember() returns (ok: bool)
      requires Valid() && (names.track ==> |names.arena| <= i + 1)
      modifies this
      ensures ok <==> ValueHere(b, env, old(Now())).Some?
      ensures ok ==> var r := ValueHere(b, env, old(Now())).value;
                     && Took(b, env, building, old(Now()), Now(), r.end, EffSlot(FormatValue, r.v)) && (build ==> built == old(built))
      decreases |b| - i, 4
    {
      hide Sound, Took, EffText, EffSlot, ValueHere, Plus, FormatSet;
      ghost var s0 := Now();
      var s, isString;
      s, isString, ok := StringValue(|FORMAT_ID|, true);
      if !ok { return; }
      ghost var r := ValueHere(b, env, s0).value;
      ghost var s1 := Now();
      TookEnds(b, env, building, s0, s1, r.end, EffText(r.v));
      SetFormat(isString && s == Ascii(FORMAT_ID));
      TookFormat(b, env, building, s1, isString && s == Ascii(FORMAT_ID));
      FormatIs(s1, r.v, isString && s == Ascii(FORMAT_ID));
      TookThen(b, env, building, s0, s1, Now(), EffText(r.v), FormatWas(isString && s == Ascii(FORMAT_ID)));
    }

    /** A member whose value is an array and nothing more. */
    method PlainArray(ghost kind: Kind, ghost idx: nat, elem: Elem) returns (ok: bool)
      requires Valid() && (names.track ==> |names.arena| <= i + 1)
      requires (kind == Bundle && idx == 1 && elem == ChainElem) || (kind == Chain && idx == 2 && elem == CheckpointElem)
      modifies this
      ensures ok <==> ValueHere(b, env, old(Now())).Some?
      ensures ok ==> var r := ValueHere(b, env, old(Now())).value;
                     && Took(b, env, building, old(Now()), Now(), r.end, EffSlot(SlotOf(kind, idx), r.v))
                     && (build ==> built == BuildSlot(env, kind, idx, old(built), r.v))
      decreases |b| - i, 4, 1
    {
      hide Sound, Took, EffArray, ValueHere, BuildElems;
      var n, isArray;
      n, isArray, ok := ArrayValue(elem);
    }

    /** entries: an array with at least one element. */
    method EntriesMember() returns (ok: bool)
      requires Valid() && (names.track ==> |names.arena| <= i + 1)
      modifies this
      ensures ok <==> ValueHere(b, env, old(Now())).Some?
      ensures ok ==> var r := ValueHere(b, env, old(Now())).value;
                     && Took(b, env, building, old(Now()), Now(), r.end, EffSlot(EntriesValue, r.v))
                     && (build ==> built == BuildSlot(env, Chain, 1, old(built), r.v))
      decreases |b| - i, 4, 1
    {
      hide Sound, Took, EffArray, ValueHere, BuildElems, Plus, Violated, BuiltSame;
      ghost var s0 := Now();
      var n, isArray;
      n, isArray, ok := ArrayValue(EntryElem);
      if !ok { return; }
      ghost var r := ValueHere(b, env, s0).value;
      ghost var s1 := Now();
      TookEnds(b, env, building, s0, s1, r.end, EffArray(EntryElem, r.v));
      PlusNothing(EffArray(EntryElem, r.v));
      if isArray && n == 0 {
        Violate();
        TookViolation(b, env, building, s1);
        ViolatedPlace(b, env, s1);
        TookThen(b, env, building, s0, s1, Now(), EffArray(EntryElem, r.v), VIOLATION);
      }
    }

    /** A member that must be an array: any other type is a violation, and is read past. */
    method ArrayValue(elem: Elem) returns (n: nat, isArray: bool, ok: bool)
      requires Valid() && (names.track ==> |names.arena| <= i + 1)
      modifies this
      ensures ok <==> ValueHere(b, env, old(Now())).Some?
      ensures ok ==> var r := ValueHere(b, env, old(Now())).value;
                     && Took(b, env, building, old(Now()), Now(), r.end, EffArray(elem, r.v)) && isArray == r.v.Arr?
                     && (isArray ==> n == |r.v.elems|) && (build ==> isArray && built == BuildElems(env, elem, old(built), r.v.elems))
      decreases |b| - i, 4, 0
    {
      hide Sound, Took, EffAny, EffElems, ValueHere, BuildElems, ArrayHere, ObjectHere, ScalarAt, Plus, SkipSpace;
      ghost var s0 := Now();
      n, isArray := 0, false;
      Bounded(b, env, building, s0);
      ValueIs(b, env, s0);
      var c, more := Peek();
      if !more { return 0, false, false; }
      Advanced(b, env, building, s0, i);
      ghost var p := Now();
      if c != OPEN_ARRAY {
        ok := NotThis(s0);
        if ok { NotArray(b, env, s0); }
        return;
      }
      isArray := true;
      n, ok := Array(elem);
      if ok {
        ghost var x := ArrayHere(b, env, p).value;
        TookAfterPeek(b, env, building, s0, p.i, Now(), x.end, Plus(ONE_VALUE, EffElems(elem, x.v)));
      }
    }

    /** The chain id a scanned string stands for: itself, or what an id that is too long is kept as. */
    method KeptId(raw: Bytes, n: nat, escaped: bool, ghost s: Bytes) returns (id: Bytes)
      requires Unescape(raw) == s && n == |s| && (!escaped ==> raw == s)
      ensures id == StoredId(env, s)
    {
      hide Unescape;
      id := raw;
      if n > MAX_CHAIN_ID {
        var digest := DigestUnescaped(env.sha, raw);
        id := OVERSIZE + digest;
      } else if escaped {
        id := AppendUnescaped([], raw);
        assert [] + Unescape(raw) == Unescape(raw);
      }
    }

    /** chain_id. */
    method ChainId() returns (ok: bool)
      requires Valid() && (names.track ==> |names.arena| <= i + 1)
      modifies this
      ensures ok <==> ValueHere(b, env, old(Now())).Some?
      ensures ok ==> var r := ValueHere(b, env, old(Now())).value;
                     && Took(b, env, building, old(Now()), Now(), r.end, EffSlot(IdValue, r.v))
                     && (build ==> built == BuildSlot(env, Chain, 0, old(built), r.v))
      decreases |b| - i, 4
    {
      hide Sound, Took, BuiltSame, EffAny, ScalarAt, ValueHere, ObjectHere, ArrayHere, ValueCounted, Chars, Unescape, SkipSpace, EffSlot, Plus;
      ghost var s0 := Now();
      Bounded(b, env, building, s0);
      ValueIs(b, env, s0);
      IdSlot();
      var c, more := Peek();
      if !more { return false; }
      Advanced(b, env, building, s0, i);
      ghost var p := Now();
      if c != QUOTE {
        ok := NotThis(s0);
        return;
      }
      StringIs(b, i);
      CountValue();
      ValueKeepsPlace(env, p);
      var raw, n, escaped, end, scanned := ScanString(b, i);
      if !scanned { return false; }
      Scanned(b, p.i + 1);
      i := end;
      TookValue(b, env, building, p, end);
      TookAfterPeek(b, env, building, s0, p.i, Now(), end, ONE_VALUE);
      ok := true;
      ghost var s1 := Now();
      BuiltIs(s0, s1);
      if build {
        IdBuilt(env, built, Chars(b, p.i + 1).value.s);
        hide BuildSlot, StoredId;
        var id := KeptId(raw, n, escaped, Chars(b, p.i + 1).value.s);
        built := built.(chain := built.chain.(id := id));
        TookBuilt(b, env, building, s0, s1, end, ONE_VALUE, built);
      }
    }

    /** A string member of an entry, of a signature or of a disclosure. */
    method TextMember(kind: Kind, idx: nat) returns (ok: bool)
      requires Valid() && (names.track ==> |names.arena| <= i + 1) && idx < |Caps(kind)| && kind in {Entry, Signature, Disclosed}
      modifies this
      ensures ok <==> ValueHere(b, env, old(Now())).Some?
      ensures ok ==> var r := ValueHere(b, env, old(Now())).value;
                     && Took(b, env, building, old(Now()), Now(), r.end, EffSlot(SlotOf(kind, idx), r.v))
                     && (build ==> built == BuildSlot(env, kind, idx, old(built), r.v))
      decreases |b| - i, 4
    {
      hide Sound, Took, EffText, ValueHere, BuildSlot;
      ghost var s0 := Now();
      var s, isString;
      s, isString, ok := StringValue(Caps(kind)[idx], build);
      if !ok { return; }
      ghost var r := ValueHere(b, env, s0).value;
      ghost var s1 := Now();
      TookEnds(b, env, building, s0, s1, r.end, EffText(r.v));
      BuiltIs(s0, s1);
      TextBuilt(env, kind, idx, s0.built, r.v);
      if build {
        built := WithText(kind, idx, built, s);
        TookBuilt(b, env, building, s0, s1, r.end, EffText(r.v), built);
      }
    }

    /** record_signature or disclosed: an object of exactly two string members. */
    method PairMember(kind: Kind) returns (ok: bool)
      requires Valid() && (names.track ==> |names.arena| <= i + 1) && kind in {Signature, Disclosed}
      modifies this
      ensures ok <==> ValueHere(b, env, old(Now())).Some?
      ensures ok ==> var r := ValueHere(b, env, old(Now())).value;
                     && Took(b, env, building, old(Now()), Now(), r.end, EffSlot(PairValue(kind), r.v))
                     && (build ==> built == BuildSlot(env, Entry, if kind == Signature then 7 else 8, old(built), r.v))
      decreases |b| - i, 4
    {
      hide Sound, Took, BuiltSame, EffAny, EffObj, ScalarAt, ValueHere, ObjectHere, ArrayHere, Violated, SkipSpace, BuildMembers, SeenIn, Plus;
      ghost var s0 := Now();
      Bounded(b, env, building, s0);
      ValueIs(b, env, s0);
      var c, more := Peek();
      if !more { return false; }
      Advanced(b, env, building, s0, i);
      ghost var p := Now();
      if c != OPEN_OBJECT {
        ok := NotThis(s0);
        if ok { NotObject(b, env, s0); }
        return;
      }
      if build { built := WithPair(kind, built, Pair([], [])); }
      ghost var q := Now();
      Rebuilt(b, env, building, p, q.built);
      var seen;
      seen, ok := Object(kind);
      if !ok { return; }
      ghost var x := ObjectHere(b, env, p).value;
      ghost var s1 := Now();
      TookRebuilt(b, env, building, p, q.built, s1, x.end, EffObj(kind, x.v));
      TookAfterPeek(b, env, building, s0, p.i, s1, x.end, EffObj(kind, x.v));
      TookEnds(b, env, building, s0, s1, x.end, EffObj(kind, x.v));
      PlusNothing(EffObj(kind, x.v));
      if seen != {0, 1} {
        Violate();
        TookViolation(b, env, building, s1);
        ViolatedPlace(b, env, s1);
        TookThen(b, env, building, s0, s1, Now(), EffObj(kind, x.v), VIOLATION);
      }
    }

    /** Enters an array or object; too deep is an error of the grammar. */
    method Open() returns (ok: bool)
      modifies this
      ensures ok <==> old(depth) < env.lim.depth
      ensures ok ==> Now() == ValueCounted(env, old(Now()).(depth := old(depth) + 1))
    {
      depth := depth + 1;
      if depth > env.lim.depth { return false; }
      CountValue();
      ok := true;
    }

    /** One element and the delimiter after it. */
    method NextElement(elem: Elem) returns (closed: bool, ok: bool)
      requires Valid() && (names.track ==> |names.arena| <= i + 1)
      modifies this
      ensures ok <==> NextElem(b, old(i), Left(env, old(Now()))).Some?
      ensures ok ==> var x := NextElem(b, old(i), Left(env, old(Now()))).value;
                     && Took(b, env, building, old(Now()), Now(), x.next, EffElem(elem, x.v)) && closed == x.closed
                     && (build ==> built == BuildElem(env, elem, old(built), x.v))
      decreases |b| - i, 4
    {
      hide Sound, Took, EffElem, BuildElem, Value, SkipSpace, ValueHere;
      ghost var s := Now();
      Bounded(b, env, building, s);
      ValueHereIs(b, env, s);
      closed := false;
      ok := Element(elem);
      if !ok { return; }
      ghost var x := ValueHere(b, env, s).value;
      ghost var p := Now();
      TookEnds(b, env, building, s, p, x.end, EffElem(elem, x.v));
      var c, more := Peek();
      if !more || (c != CLOSE_ARRAY && c != COMMA) { return false, false; }
      i := i + 1;
      closed := c == CLOSE_ARRAY;
      TookFurther(b, env, building, s, p, x.end, EffElem(elem, x.v), i);
    }

    /** The elements of an array, one by one. */
    method Elements(elem: Elem, ghost s1: Snap) returns (n: nat, ok: bool)
      requires InArray(b, env, building, elem, [], s1, Now()) && (names.track ==> |names.arena| <= i) && i <= |b|
      modifies this
      ensures ok <==> Elems(b, old(i), Left(env, s1)).Some?
      ensures ok ==> var r := Elems(b, old(i), Left(env, s1)).value;
                     i == r.end && n == |r.v| && InArray(b, env, building, elem, r.v, s1, Now())
      decreases |b| - i, 5
    {
      hide Sound, Took, Elems, NextElem, InArray, Prepend, EffElem, BuildElem, BuiltSame;
      ghost var start, d, done := i, Left(env, s1), [];
      n := 0;
      PrependNothing(Elems(b, i, d));
      var closed := false;
      while !closed
        invariant InArray(b, env, building, elem, done, s1, Now()) && n == |done| && start <= i <= |b|
        invariant names.track ==> |names.arena| <= i
        invariant if closed then Elems(b, start, d) == Some(Parsed(done, i)) else Elems(b, start, d) == Prepend(done, Elems(b, i, d))
        decreases |b| - i, !closed
      {
        ghost var s := Now();
        InArrayIs(b, env, building, elem, done, s1, s);
        ElemsUnfold(b, i, d);
        closed, ok := NextElement(elem);
        if !ok { return n, false; }
        ghost var x := NextElem(b, s.i, d).value;
        TookEnds(b, env, building, s, Now(), x.next, EffElem(elem, x.v));
        InArrayMore(b, env, building, elem, done, s1, s, x.v, Now());
        if closed { PrependLast(done, x.v, x.next); } else { PrependTwice(done, [x.v], Elems(b, x.next, d)); }
        done := done + [x.v];
        n := n + 1;
      }
      ok := true;
    }

    /** array, from its bracket. */
    method Array(elem: Elem) returns (n: nat, ok: bool)
      requires Valid() && i < |b| && b[i] == OPEN_ARRAY && (names.track ==> |names.arena| <= i + 1)
      modifies this
      ensures ok <==> ArrayHere(b, env, old(Now())).Some?
      ensures ok ==> var r := ArrayHere(b, env, old(Now())).value;
                     && Took(b, env, building, old(Now()), Now(), r.end, Plus(ONE_VALUE, EffElems(elem, r.v))) && n == |r.v|
                     && (build ==> built == BuildElems(env, elem, old(built), r.v))
      decreases |b| - i, 1
    {
      hide Sound, Took, Moved, BuiltSame, EffElems, BuildElems, ArrayHere, ValueCounted, Elems, SkipSpace, InArray, Plus;
      ghost var s0 := Now();
      Bounded(b, env, building, s0);
      ArrayIs(b, env, s0);
      var entered := Open();
      if !entered { return 0, false; }
      OpenedSound(b, env, building, s0);
      ghost var s1 := Now();
      i := i + 1;
      var c, more := Peek();
      if !more { return 0, false; }
      InArrayStarts(b, env, building, elem, s1, i);
      if c == CLOSE_ARRAY {
        InArrayEnds(b, env, building, elem, [], s0, s1, Now(), i + 1);
        i, depth := i + 1, depth - 1;
        return 0, true;
      }
      n, ok := Elements(elem, s1);
      if ok {
        InArrayEnds(b, env, building, elem, ArrayHere(b, env, s0).value.v, s0, s1, Now(), i);
        depth := depth - 1;
      }
    }

    /** One array element, counted against its limit. */
    method Element(elem: Elem) returns (ok: bool)
      requires Valid() && (names.track ==> |names.arena| <= i + 1)
      modifies this
      ensures ok <==> ValueHere(b, env, old(Now())).Some?
      ensures ok ==> var r := ValueHere(b, env, old(Now())).value;
                     && Took(b, env, building, old(Now()), Now(), r.end, EffElem(elem, r.v))
                     && (build ==> built == BuildElem(env, elem, old(built), r.v))
      decreases |b| - i, 3
    {
      hide Sound, Took, BuiltSame, EffAny, ElemBody, ValueHere, ElementCounted, SkipSpace, BuildElem, EffElem, Plus;
      ghost var s0 := Now();
      Bounded(b, env, building, s0);
      if elem == AnyElem {
        ok := SkipValue();
        if ok {
          BuiltIs(s0, Now());
          AnyElemIs(env, s0.built, ValueHere(b, env, s0).value.v);
        }
        return;
      }
      HereSkips(b, env, s0);
      var c, more := Peek();
      if !more { return false; }
      ghost var p := Now();
      Advanced(b, env, building, s0, i);
      CountElement(elem);
      TookElement(b, env, building, elem, p);
      CountedPlace(b, env, elem, p);
      ghost var q := Now();
      TookEnds(b, env, building, p, q, p.i, Counts(elem));
      BuiltIs(p, q);
      ok := TypedElement(elem, c);
      if ok {
        ghost var r := ValueHere(b, env, s0).value;
        TookEnds(b, env, building, q, Now(), r.end, ElemBody(elem, r.v));
        TookThen(b, env, building, p, q, Now(), Counts(elem), ElemBody(elem, r.v));
        TookAfterPeek(b, env, building, s0, p.i, Now(), r.end, Plus(Counts(elem), ElemBody(elem, r.v)));
        TypedElemIs(elem, r.v);
      }
    }

    /** An element of a typed array, once counted. */
    method TypedElement(elem: Elem, c: byte) returns (ok: bool)
      requires Valid() && (names.track ==> |names.arena| <= i + 1) && elem != AnyElem
      requires i < |b| && c == b[i] && SkipSpace(b, i) == i
      modifies this
      ensures ok <==> ValueHere(b, env, old(Now())).Some?
      ensures ok ==> var r := ValueHere(b, env, old(Now())).value;
                     && Took(b, env, building, old(Now()), Now(), r.end, ElemBody(elem, r.v))
                     && (build ==> built == BuildElem(env, elem, old(built), r.v))
      decreases |b| - i, 2, 2
    {
      hide Sound, Took, BuiltSame, EffAny, ValueHere, SkipSpace, BuildElem, Plus, EffObj, SeenIn, ObjectHere, ArrayHere, ScalarAt, Chars;
      ghost var s0 := Now();
      ValueIs(b, env, s0);
      if elem == CheckpointElem && c == QUOTE {
        StringIs(b, i);
        ok := CheckpointText();
      } else if elem != CheckpointElem && c == OPEN_OBJECT {
        ok := ObjectElement(elem);
      } else {
        ok := NotThis(s0);
        if ok {
          WrongElem(b, env, elem, s0);
        }
      }
    }

    /** A checkpoint's text; one over the limit is not kept. */
    method CheckpointText() returns (ok: bool)
      requires Valid() && i < |b| && b[i] == QUOTE
      modifies this
      ensures ok <==> Chars(b, old(i) + 1).Some?
      ensures ok ==> var t := Chars(b, old(i) + 1).value;
                     && Took(b, env, building, old(Now()), Now(), t.end, ONE_VALUE)
                     && (build ==> built == BuildElem(env, CheckpointElem, old(built), Str(t.s)))
    {
      hide Sound, Took, BuiltSame, ValueCounted, Chars, Unescape;
      ghost var s0 := Now();
      Bounded(b, env, building, s0);
      CountValue();
      ValueKeepsPlace(env, s0);
      var raw, n, escaped, end, scanned := ScanString(b, i);
      if !scanned { return false; }
      Scanned(b, s0.i + 1);
      TookValue(b, env, building, s0, end);
      i := end;
      ok := true;
      ghost var s1 := Now();
      BuiltIs(s0, s1);
      if build {
        var text := None;
        if n <= env.lim.checkpointBytes {
          var whole := AppendUnescaped([], raw);
          assert [] + Unescape(raw) == Unescape(raw);
          text := Some(whole);
        }
        built := built.(chain := built.chain.(checkpoints := built.chain.checkpoints + [text]));
        TookBuilt(b, env, building, s0, s1, end, ONE_VALUE, built);
      }
    }

    /** A chain or an entry: an object whose required members are all there. */
    method ObjectElement(elem: Elem) returns (ok: bool)
      requires Valid() && (names.track ==> |names.arena| <= i + 1) && i < |b| && b[i] == OPEN_OBJECT && elem in {ChainElem, EntryElem}
      modifies this
      ensures ok <==> ObjectHere(b, env, old(Now())).Some?
      ensures ok ==> var x := ObjectHere(b, env, old(Now())).value;
                     && Took(b, env, building, old(Now()), Now(), x.end, ElemBody(elem, Obj(x.v)))
                     && (build ==> built == BuildElem(env, elem, old(built), Obj(x.v)))
      decreases |b| - i, 2, 1
    {
      hide Sound, Took, BuiltSame, EffObj, ObjectHere, BuildMembers, SeenIn, Plus, Violated;
      ghost var p := Now();
      built := Blanked(elem, built);
      ghost var q := Now();
      Rebuilt(b, env, building, p, q.built);
      var seen;
      seen, ok := Object(KindOf(elem));
      if !ok { return; }
      ghost var x := ObjectHere(b, env, p).value;
      ghost var s1 := Now();
      TookRebuilt(b, env, building, p, q.built, s1, x.end, EffObj(KindOf(elem), x.v));
      TookEnds(b, env, building, p, s1, x.end, EffObj(KindOf(elem), x.v));
      PlusNothing(EffObj(KindOf(elem), x.v));
      if if elem == ChainElem then seen != RequiredOf(Chain) else !(RequiredOf(Entry) <= seen) {
        Violate();
        TookViolation(b, env, building, s1);
        ViolatedPlace(b, env, s1);
        TookThen(b, env, building, p, s1, Now(), EffObj(KindOf(elem), x.v), VIOLATION);
      }
      if build {
        ghost var s2 := Now();
        built := Finished(elem, built);
        TookBuilt(b, env, building, p, s2, x.end, ElemBody(elem, Obj(x.v)), built);
      }
    }

    // ---- The document ----

    /** The one top-level value, and nothing but whitespace after it. */
    method ReadDocument() returns (topObject: bool, ok: bool)
      requires Valid() && i == 0 && depth == 0 && eff == NOTHING && names.arena == [] && built == UNBUILT
      modifies this
      ensures ok <==> Document(b, env.lim.depth).Some?
      ensures ok ==> var t := Document(b, env.lim.depth).value;
                     && Valid() && eff == EffDocument(t) && topObject == t.Obj?
                     && (build ==> t.Obj? && built == BuildMembers(env, Bundle, UNBUILT, t.members))
    {
      hide Sound, Took, BuiltSame, EffAny, EffObj, ValueHere, ObjectHere, ArrayHere, ScalarAt, SkipSpace, BuildMembers, SeenIn, Plus, Violated, Moved;
      ghost var s0 := Now();
      topObject := false;
      Bounded(b, env, building, s0);
      ValueIs(b, env, s0);
      ValueHereIs(b, env, s0);
      var c, more := Peek();
      if !more { return false, false; }
      Advanced(b, env, building, s0, i);
      ghost var p := Now();
      ghost var s1;
      if c == OPEN_OBJECT {
        topObject := true;
        var seen;
        seen, ok := Object(Bundle);
        if !ok { return; }
        ghost var x := ObjectHere(b, env, p).value;
        s1 := Now();
        TookEnds(b, env, building, p, s1, x.end, EffObj(Bundle, x.v));
        PlusNothing(EffObj(Bundle, x.v));
        if 1 !in seen {
          Violate();
          TookViolation(b, env, building, s1);
          ViolatedPlace(b, env, s1);
          TookThen(b, env, building, p, s1, Now(), EffObj(Bundle, x.v), VIOLATION);
        }
      } else {
        ok := NotThis(s0);
        if !ok { return; }
        NotObject(b, env, s0);
      }
      ghost var r := ValueHere(b, env, s0).value;
      TookAll(b, env, building, s0, p.i, Now(), r.end, EffDocument(r.v));
      s1 := Now();
      Bounded(b, env, building, s1);
      c, more := Peek();
      Advanced(b, env, building, s1, i);
      ok := !more;
    }
  }

  lemma EqualTells(order: seq<Bytes>, k: nat)
    requires 0 < k < |order| && order[k - 1] == order[k]
    ensures !Distinct(order)
  {
  }

  lemma Bounded(b: Bytes, env: Env, building: bool, s: Snap)
    requires Sound(b, env, building, s)
    ensures s.i <= |b| <= MAX_INPUT && s.depth <= env.lim.depth
    ensures s.names.track ==> |s.names.unknown| == |s.names.nextCheck| == env.lim.depth + 1
  {
  }

  lemma PlainLocated(b: Bytes, arena: Bytes, start: nat, name: Bytes)
    requires start + |name| < |b| <= MAX_INPUT && b[start..start + |name|] == name && b[start + |name|] == QUOTE && QUOTE !in name
    ensures Locates(b, arena, start, name)
  {
  }

  lemma TracksRead(o: Inner, done: seq<Member>, name: Bytes, s: Snap)
    requires NameRead(o, done, name, s) && IndexOf(o.kind, name).None? && s.names.track
    ensures o.depth < |s.names.unknown| && o.depth < |s.names.nextCheck|
    ensures Tracks(o.b, s.names.arena, s.names.unknown[o.depth], UnknownNames(o.kind, done) + [name])
  {
  }

  lemma ValueKeepsPlace(env: Env, s: Snap)
    ensures ValueCounted(env, s).i == s.i && ValueCounted(env, s).depth == s.depth
  {
  }

  lemma SameBuilt(s: Snap, s': Snap)
    requires s'.build ==> s'.built == s.built
    ensures BuiltSame(s, s')
  {
  }

  lemma ViolatedPlace(b: Bytes, env: Env, s: Snap)
    ensures var v := Violated(s); v.i == s.i && v.depth == s.depth && v.names == s.names && ValueHere(b, env, v) == ValueHere(b, env, s)
  {
  }

  lemma TookEnds(b: Bytes, env: Env, building: bool, s: Snap, s': Snap, end: nat, e: Eff)
    requires Took(b, env, building, s, s', end, e)
    ensures s'.i == end && Sound(b, env, building, s') && s'.depth == s.depth && (s'.names.track ==> s.names.track && s'.names.arena == s.names.arena)
    ensures s'.build ==> s.build
  {
  }

  lemma TookFurther(b: Bytes, env: Env, building: bool, s: Snap, s': Snap, end: nat, e: Eff, i: nat)
    requires Took(b, env, building, s, s', end, e) && i <= |b|
    ensures Took(b, env, building, s, s'.(i := i), i, e)
  {
    Advanced(b, env, building, s', i);
  }

  lemma PrependLast<T>(done: seq<T>, x: T, end: nat)
    ensures Prepend(done, Some(Parsed([x], end))) == Some(Parsed(done + [x], end))
  {
  }

  lemma DoubledPlace(b: Bytes, env: Env, s: Snap)
    ensures var v := Doubled(s); v.i == s.i && v.depth == s.depth && !v.names.track && ValueHere(b, env, v) == ValueHere(b, env, s)
  {
  }

  lemma DoubledIs(s: Snap)
    ensures var v := Doubled(s); v.i == s.i && v.depth == s.depth && !v.names.track && !v.build && v.eff == s.eff.(dup := true)
  {
  }

  lemma TookNothing(t: Json, slot: Slot)
    ensures Plus(NOTHING, EffSlot(slot, t)) == EffSlot(slot, t)
  {
    hide EffSlot;
    PlusNothing(EffSlot(slot, t));
  }

  lemma NamePlace(kind: Kind, name: Bytes)
    ensures IndexOf(kind, name).Some? ==> IndexOf(kind, name).value < |NamesOf(kind)|
  {
  }

  lemma ValueHereIs(b: Bytes, env: Env, s: Snap)
    requires s.i <= |b|
    ensures ValueHere(b, env, s) == Value(b, s.i, Left(env, s))
  {
  }

  lemma NextMemberIs(b: Bytes, i: nat, d: nat)
    requires i < |b|
    ensures NextMember(b, i, d) ==
              match NameAndValue(b, i, d)
              case None => None
              case Some(m) =>
                var e := SkipSpace(b, m.end);
                if e == |b| || (b[e] != CLOSE_OBJECT && b[e] != COMMA) then None
                else if b[e] == CLOSE_OBJECT then Some(Step(m.v, true, e + 1))
                else if SkipSpace(b, e + 1) == |b| then None else Some(Step(m.v, false, SkipSpace(b, e + 1)))
  {
    hide NameAndValue, SkipSpace;
  }

  lemma NameAndValueIs(b: Bytes, i: nat, d: nat)
    requires i < |b|
    ensures NameAndValue(b, i, d) ==
              if b[i] != QUOTE || Chars(b, i + 1).None? then None
              else
                var name := Chars(b, i + 1).value;
                var k := SkipSpace(b, name.end);
                if k == |b| || b[k] != COLON then None
                else match Value(b, k + 1, d) case None => None case Some(v) => Some(Parsed(Member(name.s, v.v), v.end))
  {
    hide Chars, SkipSpace, Value;
  }

  lemma SeenNone(kind: Kind)
    ensures SeenIn(kind, []) == {}
  {
  }

  lemma NoNames()
    ensures DistinctNames([])
  {
  }

  lemma EmptyNames(s: Snap, depth: nat)
    ensures depth < |s.names.unknown| ==>
              s.names == s.names.(unknown := s.names.unknown[depth := s.names.unknown[depth]], arena := s.names.arena)
  {
    if depth < |s.names.unknown| { assert s.names.unknown[depth := s.names.unknown[depth]] == s.names.unknown; }
  }

  lemma NamesNow(o: Inner, ms: seq<Member>, s: Snap)
    requires Inside(o, ms, s) && s.names.track
    ensures o.depth < |s.names.unknown| && o.depth < |s.names.nextCheck| && o.s0.names.track && o.s0.names.arena <= s.names.arena
    ensures Tracks(o.b, s.names.arena, s.names.unknown[o.depth], UnknownNames(o.kind, ms)) && DefinedOnce(o.kind, ms)
  {
  }

  lemma FewNames(b: Bytes, arena: Bytes, refs: seq<NameRef>, unknowns: seq<Bytes>)
    requires Tracks(b, arena, refs, unknowns) && |refs| <= 1
    ensures Distinct(unknowns)
  {
    var order :| AllLocated(b, arena, refs, order) && multiset(order) == multiset(unknowns);
    assert |multiset(order)| == |order| && |multiset(unknowns)| == |unknowns|;
  }

  /** When the names are no longer kept, either a duplicate is known or the value limit has passed it by. */
  lemma NamesLate(b: Bytes, env: Env, building: bool, s: Snap, distinct: bool)
    requires Sound(b, env, building, s) && !s.names.track
    ensures Sound(b, env, building, s.(eff := s.eff.(dup := s.eff.dup || !distinct)))
  {
  }

  lemma SameLeft(env: Env, s: Snap, s': Snap)
    requires s'.depth == s.depth
    ensures Left(env, s') == Left(env, s)
  {
  }

  lemma FormatIs(s: Snap, t: Json, ok: bool)
    ensures FormatSet(s, ok).i == s.i && FormatSet(s, ok).depth == s.depth
    ensures FormatSet(s, ok).build ==> s.build && FormatSet(s, ok).built == s.built
    ensures ok == (t.Str? && t.s == Ascii(FORMAT_ID)) ==> EffSlot(FormatValue, t) == Plus(EffText(t), FormatWas(ok))
  {
    hide EffAny, Plus;
  }

  /** Of another type than an array. */
  lemma NotArray(b: Bytes, env: Env, s: Snap)
    requires s.i <= |b| && ValueHere(b, env, s).Some? && b[SkipSpace(b, s.i)] != OPEN_ARRAY
    ensures !ValueHere(b, env, s).value.v.Arr?
  {
  }

  lemma NotObject(b: Bytes, env: Env, s: Snap)
    requires s.i <= |b| && ValueHere(b, env, s).Some? && b[SkipSpace(b, s.i)] != OPEN_OBJECT
    ensures !ValueHere(b, env, s).value.v.Obj?
  {
  }

  lemma BuiltIs(s: Snap, s': Snap)
    ensures BuiltSame(s, s') && s'.build ==> s'.built == s.built
  {
  }

  function WithText(kind: Kind, idx: nat, b: Built, s: Bytes): Built {
    match kind
    case Entry => if idx < |b.entry.fields| then b.(entry := b.entry.(fields := b.entry.fields[idx := s])) else b
    case Signature => b.(entry := b.entry.(sig := SetPair(b.entry.sig, idx, s)))
    case Disclosed => b.(entry := b.entry.(disclosed := SetPair(b.entry.disclosed, idx, s)))
    case _ => b
  }

  lemma TextBuilt(env: Env, kind: Kind, idx: nat, b: Built, t: Json)
    requires idx < |Caps(kind)| && kind in {Entry, Signature, Disclosed}
    ensures t.Str? ==> BuildSlot(env, kind, idx, b, t) == WithText(kind, idx, b, Cap(t.s, Caps(kind)[idx]))
    ensures SlotOf(kind, idx) == TextValue(Caps(kind)[idx])
  {
  }

  lemma Rebuilt(b: Bytes, env: Env, building: bool, s: Snap, built: Built)
    requires Sound(b, env, building, s)
    ensures Sound(b, env, building, s.(built := built))
    ensures ObjectHere(b, env, s.(built := built)) == ObjectHere(b, env, s)
  {
  }

  lemma TookRebuilt(b: Bytes, env: Env, building: bool, s: Snap, built: Built, s': Snap, end: nat, e: Eff)
    requires Took(b, env, building, s.(built := built), s', end, e)
    ensures Took(b, env, building, s, s', end, e)
  {
  }

  /** What an element of a typed array is found to be, apart from its count. */
  function ElemBody(elem: Elem, t: Json): Eff {
    match elem
    case AnyElem => EffAny(t)
    case ChainElem =>
      if t.Obj? then Plus(EffObj(Chain, t.members), If(SeenIn(Chain, t.members) != RequiredOf(Chain), VIOLATION))
      else Plus(VIOLATION, EffAny(t))
    case EntryElem =>
      if t.Obj? then Plus(EffObj(Entry, t.members), If(!(RequiredOf(Entry) <= SeenIn(Entry, t.members)), VIOLATION))
      else Plus(VIOLATION, EffAny(t))
    case CheckpointElem => EffText(t)
  }

  lemma TypedElemIs(elem: Elem, t: Json)
    requires elem != AnyElem
    ensures EffElem(elem, t) == Plus(Counts(elem), ElemBody(elem, t))
  {
    hide EffAny, EffObj, SeenIn, Plus;
  }

  lemma AnyElemIs(env: Env, b: Built, t: Json)
    ensures EffElem(AnyElem, t) == EffAny(t) && BuildElem(env, AnyElem, b, t) == b
  {
  }

  /** Whitespace makes no difference to what is here. */
  lemma HereSkips(b: Bytes, env: Env, s: Snap)
    requires s.i <= |b|
    ensures var j := SkipSpace(b, s.i); ValueHere(b, env, s.(i := j)) == ValueHere(b, env, s) && SkipSpace(b, j) == j
    ensures SkipSpace(b, s.i) == |b| ==> ValueHere(b, env, s) == None
  {
    hide Value, SkipSpace;
    ValueSkips(b, s.i, Left(env, s));
    SkipTwice(b, s.i);
  }

  lemma CountedPlace(b: Bytes, env: Env, elem: Elem, s: Snap)
    ensures var v := ElementCounted(env, elem, s); v.i == s.i && v.depth == s.depth && v.names == s.names && ValueHere(b, env, v) == ValueHere(b, env, s)
  {
    hide Plus, Value;
  }

  /** An element of another type than its array's. */
  lemma WrongElem(b: Bytes, env: Env, elem: Elem, s: Snap)
    requires s.i < |b| && SkipSpace(b, s.i) == s.i && ValueHere(b, env, s).Some? && elem != AnyElem
    requires if elem == CheckpointElem then b[s.i] != QUOTE else b[s.i] != OPEN_OBJECT
    ensures ElemBody(elem, ValueHere(b, env, s).value.v) == Plus(VIOLATION, EffAny(ValueHere(b, env, s).value.v))
  {
    hide EffAny, EffObj, SeenIn, Plus, ObjectAt, ArrayAt, ScalarAt, SkipSpace;
  }

  function KindOf(elem: Elem): Kind {
    match elem case ChainElem => Chain case EntryElem => Entry case _ => Other
  }

  function Blanked(elem: Elem, b: Built): Built {
    if elem == ChainElem then b.(chain := BLANK_CHAIN) else b.(entry := BLANK_ENTRY)
  }

  /** The element kept, and room made for the next. */
  function Finished(elem: Elem, b: Built): Built {
    if elem == ChainElem then b.(chains := b.chains + [b.chain], chain := BLANK_CHAIN)
    else b.(chain := b.chain.(entries := b.chain.entries + [b.entry]), entry := BLANK_ENTRY)
  }

  lemma TookAll(b: Bytes, env: Env, building: bool, s: Snap, j: nat, s': Snap, end: nat, e: Eff)
    requires Took(b, env, building, s.(i := j), s', end, e) || Took(b, env, building, s, s', end, e)
    requires s.eff == NOTHING
    ensures Sound(b, env, building, s') && s'.i == end && s'.eff == e
  {
    PlusNothing(e);
  }
}
