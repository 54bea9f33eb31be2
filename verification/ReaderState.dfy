/** What the reader knows between two bytes, and how it moves: the invariants of the one-pass reader as facts about values. */
module ReaderState {
  import opened Basics
  import opened JsonText
  import opened JsonTree
  import opened Findings
  import opened NameArena

  /** What was found, as flags and counters. */
  datatype Found = Found(
    values: nat, overValues: bool, duplicate: bool, structure: bool, overCount: bool, formatOK: bool,
    nChains: nat, nEntries: nat, nCheckpoints: nat)

  /** One list of unknown names for every open object, outermost first; given up with track, once no further name matters. */
  datatype Names = Names(track: bool, unknown: seq<seq<NameRef>>, nextCheck: seq<nat>, arena: Bytes)

  /** Everything the reader holds. */
  datatype Snap = Snap(i: nat, depth: nat, found: Found, build: bool, built: Built, names: Names, eff: Eff)

  const UNBUILT := Built([], BLANK_CHAIN, BLANK_ENTRY)
  const UNTRACKED := Names(false, [], [], [])

  /** The flags and counters say what was found. */
  predicate Counted(env: Env, f: Found, e: Eff) {
    match f
    case Found(values, _, _, structure, overCount, formatOK, nChains, nEntries, nCheckpoints) =>
      values == e.values && structure == e.bad && nChains == e.chains && nEntries == e.entries && nCheckpoints == e.checkpoints
      && overCount == OverCount(e, env.lim) && formatOK == (e.format == Some(true))
  }

  /**
   * The value limit is noticed exactly, a duplicate exactly while the value
   * limit holds, and building goes on exactly as long as nothing was found.
   */
  predicate Coherent(env: Env, building: bool, s: Snap) {
    match s
    case Snap(_, _, found, build, _, names, eff) =>
      (found.overValues <==> eff.values > env.lim.values) && (!found.overValues ==> (found.duplicate <==> eff.dup))
      && (found.duplicate ==> eff.dup) && (names.track <==> !found.overValues && !found.duplicate)
      && (build <==> building && Clear(eff, env.lim))
      && (names.track ==> |names.unknown| == env.lim.depth + 1 && |names.nextCheck| == env.lim.depth + 1)
  }

  predicate Sound(b: Bytes, env: Env, building: bool, s: Snap) {
    match s
    case Snap(i, depth, found, _, _, _, eff) =>
      i <= |b| <= MAX_INPUT && depth <= env.lim.depth && Counted(env, found, eff) && Coherent(env, building, s)
  }

  // ---- Single steps ----

  const DOUBLE := NOTHING.(dup := true)

  /** violate. */
  function Violated(s: Snap): Snap {
    Snap(s.i, s.depth, s.found.(structure := true), false, UNBUILT, s.names, Plus(s.eff, VIOLATION))
  }

  /** foundDuplicate. */
  function Doubled(s: Snap): Snap {
    Snap(s.i, s.depth, s.found.(duplicate := true), false, UNBUILT, UNTRACKED, Plus(s.eff, DOUBLE))
  }

  /** countValue. */
  function ValueCounted(env: Env, s: Snap): Snap {
    var n := s.found.values + 1;
    if n > env.lim.values && !s.found.overValues then
      Snap(s.i, s.depth, s.found.(values := n, overValues := true), false, UNBUILT, UNTRACKED, Plus(s.eff, ONE_VALUE))
    else Snap(s.i, s.depth, s.found.(values := n), s.build, s.built, s.names, Plus(s.eff, ONE_VALUE))
  }

  /** What one element of a typed array counts as. */
  function Counts(elem: Elem): Eff {
    match elem
    case AnyElem => NOTHING
    case ChainElem => NOTHING.(chains := 1)
    case EntryElem => NOTHING.(entries := 1)
    case CheckpointElem => NOTHING.(checkpoints := 1)
  }

  function CountersAfter(elem: Elem, f: Found): Found {
    match elem
    case AnyElem => f
    case ChainElem => f.(nChains := f.nChains + 1)
    case EntryElem => f.(nEntries := f.nEntries + 1)
    case CheckpointElem => f.(nCheckpoints := f.nCheckpoints + 1)
  }

  /** The element just counted is past its limit. */
  predicate PastLimit(lim: Limits, elem: Elem, f: Found) {
    match elem
    case AnyElem => false
    case ChainElem => f.nChains > lim.chains
    case EntryElem => f.nEntries > lim.entries
    case CheckpointElem => f.nCheckpoints > lim.checkpoints
  }

  /** A count, and overLimit. */
  function ElementCounted(env: Env, elem: Elem, s: Snap): Snap {
    var f := CountersAfter(elem, s.found);
    var e := Plus(s.eff, Counts(elem));
    if PastLimit(env.lim, elem, f) && !f.overCount then Snap(s.i, s.depth, f.(overCount := true), false, UNBUILT, s.names, e)
    else Snap(s.i, s.depth, f, s.build, s.built, s.names, e)
  }

  function FormatSet(s: Snap, ok: bool): Snap {
    Snap(s.i, s.depth, s.found.(formatOK := ok), s.build && ok, if ok then s.built else UNBUILT, s.names, Plus(s.eff, FormatWas(ok)))
  }

  /** Up to this depth the names kept are as they were. */
  predicate HeldNames(n: Names, n': Names, depth: nat) {
    match n'
    case Names(track, unknown, nextCheck, arena) =>
      track ==> n.track && arena == n.arena && |unknown| == |n.unknown| && |nextCheck| == |n.nextCheck| && depth < |unknown|
                && depth < |nextCheck| && unknown[..depth + 1] == n.unknown[..depth + 1]
                && nextCheck[..depth + 1] == n.nextCheck[..depth + 1]
  }

  /** A step that found e, and left the names up to its depth alone. */
  predicate Moved(s: Snap, s': Snap, e: Eff, depth: nat) {
    match s' case Snap(_, _, _, build, _, names, eff) => eff == Plus(s.eff, e) && HeldNames(s.names, names, depth) && (build ==> s.build)
  }

  /** A step that built nothing. */
  predicate BuiltSame(s: Snap, s': Snap) {
    match s' case Snap(_, _, _, build, built, _, _) => build ==> built == s.built
  }

  lemma ViolatedSound(b: Bytes, env: Env, building: bool, s: Snap, depth: nat)
    requires Sound(b, env, building, s) && depth <= env.lim.depth
    ensures var v := Violated(s); Sound(b, env, building, v) && Moved(s, v, VIOLATION, depth) && BuiltSame(s, v) && !v.build
  {
  }

  lemma DoubledSound(b: Bytes, env: Env, building: bool, s: Snap, depth: nat)
    requires Sound(b, env, building, s)
    ensures var v := Doubled(s); Sound(b, env, building, v) && Moved(s, v, DOUBLE, depth) && BuiltSame(s, v) && !v.build && !v.names.track
  {
  }

  lemma ValueSound(b: Bytes, env: Env, building: bool, s: Snap, depth: nat)
    requires Sound(b, env, building, s) && depth <= env.lim.depth
    ensures var v := ValueCounted(env, s); Sound(b, env, building, v) && Moved(s, v, ONE_VALUE, depth) && BuiltSame(s, v)
  {
  }

  lemma ElementSound(b: Bytes, env: Env, building: bool, elem: Elem, s: Snap, depth: nat)
    requires Sound(b, env, building, s) && depth <= env.lim.depth
    ensures var v := ElementCounted(env, elem, s); Sound(b, env, building, v) && Moved(s, v, Counts(elem), depth) && BuiltSame(s, v)
  {
    var v := ElementCounted(env, elem, s);
    assert Counted(env, v.found, v.eff) by { hide Coherent; }
    assert Coherent(env, building, v);
    hide Counted, Coherent, CountersAfter, PastLimit, Counts;
  }

  lemma FormatSound(b: Bytes, env: Env, building: bool, s: Snap, ok: bool, depth: nat)
    requires Sound(b, env, building, s) && depth <= env.lim.depth
    ensures var v := FormatSet(s, ok); Sound(b, env, building, v) && Moved(s, v, FormatWas(ok), depth) && BuiltSame(s, v)
  {
  }

  lemma PlusAssoc(a: Eff, c: Eff, d: Eff)
    ensures Plus(Plus(a, c), d) == Plus(a, Plus(c, d))
  {
  }

  lemma PlusNothing(a: Eff)
    ensures Plus(a, NOTHING) == a && Plus(NOTHING, a) == a
  {
  }

  // ---- Inside an object ----

  /** References to exactly these names, in some order. */
  ghost predicate Tracks(b: Bytes, arena: Bytes, refs: seq<NameRef>, names: seq<Bytes>) {
    exists order: seq<Bytes> :: AllLocated(b, arena, refs, order) && multiset(order) == multiset(names)
  }

  lemma TracksMore(b: Bytes, arena: Bytes, arena': Bytes, refs: seq<NameRef>, names: seq<Bytes>, ref: NameRef, name: Bytes)
    requires Tracks(b, arena, refs, names) && arena <= arena' && Locates(b, arena', ref, name)
    ensures Tracks(b, arena', refs + [ref], names + [name])
  {
    var order :| AllLocated(b, arena, refs, order) && multiset(order) == multiset(names);
    ArenaGrows(b, arena, arena', refs, order);
    hide Locates;
    assert AllLocated(b, arena', refs + [ref], order + [name]);
  }

  lemma TracksNothing(b: Bytes, arena: Bytes)
    ensures Tracks(b, arena, [], [])
  {
    assert AllLocated(b, arena, [], []);
  }

  /** An object being read: its kind and depth, and the reader as the object met it (its own value counted). */
  datatype Inner = Inner(b: Bytes, env: Env, kind: Kind, depth: nat, s0: Snap)

  /** After these members. A duplicate among unknown names may not be known yet; the names say whether there is one. */
  ghost predicate Inside(o: Inner, done: seq<Member>, s: Snap) {
    match o
    case Inner(b, env, kind, depth, s0) =>
      var e := Plus(s0.eff, EffMembers(kind, done));
      s.eff == e.(dup := s.eff.dup) && (e.dup ==> s.eff.dup) && (s.eff.dup ==> e.dup || !DistinctNames(done))
      && (s.build ==> s0.build && s.built == BuildMembers(env, kind, s0.built, done))
      && (s.names.track ==> Kept(o, s) && DefinedOnce(kind, done) && Tracks(b, s.names.arena, s.names.unknown[depth], UnknownNames(kind, done)))
  }

  /** The outer objects' names are untouched, and the arena only grew. */
  predicate Kept(o: Inner, s: Snap) {
    match o
    case Inner(b, env, kind, depth, s0) =>
      s0.names.track && s0.names.arena <= s.names.arena && 1 <= depth < |s.names.unknown| && |s.names.unknown| == |s0.names.unknown| && |s.names.nextCheck| == |s0.names.nextCheck|
      && depth < |s.names.nextCheck| && s.names.unknown[..depth] == s0.names.unknown[..depth] && s.names.nextCheck[..depth] == s0.names.nextCheck[..depth]
  }

  /** The name of the next member has been read; a duplicate may have been found among the unknown names. */
  ghost predicate NameRead(o: Inner, done: seq<Member>, name: Bytes, s: Snap) {
    match o
    case Inner(b, env, kind, depth, s0) =>
      var e := Plus(s0.eff, EffMembers(kind, done));
      var unknowns := UnknownNames(kind, done) + if IndexOf(kind, name).None? then [name] else [];
      s.eff == e.(dup := s.eff.dup) && (e.dup ==> s.eff.dup) && (s.eff.dup ==> e.dup || !DistinctNames(done) || !Distinct(unknowns))
      && (s.build ==> s0.build && s.built == BuildMembers(env, kind, s0.built, done))
      && (s.names.track ==> Kept(o, s) && DefinedOnce(kind, done) && Tracks(b, s.names.arena, s.names.unknown[depth], unknowns))
  }

  lemma InsideStarts(o: Inner, s: Snap)
    requires s.eff == o.s0.eff && s.build == o.s0.build && s.built == o.s0.built && s.names.track == o.s0.names.track
    requires s.names.track ==> Kept(o, s) && s.names.unknown[o.depth] == []
    ensures Inside(o, [], s)
  {
    PlusNothing(s.eff);
    TracksNothing(o.b, s.names.arena);
  }

  lemma MembersMore(kind: Kind, done: seq<Member>, m: Member)
    ensures var ms := done + [m];
            && EffMembers(kind, ms) == Plus(EffMembers(kind, done), EffMember(kind, done, m.name, m.value))
            && UnknownNames(kind, ms) == UnknownNames(kind, done) + (if IndexOf(kind, m.name).None? then [m.name] else [])
            && (DefinedOnce(kind, ms) <==> DefinedOnce(kind, done) && (IndexOf(kind, m.name).None? || !Named(done, m.name)))
            && (DistinctNames(ms) <==> DistinctNames(done) && !Named(done, m.name))
  {
    hide IndexOf, EffMember;
    var ms := done + [m];
    assert ms[..|ms| - 1] == done;
    OnceMore(kind, ms);
    NamesMore(ms);
  }

  lemma BuildMore(env: Env, kind: Kind, b: Built, done: seq<Member>, m: Member)
    ensures BuildMembers(env, kind, b, done + [m]) == BuildMember(env, kind, BuildMembers(env, kind, b, done), m.name, m.value)
  {
    hide BuildMember;
    var ms := done + [m];
    assert ms[..|ms| - 1] == done;
  }

  /** The value after the name. extra: what the reader itself noted before reading it. */
  lemma InsideMore(o: Inner, done: seq<Member>, m: Member, s: Snap, s': Snap, extra: Eff, e: Eff)
    requires NameRead(o, done, m.name, s) && Moved(s, s', Plus(extra, e), o.depth)
    requires EffMember(o.kind, done, m.name, m.value) == Plus(extra.(dup := false), e)
    requires extra.dup <==> IndexOf(o.kind, m.name).Some? && Named(done, m.name)
    requires s'.build ==> s'.built == BuildMember(o.env, o.kind, s.built, m.name, m.value)
    requires s'.names.track ==> !extra.dup
    ensures Inside(o, done + [m], s')
  {
    hide IndexOf, EffMember, BuildMember, Tracks, Distinct, DistinctNames, DefinedOnce, Named;
    MembersMore(o.kind, done, m);
    BuildMore(o.env, o.kind, o.s0.built, done, m);
    DistinctAfter(o.kind, done, m);
    if s'.names.track { KeptOn(o, s, s'); }
  }

  lemma DistinctAfter(kind: Kind, done: seq<Member>, m: Member)
    ensures !DistinctNames(done) ==> !DistinctNames(done + [m])
    ensures !Distinct(UnknownNames(kind, done) + if IndexOf(kind, m.name).None? then [m.name] else []) ==> !DistinctNames(done + [m])
    ensures IndexOf(kind, m.name).Some? && Named(done, m.name) ==> !DistinctNames(done + [m])
  {
    hide IndexOf;
    MembersMore(kind, done, m);
    DistinctParts(kind, done + [m]);
  }

  lemma KeptOn(o: Inner, s: Snap, s': Snap)
    requires Kept(o, s) && HeldNames(s.names, s'.names, o.depth) && s'.names.track
    ensures Kept(o, s') && s'.names.arena == s.names.arena && s'.names.unknown[o.depth] == s.names.unknown[o.depth]
  {
    var d := o.depth;
    assert s'.names.unknown[..d] == s'.names.unknown[..d + 1][..d] == s.names.unknown[..d + 1][..d] == s.names.unknown[..d];
    assert s'.names.nextCheck[..d] == s'.names.nextCheck[..d + 1][..d] == s.names.nextCheck[..d + 1][..d] == s.names.nextCheck[..d];
    assert s'.names.unknown[d] == s'.names.unknown[..d + 1][d] && s.names.unknown[d] == s.names.unknown[..d + 1][d];
  }

  // ---- A member's name ----

  /** A defined name, or one no longer kept. */
  lemma NamePassed(o: Inner, done: seq<Member>, name: Bytes, s: Snap, i: nat)
    requires Inside(o, done, s) && (IndexOf(o.kind, name).Some? || !s.names.track)
    ensures NameRead(o, done, name, s.(i := i))
  {
    hide IndexOf, EffMembers, BuildMembers, Tracks;
    assert UnknownNames(o.kind, done) + [] == UnknownNames(o.kind, done);
    if s.eff.dup { MoreNames(o.kind, done, name); }
  }

  /** Names that repeat go on repeating. */
  lemma MoreNames(kind: Kind, done: seq<Member>, name: Bytes)
    ensures !Distinct(UnknownNames(kind, done)) ==> !Distinct(UnknownNames(kind, done) + [name])
  {
    DistinctMore(UnknownNames(kind, done), name);
  }

  /** The reader's names with one more reference at a depth, and a longer arena. */
  function WithRef(n: Names, depth: nat, ref: NameRef, arena: Bytes): Names
    requires depth < |n.unknown|
  {
    n.(unknown := n.unknown[depth := n.unknown[depth] + [ref]], arena := arena)
  }

  /** An unknown name, kept. */
  lemma NameKept(o: Inner, done: seq<Member>, name: Bytes, s: Snap, i: nat, ref: NameRef, arena: Bytes)
    requires Inside(o, done, s) && IndexOf(o.kind, name).None? && s.names.track && s.names.arena <= arena
    requires Locates(o.b, arena, ref, name)
    ensures o.depth < |s.names.unknown| && o.depth < |s.names.nextCheck|
    ensures NameRead(o, done, name, s.(i := i, names := WithRef(s.names, o.depth, ref, arena)))
  {
    var d := o.depth;
    var n := WithRef(s.names, d, ref, arena);
    assert n.unknown[..d] == s.names.unknown[..d];
    TracksMore(o.b, s.names.arena, arena, s.names.unknown[d], UnknownNames(o.kind, done), ref, name);
    hide IndexOf, EffMembers, BuildMembers, Tracks, Locates, UnknownNames, DefinedOnce, DistinctNames, Distinct;
  }

  /** The names at one depth looked at: no two are equal, or a duplicate is found. */
  lemma NameChecked(o: Inner, done: seq<Member>, name: Bytes, s: Snap, n: Names)
    requires NameRead(o, done, name, s) && IndexOf(o.kind, name).None? && s.names.track
    requires o.depth < |s.names.unknown| == |n.unknown| && |n.nextCheck| == |s.names.nextCheck| && n.track && n.arena == s.names.arena
    requires n.unknown == s.names.unknown[o.depth := n.unknown[o.depth]] && n.nextCheck[..o.depth] == s.names.nextCheck[..o.depth]
    requires Tracks(o.b, n.arena, n.unknown[o.depth], UnknownNames(o.kind, done) + [name])
    ensures NameRead(o, done, name, s.(names := n))
  {
    var d := o.depth;
    assert n.unknown[..d] == s.names.unknown[..d];
    hide IndexOf, EffMembers, BuildMembers, Tracks, UnknownNames, DefinedOnce, DistinctNames, Distinct;
  }

  lemma NameDoubled(o: Inner, done: seq<Member>, name: Bytes, s: Snap)
    requires NameRead(o, done, name, s) && IndexOf(o.kind, name).None?
    requires !Distinct(UnknownNames(o.kind, done) + [name])
    ensures NameRead(o, done, name, Doubled(s))
  {
    hide IndexOf, EffMembers, BuildMembers, Tracks, UnknownNames, DefinedOnce, DistinctNames, Distinct;
  }

  /** A name longer than any defined one is unknown. */
  lemma LongIsUnknown(kind: Kind, name: Bytes)
    requires |name| > MAX_MEMBER_NAME
    ensures IndexOf(kind, name) == None
  {
    var known := NamesOf(kind);
    assert forall k | 0 <= k < |known| :: |known[k]| <= MAX_MEMBER_NAME;
  }

  /** A cursor moved and nothing else. */
  lemma Advanced(b: Bytes, env: Env, building: bool, s: Snap, i: nat)
    requires Sound(b, env, building, s) && i <= |b|
    ensures Sound(b, env, building, s.(i := i))
  {
  }

  /** Names of the same shape keep the reader sound. */
  lemma Renamed(b: Bytes, env: Env, building: bool, s: Snap, n: Names)
    requires Sound(b, env, building, s) && s.names.track && n.track
    requires |n.unknown| == |s.names.unknown| && |n.nextCheck| == |s.names.nextCheck|
    ensures Sound(b, env, building, s.(names := n))
  {
  }

  // ---- Whole values ----

  function Left(env: Env, s: Snap): nat {
    if s.depth <= env.lim.depth then env.lim.depth - s.depth else 0
  }

  /** From s to s' something was read up to end, at the same depth, that found e. */
  predicate Took(b: Bytes, env: Env, building: bool, s: Snap, s': Snap, end: nat, e: Eff) {
    match s'
    case Snap(i, depth, _, _, _, _, _) =>
      Sound(b, env, building, s') && i == end && depth == s.depth && Moved(s, s', e, s.depth)
  }

  lemma TookThen(b: Bytes, env: Env, building: bool, s: Snap, s': Snap, s'': Snap, e: Eff, e': Eff)
    requires Took(b, env, building, s, s', s'.i, e) && Took(b, env, building, s', s'', s''.i, e')
    ensures Took(b, env, building, s, s'', s''.i, Plus(e, e'))
    ensures BuiltSame(s, s') && BuiltSame(s', s'') ==> BuiltSame(s, s'')
    ensures s''.build ==> s'.build && s.build
  {
    hide Sound, Plus;
    PlusAssoc(s.eff, e, e');
    assert Plus(Plus(s.eff, e), e') == Plus(s.eff, Plus(e, e'));
  }

  /** The cursor alone may have moved before. */
  lemma TookAfterPeek(b: Bytes, env: Env, building: bool, s: Snap, j: nat, s': Snap, end: nat, e: Eff)
    requires Took(b, env, building, s.(i := j), s', end, e)
    ensures Took(b, env, building, s, s', end, e) && (BuiltSame(s.(i := j), s') ==> BuiltSame(s, s'))
  {
    hide Sound, Plus;
  }

  lemma TookViolation(b: Bytes, env: Env, building: bool, s: Snap)
    requires Sound(b, env, building, s)
    ensures var v := Violated(s); Took(b, env, building, s, v, s.i, VIOLATION) && BuiltSame(s, v) && !v.build
  {
    ViolatedSound(b, env, building, s, s.depth);
    hide Moved, Plus;
  }

  lemma TookDouble(b: Bytes, env: Env, building: bool, s: Snap)
    requires Sound(b, env, building, s)
    ensures var v := Doubled(s); Took(b, env, building, s, v, s.i, DOUBLE) && BuiltSame(s, v) && !v.build && !v.names.track
  {
    DoubledSound(b, env, building, s, s.depth);
    hide Moved, Plus;
  }

  lemma TookValue(b: Bytes, env: Env, building: bool, s: Snap, end: nat)
    requires Sound(b, env, building, s) && end <= |b|
    ensures var v := ValueCounted(env, s).(i := end); Took(b, env, building, s, v, end, ONE_VALUE) && BuiltSame(s, v)
  {
    ValueSound(b, env, building, s, s.depth);
    Advanced(b, env, building, ValueCounted(env, s), end);
  }

  lemma TookElement(b: Bytes, env: Env, building: bool, elem: Elem, s: Snap)
    requires Sound(b, env, building, s)
    ensures var v := ElementCounted(env, elem, s); Took(b, env, building, s, v, s.i, Counts(elem)) && BuiltSame(s, v)
  {
    ElementSound(b, env, building, elem, s, s.depth);
    hide Moved, Plus;
  }

  lemma TookFormat(b: Bytes, env: Env, building: bool, s: Snap, ok: bool)
    requires Sound(b, env, building, s)
    ensures var v := FormatSet(s, ok); Took(b, env, building, s, v, s.i, FormatWas(ok)) && BuiltSame(s, v)
  {
    FormatSound(b, env, building, s, ok, s.depth);
    hide Moved, Plus;
  }

  /** Building more, while building goes on, changes nothing else. */
  lemma TookBuilt(b: Bytes, env: Env, building: bool, s: Snap, s': Snap, end: nat, e: Eff, built: Built)
    requires Took(b, env, building, s, s', end, e)
    ensures Took(b, env, building, s, s'.(built := built), end, e)
  {
  }

  /** An array or object entered: its own value counted, one level down. */
  lemma OpenedSound(b: Bytes, env: Env, building: bool, s: Snap)
    requires Sound(b, env, building, s) && s.depth < env.lim.depth
    ensures var v := ValueCounted(env, s.(depth := s.depth + 1));
            Sound(b, env, building, v) && Moved(s, v, ONE_VALUE, s.depth) && BuiltSame(s, v) && v.i == s.i && v.depth == s.depth + 1
    ensures var v := ValueCounted(env, s.(depth := s.depth + 1)); v.names.track ==> v.names == s.names
  {
    var t := s.(depth := s.depth + 1);
    assert Sound(b, env, building, t);
    ValueSound(b, env, building, t, s.depth);
  }

  lemma Closed(b: Bytes, env: Env, building: bool, s: Snap, i: nat, depth: nat)
    requires Sound(b, env, building, s) && i <= |b| && depth <= env.lim.depth
    ensures Sound(b, env, building, s.(i := i, depth := depth))
  {
  }

  // ---- What is to be read where the reader is ----

  function ValueHere(b: Bytes, env: Env, s: Snap): (r: Option<Parsed<Json>>)
    ensures r.Some? ==> s.i < r.value.end <= |b|
  {
    if s.i <= |b| then Value(b, s.i, Left(env, s)) else None
  }

  function ObjectHere(b: Bytes, env: Env, s: Snap): (r: Option<Parsed<seq<Member>>>)
    ensures r.Some? ==> s.i < r.value.end <= |b|
  {
    if s.i < |b| then ObjectAt(b, s.i, Left(env, s)) else None
  }

  function ArrayHere(b: Bytes, env: Env, s: Snap): (r: Option<Parsed<seq<Json>>>)
    ensures r.Some? ==> s.i < r.value.end <= |b|
  {
    if s.i < |b| then ArrayAt(b, s.i, Left(env, s)) else None
  }

  /** A value is what its first byte says. */
  lemma ValueIs(b: Bytes, env: Env, s: Snap)
    requires s.i <= |b|
    ensures var j := SkipSpace(b, s.i);
            var p := s.(i := j);
            && (j == |b| ==> ValueHere(b, env, s) == None)
            && (j < |b| ==> ValueHere(b, env, s) == ValueHere(b, env, p))
            && (j < |b| && b[j] == OPEN_OBJECT ==>
                  ValueHere(b, env, s) == match ObjectHere(b, env, p) case None => None case Some(x) => Some(Parsed(Obj(x.v), x.end)))
            && (j < |b| && b[j] == OPEN_ARRAY ==>
                  ValueHere(b, env, s) == match ArrayHere(b, env, p) case None => None case Some(x) => Some(Parsed(Arr(x.v), x.end)))
            && (j < |b| && b[j] != OPEN_OBJECT && b[j] != OPEN_ARRAY ==> ValueHere(b, env, s) == ScalarAt(b, j))
            && (ValueHere(b, env, s).Some? ==> (ValueHere(b, env, s).value.v.Str? <==> b[j] == QUOTE))
  {
    hide Value, ObjectAt, ArrayAt, ScalarAt, SkipSpace;
    ValueSkips(b, s.i, Left(env, s));
  }

  lemma StringIs(b: Bytes, i: nat)
    requires i < |b| && b[i] == QUOTE
    ensures ScalarAt(b, i) == match Chars(b, i + 1) case None => None case Some(t) => Some(Parsed(Str(t.s), t.end))
  {
  }

  lemma EffAnyIs(t: Json)
    ensures t.Obj? ==> EffAny(t) == EffObj(Other, t.members)
    ensures t.Arr? ==> EffAny(t) == Plus(ONE_VALUE, EffElems(AnyElem, t.elems))
    ensures !t.Obj? && !t.Arr? ==> EffAny(t) == ONE_VALUE
  {
  }

  /** Nothing is built where no member is defined, or no element. */
  lemma {:induction false} BuildsNothing(env: Env, b: Built, ms: seq<Member>)
    ensures BuildMembers(env, Other, b, ms) == b
  {
    if ms != [] { BuildsNothing(env, b, ms[..|ms| - 1]); }
  }

  lemma {:induction false} BuildsNoElems(env: Env, b: Built, es: seq<Json>)
    ensures BuildElems(env, AnyElem, b, es) == b
  {
    if es != [] { BuildsNoElems(env, b, es[..|es| - 1]); }
  }

  // ---- Inside an array ----

  lemma ArrayIs(b: Bytes, env: Env, s: Snap)
    requires s.i < |b|
    ensures var j, d := SkipSpace(b, s.i + 1), Left(env, s);
            ArrayHere(b, env, s) == if d == 0 || j == |b| then None
                                    else if b[j] == CLOSE_ARRAY then Some(Parsed([], j + 1)) else Elems(b, j, d - 1)
  {
    hide Elems;
  }

  /** After these elements: s1 is the reader as the array met it, its own value counted. */
  predicate InArray(b: Bytes, env: Env, building: bool, elem: Elem, done: seq<Json>, s1: Snap, s: Snap) {
    match s
    case Snap(_, depth, _, build, built, _, _) =>
      Sound(b, env, building, s) && depth == s1.depth && depth > 0 && Moved(s1, s, EffElems(elem, done), depth - 1)
      && (build ==> built == BuildElems(env, elem, s1.built, done))
  }

  lemma InArrayStarts(b: Bytes, env: Env, building: bool, elem: Elem, s1: Snap, i: nat)
    requires Sound(b, env, building, s1) && s1.depth > 0 && i <= |b|
    ensures InArray(b, env, building, elem, [], s1, s1.(i := i))
  {
    Advanced(b, env, building, s1, i);
    PlusNothing(s1.eff);
  }

  lemma InArrayMore(b: Bytes, env: Env, building: bool, elem: Elem, done: seq<Json>, s1: Snap, s: Snap, t: Json, s': Snap)
    requires InArray(b, env, building, elem, done, s1, s) && Took(b, env, building, s, s', s'.i, EffElem(elem, t))
    requires s'.build ==> s'.built == BuildElem(env, elem, s.built, t)
    ensures InArray(b, env, building, elem, done + [t], s1, s')
  {
    hide Sound, EffElem, BuildElem, Plus;
    var es := done + [t];
    assert es[..|es| - 1] == done;
    HeldLess(s.names, s'.names, s1.depth);
    HeldTwice(s1.names, s.names, s'.names, s1.depth - 1);
    PlusAssoc(s1.eff, EffElems(elem, done), EffElem(elem, t));
  }

  lemma HeldLess(n: Names, n': Names, depth: nat)
    requires HeldNames(n, n', depth) && depth > 0
    ensures HeldNames(n, n', depth - 1)
  {
    if n'.track {
      assert n'.unknown[..depth] == n'.unknown[..depth + 1][..depth] == n.unknown[..depth + 1][..depth] == n.unknown[..depth];
      assert n'.nextCheck[..depth] == n'.nextCheck[..depth + 1][..depth] == n.nextCheck[..depth + 1][..depth] == n.nextCheck[..depth];
    }
  }

  lemma HeldTwice(n: Names, n': Names, n'': Names, depth: nat)
    requires HeldNames(n, n', depth) && HeldNames(n', n'', depth)
    ensures HeldNames(n, n'', depth)
  {
  }

  lemma InArrayEnds(b: Bytes, env: Env, building: bool, elem: Elem, es: seq<Json>, s0: Snap, s1: Snap, s: Snap, end: nat)
    requires InArray(b, env, building, elem, es, s1, s) && s1.depth == s0.depth + 1 && end <= |b|
    requires Moved(s0, s1, ONE_VALUE, s0.depth) && BuiltSame(s0, s1) && s0.depth <= env.lim.depth
    ensures var x := s.(i := end, depth := s0.depth);
            s.depth == s1.depth && Took(b, env, building, s0, x, end, Plus(ONE_VALUE, EffElems(elem, es)))
            && (x.build ==> x.built == BuildElems(env, elem, s0.built, es))
  {
    Closed(b, env, building, s, end, s0.depth);
    hide Sound, EffElems, BuildElems, Plus;
    HeldTwice(s0.names, s1.names, s.names, s0.depth);
    PlusAssoc(s0.eff, ONE_VALUE, EffElems(elem, es));
  }

  lemma InArrayIs(b: Bytes, env: Env, building: bool, elem: Elem, done: seq<Json>, s1: Snap, s: Snap)
    requires InArray(b, env, building, elem, done, s1, s)
    ensures Sound(b, env, building, s) && s.depth == s1.depth && s.i <= |b| && s.depth <= env.lim.depth
    ensures s.names.track ==> s.names.arena == s1.names.arena
  {
  }

  // ---- Object, member by member ----

  lemma ObjectIs(b: Bytes, env: Env, s: Snap)
    requires s.i < |b|
    ensures var j, d := SkipSpace(b, s.i + 1), Left(env, s);
            ObjectHere(b, env, s) == if d == 0 || j == |b| then None
                                     else if b[j] == CLOSE_OBJECT then Some(Parsed([], j + 1)) else Members(b, j, d - 1)
  {
    hide Members;
  }

  /** Between two members. */
  ghost predicate InObject(o: Inner, building: bool, done: seq<Member>, s: Snap) {
    match s
    case Snap(i, depth, _, _, _, _, _) => Sound(o.b, o.env, building, s) && depth == o.depth && Inside(o, done, s)
  }

  lemma InObjectIs(o: Inner, building: bool, done: seq<Member>, s: Snap)
    requires InObject(o, building, done, s)
    ensures Sound(o.b, o.env, building, s) && s.depth == o.depth && Inside(o, done, s) && s.i <= |o.b| && s.depth <= o.env.lim.depth
  {
  }

  /** What the reader itself notes of a member before reading its value. */
  function ExtraOf(idx: Option<nat>, seen: set<nat>): Eff {
    match idx case None => VIOLATION case Some(k) => if k in seen then DOUBLE else NOTHING
  }

  /** What the value is then read as. */
  function EffRead(kind: Kind, idx: Option<nat>, seen: set<nat>, t: Json): Eff {
    match idx case None => EffAny(t) case Some(k) => if k in seen then EffAny(t) else EffSlot(SlotOf(kind, k), t)
  }

  lemma SeenTells(kind: Kind, done: seq<Member>, name: Bytes)
    requires IndexOf(kind, name).Some?
    ensures IndexOf(kind, name).value in SeenIn(kind, done) <==> Named(done, name)
  {
  }

  lemma SeenMore(kind: Kind, done: seq<Member>, m: Member)
    ensures SeenIn(kind, done + [m]) ==
              SeenIn(kind, done) + match IndexOf(kind, m.name) case None => {} case Some(k) => {k}
  {
    hide IndexOf;
    assert forall x :: x in done + [m] <==> x in done || x == m;
  }

  lemma MemberIs(kind: Kind, done: seq<Member>, name: Bytes, t: Json)
    ensures var idx, seen := IndexOf(kind, name), SeenIn(kind, done);
            && EffMember(kind, done, name, t) == Plus(ExtraOf(idx, seen).(dup := false), EffRead(kind, idx, seen, t))
            && (ExtraOf(idx, seen).dup <==> idx.Some? && Named(done, name))
  {
    if IndexOf(kind, name).Some? { SeenTells(kind, done, name); }
    MemberCases(kind, done, name, t, IndexOf(kind, name), SeenIn(kind, done));
  }

  lemma MemberCases(kind: Kind, done: seq<Member>, name: Bytes, t: Json, idx: Option<nat>, seen: set<nat>)
    requires idx == IndexOf(kind, name) && (idx.Some? ==> (idx.value in seen <==> Named(done, name)))
    ensures EffMember(kind, done, name, t) == Plus(ExtraOf(idx, seen).(dup := false), EffRead(kind, idx, seen, t))
    ensures ExtraOf(idx, seen).dup <==> idx.Some? && Named(done, name)
  {
    hide IndexOf, EffAny, EffSlot, Named, SlotOf;
    match idx {
      case None =>
      case Some(k) => PlusNothing(if k in seen then EffAny(t) else EffSlot(SlotOf(kind, k), t));
    }
  }

  /** One more member, its value read. */
  lemma InObjectMore(o: Inner, building: bool, done: seq<Member>, m: Member, s: Snap, s': Snap)
    requires NameRead(o, done, m.name, s) && s.depth == o.depth
    requires var idx, seen := IndexOf(o.kind, m.name), SeenIn(o.kind, done);
             && Took(o.b, o.env, building, s, s', s'.i, Plus(ExtraOf(idx, seen), EffRead(o.kind, idx, seen, m.value)))
             && (s'.build ==> idx.Some? && s'.built == BuildSlot(o.env, o.kind, idx.value, s.built, m.value))
             && (s'.names.track ==> !ExtraOf(idx, seen).dup)
    ensures InObject(o, building, done + [m], s')
  {
    var idx, seen := IndexOf(o.kind, m.name), SeenIn(o.kind, done);
    MemberIs(o.kind, done, m.name, m.value);
    TookMoved(o.b, o.env, building, s, s', Plus(ExtraOf(idx, seen), EffRead(o.kind, idx, seen, m.value)));
    hide IndexOf, SeenIn, EffMember, Sound, Moved, NameRead, Inside, Plus, EffRead, BuildSlot, Took;
    InsideMore(o, done, m, s, s', ExtraOf(idx, seen), EffRead(o.kind, idx, seen, m.value));
  }

  lemma TookMoved(b: Bytes, env: Env, building: bool, s: Snap, s': Snap, e: Eff)
    requires Took(b, env, building, s, s', s'.i, e)
    ensures Sound(b, env, building, s') && s'.depth == s.depth && Moved(s, s', e, s.depth)
  {
  }

  lemma NameReadFurther(o: Inner, done: seq<Member>, name: Bytes, s: Snap, i: nat)
    requires NameRead(o, done, name, s)
    ensures NameRead(o, done, name, s.(i := i))
  {
    hide Tracks;
  }

  lemma InObjectFurther(o: Inner, building: bool, done: seq<Member>, s: Snap, i: nat)
    requires InObject(o, building, done, s) && i <= |o.b|
    ensures InObject(o, building, done, s.(i := i))
  {
    Advanced(o.b, o.env, building, s, i);
    hide Tracks;
  }

  /** A new object: no names at its depth yet. */
  lemma InObjectStarts(o: Inner, building: bool, n: Names, i: nat)
    requires Sound(o.b, o.env, building, o.s0) && o.s0.depth == o.depth > 0 && i <= |o.b|
    requires if o.s0.names.track then
               n.track && n.arena == o.s0.names.arena && |n.unknown| == |o.s0.names.unknown| && |n.nextCheck| == |o.s0.names.nextCheck|
               && o.depth < |n.unknown| && o.depth < |n.nextCheck| && n.unknown[o.depth] == []
               && n.unknown[..o.depth] == o.s0.names.unknown[..o.depth] && n.nextCheck[..o.depth] == o.s0.names.nextCheck[..o.depth]
             else n == o.s0.names
    ensures InObject(o, building, [], o.s0.(names := n, i := i))
  {
    var s := o.s0.(names := n, i := i);
    Advanced(o.b, o.env, building, o.s0, i);
    if o.s0.names.track { Renamed(o.b, o.env, building, o.s0.(i := i), n); }
    assert s.names.track ==> Kept(o, s);
    hide Sound, Kept;
    InsideStarts(o, s);
  }

  /** An object's names looked at and dropped; what they could not say no longer matters. */
  lemma InObjectEnds(o: Inner, building: bool, ms: seq<Member>, s: Snap, s': Snap, s0: Snap, end: nat)
    requires InObject(o, building, ms, s) && o.depth == s0.depth + 1 && end <= |o.b| && s0.depth <= o.env.lim.depth
    requires Moved(s0, o.s0, ONE_VALUE, s0.depth) && BuiltSame(s0, o.s0)
    requires Sound(o.b, o.env, building, s') && s'.eff == s.eff.(dup := s.eff.dup || !DistinctNames(ms))
    requires s'.build ==> s.build && s'.built == s.built
    requires s'.names.track ==> s.names.track && |s'.names.unknown| == |s.names.unknown| && o.depth < |s.names.unknown|
                                && s'.names == s.names.(unknown := s.names.unknown[o.depth := s'.names.unknown[o.depth]], arena := o.s0.names.arena)
    ensures var x := s'.(i := end, depth := s0.depth);
            Took(o.b, o.env, building, s0, x, end, EffObj(o.kind, ms))
            && (x.build ==> x.built == BuildMembers(o.env, o.kind, s0.built, ms))
  {
    var x := s'.(i := end, depth := s0.depth);
    Closed(o.b, o.env, building, s', end, s0.depth);
    assert Inside(o, ms, s) && s.depth == o.depth;
    hide Sound, EffMembers, BuildMembers, Plus, DistinctNames;
    ObjectHeld(o, ms, s, s');
    hide Inside;
    ObjectEff(o, ms, s, s0, s');
    HeldTwice(s0.names, o.s0.names, x.names, s0.depth);
  }

  lemma ObjectHeld(o: Inner, ms: seq<Member>, s: Snap, s': Snap)
    requires Inside(o, ms, s) && o.depth > 0
    requires s'.build ==> s.build && s'.built == s.built
    requires s'.names.track ==> s.names.track && |s'.names.unknown| == |s.names.unknown| && o.depth < |s.names.unknown|
                                && s'.names == s.names.(unknown := s.names.unknown[o.depth := s'.names.unknown[o.depth]], arena := o.s0.names.arena)
    ensures HeldNames(o.s0.names, s'.names, o.depth - 1)
    ensures s'.build ==> o.s0.build && s'.built == BuildMembers(o.env, o.kind, o.s0.built, ms)
  {
    hide EffMembers, BuildMembers, Plus, DistinctNames, Tracks, DefinedOnce;
    if s'.names.track {
      assert s'.names.unknown[..o.depth] == s.names.unknown[..o.depth];
    }
  }

  lemma ObjectEff(o: Inner, ms: seq<Member>, s: Snap, s0: Snap, s': Snap)
    requires Inside(o, ms, s) && o.s0.eff == Plus(s0.eff, ONE_VALUE) && s'.eff == s.eff.(dup := s.eff.dup || !DistinctNames(ms))
    ensures s'.eff == Plus(s0.eff, EffObj(o.kind, ms))
  {
    hide EffMembers, BuildMembers, DistinctNames, Tracks, DefinedOnce;
  }
}
