/** What one pass over a bundle must find, position by position, and what it must build. */
module Findings {
  import opened Basics
  import opened JsonTree

  /** An object's position, and so which names it may have. */
  datatype Kind = Other | Bundle | Chain | Entry | Signature | Disclosed

  /** What is expected of a member's value. */
  datatype Slot = AnyValue | FormatValue | ChainsValue | IdValue | EntriesValue | CheckpointsValue | TextValue(limit: nat) | PairValue(kind: Kind)

  /** What an array's elements are. */
  datatype Elem = AnyElem | ChainElem | EntryElem | CheckpointElem

  const FORMAT_ID := "aleutian.proof.bundle.v1"
  const MAX_MEMBER_NAME := 32

  function NamesOf(kind: Kind): seq<string> {
    match kind
    case Other => []
    case Bundle => ["format", "chains"]
    case Chain => ["chain_id", "entries", "checkpoints"]
    case Entry => ["entry_id", "entry_type", "global_seq", "previous_hash", "timestamp", "content_hash", "chain_hash",
                   "record_signature", "disclosed"]
    case Signature => ["key_id", "signature"]
    case Disclosed => ["content", "nonce"]
  }

  /** The longest value each string member can have and still be in shape. */
  function Caps(kind: Kind): seq<nat> {
    match kind
    case Entry => [37, 12, 19, 128, 27, 128, 128]
    case Signature => [32, 4412]
    case Disclosed => [87384, 64]
    case _ => []
  }

  const MAX_CHAIN_ID := 64

  function SlotOf(kind: Kind, idx: nat): Slot {
    match kind
    case Bundle => if idx == 0 then FormatValue else ChainsValue
    case Chain => if idx == 0 then IdValue else if idx == 1 then EntriesValue else CheckpointsValue
    case Entry => if idx == 7 then PairValue(Signature) else if idx == 8 then PairValue(Disclosed)
                  else if idx < 7 then TextValue(Caps(Entry)[idx]) else AnyValue
    case Signature => if idx < 2 then TextValue(Caps(Signature)[idx]) else AnyValue
    case Disclosed => if idx < 2 then TextValue(Caps(Disclosed)[idx]) else AnyValue
    case Other => AnyValue
  }

  /** The place of a name among others, from k on. */
  function Find(names: seq<string>, name: Bytes, k: nat): (r: Option<nat>)
    requires k <= |names|
    ensures r.Some? ==> k <= r.value < |names| && Ascii(names[r.value]) == name
    ensures r.None? ==> forall j | k <= j < |names| :: Ascii(names[j]) != name
    decreases |names| - k
  {
    if k == |names| then None else if Ascii(names[k]) == name then Some(k) else Find(names, name, k + 1)
  }

  /** A name's index among an object's defined members. */
  function IndexOf(kind: Kind, name: Bytes): Option<nat> {
    Find(NamesOf(kind), name, 0)
  }

  predicate Named(ms: seq<Member>, name: Bytes) {
    exists m <- ms :: m.name == name
  }

  /** The defined members present. */
  function SeenIn(kind: Kind, ms: seq<Member>): set<nat> {
    set m | m in ms && IndexOf(kind, m.name).Some? :: IndexOf(kind, m.name).value
  }

  function RequiredOf(kind: Kind): set<nat> {
    match kind
    case Chain => {0, 1, 2}
    case Entry => {0, 1, 2, 3, 4, 5, 6}
    case Signature => {0, 1}
    case Disclosed => {0, 1}
    case _ => {}
  }

  /** What was found: values counted, a duplicate, a violation, the counted elements, a wrong `format`, and what `format` was last. */
  datatype Eff = Eff(
    values: nat, dup: bool, bad: bool, chains: nat, entries: nat, checkpoints: nat, misformat: bool, format: Option<bool>)

  const NOTHING := Eff(0, false, false, 0, 0, 0, false, None)
  const ONE_VALUE := Eff(1, false, false, 0, 0, 0, false, None)
  const VIOLATION := Eff(0, false, true, 0, 0, 0, false, None)

  function FormatWas(ok: bool): Eff {
    Eff(0, false, false, 0, 0, 0, !ok, Some(ok))
  }

  function Plus(a: Eff, c: Eff): Eff {
    Eff(a.values + c.values, a.dup || c.dup, a.bad || c.bad, a.chains + c.chains, a.entries + c.entries,
        a.checkpoints + c.checkpoints, a.misformat || c.misformat, if c.format.Some? then c.format else a.format)
  }

  function If(cond: bool, e: Eff): Eff {
    if cond then e else NOTHING
  }

  // ---- Findings ----

  function EffAny(t: Json): Eff
    decreases t, 0
  {
    match t
    case Obj(ms) => EffObj(Other, ms)
    case Arr(es) => Plus(ONE_VALUE, EffElems(AnyElem, es))
    case _ => ONE_VALUE
  }

  /** An object: one value, its members, and a duplicate if two of them share a name. */
  function EffObj(kind: Kind, ms: seq<Member>): Eff
    decreases ms, 2
  {
    Plus(Plus(ONE_VALUE, EffMembers(kind, ms)), NOTHING.(dup := !DistinctNames(ms)))
  }

  function EffMembers(kind: Kind, ms: seq<Member>): Eff
    decreases ms, 1
  {
    if ms == [] then NOTHING
    else
      var n := |ms| - 1;
      Plus(EffMembers(kind, ms[..n]), EffMember(kind, ms[..n], ms[n].name, ms[n].value))
  }

  /** A member after others: an unknown name is a violation; a repeat is read as any value. */
  function EffMember(kind: Kind, before: seq<Member>, name: Bytes, t: Json): Eff
    decreases t, 3
  {
    match IndexOf(kind, name)
    case None => Plus(VIOLATION, EffAny(t))
    case Some(idx) => if Named(before, name) then EffAny(t) else EffSlot(SlotOf(kind, idx), t)
  }

  function EffSlot(slot: Slot, t: Json): Eff
    decreases t, 2
  {
    match slot
    case AnyValue => EffAny(t)
    case FormatValue =>
      Plus(if t.Str? then ONE_VALUE else Plus(VIOLATION, EffAny(t)), FormatWas(t.Str? && t.s == Ascii(FORMAT_ID)))
    case ChainsValue => EffArray(ChainElem, t)
    case IdValue => EffText(t)
    case EntriesValue => Plus(EffArray(EntryElem, t), If(t.Arr? && t.elems == [], VIOLATION))
    case CheckpointsValue => EffArray(CheckpointElem, t)
    case TextValue(_) => EffText(t)
    case PairValue(kind) =>
      if t.Obj? then Plus(EffObj(kind, t.members), If(SeenIn(kind, t.members) != {0, 1}, VIOLATION)) else Plus(VIOLATION, EffAny(t))
  }

  function EffText(t: Json): Eff
    decreases t, 1
  {
    if t.Str? then ONE_VALUE else Plus(VIOLATION, EffAny(t))
  }

  function EffArray(elem: Elem, t: Json): Eff
    decreases t, 1
  {
    if t.Arr? then Plus(ONE_VALUE, EffElems(elem, t.elems)) else Plus(VIOLATION, EffAny(t))
  }

  function EffElems(elem: Elem, es: seq<Json>): Eff
    decreases es, 1
  {
    if es == [] then NOTHING
    else
      var n := |es| - 1;
      Plus(EffElems(elem, es[..n]), EffElem(elem, es[n]))
  }

  function EffElem(elem: Elem, t: Json): Eff
    decreases t, 3
  {
    match elem
    case AnyElem => EffAny(t)
    case ChainElem =>
      Plus(NOTHING.(chains := 1),
           if t.Obj? then Plus(EffObj(Chain, t.members), If(SeenIn(Chain, t.members) != RequiredOf(Chain), VIOLATION))
           else Plus(VIOLATION, EffAny(t)))
    case EntryElem =>
      Plus(NOTHING.(entries := 1),
           if t.Obj? then Plus(EffObj(Entry, t.members), If(!(RequiredOf(Entry) <= SeenIn(Entry, t.members)), VIOLATION))
           else Plus(VIOLATION, EffAny(t)))
    case CheckpointElem =>
      Plus(NOTHING.(checkpoints := 1), EffText(t))
  }

  /** The top-level value. */
  function EffDocument(t: Json): Eff {
    if t.Obj? then Plus(EffObj(Bundle, t.members), If(1 !in SeenIn(Bundle, t.members), VIOLATION)) else Plus(VIOLATION, EffAny(t))
  }

  // ---- What is built ----

  datatype Pair = Pair(a: Bytes, b: Bytes)

  /** One entry as read: its seven strings in the order of the names, each as stored or oversize. */
  datatype EntryRead = EntryRead(fields: seq<Bytes>, sig: Option<Pair>, disclosed: Option<Pair>)

  datatype ChainRead = ChainRead(id: Bytes, entries: seq<EntryRead>, checkpoints: seq<Option<Bytes>>)

  datatype Built = Built(chains: seq<ChainRead>, chain: ChainRead, entry: EntryRead)

  const BLANK_ENTRY := EntryRead([[], [], [], [], [], [], []], None, None)
  const BLANK_CHAIN := ChainRead([], [], [])
  const OVERSIZE: Bytes := [0]

  datatype Limits = Limits(bundleBytes: nat, chains: nat, entries: nat, checkpoints: nat, checkpointBytes: nat, depth: nat, values: nat)

  /** The limits, and SHA-512 as hex. */
  datatype Env = Env(lim: Limits, sha: Bytes -> Bytes)

  function Cap(s: Bytes, limit: nat): Bytes {
    if |s| > limit then OVERSIZE else s
  }

  /** An id longer than any valid one is kept as its digest. */
  function StoredId(env: Env, s: Bytes): Bytes {
    if |s| > MAX_CHAIN_ID then OVERSIZE + env.sha(s) else s
  }

  lemma IdSlot()
    ensures forall t :: EffSlot(IdValue, t) == EffText(t)
  {
  }

  lemma IdBuilt(env: Env, b: Built, s: Bytes)
    ensures BuildSlot(env, Chain, 0, b, Str(s)) == b.(chain := b.chain.(id := StoredId(env, s)))
  {
  }

  /** Stored ids are equal exactly when the ids are, if the digests tell them apart. */
  lemma StoredIdsTell(env: Env, a: Bytes, c: Bytes)
    requires |env.sha(a)| == |env.sha(c)| == 128 && (env.sha(a) == env.sha(c) ==> a == c)
    ensures StoredId(env, a) == StoredId(env, c) <==> a == c
  {
    var x, y := StoredId(env, a), StoredId(env, c);
    if x == y && |a| > MAX_CHAIN_ID && |c| > MAX_CHAIN_ID { assert env.sha(a) == x[1..] && env.sha(c) == y[1..]; }
  }

  function SetPair(p: Option<Pair>, idx: nat, s: Bytes): Option<Pair> {
    match p case None => None case Some(q) => Some(if idx == 0 then q.(a := s) else q.(b := s))
  }

  function WithPair(kind: Kind, b: Built, p: Pair): Built {
    if kind == Signature then b.(entry := b.entry.(sig := Some(p))) else b.(entry := b.entry.(disclosed := Some(p)))
  }

  function BuildMembers(env: Env, kind: Kind, b: Built, ms: seq<Member>): Built
    decreases ms, 1
  {
    if ms == [] then b
    else
      var n := |ms| - 1;
      BuildMember(env, kind, BuildMembers(env, kind, b, ms[..n]), ms[n].name, ms[n].value)
  }

  function BuildMember(env: Env, kind: Kind, b: Built, name: Bytes, t: Json): Built
    decreases t, 2
  {
    match IndexOf(kind, name) case None => b case Some(idx) => BuildSlot(env, kind, idx, b, t)
  }

  function BuildSlot(env: Env, kind: Kind, idx: nat, b: Built, t: Json): Built
    decreases t, 1
  {
    match kind
    case Bundle => if idx == 1 && t.Arr? then BuildElems(env, ChainElem, b, t.elems) else b
    case Chain =>
      if idx == 0 then (if t.Str? then b.(chain := b.chain.(id := StoredId(env, t.s))) else b)
      else if idx == 1 then (if t.Arr? then BuildElems(env, EntryElem, b, t.elems) else b)
      else (if t.Arr? then BuildElems(env, CheckpointElem, b, t.elems) else b)
    case Entry =>
      if idx == 7 then (if t.Obj? then BuildMembers(env, Signature, b.(entry := b.entry.(sig := Some(Pair([], [])))), t.members) else b)
      else if idx == 8 then (if t.Obj? then BuildMembers(env, Disclosed, b.(entry := b.entry.(disclosed := Some(Pair([], [])))), t.members) else b)
      else if t.Str? && idx < 7 && idx < |b.entry.fields| then
        b.(entry := b.entry.(fields := b.entry.fields[idx := Cap(t.s, Caps(Entry)[idx])]))
      else b
    case Signature =>
      if t.Str? && idx < 2 then b.(entry := b.entry.(sig := SetPair(b.entry.sig, idx, Cap(t.s, Caps(Signature)[idx])))) else b
    case Disclosed =>
      if t.Str? && idx < 2 then b.(entry := b.entry.(disclosed := SetPair(b.entry.disclosed, idx, Cap(t.s, Caps(Disclosed)[idx])))) else b
    case Other => b
  }

  function BuildElems(env: Env, elem: Elem, b: Built, es: seq<Json>): Built
    decreases es, 1
  {
    if es == [] then b
    else
      var n := |es| - 1;
      BuildElem(env, elem, BuildElems(env, elem, b, es[..n]), es[n])
  }

  function BuildElem(env: Env, elem: Elem, b: Built, t: Json): Built
    decreases t, 2
  {
    match elem
    case AnyElem => b
    case ChainElem =>
      if t.Obj? then
        var c := BuildMembers(env, Chain, b.(chain := BLANK_CHAIN), t.members);
        c.(chains := c.chains + [c.chain], chain := BLANK_CHAIN)
      else b
    case EntryElem =>
      if t.Obj? then
        var c := BuildMembers(env, Entry, b.(entry := BLANK_ENTRY), t.members);
        c.(chain := c.chain.(entries := c.chain.entries + [c.entry]), entry := BLANK_ENTRY)
      else b
    case CheckpointElem =>
      if t.Str? then b.(chain := b.chain.(checkpoints := b.chain.checkpoints + [if |t.s| <= env.lim.checkpointBytes then Some(t.s) else None]))
      else b
  }

  // ---- The answer ----

  datatype Reason = TooLarge | BadJson | DuplicateKey | BadFormat | BadStructure

  datatype Answer = Read(chains: seq<ChainRead>) | Unreadable(reason: Reason)

  predicate OverCount(e: Eff, lim: Limits) {
    e.chains > lim.chains || e.entries > lim.entries || e.checkpoints > lim.checkpoints
  }

  /** Nothing found that stops the building. */
  predicate Clear(e: Eff, lim: Limits) {
    e.values <= lim.values && !e.dup && !e.bad && !OverCount(e, lim) && !e.misformat
  }
}
