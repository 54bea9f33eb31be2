/** The bundle an export writes, as a value, and what reading it back must give. */
module ExportTree {
  import opened Basics
  import opened JsonText
  import opened JsonTree
  import opened Findings
  import opened BundleMeaning
  import opened BundleDecode
  import opened BundleAnswer
  import opened Printer

  /** One chain's strings as they are written. */
  datatype ChainText = ChainText(id: Bytes, entries: seq<EntryRead>, checkpoints: seq<Bytes>)

  function NameAt(kind: Kind, k: nat): Bytes
    requires k < |NamesOf(kind)|
  {
    Ascii(NamesOf(kind)[k])
  }

  /** Members by their index among the defined ones. */
  type Items = seq<(nat, Json)>

  predicate InOrder(kind: Kind, items: Items) {
    (forall j | 0 <= j < |items| :: items[j].0 < |NamesOf(kind)|) && forall j, k | 0 <= j < k < |items| :: items[j].0 < items[k].0
  }

  function MembersIn(kind: Kind, items: Items): (ms: seq<Member>)
    requires forall j | 0 <= j < |items| :: items[j].0 < |NamesOf(kind)|
    ensures |ms| == |items| && forall j | 0 <= j < |ms| :: ms[j] == Member(NameAt(kind, items[j].0), items[j].1)
  {
    seq(|items|, j requires 0 <= j < |items| => Member(NameAt(kind, items[j].0), items[j].1))
  }

  function PairItems(p: Pair): Items {
    [(0, Str(p.a)), (1, Str(p.b))]
  }

  function PairTree(kind: Kind, p: Pair): Json
    requires kind in {Signature, Disclosed}
  {
    TwoNames(kind);
    Obj(MembersIn(kind, PairItems(p)))
  }

  function FieldItems(fields: seq<Bytes>): Items
    requires |fields| == 7
  {
    seq(7, k requires 0 <= k < 7 => (k, Str(fields[k])))
  }

  function EntryItems(e: EntryRead): Items
    requires |e.fields| == 7
  {
    FieldItems(e.fields)
    + (match e.sig case Some(p) => [(7, PairTree(Signature, p))] case None => [])
    + (match e.disclosed case Some(p) => [(8, PairTree(Disclosed, p))] case None => [])
  }

  function EntryTree(e: EntryRead): Json
    requires |e.fields| == 7
  {
    NineNames();
    Obj(MembersIn(Entry, EntryItems(e)))
  }

  predicate Shaped(c: ChainText) {
    c.entries != [] && forall e <- c.entries :: |e.fields| == 7
  }

  function EntryTrees(es: seq<EntryRead>): (r: seq<Json>)
    requires forall e <- es :: |e.fields| == 7
    ensures |r| == |es| && forall i | 0 <= i < |es| :: r[i] == EntryTree(es[i])
  {
    seq(|es|, i requires 0 <= i < |es| => EntryTree(es[i]))
  }

  function TextTrees(ts: seq<Bytes>): (r: seq<Json>)
    ensures |r| == |ts| && forall i | 0 <= i < |ts| :: r[i] == Str(ts[i])
  {
    seq(|ts|, i requires 0 <= i < |ts| => Str(ts[i]))
  }

  function ChainItems(c: ChainText): Items
    requires Shaped(c)
  {
    [(0, Str(c.id)), (1, Arr(EntryTrees(c.entries))), (2, Arr(TextTrees(c.checkpoints)))]
  }

  function ChainTree(c: ChainText): Json
    requires Shaped(c)
  {
    NineNames();
    Obj(MembersIn(Chain, ChainItems(c)))
  }

  function ChainTrees(cs: seq<ChainText>): (r: seq<Json>)
    requires forall c <- cs :: Shaped(c)
    ensures |r| == |cs| && forall i | 0 <= i < |cs| :: r[i] == ChainTree(cs[i])
  {
    seq(|cs|, i requires 0 <= i < |cs| => ChainTree(cs[i]))
  }

  function BundleItems(cs: seq<ChainText>): Items
    requires forall c <- cs :: Shaped(c)
  {
    [(0, Str(Ascii(FORMAT_ID))), (1, Arr(ChainTrees(cs)))]
  }

  function BundleTree(cs: seq<ChainText>): Json
    requires forall c <- cs :: Shaped(c)
  {
    NineNames();
    Obj(MembersIn(Bundle, BundleItems(cs)))
  }

  // ---- Members in order ----

  lemma ItemsDistinct(kind: Kind, items: Items)
    requires InOrder(kind, items)
    ensures DistinctNames(MembersIn(kind, items))
    ensures forall j | 0 <= j < |items| :: IndexOf(kind, MembersIn(kind, items)[j].name) == Some(items[j].0)
  {
    hide NamesOf, IndexOf;
    var ms := MembersIn(kind, items);
    forall j | 0 <= j < |items| ensures IndexOf(kind, ms[j].name) == Some(items[j].0) {
      IndexOfName(kind, items[j].0);
    }
  }

  /** What is looked up among members in order. */
  lemma ItemAt(kind: Kind, items: Items, j: nat)
    requires InOrder(kind, items) && j < |items|
    ensures MemberAt(kind, MembersIn(kind, items), items[j].0) == Some(items[j].1)
  {
    ItemsDistinct(kind, items);
    hide NamesOf, IndexOf;
    LookupHit(MembersIn(kind, items), j);
  }

  lemma {:induction false} LookupHit(ms: seq<Member>, j: nat)
    requires DistinctNames(ms) && j < |ms|
    ensures Lookup(ms, ms[j].name) == Some(ms[j].value)
  {
    var n := |ms| - 1;
    if j < n {
      assert ms[..n][j] == ms[j];
      LookupHit(ms[..n], j);
    } else {
      NotBefore(ms);
      LookupNone(ms[..n], ms[n].name);
    }
  }

  lemma ItemMissing(kind: Kind, items: Items, k: nat)
    requires InOrder(kind, items) && k < |NamesOf(kind)| && forall j | 0 <= j < |items| :: items[j].0 != k
    ensures MemberAt(kind, MembersIn(kind, items), k) == None
  {
    hide NamesOf, IndexOf;
    var ms := MembersIn(kind, items);
    LookupNone(ms, NameAt(kind, k));
    IndexOfName(kind, k);
    forall m | m in ms ensures m.name != NameAt(kind, k) {
      var j :| 0 <= j < |ms| && ms[j] == m;
      IndexOfName(kind, items[j].0);
    }
  }

  /** Members in order fit when every value fits its place and what is needed is there. */
  lemma ItemsFit(kind: Kind, items: Items)
    requires InOrder(kind, items) && forall j | 0 <= j < |items| :: SlotFits(SlotOf(kind, items[j].0), items[j].1)
    requires forall k <- Needed(kind) :: exists j | 0 <= j < |items| :: items[j].0 == k
    ensures Fits(kind, MembersIn(kind, items))
  {
    ItemsDistinct(kind, items);
    hide NamesOf, IndexOf, SlotFits, SlotOf, Needed;
    var ms := MembersIn(kind, items);
    forall m | m in ms ensures IndexOf(kind, m.name).Some? && SlotFits(SlotOf(kind, IndexOf(kind, m.name).value), m.value) {
      var j :| 0 <= j < |ms| && ms[j] == m;
    }
    forall k | k in Needed(kind) ensures k in SeenIn(kind, ms) {
      var j :| 0 <= j < |items| && items[j].0 == k;
      assert ms[j] in ms;
    }
  }

  lemma ItemsClean(kind: Kind, items: Items)
    requires InOrder(kind, items) && forall j | 0 <= j < |items| :: !HasDuplicate(items[j].1)
    ensures !HasDuplicate(Obj(MembersIn(kind, items)))
  {
    ItemsDistinct(kind, items);
    hide NamesOf, IndexOf, DistinctNames;
  }

  // ---- Order ----

  lemma PairOrder(kind: Kind, p: Pair)
    requires kind in {Signature, Disclosed}
    ensures InOrder(kind, PairItems(p)) && |PairItems(p)| == 2
  {
    TwoNames(kind);
    hide NamesOf;
  }

  lemma EntryOrder(e: EntryRead)
    requires |e.fields| == 7
    ensures InOrder(Entry, EntryItems(e)) && |EntryItems(e)| >= 7
    ensures forall j | 0 <= j < 7 :: EntryItems(e)[j] == (j, Str(e.fields[j]))
    ensures forall j | 7 <= j < |EntryItems(e)| ::
              (EntryItems(e)[j].0 == 7 && e.sig.Some? && EntryItems(e)[j].1 == PairTree(Signature, e.sig.value))
              || (EntryItems(e)[j].0 == 8 && e.disclosed.Some? && EntryItems(e)[j].1 == PairTree(Disclosed, e.disclosed.value))
    ensures |EntryItems(e)| == 7 + (if e.sig.Some? then 1 else 0) + (if e.disclosed.Some? then 1 else 0)
  {
    NineNames();
    hide NamesOf, PairTree;
  }

  lemma ChainOrder(c: ChainText)
    requires Shaped(c)
    ensures InOrder(Chain, ChainItems(c)) && |ChainItems(c)| == 3
  {
    NineNames();
    hide NamesOf;
  }

  lemma BundleOrder(cs: seq<ChainText>)
    requires forall c <- cs :: Shaped(c)
    ensures InOrder(Bundle, BundleItems(cs)) && |BundleItems(cs)| == 2
  {
    NineNames();
    hide NamesOf;
  }

  // ---- Values, depth and duplicates ----

  /** A value that prints, d deep at most, without duplicates, of n values. */
  predicate Sized(t: Json, d: nat, n: nat) {
    Printable(t) && Shallow(t, d) && !HasDuplicate(t) && CountValues(t) == n
  }

  lemma StrSized(s: Bytes, d: nat)
    ensures Sized(Str(s), d, 1)
  {
  }

  /** What each item counts. */
  ghost predicate Each(items: Items, d: nat, counts: seq<nat>) {
    |counts| == |items| && forall j | 0 <= j < |items| :: Sized(items[j].1, d, counts[j])
  }

  function Sum(ns: seq<nat>): nat {
    if ns == [] then 0 else Sum(ns[..|ns| - 1]) + ns[|ns| - 1]
  }

  lemma {:induction false} ItemsCount(kind: Kind, items: Items, d: nat, counts: seq<nat>)
    requires InOrder(kind, items) && Each(items, d, counts)
    ensures CountMembers(MembersIn(kind, items)) == Sum(counts)
  {
    hide NamesOf, Printable, Shallow, HasDuplicate, CountValues, CountMembers;
    NothingCounted();
    if items != [] {
      var n := |items| - 1;
      ItemsCount(kind, items[..n], d, counts[..n]);
      var ms := MembersIn(kind, items);
      assert ms[..n] == MembersIn(kind, items[..n]);
      CountInit(ms);
    }
  }

  lemma NothingCounted()
    ensures CountMembers([]) == 0
  {
  }

  lemma CountInit(ms: seq<Member>)
    requires ms != []
    ensures CountMembers(ms) == CountMembers(ms[..|ms| - 1]) + CountValues(ms[|ms| - 1].value)
  {
    hide CountValues;
  }

  lemma ItemsSized(kind: Kind, items: Items, d: nat, counts: seq<nat>)
    requires InOrder(kind, items) && Each(items, d, counts)
    ensures Sized(Obj(MembersIn(kind, items)), d + 1, 1 + Sum(counts))
  {
    ItemsCount(kind, items, d, counts);
    ItemsClean(kind, items);
    ItemsShallow(kind, items, d);
    hide MembersIn, HasDuplicate, Printable, Shallow, InOrder;
  }

  lemma ItemsShallow(kind: Kind, items: Items, d: nat)
    requires InOrder(kind, items) && forall j | 0 <= j < |items| :: Printable(items[j].1) && Shallow(items[j].1, d)
    ensures Printable(Obj(MembersIn(kind, items))) && Shallow(Obj(MembersIn(kind, items)), d + 1)
  {
    hide NamesOf;
    var ms := MembersIn(kind, items);
    forall m | m in ms ensures Printable(m.value) && Shallow(m.value, d) {
      var j :| 0 <= j < |ms| && ms[j] == m;
    }
  }

  lemma {:induction false} ElemsCount(es: seq<Json>, d: nat, counts: seq<nat>)
    requires |counts| == |es| && forall j | 0 <= j < |es| :: Sized(es[j], d, counts[j])
    ensures CountElems(es) == Sum(counts)
  {
    hide Printable, Shallow, HasDuplicate, CountValues;
    if es != [] {
      var n := |es| - 1;
      assert forall j | 0 <= j < n :: es[..n][j] == es[j] && counts[..n][j] == counts[j];
      ElemsCount(es[..n], d, counts[..n]);
    }
  }

  lemma ElemsSized(es: seq<Json>, d: nat, counts: seq<nat>)
    requires |counts| == |es| && forall j | 0 <= j < |es| :: Sized(es[j], d, counts[j])
    ensures Sized(Arr(es), d + 1, 1 + Sum(counts))
  {
    ElemsCount(es, d, counts);
    forall e | e in es ensures Printable(e) && Shallow(e, d) && !HasDuplicate(e) {
      var j :| 0 <= j < |es| && es[j] == e;
      assert Sized(es[j], d, counts[j]);
    }
  }

  lemma SumMore(ns: seq<nat>, n: nat)
    ensures Sum(ns + [n]) == Sum(ns) + n
  {
    assert (ns + [n])[..|ns|] == ns;
  }

  lemma SumNone()
    ensures Sum([]) == 0
  {
  }

  lemma {:induction false} SumConst(n: nat, k: nat)
    ensures Sum(seq(n, _ => k)) == n * k
  {
    hide Sum;
    if n > 0 {
      SumConst(n - 1, k);
      var init: seq<nat> := seq(n - 1, _ => k);
      assert seq(n, _ => k) == init + [k];
      SumMore(init, k);
      assert (n - 1) * k + k == n * k;
    } else {
      SumNone();
      assert seq(0, _ => k) == [];
    }
  }

  lemma Sum2(a: nat, b: nat)
    ensures Sum([a, b]) == a + b
  {
    SumMore([a], b);
    SumMore([], a);
    assert [a] == [] + [a] && [a, b] == [a] + [b];
  }

  lemma Sum3(a: nat, b: nat, c: nat)
    ensures Sum([a, b, c]) == a + b + c
  {
    Sum2(a, b);
    SumMore([a, b], c);
    assert [a, b, c] == [a, b] + [c];
  }

  lemma PairSized(kind: Kind, p: Pair, d: nat)
    requires kind in {Signature, Disclosed}
    ensures Sized(PairTree(kind, p), d + 1, 3)
  {
    PairOrder(kind, p);
    StrSized(p.a, d);
    StrSized(p.b, d);
    Sum2(1, 1);
    hide NamesOf, Sized, InOrder, MembersIn;
    ItemsSized(kind, PairItems(p), d, [1, 1]);
  }

  function EntryValues(e: EntryRead): nat {
    8 + (if e.sig.Some? then 3 else 0) + (if e.disclosed.Some? then 3 else 0)
  }

  lemma EntrySized(e: EntryRead, d: nat)
    requires |e.fields| == 7
    ensures Sized(EntryTree(e), d + 2, EntryValues(e))
  {
    hide NamesOf, Sized, InOrder, MembersIn, EntryItems, PairTree;
    EntryOrder(e);
    var counts: seq<nat> := seq(|EntryItems(e)|, j => if j < 7 then 1 else 3);
    forall j | 0 <= j < |EntryItems(e)| ensures Sized(EntryItems(e)[j].1, d + 1, counts[j]) {
      if j < 7 {
        StrSized(e.fields[j], d + 1);
      } else {
        if EntryItems(e)[j].0 == 7 { PairSized(Signature, e.sig.value, d); } else { PairSized(Disclosed, e.disclosed.value, d); }
      }
    }
    ItemsSized(Entry, EntryItems(e), d + 1, counts);
    SumConst(7, 1);
    var k := |counts| - 7;
    SumConst(7 + k, 1);
    SumEntry(counts);
  }

  lemma SumEntry(counts: seq<nat>)
    requires 7 <= |counts| <= 9 && forall j | 0 <= j < |counts| :: counts[j] == if j < 7 then 1 else 3
    ensures Sum(counts) == 7 + 3 * (|counts| - 7)
  {
    SumConst(7, 1);
    assert counts[..7] == seq(7, _ => 1);
    if |counts| == 7 { assert counts[..7] == counts; }
    if |counts| >= 8 {
      SumMore(counts[..7], 3);
      assert counts[..8] == counts[..7] + [3];
      if |counts| == 8 { assert counts[..8] == counts; }
    }
    if |counts| == 9 {
      SumMore(counts[..8], 3);
      assert counts == counts[..8] + [3];
    }
  }

  function EntryCounts(es: seq<EntryRead>): seq<nat> {
    seq(|es|, i requires 0 <= i < |es| => EntryValues(es[i]))
  }

  function EntriesValues(es: seq<EntryRead>): nat {
    Sum(EntryCounts(es))
  }

  function ChainValues(c: ChainText): nat {
    4 + EntriesValues(c.entries) + |c.checkpoints|
  }

  lemma ChainSized(c: ChainText, d: nat)
    requires Shaped(c)
    ensures Sized(ChainTree(c), d + 4, ChainValues(c))
  {
    hide NamesOf, Sized, InOrder, MembersIn, EntryTree, EntryValues;
    ChainOrder(c);
    StrSized(c.id, d + 3);
    var ns := EntryCounts(c.entries);
    var es := EntryTrees(c.entries);
    forall i | 0 <= i < |es| ensures Sized(es[i], d + 2, ns[i]) { EntrySized(c.entries[i], d); }
    ElemsSized(es, d + 2, ns);
    var ts := TextTrees(c.checkpoints);
    var ones: seq<nat> := seq(|ts|, _ => 1);
    forall i | 0 <= i < |ts| ensures Sized(ts[i], d + 2, ones[i]) { StrSized(c.checkpoints[i], d + 2); }
    ElemsSized(ts, d + 2, ones);
    SumConst(|ts|, 1);
    var n := Sum(ns);
    Sum3(1, 1 + n, 1 + |ts|);
    var counts: seq<nat> := [1, 1 + n, 1 + |ts|];
    ItemsSized(Chain, ChainItems(c), d + 3, counts);
  }

  function ChainCounts(cs: seq<ChainText>): seq<nat> {
    seq(|cs|, i requires 0 <= i < |cs| => ChainValues(cs[i]))
  }

  function ChainsValues(cs: seq<ChainText>): nat {
    Sum(ChainCounts(cs))
  }

  lemma BundleSized(cs: seq<ChainText>, d: nat)
    requires forall c <- cs :: Shaped(c)
    ensures Sized(BundleTree(cs), d + 6, 3 + ChainsValues(cs))
  {
    hide NamesOf, Sized, InOrder, MembersIn, ChainTree, ChainValues;
    BundleOrder(cs);
    StrSized(Ascii(FORMAT_ID), d + 5);
    var ts := ChainTrees(cs);
    var ns := ChainCounts(cs);
    forall i | 0 <= i < |ts| ensures Sized(ts[i], d + 4, ns[i]) { ChainSized(cs[i], d); }
    ElemsSized(ts, d + 4, ns);
    var n := Sum(ns);
    Sum2(1, 1 + n);
    ItemsSized(Bundle, BundleItems(cs), d + 5, [1, 1 + n]);
  }

  // ---- What is written of strings that are not UTF-8 ----

  function RepairedPair(p: Option<Pair>): Option<Pair> {
    match p case Some(q) => Some(Pair(Repaired(q.a), Repaired(q.b))) case None => None
  }

  function RepairedTexts(ts: seq<Bytes>): (r: seq<Bytes>)
    ensures |r| == |ts| && forall i | 0 <= i < |ts| :: r[i] == Repaired(ts[i])
  {
    seq(|ts|, i requires 0 <= i < |ts| => Repaired(ts[i]))
  }

  function RepairedEntry(e: EntryRead): EntryRead {
    EntryRead(RepairedTexts(e.fields), RepairedPair(e.sig), RepairedPair(e.disclosed))
  }

  function RepairedChain(c: ChainText): (r: ChainText)
    ensures Shaped(c) ==> Shaped(r)
    ensures |r.entries| == |c.entries| && |r.checkpoints| == |c.checkpoints|
    ensures forall i | 0 <= i < |c.entries| :: r.entries[i] == RepairedEntry(c.entries[i])
  {
    ChainText(Repaired(c.id), seq(|c.entries|, i requires 0 <= i < |c.entries| => RepairedEntry(c.entries[i])), RepairedTexts(c.checkpoints))
  }

  function RepairedChains(cs: seq<ChainText>): (r: seq<ChainText>)
    ensures |r| == |cs| && forall i | 0 <= i < |cs| :: r[i] == RepairedChain(cs[i])
    ensures (forall c <- cs :: Shaped(c)) ==> forall c <- r :: Shaped(c)
  {
    seq(|cs|, i requires 0 <= i < |cs| => RepairedChain(cs[i]))
  }

  lemma {:induction false} LowValid(s: string)
    requires Low(s)
    ensures ValidUtf8(Ascii(s))
  {
    hide ValidUtf8;
    if s != [] {
      LowValid(s[1..]);
      assert Ascii(s)[1..] == Ascii(s[1..]);
    }
    AsciiFirst(Ascii(s));
  }

  lemma AsciiFirst(s: Bytes)
    requires s != [] ==> s[0] < 0x80 && ValidUtf8(s[1..])
    ensures ValidUtf8(s)
  {
  }

  lemma ShortNamesLow(kind: Kind, k: nat)
    requires k < |NamesOf(kind)| && (kind == Entry ==> k < 4)
    ensures Low(NamesOf(kind)[k])
  {
  }

  lemma NamesLow(kind: Kind, k: nat)
    requires k < |NamesOf(kind)|
    ensures Low(NamesOf(kind)[k])
  {
    if kind != Entry || k < 4 { ShortNamesLow(kind, k); }
  }

  lemma FormatLow()
    ensures Low(FORMAT_ID)
  {
  }

  /** The names and the format are written as they are. */
  lemma NamesKept(kind: Kind, k: nat)
    requires k < |NamesOf(kind)|
    ensures Repaired(NameAt(kind, k)) == NameAt(kind, k)
    ensures Repaired(Ascii(FORMAT_ID)) == Ascii(FORMAT_ID)
  {
    hide Repaired, ValidUtf8, NamesOf, Low;
    NamesLow(kind, k);
    FormatLow();
    LowValid(NamesOf(kind)[k]);
    LowValid(FORMAT_ID);
    RepairedSelf(NameAt(kind, k));
    RepairedSelf(Ascii(FORMAT_ID));
  }

  function MeantItems(items: Items): (r: Items)
    ensures |r| == |items| && forall j | 0 <= j < |items| :: r[j] == (items[j].0, Meant(items[j].1))
  {
    seq(|items|, j requires 0 <= j < |items| => (items[j].0, Meant(items[j].1)))
  }

  lemma {:induction false} MembersMeant(ms: seq<Member>)
    ensures forall j | 0 <= j < |ms| :: MeantMembers(ms)[j] == Member(Repaired(ms[j].name), Meant(ms[j].value))
  {
    hide Repaired, Meant;
    if ms != [] {
      MembersMeant(ms[1..]);
      forall j | 1 <= j < |ms| ensures MeantMembers(ms)[j] == Member(Repaired(ms[j].name), Meant(ms[j].value)) {
        assert ms[j] == ms[1..][j - 1];
      }
    }
  }

  lemma {:induction false} ElemsMeant(es: seq<Json>)
    ensures forall j | 0 <= j < |es| :: MeantElems(es)[j] == Meant(es[j])
  {
    hide Meant;
    if es != [] {
      ElemsMeant(es[1..]);
      forall j | 1 <= j < |es| ensures MeantElems(es)[j] == Meant(es[j]) {
        assert es[j] == es[1..][j - 1];
      }
    }
  }

  lemma ItemsMeant(kind: Kind, items: Items)
    requires InOrder(kind, items)
    ensures InOrder(kind, MeantItems(items)) && Meant(Obj(MembersIn(kind, items))) == Obj(MembersIn(kind, MeantItems(items)))
  {
    hide Repaired, NamesOf, NameAt;
    var ms := MembersIn(kind, items);
    MembersMeant(ms);
    MeantIs(Obj(ms));
    hide Meant;
    forall j | 0 <= j < |items| ensures MeantMembers(ms)[j] == MembersIn(kind, MeantItems(items))[j] {
      NamesKept(kind, items[j].0);
    }
    assert MeantMembers(ms) == MembersIn(kind, MeantItems(items));
  }

  lemma StrMeant(s: Bytes)
    ensures Meant(Str(s)) == Str(Repaired(s))
  {
  }

  lemma PairMeant(kind: Kind, p: Pair)
    requires kind in {Signature, Disclosed}
    ensures Meant(PairTree(kind, p)) == PairTree(kind, Pair(Repaired(p.a), Repaired(p.b)))
  {
    hide Meant, Repaired, NamesOf, MembersIn, InOrder;
    PairOrder(kind, p);
    ItemsMeant(kind, PairItems(p));
    StrMeant(p.a);
    StrMeant(p.b);
    assert MeantItems(PairItems(p)) == PairItems(Pair(Repaired(p.a), Repaired(p.b)));
  }

  lemma EntryMeant(e: EntryRead)
    requires |e.fields| == 7
    ensures Meant(EntryTree(e)) == EntryTree(RepairedEntry(e))
  {
    hide Meant, Repaired, NamesOf, MembersIn, InOrder, PairTree;
    EntryOrder(e);
    ItemsMeant(Entry, EntryItems(e));
    if e.sig.Some? { PairMeant(Signature, e.sig.value); }
    if e.disclosed.Some? { PairMeant(Disclosed, e.disclosed.value); }
    forall k | 0 <= k < 7 ensures Meant(Str(e.fields[k])) == Str(Repaired(e.fields[k])) { StrMeant(e.fields[k]); }
    ItemsRepaired(e);
  }

  lemma ItemsRepaired(e: EntryRead)
    requires |e.fields| == 7
    requires e.sig.Some? ==> Meant(PairTree(Signature, e.sig.value)) == PairTree(Signature, Pair(Repaired(e.sig.value.a), Repaired(e.sig.value.b)))
    requires e.disclosed.Some? ==>
               Meant(PairTree(Disclosed, e.disclosed.value)) == PairTree(Disclosed, Pair(Repaired(e.disclosed.value.a), Repaired(e.disclosed.value.b)))
    requires forall k | 0 <= k < 7 :: Meant(Str(e.fields[k])) == Str(Repaired(e.fields[k]))
    ensures MeantItems(EntryItems(e)) == EntryItems(RepairedEntry(e))
  {
    hide Meant, Repaired, PairTree;
    var a, b := MeantItems(EntryItems(e)), EntryItems(RepairedEntry(e));
    assert |a| == |b|;
    forall j | 0 <= j < |a| ensures a[j] == b[j] {
    }
  }

  lemma TextsMeant(ts: seq<Bytes>)
    ensures Meant(Arr(TextTrees(ts))) == Arr(TextTrees(RepairedTexts(ts)))
  {
    MeantIs(Arr(TextTrees(ts)));
    hide Meant, Repaired;
    ElemsMeant(TextTrees(ts));
    forall j | 0 <= j < |ts| ensures Meant(Str(ts[j])) == Str(Repaired(ts[j])) { StrMeant(ts[j]); }
    assert MeantElems(TextTrees(ts)) == TextTrees(RepairedTexts(ts));
  }

  lemma ChainMeant(c: ChainText)
    requires Shaped(c)
    ensures Meant(ChainTree(c)) == ChainTree(RepairedChain(c))
  {
    MeantIs(Arr(EntryTrees(c.entries)));
    hide Meant, Repaired, NamesOf, MembersIn, InOrder, EntryTree;
    ChainOrder(c);
    ItemsMeant(Chain, ChainItems(c));
    StrMeant(c.id);
    ElemsMeant(EntryTrees(c.entries));
    forall j | 0 <= j < |c.entries| ensures Meant(EntryTree(c.entries[j])) == EntryTree(RepairedEntry(c.entries[j])) { EntryMeant(c.entries[j]); }
    assert MeantElems(EntryTrees(c.entries)) == EntryTrees(RepairedChain(c).entries);
    TextsMeant(c.checkpoints);
    assert MeantItems(ChainItems(c)) == ChainItems(RepairedChain(c));
  }

  /** What the bundle written says is the bundle of the strings as written. */
  lemma BundleMeant(cs: seq<ChainText>)
    requires forall c <- cs :: Shaped(c)
    ensures Meant(BundleTree(cs)) == BundleTree(RepairedChains(cs))
  {
    MeantIs(Arr(ChainTrees(cs)));
    hide Meant, Repaired, NamesOf, MembersIn, InOrder, ChainTree;
    BundleOrder(cs);
    ItemsMeant(Bundle, BundleItems(cs));
    StrMeant(Ascii(FORMAT_ID));
    NineNames();
    NamesKept(Bundle, 0);
    ElemsMeant(ChainTrees(cs));
    forall j | 0 <= j < |cs| ensures Meant(ChainTree(cs[j])) == ChainTree(RepairedChain(cs[j])) { ChainMeant(cs[j]); }
    assert MeantElems(ChainTrees(cs)) == ChainTrees(RepairedChains(cs));
    assert MeantItems(BundleItems(cs)) == BundleItems(RepairedChains(cs));
  }

  // ---- Structure ----

  lemma PairFitsPlace(kind: Kind, p: Pair)
    requires kind in {Signature, Disclosed}
    ensures Fits(kind, MembersIn(kind, PairItems(p)))
  {
    PairOrder(kind, p);
    TwoNames(kind);
    var items := PairItems(p);
    assert items[0].0 == 0 && items[1].0 == 1;
    assert forall j | 0 <= j < 2 :: SlotOf(kind, items[j].0).TextValue? && SlotFits(SlotOf(kind, items[j].0), items[j].1);
    hide NamesOf, SlotOf, SlotFits, MembersIn, InOrder, Fits;
    ItemsFit(kind, items);
  }

  lemma EntrySlots(e: EntryRead, j: nat)
    requires |e.fields| == 7 && j < |EntryItems(e)|
    ensures SlotFits(SlotOf(Entry, EntryItems(e)[j].0), EntryItems(e)[j].1)
  {
    hide NamesOf, MembersIn, InOrder, EntryItems, Fits;
    EntryOrder(e);
    if j >= 7 {
      if EntryItems(e)[j].0 == 7 { PairFitsPlace(Signature, e.sig.value); } else { PairFitsPlace(Disclosed, e.disclosed.value); }
    }
  }

  lemma EntryFits(e: EntryRead)
    requires |e.fields| == 7
    ensures ElemFits(EntryElem, EntryTree(e))
  {
    hide NamesOf, MembersIn, InOrder, EntryItems, Fits, SlotFits, SlotOf, PairTree;
    EntryOrder(e);
    var items := EntryItems(e);
    forall j | 0 <= j < |items| ensures SlotFits(SlotOf(Entry, items[j].0), items[j].1) { EntrySlots(e, j); }
    forall k | k in Needed(Entry) ensures exists j | 0 <= j < |items| :: items[j].0 == k { assert items[k].0 == k; }
    ItemsFit(Entry, items);
  }

  lemma ChainFits(c: ChainText)
    requires Shaped(c)
    ensures ElemFits(ChainElem, ChainTree(c))
  {
    hide NamesOf, MembersIn, InOrder, Fits, EntryTree;
    ChainOrder(c);
    var items := ChainItems(c);
    var es, ts := EntryTrees(c.entries), TextTrees(c.checkpoints);
    forall e | e in es ensures ElemFits(EntryElem, e) {
      var i :| 0 <= i < |es| && es[i] == e;
      EntryFits(c.entries[i]);
    }
    assert forall t <- ts :: ElemFits(CheckpointElem, t);
    assert SlotFits(SlotOf(Chain, 0), items[0].1) && SlotFits(SlotOf(Chain, 1), items[1].1) && SlotFits(SlotOf(Chain, 2), items[2].1);
    assert items[0].0 == 0 && items[1].0 == 1 && items[2].0 == 2;
    assert Needed(Chain) == {0, 1, 2};
    hide SlotFits, SlotOf, Needed, ElemFits;
    ItemsFit(Chain, items);
    NineNames();
    ObjectFits(Chain, ChainElem, MembersIn(Chain, items));
  }

  lemma ObjectFits(kind: Kind, elem: Elem, ms: seq<Member>)
    requires Fits(kind, ms) && (elem, kind) in {(ChainElem, Chain), (EntryElem, Entry)}
    ensures ElemFits(elem, Obj(ms))
  {
    hide Fits;
  }

  lemma BundleFits(cs: seq<ChainText>)
    requires forall c <- cs :: Shaped(c)
    ensures Fits(Bundle, MembersIn(Bundle, BundleItems(cs)))
  {
    hide NamesOf, MembersIn, InOrder, Fits, ChainTree;
    BundleOrder(cs);
    var items := BundleItems(cs);
    var ts := ChainTrees(cs);
    forall t | t in ts ensures ElemFits(ChainElem, t) {
      var i :| 0 <= i < |ts| && ts[i] == t;
      ChainFits(cs[i]);
    }
    assert SlotFits(SlotOf(Bundle, 0), items[0].1) && SlotFits(SlotOf(Bundle, 1), items[1].1);
    assert items[0].0 == 0 && items[1].0 == 1;
    assert Needed(Bundle) == {1};
    hide SlotFits, SlotOf, Needed, ElemFits;
    ItemsFit(Bundle, items);
  }

  // ---- What is read back ----

  function CappedPair(kind: Kind, p: Option<Pair>): Option<Pair>
    requires kind in {Signature, Disclosed}
  {
    match p case Some(q) => Some(Pair(Cap(q.a, Caps(kind)[0]), Cap(q.b, Caps(kind)[1]))) case None => None
  }

  /** An entry as read: every string kept, or marked as longer than any in shape. */
  function CappedEntry(e: EntryRead): EntryRead
    requires |e.fields| == 7
  {
    EntryRead(seq(7, k requires 0 <= k < 7 => Cap(e.fields[k], Caps(Entry)[k])), CappedPair(Signature, e.sig), CappedPair(Disclosed, e.disclosed))
  }

  function CappedEntries(es: seq<EntryRead>): (r: seq<EntryRead>)
    requires forall e <- es :: |e.fields| == 7
    ensures |r| == |es| && forall i | 0 <= i < |es| :: r[i] == CappedEntry(es[i])
  {
    seq(|es|, i requires 0 <= i < |es| => CappedEntry(es[i]))
  }

  function CappedTexts(limit: nat, ts: seq<Bytes>): (r: seq<Option<Bytes>>)
    ensures |r| == |ts| && forall i | 0 <= i < |ts| :: r[i] == if |ts[i]| <= limit then Some(ts[i]) else None
  {
    seq(|ts|, i requires 0 <= i < |ts| => if |ts[i]| <= limit then Some(ts[i]) else None)
  }

  function CappedChain(env: Env, c: ChainText): ChainRead
    requires Shaped(c)
  {
    ChainRead(StoredId(env, c.id), CappedEntries(c.entries), CappedTexts(env.lim.checkpointBytes, c.checkpoints))
  }

  function CappedChains(env: Env, cs: seq<ChainText>): (r: seq<ChainRead>)
    requires forall c <- cs :: Shaped(c)
    ensures |r| == |cs| && forall i | 0 <= i < |cs| :: r[i] == CappedChain(env, cs[i])
  {
    seq(|cs|, i requires 0 <= i < |cs| => CappedChain(env, cs[i]))
  }

  lemma PairDecoded(kind: Kind, p: Pair)
    requires kind in {Signature, Disclosed}
    ensures DecodePair(kind, Some(PairTree(kind, p))) == CappedPair(kind, Some(p))
  {
    PairOrder(kind, p);
    ItemAt(kind, PairItems(p), 0);
    ItemAt(kind, PairItems(p), 1);
    hide NamesOf, MembersIn, InOrder, MemberAt;
  }

  lemma EntryDecoded(e: EntryRead)
    requires |e.fields| == 7
    ensures DecodeEntry(MembersIn(Entry, EntryItems(e))) == CappedEntry(e)
  {
    hide NamesOf, MembersIn, InOrder, MemberAt, PairTree, EntryItems, DecodePair, CappedPair;
    EntryOrder(e);
    NineNames();
    var items := EntryItems(e);
    var ms := MembersIn(Entry, items);
    forall k | 0 <= k < 7 ensures MemberAt(Entry, ms, k) == Some(Str(e.fields[k])) { ItemAt(Entry, items, k); }
    EntryPairs(e);
    assert DecodeEntry(ms).fields == CappedEntry(e).fields;
  }

  lemma EntryPairs(e: EntryRead)
    requires |e.fields| == 7
    ensures var ms := MembersIn(Entry, EntryItems(e));
            && DecodePair(Signature, MemberAt(Entry, ms, 7)) == CappedPair(Signature, e.sig)
            && DecodePair(Disclosed, MemberAt(Entry, ms, 8)) == CappedPair(Disclosed, e.disclosed)
  {
    hide NamesOf, MembersIn, InOrder, MemberAt, PairTree, DecodePair;
    EntryOrder(e);
    NineNames();
    var items := EntryItems(e);
    NoPair();
    if e.sig.Some? {
      assert items[7] == (7, PairTree(Signature, e.sig.value));
      ItemAt(Entry, items, 7);
      PairDecoded(Signature, e.sig.value);
    } else {
      ItemMissing(Entry, items, 7);
    }
    if e.disclosed.Some? {
      var j := |items| - 1;
      assert items[j] == (8, PairTree(Disclosed, e.disclosed.value));
      ItemAt(Entry, items, j);
      PairDecoded(Disclosed, e.disclosed.value);
    } else {
      ItemMissing(Entry, items, 8);
    }
  }

  lemma NoPair()
    ensures DecodePair(Signature, None) == DecodePair(Disclosed, None) == None
  {
  }

  lemma {:induction false} EntriesDecoded(es: seq<EntryRead>)
    requires forall e <- es :: |e.fields| == 7
    ensures DecodeEntries(EntryTrees(es)) == CappedEntries(es)
  {
    hide DecodeEntry, CappedEntry, EntryItems, MembersIn, NamesOf;
    if es != [] {
      var n := |es| - 1;
      EntriesDecoded(es[..n]);
      EntryDecoded(es[n]);
      assert EntryTrees(es)[..n] == EntryTrees(es[..n]);
      assert CappedEntries(es) == CappedEntries(es[..n]) + [CappedEntry(es[n])];
    }
  }

  lemma {:induction false} TextsDecoded(limit: nat, ts: seq<Bytes>)
    ensures DecodeCheckpoints(limit, TextTrees(ts)) == CappedTexts(limit, ts)
  {
    if ts != [] {
      var n := |ts| - 1;
      TextsDecoded(limit, ts[..n]);
      assert TextTrees(ts)[..n] == TextTrees(ts[..n]);
      assert CappedTexts(limit, ts) == CappedTexts(limit, ts[..n]) + [if |ts[n]| <= limit then Some(ts[n]) else None];
    }
  }

  lemma ChainDecoded(env: Env, c: ChainText)
    requires Shaped(c)
    ensures DecodeChain(env, MembersIn(Chain, ChainItems(c))) == CappedChain(env, c)
  {
    ChainOrder(c);
    ItemAt(Chain, ChainItems(c), 0);
    ItemAt(Chain, ChainItems(c), 1);
    ItemAt(Chain, ChainItems(c), 2);
    hide NamesOf, MembersIn, InOrder, MemberAt, DecodeEntries, DecodeCheckpoints, EntryTree;
    EntriesDecoded(c.entries);
    TextsDecoded(env.lim.checkpointBytes, c.checkpoints);
  }

  lemma {:induction false} ChainsDecoded(env: Env, cs: seq<ChainText>)
    requires forall c <- cs :: Shaped(c)
    ensures DecodeChains(env, ChainTrees(cs)) == CappedChains(env, cs)
  {
    hide DecodeChain, CappedChain, ChainItems, MembersIn, NamesOf, Shaped;
    if cs != [] {
      var n := |cs| - 1;
      ChainsDecoded(env, cs[..n]);
      assert cs[n] in cs;
      ChainDecoded(env, cs[n]);
      assert ChainTrees(cs)[..n] == ChainTrees(cs[..n]);
      assert CappedChains(env, cs) == CappedChains(env, cs[..n]) + [CappedChain(env, cs[n])];
    }
  }

  lemma BundleDecoded(env: Env, cs: seq<ChainText>)
    requires forall c <- cs :: Shaped(c)
    ensures var ms := MembersIn(Bundle, BundleItems(cs));
            && MemberAt(Bundle, ms, 0) == Some(Str(Ascii(FORMAT_ID)))
            && DecodeBundle(env, ms) == CappedChains(env, cs)
  {
    BundleOrder(cs);
    ItemAt(Bundle, BundleItems(cs), 0);
    ItemAt(Bundle, BundleItems(cs), 1);
    hide NamesOf, MembersIn, InOrder, MemberAt, DecodeChains, ChainTree;
    ChainsDecoded(env, cs);
  }

  // ---- The limits ----

  lemma {:induction false} SumAtMost(ns: seq<nat>, k: nat)
    requires forall i | 0 <= i < |ns| :: ns[i] <= k
    ensures Sum(ns) <= k * |ns|
  {
    if ns != [] {
      SumAtMost(ns[..|ns| - 1], k);
      assert k * |ns| == k * (|ns| - 1) + k;
    }
  }

  /** The chain, entry and checkpoint counts bound the values. */
  lemma {:induction false} ValuesBounded(env: Env, cs: seq<ChainText>)
    requires forall c <- cs :: Shaped(c)
    ensures var r := CappedChains(env, cs);
            ChainsValues(cs) <= 4 * |cs| + 14 * TotalEntries(r) + TotalCheckpoints(r)
  {
    hide CappedChain, EntryValues, Shaped;
    if cs != [] {
      var n := |cs| - 1;
      var c := cs[n];
      assert c in cs;
      ValuesBounded(env, cs[..n]);
      SumMore(ChainCounts(cs[..n]), ChainValues(c));
      assert ChainCounts(cs) == ChainCounts(cs[..n]) + [ChainValues(c)];
      assert CappedChains(env, cs) == CappedChains(env, cs[..n]) + [CappedChain(env, c)];
      TotalsMore(CappedChains(env, cs[..n]), CappedChain(env, c));
      ChainBounded(env, c);
    }
  }

  lemma ChainBounded(env: Env, c: ChainText)
    requires Shaped(c)
    ensures ChainValues(c) <= 4 + 14 * |CappedChain(env, c).entries| + |CappedChain(env, c).checkpoints|
  {
    SumAtMost(EntryCounts(c.entries), 14);
  }

  const DEFAULTS := Limits(0x1000_0000, 100000, 1000000, 100000, 0x10_0000, 8, 15000000)

  predicate WithinCounts(lim: Limits, cs: seq<ChainText>) {
    |cs| <= lim.chains && Total(cs, true) <= lim.entries && Total(cs, false) <= lim.checkpoints
  }

  /** All entries, or all checkpoints. */
  function Total(cs: seq<ChainText>, entries: bool): nat {
    if cs == [] then 0 else Total(cs[..|cs| - 1], entries) + if entries then |cs[|cs| - 1].entries| else |cs[|cs| - 1].checkpoints|
  }

  lemma {:induction false} TotalsSame(env: Env, cs: seq<ChainText>)
    requires forall c <- cs :: Shaped(c)
    ensures TotalEntries(CappedChains(env, cs)) == Total(cs, true) && TotalCheckpoints(CappedChains(env, cs)) == Total(cs, false)
  {
    if cs != [] {
      var n := |cs| - 1;
      assert cs[n] in cs;
      TotalsSame(env, cs[..n]);
      assert CappedChains(env, cs) == CappedChains(env, cs[..n]) + [CappedChain(env, cs[n])];
      TotalsMore(CappedChains(env, cs[..n]), CappedChain(env, cs[n]));
    }
  }

  lemma {:induction false} TotalsRepaired(cs: seq<ChainText>, entries: bool)
    ensures Total(RepairedChains(cs), entries) == Total(cs, entries)
  {
    if cs != [] {
      var n := |cs| - 1;
      TotalsRepaired(cs[..n], entries);
      assert RepairedChains(cs)[..n] == RepairedChains(cs[..n]);
    }
  }

  // ---- The round trip ----

  /**
   * A bundle written within the export's own four limits is read, whatever its
   * strings hold: the reader's value limit, which the export never checks,
   * cannot be reached. What is read is what was written.
   */
  lemma ExportReads(env: Env, cs: seq<ChainText>)
    requires env.lim == DEFAULTS && forall c <- cs :: Shaped(c)
    requires |Print(BundleTree(cs))| <= env.lim.bundleBytes && WithinCounts(env.lim, cs)
    ensures Judge(Print(BundleTree(cs)), env) == Read(CappedChains(env, RepairedChains(cs)))
  {
    hide Print, BundleTree, CappedChains, Total, RepairedChains, CountValues, HasDuplicate, Document, Fits, DecodeBundle, MemberAt, TotalEntries, TotalCheckpoints;
    var ds := RepairedChains(cs);
    BundleSized(cs, 2);
    DocumentReads(BundleTree(cs), 8);
    BundleMeant(cs);
    BundleSized(ds, 2);
    ValuesBounded(env, ds);
    TotalsSame(env, ds);
    TotalsRepaired(cs, true);
    TotalsRepaired(cs, false);
    BundleFits(ds);
    BundleDecoded(env, ds);
    BundleIs(ds);
  }

  lemma BundleIs(cs: seq<ChainText>)
    requires forall c <- cs :: Shaped(c)
    ensures BundleTree(cs) == Obj(MembersIn(Bundle, BundleItems(cs)))
  {
  }

  // ---- In shape ----

  predicate Kept(s: Bytes, limit: nat) {
    ValidUtf8(s) && |s| <= limit
  }

  predicate PairInShape(kind: Kind, p: Option<Pair>)
    requires kind in {Signature, Disclosed}
  {
    p.Some? ==> Kept(p.value.a, Caps(kind)[0]) && Kept(p.value.b, Caps(kind)[1])
  }

  predicate EntryInShape(e: EntryRead) {
    |e.fields| == 7 && (forall k | 0 <= k < 7 :: Kept(e.fields[k], Caps(Entry)[k]))
    && PairInShape(Signature, e.sig) && PairInShape(Disclosed, e.disclosed)
  }

  /** No string is longer than what is kept of it, and all of them are UTF-8. */
  predicate ChainInShape(lim: Limits, c: ChainText) {
    Shaped(c) && Kept(c.id, MAX_CHAIN_ID) && (forall e <- c.entries :: EntryInShape(e)) && forall t <- c.checkpoints :: Kept(t, lim.checkpointBytes)
  }

  /** The chain itself, as a reader holds it. */
  function AsRead(c: ChainText): ChainRead {
    ChainRead(c.id, c.entries, seq(|c.checkpoints|, i requires 0 <= i < |c.checkpoints| => Some(c.checkpoints[i])))
  }

  lemma KeptWhole(s: Bytes, limit: nat)
    requires Kept(s, limit)
    ensures Cap(Repaired(s), limit) == s && Repaired(s) == s
  {
    RepairedSelf(s);
  }

  lemma PairKept(kind: Kind, p: Option<Pair>)
    requires kind in {Signature, Disclosed} && PairInShape(kind, p)
    ensures CappedPair(kind, RepairedPair(p)) == p
  {
    hide Kept, Cap;
    if p.Some? {
      KeptWhole(p.value.a, Caps(kind)[0]);
      KeptWhole(p.value.b, Caps(kind)[1]);
    }
  }

  lemma EntryKept(e: EntryRead)
    requires EntryInShape(e)
    ensures CappedEntry(RepairedEntry(e)) == e
  {
    hide Kept, Cap, Repaired, CappedPair, RepairedPair, PairInShape;
    PairKept(Signature, e.sig);
    PairKept(Disclosed, e.disclosed);
    forall k | 0 <= k < 7 ensures Cap(Repaired(e.fields[k]), Caps(Entry)[k]) == e.fields[k] { KeptWhole(e.fields[k], Caps(Entry)[k]); }
    assert CappedEntry(RepairedEntry(e)).fields == e.fields;
  }

  lemma ChainKept(env: Env, c: ChainText)
    requires ChainInShape(env.lim, c)
    ensures CappedChain(env, RepairedChain(c)) == AsRead(c)
  {
    hide Kept, Repaired, RepairedEntry, CappedEntry, EntryInShape;
    KeptLength(c.id, MAX_CHAIN_ID);
    KeptWhole(c.id, MAX_CHAIN_ID);
    var r := CappedChain(env, RepairedChain(c));
    forall i | 0 <= i < |c.entries| ensures r.entries[i] == c.entries[i] { EntryKept(c.entries[i]); }
    forall i | 0 <= i < |c.checkpoints| ensures r.checkpoints[i] == Some(c.checkpoints[i]) {
      KeptLength(c.checkpoints[i], env.lim.checkpointBytes);
      KeptWhole(c.checkpoints[i], env.lim.checkpointBytes);
    }
    assert r.entries == c.entries && r.checkpoints == AsRead(c).checkpoints;
  }

  lemma KeptLength(s: Bytes, limit: nat)
    ensures Kept(s, limit) ==> |s| <= limit
  {
  }

  /** Printer and reader undo each other: strings in shape come back as they are. */
  lemma InShapeReads(env: Env, cs: seq<ChainText>)
    requires env.lim == DEFAULTS && (forall c <- cs :: Shaped(c)) && forall c <- cs :: ChainInShape(env.lim, c)
    requires |Print(BundleTree(cs))| <= env.lim.bundleBytes && WithinCounts(env.lim, cs)
    ensures Judge(Print(BundleTree(cs)), env) == Read(seq(|cs|, i requires 0 <= i < |cs| => AsRead(cs[i])))
  {
    hide Judge, Print, BundleTree, WithinCounts, AsRead, CappedChain, RepairedChain, ChainInShape;
    ExportReads(env, cs);
    forall i | 0 <= i < |cs| ensures CappedChain(env, RepairedChain(cs[i])) == AsRead(cs[i]) { ChainKept(env, cs[i]); }
    assert CappedChains(env, RepairedChains(cs)) == seq(|cs|, i requires 0 <= i < |cs| => AsRead(cs[i]));
  }
}
