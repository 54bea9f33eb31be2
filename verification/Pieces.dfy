/** A bundle's text as the pieces an export writes one after another. */
module Pieces {
  import opened Basics
  import opened JsonText
  import opened JsonTree
  import opened Findings
  import opened BundleDecode
  import opened Printer
  import opened ExportTree

  // ---- Labels ----

  predicate PlainChar(c: char) {
    c == '_' || c == '.' || 'a' <= c <= 'z' || '0' <= c <= '9'
  }

  predicate Plain(s: string) {
    forall i | 0 <= i < |s| :: PlainChar(s[i])
  }

  lemma {:induction false} PlainEscaped(s: string)
    requires Plain(s)
    ensures Escaped(Ascii(s)) == Ascii(s)
    decreases |s|
  {
    hide PieceOf;
    if s != [] {
      var b := Ascii(s);
      PlainPiece(s[0], b);
      PlainEscaped(s[1..]);
      assert b[1..] == Ascii(s[1..]);
      assert b == [b[0]] + b[1..];
    }
  }

  lemma PlainPiece(c: char, b: Bytes)
    requires PlainChar(c) && b != [] && b[0] == (c as int % 256) as byte
    ensures PieceOf(b).text == [b[0]] && PieceOf(b).size == 1
  {
  }

  lemma ShortNamesPlain(kind: Kind, k: nat)
    requires k < |NamesOf(kind)| && (kind == Entry ==> k < 4)
    ensures Plain(NamesOf(kind)[k])
  {
  }

  lemma NamesPlain(kind: Kind, k: nat)
    requires k < |NamesOf(kind)|
    ensures Plain(NamesOf(kind)[k])
  {
    if kind != Entry || k < 4 { ShortNamesPlain(kind, k); }
  }

  /** A member's name as it is written, behind the byte that opens or separates. */
  function Label(open: byte, kind: Kind, k: nat): Bytes
    requires k < |NamesOf(kind)|
  {
    [open, QUOTE] + NameAt(kind, k) + [QUOTE, COLON]
  }

  lemma LabelIs(open: byte, kind: Kind, k: nat)
    requires k < |NamesOf(kind)|
    ensures Label(open, kind, k) == [open] + Quoted(NameAt(kind, k)) + [COLON]
  {
    hide NamesOf;
    NamesPlain(kind, k);
    PlainEscaped(NamesOf(kind)[k]);
  }

  // ---- Objects, member by member ----

  predicate InRange(kind: Kind, items: Items) {
    forall j | 0 <= j < |items| :: items[j].0 < |NamesOf(kind)|
  }

  /** An object's text without its closing brace. */
  function Run(kind: Kind, items: Items): Bytes
    requires InRange(kind, items)
  {
    if items == [] then []
    else
      var n := |items| - 1;
      Run(kind, items[..n]) + Label(if n == 0 then OPEN_OBJECT else COMMA, kind, items[n].0) + Print(items[n].1)
  }

  lemma RunMore(kind: Kind, items: Items, k: nat, t: Json)
    requires InRange(kind, items) && k < |NamesOf(kind)|
    ensures InRange(kind, items + [(k, t)])
    ensures Run(kind, items + [(k, t)]) == Run(kind, items) + (Label(if items == [] then OPEN_OBJECT else COMMA, kind, k) + Print(t))
  {
    hide NamesOf, Print, Label;
    var more := items + [(k, t)];
    assert more[..|items|] == items && more[|items|] == (k, t);
    assert InRange(kind, more);
    RunIs(kind, more);
    hide Run;
  }

  lemma {:induction false} MembersMore(ms: seq<Member>, m: Member)
    ensures PrintMembers(ms + [m]) == PrintMembers(ms) + (if ms == [] then [] else [COMMA]) + PrintMember(m)
    decreases |ms|
  {
    hide PrintMember;
    if ms == [] {
      assert ms + [m] == [m];
    } else if |ms| == 1 {
      assert (ms + [m])[1..] == [m] && ms == [ms[0]];
    } else {
      MembersMore(ms[1..], m);
      assert (ms + [m])[1..] == ms[1..] + [m];
    }
  }

  /** Appending one member to what is open. */
  lemma Joined(open: Bytes, sofar: Bytes, c: byte, q: Bytes, v: Bytes)
    ensures open + sofar + ([c] + q + [COLON] + v) == open + (sofar + [c] + (q + [COLON] + v))
    ensures [c] + q + [COLON] + v == [c] + ([] + [] + (q + [COLON] + v))
  {
  }

  lemma MemberIs(m: Member)
    ensures PrintMember(m) == Quoted(m.name) + [COLON] + Print(m.value)
  {
  }

  lemma RunIs(kind: Kind, items: Items)
    requires InRange(kind, items) && items != []
    ensures var n := |items| - 1;
            Run(kind, items) == Run(kind, items[..n]) + (Label(if n == 0 then OPEN_OBJECT else COMMA, kind, items[n].0) + Print(items[n].1))
  {
    hide NamesOf, Print, Label;
  }

  lemma {:induction false} RunMembers(kind: Kind, items: Items)
    requires InRange(kind, items)
    ensures items != [] ==> Run(kind, items) == [OPEN_OBJECT] + PrintMembers(MembersIn(kind, items))
  {
    hide NamesOf, Print, Label, Quoted, PrintMembers, Run, PrintMember;
    if items != [] {
      var n := |items| - 1;
      var ms := MembersIn(kind, items);
      var q, v := Quoted(NameAt(kind, items[n].0)), Print(items[n].1);
      RunIs(kind, items);
      LabelIs(if n == 0 then OPEN_OBJECT else COMMA, kind, items[n].0);
      MemberIs(ms[n]);
      MembersMore(ms[..n], ms[n]);
      assert ms == ms[..n] + [ms[n]];
      NoMembers();
      if n == 0 {
        NothingRun(kind);
        Joined([], [], OPEN_OBJECT, q, v);
        assert PrintMembers(ms) == q + [COLON] + v;
      } else {
        RunMembers(kind, items[..n]);
        assert ms[..n] == MembersIn(kind, items[..n]);
        Joined([OPEN_OBJECT], PrintMembers(ms[..n]), COMMA, q, v);
      }
    }
  }

  lemma NothingRun(kind: Kind)
    ensures InRange(kind, []) && Run(kind, []) == []
  {
  }

  lemma NoMembers()
    ensures PrintMembers([]) == [] && PrintElems([]) == []
  {
  }

  /** The pieces make the object. */
  lemma RunObject(kind: Kind, items: Items)
    requires InRange(kind, items) && items != []
    ensures Run(kind, items) + [CLOSE_OBJECT] == Print(Obj(MembersIn(kind, items)))
  {
    hide NamesOf, Run, MembersIn, PrintMembers;
    RunMembers(kind, items);
  }

  // ---- Arrays, element by element ----

  lemma {:induction false} ElemsMore(es: seq<Json>, e: Json)
    ensures PrintElems(es + [e]) == PrintElems(es) + (if es == [] then [] else [COMMA]) + Print(e)
    decreases |es|
  {
    hide Print;
    if es == [] {
      assert es + [e] == [e];
    } else if |es| == 1 {
      assert (es + [e])[1..] == [e] && es == [es[0]];
    } else {
      ElemsMore(es[1..], e);
      assert (es + [e])[1..] == es[1..] + [e];
    }
  }

  lemma ArrayIs(es: seq<Json>)
    ensures Print(Arr(es)) == [OPEN_ARRAY] + PrintElems(es) + [CLOSE_ARRAY]
  {
  }

  /** Fewer elements are no longer. */
  lemma {:induction false} ElemsLonger(es: seq<Json>, n: nat)
    requires n <= |es|
    ensures |PrintElems(es[..n])| <= |PrintElems(es)|
  {
    hide PrintElems;
    if n < |es| {
      var k := |es| - 1;
      ElemsLonger(es[..k], n);
      assert es[..k][..n] == es[..n] && es == es[..k] + [es[k]];
      ElemsMore(es[..k], es[k]);
    } else {
      assert es[..n] == es;
    }
  }

  // ---- The texts of checkpoints are no shorter than what they hold ----

  lemma {:induction false} EscapedLonger(s: Bytes)
    ensures |Escaped(s)| >= |s|
    decreases |s|
  {
    hide PieceOf;
    if s != [] {
      PieceLonger(s);
      EscapedLonger(s[PieceOf(s).size..]);
    }
  }

  lemma PieceLonger(s: Bytes)
    requires s != []
    ensures |PieceOf(s).text| >= PieceOf(s).size
  {
  }

  function TotalLength(ts: seq<Bytes>): nat {
    if ts == [] then 0 else TotalLength(ts[..|ts| - 1]) + |ts[|ts| - 1]|
  }

  lemma TotalMore(ts: seq<Bytes>, t: Bytes)
    ensures TotalLength(ts + [t]) == TotalLength(ts) + |t|
  {
    assert (ts + [t])[..|ts|] == ts;
  }

  lemma {:induction false} TextsLonger(ts: seq<Bytes>, n: nat)
    requires n <= |ts|
    ensures TotalLength(ts[..n]) <= |PrintElems(TextTrees(ts))|
  {
    hide PrintElems, Quoted;
    if ts != [] {
      var k := |ts| - 1;
      TextsLonger(ts[..k], if n <= k then n else k);
      assert TextTrees(ts) == TextTrees(ts[..k]) + [Str(ts[k])];
      ElemsMore(TextTrees(ts[..k]), Str(ts[k]));
      QuotedLonger(ts[k]);
      assert n <= k ==> ts[..k][..n] == ts[..n];
      if n > k {
        assert ts[..k][..k] == ts[..k] && ts[..n] == ts[..k] + [ts[k]];
        TotalMore(ts[..k], ts[k]);
      }
    } else {
      assert TotalLength(ts[..n]) == 0;
    }
  }

  lemma QuotedLonger(s: Bytes)
    ensures |Print(Str(s))| >= |s| + 2
  {
    EscapedLonger(s);
  }

  // ---- A chain and a bundle ----

  function ChainHead(id: Bytes): Bytes {
    NineNames();
    Label(OPEN_OBJECT, Chain, 0) + Quoted(id) + Label(COMMA, Chain, 1) + [OPEN_ARRAY]
  }

  function ChainMiddle(): Bytes {
    NineNames();
    [CLOSE_ARRAY] + Label(COMMA, Chain, 2) + [OPEN_ARRAY]
  }

  const TAIL: Bytes := [CLOSE_ARRAY, CLOSE_OBJECT]

  function BundleHead(): Bytes {
    NineNames();
    Label(OPEN_OBJECT, Bundle, 0) + Quoted(Ascii(FORMAT_ID)) + Label(COMMA, Bundle, 1) + [OPEN_ARRAY]
  }

  lemma RunTwo(kind: Kind, a: Json, b: Json)
    requires |NamesOf(kind)| >= 2
    ensures InRange(kind, [(0, a), (1, b)])
    ensures Run(kind, [(0, a), (1, b)]) == Label(OPEN_OBJECT, kind, 0) + Print(a) + (Label(COMMA, kind, 1) + Print(b))
  {
    hide NamesOf, Print, Label, Run;
    NothingRun(kind);
    RunMore(kind, [], 0, a);
    assert [] + [(0, a)] == [(0, a)] && [(0, a)] + [(1, b)] == [(0, a), (1, b)];
    RunMore(kind, [(0, a)], 1, b);
  }

  lemma RunThree(kind: Kind, a: Json, b: Json, c: Json)
    requires |NamesOf(kind)| >= 3
    ensures InRange(kind, [(0, a), (1, b), (2, c)])
    ensures Run(kind, [(0, a), (1, b), (2, c)])
         == Label(OPEN_OBJECT, kind, 0) + Print(a) + (Label(COMMA, kind, 1) + Print(b)) + (Label(COMMA, kind, 2) + Print(c))
  {
    hide NamesOf, Print, Label, Run;
    RunTwo(kind, a, b);
    assert [(0, a), (1, b)] + [(2, c)] == [(0, a), (1, b), (2, c)];
    RunMore(kind, [(0, a), (1, b)], 2, c);
  }

  lemma Regroup(l0: Bytes, q: Bytes, l1: Bytes, es: Bytes, l2: Bytes, ts: Bytes)
    ensures l0 + q + (l1 + ([OPEN_ARRAY] + es + [CLOSE_ARRAY])) + (l2 + ([OPEN_ARRAY] + ts + [CLOSE_ARRAY])) + [CLOSE_OBJECT]
         == (l0 + q + l1 + [OPEN_ARRAY]) + es + ([CLOSE_ARRAY] + l2 + [OPEN_ARRAY]) + ts + TAIL
    ensures l0 + q + (l1 + ([OPEN_ARRAY] + es + [CLOSE_ARRAY])) + [CLOSE_OBJECT] == (l0 + q + l1 + [OPEN_ARRAY]) + es + TAIL
  {
  }

  lemma ChainPieces(c: ChainText)
    requires Shaped(c)
    ensures Print(ChainTree(c))
         == ChainHead(c.id) + PrintElems(EntryTrees(c.entries)) + ChainMiddle() + PrintElems(TextTrees(c.checkpoints)) + TAIL
  {
    NineNames();
    StrIs(c.id);
    ArrayIs(EntryTrees(c.entries));
    ArrayIs(TextTrees(c.checkpoints));
    hide NamesOf, Print, Label, Run, PrintElems, EntryTrees, TextTrees, Quoted, MembersIn;
    RunThree(Chain, Str(c.id), Arr(EntryTrees(c.entries)), Arr(TextTrees(c.checkpoints)));
    RunObject(Chain, ChainItems(c));
    Regroup(Label(OPEN_OBJECT, Chain, 0), Quoted(c.id), Label(COMMA, Chain, 1), PrintElems(EntryTrees(c.entries)),
            Label(COMMA, Chain, 2), PrintElems(TextTrees(c.checkpoints)));
  }

  lemma StrIs(s: Bytes)
    ensures Print(Str(s)) == Quoted(s)
  {
  }

  lemma BundlePieces(cs: seq<ChainText>)
    requires forall c <- cs :: Shaped(c)
    ensures Print(BundleTree(cs)) == BundleHead() + PrintElems(ChainTrees(cs)) + TAIL
  {
    NineNames();
    StrIs(Ascii(FORMAT_ID));
    ArrayIs(ChainTrees(cs));
    hide NamesOf, Print, Label, Run, PrintElems, ChainTrees, Quoted, MembersIn;
    RunTwo(Bundle, Str(Ascii(FORMAT_ID)), Arr(ChainTrees(cs)));
    RunObject(Bundle, BundleItems(cs));
    Regroup(Label(OPEN_OBJECT, Bundle, 0), Quoted(Ascii(FORMAT_ID)), Label(COMMA, Bundle, 1), PrintElems(ChainTrees(cs)), [], []);
  }

  lemma PairPieces(kind: Kind, p: Pair)
    requires kind in {Signature, Disclosed}
    ensures InRange(kind, PairItems(p)) && Print(PairTree(kind, p)) == Run(kind, PairItems(p)) + [CLOSE_OBJECT]
  {
    TwoNames(kind);
    hide NamesOf, Print, Label, Run, MembersIn;
    RunObject(kind, PairItems(p));
  }

  lemma EntryPieces(e: EntryRead)
    requires |e.fields| == 7
    ensures InRange(Entry, EntryItems(e)) && Print(EntryTree(e)) == Run(Entry, EntryItems(e)) + [CLOSE_OBJECT]
  {
    EntryOrder(e);
    hide NamesOf, Print, Label, Run, MembersIn, EntryItems;
    RunObject(Entry, EntryItems(e));
  }
}
