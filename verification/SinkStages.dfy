/**
 * What one chain gets from one commit, stage by stage, and what each stage
 * keeps: the argument is per chain, because every file is keyed by chain.
 */
module SinkStages {
  import opened Basics
  import opened SinkState

  /** One chain's share of a commit, decided before anything is written. */
  datatype Draft = Draft(
    entries: seq<Entry>,
    rows: map<EntryId, Secret>,
    positions: map<string, Position>,
    sigs: map<EntryId, Signed>)

  const EMPTY_DRAFT := Draft([], map[], map[], map[])

  /** The draft with one more record, on a chain of n entries. */
  function Extend(dr: Draft, n: nat, id: EntryId, content: string, nonce: nat, source: string, signer: bool): Draft {
    var e := Entry(id, Event, Salted(content, nonce));
    var at := n + |dr.entries|;
    Draft(
      dr.entries + [e],
      dr.rows[id := Secret(content, Some(nonce))],
      if source == "" then dr.positions else dr.positions[source := Position(id, at)],
      if signer then dr.sigs[id := Signed(Event, at, e.hash)] else dr.sigs)
  }

  predicate HasId(entries: seq<Entry>, id: EntryId) {
    exists e <- entries :: e.id == id
  }

  predicate HasSource(entries: seq<Entry>, origin: map<EntryId, string>, source: string) {
    exists e <- entries :: SourceOf(origin, e.id) == source
  }

  // ---- What a draft is, part by part ----

  predicate DraftEvents(entries: seq<Entry>) {
    DistinctIds(entries) && forall k | 0 <= k < |entries| :: entries[k].kind == Event && entries[k].hash.Salted?
  }

  predicate DraftRows(dr: Draft) {
    (forall k | 0 <= k < |dr.entries| ::
       dr.entries[k].id in dr.rows && Opens(dr.entries[k], dr.rows[dr.entries[k].id]))
    && (forall id <- dr.rows :: HasId(dr.entries, id)) && (forall id <- dr.sigs :: HasId(dr.entries, id))
  }

  predicate DraftSigned(dr: Draft, n: nat) {
    forall k | 0 <= k < |dr.entries| ::
      dr.entries[k].id in dr.sigs && dr.sigs[dr.entries[k].id] == Signed(Event, n + k, dr.entries[k].hash)
  }

  predicate DraftLocated(dr: Draft, n: nat, origin: map<EntryId, string>) {
    OncePerSource(dr.entries, origin)
    && (forall k | 0 <= k < |dr.entries| ::
          var source := SourceOf(origin, dr.entries[k].id);
          source != "" ==> source in dr.positions && dr.positions[source] == Position(dr.entries[k].id, n + k))
    && (forall source <- dr.positions :: source != "" && HasSource(dr.entries, origin, source))
  }

  /** The draft's ids and sources are not on the chain yet. */
  predicate NewTo(entries: seq<Entry>, dr: Draft, origin: map<EntryId, string>) {
    (forall i | 0 <= i < |entries| :: !HasId(dr.entries, entries[i].id))
    && (forall i | 0 <= i < |entries| :: SourceOf(origin, entries[i].id) !in dr.positions)
  }

  predicate DraftOK(entries: seq<Entry>, dr: Draft, origin: map<EntryId, string>, signer: bool, lo: nat, hi: nat) {
    DraftEvents(dr.entries) && DraftRows(dr) && (signer ==> DraftSigned(dr, |entries|)) && (!signer ==> dr.sigs == map[])
    && DraftLocated(dr, |entries|, origin) && NewTo(entries, dr, origin)
    && (forall k | 0 <= k < |dr.entries| :: lo <= dr.entries[k].id < hi)
  }

  // ---- The stages on one chain ----

  function WithRows(v: View, dr: Draft): View { v.(secrets := v.secrets + dr.rows) }
  function WithSigs(v: View, dr: Draft): View { v.(signatures := v.signatures + dr.sigs) }
  function WithPositions(v: View, dr: Draft): View { v.(sources := v.sources + dr.positions) }
  function WithEntries(v: View, dr: Draft): View { v.(entries := v.entries + dr.entries) }

  /** deleteRows of the sources file: a row goes only while it still holds exactly that position. */
  function DropPositions(sources: map<string, Position>, positions: map<string, Position>): map<string, Position> {
    map s | s in sources && !(s in positions && positions[s] == sources[s]) :: sources[s]
  }

  /** Rows of new ids beside the rows of a chain's entries. */
  lemma OpenableMore(entries: seq<Entry>, secrets: map<EntryId, Secret>, rows: map<EntryId, Secret>)
    requires Openable(entries, secrets) && forall e <- entries :: e.id !in rows
    ensures Openable(entries, secrets + rows) && Openable(entries, secrets - rows.Keys)
  {
  }

  lemma SignedMore(entries: seq<Entry>, signatures: map<EntryId, Signed>, sigs: map<EntryId, Signed>)
    requires FullySigned(entries, signatures) && forall e <- entries :: e.id !in sigs
    ensures FullySigned(entries, signatures + sigs) && FullySigned(entries, signatures - sigs.Keys)
  {
  }

  lemma LocatedMore(entries: seq<Entry>, sources: map<string, Position>, positions: map<string, Position>,
                    origin: map<EntryId, string>)
    requires Located(entries, sources, origin) && forall e <- entries :: SourceOf(origin, e.id) !in positions
    ensures Located(entries, sources + positions, origin)
    ensures Located(entries, DropPositions(sources, positions), origin)
  {
  }

  lemma TruthfulMore(entries: seq<Entry>, sources: map<string, Position>, dr: Draft, origin: map<EntryId, string>,
                     signer: bool, lo: nat, hi: nat)
    requires Truthful(sources, origin) && DraftOK(entries, dr, origin, signer, lo, hi)
    ensures Truthful(sources + dr.positions, origin) && Truthful(DropPositions(sources, dr.positions), origin)
  {
    forall s | s in dr.positions ensures s != "" && SourceOf(origin, dr.positions[s].id) == s {
      var e :| e in dr.entries && SourceOf(origin, e.id) == s;
    }
  }

  lemma DraftKeys(entries: seq<Entry>, dr: Draft, origin: map<EntryId, string>, signer: bool, lo: nat, hi: nat)
    requires DraftOK(entries, dr, origin, signer, lo, hi)
    ensures (forall id <- dr.rows :: lo <= id < hi) && (forall id <- dr.sigs :: lo <= id < hi)
    ensures forall e <- entries :: e.id !in dr.rows && e.id !in dr.sigs && SourceOf(origin, e.id) !in dr.positions
  {
  }

  // Writing or removing a draft's rows, signatures or positions leaves a chain as sound as it was.

  lemma RowsKeep(v: View, dr: Draft, signing: bool, origin: map<EntryId, string>, signer: bool, lo: nat, bound: nat)
    requires Core(v, signing, origin, bound) && DraftOK(v.entries, dr, origin, signer, lo, bound)
    ensures Core(WithRows(v, dr), signing, origin, bound)
    ensures Core(v.(secrets := v.secrets - dr.rows.Keys), signing, origin, bound)
  {
    hide Shaped, DistinctIds, OncePerSource, Openable, Erased, FullySigned, Located, DraftOK, Truthful;
    DraftKeys(v.entries, dr, origin, signer, lo, bound);
    OpenableMore(v.entries, v.secrets, dr.rows);
  }

  lemma SigsKeep(v: View, dr: Draft, signing: bool, origin: map<EntryId, string>, signer: bool, lo: nat, bound: nat)
    requires Core(v, signing, origin, bound) && DraftOK(v.entries, dr, origin, signer, lo, bound)
    ensures Core(WithSigs(v, dr), signing, origin, bound)
    ensures Core(v.(signatures := v.signatures - dr.sigs.Keys), signing, origin, bound)
  {
    hide Shaped, DistinctIds, OncePerSource, Openable, Erased, FullySigned, Located, DraftOK, Truthful;
    DraftKeys(v.entries, dr, origin, signer, lo, bound);
    if signing {
      SignedMore(v.entries, v.signatures, dr.sigs);
    }
  }

  lemma PositionsKeep(v: View, dr: Draft, signing: bool, origin: map<EntryId, string>, signer: bool, lo: nat, bound: nat)
    requires Core(v, signing, origin, bound) && DraftOK(v.entries, dr, origin, signer, lo, bound)
    ensures Core(WithPositions(v, dr), signing, origin, bound)
    ensures Core(v.(sources := DropPositions(v.sources, dr.positions)), signing, origin, bound)
  {
    hide Shaped, DistinctIds, OncePerSource, Openable, Erased, FullySigned, Located, DraftOK, DropPositions, Truthful;
    DraftKeys(v.entries, dr, origin, signer, lo, bound);
    LocatedMore(v.entries, v.sources, dr.positions, origin);
    TruthfulMore(v.entries, v.sources, dr, origin, signer, lo, bound);
  }

  // ---- The commit point ----

  /** Everything the draft's entries need is on disk. */
  predicate Staged(v: View, dr: Draft) {
    (forall id <- dr.rows :: id in v.secrets && v.secrets[id] == dr.rows[id])
    && (forall id <- dr.sigs :: id in v.signatures && v.signatures[id] == dr.sigs[id])
    && (forall s <- dr.positions :: s in v.sources && v.sources[s] == dr.positions[s])
  }

  lemma EventsOnly(entries: seq<Entry>, more: seq<Entry>)
    requires Shaped(entries) && !Erased(entries)
    requires forall k | 0 <= k < |more| :: more[k].kind == Event && more[k].hash.Salted?
    ensures Shaped(entries + more) && !Erased(entries + more)
  {
    var all := entries + more;
    assert forall i | 0 <= i < |all| :: all[i].kind == Event && all[i].hash.Salted?;
  }

  lemma DistinctMore(entries: seq<Entry>, more: seq<Entry>)
    requires DistinctIds(entries) && DistinctIds(more) && forall e <- entries :: !HasId(more, e.id)
    ensures DistinctIds(entries + more)
  {
  }

  lemma OpenableAppend(entries: seq<Entry>, more: seq<Entry>, secrets: map<EntryId, Secret>)
    requires Openable(entries, secrets) && !Erased(entries)
    requires forall e <- more :: e.id in secrets && Opens(e, secrets[e.id])
    ensures Openable(entries + more, secrets)
  {
    forall i | 0 <= i < |entries + more|
      ensures (entries + more)[i].id in secrets && Opens((entries + more)[i], secrets[(entries + more)[i].id])
    {
      if i >= |entries| { assert (entries + more)[i] == more[i - |entries|]; }
    }
  }

  lemma SignedAppend(entries: seq<Entry>, more: seq<Entry>, signatures: map<EntryId, Signed>)
    requires FullySigned(entries, signatures)
    requires forall k | 0 <= k < |more| ::
               more[k].id in signatures && signatures[more[k].id] == Signed(more[k].kind, |entries| + k, more[k].hash)
    ensures FullySigned(entries + more, signatures)
  {
    forall i | 0 <= i < |entries + more|
      ensures var e := (entries + more)[i];
              e.id in signatures && signatures[e.id] == Signed(e.kind, i, e.hash)
    {
      if i >= |entries| { assert (entries + more)[i] == more[i - |entries|]; }
    }
  }

  lemma OnceAppend(entries: seq<Entry>, more: seq<Entry>, origin: map<EntryId, string>)
    requires OncePerSource(entries, origin) && OncePerSource(more, origin)
    requires forall e <- entries :: SourceOf(origin, e.id) != "" ==> !HasSource(more, origin, SourceOf(origin, e.id))
    ensures OncePerSource(entries + more, origin)
  {
  }

  lemma LocatedAppend(entries: seq<Entry>, more: seq<Entry>, sources: map<string, Position>, origin: map<EntryId, string>)
    requires Located(entries, sources, origin) && !Erased(entries)
    requires forall k | 0 <= k < |more| ::
               var source := SourceOf(origin, more[k].id);
               source != "" ==> source in sources && sources[source] == Position(more[k].id, |entries| + k)
    ensures Located(entries + more, sources, origin)
  {
    forall i | 0 <= i < |entries + more|
      ensures var e := (entries + more)[i];
              var source := SourceOf(origin, e.id);
              source != "" ==> source in sources && sources[source] == Position(e.id, i)
    {
      if i >= |entries| { assert (entries + more)[i] == more[i - |entries|]; }
    }
  }

  /** The append of a staged draft keeps the chain sound: nothing lands that could not be opened, found and verified. */
  lemma AppendKeeps(v: View, dr: Draft, signing: bool, origin: map<EntryId, string>, signer: bool, lo: nat, bound: nat)
    requires Core(v, signing, origin, bound) && DraftOK(v.entries, dr, origin, signer, lo, bound)
    requires Staged(v, dr) && !Erased(v.entries) && (signing ==> signer)
    ensures Core(WithEntries(v, dr), signing, origin, bound) && !Erased(WithEntries(v, dr).entries)
  {
    var more := dr.entries;
    EventsOnly(v.entries, more);
    DistinctMore(v.entries, more);
    OpenableAppend(v.entries, more, v.secrets);
    if signing { SignedAppend(v.entries, more, v.signatures); }
    OnceAppend(v.entries, more, origin);
    LocatedAppend(v.entries, more, v.sources, origin);
  }

  // ---- Building a draft ----

  lemma OldSources(dr: Draft, origin: map<EntryId, string>, id: EntryId, source: string)
    requires forall e <- dr.entries :: e.id < id
    ensures forall e <- dr.entries :: SourceOf(origin[id := source], e.id) == SourceOf(origin, e.id)
  {
  }

  lemma ExtendEvents(entries: seq<Entry>, e: Entry)
    requires DraftEvents(entries) && e.kind == Event && e.hash.Salted? && forall x <- entries :: x.id < e.id
    ensures DraftEvents(entries + [e])
  {
  }

  lemma ExtendRows(dr: Draft, next: Draft, e: Entry, s: Secret)
    requires DraftRows(dr) && Opens(e, s) && forall x <- dr.entries :: x.id < e.id
    requires next.entries == dr.entries + [e] && next.rows == dr.rows[e.id := s]
    requires next.sigs.Keys <= dr.sigs.Keys + {e.id}
    ensures DraftRows(next)
  {
    assert HasId(next.entries, e.id);
    forall id | HasId(dr.entries, id) ensures HasId(next.entries, id) {
      var x :| x in dr.entries && x.id == id;
      assert x in next.entries;
    }
  }

  lemma ExtendSigned(dr: Draft, next: Draft, n: nat, e: Entry)
    requires DraftSigned(dr, n) && e.kind == Event && forall x <- dr.entries :: x.id < e.id
    requires next.entries == dr.entries + [e] && next.sigs == dr.sigs[e.id := Signed(Event, n + |dr.entries|, e.hash)]
    ensures DraftSigned(next, n)
  {
  }

  lemma ExtendLocated(dr: Draft, next: Draft, n: nat, origin: map<EntryId, string>, e: Entry, source: string)
    requires DraftLocated(dr, n, origin) && forall x <- dr.entries :: x.id < e.id
    requires source != "" ==> source !in dr.positions
    requires next.entries == dr.entries + [e]
    requires next.positions == if source == "" then dr.positions
                               else dr.positions[source := Position(e.id, n + |dr.entries|)]
    ensures DraftLocated(next, n, origin[e.id := source])
  {
    var origin' := origin[e.id := source];
    OldSources(dr, origin, e.id, source);
    assert SourceOf(origin', e.id) == source;
    hide SourceOf;
    ExtendOnce(dr, next, n, origin, origin', e, source);
    assert next.entries[|dr.entries|] == e;
    forall s | s in next.positions ensures s != "" && HasSource(next.entries, origin', s) {
      if s in dr.positions {
        assert HasSource(dr.entries, origin, s);
        var x :| x in dr.entries && SourceOf(origin, x.id) == s;
        assert x in next.entries;
      } else {
        assert e in next.entries;
      }
    }
    hide OncePerSource, HasSource;
  }

  lemma ExtendOnce(dr: Draft, next: Draft, n: nat, origin: map<EntryId, string>, origin': map<EntryId, string>, e: Entry, source: string)
    requires DraftLocated(dr, n, origin) && next.entries == dr.entries + [e]
    requires (forall x <- dr.entries :: SourceOf(origin', x.id) == SourceOf(origin, x.id)) && SourceOf(origin', e.id) == source
    requires source != "" ==> source !in dr.positions
    ensures OncePerSource(next.entries, origin')
  {
    hide SourceOf, HasSource;
  }

  lemma ExtendNew(entries: seq<Entry>, dr: Draft, next: Draft, origin: map<EntryId, string>, e: Entry, source: string)
    requires NewTo(entries, dr, origin) && (forall x <- entries :: x.id < e.id)
    requires forall x <- entries :: SourceOf(origin, x.id) != "" ==> SourceOf(origin, x.id) != source
    requires next.entries == dr.entries + [e]
    requires next.positions.Keys == if source == "" then dr.positions.Keys else dr.positions.Keys + {source}
    requires "" !in dr.positions
    ensures NewTo(entries, next, origin[e.id := source])
  {
  }

  /** One more record keeps a draft in order: a new id, and a source neither the chain nor the draft has. */
  lemma ExtendKeeps(entries: seq<Entry>, dr: Draft, origin: map<EntryId, string>, signer: bool, lo: nat,
                    id: EntryId, content: string, nonce: nat, source: string)
    requires DraftOK(entries, dr, origin, signer, lo, id) && lo <= id
    requires forall e <- entries :: e.id < id
    requires source != "" ==> source !in dr.positions
    requires forall e <- entries :: SourceOf(origin, e.id) != "" ==> SourceOf(origin, e.id) != source
    ensures DraftOK(entries, Extend(dr, |entries|, id, content, nonce, source, signer), origin[id := source],
                    signer, lo, id + 1)
  {
    hide DraftEvents, DraftRows, DraftSigned, DraftLocated, NewTo;
    var next, e := Extend(dr, |entries|, id, content, nonce, source, signer), Entry(id, Event, Salted(content, nonce));
    assert "" !in dr.positions by { PositionsNamed(dr, |entries|, origin); }
    ExtendEvents(dr.entries, e);
    ExtendRows(dr, next, e, Secret(content, Some(nonce)));
    if signer { ExtendSigned(dr, next, |entries|, e); }
    ExtendLocated(dr, next, |entries|, origin, e, source);
    ExtendNew(entries, dr, next, origin, e, source);
    hide SourceOf, HasSource;
  }

  lemma PositionsNamed(dr: Draft, n: nat, origin: map<EntryId, string>)
    requires DraftLocated(dr, n, origin)
    ensures "" !in dr.positions
  {
  }
}
