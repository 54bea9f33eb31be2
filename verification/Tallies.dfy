/** The verifier's problem codes, and how a chain's problems are counted. */
module Tallies {
  import opened Basics

  datatype Code = DuplicateChain | InvalidChainId | FieldShape | DuplicateEntryId | FirstEntry | Sequence | Link | ChainHash
                | EntryType | ErasureInvalid | AfterErasure | ErasedEventDisclosed | Modified
                | CheckpointMalformed | CheckpointSubject | CheckpointSequence | CheckpointOverreach | CheckpointBinding
                | CheckpointUnknownKey | CheckpointBadSignature
                | Unsigned | MalformedSignature | UnknownKey | BadSignature

  /** One code: how often it occurred, and the lowest index; None for a code without an index. */
  datatype Problem = Problem(count: nat, first: Option<nat>)

  /** One occurrence of a code, in the order found. */
  type Found = (Code, Option<nat>)

  function Occurs(found: seq<Found>, code: Code): nat {
    if found == [] then 0
    else Occurs(found[..|found| - 1], code) + if found[|found| - 1].0 == code then 1 else 0
  }

  /** No occurrence has a lower index, and one has this one. */
  predicate Lowest(found: seq<Found>, code: Code, first: nat) {
    (code, Some(first)) in found && forall f <- found :: f.0 == code && f.1.Some? ==> first <= f.1.value
  }

  /** A tally says of every code how often it was found, and where first. */
  predicate Tells(problems: map<Code, Problem>, found: seq<Found>) {
    (forall code :: code in problems <==> Occurs(found, code) > 0)
    && (forall code <- problems :: problems[code].count == Occurs(found, code))
    && forall code <- problems ::
         (forall f <- found :: f.0 == code ==> f.1.Some?) ==>
           problems[code].first.Some? && Lowest(found, code, problems[code].first.value)
  }

  lemma OccursMore(found: seq<Found>, f: Found, code: Code)
    ensures Occurs(found + [f], code) == Occurs(found, code) + if f.0 == code then 1 else 0
  {
    assert (found + [f])[..|found|] == found;
  }

  lemma {:induction false} OccursIn(found: seq<Found>, code: Code)
    ensures Occurs(found, code) > 0 <==> exists f <- found :: f.0 == code
  {
    if found != [] {
      var init, last := found[..|found| - 1], found[|found| - 1];
      assert found == init + [last];
      OccursIn(init, code);
      assert last in found;
    }
  }

  class Tally {
    var problems: map<Code, Problem>
    ghost var found: seq<Found>

    ghost predicate Valid()
      reads this
    {
      Tells(problems, found)
    }

    constructor ()
      ensures Valid() && found == []
    {
      problems, found := map[], [];
    }

    /** Counts one occurrence of a code at an index. */
    method Add(code: Code, index: nat)
      requires Valid()
      modifies this
      ensures Valid() && found == old(found) + [(code, Some(index))]
    {
      hide Tells;
      ghost var was, before := problems, found;
      if code in problems {
        var p := problems[code];
        var first := if p.first.Some? && index < p.first.value then Some(index) else p.first;
        problems := problems[code := Problem(p.count + 1, first)];
        TellsAgain(was, before, code, index);
      } else {
        problems := problems[code := Problem(1, Some(index))];
        TellsNew(was, before, code, Some(index));
      }
      found := found + [(code, Some(index))];
    }

    /** Counts the one occurrence of a code that has no index. */
    method AddNoIndex(code: Code)
      requires Valid() && code !in problems
      modifies this
      ensures Valid() && found == old(found) + [(code, None)]
    {
      hide Tells;
      ghost var was, before := problems, found;
      problems := problems[code := Problem(1, None)];
      TellsNew(was, before, code, None);
      found := found + [(code, None)];
    }
  }

  lemma TellsAgain(was: map<Code, Problem>, found: seq<Found>, code: Code, index: nat)
    requires Tells(was, found) && code in was
    ensures var p := was[code];
            var first := if p.first.Some? && index < p.first.value then Some(index) else p.first;
            Tells(was[code := Problem(p.count + 1, first)], found + [(code, Some(index))])
  {
    forall c ensures Occurs(found + [(code, Some(index))], c) == Occurs(found, c) + if c == code then 1 else 0 {
      OccursMore(found, (code, Some(index)), c);
    }
  }

  lemma TellsNew(was: map<Code, Problem>, found: seq<Found>, code: Code, index: Option<nat>)
    requires Tells(was, found) && code !in was
    ensures Tells(was[code := Problem(1, index)], found + [(code, index)])
  {
    hide Occurs;
    forall c ensures Occurs(found + [(code, index)], c) == Occurs(found, c) + if c == code then 1 else 0 {
      OccursMore(found, (code, index), c);
    }
    OccursIn(found, code);
  }

  /** No problem is reported exactly when none was found. */
  lemma NoneFound(problems: map<Code, Problem>, found: seq<Found>)
    requires Tells(problems, found)
    ensures problems == map[] <==> found == []
  {
    if found != [] {
      OccursIn(found, found[0].0);
      assert found[0] in found;
      assert found[0].0 in problems;
    }
  }
}
