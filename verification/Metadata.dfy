/**
 The metadata record that keeps a collection to one embedding model. The record is checked when a
 run starts and written when it has finished, so what it guards depends on where runs are stopped:
 exactly when a stop leaves vectors the record does not vouch for is proved for every attempt.
 */
module Metadata {
  import opened Stores

  /** The documents of all jobs in a collection, each with the model its vectors come from. */
  type Held = map<string, string>

  /** One collection: its dimension if it exists, its record, and what it holds. */
  datatype Coll = Coll(dim: Option<nat>, recorded: Option<string>, held: Held)

  datatype Verdict = Granted | WrongDimension | WrongModel

  /** `ensure_collection`: a missing collection is created without a look at the record. */
  function Ensured(c: Coll, dim: nat, model: string): Verdict {
    if c.dim == None then Granted
    else if c.dim != Some(dim) then WrongDimension
    else if c.recorded.Some? && c.recorded.value != "" && c.recorded.value != model then WrongModel
    else Granted
  }

  /** A document's vectors are replaced by the run's own, or deleted. */
  datatype Change = Put(doc: string) | Remove(doc: string)

  /** One call to the server. */
  datatype Action = DropIt | Create | Record | Ensure | Do(change: Change)

  /** A run: its model and dimension, whether it rebuilds the collection, what it changes, where it is stopped. */
  datatype Attempt = Attempt(model: string, dim: nat, rebuild: bool, changes: seq<Change>, stop: nat)

  function Changed(held: Held, model: string, change: Change): Held {
    match change
    case Put(doc) => held[doc := model]
    case Remove(doc) => held - {doc}
  }

  function AllChanged(held: Held, model: string, changes: seq<Change>): Held
    decreases |changes|
  {
    if changes == [] then held else AllChanged(Changed(held, model, changes[0]), model, changes[1..])
  }

  function Dos(changes: seq<Change>): (actions: seq<Action>)
    ensures |actions| == |changes| && forall i | 0 <= i < |changes| :: actions[i] == Do(changes[i])
  {
    seq(|changes|, i requires 0 <= i < |changes| => Do(changes[i]))
  }

  function Prelude(a: Attempt): seq<Action> {
    if a.rebuild then [DropIt, Create, Record] else []
  }

  /** The calls of a run that nothing stops. */
  function Calls(a: Attempt): seq<Action> {
    Prelude(a) + [Ensure] + Dos(a.changes) + [Record]
  }

  function Act(c: Coll, a: Attempt, action: Action): Coll {
    match action
    case DropIt => c.(dim := None, held := map[])
    case Create => c.(dim := Some(a.dim), held := map[])
    case Record => c.(recorded := Some(a.model))
    case Ensure => if c.dim == None then c.(dim := Some(a.dim), held := map[]) else c
    case Do(change) => c.(held := Changed(c.held, a.model, change))
  }

  /** The calls one after the other; a refusal ends the run. */
  function Perform(c: Coll, a: Attempt, actions: seq<Action>): Coll
    decreases |actions|
  {
    if actions == [] then c
    else if actions[0] == Ensure && Ensured(c, a.dim, a.model) != Granted then c
    else Perform(Act(c, a, actions[0]), a, actions[1..])
  }

  function Attempted(c: Coll, a: Attempt): Coll {
    Perform(c, a, if a.stop <= |Calls(a)| then Calls(a)[..a.stop] else Calls(a))
  }

  function Replay(h: seq<Attempt>): Coll {
    if h == [] then Coll(None, None, map[]) else Attempted(Replay(h[..|h| - 1]), h[|h| - 1])
  }

  predicate AllOf(held: Held, model: string) {
    forall doc | doc in held :: held[doc] == model
  }

  /** All vectors come from the recorded model; a missing collection has none. */
  predicate Vouched(c: Coll) {
    && (c.dim == None ==> c.held == map[])
    && (c.held != map[] ==> c.recorded.Some? && c.recorded.value != "" && AllOf(c.held, c.recorded.value))
  }

  /** The run is stopped holding vectors of its own that no record names: it found another record, or none. */
  predicate StopsUnvouched(c: Coll, a: Attempt) {
    && !a.rebuild && Ensured(c, a.dim, a.model) == Granted && c.recorded != Some(a.model)
    && 1 <= a.stop <= 1 + |a.changes| && AllChanged(map[], a.model, a.changes[..a.stop - 1]) != map[]
  }

  lemma {:induction false} ChangedOf(held: Held, model: string, changes: seq<Change>)
    requires AllOf(held, model)
    ensures AllOf(AllChanged(held, model, changes), model)
    decreases |changes|
  {
    if changes != [] { ChangedOf(Changed(held, model, changes[0]), model, changes[1..]); }
  }

  lemma {:induction false} ChangedElsewhere(held: Held, model: string, changes: seq<Change>, doc: string)
    requires forall change | change in changes :: change.doc != doc
    ensures doc in AllChanged(held, model, changes) <==> doc in held
    ensures doc in held ==> AllChanged(held, model, changes)[doc] == held[doc]
    decreases |changes|
  {
    if changes != [] {
      assert changes[0] in changes && forall change | change in changes[1..] :: change in changes;
      ChangedElsewhere(Changed(held, model, changes[0]), model, changes[1..], doc);
    }
  }

  lemma {:induction false} PerformDos(c: Coll, a: Attempt, changes: seq<Change>, rest: seq<Action>)
    ensures Perform(c, a, Dos(changes) + rest) == Perform(c.(held := AllChanged(c.held, a.model, changes)), a, rest)
    decreases |changes|
  {
    if changes == [] {
      assert Dos(changes) + rest == rest;
    } else {
      assert (Dos(changes) + rest)[1..] == Dos(changes[1..]) + rest && (Dos(changes) + rest)[0] == Do(changes[0]);
      PerformDos(Act(c, a, Do(changes[0])), a, changes[1..], rest);
    }
  }

  lemma PerformOne(c: Coll, a: Attempt, action: Action, rest: seq<Action>)
    ensures Perform(c, a, [action] + rest) ==
              if action == Ensure && Ensured(c, a.dim, a.model) != Granted then c
              else Perform(Act(c, a, action), a, rest)
  {
    assert ([action] + rest)[1..] == rest;
  }

  function Done(a: Attempt, n: nat): seq<Change> {
    a.changes[..if n <= |a.changes| then n else |a.changes|]
  }

  /** What a stop leaves of `Ensure`, the changes and the final record. */
  function Stopped(a: Attempt, n: nat): seq<Action> {
    if n == 0 then [] else [Ensure] + (Dos(Done(a, n - 1)) + (if n > 1 + |a.changes| then [Record] else []))
  }

  lemma CallsStopped(a: Attempt)
    ensures
      var actions := if a.stop <= |Calls(a)| then Calls(a)[..a.stop] else Calls(a);
      actions == if a.stop <= |Prelude(a)| then Prelude(a)[..a.stop] else Prelude(a) + Stopped(a, a.stop - |Prelude(a)|)
  {
  }

  /** From `Ensure` on, a granted run. */
  lemma PerformStopped(c: Coll, a: Attempt, n: nat)
    ensures
      var ready := Act(c, a, Ensure);
      Perform(c, a, Stopped(a, n)) ==
        if n == 0 || Ensured(c, a.dim, a.model) != Granted then c
        else ready.(held := AllChanged(ready.held, a.model, Done(a, n - 1)),
                    recorded := if n > 1 + |a.changes| then Some(a.model) else c.recorded)
  {
    if n > 0 {
      var last := if n > 1 + |a.changes| then [Record] else [];
      var ready := Act(c, a, Ensure);
      PerformOne(c, a, Ensure, Dos(Done(a, n - 1)) + last);
      PerformDos(ready, a, Done(a, n - 1), last);
      assert last != [] ==> last == [Record] + [];
      PerformOne(ready.(held := AllChanged(ready.held, a.model, Done(a, n - 1))), a, Record, []);
    }
  }

  lemma PerformPrelude(c: Coll, a: Attempt, k: nat, rest: seq<Action>)
    requires a.rebuild && k <= 3 && (rest == [] || k == 3)
    ensures
      Perform(c, a, Prelude(a)[..k] + rest) ==
        if k == 0 then c
        else if k == 1 then c.(dim := None, held := map[])
        else if k == 2 then c.(dim := Some(a.dim), held := map[])
        else Perform(Coll(Some(a.dim), Some(a.model), map[]), a, rest)
  {
    var dropped := c.(dim := None, held := map[]);
    var created := dropped.(dim := Some(a.dim), held := map[]);
    assert Prelude(a)[..k] + rest ==
           (if k > 0 then [DropIt] else []) + (if k > 1 then [Create] else [])
           + (if k > 2 then [Record] else []) + rest;
    if k == 1 { assert [DropIt] + [] + [] + [] == [DropIt] + []; }
    if k == 2 { assert [DropIt] + [Create] + [] + [] == [DropIt] + ([Create] + []); }
    if k == 3 { assert [DropIt] + [Create] + [Record] + rest == [DropIt] + ([Create] + ([Record] + rest)); }
    PerformOne(c, a, DropIt, if k == 3 then [Create] + ([Record] + rest) else if k == 2 then [Create] + [] else []);
    PerformOne(dropped, a, Create, if k == 3 then [Record] + rest else []);
    PerformOne(created, a, Record, rest);
  }

  lemma RebuildVouches(c: Coll, a: Attempt)
    requires Vouched(c) && a.rebuild && a.model != ""
    ensures Vouched(Attempted(c, a)) && exists model :: AllOf(Attempted(c, a).held, model)
  {
    CallsStopped(a);
    if a.stop <= 3 {
      assert Prelude(a)[..a.stop] + [] == Prelude(a)[..a.stop];
      PerformPrelude(c, a, a.stop, []);
      assert AllOf(Attempted(c, a).held, if c.recorded.Some? then c.recorded.value else "");
    } else {
      assert Prelude(a)[..3] == Prelude(a);
      PerformPrelude(c, a, 3, Stopped(a, a.stop - 3));
      PerformStopped(Coll(Some(a.dim), Some(a.model), map[]), a, a.stop - 3);
      ChangedOf(map[], a.model, Done(a, a.stop - 4));
      assert AllOf(Attempted(c, a).held, a.model);
    }
  }

  lemma PlainAttempt(c: Coll, a: Attempt)
    requires !a.rebuild
    ensures Attempted(c, a) == Perform(c, a, Stopped(a, a.stop))
  {
    CallsStopped(a);
    assert Prelude(a) + Stopped(a, a.stop) == Stopped(a, a.stop) && Stopped(a, 0) == Prelude(a)[..0];
  }

  lemma OtherRunVouches(c: Coll, a: Attempt)
    requires Vouched(c) && !a.rebuild && a.model != ""
    ensures Vouched(Attempted(c, a)) <==> !StopsUnvouched(c, a)
    ensures exists model :: AllOf(Attempted(c, a).held, model)
  {
    PlainAttempt(c, a);
    PerformStopped(c, a, a.stop);
    if a.stop > 0 && Ensured(c, a.dim, a.model) == Granted {
      assert AllOf(Act(c, a, Ensure).held, a.model);
      ChangedOf(Act(c, a, Ensure).held, a.model, Done(a, a.stop - 1));
      assert AllOf(Attempted(c, a).held, a.model);
    } else {
      assert AllOf(Attempted(c, a).held, if c.recorded.Some? then c.recorded.value else "");
    }
  }

  // ---- main results

  /**
   A run may be stopped anywhere and the record still vouches for every vector, unless the run is
   stopped with vectors of its own there before its first record of this model: those stops, and no
   others, break it. Even then the collection holds vectors of one model.
   */
  lemma StopVouchesExactly(c: Coll, a: Attempt)
    requires Vouched(c) && a.model != ""
    ensures Vouched(Attempted(c, a)) <==> !StopsUnvouched(c, a)
    ensures exists model :: AllOf(Attempted(c, a).held, model)
  {
    if a.rebuild { RebuildVouches(c, a); } else { OtherRunVouches(c, a); }
  }

  /** Over any history of runs: as long as none is stopped so, every collection is vouched for. */
  lemma {:induction false} AlwaysVouched(h: seq<Attempt>)
    requires forall i | 0 <= i < |h| :: h[i].model != "" && !StopsUnvouched(Replay(h[..i]), h[i])
    ensures Vouched(Replay(h))
  {
    if h != [] {
      var n := |h| - 1;
      assert forall i | 0 <= i < n :: h[..n][..i] == h[..i];
      AlwaysVouched(h[..n]);
      StopVouchesExactly(Replay(h[..n]), h[n]);
    }
  }

  /** A run of another model is not let near vectors that are vouched for, except to rebuild. */
  lemma OthersAreRefused(c: Coll, a: Attempt)
    requires Vouched(c) && c.held != map[] && !AllOf(c.held, a.model) && !a.rebuild
    ensures Ensured(c, a.dim, a.model) != Granted && Attempted(c, a) == c
  {
    PlainAttempt(c, a);
    PerformStopped(c, a, a.stop);
  }

  lemma RebuildDims(c: Coll, a: Attempt)
    requires a.rebuild && a.stop > 3
    ensures Attempted(c, a).dim == Some(a.dim)
  {
    CallsStopped(a);
    assert Prelude(a)[..3] == Prelude(a);
    PerformPrelude(c, a, 3, Stopped(a, a.stop - 3));
    PerformStopped(Coll(Some(a.dim), Some(a.model), map[]), a, a.stop - 3);
  }

  /**
   Whom the check turns away, exactly: a run that does not rebuild and finds the collection there with
   another dimension, or with the record of another model; it changes nothing, wherever it is stopped.
   Every other run, stopped behind the check or later, finds or leaves the collection in its dimension.
   */
  lemma TurnedAwayExactly(c: Coll, a: Attempt)
    ensures
      var refused := !a.rebuild && c.dim.Some? &&
                     (c.dim.value != a.dim ||
                      (c.recorded != None && c.recorded != Some("") && c.recorded != Some(a.model)));
      && (refused ==> Attempted(c, a) == c)
      && (!refused && a.stop > |Prelude(a)| ==> Attempted(c, a).dim == Some(a.dim))
  {
    if !a.rebuild {
      PlainAttempt(c, a);
      PerformStopped(c, a, a.stop);
    } else if a.stop > 3 {
      RebuildDims(c, a);
    }
  }

  /**
   But let a new collection's first run be stopped behind a document. A run of another model of the
   same dimension is let in, and whatever document of the first it does not itself replace or delete,
   another job's say, stays beside its own, under a record of the second model.
   */
  lemma StopMixesModels(first: string, second: string, dim: nat, doc: string, changes: seq<Change>)
    requires first != "" && second != "" && first != second
    requires forall change | change in changes :: change.doc != doc
    ensures
      var stopped := Attempt(first, dim, false, [Put(doc)], 2);
      var whole := Attempt(second, dim, false, changes, |changes| + 2);
      var now := Replay([stopped, whole]);
      && now.recorded == Some(second) && now.held == AllChanged(map[doc := first], second, changes)
      && doc in now.held && now.held[doc] == first
  {
    var stopped := Attempt(first, dim, false, [Put(doc)], 2);
    var whole := Attempt(second, dim, false, changes, |changes| + 2);
    assert [stopped, whole][..1] == [stopped] && [stopped][..0] == [];
    FirstIsStopped(first, dim, doc);
    var left := Coll(Some(dim), None, map[doc := first]);
    assert Replay([stopped]) == left;
    PlainAttempt(left, whole);
    PerformStopped(left, whole, |changes| + 2);
    assert Done(whole, |changes| + 1) == changes;
    ChangedElsewhere(map[doc := first], second, changes, doc);
  }

  lemma FirstIsStopped(first: string, dim: nat, doc: string)
    ensures Attempted(Coll(None, None, map[]), Attempt(first, dim, false, [Put(doc)], 2)) ==
              Coll(Some(dim), None, map[doc := first])
  {
    var a, empty := Attempt(first, dim, false, [Put(doc)], 2), Coll(None, None, map[]);
    PlainAttempt(empty, a);
    PerformStopped(empty, a, 2);
    assert Done(a, 1) == [Put(doc)] && [Put(doc)][1..] == [];
    assert AllChanged(map[], first, [Put(doc)]) == map[][doc := first];
  }
}
