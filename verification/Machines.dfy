/** Runs of a deterministic step function. */
module Machines {

  function Iterate<C>(step: C -> C, c: C, n: nat): C {
    if n == 0 then c else step(Iterate(step, c, n - 1))
  }

  lemma {:induction false} IterateAdds<C>(step: C -> C, c: C, m: nat, n: nat)
    ensures Iterate(step, Iterate(step, c, m), n) == Iterate(step, c, m + n)
  {
    if n != 0 { IterateAdds(step, c, m, n - 1); }
  }

  lemma StepFirst<C>(step: C -> C, c: C, n: nat)
    ensures Iterate(step, step(c), n) == Iterate(step, c, n + 1)
  {
    IterateAdds(step, c, 1, n);
    assert Iterate(step, c, 1) == step(Iterate(step, c, 0));
  }

  /** What holds at the start and is kept by every step holds after any number of steps. */
  lemma {:induction false} Invariant<C(!new)>(step: C -> C, inv: C -> bool, c: C, n: nat)
    requires inv(c)
    requires forall d | inv(d) :: inv(step(d))
    ensures inv(Iterate(step, c, n))
  {
    if n != 0 { Invariant(step, inv, c, n - 1); }
  }

  ghost predicate Reaches<C>(step: C -> C, c: C, d: C) {
    exists n: nat :: Iterate(step, c, n) == d
  }

  lemma ReachesOne<C>(step: C -> C, c: C, d: C)
    requires Reaches(step, c, d)
    ensures Reaches(step, c, step(d))
  {
    var n: nat :| Iterate(step, c, n) == d;
    assert Iterate(step, c, n + 1) == step(d);
  }

  lemma ReachesThen<C>(step: C -> C, c: C, d: C, e: C)
    requires Reaches(step, c, d) && Reaches(step, d, e)
    ensures Reaches(step, c, e)
  {
    var m: nat :| Iterate(step, c, m) == d;
    var n: nat :| Iterate(step, d, n) == e;
    IterateAdds(step, c, m, n);
  }

  lemma {:induction false} FixpointStays<C>(step: C -> C, d: C, n: nat)
    requires step(d) == d
    ensures Iterate(step, d, n) == d
  {
    if n > 0 { FixpointStays(step, d, n - 1); }
  }

  /** A run has at most one end. */
  lemma OneFixpoint<C>(step: C -> C, c: C, d: C, e: C)
    requires Reaches(step, c, d) && Reaches(step, c, e) && step(d) == d && step(e) == e
    ensures d == e
  {
    var m: nat :| Iterate(step, c, m) == d;
    var n: nat :| Iterate(step, c, n) == e;
    if m <= n {
      IterateAdds(step, c, m, n - m);
      FixpointStays(step, d, n - m);
    } else {
      IterateAdds(step, c, n, m - n);
      FixpointStays(step, e, m - n);
    }
  }
}
