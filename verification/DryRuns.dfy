/** A dry run goes through the whole tree and writes nothing. */
module DryRuns {
  import opened Stores
  import opened Machines
  import opened Protocol

  /** All a dry run does is look: it prepares nothing, has no tasks and cleans nothing up. */
  ghost predicate Looking(c: Config, st: Stores) {
    && c.run.spec.dryRun && c.st == st
    && match c.run.pc
       case Admit => true
       case Known => true
       case Scan(_) => true
       case Work(_, tasks, _) => tasks == []
       case Ended(_) => true
       case _ => false
  }

  lemma StepKeeps(c: Config, st: Stores)
    requires Looking(c, st)
    ensures Looking(Step(c), st)
  {
  }

  /** At every step of every dry run, of any mode and over any tree, both stores are as they were. */
  lemma DryRunWritesNothing(spec: Spec, st: Stores, n: nat)
    requires spec.dryRun
    ensures Exec(Config(Begin(spec), st), n).st == st
  {
    var inv := (d: Config) => Looking(d, st);
    forall d | inv(d) ensures inv(Step(d)) { StepKeeps(d, st); }
    Invariant(Step, inv, Config(Begin(spec), st), n);
  }
}
