/**
 Jobs sharing a collection. Each job works through its runs one after the other, and the steps of
 different jobs interleave in any order. With no collection rebuild among them and the collections
 already there, each job ends as if the others had not run, locks or no locks.

 The argument needs only that a step is local to its job, so the step function is a parameter
 until the main results.
 */
module Interleaving {
  import opened Stores
  import opened Protocol
  import opened Slices

  /** A job's current run and the runs that follow it. */
  datatype Program = Program(run: Run, queue: seq<Spec>)

  /** What one job can tell of the system: its program and its slice of the stores. */
  datatype Turn = Turn(program: Program, st: Stores)

  datatype System = System(programs: map<string, Program>, st: Stores)

  /** A job takes a step, or its run dies in an exception between two store calls. */
  datatype Move = Tick(job: string) | Die(job: string)

  /** Moves in the order they were made. */
  datatype Schedule = Idle | Then(past: Schedule, m: Move)

  /** One move of a program; an ended run gives way to the next one. */
  function Advance(step: Config -> Config, t: Turn, m: Move): Turn {
    var p := t.program;
    if m.Die? then t.(program := p.(run := p.run.(pc := Ended(Failed))))
    else if p.run.pc.Ended? && p.queue != [] then t.(program := Program(Begin(p.queue[0]), p.queue[1..]))
    else
      var c := step(Config(p.run, t.st));
      Turn(p.(run := c.run), c.st)
  }

  predicate Enrolled(sys: System, schedule: Schedule) {
    schedule.Then? ==> schedule.m.job in sys.programs && Enrolled(sys, schedule.past)
  }

  function MoveOnce(step: Config -> Config, sys: System, m: Move): System
    requires m.job in sys.programs
  {
    var t := Advance(step, Turn(sys.programs[m.job], sys.st), m);
    System(sys.programs[m.job := t.program], t.st)
  }

  function Interleave(step: Config -> Config, sys: System, schedule: Schedule): (after: System)
    requires Enrolled(sys, schedule)
    ensures after.programs.Keys == sys.programs.Keys
  {
    match schedule
    case Idle => sys
    case Then(past, m) => MoveOnce(step, Interleave(step, sys, past), m)
  }

  /** A program making its moves with nobody else around. */
  function Alone(step: Config -> Config, t: Turn, moves: Schedule): Turn {
    match moves
    case Idle => t
    case Then(past, m) => Advance(step, Alone(step, t, past), m)
  }

  function Own(schedule: Schedule, job: string): Schedule {
    match schedule
    case Idle => Idle
    case Then(past, m) => if m.job == job then Then(Own(past, job), m) else Own(past, job)
  }

  function View(sys: System, j: string): Turn
    requires j in sys.programs
  {
    Turn(sys.programs[j], Slice(sys.st, j))
  }

  // ---- locality

  /** The step reads and writes only its job's slice. */
  ghost predicate LocalAt(step: Config -> Config, c: Config) {
    var d, own := step(c), c.run.spec.job;
    && d.run.spec == c.run.spec && Scoped(d.run) && d.st.dims == c.st.dims
    && step(Config(c.run, Slice(c.st, own))) == Config(d.run, Slice(d.st, own))
    && forall other | other != own :: Slice(d.st, other) == Slice(c.st, other)
  }

  ghost predicate Local(step: Config -> Config) {
    forall c: Config | Scoped(c.run) && c.run.spec.coll in c.st.dims :: LocalAt(step, c)
  }

  /** A program of job `j` that never rebuilds a collection and writes into existing ones. */
  ghost predicate Neighbourly(j: string, p: Program, dims: map<string, nat>) {
    && p.run.spec.job == j && Scoped(p.run) && p.run.spec.coll in dims
    && forall s | s in p.queue :: s.job == j && JobScoped(s) && s.coll in dims
  }

  ghost predicate AllNeighbourly(sys: System) {
    forall j | j in sys.programs :: Neighbourly(j, sys.programs[j], sys.st.dims)
  }

  lemma AdvanceIsLocal(step: Config -> Config, j: string, p: Program, st: Stores, m: Move)
    requires Local(step) && Neighbourly(j, p, st.dims)
    ensures
      var t := Advance(step, Turn(p, st), m);
      && Advance(step, Turn(p, Slice(st, j)), m) == Turn(t.program, Slice(t.st, j))
      && Neighbourly(j, t.program, st.dims) && t.st.dims == st.dims
      && forall other | other != j :: Slice(t.st, other) == Slice(st, other)
  {
    if m.Tick? {
      if p.run.pc.Ended? && p.queue != [] {
        assert p.queue[0] in p.queue;
      } else {
        assert LocalAt(step, Config(p.run, st));
      }
    }
  }

  lemma MoveOnceIsLocal(step: Config -> Config, sys: System, m: Move, j: string)
    requires Local(step) && AllNeighbourly(sys) && j in sys.programs && m.job in sys.programs
    ensures AllNeighbourly(MoveOnce(step, sys, m))
    ensures View(MoveOnce(step, sys, m), j) == if m.job == j then Advance(step, View(sys, j), m) else View(sys, j)
  {
    AdvanceIsLocal(step, m.job, sys.programs[m.job], sys.st, m);
  }

  lemma {:induction false} ViewEvolves(step: Config -> Config, sys: System, schedule: Schedule, j: string)
    requires Local(step) && AllNeighbourly(sys) && j in sys.programs && Enrolled(sys, schedule)
    ensures AllNeighbourly(Interleave(step, sys, schedule))
    ensures View(Interleave(step, sys, schedule), j) == Alone(step, View(sys, j), Own(schedule, j))
  {
    if schedule.Then? {
      ViewEvolves(step, sys, schedule.past, j);
      MoveOnceIsLocal(step, Interleave(step, sys, schedule.past), schedule.m, j);
    }
  }

  lemma StepIsLocal()
    ensures Local(Step)
  {
    forall c: Config | Scoped(c.run) && c.run.spec.coll in c.st.dims ensures LocalAt(Step, c) {
      StepCommutes(c);
      StepKeepsSpec(c);
      forall other | other != c.run.spec.job ensures Slice(Step(c).st, other) == Slice(c.st, other) {
        StepFrames(c, other);
      }
    }
  }

  lemma StepKeepsSpec(c: Config)
    requires Scoped(c.run) && c.run.spec.coll in c.st.dims
    ensures Step(c).run.spec == c.run.spec && Step(c).st.dims == c.st.dims
  {
    StepFrames(c, c.run.spec.job + "!");
  }

  // ---- main results

  /** In any interleaving a job's program and slice are those of running alone on its slice. */
  lemma RunsAsAlone(sys: System, schedule: Schedule, j: string)
    requires AllNeighbourly(sys) && j in sys.programs && Enrolled(sys, schedule)
    ensures View(Interleave(Step, sys, schedule), j) == Alone(Step, View(sys, j), Own(schedule, j))
  {
    StepIsLocal();
    ViewEvolves(Step, sys, schedule, j);
  }

  /** Non-interference: a job cannot tell two interleavings apart in which it moves alike. */
  lemma NonInterference(sys: System, schedule: Schedule, other: Schedule, j: string)
    requires AllNeighbourly(sys) && j in sys.programs && Enrolled(sys, schedule) && Enrolled(sys, other)
    requires Own(schedule, j) == Own(other, j)
    ensures
      var a, b := Interleave(Step, sys, schedule), Interleave(Step, sys, other);
      && a.programs[j] == b.programs[j]
      && JobPoints(a.st.points, j) == JobPoints(b.st.points, j)
      && JobRows(a.st.rows, j) == JobRows(b.st.rows, j)
  {
    RunsAsAlone(sys, schedule, j);
    RunsAsAlone(sys, other, j);
  }
}
