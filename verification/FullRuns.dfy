/**
 A full run forgets history: what it leaves of a job depends on the run alone, not on the points
 and rows it found. The proof runs the same full run from two arbitrary starts in lockstep, so it
 covers every kind of file, failed extractions and embeddings, and attachments.
 */
module FullRuns {
  import opened Stores
  import opened Machines
  import opened Protocol
  import opened Slices

  /** The job's points in the run's collection. */
  function Corpus(spec: Spec, points: Points): Points {
    map k | k in points && k.coll == spec.coll && k.job == spec.job :: points[k]
  }

  /** The same, of this run's generation only. */
  function Generation(spec: Spec, points: Points): Points {
    map k | k in points && k.coll == spec.coll && k.job == spec.job && points[k].run == spec.run :: points[k]
  }

  /** The collection, if it is there, is the model's by dimension and record, or is rebuilt. */
  ghost predicate DimsFit(spec: Spec, st: Stores) {
    spec.coll in st.dims ==> st.dims[spec.coll] == spec.dim && (spec.admitted || Rebuilds(spec))
  }

  /** The run id is new, or the collection is dropped and holds all the job's documents. */
  ghost predicate Startable(spec: Spec, st: Stores) {
    if spec.wholeCollection then forall k | k in st.rows && k.job == spec.job :: st.rows[k].collection == spec.coll
    else DimsFit(spec, st) && Generation(spec, st.points) == map[]
  }

  ghost predicate Alike(spec: Spec, a: Stores, b: Stores) {
    && JobRows(a.rows, spec.job) == JobRows(b.rows, spec.job)
    && Generation(spec, a.points) == Generation(spec, b.points)
  }

  ghost predicate Twins(a: Config, b: Config) {
    var r, spec := a.run, a.run.spec;
    && a.run == b.run && spec.mode == Full && !spec.dryRun
    && match r.pc
       case Admit => Startable(spec, a.st) && Startable(spec, b.st)
       case DropColl => spec.wholeCollection && Startable(spec, a.st) && Startable(spec, b.st)
       case CreateColl =>
         && spec.wholeCollection && Startable(spec, a.st) && Startable(spec, b.st)
         && Generation(spec, a.st.points) == Generation(spec, b.st.points)
       case ForgetColl =>
         && spec.wholeCollection && Startable(spec, a.st) && Startable(spec, b.st)
         && DimsFit(spec, a.st) && DimsFit(spec, b.st) && Generation(spec, a.st.points) == Generation(spec, b.st.points)
       case ForgetRows =>
         !spec.wholeCollection && Startable(spec, a.st) && Startable(spec, b.st)
       case Ensure => DimsFit(spec, a.st) && DimsFit(spec, b.st) && Alike(spec, a.st, b.st)
       case Ended(o) =>
         o == Success ==>
           JobRows(a.st.rows, spec.job) == JobRows(b.st.rows, spec.job) &&
           Corpus(spec, a.st.points) == Corpus(spec, b.st.points)
       case Known => false
       case Vanish => false
       case Work(i, _, _) => i < |spec.files| && Alike(spec, a.st, b.st)
       case _ => Alike(spec, a.st, b.st)
  }

  lemma GenerationAfterDelete(spec: Spec, points: Points, s: string)
    ensures Generation(spec, DeleteBySource(points, spec.coll, spec.job, s)) ==
              DeleteBySource(Generation(spec, points), spec.coll, spec.job, s)
  {
  }

  lemma GenerationAfterUpsert(spec: Spec, points: Points, s: string, chunks: seq<string>)
    ensures Generation(spec, points + DocPoints(spec.coll, spec.job, s, spec.run, chunks)) ==
              Generation(spec, points) + DocPoints(spec.coll, spec.job, s, spec.run, chunks)
  {
  }

  lemma SweptIsGeneration(spec: Spec, points: Points)
    ensures Corpus(spec, Sweep(points, spec.coll, SweepScope(spec), spec.run)) == Generation(spec, points)
  {
  }

  lemma WorkTwins(a: Config, b: Config)
    requires Twins(a, b) && a.run.pc.Work?
    ensures Twins(WorkStep(a), WorkStep(b))
  {
    var spec := a.run.spec;
    if a.run.pc.tasks != [] {
      var t := a.run.pc.tasks[0];
      var k := RowKey(spec.job, t.source);
      match t
      case Save(s, row) =>
        SaveSlices(a.st.rows, k, row, spec.job);
        SaveSlices(b.st.rows, k, row, spec.job);
      case Drop(s) =>
        GenerationAfterDelete(spec, a.st.points, s);
        GenerationAfterDelete(spec, b.st.points, s);
        DropSlices(a.st.rows, k, spec.job);
        DropSlices(b.st.rows, k, spec.job);
      case Index(s, chunks, row) => IndexTwins(a, b);
    }
  }

  /** What keeps twins alike while they work. */
  ghost predicate MovesTogether(a: Config, d: Config, e: Config)
    requires a.run.pc.Work?
  {
    && d.run == e.run && d.run == a.run.(pc := d.run.pc) && Alike(a.run.spec, d.st, e.st)
    && ((d.run.pc.Work? && d.run.pc.i == a.run.pc.i) || d.run.pc == Ended(Failed))
  }

  lemma MovedTwins(a: Config, b: Config, d: Config, e: Config)
    requires Twins(a, b) && a.run.pc.Work? && MovesTogether(a, d, e)
    ensures Twins(d, e)
  {
  }

  lemma IndexTwins(a: Config, b: Config)
    requires Twins(a, b) && a.run.pc.Work? && a.run.pc.tasks != [] && a.run.pc.tasks[0].Index?
    ensures Twins(WorkStep(a), WorkStep(b))
  {
    IndexMovesTogether(a, b);
    MovedTwins(a, b, WorkStep(a), WorkStep(b));
  }

  lemma AlikeDeleted(spec: Spec, a: Stores, b: Stores, s: string)
    requires Alike(spec, a, b)
    ensures Alike(spec, a.(points := DeleteBySource(a.points, spec.coll, spec.job, s)),
                  b.(points := DeleteBySource(b.points, spec.coll, spec.job, s)))
  {
    GenerationAfterDelete(spec, a.points, s);
    GenerationAfterDelete(spec, b.points, s);
  }

  lemma AlikeSaved(spec: Spec, a: Stores, b: Stores, s: string, row: Row)
    requires Alike(spec, a, b)
    ensures Alike(spec, a.(rows := a.rows[RowKey(spec.job, s) := row]), b.(rows := b.rows[RowKey(spec.job, s) := row]))
  {
    SaveSlices(a.rows, RowKey(spec.job, s), row, spec.job);
    SaveSlices(b.rows, RowKey(spec.job, s), row, spec.job);
  }

  lemma AlikeUpserted(spec: Spec, a: Stores, b: Stores, s: string, chunks: seq<string>)
    requires Alike(spec, a, b)
    ensures Alike(spec, a.(points := a.points + DocPoints(spec.coll, spec.job, s, spec.run, chunks)),
                  b.(points := b.points + DocPoints(spec.coll, spec.job, s, spec.run, chunks)))
  {
    GenerationAfterUpsert(spec, a.points, s, chunks);
    GenerationAfterUpsert(spec, b.points, s, chunks);
  }

  lemma IndexMovesTogether(a: Config, b: Config)
    requires a.run == b.run && Alike(a.run.spec, a.st, b.st)
    requires a.run.pc.Work? && a.run.pc.tasks != [] && a.run.pc.tasks[0].Index?
    ensures MovesTogether(a, WorkStep(a), WorkStep(b))
  {
    var spec := a.run.spec;
    var Index(s, chunks, row) := a.run.pc.tasks[0];
    match a.run.pc.sub
    case First =>
      AlikeDeleted(spec, a.st, b.st, s);
      AlikeSaved(spec, a.st, b.st, s, row.(status := FailedEmbed, chunks := 0));
    case Second => AlikeUpserted(spec, a.st, b.st, s, chunks);
    case Third => AlikeSaved(spec, a.st, b.st, s, row);
  }

  lemma PrepareTwins(a: Config, b: Config)
    requires Twins(a, b)
    requires !a.run.pc.Work? && !a.run.pc.Scan? && !a.run.pc.SweepStale? && !a.run.pc.Ended?
    ensures Twins(Prepare(a), Prepare(b))
  {
  }

  lemma StepTwins(a: Config, b: Config)
    requires Twins(a, b)
    ensures Twins(Step(a), Step(b))
  {
    var spec := a.run.spec;
    match a.run.pc
    case Scan(i) => if i < |spec.files| { OwnRowsDecide(spec, a.st.rows, b.st.rows, spec.files[i]); }
    case Work(_, _, _) => WorkTwins(a, b);
    case SweepStale =>
      SweptIsGeneration(spec, a.st.points);
      SweptIsGeneration(spec, b.st.points);
    case Ended(_) =>
    case _ => PrepareTwins(a, b);
  }

  lemma {:induction false} TwinsStay(a: Config, b: Config, n: nat)
    requires Twins(a, b)
    ensures Twins(Exec(a, n), Exec(b, n))
  {
    if n != 0 {
      TwinsStay(a, b, n - 1);
      StepTwins(Exec(a, n - 1), Exec(b, n - 1));
    }
  }

  /**
   From any two starts a full run takes the same course, and where it succeeds it leaves the same
   rows and the same points, run ids included.
   */
  lemma FullRunForgetsHistory(spec: Spec, p: Stores, q: Stores, n: nat)
    requires spec.mode == Full && !spec.dryRun && Startable(spec, p) && Startable(spec, q)
    ensures
      var a, b := Exec(Config(Begin(spec), p), n), Exec(Config(Begin(spec), q), n);
      && a.run == b.run
      && (a.run.pc == Ended(Success) ==>
            JobRows(a.st.rows, spec.job) == JobRows(b.st.rows, spec.job) &&
            Corpus(spec, a.st.points) == Corpus(spec, b.st.points))
  {
    TwinsStay(Config(Begin(spec), p), Config(Begin(spec), q), n);
    var inv := (d: Config) => d.run.spec == spec;
    forall d | inv(d) ensures inv(Step(d)) {}
    Invariant(Step, inv, Config(Begin(spec), p), n);
  }

  /** A job-scoped run of any mode, at any step, leaves every other job's points and rows alone. */
  lemma OthersUntouched(spec: Spec, st: Stores, n: nat, other: string)
    requires JobScoped(spec) && other != spec.job
    ensures
      var now := Exec(Config(Begin(spec), st), n).st;
      JobPoints(now.points, other) == JobPoints(st.points, other) && JobRows(now.rows, other) == JobRows(st.rows, other)
  {
    var inv := (d: Config) =>
      && Scoped(d.run) && d.run.spec == spec
      && JobPoints(d.st.points, other) == JobPoints(st.points, other) &&
         JobRows(d.st.rows, other) == JobRows(st.rows, other);
    forall d | inv(d) ensures inv(Step(d)) {
      StepCommutes(d);
      StepFrames(d, other);
    }
    Invariant(Step, inv, Config(Begin(spec), st), n);
  }
}
