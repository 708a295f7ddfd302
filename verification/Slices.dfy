/** A job's slice of the two stores, and the fact that its runs read and write nothing else. */
module Slices {
  import opened Stores
  import opened Guards
  import opened Protocol

  function JobRows(rows: Rows, job: string): Rows {
    map k | k in rows && k.job == job :: rows[k]
  }

  function JobPoints(points: Points, job: string): Points {
    map k | k in points && k.job == job :: points[k]
  }

  function Slice(st: Stores, job: string): Stores {
    Stores(st.dims, JobPoints(st.points, job), JobRows(st.rows, job))
  }

  /** The rebuild of a whole collection is the only thing that reaches beyond the job. */
  predicate JobScoped(spec: Spec) {
    spec.mode == Full ==> !spec.wholeCollection
  }

  lemma OwnRowsDecide(spec: Spec, a: Rows, b: Rows, f: File)
    requires JobRows(a, spec.job) == JobRows(b, spec.job)
    ensures Decide(spec, a, f) == Decide(spec, b, f)
  {
    OwnRows(a, b, spec.job, f.source);
  }

  lemma OwnRows(a: Rows, b: Rows, job: string, s: string)
    requires JobRows(a, job) == JobRows(b, job)
    ensures Tracked(a, job) == Tracked(b, job)
    ensures EmbeddedRows(a, job, s) == EmbeddedRows(b, job, s)
    ensures Lookup(a, job, s) == Lookup(b, job, s)
  {
    forall k: RowKey | k.job == job ensures k in a <==> k in b {
      assert k in a <==> k in JobRows(a, job);
      assert k in b <==> k in JobRows(b, job);
    }
    forall k | k in a && k.job == job ensures k in b && a[k] == b[k] {
      assert a[k] == JobRows(a, job)[k] == JobRows(b, job)[k];
    }
  }

  lemma OwnPoints(a: Points, b: Points, coll: string, job: string)
    requires JobPoints(a, job) == JobPoints(b, job)
    ensures PointSources(a, coll, job) == PointSources(b, coll, job)
  {
    forall k: PointKey | k.job == job ensures k in a <==> k in b {
      assert k in a <==> k in JobPoints(a, job);
      assert k in b <==> k in JobPoints(b, job);
    }
  }

  lemma SliceSlices(st: Stores, job: string)
    ensures JobRows(JobRows(st.rows, job), job) == JobRows(st.rows, job)
    ensures JobPoints(JobPoints(st.points, job), job) == JobPoints(st.points, job)
  {
  }

  /** A step of a job-scoped run, seen on its own slice, is the same step. */
  ghost predicate Commutes(c: Config) {
    var job := c.run.spec.job;
    Step(Config(c.run, Slice(c.st, job))) == Config(Step(c).run, Slice(Step(c).st, job))
  }

  lemma DeleteSlices(points: Points, coll: string, job: string, s: string, j: string)
    ensures JobPoints(DeleteBySource(points, coll, job, s), j) ==
              if j == job then DeleteBySource(JobPoints(points, j), coll, job, s) else JobPoints(points, j)
  {
  }

  lemma UpsertSlices(points: Points, coll: string, job: string, s: string, run: string, chunks: seq<string>, j: string)
    ensures JobPoints(points + DocPoints(coll, job, s, run, chunks), j) ==
              if j == job then JobPoints(points, j) + DocPoints(coll, job, s, run, chunks) else JobPoints(points, j)
  {
  }

  lemma SaveSlices(rows: Rows, k: RowKey, row: Row, j: string)
    ensures JobRows(rows[k := row], j) == if j == k.job then JobRows(rows, j)[k := row] else JobRows(rows, j)
  {
  }

  lemma DropSlices(rows: Rows, k: RowKey, j: string)
    ensures JobRows(rows - {k}, j) == if j == k.job then JobRows(rows, j) - {k} else JobRows(rows, j)
  {
  }

  lemma ScanCommutes(c: Config)
    requires c.run.pc.Scan?
    ensures Commutes(c)
  {
    var spec, i := c.run.spec, c.run.pc.i;
    SliceSlices(c.st, spec.job);
    if i < |spec.files| { OwnRowsDecide(spec, c.st.rows, JobRows(c.st.rows, spec.job), spec.files[i]); }
  }

  lemma VanishCommutes(c: Config)
    requires c.run.pc.Vanish?
    ensures Commutes(c)
  {
    SliceSlices(c.st, c.run.spec.job);
    OwnRows(c.st.rows, JobRows(c.st.rows, c.run.spec.job), c.run.spec.job, "");
  }

  lemma KnownCommutes(c: Config)
    requires c.run.pc.Known?
    ensures Commutes(c)
  {
    var spec := c.run.spec;
    SliceSlices(c.st, spec.job);
    OwnRows(c.st.rows, JobRows(c.st.rows, spec.job), spec.job, "");
    OwnPoints(c.st.points, JobPoints(c.st.points, spec.job), spec.coll, spec.job);
  }

  lemma WorkCommutes(c: Config)
    requires c.run.pc.Work?
    ensures Commutes(c)
  {
    var spec := c.run.spec;
    var Work(i, tasks, sub) := c.run.pc;
    if tasks != [] {
      match tasks[0]
      case Save(s, row) => SaveSlices(c.st.rows, RowKey(spec.job, s), row, spec.job);
      case Drop(s) => DropCommutes(c);
      case Index(s, chunks, row) => IndexCommutes(c);
    }
  }

  lemma DropCommutes(c: Config)
    requires c.run.pc.Work? && c.run.pc.tasks != [] && c.run.pc.tasks[0].Drop?
    ensures Commutes(c)
  {
    var spec, s := c.run.spec, c.run.pc.tasks[0].source;
    DeleteSlices(c.st.points, spec.coll, spec.job, s, spec.job);
    DropSlices(c.st.rows, RowKey(spec.job, s), spec.job);
  }

  lemma IndexCommutes(c: Config)
    requires c.run.pc.Work? && c.run.pc.tasks != [] && c.run.pc.tasks[0].Index?
    ensures Commutes(c)
  {
    var spec := c.run.spec;
    var Index(s, chunks, row) := c.run.pc.tasks[0];
    match c.run.pc.sub
    case First =>
      DeleteSlices(c.st.points, spec.coll, spec.job, s, spec.job);
      SaveSlices(c.st.rows, RowKey(spec.job, s), row.(status := FailedEmbed, chunks := 0), spec.job);
    case Second => UpsertSlices(c.st.points, spec.coll, spec.job, s, spec.run, chunks, spec.job);
    case Third => SaveSlices(c.st.rows, RowKey(spec.job, s), row, spec.job);
  }

  lemma SweepCommutes(c: Config)
    requires c.run.pc.SweepStale? && !c.run.spec.wholeCollection
    ensures Commutes(c)
  {
    assert JobPoints(Step(c).st.points, c.run.spec.job) == Step(Config(c.run, Slice(c.st, c.run.spec.job))).st.points;
  }

  lemma PrepareCommutes(c: Config)
    requires c.run.pc.Admit? || c.run.pc.ForgetRows? || c.run.pc.Ensure?
    ensures Commutes(c)
  {
    assert JobRows(ForgetJob(c.st.rows, c.run.spec.job), c.run.spec.job) == map[];
    assert ForgetJob(JobRows(c.st.rows, c.run.spec.job), c.run.spec.job) == map[];
  }

  /** The program counters a job-scoped run visits. */
  predicate Scoped(r: Run) {
    && JobScoped(r.spec)
    && !r.pc.DropColl? && !r.pc.CreateColl? && !r.pc.ForgetColl?
    && (r.pc.SweepStale? || r.pc.ForgetRows? ==> r.spec.mode == Full)
  }

  lemma StepCommutes(c: Config)
    requires Scoped(c.run)
    ensures Commutes(c) && Scoped(Step(c).run)
  {
    match c.run.pc
    case Scan(_) => ScanCommutes(c);
    case Work(_, _, _) => WorkCommutes(c);
    case Vanish => VanishCommutes(c);
    case SweepStale => SweepCommutes(c);
    case Known => KnownCommutes(c);
    case Ended(_) =>
    case _ => PrepareCommutes(c);
  }

  /** Nothing of another job changes, and an existing collection keeps its dimension. */
  lemma StepFrames(c: Config, other: string)
    requires Scoped(c.run) && other != c.run.spec.job
    ensures JobPoints(Step(c).st.points, other) == JobPoints(c.st.points, other)
    ensures JobRows(Step(c).st.rows, other) == JobRows(c.st.rows, other)
    ensures c.run.spec.coll in c.st.dims ==> Step(c).st.dims == c.st.dims
  {
    if c.run.pc.Work? && c.run.pc.tasks != [] { WorkFrames(c, other); }
  }

  lemma WorkFrames(c: Config, other: string)
    requires c.run.pc.Work? && c.run.pc.tasks != [] && other != c.run.spec.job
    ensures Slice(WorkStep(c).st, other) == Slice(c.st, other)
  {
    var spec := c.run.spec;
    match c.run.pc.tasks[0]
    case Save(s, row) => SaveSlices(c.st.rows, RowKey(spec.job, s), row, other);
    case Drop(s) =>
      DeleteSlices(c.st.points, spec.coll, spec.job, s, other);
      DropSlices(c.st.rows, RowKey(spec.job, s), other);
    case Index(s, chunks, row) =>
      match c.run.pc.sub
      case First =>
        DeleteSlices(c.st.points, spec.coll, spec.job, s, other);
        SaveSlices(c.st.rows, RowKey(spec.job, s), row.(status := FailedEmbed, chunks := 0), other);
      case Second => UpsertSlices(c.st.points, spec.coll, spec.job, s, spec.run, chunks, other);
      case Third => SaveSlices(c.st.rows, RowKey(spec.job, s), row, other);
  }
}
