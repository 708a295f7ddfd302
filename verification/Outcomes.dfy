/**
 How a run ends. The results about successful runs would be empty promises if runs did not succeed:
 every run ends, and one the world does not hinder ends in success unless the deletion guard stops it.
 */
module Outcomes {
  import opened Stores
  import opened Machines
  import opened Guards
  import opened Protocol
  import opened Incremental

  /** The collection is absent, or is the model's by dimension and record, or will be rebuilt with it. */
  predicate Fitting(spec: Spec, dims: map<string, nat>) {
    Rebuilds(spec) || (spec.coll in dims ==> dims[spec.coll] == spec.dim && spec.admitted)
  }

  predicate Refused(spec: Spec) {
    spec.mode == Full && spec.wholeCollection && spec.siblings && !spec.force
  }

  /** Nothing outside the run gets in its way. */
  predicate Unhindered(spec: Spec) {
    spec.ready && spec.aborts == {} && spec.down == {} && !Refused(spec)
  }

  /** The guard has no say: forced, and the tree is not empty where an empty one is guarded against. */
  predicate Unguarded(spec: Spec) {
    spec.force && (!spec.emptyGuard || spec.files != [])
  }

  ghost predicate Inv(c: Config) {
    var r, spec := c.run, c.run.spec;
    && Unhindered(spec)
    && match r.pc
       case Admit => spec.dryRun || Fitting(spec, c.st.dims)
       case DropColl => Rebuilds(spec)
       case CreateColl => Rebuilds(spec)
       case ForgetColl => Rebuilds(spec) && spec.coll in c.st.dims && c.st.dims[spec.coll] == spec.dim
       case ForgetRows => !spec.wholeCollection && Fitting(spec, c.st.dims)
       case Ensure =>
         spec.coll in c.st.dims ==> c.st.dims[spec.coll] == spec.dim && (spec.admitted || Rebuilds(spec))
       case Scan(i) => i > 0 && spec.files != [] ==> r.seen != {}
       case Work(i, _, _) => spec.files != [] ==> r.seen != {}
       case Vanish => spec.mode == Upsert && spec.deleteVanished && (spec.files != [] ==> r.seen != {})
       case Ended(o) =>
         o == Success || (o == AbortedGuard && spec.mode == Upsert && spec.deleteVanished && !Unguarded(spec))
       case _ => true
  }

  lemma WorkKeeps(c: Config)
    requires Inv(c) && c.run.pc.Work?
    ensures Inv(WorkStep(c))
  {
  }

  lemma StepKeeps(c: Config)
    requires Inv(c)
    ensures Inv(Step(c))
  {
    if c.run.pc.Work? { WorkKeeps(c); }
    else if c.run.pc.Vanish? { VanishKeeps(c); }
  }

  lemma VanishKeeps(c: Config)
    requires Inv(c) && c.run.pc.Vanish?
    ensures Inv(Step(c))
  {
  }

  lemma Always(spec: Spec, st: Stores, n: nat)
    requires Unhindered(spec) && Fitting(spec, st.dims)
    ensures Inv(Exec(Config(Begin(spec), st), n)) && Exec(Config(Begin(spec), st), n).run.spec == spec
  {
    var inv := (d: Config) => Inv(d) && d.run.spec == spec;
    forall d | inv(d) ensures inv(Step(d)) { StepKeeps(d); }
    Invariant(Step, inv, Config(Begin(spec), st), n);
  }

  /**
   An unhindered run with a fitting collection ends, and ends in success, except that an upsert whose
   deletion the guard may judge can end refused by it.
   */
  lemma UnhinderedRunSucceeds(spec: Spec, st: Stores) returns (n: nat)
    requires Unhindered(spec) && Fitting(spec, st.dims)
    ensures
      var pc := Exec(Config(Begin(spec), st), n).run.pc;
      pc == Ended(Success) ||
      (pc == Ended(AbortedGuard) && spec.mode == Upsert && spec.deleteVanished && !Unguarded(spec))
  {
    EveryRunEnds(Config(Begin(spec), st));
    n :| Exec(Config(Begin(spec), st), n).run.pc.Ended?;
    Always(spec, st, n);
  }

  // ---- every end, exactly

  /**
   Why a run fails before it looks at a file: a rebuild that would drop other jobs' data unforced, a
   failed sync or probe, or, unless it rebuilds or is dry, a collection of another dimension or model.
   */
  predicate Unprepared(spec: Spec, dims: map<string, nat>) {
    || (spec.mode == Full && spec.wholeCollection && spec.siblings && !spec.force)
    || !spec.ready
    || (!spec.dryRun && !(spec.mode == Full && spec.wholeCollection)
        && spec.coll in dims && (dims[spec.coll] != spec.dim || !spec.admitted))
  }

  /** An abort is requested before one of the first `k` files. */
  ghost predicate AbortedBefore(spec: Spec, k: nat) {
    exists j | 0 <= j < k && j < |spec.files| :: j in spec.aborts
  }

  /** Where a run can be, from stores with these collections. */
  ghost predicate Course(c: Config, dims: map<string, nat>) {
    var spec := c.run.spec;
    && match c.run.pc
       case Admit => c.st.dims == dims
       case DropColl => !Unprepared(spec, dims) && Rebuilds(spec) && !spec.dryRun
       case CreateColl => !Unprepared(spec, dims) && Rebuilds(spec) && !spec.dryRun
       case ForgetColl =>
         && !Unprepared(spec, dims) && Rebuilds(spec) && !spec.dryRun
         && spec.coll in c.st.dims && c.st.dims[spec.coll] == spec.dim
       case ForgetRows => spec.ready && !spec.dryRun && !Rebuilds(spec) && c.st.dims == dims
       case Ensure =>
         && spec.ready && !spec.dryRun
         && if Rebuilds(spec) then
              !Unprepared(spec, dims) && spec.coll in c.st.dims && c.st.dims[spec.coll] == spec.dim
            else c.st.dims == dims
       case Known => !Unprepared(spec, dims)
       case Scan(i) => !Unprepared(spec, dims) && !AbortedBefore(spec, i)
       case Work(i, tasks, _) =>
         !Unprepared(spec, dims) && !AbortedBefore(spec, i + 1) && (tasks != [] ==> !spec.dryRun)
       case Vanish =>
         && !Unprepared(spec, dims) && !AbortedBefore(spec, |spec.files|)
         && spec.mode == Upsert && !spec.dryRun && spec.deleteVanished
       case SweepStale => !Unprepared(spec, dims) && !AbortedBefore(spec, |spec.files|)
       case Ended(o) => EndsSo(spec, dims, o)
  }

  ghost predicate EndsSo(spec: Spec, dims: map<string, nat>, o: Protocol.Outcome) {
    match o
    case Failed => Unprepared(spec, dims) || (!spec.dryRun && spec.down != {})
    case Interrupted => !Unprepared(spec, dims) && AbortedBefore(spec, |spec.files|)
    case Success => !Unprepared(spec, dims) && !AbortedBefore(spec, |spec.files|)
    case AbortedGuard =>
      && !Unprepared(spec, dims) && !AbortedBefore(spec, |spec.files|)
      && spec.mode == Upsert && !spec.dryRun && spec.deleteVanished
  }

  lemma ScanStaysOnCourse(c: Config, dims: map<string, nat>)
    requires Course(c, dims) && c.run.pc.Scan?
    ensures Course(Step(c), dims)
  {
  }

  lemma WorkStaysOnCourse(c: Config, dims: map<string, nat>)
    requires Course(c, dims) && c.run.pc.Work?
    ensures Course(WorkStep(c), dims)
  {
  }

  lemma VanishStaysOnCourse(c: Config, dims: map<string, nat>)
    requires Course(c, dims) && c.run.pc.Vanish?
    ensures Course(Step(c), dims)
  {
    VanishIsJudged(c);
    JudgedOnCourse(c, Step(c), dims);
  }

  lemma JudgedOnCourse(c: Config, d: Config, dims: map<string, nat>)
    requires Course(c, dims) && c.run.pc.Vanish? && Judged(c, d)
    ensures Course(d, dims)
  {
  }

  lemma StaysOnCourse(c: Config, dims: map<string, nat>)
    requires Course(c, dims)
    ensures Course(Step(c), dims)
  {
    match c.run.pc
    case Scan(_) => ScanStaysOnCourse(c, dims);
    case Work(_, _, _) => WorkStaysOnCourse(c, dims);
    case Vanish => VanishStaysOnCourse(c, dims);
    case _ =>
  }

  /**
   How a run ends, exactly. It fails before the first file if it is unprepared, and afterwards only over
   a dead embedder; it is interrupted only if an abort is requested before one of its files, and then
   never succeeds; the guard ends only upserts that may delete. A dry run or one whose embedder answers
   ends failed, interrupted or through to the end exactly as preparation and aborts say.
   */
  lemma EndsExactly(spec: Spec, st: Stores, n: nat)
    requires Exec(Config(Begin(spec), st), n).run.pc.Ended?
    ensures
      var o := Exec(Config(Begin(spec), st), n).run.pc.outcome;
      var aborted := exists j | 0 <= j < |spec.files| :: j in spec.aborts;
      && (Unprepared(spec, st.dims) ==> o == Failed)
      && (o == Failed ==> Unprepared(spec, st.dims) || (!spec.dryRun && spec.down != {}))
      && (o == Interrupted ==> aborted) && (o == Success || o == AbortedGuard ==> !aborted)
      && (o == AbortedGuard ==> spec.mode == Upsert && !spec.dryRun && spec.deleteVanished)
      && (spec.dryRun || spec.down == {} ==>
            && (o == Failed <==> Unprepared(spec, st.dims))
            && (o == Interrupted <==> aborted && !Unprepared(spec, st.dims)))
  {
    EndsOnCourse(spec, st, n);
    EndInWords(spec, st.dims, Exec(Config(Begin(spec), st), n).run.pc.outcome);
  }

  lemma EndsOnCourse(spec: Spec, st: Stores, n: nat)
    ensures
      var pc := Exec(Config(Begin(spec), st), n).run.pc;
      pc.Ended? ==> EndsSo(spec, st.dims, pc.outcome)
  {
    var inv := (d: Config) => Course(d, st.dims) && d.run.spec == spec;
    forall d | inv(d) ensures inv(Step(d)) { StaysOnCourse(d, st.dims); }
    Invariant(Step, inv, Config(Begin(spec), st), n);
  }

  lemma EndInWords(spec: Spec, dims: map<string, nat>, o: Protocol.Outcome)
    requires EndsSo(spec, dims, o)
    ensures
      var aborted := exists j | 0 <= j < |spec.files| :: j in spec.aborts;
      && (Unprepared(spec, dims) ==> o == Failed)
      && (o == Failed ==> Unprepared(spec, dims) || (!spec.dryRun && spec.down != {}))
      && (o == Interrupted ==> aborted) && (o == Success || o == AbortedGuard ==> !aborted)
      && (o == AbortedGuard ==> spec.mode == Upsert && !spec.dryRun && spec.deleteVanished)
      && (spec.dryRun || spec.down == {} ==>
            && (o == Failed <==> Unprepared(spec, dims))
            && (o == Interrupted <==> aborted && !Unprepared(spec, dims)))
  {
    assert AbortedBefore(spec, |spec.files|) <==> exists j | 0 <= j < |spec.files| :: j in spec.aborts;
  }

  // ---- what an unprepared run leaves

  ghost predicate Spared(c: Config, st: Stores) {
    var spec := c.run.spec;
    && Unprepared(spec, st.dims) && c.st.dims == st.dims && c.st.points == st.points
    && match c.run.pc
       case Admit => c.st == st
       case ForgetRows => c.st == st && spec.ready && !spec.dryRun && spec.mode == Full && !spec.wholeCollection
       case Ensure =>
         && spec.ready && !spec.dryRun && !Rebuilds(spec)
         && c.st.rows == (if spec.mode == Full then ForgetJob(st.rows, spec.job) else st.rows)
       case Ended(o) =>
         && o == Failed
         && c.st.rows == if spec.mode == Full && !spec.wholeCollection && spec.ready && !spec.dryRun then
                           ForgetJob(st.rows, spec.job) else st.rows
       case _ => false
  }

  lemma StaysSpared(c: Config, st: Stores)
    requires Spared(c, st)
    ensures Spared(Step(c), st)
  {
  }

  /**
   A run that fails before its first file leaves collections and points as they were, and the rows too,
   with one exception: a full run of one job has forgotten the job's rows before the collection turns
   out to be of another dimension or model.
   */
  lemma UnpreparedSpares(spec: Spec, st: Stores, n: nat)
    requires Unprepared(spec, st.dims) && Exec(Config(Begin(spec), st), n).run.pc.Ended?
    ensures
      var forgets := spec.mode == Full && !spec.wholeCollection && spec.ready && !spec.dryRun;
      Exec(Config(Begin(spec), st), n).st ==
        if forgets then st.(rows := map k | k in st.rows && k.job != spec.job :: st.rows[k]) else st
  {
    var inv := (d: Config) => Spared(d, st) && d.run.spec == spec;
    forall d | inv(d) ensures inv(Step(d)) { StaysSpared(d, st); }
    Invariant(Step, inv, Config(Begin(spec), st), n);
  }

  // ---- a tree nothing happened to

  /** Every file still has the stat and parameters of its row, and every row has a file or a container. */
  ghost predicate Unchanged(spec: Spec, rows: Rows) {
    && (forall f | f in spec.files ::
          && f.size <= spec.maxBytes
          && RowKey(spec.job, f.source) in rows
          && (var row := rows[RowKey(spec.job, f.source)];
              row.params == spec.params && row.size == f.size && row.mtime == f.mtime))
    && (forall t | t in Tracked(rows, spec.job) :: exists f :: f in spec.files && Accounts(rows, spec.job, f, t))
  }

  /** The sources one unchanged file accounts for: itself and its tracked attachments. */
  predicate Accounts(rows: Rows, job: string, f: File, t: string) {
    t == f.source || t in EmbeddedRows(rows, job, f.source)
  }

  ghost predicate SeenUpTo(c: Config, i: nat) {
    forall j, t | 0 <= j < i && j < |c.run.spec.files| && Accounts(c.st.rows, c.run.spec.job, c.run.spec.files[j], t) ::
      t in c.run.seen
  }

  ghost predicate Quiet(c: Config, st: Stores) {
    var spec := c.run.spec;
    && c.st == st && Unhindered(spec) && spec.mode == Upsert && Unchanged(spec, st.rows)
    && spec.coll in st.dims && Fitting(spec, st.dims)
    && match c.run.pc
       case Admit => true
       case Ensure => true
       case Scan(i) => i <= |spec.files| && SeenUpTo(c, i)
       case Work(i, tasks, _) => tasks == [] && i < |spec.files| && SeenUpTo(c, i + 1)
       case Vanish => SeenUpTo(c, |spec.files|)
       case Ended(o) => o == Success
       case _ => false
  }

  lemma QuietVanish(c: Config, st: Stores)
    requires Quiet(c, st) && c.run.pc.Vanish?
    ensures Quiet(Step(c), st)
  {
    var spec := c.run.spec;
    forall t | t in Tracked(st.rows, spec.job) ensures t in c.run.seen {
      var f :| f in spec.files && Accounts(st.rows, spec.job, f, t);
      var j :| 0 <= j < |spec.files| && spec.files[j] == f;
      assert Accounts(c.st.rows, spec.job, spec.files[j], t);
    }
  }

  lemma QuietScan(c: Config, st: Stores)
    requires Quiet(c, st) && c.run.pc.Scan?
    ensures Quiet(Step(c), st)
  {
    var spec, i := c.run.spec, c.run.pc.i;
    if i < |spec.files| {
      var f := spec.files[i];
      assert f in spec.files;
      assert Decide(spec, st.rows, f) == Plan([], {f.source} + EmbeddedRows(st.rows, spec.job, f.source));
    }
  }

  lemma QuietStep(c: Config, st: Stores)
    requires Quiet(c, st)
    ensures Quiet(Step(c), st)
  {
    match c.run.pc
    case Vanish => QuietVanish(c, st);
    case Scan(_) => QuietScan(c, st);
    case _ =>
  }

  /**
   An upsert over a tree nothing happened to changes neither store at any step, and no deletion is
   asked of the guard, attachments included and whatever the sources look like.
   */
  lemma UnchangedTreeIsLeftAlone(spec: Spec, st: Stores, n: nat)
    requires Unhindered(spec) && spec.mode == Upsert && Unchanged(spec, st.rows)
    requires spec.coll in st.dims && Fitting(spec, st.dims)
    ensures
      var c := Exec(Config(Begin(spec), st), n);
      c.st == st && (c.run.pc.Ended? ==> c.run.pc == Ended(Success))
  {
    var inv := (d: Config) => Quiet(d, st) && d.run.spec == spec;
    forall d | inv(d) ensures inv(Step(d)) { QuietStep(d, st); }
    Invariant(Step, inv, Config(Begin(spec), st), n);
  }
}
