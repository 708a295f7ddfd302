/**
 The row of a document commits only after all its points are written. Consequence: at every
 instant of every run at most one indexed row of the whole database disagrees with the points,
 and it is the row of the document in hand. The one exception is the rebuild of a collection.
 */
module Agreement {
  import opened Stores
  import opened Machines
  import opened Order
  import opened Protocol

  /** An indexed row counts exactly the points of its document, all written by its last run. */
  ghost predicate Agrees(st: Stores, k: RowKey) {
    k in st.rows && st.rows[k].status == Indexed ==>
      var row := st.rows[k];
      forall i: nat ::
        && (PointKey(row.collection, k.job, k.source, i) in st.points <==> i < row.chunks)
        && (PointKey(row.collection, k.job, k.source, i) in st.points ==>
              st.points[PointKey(row.collection, k.job, k.source, i)].run == row.run)
  }

  /** The document whose points are currently ahead of its row. */
  function InHand(r: Run): Option<RowKey> {
    match r.pc
    case Work(_, tasks, sub) =>
      if tasks == [] || sub == First || tasks[0].Save? then None else Some(RowKey(r.spec.job, tasks[0].source))
    case _ => None
  }

  /** Between dropping a collection and forgetting its rows. */
  predicate Rebuilding(r: Run) {
    r.pc == CreateColl || r.pc == ForgetColl
  }

  // ---- the step invariant

  ghost predicate TaskSound(spec: Spec, rows: Rows, t: Task) {
    match t
    case Save(s, row) =>
      var k := RowKey(spec.job, s);
      || (row.status != Indexed && row.run == spec.run)
      || (k in rows && row == rows[k].(size := row.size, mtime := row.mtime, content := row.content))
    case Index(s, chunks, row) =>
      row.status == Indexed && row.chunks == |chunks| && row.run == spec.run && row.collection == spec.coll
    case Drop(_) => true
  }

  /** A `Save` stands alone, so the row it refreshes is still the row it was computed from. */
  ghost predicate TasksSound(spec: Spec, rows: Rows, tasks: seq<Task>) {
    forall t | t in tasks :: TaskSound(spec, rows, t) && (t.Save? ==> tasks == [t])
  }

  /** What the finished sub-steps of the task in hand have done to its points. */
  ghost predicate HandSound(spec: Spec, st: Stores, t: Task, sub: Sub) {
    match t
    case Save(_, _) => sub == First
    case Drop(s) => sub != Third
    case Index(s, chunks, row) =>
      && (sub == Second ==> forall i: nat :: PointKey(spec.coll, spec.job, s, i) !in st.points)
      && (sub == Third ==>
            && Holds(st.points, spec.coll, spec.job, s, chunks)
            && Stamped(st.points, spec.coll, spec.job, s, spec.run))
  }

  /** A full run has forgotten every row its sweep could strand. */
  ghost predicate RowsFresh(spec: Spec, rows: Rows) {
    forall k | k in rows && rows[k].collection == spec.coll && (spec.wholeCollection || k.job == spec.job) ::
      rows[k].run == spec.run
  }

  ghost predicate Inv(c: Config) {
    var r, spec := c.run, c.run.spec;
    && (forall k | InHand(r) != Some(k) && !(Rebuilding(r) && k in c.st.rows && c.st.rows[k].collection == spec.coll) ::
          Agrees(c.st, k))
    && match r.pc
       case Work(i, tasks, sub) =>
         && TasksSound(spec, c.st.rows, tasks)
         && (if tasks == [] then sub == First else HandSound(spec, c.st, tasks[0], sub))
         && (spec.mode == Full ==> spec.dryRun || RowsFresh(spec, c.st.rows))
       case Scan(i) => spec.mode == Full ==> spec.dryRun || RowsFresh(spec, c.st.rows)
       case Ensure => spec.mode == Full ==> RowsFresh(spec, c.st.rows)
       case Known => spec.mode == Append
       case Vanish => spec.mode == Upsert
       case ForgetRows => !spec.wholeCollection
       case DropColl => spec.wholeCollection
       case CreateColl => spec.wholeCollection
       case ForgetColl => spec.wholeCollection
       case SweepStale => RowsFresh(spec, c.st.rows)
       case _ => true
  }

  lemma {:induction false} AttachmentTasksSound(spec: Spec, rows: Rows, f: File, embedded: seq<Attachment>)
    ensures forall t | t in AttachmentTasks(spec, f, embedded) :: t.Index? && TaskSound(spec, rows, t)
  {
    if embedded != [] { AttachmentTasksSound(spec, rows, f, embedded[1..]); }
  }

  lemma IndexPlanSound(spec: Spec, rows: Rows, f: File, e: Extraction)
    requires e.Extracted?
    ensures TasksSound(spec, rows, IndexPlan(spec, rows, f, e).tasks)
  {
    AttachmentTasksSound(spec, rows, f, e.embedded);
    TasksSoundJoin(spec, rows, AttachmentTasks(spec, f, e.embedded),
                   Drops(Sorted(EmbeddedRows(rows, spec.job, f.source) - AttachmentNames(f, e.embedded))));
  }

  lemma TasksSoundJoin(spec: Spec, rows: Rows, tasks: seq<Task>, drops: seq<Task>)
    requires (forall t | t in tasks :: t.Index? && TaskSound(spec, rows, t)) && (forall t | t in drops :: t.Drop?)
    ensures forall t | t in tasks + drops :: !t.Save? && TaskSound(spec, rows, t)
  {
  }

  lemma DecideSound(spec: Spec, rows: Rows, f: File)
    ensures TasksSound(spec, rows, Decide(spec, rows, f).tasks)
  {
    var e := spec.extract(f.source, f.content, spec.params);
    if e.Extracted? { IndexPlanSound(spec, rows, f, e); }
  }

  lemma SaveKeeps(c: Config)
    requires c.run.pc.Work? && c.run.pc.tasks != [] && c.run.pc.tasks[0].Save? && Inv(c)
    ensures Inv(WorkStep(c))
  {
  }

  lemma DropKeeps(c: Config)
    requires c.run.pc.Work? && c.run.pc.tasks != [] && c.run.pc.tasks[0].Drop? && Inv(c)
    ensures Inv(WorkStep(c))
  {
  }

  lemma IndexFirstKeeps(c: Config)
    requires c.run.pc.Work? && c.run.pc.tasks != [] && c.run.pc.tasks[0].Index? && c.run.pc.sub == First && Inv(c)
    ensures Inv(WorkStep(c))
  {
  }

  lemma IndexSecondKeeps(c: Config)
    requires c.run.pc.Work? && c.run.pc.tasks != [] && c.run.pc.tasks[0].Index? && c.run.pc.sub == Second && Inv(c)
    ensures Inv(WorkStep(c))
  {
  }

  lemma IndexThirdKeeps(c: Config)
    requires c.run.pc.Work? && c.run.pc.tasks != [] && c.run.pc.tasks[0].Index? && c.run.pc.sub == Third && Inv(c)
    ensures Inv(WorkStep(c))
  {
  }

  lemma WorkKeeps(c: Config)
    requires c.run.pc.Work? && Inv(c)
    ensures Inv(WorkStep(c))
  {
    var Work(_, tasks, sub) := c.run.pc;
    if tasks != [] {
      match tasks[0]
      case Save(_, _) => SaveKeeps(c);
      case Drop(_) => DropKeeps(c);
      case Index(_, _, _) =>
        match sub
        case First => IndexFirstKeeps(c);
        case Second => IndexSecondKeeps(c);
        case Third => IndexThirdKeeps(c);
    }
  }

  lemma PrepareKeeps(c: Config)
    requires Inv(c)
    requires !c.run.pc.Work? && !c.run.pc.Scan? && !c.run.pc.Vanish? && !c.run.pc.SweepStale? && !c.run.pc.Ended?
    ensures Inv(Prepare(c))
  {
  }

  lemma SweepKeeps(c: Config)
    requires Inv(c) && c.run.pc.SweepStale?
    ensures Inv(Step(c))
  {
  }

  lemma ScanKeeps(c: Config)
    requires Inv(c) && c.run.pc.Scan?
    ensures Inv(Step(c))
  {
    var i := c.run.pc.i;
    if i < |c.run.spec.files| { DecideSound(c.run.spec, c.st.rows, c.run.spec.files[i]); }
  }

  lemma VanishKeeps(c: Config)
    requires Inv(c) && c.run.pc.Vanish?
    ensures Inv(Step(c))
  {
  }

  lemma StepKeeps(c: Config)
    requires Inv(c)
    ensures Inv(Step(c))
  {
    match c.run.pc
    case Work(_, _, _) => WorkKeeps(c);
    case Scan(_) => ScanKeeps(c);
    case SweepStale => SweepKeeps(c);
    case Vanish => VanishKeeps(c);
    case Ended(_) =>
    case _ => PrepareKeeps(c);
  }

  lemma Always(spec: Spec, st: Stores, n: nat)
    requires forall k :: Agrees(st, k)
    ensures Inv(Exec(Config(Begin(spec), st), n)) && Exec(Config(Begin(spec), st), n).run.spec == spec
  {
    var inv := (d: Config) => Inv(d) && d.run.spec == spec;
    forall d | inv(d) ensures inv(Step(d)) { StepKeeps(d); }
    Invariant(Step, inv, Config(Begin(spec), st), n);
  }

  // ---- main results

  /**
   From a state where all rows agree, any run stopped anywhere leaves at most one row that
   disagrees, and only while the document in hand is between its delete and its commit.
   */
  lemma AtMostOneRowDisagrees(spec: Spec, st: Stores, n: nat, j: RowKey, k: RowKey)
    requires forall m :: Agrees(st, m)
    ensures
      var c := Exec(Config(Begin(spec), st), n);
      !Rebuilding(c.run) ==>
        && (!Agrees(c.st, k) ==> InHand(c.run) == Some(k))
        && (!Agrees(c.st, j) && !Agrees(c.st, k) ==> j == k)
  {
    Always(spec, st, n);
  }

  /**
   The exception, exactly: while a collection is being rebuilt its points are gone and its rows
   are not, so a row of that collection agrees iff it is not indexed or counts no chunks. A stop
   here is the one stop that loses a whole corpus.
   */
  lemma RebuildStrandsRows(c: Config, k: RowKey)
    requires c.run.pc == DropColl && k in c.st.rows && c.st.rows[k].collection == c.run.spec.coll
    ensures Rebuilding(Step(c).run) && Step(c).st.rows == c.st.rows
    ensures Agrees(Step(c).st, k) <==> c.st.rows[k].status != Indexed || c.st.rows[k].chunks == 0
  {
    var after := Step(c).st;
    assert PointKey(c.run.spec.coll, k.job, k.source, 0) !in after.points;
    assert forall i: nat :: PointKey(c.run.spec.coll, k.job, k.source, i) !in after.points;
  }
}
