/**
 What a successful run computes, for job-scoped runs without attachments over trees whose files
 fit and extract to text: incremental runs and full runs end in the same documents and rows, and
 a run stopped anywhere and then repeated ends where the uninterrupted run would have.
 */
module Convergence {
  import opened Stores
  import opened Guards
  import opened Order
  import opened Machines
  import opened Protocol

  // ---- the tree a run should end in

  function TextOf(spec: Spec, f: File): string {
    if Reading(spec, f).Extracted? then Reading(spec, f).text else ""
  }

  function ChunksOf(spec: Spec, f: File): seq<string> {
    if Reading(spec, f).Extracted? then Reading(spec, f).chunks else []
  }

  /** The chunks the tree gives a source; none when the source is not in the tree. */
  ghost function Document(spec: Spec, s: string): seq<string> {
    if s in Sources(spec.files) then
      var f :| f in spec.files && f.source == s;
      ChunksOf(spec, f)
    else []
  }

  /** The row of an indexed file, whichever run wrote it. */
  ghost predicate RowOf(spec: Spec, f: File, row: Row) {
    row == IndexedRow(spec, f, TextOf(spec, f), |ChunksOf(spec, f)|).(run := row.run)
  }

  /** The job's rows and points are exactly those of the tree, up to run ids. */
  ghost predicate Mirrors(spec: Spec, st: Stores) {
    && (forall s :: Holds(st.points, spec.coll, spec.job, s, Document(spec, s)))
    && Tracked(st.rows, spec.job) == Sources(spec.files)
    && (forall f | f in spec.files ::
          RowKey(spec.job, f.source) in st.rows && RowOf(spec, f, st.rows[RowKey(spec.job, f.source)]))
  }

  // ---- hypotheses

  ghost predicate Plain(s: string) {
    '!' !in s
  }

  /** Every file fits and extracts; sources are distinct and are not attachment names. */
  ghost predicate Readable(spec: Spec) {
    && (forall i, j | 0 <= i < j < |spec.files| :: spec.files[i].source != spec.files[j].source)
    && (forall f | f in spec.files :: f.size <= spec.maxBytes && Reading(spec, f).Extracted? && Plain(f.source))
    && (forall f | f in spec.files :: f.source !in spec.short)
  }

  /** A run that writes and, if an upsert, deletes what vanished. */
  predicate Ordinary(spec: Spec) {
    && !spec.expand && !spec.dryRun
    && (spec.mode == Full || (spec.mode == Upsert && spec.deleteVanished))
  }

  /** For one source, equal texts are chunked equally (no deck title from the container). */
  ghost predicate TextDetermines(spec: Spec) {
    forall s, c, d | spec.extract(s, c, spec.params).Extracted? && spec.extract(s, d, spec.params).Extracted? ::
      spec.extract(s, c, spec.params).text == spec.extract(s, d, spec.params).text ==>
        spec.extract(s, c, spec.params).chunks == spec.extract(s, d, spec.params).chunks
  }

  /** An unchanged stat means unchanged content. */
  ghost predicate StatFaithful(spec: Spec, rows: Rows) {
    forall f | f in spec.files && RowKey(spec.job, f.source) in rows ::
      var row := rows[RowKey(spec.job, f.source)];
      SameStat(spec, row, f) && row.content != Blank ==> row.content == Sha256(f.content)
  }

  /** A row says what extraction says, and an indexed row is matched by its points. */
  ghost predicate RowTrue(spec: Spec, points: Points, s: string, row: Row) {
    && Plain(s) && row.collection == spec.coll
    && row.status != FailedEmbed
    && (row.status == TooLarge ==> row.content == Blank && row.size > spec.maxBytes)
    && (row.status != TooLarge ==>
          && row.content != Blank
          && var e := spec.extract(s, row.content.of, row.params);
             && (row.status == FailedExtract ==> e.Broken?)
             && (row.status == Unsupported ==> e.Unreadable?)
             && (row.status == NoText ==> e.Textless?)
             && (row.status == Indexed ==>
                   && e.Extracted? && row.text == Sha256(e.text) && row.chunks == |e.chunks|
                   && Holds(points, spec.coll, spec.job, s, e.chunks)))
  }

  /** Every point's source has a row, and every row is true. */
  ghost predicate Sound(spec: Spec, st: Stores) {
    && PointSources(st.points, spec.coll, spec.job) <= Tracked(st.rows, spec.job)
    && (forall k | k in st.rows && k.job == spec.job :: RowTrue(spec, st.points, k.source, st.rows[k]))
  }

  // ---- the invariant

  /** The change detector will index this file. */
  predicate Reindexes(spec: Spec, rows: Rows, f: File) {
    var prev := Lookup(rows, spec.job, f.source);
    prev == None ||
    !(SameStat(spec, prev.value, f) || SameContent(spec, prev.value, f) || SameText(spec, prev.value, TextOf(spec, f)))
  }

  /** The file's row and points already say what indexing it would say, stat apart. */
  ghost predicate Settled(spec: Spec, st: Stores, f: File) {
    var k := RowKey(spec.job, f.source);
    && k in st.rows
    && var row := st.rows[k];
       && row.status == Indexed && row.collection == spec.coll && row.params == spec.params
       && row.text == Sha256(TextOf(spec, f)) && row.chunks == |ChunksOf(spec, f)|
       && (SameStat(spec, row, f) ==> row.content == Sha256(f.content))
       && Holds(st.points, spec.coll, spec.job, f.source, ChunksOf(spec, f))
       && (spec.mode == Full ==> Stamped(st.points, spec.coll, spec.job, f.source, spec.run))
  }

  ghost predicate NoPoints(spec: Spec, st: Stores, s: string) {
    forall i: nat :: PointKey(spec.coll, spec.job, s, i) !in st.points
  }

  /**
   The state from which a run over this tree ends in the tree: each file is settled or will be
   indexed, and nothing else can survive the run's deletion phase.
   */
  ghost predicate Good(spec: Spec, st: Stores) {
    && (forall f | f in spec.files :: Reindexes(spec, st.rows, f) || Settled(spec, st, f))
    && (forall s | s in Tracked(st.rows, spec.job) :: Plain(s))
    && (spec.mode == Upsert ==>
          forall s | s !in Sources(spec.files) :: s in Tracked(st.rows, spec.job) || NoPoints(spec, st, s))
    && (spec.mode == Full ==>
          && Tracked(st.rows, spec.job) <= Sources(spec.files)
          && forall k | k in st.points && k.coll == spec.coll && k.job == spec.job && st.points[k].run == spec.run ::
               k.source in Sources(spec.files))
  }

  /** The file is finished. */
  ghost predicate Done(spec: Spec, st: Stores, f: File) {
    Settled(spec, st, f) && RowOf(spec, f, st.rows[RowKey(spec.job, f.source)])
  }

  ghost predicate DoneUpTo(spec: Spec, st: Stores, i: nat) {
    forall j | 0 <= j < i && j < |spec.files| :: Done(spec, st, spec.files[j])
  }

  ghost predicate FreshRun(spec: Spec, st: Stores) {
    forall k | k in st.points && k.coll == spec.coll && k.job == spec.job :: st.points[k].run != spec.run
  }

  ghost predicate OneCollection(spec: Spec, rows: Rows) {
    forall k | k in rows && k.job == spec.job :: rows[k].collection == spec.coll
  }

  /**
   Where a run may start. A full run needs only a run id no point carries yet, a rebuild that the
   job's rows name its one collection.
   */
  ghost predicate Startable(spec: Spec, st: Stores) {
    if spec.mode != Full then Good(spec, st)
    else if spec.wholeCollection then OneCollection(spec, st.rows)
    else FreshRun(spec, st)
  }

  /** The tasks of file `f`, at most one. */
  ghost predicate FileWork(spec: Spec, st: Stores, f: File, tasks: seq<Task>, sub: Sub) {
    if tasks == [] then sub == First && Done(spec, st, f)
    else
      && |tasks| == 1
      && match tasks[0]
         case Save(s, row) =>
           sub == First && s == f.source && Settled(spec, st, f) && RowOf(spec, f, row)
         case Index(s, chunks, row) =>
           && s == f.source && chunks == ChunksOf(spec, f) && RowOf(spec, f, row)
           && Reindexes(spec, st.rows, f)
           && (sub == Second ==> NoPoints(spec, st, s))
           && (sub == Third ==>
                 && Holds(st.points, spec.coll, spec.job, s, chunks)
                 && Stamped(st.points, spec.coll, spec.job, s, spec.run))
         case Drop(_) => false
  }

  /** The deletion phase: what is tracked and not in the tree is still to be dropped. */
  ghost predicate PurgeWork(spec: Spec, st: Stores, tasks: seq<Task>, sub: Sub) {
    && (forall t | t in tasks :: t.Drop? && t.source !in Sources(spec.files))
    && (forall s | s in Tracked(st.rows, spec.job) :: s in Sources(spec.files) || Drop(s) in tasks)
    && (if tasks == [] then sub == First else sub != Third)
    && (sub == Second ==> NoPoints(spec, st, tasks[0].source))
  }

  ghost predicate Inv(c: Config) {
    var r, st, spec := c.run, c.st, c.run.spec;
    && Ordinary(spec) && Readable(spec)
    && match r.pc
       case Admit => r.seen == {} && Startable(spec, st)
       case ForgetRows => r.seen == {} && spec.mode == Full && FreshRun(spec, st)
       case DropColl => r.seen == {} && spec.mode == Full && OneCollection(spec, st.rows)
       case CreateColl => r.seen == {} && spec.mode == Full && OneCollection(spec, st.rows) && FreshRun(spec, st)
       case ForgetColl => r.seen == {} && spec.mode == Full && OneCollection(spec, st.rows) && FreshRun(spec, st)
       case Ensure => r.seen == {} && Good(spec, st)
       case Scan(i) =>
         i <= |spec.files| && r.seen == Sources(spec.files[..i]) && Good(spec, st) && DoneUpTo(spec, st, i)
       case Work(i, tasks, sub) =>
         && i <= |spec.files| && Good(spec, st) && DoneUpTo(spec, st, i)
         && if i < |spec.files| then
              r.seen == Sources(spec.files[..i + 1]) && FileWork(spec, st, spec.files[i], tasks, sub)
            else spec.mode == Upsert && PurgeWork(spec, st, tasks, sub)
       case Vanish =>
         spec.mode == Upsert && r.seen == Sources(spec.files) && Good(spec, st) && DoneUpTo(spec, st, |spec.files|)
       case SweepStale => spec.mode == Full && Good(spec, st) && DoneUpTo(spec, st, |spec.files|)
       case Ended(o) =>
         && (spec.mode == Upsert ==> Good(spec, st))
         && (o == Success ==>
               && DoneUpTo(spec, st, |spec.files|) && Tracked(st.rows, spec.job) <= Sources(spec.files)
               && forall s | s !in Sources(spec.files) :: NoPoints(spec, st, s))
       case _ => false
  }

  // ---- one lemma per kind of step

  lemma PlainHasNoAttachments(rows: Rows, job: string, s: string)
    requires forall t | t in Tracked(rows, job) :: Plain(t)
    ensures EmbeddedRows(rows, job, s) == {}
  {
    forall t: string | s + "!" <= t ensures !Plain(t) {
      assert t[|s|] == '!';
    }
  }

  lemma ScanFileKeeps(c: Config)
    requires Inv(c) && c.run.pc.Scan? && c.run.pc.i < |c.run.spec.files|
    ensures Inv(Step(c))
  {
    var spec, i := c.run.spec, c.run.pc.i;
    var f := spec.files[i];
    PlainHasNoAttachments(c.st.rows, spec.job, f.source);
    assert spec.files[..i + 1] == spec.files[..i] + [f];
    assert Sources(spec.files[..i + 1]) == Sources(spec.files[..i]) + {f.source};
    if Reindexes(spec, c.st.rows, f) {
      assert Decide(spec, c.st.rows, f) ==
        Plan([Index(f.source, ChunksOf(spec, f), IndexedRow(spec, f, TextOf(spec, f), |ChunksOf(spec, f)|))],
             {f.source});
    } else {
      assert Settled(spec, c.st, f);
    }
  }

  lemma ScanEndKeeps(c: Config)
    requires Inv(c) && c.run.pc.Scan? && c.run.pc.i == |c.run.spec.files|
    ensures Inv(Step(c))
  {
    assert c.run.spec.files[..c.run.pc.i] == c.run.spec.files;
  }

  /** A change to the points of one document does not unsettle another. */
  lemma OthersStaySettled(spec: Spec, st: Stores, points: Points, s: string)
    requires forall k | k in st.points && k.source != s :: k in points && points[k] == st.points[k]
    requires forall k | k in points && k.source != s :: k in st.points
    ensures forall f | f in spec.files && f.source != s && Settled(spec, st, f) ::
              Settled(spec, st.(points := points), f)
    ensures forall t | t != s && NoPoints(spec, st, t) :: NoPoints(spec, st.(points := points), t)
  {
  }

  /** A change to the row of one document does not unsettle another. */
  lemma RowsStaySettled(spec: Spec, st: Stores, rows: Rows, s: string)
    requires forall k: RowKey | k.source != s :: (k in st.rows <==> k in rows) && (k in rows ==> rows[k] == st.rows[k])
    ensures forall f | f in spec.files && f.source != s && Settled(spec, st, f) :: Settled(spec, st.(rows := rows), f)
    ensures forall f | f in spec.files && f.source != s :: Reindexes(spec, rows, f) <==> Reindexes(spec, st.rows, f)
    ensures forall t | t != s :: t in Tracked(rows, spec.job) <==> t in Tracked(st.rows, spec.job)
  {
    forall t: string | t != s ensures t in Tracked(rows, spec.job) <==> t in Tracked(st.rows, spec.job) {
      assert RowKey(spec.job, t) in rows <==> RowKey(spec.job, t) in st.rows;
    }
  }

  lemma DocPointsHold(spec: Spec, st: Stores, s: string, chunks: seq<string>)
    requires NoPoints(spec, st, s)
    ensures
      var points := st.points + DocPoints(spec.coll, spec.job, s, spec.run, chunks);
      Holds(points, spec.coll, spec.job, s, chunks) && Stamped(points, spec.coll, spec.job, s, spec.run)
  {
  }

  ghost predicate FileHead(c: Config) {
    && c.run.pc.Work? && c.run.pc.i < |c.run.spec.files|
    && c.run.pc.tasks != [] && c.run.spec.files[c.run.pc.i].source == c.run.pc.tasks[0].source
  }

  /** Only this document's points and row differ. */
  ghost predicate OnlyAt(st: Stores, now: Stores, s: string) {
    && (forall k: PointKey | k.source != s ::
          (k in st.points <==> k in now.points) && (k in st.points ==> now.points[k] == st.points[k]))
    && (forall k: RowKey | k.source != s ::
          (k in st.rows <==> k in now.rows) && (k in now.rows ==> now.rows[k] == st.rows[k]))
  }

  /** Changing the document in hand keeps the state good as long as the document itself stays so. */
  lemma DocumentChange(spec: Spec, st: Stores, now: Stores, i: nat)
    requires Readable(spec) && i < |spec.files| && Good(spec, st) && DoneUpTo(spec, st, i)
    requires OnlyAt(st, now, spec.files[i].source)
    requires Reindexes(spec, now.rows, spec.files[i]) || Settled(spec, now, spec.files[i])
    ensures Good(spec, now) && DoneUpTo(spec, now, i)
  {
    var s := spec.files[i].source;
    assert spec.files[i] in spec.files;
    OthersStaySettled(spec, st, now.points, s);
    RowsStaySettled(spec, st.(points := now.points), now.rows, s);
    forall f | f in spec.files ensures Reindexes(spec, now.rows, f) || Settled(spec, now, f) {
      if f.source == s { OneFilePerSource(spec, f, i); }
    }
  }

  lemma OneFilePerSource(spec: Spec, f: File, i: nat)
    requires Readable(spec) && i < |spec.files| && f in spec.files && f.source == spec.files[i].source
    ensures f == spec.files[i]
  {
    var j :| 0 <= j < |spec.files| && spec.files[j] == f;
  }

  lemma SaveKeeps(c: Config)
    requires Inv(c) && FileHead(c) && c.run.pc.tasks[0].Save?
    ensures Inv(WorkStep(c))
  {
    DocumentChange(c.run.spec, c.st, WorkStep(c).st, c.run.pc.i);
  }

  lemma IndexRaiseKeeps(c: Config)
    requires Inv(c) && FileHead(c) && c.run.pc.tasks[0].Index? && c.run.pc.sub == First
    requires c.run.pc.tasks[0].source in c.run.spec.down
    ensures Inv(WorkStep(c))
  {
  }

  lemma IndexClearKeeps(c: Config)
    requires Inv(c) && FileHead(c) && c.run.pc.tasks[0].Index? && c.run.pc.sub == First
    requires c.run.pc.tasks[0].source !in c.run.spec.down
    ensures Inv(WorkStep(c))
  {
    DocumentChange(c.run.spec, c.st, WorkStep(c).st, c.run.pc.i);
  }

  lemma IndexFirstKeeps(c: Config)
    requires Inv(c) && FileHead(c) && c.run.pc.tasks[0].Index? && c.run.pc.sub == First
    ensures Inv(WorkStep(c))
  {
    if c.run.pc.tasks[0].source in c.run.spec.down { IndexRaiseKeeps(c); } else { IndexClearKeeps(c); }
  }

  lemma IndexSecondKeeps(c: Config)
    requires Inv(c) && FileHead(c) && c.run.pc.tasks[0].Index? && c.run.pc.sub == Second
    ensures Inv(WorkStep(c))
  {
    DocPointsHold(c.run.spec, c.st, c.run.pc.tasks[0].source, c.run.pc.tasks[0].chunks);
    DocumentChange(c.run.spec, c.st, WorkStep(c).st, c.run.pc.i);
  }

  lemma IndexThirdKeeps(c: Config)
    requires Inv(c) && FileHead(c) && c.run.pc.tasks[0].Index? && c.run.pc.sub == Third
    ensures Inv(WorkStep(c))
  {
    DocumentChange(c.run.spec, c.st, WorkStep(c).st, c.run.pc.i);
  }

  lemma PurgeKeeps(c: Config)
    requires Inv(c) && c.run.pc.Work? && c.run.pc.i == |c.run.spec.files|
    ensures Inv(WorkStep(c))
  {
    if c.run.pc.tasks != [] {
      assert c.run.pc.tasks[0] in c.run.pc.tasks;
      if c.run.pc.sub == First { PurgeFirstKeeps(c); } else { PurgeSecondKeeps(c); }
    }
  }

  lemma PurgeFirstKeeps(c: Config)
    requires Inv(c) && c.run.pc.Work? && c.run.pc.i == |c.run.spec.files|
    requires c.run.pc.tasks != [] && c.run.pc.tasks[0].Drop? && c.run.pc.sub == First
    ensures Inv(WorkStep(c))
  {
    OthersStaySettled(c.run.spec, c.st, WorkStep(c).st.points, c.run.pc.tasks[0].source);
  }

  lemma PurgeSecondKeeps(c: Config)
    requires Inv(c) && c.run.pc.Work? && c.run.pc.i == |c.run.spec.files|
    requires c.run.pc.tasks != [] && c.run.pc.tasks[0].Drop? && c.run.pc.sub == Second
    ensures Inv(WorkStep(c))
  {
    RowsStaySettled(c.run.spec, c.st, WorkStep(c).st.rows, c.run.pc.tasks[0].source);
  }

  lemma {:induction false} PlainIsItsParent(s: string)
    requires Plain(s)
    ensures Parent(s) == s
  {
    if s != [] {
      assert s == [s[0]] + s[1..];
      PlainIsItsParent(s[1..]);
    }
  }

  /** With plain sources the tracked sources that are not in the tree are gone, each for itself. */
  lemma GoneIsOutside(spec: Spec, st: Stores, seen: set<string>)
    requires Good(spec, st) && seen == Sources(spec.files)
    ensures Gone(seen, Tracked(st.rows, spec.job)) == Tracked(st.rows, spec.job) - Sources(spec.files)
  {
    var state := Tracked(st.rows, spec.job);
    forall s | s in state - seen ensures s in Gone(seen, state) { PlainIsItsParent(s); }
  }

  lemma JudgedKeeps(c: Config, d: Config)
    requires Inv(c) && c.run.pc.Vanish? && Judged(c, d)
    ensures Inv(d)
  {
    var spec, state := c.run.spec, Tracked(c.st.rows, c.run.spec.job);
    GoneIsOutside(spec, c.st, c.run.seen);
    if state - Sources(spec.files) == {} {
      forall s | s in state ensures s in Sources(spec.files) { assert s !in state - Sources(spec.files); }
    }
  }

  lemma VanishKeeps(c: Config)
    requires Inv(c) && c.run.pc.Vanish?
    ensures Inv(Step(c))
  {
    VanishIsJudged(c);
    JudgedKeeps(c, Step(c));
  }

  lemma SweepKeeps(c: Config)
    requires Inv(c) && c.run.pc.SweepStale?
    ensures Inv(Step(c))
  {
  }

  lemma ForgetKeeps(c: Config)
    requires Inv(c) && (c.run.pc.ForgetRows? || c.run.pc.ForgetColl?)
    ensures Inv(Prepare(c))
  {
  }

  lemma RebuildKeeps(c: Config)
    requires Inv(c) && (c.run.pc.DropColl? || c.run.pc.CreateColl?)
    ensures Inv(Prepare(c))
  {
  }

  lemma AdmitKeeps(c: Config)
    requires Inv(c) && c.run.pc.Admit?
    ensures Inv(Prepare(c))
  {
  }

  lemma EnsureKeeps(c: Config)
    requires Inv(c) && c.run.pc.Ensure?
    ensures Inv(Prepare(c))
  {
  }

  lemma PrepareKeeps(c: Config)
    requires Inv(c)
    requires !c.run.pc.Work? && !c.run.pc.Scan? && !c.run.pc.Vanish? && !c.run.pc.SweepStale? && !c.run.pc.Ended?
    ensures Inv(Prepare(c))
  {
    match c.run.pc
    case ForgetRows => ForgetKeeps(c);
    case ForgetColl => ForgetKeeps(c);
    case DropColl => RebuildKeeps(c);
    case CreateColl => RebuildKeeps(c);
    case Admit => AdmitKeeps(c);
    case Ensure => EnsureKeeps(c);
  }

  lemma WorkKeeps(c: Config)
    requires Inv(c) && c.run.pc.Work?
    ensures Inv(WorkStep(c))
  {
    var Work(i, tasks, sub) := c.run.pc;
    if i == |c.run.spec.files| { PurgeKeeps(c); }
    else if tasks != [] {
      match tasks[0]
      case Save(_, _) => SaveKeeps(c);
      case Index(_, _, _) =>
        match sub
        case First => IndexFirstKeeps(c);
        case Second => IndexSecondKeeps(c);
        case Third => IndexThirdKeeps(c);
    }
  }

  lemma StepKeeps(c: Config)
    requires Inv(c)
    ensures Inv(Step(c))
  {
    match c.run.pc
    case Scan(i) => if i < |c.run.spec.files| { ScanFileKeeps(c); } else { ScanEndKeeps(c); }
    case Work(i, tasks, sub) => WorkKeeps(c);
    case Vanish => VanishKeeps(c);
    case SweepStale => SweepKeeps(c);
    case Ended(_) =>
    case _ => PrepareKeeps(c);
  }

  lemma Always(spec: Spec, st: Stores, n: nat)
    requires Ordinary(spec) && Readable(spec) && Startable(spec, st)
    ensures Inv(Exec(Config(Begin(spec), st), n)) && Exec(Config(Begin(spec), st), n).run.spec == spec
  {
    var inv := (d: Config) => Inv(d) && d.run.spec == spec;
    forall d | inv(d) ensures inv(Step(d)) { StepKeeps(d); }
    Invariant(Step, inv, Config(Begin(spec), st), n);
  }

  // ---- main results

  lemma DocumentIs(spec: Spec, f: File)
    requires Readable(spec) && f in spec.files
    ensures Document(spec, f.source) == ChunksOf(spec, f)
  {
    var j :| 0 <= j < |spec.files| && spec.files[j] == f;
    forall g | g in spec.files && g.source == f.source ensures g == f {
      var i :| 0 <= i < |spec.files| && spec.files[i] == g;
    }
  }

  lemma SuccessMirrors(c: Config)
    requires Inv(c) && c.run.pc == Ended(Success)
    ensures Mirrors(c.run.spec, c.st)
  {
    var spec, st := c.run.spec, c.st;
    forall f | f in spec.files ensures Done(spec, st, f) {
      var j :| 0 <= j < |spec.files| && spec.files[j] == f;
    }
    forall s ensures Holds(st.points, spec.coll, spec.job, s, Document(spec, s)) {
      if s in Sources(spec.files) {
        var f :| f in spec.files && f.source == s;
        DocumentIs(spec, f);
        assert Settled(spec, st, f);
      } else {
        assert NoPoints(spec, st, s);
      }
    }
  }

  /** A run that reports success has made the job's documents and rows those of the tree. */
  lemma SuccessfulRunMirrorsTree(spec: Spec, st: Stores, n: nat)
    requires Ordinary(spec) && Readable(spec) && Startable(spec, st)
    requires Exec(Config(Begin(spec), st), n).run.pc == Ended(Success)
    ensures Mirrors(spec, Exec(Config(Begin(spec), st), n).st)
  {
    Always(spec, st, n);
    SuccessMirrors(Exec(Config(Begin(spec), st), n));
  }
}
