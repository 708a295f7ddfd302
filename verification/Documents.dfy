/**
 The fate of a single document, whatever the other files do and whatever the stores held before:
 an upsert or append run gives it its new chunks exactly when the change detector says so, and
 otherwise leaves its points alone.
 */
module Documents {
  import opened Stores
  import opened Guards
  import opened Order
  import opened Machines
  import opened Protocol

  /** Upsert or append over distinct sources that, if attachments are expanded, are no attachment names. */
  ghost predicate Gentle(spec: Spec) {
    && spec.mode != Full && !spec.dryRun
    && (forall i, j | 0 <= i < j < |spec.files| :: spec.files[i].source != spec.files[j].source)
    && (spec.expand ==> Unmarked(spec))
  }

  /** No source of the tree is an attachment's name. */
  ghost predicate Unmarked(spec: Spec) {
    forall f | f in spec.files :: '!' !in f.source
  }

  /** A source at or below a file of the tree. */
  predicate OfFile(f: File, s: string) {
    s == f.source || f.source + "!" <= s
  }

  lemma {:induction false} ParentOf(p: string, t: string)
    requires '!' !in p && p + "!" <= t
    ensures Parent(t) == p
  {
    if p == [] {
      assert t[0] == (p + "!")[0] == '!';
    } else {
      assert t[0] == (p + "!")[0] == p[0] && p[0] in p;
      assert forall c | c in p[1..] :: c in p;
      assert t[1..][..|p|] == t[..|p| + 1][1..] == (p + "!")[1..] == p[1..] + "!";
      ParentOf(p[1..], t[1..]);
      assert p == [p[0]] + p[1..];
    }
  }

  lemma {:induction false} ParentsHaveNoMark(t: string)
    ensures '!' !in Parent(t)
  {
    if t != [] && t[0] != '!' { ParentsHaveNoMark(t[1..]); }
  }

  lemma MarkBelow(p: string, t: string)
    requires p + "!" <= t
    ensures '!' in t
  {
    assert t[|p|] == (p + "!")[|p|] == '!';
  }

  /** Append skips what it knows; everything else goes through the change detector. */
  predicate Processed(spec: Spec, st: Stores, f: File) {
    !(spec.mode == Append && f.source in KnownSources(spec, st.points, st.rows))
  }

  /** The file's stat or its bytes are those its row was written for, under the same parameters. */
  predicate Unchanged(spec: Spec, prev: Option<Row>, f: File) {
    && prev.Some? && prev.value.params == spec.params
    && ((prev.value.size == f.size && prev.value.mtime == f.mtime) || prev.value.content == Sha256(f.content))
  }

  /** An indexed row already has this text. */
  predicate TextKnown(spec: Spec, prev: Option<Row>, text: string) {
    && prev.Some? && prev.value.params == spec.params
    && prev.value.text == Sha256(text) && prev.value.status == Indexed
  }

  /** The guard of the one branch that writes points, readable off the rows before the run. */
  predicate Writes(spec: Spec, st: Stores, f: File) {
    var prev := Lookup(st.rows, spec.job, f.source);
    && Processed(spec, st, f) && f.size <= spec.maxBytes && !Unchanged(spec, prev, f)
    && Reading(spec, f).Extracted? && !TextKnown(spec, prev, Reading(spec, f).text)
    && f.source !in spec.short
  }

  /** What the run reports about a file. */
  function StatusOf(spec: Spec, prev: Option<Row>, f: File): Status {
    if f.size > spec.maxBytes then TooLarge
    else if Unchanged(spec, prev, f) then prev.value.status
    else
      match Reading(spec, f)
      case Broken => FailedExtract
      case Unreadable => Unsupported
      case Textless => NoText
      case Extracted(text, _, _) =>
        if f.source in spec.short && !TextKnown(spec, prev, text) then FailedEmbed else Indexed
  }

  /** The row is refreshed rather than written anew: it keeps its generation, text and chunk count. */
  predicate Refreshed(spec: Spec, prev: Option<Row>, f: File) {
    && f.size <= spec.maxBytes
    && (Unchanged(spec, prev, f) || (Reading(spec, f).Extracted? && TextKnown(spec, prev, Reading(spec, f).text)))
  }

  /** The row a processed file ends with. */
  predicate RowFate(spec: Spec, prev: Option<Row>, f: File, row: Row) {
    && row.params == spec.params && row.size == f.size && row.mtime == f.mtime
    && row.status == StatusOf(spec, prev, f)
    && row.content == (if f.size > spec.maxBytes then Blank
                       else if prev.Some? && prev.value.params == spec.params && prev.value.size == f.size
                               && prev.value.mtime == f.mtime then prev.value.content
                       else Sha256(f.content))
    && (if Refreshed(spec, prev, f) then
          && row.run == prev.value.run && row.collection == prev.value.collection
          && row.text == prev.value.text && row.chunks == prev.value.chunks
        else
          && row.run == spec.run && row.collection == spec.coll
          && row.chunks == (if row.status == Indexed then |Reading(spec, f).chunks| else 0)
          && row.text ==
             (if row.status == Indexed || row.status == FailedEmbed then Sha256(Reading(spec, f).text) else Blank))
  }

  ghost predicate SamePoints(spec: Spec, p: Points, q: Points, s: string) {
    forall i: nat ::
      && (PointKey(spec.coll, spec.job, s, i) in p <==> PointKey(spec.coll, spec.job, s, i) in q)
      && (PointKey(spec.coll, spec.job, s, i) in p ==>
            p[PointKey(spec.coll, spec.job, s, i)] == q[PointKey(spec.coll, spec.job, s, i)])
  }

  /** The source has no points. */
  ghost predicate Bare(spec: Spec, points: Points, s: string) {
    forall i: nat :: PointKey(spec.coll, spec.job, s, i) !in points
  }

  ghost predicate Untouched(spec: Spec, st: Stores, now: Stores, s: string) {
    SamePoints(spec, st.points, now.points, s) && Lookup(st.rows, spec.job, s) == Lookup(now.rows, spec.job, s)
  }

  /** What processing file `f` has made of its points and row. */
  ghost predicate Outcome(spec: Spec, st: Stores, now: Stores, f: File) {
    && (if Writes(spec, st, f) then
          && Holds(now.points, spec.coll, spec.job, f.source, Reading(spec, f).chunks)
          && Stamped(now.points, spec.coll, spec.job, f.source, spec.run)
        else SamePoints(spec, st.points, now.points, f.source))
    && (var prev, row := Lookup(st.rows, spec.job, f.source), Lookup(now.rows, spec.job, f.source);
        if Processed(spec, st, f) then row.Some? && RowFate(spec, prev, f, row.value) else row == prev)
  }

  ghost predicate Elsewhere(tasks: seq<Task>, s: string) {
    forall t | t in tasks :: t.source != s
  }

  /** The task in hand is the document's own; its attachments come after it. */
  ghost predicate OwnTask(spec: Spec, st: Stores, now: Stores, f: File, task: Task, sub: Sub) {
    var prev := Lookup(st.rows, spec.job, f.source);
    && task.source == f.source && Processed(spec, st, f) && Lookup(now.rows, spec.job, f.source) == prev
    && match task
       case Save(s, row) =>
         && sub == First && !Writes(spec, st, f) && RowFate(spec, prev, f, row)
         && SamePoints(spec, st.points, now.points, s)
       case Index(s, chunks, row) =>
         && RowFate(spec, prev, f, if s in spec.short then row.(status := FailedEmbed, chunks := 0) else row)
         && Reading(spec, f).Extracted? && chunks == Reading(spec, f).chunks
         && (Writes(spec, st, f) <==> s !in spec.short)
         && (sub == First ==> SamePoints(spec, st.points, now.points, s))
         && (sub != First ==> s !in spec.short)
         && (sub == Second ==> Bare(spec, now.points, s))
         && (sub == Third ==>
               && Holds(now.points, spec.coll, spec.job, s, chunks)
               && Stamped(now.points, spec.coll, spec.job, s, spec.run))
       case Drop(_) => false
  }

  ghost predicate FileWork(spec: Spec, st: Stores, now: Stores, f: File, tasks: seq<Task>, sub: Sub) {
    if Elsewhere(tasks, f.source) then Outcome(spec, st, now, f)
    else tasks != [] && OwnTask(spec, st, now, f, tasks[0], sub) && Elsewhere(tasks[1..], f.source)
  }

  /** `st` is the state before the run, `m` the index of the file followed. */
  ghost predicate Inv(c: Config, st: Stores, m: nat) {
    var r, now, spec := c.run, c.st, c.run.spec;
    && Gentle(spec) && m < |spec.files|
    && var f := spec.files[m];
       match r.pc
       case Admit => now == st
       case Ensure => now == st
       case Known => now.points == st.points && now.rows == st.rows && spec.mode == Append
       case Scan(i) =>
         && (spec.mode == Append ==> r.known == KnownSources(spec, st.points, st.rows))
         && (if i <= m then Untouched(spec, st, now, f.source)
             else f.source in r.seen && Outcome(spec, st, now, f))
       case Work(i, tasks, sub) =>
         && (spec.mode == Append ==> r.known == KnownSources(spec, st.points, st.rows))
         && (i >= m ==> f.source in r.seen)
         && (if i < m then Untouched(spec, st, now, f.source) && Elsewhere(tasks, f.source)
             else if i == m then Processed(spec, st, f) && FileWork(spec, st, now, f, tasks, sub)
             else Outcome(spec, st, now, f) && Elsewhere(tasks, f.source))
       case Vanish => spec.mode == Upsert && f.source in r.seen && Outcome(spec, st, now, f)
       case Ended(o) =>
         Outcome(spec, st, now, f) || (o != Success && o != AbortedGuard && Untouched(spec, st, now, f.source))
       case _ => false
  }

  lemma {:induction false} AttachmentsOfFile(spec: Spec, f: File, embedded: seq<Attachment>)
    ensures forall t | t in AttachmentTasks(spec, f, embedded) :: t.Index? && f.source + "!" <= t.source
  {
    if embedded != [] { AttachmentsOfFile(spec, f, embedded[1..]); }
  }

  lemma DropsOfFile(f: File, stale: set<string>)
    requires forall s | s in stale :: f.source + "!" <= s
    ensures forall t | t in Drops(Sorted(stale)) :: f.source + "!" <= t.source
  {
    DropsOf(stale);
  }

  lemma RestStaysHome(spec: Spec, rows: Rows, f: File, e: Extraction)
    requires e.Extracted?
    ensures
      var stale := EmbeddedRows(rows, spec.job, f.source) - AttachmentNames(f, e.embedded);
      forall t | t in AttachmentTasks(spec, f, e.embedded) + Drops(Sorted(stale)) :: f.source + "!" <= t.source
  {
    AttachmentsOfFile(spec, f, e.embedded);
    DropsOfFile(f, EmbeddedRows(rows, spec.job, f.source) - AttachmentNames(f, e.embedded));
  }

  lemma IndexPlanStaysHome(spec: Spec, rows: Rows, f: File, e: Extraction)
    requires e.Extracted?
    ensures
      var tasks := IndexPlan(spec, rows, f, e).tasks;
      && tasks != [] && tasks[0] == Index(f.source, e.chunks, IndexedRow(spec, f, e.text, |e.chunks|))
      && (forall t | t in tasks[1..] :: spec.expand && f.source + "!" <= t.source)
      && tasks == [tasks[0]] + tasks[1..]
  {
    RestStaysHome(spec, rows, f, e);
  }

  /** A plan that is not an indexing one is at most one refreshing task. */
  lemma SaveStaysHome(spec: Spec, rows: Rows, f: File)
    ensures
      var tasks := Decide(spec, rows, f).tasks;
      || (tasks != [] && tasks == [tasks[0]] && tasks[0].Save? && tasks[0].source == f.source) || tasks == []
      || (Reading(spec, f).Extracted? && Decide(spec, rows, f) == IndexPlan(spec, rows, f, Reading(spec, f)))
  {
  }

  /** A plan's first task is the file's own; the others are its attachments'. */
  lemma DecideStaysHome(spec: Spec, rows: Rows, f: File)
    ensures
      var tasks := Decide(spec, rows, f).tasks;
      tasks != [] ==>
        && tasks == [tasks[0]] + tasks[1..] && tasks[0].source == f.source && !tasks[0].Drop?
        && forall t | t in tasks[1..] :: spec.expand && f.source + "!" <= t.source
  {
    SaveStaysHome(spec, rows, f);
    if Reading(spec, f).Extracted? { IndexPlanStaysHome(spec, rows, f, Reading(spec, f)); }
  }

  lemma DecideStaysInFile(spec: Spec, rows: Rows, f: File)
    ensures forall t | t in Decide(spec, rows, f).tasks ::
              t.source == f.source || (spec.expand && f.source + "!" <= t.source)
  {
    DecideStaysHome(spec, rows, f);
  }

  /** No plan touches another file of the tree. */
  lemma DecideElsewhere(spec: Spec, rows: Rows, f: File, s: string)
    requires f.source != s && (spec.expand ==> '!' !in s)
    ensures Elsewhere(Decide(spec, rows, f).tasks, s)
  {
    DecideStaysInFile(spec, rows, f);
    forall t | t in Decide(spec, rows, f).tasks ensures t.source != s {
      if t.source != f.source { MarkBelow(f.source, t.source); }
    }
  }

  /** Behind its first task a plan is about attachments. */
  lemma RestElsewhere(spec: Spec, rows: Rows, f: File)
    requires Decide(spec, rows, f).tasks != [] && (spec.expand ==> '!' !in f.source)
    ensures Elsewhere(Decide(spec, rows, f).tasks[1..], f.source)
  {
    DecideStaysHome(spec, rows, f);
    forall t | t in Decide(spec, rows, f).tasks[1..] ensures t.source != f.source { MarkBelow(f.source, t.source); }
  }

  /** The detector's first task leads to the document's fate. */
  lemma DecideMeetsFate(spec: Spec, st: Stores, now: Stores, f: File)
    requires Processed(spec, st, f) && Untouched(spec, st, now, f.source)
    ensures
      var tasks := Decide(spec, now.rows, f).tasks;
      if tasks == [] then Outcome(spec, st, now, f) else OwnTask(spec, st, now, f, tasks[0], First)
  {
    var e := spec.extract(f.source, f.content, spec.params);
    if e.Extracted? { IndexPlanStaysHome(spec, now.rows, f, e); }
  }

  lemma ScanHereKeeps(c: Config, st: Stores, m: nat)
    requires Inv(c, st, m) && c.run.pc.Scan? && c.run.pc.i == m
    ensures Inv(Step(c), st, m)
  {
    var f := c.run.spec.files[m];
    if m !in c.run.spec.aborts && Processed(c.run.spec, st, f) {
      DecideMeetsFate(c.run.spec, st, c.st, f);
      assert f in c.run.spec.files;
      var tasks := Decide(c.run.spec, c.st.rows, f).tasks;
      if tasks != [] {
        RestElsewhere(c.run.spec, c.st.rows, f);
        assert tasks[0] in tasks;
      }
    }
  }

  lemma ScanElsewhereKeeps(c: Config, st: Stores, m: nat)
    requires Inv(c, st, m) && c.run.pc.Scan? && c.run.pc.i != m
    ensures Inv(Step(c), st, m)
  {
    var i, spec := c.run.pc.i, c.run.spec;
    if i < |spec.files| {
      assert spec.files[m] in spec.files;
      DecideElsewhere(spec, c.st.rows, spec.files[i], spec.files[m].source);
    }
  }

  lemma ScanKeeps(c: Config, st: Stores, m: nat)
    requires Inv(c, st, m) && c.run.pc.Scan?
    ensures Inv(Step(c), st, m)
  {
    if c.run.pc.i == m { ScanHereKeeps(c, st, m); } else { ScanElsewhereKeeps(c, st, m); }
  }

  /** Changing other documents does not change this one's outcome. */
  lemma OutcomeFramed(spec: Spec, st: Stores, a: Stores, b: Stores, f: File)
    requires Outcome(spec, st, a, f)
    requires SamePoints(spec, a.points, b.points, f.source)
    requires Lookup(a.rows, spec.job, f.source) == Lookup(b.rows, spec.job, f.source)
    ensures Outcome(spec, st, b, f)
  {
  }

  /** A task writes to its own source only. */
  lemma OthersFramed(c: Config, s: string)
    requires c.run.pc.Work? && c.run.pc.tasks != [] && c.run.pc.tasks[0].source != s
    ensures Untouched(c.run.spec, c.st, WorkStep(c).st, s)
  {
  }

  lemma ElsewhereFrames(c: Config, s: string)
    requires c.run.pc.Work? && Elsewhere(c.run.pc.tasks, s)
    ensures Untouched(c.run.spec, c.st, WorkStep(c).st, s)
  {
  }

  /** Where one store call of a task can lead, whatever it writes. */
  ghost predicate Moved(c: Config, d: Config)
    requires c.run.pc.Work?
  {
    var Work(i, tasks, sub) := c.run.pc;
    && d.run == c.run.(pc := d.run.pc)
    && match d.run.pc
       case Scan(j) => tasks == [] && i < |c.run.spec.files| && j == i + 1
       case Ended(Success) => tasks == [] && i >= |c.run.spec.files|
       case Ended(Failed) => tasks != [] && tasks[0].Index? && sub == First
       case Work(j, rest, next) =>
         j == i && tasks != [] && ((rest == tasks && sub != Third && next == (if sub == First then Second else Third))
                                   || (rest == tasks[1..] && next == First))
       case _ => false
  }

  lemma WorkMoves(c: Config)
    requires c.run.pc.Work?
    ensures Moved(c, WorkStep(c))
  {
  }

  lemma WorkElsewhereKeeps(c: Config, st: Stores, m: nat)
    requires Inv(c, st, m) && c.run.pc.Work? && c.run.pc.i != m
    ensures Inv(WorkStep(c), st, m)
  {
    var f := c.run.spec.files[m];
    ElsewhereFrames(c, f.source);
    if c.run.pc.i > m { OutcomeFramed(c.run.spec, st, c.st, WorkStep(c).st, f); }
  }

  /** The document's own task, one store call on: still its own, or done. */
  lemma OwnStep(c: Config, st: Stores, f: File)
    requires c.run.pc.Work? && c.run.pc.tasks != []
    requires OwnTask(c.run.spec, st, c.st, f, c.run.pc.tasks[0], c.run.pc.sub)
    ensures
      var d, pc, spec := WorkStep(c), c.run.pc, c.run.spec;
      || (d.run == c.run.(pc := Ended(Failed)) && d.st == c.st && pc.sub == First && pc.tasks[0].Index?)
      || (d.run == c.run.(pc := Work(pc.i, pc.tasks[1..], First)) && Outcome(spec, st, d.st, f))
      || (d.run.pc.Work? && d.run == c.run.(pc := Work(pc.i, pc.tasks, d.run.pc.sub))
          && OwnTask(spec, st, d.st, f, pc.tasks[0], d.run.pc.sub))
  {
    match c.run.pc.tasks[0]
    case Save(_, _) =>
    case Index(_, _, _) =>
      if c.run.pc.sub == First { OwnFirst(c, st, f); }
      else if c.run.pc.sub == Second { OwnSecond(c, st, f); }
      else { OwnThird(c, st, f); }
  }

  lemma OwnFirst(c: Config, st: Stores, f: File)
    requires c.run.pc.Work? && c.run.pc.tasks != [] && c.run.pc.tasks[0].Index? && c.run.pc.sub == First
    requires OwnTask(c.run.spec, st, c.st, f, c.run.pc.tasks[0], First)
    ensures
      var d, pc, spec := WorkStep(c), c.run.pc, c.run.spec;
      if f.source in spec.down then d == Config(c.run.(pc := Ended(Failed)), c.st)
      else if f.source in spec.short then
        d.run == c.run.(pc := Work(pc.i, pc.tasks[1..], First)) && Outcome(spec, st, d.st, f)
      else d.run == c.run.(pc := Work(pc.i, pc.tasks, Second)) && OwnTask(spec, st, d.st, f, pc.tasks[0], Second)
  {
  }

  lemma OwnSecond(c: Config, st: Stores, f: File)
    requires c.run.pc.Work? && c.run.pc.tasks != [] && c.run.pc.tasks[0].Index? && c.run.pc.sub == Second
    requires OwnTask(c.run.spec, st, c.st, f, c.run.pc.tasks[0], Second)
    ensures
      var d, pc, spec := WorkStep(c), c.run.pc, c.run.spec;
      d.run == c.run.(pc := Work(pc.i, pc.tasks, Third)) && OwnTask(spec, st, d.st, f, pc.tasks[0], Third)
  {
  }

  lemma OwnThird(c: Config, st: Stores, f: File)
    requires c.run.pc.Work? && c.run.pc.tasks != [] && c.run.pc.tasks[0].Index? && c.run.pc.sub == Third
    requires OwnTask(c.run.spec, st, c.st, f, c.run.pc.tasks[0], Third)
    ensures
      var d, pc, spec := WorkStep(c), c.run.pc, c.run.spec;
      d.run == c.run.(pc := Work(pc.i, pc.tasks[1..], First)) && Outcome(spec, st, d.st, f)
  {
  }

  lemma OwnHereKeeps(c: Config, st: Stores, m: nat)
    requires Inv(c, st, m) && c.run.pc.Work? && c.run.pc.i == m
    requires !Elsewhere(c.run.pc.tasks, c.run.spec.files[m].source)
    ensures Inv(WorkStep(c), st, m)
  {
    OwnStep(c, st, c.run.spec.files[m]);
  }

  lemma AttachedMoves(c: Config, d: Config, st: Stores, m: nat)
    requires Inv(c, st, m) && c.run.pc.Work? && c.run.pc.i == m && Elsewhere(c.run.pc.tasks, c.run.spec.files[m].source)
    requires Moved(c, d) && Outcome(c.run.spec, st, d.st, c.run.spec.files[m])
    ensures Inv(d, st, m)
  {
  }

  lemma AttachedHereKeeps(c: Config, st: Stores, m: nat)
    requires Inv(c, st, m) && c.run.pc.Work? && c.run.pc.i == m && Elsewhere(c.run.pc.tasks, c.run.spec.files[m].source)
    ensures Inv(WorkStep(c), st, m)
  {
    var f := c.run.spec.files[m];
    ElsewhereFrames(c, f.source);
    OutcomeFramed(c.run.spec, st, c.st, WorkStep(c).st, f);
    WorkMoves(c);
    AttachedMoves(c, WorkStep(c), st, m);
  }

  lemma WorkHereKeeps(c: Config, st: Stores, m: nat)
    requires Inv(c, st, m) && c.run.pc.Work? && c.run.pc.i == m
    ensures Inv(WorkStep(c), st, m)
  {
    if Elsewhere(c.run.pc.tasks, c.run.spec.files[m].source) { AttachedHereKeeps(c, st, m); }
    else { OwnHereKeeps(c, st, m); }
  }

  lemma JudgedKeeps(c: Config, d: Config, st: Stores, m: nat)
    requires Inv(c, st, m) && c.run.pc.Vanish? && Judged(c, d)
    ensures Inv(d, st, m)
  {
  }

  lemma VanishKeeps(c: Config, st: Stores, m: nat)
    requires Inv(c, st, m) && c.run.pc.Vanish?
    ensures Inv(Step(c), st, m)
  {
    VanishIsJudged(c);
    JudgedKeeps(c, Step(c), st, m);
  }

  lemma PrepareKeeps(c: Config, st: Stores, m: nat)
    requires Inv(c, st, m) && (c.run.pc.Admit? || c.run.pc.Ensure? || c.run.pc.Known?)
    ensures Inv(Prepare(c), st, m)
  {
  }

  lemma StepKeeps(c: Config, st: Stores, m: nat)
    requires Inv(c, st, m)
    ensures Inv(Step(c), st, m)
  {
    match c.run.pc
    case Scan(_) => ScanKeeps(c, st, m);
    case Work(i, _, _) => if i == m { WorkHereKeeps(c, st, m); } else { WorkElsewhereKeeps(c, st, m); }
    case Vanish => VanishKeeps(c, st, m);
    case Ended(_) =>
    case _ => PrepareKeeps(c, st, m);
  }

  lemma Always(spec: Spec, st: Stores, m: nat, n: nat)
    requires Gentle(spec) && m < |spec.files|
    ensures
      var c := Exec(Config(Begin(spec), st), n);
      Inv(c, st, m) && c.run.spec == spec
  {
    var inv := (d: Config) => Inv(d, st, m) && d.run.spec == spec;
    forall d | inv(d) ensures inv(Step(d)) { StepKeeps(d, st, m); }
    Invariant(Step, inv, Config(Begin(spec), st), n);
  }

  /**
   After a successful upsert or append, from any stores whatever: a document of the tree holds its
   new chunks under this run exactly if `Writes` held before the run; otherwise its points are the
   old ones. Its row says what became of it. This covers files that are too large, unreadable,
   textless, or failed to embed.
   */
  lemma DocumentFate(spec: Spec, st: Stores, n: nat, f: File)
    requires Gentle(spec) && f in spec.files
    requires Exec(Config(Begin(spec), st), n).run.pc == Ended(Success)
    ensures
      var now := Exec(Config(Begin(spec), st), n).st;
      Outcome(spec, st, now, f)
  {
    var m :| 0 <= m < |spec.files| && spec.files[m] == f;
    Always(spec, st, m, n);
  }

  /**
   Exactly when a run leaves a readable document right: it was right already, or the run writes it.
   So a document that is wrong is repaired exactly by the runs whose change detector reaches the
   writing branch, whatever made it wrong.
   */
  lemma RightIff(spec: Spec, st: Stores, n: nat, f: File)
    requires Gentle(spec) && f in spec.files && Reading(spec, f).Extracted?
    requires Exec(Config(Begin(spec), st), n).run.pc == Ended(Success)
    ensures
      var now := Exec(Config(Begin(spec), st), n).st;
      var chunks := Reading(spec, f).chunks;
      Holds(now.points, spec.coll, spec.job, f.source, chunks) <==>
        Writes(spec, st, f) || Holds(st.points, spec.coll, spec.job, f.source, chunks)
  {
    DocumentFate(spec, st, n, f);
  }

  // ---- stops

  /** The document whose old points are gone and whose new row is not written yet. */
  predicate Torn(r: Run, s: string) {
    r.pc.Work? && r.pc.tasks != [] && r.pc.tasks[0].Index? && r.pc.sub != First && r.pc.tasks[0].source == s
  }

  /** A stop finds every document but one as it was before the run or as the run leaves it. */
  lemma StopTearsOne(spec: Spec, st: Stores, n: nat, f: File)
    requires Gentle(spec) && f in spec.files
    ensures
      var c := Exec(Config(Begin(spec), st), n);
      if Torn(c.run, f.source) then
        Writes(spec, st, f) && Lookup(c.st.rows, spec.job, f.source) == Lookup(st.rows, spec.job, f.source)
      else Untouched(spec, st, c.st, f.source) || Outcome(spec, st, c.st, f)
  {
    var m :| 0 <= m < |spec.files| && spec.files[m] == f;
    Always(spec, st, m, n);
    StopIsWhole(Exec(Config(Begin(spec), st), n), st, m);
  }

  lemma StopIsWhole(c: Config, st: Stores, m: nat)
    requires Inv(c, st, m)
    ensures
      var f := c.run.spec.files[m];
      if Torn(c.run, f.source) then
        Writes(c.run.spec, st, f) &&
        Lookup(c.st.rows, c.run.spec.job, f.source) == Lookup(st.rows, c.run.spec.job, f.source)
      else Untouched(c.run.spec, st, c.st, f.source) || Outcome(c.run.spec, st, c.st, f)
  {
  }

  /**
   The torn document, exactly: whatever tree and parameters the next successful upsert has, it leaves
   the document right if and only if the row from before the stop lets it write, or the points the
   stop left already are the right ones.
   */
  lemma TornRightIff(spec: Spec, st: Stores, n: nat, other: Spec, m: nat, f: File)
    requires Gentle(spec) && Gentle(other) && other.mode == Upsert && other.job == spec.job && other.coll == spec.coll
    requires f in other.files && Reading(other, f).Extracted? && (spec.expand ==> '!' !in f.source)
    requires Torn(Exec(Config(Begin(spec), st), n).run, f.source)
    requires Exec(Config(Begin(other), Exec(Config(Begin(spec), st), n).st), m).run.pc == Ended(Success)
    ensures
      var left := Exec(Config(Begin(spec), st), n).st;
      var now := Exec(Config(Begin(other), left), m).st;
      var chunks := Reading(other, f).chunks;
      Holds(now.points, other.coll, other.job, f.source, chunks) <==>
        Writes(other, st, f) || Holds(left.points, other.coll, other.job, f.source, chunks)
  {
    TornKeepsRow(spec, st, n, f.source);
    RightIff(other, Exec(Config(Begin(spec), st), n).st, m, f);
  }

  lemma TornKeepsRow(spec: Spec, st: Stores, n: nat, s: string)
    requires Gentle(spec) && Torn(Exec(Config(Begin(spec), st), n).run, s) && (spec.expand ==> '!' !in s)
    ensures
      var c := Exec(Config(Begin(spec), st), n);
      && Lookup(c.st.rows, spec.job, s) == Lookup(st.rows, spec.job, s)
      && (c.run.pc.sub == Second ==> Bare(spec, c.st.points, s))
  {
    var c := Exec(Config(Begin(spec), st), n);
    TornIsOfTheTree(spec, st, n, s);
    Always(spec, st, c.run.pc.i, n);
  }

  /** In the deletion phase nothing is indexed, so a torn document is a file of the tree or an attachment. */
  lemma TornIsOfTheTree(spec: Spec, st: Stores, n: nat, s: string)
    requires Gentle(spec) && Torn(Exec(Config(Begin(spec), st), n).run, s) && (spec.expand ==> '!' !in s)
    ensures
      var c := Exec(Config(Begin(spec), st), n);
      c.run.spec == spec && c.run.pc.i < |spec.files| && spec.files[c.run.pc.i].source == s
  {
    var inv := (d: Config) => d.run.spec == spec && WorksOnFile(d.run);
    forall d | inv(d) ensures inv(Step(d)) { StepWorksOnFile(d); }
    Invariant(Step, inv, Config(Begin(spec), st), n);
    var pc := Exec(Config(Begin(spec), st), n).run.pc;
    assert pc.tasks[0] in pc.tasks;
    if spec.files[pc.i].source != s { MarkBelow(spec.files[pc.i].source, s); }
  }

  ghost predicate WorksOnFile(r: Run) {
    r.pc.Work? ==> forall t | t in r.pc.tasks ::
      if r.pc.i >= |r.spec.files| then t.Drop?
      else t.source == r.spec.files[r.pc.i].source || (r.spec.expand && r.spec.files[r.pc.i].source + "!" <= t.source)
  }

  lemma StepWorksOnFile(c: Config)
    requires WorksOnFile(c.run)
    ensures WorksOnFile(Step(c).run) && Step(c).run.spec == c.run.spec
  {
    match c.run.pc
    case Work(_, _, _) => WorkWorksOnFile(c);
    case Scan(i) => if i < |c.run.spec.files| { DecideStaysInFile(c.run.spec, c.st.rows, c.run.spec.files[i]); }
    case Vanish => VanishIsJudged(c);
    case _ =>
  }

  lemma WorkWorksOnFile(c: Config)
    requires WorksOnFile(c.run) && c.run.pc.Work?
    ensures WorksOnFile(WorkStep(c).run) && WorkStep(c).run.spec == c.run.spec
  {
  }

  /**
   So "detected as changed next time" can fail: stop an upsert between the delete and the upsert of a
   document's points, put the file (or the parameters) back to what the old row says, and the next
   upsert calls it unchanged, reports success and leaves it without points.
   */
  lemma RevertedStaysBare(spec: Spec, st: Stores, n: nat, other: Spec, m: nat, f: File)
    requires Gentle(spec) && Gentle(other) && other.mode == Upsert && other.job == spec.job && other.coll == spec.coll
    requires f in other.files && f.size <= other.maxBytes && Unchanged(other, Lookup(st.rows, other.job, f.source), f)
    requires Torn(Exec(Config(Begin(spec), st), n).run, f.source) && (spec.expand ==> '!' !in f.source)
    requires Exec(Config(Begin(spec), st), n).run.pc.sub == Second
    requires Exec(Config(Begin(other), Exec(Config(Begin(spec), st), n).st), m).run.pc == Ended(Success)
    ensures Bare(other, Exec(Config(Begin(other), Exec(Config(Begin(spec), st), n).st), m).st.points, f.source)
  {
    TornKeepsRow(spec, st, n, f.source);
    DocumentFate(other, Exec(Config(Begin(spec), st), n).st, m, f);
  }

  /**
   No upsert retries what an upsert over the same tree left behind: the second run's change
   detector stops at the stat. So a document that failed to embed keeps its old points, or none,
   until the file or the parameters change.
   */
  lemma SecondUpsertRepairsNothing(spec: Spec, st: Stores, n: nat, again: Spec, m: nat, f: File)
    requires Gentle(spec) && Gentle(again) && spec.mode == Upsert && again.mode == Upsert && f in spec.files
    requires again == spec.(run := again.run, aborts := again.aborts, down := again.down, short := again.short,
                            facet := again.facet)
    requires Exec(Config(Begin(spec), st), n).run.pc == Ended(Success)
    requires Exec(Config(Begin(again), Exec(Config(Begin(spec), st), n).st), m).run.pc == Ended(Success)
    ensures
      var first := Exec(Config(Begin(spec), st), n).st;
      var second := Exec(Config(Begin(again), first), m).st;
      SamePoints(spec, first.points, second.points, f.source)
  {
    DocumentFate(spec, st, n, f);
    DocumentFate(again, Exec(Config(Begin(spec), st), n).st, m, f);
  }

  /**
   A rebuild interrupted after its drop is the way to lose a corpus for good: a later upsert finds
   the rows of unchanged files still there, takes them for indexed, reports success, and leaves
   every such document without points.
   */
  lemma InterruptedRebuildStaysEmpty(rebuild: Config, again: Spec, n: nat, f: File)
    requires rebuild.run.pc == DropColl && rebuild.run.spec.coll == again.coll
    requires Gentle(again) && again.mode == Upsert && f in again.files
    requires
      var row := Lookup(rebuild.st.rows, again.job, f.source);
      row.Some? && row.value.params == again.params && row.value.size == f.size && row.value.mtime == f.mtime
    requires Exec(Config(Begin(again), Step(rebuild).st), n).run.pc == Ended(Success)
    ensures
      var now := Exec(Config(Begin(again), Step(rebuild).st), n).st;
      forall i: nat :: PointKey(again.coll, again.job, f.source, i) !in now.points
  {
    var dropped := Step(rebuild).st;
    DocumentFate(again, dropped, n, f);
    assert !Writes(again, dropped, f);
    assert forall i: nat :: PointKey(again.coll, again.job, f.source, i) !in dropped.points;
  }
}
