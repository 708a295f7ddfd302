/**
 The fate of a single attachment in a run that expands containers. A container's row commits before
 its attachments are indexed, and the change detector looks at the container's row alone: so an
 attachment is touched exactly by the runs that write its container.
 */
module Attachments {
  import opened Stores
  import opened Guards
  import opened Order
  import opened Machines
  import opened Protocol
  import opened Documents

  // ---- what a run does to an attachment

  /** The last attachment of that name that has chunks. */
  function Winner(f: File, embedded: seq<Attachment>, t: string): Option<Attachment> {
    if embedded == [] then None
    else
      var later := Winner(f, embedded[1..], t);
      if later.Some? then later
      else if embedded[0].chunks != [] && f.source + "!" + embedded[0].name == t then Some(embedded[0])
      else None
  }

  /** The run writes the container and finds attachments in it. */
  predicate Expands(spec: Spec, st: Stores, f: File) {
    spec.expand && Writes(spec, st, f) && Reading(spec, f).embedded != []
  }

  /** The task that decides what becomes of `t`, a name below file `f`. */
  function Aim(spec: Spec, st: Stores, f: File, t: string): Option<Task> {
    if !Expands(spec, st, f) then None
    else
      var embedded := Reading(spec, f).embedded;
      var winner := Winner(f, embedded, t);
      if winner.Some? then
        Some(Index(t, winner.value.chunks, IndexedRow(spec, f, winner.value.text, |winner.value.chunks|)))
      else if t !in AttachmentNames(f, embedded) && Lookup(st.rows, spec.job, t).Some? then Some(Drop(t))
      else None
  }

  /** The task is done, from the stores `st` before the run. */
  ghost predicate Met(spec: Spec, st: Stores, now: Stores, t: string, aim: Option<Task>) {
    match aim
    case None => Untouched(spec, st, now, t)
    case Some(Index(_, chunks, row)) =>
      if t in spec.short then
        && SamePoints(spec, st.points, now.points, t)
        && Lookup(now.rows, spec.job, t) == Some(row.(status := FailedEmbed, chunks := 0))
      else
        && Holds(now.points, spec.coll, spec.job, t, chunks) && Stamped(now.points, spec.coll, spec.job, t, spec.run)
        && Lookup(now.rows, spec.job, t) == Some(row)
    case Some(Drop(_)) => Bare(spec, now.points, t) && Lookup(now.rows, spec.job, t) == None
    case Some(Save(_, _)) => false
  }

  // ---- tasks for one source

  function LastFor(tasks: seq<Task>, t: string): Option<Task> {
    if tasks == [] then None
    else
      var later := LastFor(tasks[1..], t);
      if later.Some? then later else if tasks[0].source == t then Some(tasks[0]) else None
  }

  lemma {:induction false} LastForElsewhere(tasks: seq<Task>, t: string)
    ensures LastFor(tasks, t) == None <==> Elsewhere(tasks, t)
  {
    if tasks != [] {
      LastForElsewhere(tasks[1..], t);
      assert tasks == [tasks[0]] + tasks[1..];
    }
  }

  lemma {:induction false} LastForAppend(a: seq<Task>, b: seq<Task>, t: string)
    ensures LastFor(a + b, t) == if LastFor(b, t).Some? then LastFor(b, t) else LastFor(a, t)
  {
    if a == [] {
      assert a + b == b;
    } else {
      assert (a + b)[1..] == a[1..] + b;
      LastForAppend(a[1..], b, t);
    }
  }

  lemma {:induction false} LastForUnique(tasks: seq<Task>, x: Task)
    requires forall u | u in tasks :: u.source == x.source ==> u == x
    ensures LastFor(tasks, x.source) == if x in tasks then Some(x) else None
  {
    if tasks != [] {
      assert tasks == [tasks[0]] + tasks[1..];
      LastForUnique(tasks[1..], x);
    }
  }

  lemma {:induction false} LastForAttachments(spec: Spec, f: File, embedded: seq<Attachment>, t: string)
    ensures
      var winner := Winner(f, embedded, t);
      LastFor(AttachmentTasks(spec, f, embedded), t) ==
        if winner.None? then None
        else Some(Index(t, winner.value.chunks, IndexedRow(spec, f, winner.value.text, |winner.value.chunks|)))
  {
    if embedded != [] {
      LastForAttachments(spec, f, embedded[1..], t);
      var a, rest := embedded[0], AttachmentTasks(spec, f, embedded[1..]);
      var own := if a.chunks == [] then []
                 else [Index(f.source + "!" + a.name, a.chunks, IndexedRow(spec, f, a.text, |a.chunks|))];
      LastForAppend(own, rest, t);
      assert own != [] ==> own[1..] == [];
    }
  }

  lemma LastForDrops(stale: set<string>, t: string)
    ensures LastFor(Drops(Sorted(stale)), t) == if t in stale then Some(Drop(t)) else None
  {
    DropsOf(stale);
    LastForUnique(Drops(Sorted(stale)), Drop(t));
  }

  lemma StaleIs(spec: Spec, rows: Rows, f: File, embedded: seq<Attachment>, t: string)
    requires f.source + "!" <= t
    ensures t in EmbeddedRows(rows, spec.job, f.source) - AttachmentNames(f, embedded) <==>
              Lookup(rows, spec.job, t).Some? && t !in AttachmentNames(f, embedded)
  {
    assert RowKey(spec.job, t).source == t;
  }

  lemma {:induction false} WinnerIsNamed(f: File, embedded: seq<Attachment>, t: string)
    ensures Winner(f, embedded, t).Some? ==> t in AttachmentNames(f, embedded)
    ensures forall a | a in embedded :: f.source + "!" + a.name == t && a.chunks != [] ==> Winner(f, embedded, t).Some?
  {
    if embedded != [] {
      WinnerIsNamed(f, embedded[1..], t);
      assert embedded == [embedded[0]] + embedded[1..];
      if Winner(f, embedded[1..], t).Some? {
        var a :| a in embedded[1..] && f.source + "!" + a.name == t;
        assert a in embedded;
      }
    }
  }

  lemma IndexPlanAims(spec: Spec, rows: Rows, f: File, e: Extraction, t: string)
    requires e.Extracted? && f.source + "!" <= t && f.source !in spec.short && spec.expand && e.embedded != []
    ensures
      var winner := Winner(f, e.embedded, t);
      LastFor(IndexPlan(spec, rows, f, e).tasks, t) ==
        if winner.Some? then
          Some(Index(t, winner.value.chunks, IndexedRow(spec, f, winner.value.text, |winner.value.chunks|)))
        else if t !in AttachmentNames(f, e.embedded) && Lookup(rows, spec.job, t).Some? then Some(Drop(t))
        else None
  {
    var stale := EmbeddedRows(rows, spec.job, f.source) - AttachmentNames(f, e.embedded);
    var main := Index(f.source, e.chunks, IndexedRow(spec, f, e.text, |e.chunks|));
    var attached, drops := AttachmentTasks(spec, f, e.embedded), Drops(Sorted(stale));
    LastForAttachments(spec, f, e.embedded, t);
    LastForDrops(stale, t);
    StaleIs(spec, rows, f, e.embedded, t);
    WinnerIsNamed(f, e.embedded, t);
    LastForAppend(attached, drops, t);
    LastForAppend([main], attached + drops, t);
    assert t != f.source && [main][1..] == [];
  }

  lemma OnePerPlan(spec: Spec, rows: Rows, f: File)
    requires Reading(spec, f).Extracted? ==>
               f.source in spec.short || !spec.expand || Reading(spec, f).embedded == [] ||
               f.size > spec.maxBytes || Unchanged(spec, Lookup(rows, spec.job, f.source), f) ||
               TextKnown(spec, Lookup(rows, spec.job, f.source), Reading(spec, f).text)
    ensures
      var tasks := Decide(spec, rows, f).tasks;
      |tasks| <= 1 && (tasks != [] ==> tasks[0].source == f.source)
  {
  }

  /** A run that does not expand the container plans at most the container's own task. */
  lemma NoExpansion(spec: Spec, st: Stores, now: Stores, f: File)
    requires Processed(spec, st, f) && !Expands(spec, st, f)
    requires Lookup(now.rows, spec.job, f.source) == Lookup(st.rows, spec.job, f.source)
    ensures
      var tasks := Decide(spec, now.rows, f).tasks;
      tasks == [] || (tasks == [tasks[0]] && tasks[0].source == f.source)
  {
    OnePerPlan(spec, now.rows, f);
  }

  lemma ExpansionPlan(spec: Spec, st: Stores, now: Stores, f: File)
    requires Processed(spec, st, f) && Expands(spec, st, f)
    requires Lookup(now.rows, spec.job, f.source) == Lookup(st.rows, spec.job, f.source)
    ensures Decide(spec, now.rows, f) == IndexPlan(spec, now.rows, f, Reading(spec, f))
  {
  }

  /** The detector's plan aims where the stores before the run say. */
  lemma DecideAims(spec: Spec, st: Stores, now: Stores, f: File, t: string)
    requires f.source + "!" <= t && Processed(spec, st, f)
    requires Lookup(now.rows, spec.job, f.source) == Lookup(st.rows, spec.job, f.source)
    requires Lookup(now.rows, spec.job, t) == Lookup(st.rows, spec.job, t)
    ensures LastFor(Decide(spec, now.rows, f).tasks, t) == Aim(spec, st, f, t)
  {
    if Expands(spec, st, f) {
      ExpansionPlan(spec, st, now, f);
      IndexPlanAims(spec, now.rows, f, Reading(spec, f), t);
    } else {
      NoExpansion(spec, st, now, f);
      LastForElsewhere(Decide(spec, now.rows, f).tasks, t);
    }
  }

  // ---- one attachment, followed through the run

  /** The tasks for `t` are all of one kind, and none is a mere refresh. */
  ghost predicate OneKind(tasks: seq<Task>, t: string, aim: Option<Task>) {
    forall u | u in tasks && u.source == t :: !u.Save? && aim.Some? && (u.Drop? <==> aim.value.Drop?)
  }

  /** How far the task in hand, one for `t`, has come. */
  ghost predicate Begun(spec: Spec, now: Stores, t: string, task: Task, sub: Sub) {
    match task
    case Index(_, chunks, _) =>
      && (sub != First ==> t !in spec.short)
      && (sub == Second ==> Bare(spec, now.points, t))
      && (sub == Third ==> Holds(now.points, spec.coll, spec.job, t, chunks)
                           && Stamped(now.points, spec.coll, spec.job, t, spec.run))
    case Drop(_) => sub != First ==> Bare(spec, now.points, t)
    case Save(_, _) => false
  }

  /** Amid the container's tasks. */
  ghost predicate Amid(spec: Spec, st: Stores, now: Stores, f: File, t: string, tasks: seq<Task>, sub: Sub) {
    var aim := Aim(spec, st, f, t);
    && OneKind(tasks, t, aim)
    && (if Elsewhere(tasks, t) then Met(spec, st, now, t, aim)
        else
          && LastFor(tasks, t) == aim
          && (aim.value.Index? && t in spec.short ==> SamePoints(spec, st.points, now.points, t))
          && (tasks[0].source == t ==> Begun(spec, now, t, tasks[0], sub)))
    && (tasks != [] && tasks[0].source == f.source ==> Untouched(spec, st, now, t))
  }

  /** What any stop leaves: the attachment as it was, or a container that is written and not to be written again. */
  ghost predicate StoppedAt(spec: Spec, st: Stores, now: Stores, f: File, t: string) {
    Untouched(spec, st, now, t) || (Expands(spec, st, f) && !Writes(spec, now, f))
  }

  /** `m` is the index of the container. */
  ghost predicate Follows(c: Config, st: Stores, m: nat, t: string) {
    var r, now, spec := c.run, c.st, c.run.spec;
    && Gentle(spec) && Unmarked(spec) && m < |spec.files| && spec.files[m].source + "!" <= t
    && var f := spec.files[m];
       match r.pc
       case Admit => Untouched(spec, st, now, t)
       case Ensure => Untouched(spec, st, now, t)
       case Known => Untouched(spec, st, now, t)
       case Scan(i) => if i <= m then Untouched(spec, st, now, t) else Met(spec, st, now, t, Aim(spec, st, f, t))
       case Work(i, tasks, sub) =>
         if i < m then Untouched(spec, st, now, t) && Elsewhere(tasks, t)
         else if i == m then Amid(spec, st, now, f, t, tasks, sub)
         else Met(spec, st, now, t, Aim(spec, st, f, t)) && Elsewhere(tasks, t)
       case Vanish => Met(spec, st, now, t, Aim(spec, st, f, t))
       case Ended(o) =>
         if o == Success || o == AbortedGuard then Met(spec, st, now, t, Aim(spec, st, f, t))
         else StoppedAt(spec, st, now, f, t)
       case _ => false
  }

  lemma MetFramed(spec: Spec, st: Stores, a: Stores, b: Stores, t: string, aim: Option<Task>)
    requires Met(spec, st, a, t, aim) && Untouched(spec, a, b, t)
    ensures Met(spec, st, b, t, aim)
  {
  }

  lemma BegunFramed(spec: Spec, a: Stores, b: Stores, t: string, task: Task, sub: Sub)
    requires Begun(spec, a, t, task, sub) && Untouched(spec, a, b, t)
    ensures Begun(spec, b, t, task, sub)
  {
  }

  /** Another file's plan leaves the attachment out. */
  lemma OthersLeaveOut(spec: Spec, rows: Rows, f: File, g: File, t: string)
    requires f.source != g.source && '!' !in f.source && '!' !in g.source && g.source + "!" <= t
    ensures Elsewhere(Decide(spec, rows, f).tasks, t)
  {
    DecideStaysInFile(spec, rows, f);
    ParentOf(g.source, t);
    MarkBelow(g.source, t);
    if f.source + "!" <= t { ParentOf(f.source, t); }
  }

  /** A container's own plan before its first store call. */
  lemma PlanIsAmid(spec: Spec, st: Stores, now: Stores, f: File, t: string)
    requires f.source + "!" <= t && '!' !in f.source && Processed(spec, st, f)
    requires Untouched(spec, st, now, f.source) && Untouched(spec, st, now, t)
    ensures Amid(spec, st, now, f, t, Decide(spec, now.rows, f).tasks, First)
  {
    var tasks := Decide(spec, now.rows, f).tasks;
    DecideAims(spec, st, now, f, t);
    LastForElsewhere(tasks, t);
    PlanIsOneKind(spec, st, now, f, t);
    MarkBelow(f.source, t);
    if tasks != [] { DecideStaysHome(spec, now.rows, f); }
  }

  lemma PlanIsOneKind(spec: Spec, st: Stores, now: Stores, f: File, t: string)
    requires f.source + "!" <= t && '!' !in f.source && Processed(spec, st, f)
    requires Lookup(now.rows, spec.job, f.source) == Lookup(st.rows, spec.job, f.source)
    requires Lookup(now.rows, spec.job, t) == Lookup(st.rows, spec.job, t)
    ensures OneKind(Decide(spec, now.rows, f).tasks, t, Aim(spec, st, f, t))
  {
    MarkBelow(f.source, t);
    if Expands(spec, st, f) {
      ExpansionPlan(spec, st, now, f);
      IndexPlanIsOneKind(spec, now.rows, f, Reading(spec, f), t);
      WinnerIsNamed(f, Reading(spec, f).embedded, t);
    } else {
      NoExpansion(spec, st, now, f);
    }
  }

  /** What the container names is indexed or left, what it does not name is dropped. */
  lemma IndexPlanIsOneKind(spec: Spec, rows: Rows, f: File, e: Extraction, t: string)
    requires e.Extracted? && f.source + "!" <= t && f.source !in spec.short && spec.expand && e.embedded != []
    ensures forall u | u in IndexPlan(spec, rows, f, e).tasks && u.source == t ::
              if Winner(f, e.embedded, t).Some? then u.Index?
              else u == Drop(t) && t !in AttachmentNames(f, e.embedded) && Lookup(rows, spec.job, t).Some?
  {
    var stale := EmbeddedRows(rows, spec.job, f.source) - AttachmentNames(f, e.embedded);
    AttachmentTasksNamed(spec, f, e.embedded);
    DropsOf(stale);
    WinnerIsNamed(f, e.embedded, t);
    StaleIs(spec, rows, f, e.embedded, t);
  }

  lemma {:induction false} AttachmentTasksNamed(spec: Spec, f: File, embedded: seq<Attachment>)
    ensures forall u | u in AttachmentTasks(spec, f, embedded) ::
              u.Index? && exists a :: a in embedded && a.chunks != [] && f.source + "!" + a.name == u.source
  {
    if embedded != [] {
      AttachmentTasksNamed(spec, f, embedded[1..]);
      assert embedded == [embedded[0]] + embedded[1..];
      forall u | u in AttachmentTasks(spec, f, embedded)
        ensures u.Index? && exists a :: a in embedded && a.chunks != [] && f.source + "!" + a.name == u.source
      {
        if u in AttachmentTasks(spec, f, embedded[1..]) {
          var a :| a in embedded[1..] && a.chunks != [] && f.source + "!" + a.name == u.source;
          assert a in embedded;
        } else {
          assert embedded[0] in embedded;
        }
      }
    }
  }

  // ---- steps

  lemma ScanFollows(c: Config, st: Stores, m: nat, t: string)
    requires Inv(c, st, m) && Follows(c, st, m, t) && c.run.pc.Scan?
    ensures Follows(Step(c), st, m, t)
  {
    var spec, i := c.run.spec, c.run.pc.i;
    if i < |spec.files| && i !in spec.aborts {
      assert spec.files[m] in spec.files && spec.files[i] in spec.files;
      if i != m { OthersLeaveOut(spec, c.st.rows, spec.files[i], spec.files[m], t); }
      else { ScanHereFollows(c, st, m, t); }
    }
    if i < |spec.files| && i in spec.aborts && i > m { MetReaches(c, st, m, t); }
  }

  lemma ScanHereFollows(c: Config, st: Stores, m: nat, t: string)
    requires Inv(c, st, m) && Follows(c, st, m, t) && c.run.pc == Scan(m) && m !in c.run.spec.aborts
    ensures Follows(Step(c), st, m, t)
  {
    var spec := c.run.spec;
    var f := spec.files[m];
    assert f in spec.files;
    if Processed(spec, st, f) { PlanIsAmid(spec, st, c.st, f, t); }
  }

  /** Once the container is through, it is either not written by the run or not to be written again. */
  lemma MetReaches(c: Config, st: Stores, m: nat, t: string)
    requires m < |c.run.spec.files|
    requires Documents.Outcome(c.run.spec, st, c.st, c.run.spec.files[m])
    ensures
      var spec, f := c.run.spec, c.run.spec.files[m];
      (Expands(spec, st, f) ==> StoppedAt(spec, st, c.st, f, t))
      && (Met(spec, st, c.st, t, Aim(spec, st, f, t)) ==> StoppedAt(spec, st, c.st, f, t))
  {
  }

  lemma LastForStep(tasks: seq<Task>, t: string)
    requires tasks != []
    ensures Elsewhere(tasks, t) <==> tasks[0].source != t && Elsewhere(tasks[1..], t)
    ensures !Elsewhere(tasks[1..], t) ==> LastFor(tasks, t) == LastFor(tasks[1..], t)
    ensures Elsewhere(tasks[1..], t) && tasks[0].source == t ==> LastFor(tasks, t) == Some(tasks[0])
  {
    assert tasks == [tasks[0]] + tasks[1..];
    LastForElsewhere(tasks[1..], t);
  }

  /** A task for another source done, the attachment is where it was. */
  lemma OtherTaskDone(spec: Spec, st: Stores, a: Stores, b: Stores, f: File, t: string, tasks: seq<Task>, sub: Sub)
    requires Amid(spec, st, a, f, t, tasks, sub) && Untouched(spec, a, b, t)
    requires tasks != [] && tasks[0].source != t && Elsewhere(tasks[1..], f.source)
    ensures Amid(spec, st, b, f, t, tasks[1..], First)
  {
    LastForStep(tasks, t);
    if Elsewhere(tasks, t) { MetFramed(spec, st, a, b, t, Aim(spec, st, f, t)); }
    assert forall u | u in tasks[1..] :: u in tasks;
    if tasks[1..] != [] { assert tasks[1..][0] in tasks[1..]; }
  }

  lemma OtherTaskGoesOn(spec: Spec, st: Stores, a: Stores, b: Stores, f: File, t: string, tasks: seq<Task>, sub: Sub,
                        next: Sub)
    requires Amid(spec, st, a, f, t, tasks, sub) && Untouched(spec, a, b, t)
    requires tasks != [] && tasks[0].source != t
    ensures Amid(spec, st, b, f, t, tasks, next)
  {
    if Elsewhere(tasks, t) { MetFramed(spec, st, a, b, t, Aim(spec, st, f, t)); }
  }

  /** The attachment's own task, gone on. */
  lemma OwnTaskGoesOn(spec: Spec, st: Stores, a: Stores, b: Stores, f: File, t: string, tasks: seq<Task>, sub: Sub,
                      next: Sub)
    requires Amid(spec, st, a, f, t, tasks, sub) && t != f.source
    requires tasks != [] && tasks[0].source == t && Begun(spec, b, t, tasks[0], next)
    requires tasks[0].Index? ==> t !in spec.short
    ensures Amid(spec, st, b, f, t, tasks, next)
  {
    assert tasks[0] in tasks;
  }

  /** The attachment's own task, done: of several tasks for it the last decides. */
  lemma OwnTaskDone(spec: Spec, st: Stores, a: Stores, b: Stores, f: File, t: string, tasks: seq<Task>, sub: Sub)
    requires Amid(spec, st, a, f, t, tasks, sub) && t != f.source
    requires tasks != [] && tasks[0].source == t && Elsewhere(tasks[1..], f.source)
    requires Met(spec, st, b, t, Some(tasks[0]))
    ensures Amid(spec, st, b, f, t, tasks[1..], First)
  {
    LastForStep(tasks, t);
    assert tasks[0] in tasks && forall u | u in tasks[1..] :: u in tasks;
    if tasks[1..] != [] { assert tasks[1..][0] in tasks[1..]; }
  }

  /** One store call of a task for the attachment. */
  lemma OwnCall(c: Config, st: Stores, t: string)
    requires c.run.pc.Work? && c.run.pc.tasks != [] && c.run.pc.tasks[0].source == t && !c.run.pc.tasks[0].Save?
    requires
      var task, spec := c.run.pc.tasks[0], c.run.spec;
      && Begun(spec, c.st, t, task, c.run.pc.sub)
      && (task.Index? && t in spec.short ==> SamePoints(spec, st.points, c.st.points, t))
    ensures
      var pc, d, spec := c.run.pc, WorkStep(c), c.run.spec;
      || (d.run == c.run.(pc := Ended(Failed)) && d.st == c.st)
      || (d.run == c.run.(pc := Work(pc.i, pc.tasks[1..], First)) && Met(spec, st, d.st, t, Some(pc.tasks[0])))
      || (d.run.pc.Work? && d.run == c.run.(pc := Work(pc.i, pc.tasks, d.run.pc.sub))
          && Begun(spec, d.st, t, pc.tasks[0], d.run.pc.sub) && (pc.tasks[0].Index? ==> t !in spec.short))
  {
    if c.run.pc.tasks[0].Drop? { DropCall(c, st, t); } else { IndexCall(c, st, t); }
  }

  lemma DropCall(c: Config, st: Stores, t: string)
    requires c.run.pc.Work? && c.run.pc.tasks != [] && c.run.pc.tasks[0] == Drop(t)
    requires c.run.pc.sub != First ==> Bare(c.run.spec, c.st.points, t)
    ensures
      var pc, d, spec := c.run.pc, WorkStep(c), c.run.spec;
      if pc.sub == First then
        d.run == c.run.(pc := Work(pc.i, pc.tasks, Second)) && Bare(spec, d.st.points, t)
      else
        && d.run == c.run.(pc := Work(pc.i, pc.tasks[1..], First))
        && Bare(spec, d.st.points, t) && Lookup(d.st.rows, spec.job, t) == None
  {
  }

  lemma IndexCall(c: Config, st: Stores, t: string)
    requires c.run.pc.Work? && c.run.pc.tasks != [] && c.run.pc.tasks[0].source == t && c.run.pc.tasks[0].Index?
    requires
      var task, spec := c.run.pc.tasks[0], c.run.spec;
      && Begun(spec, c.st, t, task, c.run.pc.sub)
      && (t in spec.short ==> SamePoints(spec, st.points, c.st.points, t))
    ensures
      var pc, d, spec := c.run.pc, WorkStep(c), c.run.spec;
      || (d.run == c.run.(pc := Ended(Failed)) && d.st == c.st)
      || (d.run == c.run.(pc := Work(pc.i, pc.tasks[1..], First)) && Met(spec, st, d.st, t, Some(pc.tasks[0])))
      || (d.run.pc.Work? && d.run == c.run.(pc := Work(pc.i, pc.tasks, d.run.pc.sub))
          && Begun(spec, d.st, t, pc.tasks[0], d.run.pc.sub) && t !in spec.short)
  {
    match c.run.pc.sub
    case First =>
    case Second => IndexSecondCall(c, t);
    case Third =>
  }

  lemma IndexSecondCall(c: Config, t: string)
    requires c.run.pc.Work? && c.run.pc.tasks != [] && c.run.pc.tasks[0].source == t && c.run.pc.tasks[0].Index?
    requires c.run.pc.sub == Second && t !in c.run.spec.short && Bare(c.run.spec, c.st.points, t)
    ensures
      var pc, d, spec := c.run.pc, WorkStep(c), c.run.spec;
      && d.run == c.run.(pc := Work(pc.i, pc.tasks, Third))
      && Holds(d.st.points, spec.coll, spec.job, t, pc.tasks[0].chunks)
      && Stamped(d.st.points, spec.coll, spec.job, t, spec.run)
  {
  }

  lemma AmidTask(spec: Spec, st: Stores, now: Stores, f: File, t: string, tasks: seq<Task>, sub: Sub)
    requires Amid(spec, st, now, f, t, tasks, sub) && tasks != [] && tasks[0].source == t
    ensures !tasks[0].Save? && Begun(spec, now, t, tasks[0], sub)
    ensures tasks[0].Index? && t in spec.short ==> SamePoints(spec, st.points, now.points, t)
  {
    assert tasks[0] in tasks;
  }

  lemma FailureReaches(c: Config, st: Stores, m: nat, t: string)
    requires Inv(c, st, m) && Follows(c, st, m, t) && c.run.pc.Work? && c.run.pc.i == m && c.run.pc.tasks != []
    ensures StoppedAt(c.run.spec, st, c.st, c.run.spec.files[m], t)
  {
    var f, tasks := c.run.spec.files[m], c.run.pc.tasks;
    if tasks[0].source != f.source { MetReaches(c, st, m, t); }
  }

  /** Among the container's tasks those behind the first are not its own. */
  lemma RestIsElsewhere(c: Config, st: Stores, m: nat)
    requires Inv(c, st, m) && c.run.pc.Work? && c.run.pc.i == m && c.run.pc.tasks != []
    ensures Elsewhere(c.run.pc.tasks[1..], c.run.spec.files[m].source)
  {
    assert forall u | u in c.run.pc.tasks[1..] :: u in c.run.pc.tasks;
  }

  lemma WorkHereFollows(c: Config, st: Stores, m: nat, t: string)
    requires Inv(c, st, m) && Follows(c, st, m, t) && c.run.pc.Work? && c.run.pc.i == m && c.run.pc.tasks != []
    ensures Follows(WorkStep(c), st, m, t)
  {
    var spec, d := c.run.spec, WorkStep(c);
    var f, tasks, sub := spec.files[m], c.run.pc.tasks, c.run.pc.sub;
    FailureReaches(c, st, m, t);
    RestIsElsewhere(c, st, m);
    WorkMoves(c);
    MarkBelow(f.source, t);
    assert f in spec.files;
    if tasks[0].source == t {
      AmidTask(spec, st, c.st, f, t, tasks, sub);
      OwnCall(c, st, t);
      if d.run.pc.Work? {
        if d.run.pc.tasks == tasks { OwnTaskGoesOn(spec, st, c.st, d.st, f, t, tasks, sub, d.run.pc.sub); }
        else { OwnTaskDone(spec, st, c.st, d.st, f, t, tasks, sub); }
      }
    } else {
      OthersFramed(c, t);
      if d.run.pc.Work? {
        if d.run.pc.tasks == tasks { OtherTaskGoesOn(spec, st, c.st, d.st, f, t, tasks, sub, d.run.pc.sub); }
        else { OtherTaskDone(spec, st, c.st, d.st, f, t, tasks, sub); }
      }
    }
  }

  lemma WorkElsewhereFollows(c: Config, st: Stores, m: nat, t: string)
    requires Follows(c, st, m, t) && c.run.pc.Work? && c.run.pc.i != m
    requires c.run.pc.i > m ==> Inv(c, st, m)
    ensures Follows(WorkStep(c), st, m, t)
  {
    var spec := c.run.spec;
    ElsewhereFrames(c, t);
    WorkMoves(c);
    if c.run.pc.i > m {
      var f := spec.files[m];
      MetFramed(spec, st, c.st, WorkStep(c).st, t, Aim(spec, st, f, t));
      MetReaches(c, st, m, t);
    }
    ElsewhereMoves(c, WorkStep(c), st, m, t);
  }

  lemma ElsewhereMoves(c: Config, d: Config, st: Stores, m: nat, t: string)
    requires Follows(c, st, m, t) && c.run.pc.Work? && c.run.pc.i != m && Moved(c, d)
    requires d.run.pc == Ended(Failed) ==> d.st == c.st
    requires c.run.pc.i < m ==> Untouched(c.run.spec, st, d.st, t)
    requires
      var spec, f := c.run.spec, c.run.spec.files[m];
      c.run.pc.i > m ==> Met(spec, st, d.st, t, Aim(spec, st, f, t)) && StoppedAt(spec, st, c.st, f, t)
    ensures Follows(d, st, m, t)
  {
    assert c.run.pc.tasks != [] ==> forall u | u in c.run.pc.tasks[1..] :: u in c.run.pc.tasks;
  }

  /** What has a container in the tree is not deleted as vanished. */
  lemma VanishFollows(c: Config, st: Stores, m: nat, t: string)
    requires Inv(c, st, m) && Follows(c, st, m, t) && c.run.pc.Vanish?
    ensures Follows(Step(c), st, m, t)
  {
    assert c.run.spec.files[m] in c.run.spec.files;
    ParentOf(c.run.spec.files[m].source, t);
    VanishIsJudged(c);
    JudgedFollows(c, Step(c), st, m, t);
  }

  lemma JudgedFollows(c: Config, d: Config, st: Stores, m: nat, t: string)
    requires Inv(c, st, m) && Follows(c, st, m, t) && c.run.pc.Vanish? && Judged(c, d)
    requires Parent(t) == c.run.spec.files[m].source
    ensures Follows(d, st, m, t)
  {
  }

  lemma PrepareFollows(c: Config, st: Stores, m: nat, t: string)
    requires Follows(c, st, m, t) && (c.run.pc.Admit? || c.run.pc.Ensure? || c.run.pc.Known?)
    ensures Follows(Prepare(c), st, m, t)
  {
  }

  lemma StepFollows(c: Config, st: Stores, m: nat, t: string)
    requires Inv(c, st, m) && Follows(c, st, m, t)
    ensures Follows(Step(c), st, m, t)
  {
    match c.run.pc
    case Scan(_) => ScanFollows(c, st, m, t);
    case Work(i, tasks, _) =>
      if i != m { WorkElsewhereFollows(c, st, m, t); }
      else if tasks != [] { WorkHereFollows(c, st, m, t); }
    case Vanish => VanishFollows(c, st, m, t);
    case Ended(_) =>
    case _ => PrepareFollows(c, st, m, t);
  }

  lemma FollowsAlways(spec: Spec, st: Stores, m: nat, n: nat, t: string)
    requires Gentle(spec) && Unmarked(spec) && m < |spec.files| && spec.files[m].source + "!" <= t
    ensures
      var c := Exec(Config(Begin(spec), st), n);
      Inv(c, st, m) && Follows(c, st, m, t) && c.run.spec == spec
  {
    var inv := (d: Config) => Inv(d, st, m) && Follows(d, st, m, t) && d.run.spec == spec;
    forall d | inv(d) ensures inv(Step(d)) {
      StepKeeps(d, st, m);
      StepFollows(d, st, m, t);
      StepKeepsSpec(d);
    }
    Invariant(Step, inv, Config(Begin(spec), st), n);
  }

  lemma StepKeepsSpec(c: Config)
    ensures Step(c).run.spec == c.run.spec
  {
  }

  // ---- main results

  /**
   After a successful upsert or append, from any stores whatever: a name below a file of the tree is
   where the stores before the run say. If the run writes the container and finds attachments in it,
   what it names and can chunk is there under this run, what it does not name any more is gone, and
   what it names without a chunk is as it was. In every other case all are as they were.
   */
  lemma AttachmentFate(spec: Spec, st: Stores, n: nat, f: File, t: string)
    requires Gentle(spec) && Unmarked(spec) && f in spec.files && f.source + "!" <= t
    requires Exec(Config(Begin(spec), st), n).run.pc == Ended(Success)
    ensures Met(spec, st, Exec(Config(Begin(spec), st), n).st, t, Aim(spec, st, f, t))
  {
    var m :| 0 <= m < |spec.files| && spec.files[m] == f;
    FollowsAlways(spec, st, m, n, t);
  }

  /** At every step of every run that does not write the container, its attachments are as before. */
  lemma AttachmentsStay(spec: Spec, st: Stores, n: nat, f: File, t: string)
    requires Gentle(spec) && Unmarked(spec) && f in spec.files && f.source + "!" <= t && !Expands(spec, st, f)
    ensures Untouched(spec, st, Exec(Config(Begin(spec), st), n).st, t)
  {
    var m :| 0 <= m < |spec.files| && spec.files[m] == f;
    FollowsAlways(spec, st, m, n, t);
    StaysUntouched(Exec(Config(Begin(spec), st), n), st, m, t);
  }

  lemma StaysUntouched(c: Config, st: Stores, m: nat, t: string)
    requires Follows(c, st, m, t) && !Expands(c.run.spec, st, c.run.spec.files[m])
    ensures Untouched(c.run.spec, st, c.st, t)
  {
    if c.run.pc.Work? { LastForElsewhere(c.run.pc.tasks, t); }
  }

  /** A stop finds an attachment as it was, unless its container is written and will not be written again. */
  lemma StopKeepsOrCommits(spec: Spec, st: Stores, n: nat, f: File, t: string)
    requires Gentle(spec) && Unmarked(spec) && f in spec.files && f.source + "!" <= t
    ensures StoppedAt(spec, st, Exec(Config(Begin(spec), st), n).st, f, t)
  {
    var m :| 0 <= m < |spec.files| && spec.files[m] == f;
    FollowsAlways(spec, st, m, n, t);
    AnywhereStopped(Exec(Config(Begin(spec), st), n), st, m, t);
  }

  lemma AnywhereStopped(c: Config, st: Stores, m: nat, t: string)
    requires Inv(c, st, m) && Follows(c, st, m, t)
    ensures StoppedAt(c.run.spec, st, c.st, c.run.spec.files[m], t)
  {
    match c.run.pc
    case Scan(i) => if i > m { MetReaches(c, st, m, t); }
    case Work(i, tasks, _) =>
      if i > m { MetReaches(c, st, m, t); }
      else if i == m && tasks == [] { MetReaches(c, st, m, t); }
      else if i == m { FailureReaches(c, st, m, t); }
    case Vanish => MetReaches(c, st, m, t);
    case Ended(o) => if o == Success || o == AbortedGuard { MetReaches(c, st, m, t); }
    case _ =>
  }
}
