/**
 Where crash convergence ends: attachments. A container's row commits before its attachments, and
 from then on the change detector takes the whole container for done. So a stop in between leaves
 attachments that no rerun over the same tree comes back to, and exactly those.
 */
module Containers {
  import opened Stores
  import opened Order
  import opened Machines
  import opened Protocol
  import opened Documents
  import opened Attachments
  import opened Recovery

  // ---- one run, from any stores

  /** The container names `t` and has chunks for it, and it gets its vectors. */
  predicate Deliverable(spec: Spec, f: File, t: string) {
    && spec.expand && Reading(spec, f).Extracted? && Winner(f, Reading(spec, f).embedded, t).Some?
    && t !in spec.short
  }

  function ChunksOf(spec: Spec, f: File, t: string): seq<string>
    requires Deliverable(spec, f, t)
  {
    Winner(f, Reading(spec, f).embedded, t).value.chunks
  }

  /**
   Exactly when a run leaves an attachment right: it writes the container, or the attachment was
   right already. After a stop the stores are those the stop left: the rerun repairs exactly the
   attachments whose container's row still lets it write the container.
   */
  lemma AttachmentRightIff(spec: Spec, st: Stores, n: nat, f: File, t: string)
    requires Gentle(spec) && Unmarked(spec) && f in spec.files && f.source + "!" <= t && Deliverable(spec, f, t)
    requires Exec(Config(Begin(spec), st), n).run.pc == Ended(Success)
    ensures
      var now := Exec(Config(Begin(spec), st), n).st;
      Holds(now.points, spec.coll, spec.job, t, ChunksOf(spec, f, t)) <==>
        Writes(spec, st, f) || Holds(st.points, spec.coll, spec.job, t, ChunksOf(spec, f, t))
  {
    AttachmentFate(spec, st, n, f, t);
    WinnerIsNamed(f, Reading(spec, f).embedded, t);
  }

  /**
   A container that is taken for unchanged keeps everything below it, at every step of every later
   run, whatever else its tree holds and whether or not what is below it was ever finished.
   */
  lemma UnchangedKeepsBelow(spec: Spec, st: Stores, n: nat, f: File, s: string)
    requires Gentle(spec) && Unmarked(spec) && f in spec.files && f.source + "!" <= s
    requires f.size <= spec.maxBytes && Unchanged(spec, Lookup(st.rows, spec.job, f.source), f)
    ensures Untouched(spec, st, Exec(Config(Begin(spec), st), n).st, s)
  {
    AttachmentsStay(spec, st, n, f, s);
  }

  // ---- stops amid a container

  /** The container is committed, and the task in hand is for an attachment. */
  predicate AmidAttachments(r: Run, f: File) {
    r.pc.Work? && r.pc.i < |r.spec.files| && r.spec.files[r.pc.i] == f && r.pc.tasks != [] &&
    r.pc.tasks[0].source != f.source
  }

  /**
   Stop a run amid a container's attachments: every later upsert over a tree with the same container,
   under the same parameters, leaves them all as the stop left them.
   */
  lemma StoppedAttachmentsStay(spec: Spec, st: Stores, n: nat, later: Spec, m: nat, f: File, t: string)
    requires Gentle(spec) && Unmarked(spec) && AmidAttachments(Exec(Config(Begin(spec), st), n).run, f)
    requires Gentle(later) && Unmarked(later) && later.job == spec.job && later.params == spec.params
    requires f in later.files && f.size <= later.maxBytes && f.source + "!" <= t
    ensures
      var left := Exec(Config(Begin(spec), st), n).st;
      Untouched(later, left, Exec(Config(Begin(later), left), m).st, t)
  {
    var c := Exec(Config(Begin(spec), st), n);
    SpecStays(spec, st, n);
    Always(spec, st, c.run.pc.i, n);
    AmidIsCommitted(c, st, f);
    UnchangedKeepsBelow(later, c.st, m, f, t);
  }

  lemma SpecStays(spec: Spec, st: Stores, n: nat)
    ensures Exec(Config(Begin(spec), st), n).run.spec == spec
  {
    var inv := (d: Config) => d.run.spec == spec;
    forall d | inv(d) ensures inv(Step(d)) { StepKeepsSpec(d); }
    Invariant(Step, inv, Config(Begin(spec), st), n);
  }

  lemma AmidIsCommitted(c: Config, st: Stores, f: File)
    requires AmidAttachments(c.run, f) && Inv(c, st, c.run.pc.i)
    ensures
      var row := Lookup(c.st.rows, c.run.spec.job, f.source);
      row.Some? && SameStat(c.run.spec, row.value, f)
  {
  }

  // ---- any number of stops

  /** At `t` the stores hold what a run that started from `st` and was never stopped makes of it. */
  ghost predicate Delivered(spec: Spec, st: Stores, now: Stores, f: File, t: string) {
    match Aim(spec, st, f, t)
    case None => AlikeAt(spec, st, now, t)
    case Some(Index(_, chunks, row)) =>
      var found := Lookup(now.rows, spec.job, t);
      && found.Some?
      && (if t in spec.short then
            && SameTextsAt(spec, st, now, t)
            && found.value.(run := "") == row.(status := FailedEmbed, chunks := 0, run := "")
          else Holds(now.points, spec.coll, spec.job, t, chunks) && found.value.(run := "") == row.(run := ""))
    case Some(Drop(_)) => Bare(spec, now.points, t) && Lookup(now.rows, spec.job, t) == None
    case Some(Save(_, _)) => false
  }

  lemma MetIsDelivered(spec: Spec, st: Stores, now: Stores, f: File, t: string)
    requires Met(spec, st, now, t, Aim(spec, st, f, t))
    ensures Delivered(spec, st, now, f, t)
  {
  }

  lemma DeliveredAlike(spec: Spec, st: Stores, a: Stores, b: Stores, f: File, t: string)
    requires Delivered(spec, st, a, f, t)
    ensures Delivered(spec, st, b, f, t) <==> AlikeAt(spec, a, b, t)
  {
  }

  lemma UntouchedAlike(spec: Spec, a: Stores, b: Stores, other: Stores, t: string)
    requires Untouched(spec, a, b, t)
    ensures AlikeAt(spec, a, other, t) <==> AlikeAt(spec, b, other, t)
  {
  }

  lemma StopKeepsAttachment(a: Spec, again: Spec, st: Stores, n: nat, f: File, t: string)
    requires Rerunnable(again) && SameAttempt(a, again) && f in again.files && f.source + "!" <= t
    ensures StoppedAt(again, st, Exec(Config(Begin(a), st), n).st, f, t)
  {
    StopKeepsOrCommits(a, st, n, f, t);
  }

  lemma WritesShrinks(spec: Spec, st: Stores, now: Stores, f: File)
    requires spec.mode == Upsert && Reached(spec, st, now, f)
    ensures Writes(spec, now, f) ==> Lookup(now.rows, spec.job, f.source) == Lookup(st.rows, spec.job, f.source)
  {
    if Landed(spec, st, now, f) { LandedWritesNoMore(spec, st, now, f); }
  }

  lemma ReachesCompose(spec: Spec, st: Stores, mid: Stores, now: Stores, f: File, t: string)
    requires spec.mode == Upsert && StoppedAt(spec, st, mid, f, t) && StoppedAt(spec, mid, now, f, t)
    requires Reached(spec, st, mid, f) && Reached(spec, mid, now, f)
    ensures StoppedAt(spec, st, now, f, t)
  {
    WritesShrinks(spec, st, mid, f);
    WritesShrinks(spec, mid, now, f);
  }

  lemma {:induction false} StopsReach(specs: seq<Spec>, stops: seq<nat>, st: Stores, again: Spec, f: File, t: string)
    requires |specs| == |stops| && Rerunnable(again) && forall a | a in specs :: SameAttempt(a, again)
    requires f in again.files && f.source + "!" <= t
    ensures StoppedAt(again, st, Stopped(specs, stops, st), f, t)
  {
    if specs != [] {
      var mid, now := Exec(Config(Begin(specs[0]), st), stops[0]).st, Stopped(specs, stops, st);
      assert specs[0] in specs && forall a | a in specs[1..] :: a in specs;
      StopKeepsAttachment(specs[0], again, st, stops[0], f, t);
      StopsReach(specs[1..], stops[1..], mid, again, f, t);
      StopKeeps(specs[0], again, st, stops[0]);
      StopsKeep(specs[1..], stops[1..], mid, again);
      ReachesCompose(again, st, mid, now, f, t);
    }
  }

  /** From where the stops have got to, the rerun aims where the straight run did, or nowhere. */
  lemma SameAim(spec: Spec, st: Stores, mid: Stores, f: File, t: string)
    requires spec.mode == Upsert && StoppedAt(spec, st, mid, f, t) && Reached(spec, st, mid, f)
    ensures
      if Writes(spec, mid, f) then Untouched(spec, st, mid, t) && Aim(spec, mid, f, t) == Aim(spec, st, f, t)
      else Aim(spec, mid, f, t) == None
  {
    WritesShrinks(spec, st, mid, f);
  }

  /**
   An attachment after any number of stops and a successful rerun over the same tree, exactly: it is
   as in the run that was never stopped if and only if what the stops left of the container's row
   still lets the rerun write the container, or what they left of the attachment was already so.
   */
  lemma AttachmentConvergesExactly(specs: seq<Spec>, stops: seq<nat>, st: Stores, again: Spec, m: nat, k: nat, f: File,
                                   t: string)
    requires |specs| == |stops| && Rerunnable(again) && forall a | a in specs :: SameAttempt(a, again)
    requires Exec(Config(Begin(again), Stopped(specs, stops, st)), m).run.pc == Ended(Success)
    requires Exec(Config(Begin(again), st), k).run.pc == Ended(Success)
    requires f in again.files && f.source + "!" <= t
    ensures
      var mid := Stopped(specs, stops, st);
      var rerun, straight := Exec(Config(Begin(again), mid), m).st, Exec(Config(Begin(again), st), k).st;
      AlikeAt(again, rerun, straight, t) <==> Writes(again, mid, f) || Delivered(again, st, mid, f, t)
  {
    var mid := Stopped(specs, stops, st);
    var rerun, straight := Exec(Config(Begin(again), mid), m).st, Exec(Config(Begin(again), st), k).st;
    StopsReach(specs, stops, st, again, f, t);
    StopsKeep(specs, stops, st, again);
    AttachmentFate(again, mid, m, f, t);
    AttachmentFate(again, st, k, f, t);
    ConvergesFrom(again, st, mid, rerun, straight, f, t);
  }

  lemma ConvergesFrom(spec: Spec, st: Stores, mid: Stores, rerun: Stores, straight: Stores, f: File, t: string)
    requires spec.mode == Upsert && StoppedAt(spec, st, mid, f, t) && Reached(spec, st, mid, f)
    requires Met(spec, mid, rerun, t, Aim(spec, mid, f, t)) && Met(spec, st, straight, t, Aim(spec, st, f, t))
    ensures AlikeAt(spec, rerun, straight, t) <==> Writes(spec, mid, f) || Delivered(spec, st, mid, f, t)
  {
    SameAim(spec, st, mid, f, t);
    MetIsDelivered(spec, st, straight, f, t);
    if Writes(spec, mid, f) {
      MetFromUntouched(spec, st, mid, rerun, t, Aim(spec, st, f, t));
      MetIsDelivered(spec, st, rerun, f, t);
      DeliveredAlike(spec, st, rerun, straight, f, t);
    } else {
      UntouchedAlike(spec, mid, rerun, straight, t);
      DeliveredAlike(spec, st, straight, mid, f, t);
      AlikeBack(spec, mid, straight, t);
    }
  }

  lemma MetFromUntouched(spec: Spec, st: Stores, mid: Stores, now: Stores, t: string, aim: Option<Task>)
    requires Untouched(spec, st, mid, t) && Met(spec, mid, now, t, aim)
    ensures Met(spec, st, now, t, aim)
  {
  }

  lemma AlikeBack(spec: Spec, a: Stores, b: Stores, s: string)
    ensures AlikeAt(spec, a, b, s) <==> AlikeAt(spec, b, a, s)
  {
  }

  // ---- the whole job

  lemma ViewsAlike(spec: Spec, a: Stores, b: Stores, s: string)
    requires Texts(a.points, spec.coll, spec.job) == Texts(b.points, spec.coll, spec.job)
    requires RowView(a.rows, spec.job) == RowView(b.rows, spec.job)
    ensures AlikeAt(spec, a, b, s)
  {
    forall i: nat
      ensures
        var k := PointKey(spec.coll, spec.job, s, i);
        (k in a.points <==> k in b.points) && (k in a.points && k in b.points ==> a.points[k].text == b.points[k].text)
    {
      var k := PointKey(spec.coll, spec.job, s, i);
      assert k in Texts(a.points, spec.coll, spec.job) <==> k in a.points;
      assert k in Texts(b.points, spec.coll, spec.job) <==> k in b.points;
    }
    TrackedByLookup(a.rows, spec.job, s);
    TrackedByLookup(b.rows, spec.job, s);
    assert s in RowView(a.rows, spec.job) <==> s in Tracked(a.rows, spec.job);
    assert s in RowView(b.rows, spec.job) <==> s in Tracked(b.rows, spec.job);
  }

  /** What the stops left of a container's attachments: nothing to do, or a container still to be written. */
  ghost predicate Recoverable(spec: Spec, st: Stores, mid: Stores, f: File) {
    Writes(spec, mid, f) || forall t | f.source + "!" <= t :: Delivered(spec, st, mid, f, t)
  }

  /**
   So an expanding upsert, stopped anywhere and any number of times and then rerun to success, leaves
   the job's points and rows as if it had never been stopped if and only if the stops left every
   container either still to be written or with all below it as it is to be.
   */
  lemma CrashesConvergeExactly(specs: seq<Spec>, stops: seq<nat>, st: Stores, again: Spec, m: nat, k: nat)
    requires |specs| == |stops| && Rerunnable(again) && forall a | a in specs :: SameAttempt(a, again)
    requires Exec(Config(Begin(again), Stopped(specs, stops, st)), m).run.pc == Ended(Success)
    requires Exec(Config(Begin(again), st), k).run.pc == Ended(Success)
    ensures
      var mid := Stopped(specs, stops, st);
      var rerun, straight := Exec(Config(Begin(again), mid), m).st, Exec(Config(Begin(again), st), k).st;
      && Texts(rerun.points, again.coll, again.job) == Texts(straight.points, again.coll, again.job)
      && RowView(rerun.rows, again.job) == RowView(straight.rows, again.job)
      <==> forall f | f in again.files :: Recoverable(again, st, mid, f)
  {
    var mid := Stopped(specs, stops, st);
    var rerun, straight := Exec(Config(Begin(again), mid), m).st, Exec(Config(Begin(again), st), k).st;
    CrashesConverge(specs, stops, st, again, m, k);
    forall f, t | f in again.files && f.source + "!" <= t
      ensures AlikeAt(again, rerun, straight, t) <==> Writes(again, mid, f) || Delivered(again, st, mid, f, t)
    {
      AttachmentConvergesExactly(specs, stops, st, again, m, k, f, t);
    }
    if forall f | f in again.files :: Recoverable(again, st, mid, f) {
      AllRecoverable(again, st, mid, rerun, straight);
    }
    if Texts(rerun.points, again.coll, again.job) == Texts(straight.points, again.coll, again.job)
       && RowView(rerun.rows, again.job) == RowView(straight.rows, again.job)
    {
      forall s ensures AlikeAt(again, rerun, straight, s) { ViewsAlike(again, rerun, straight, s); }
    }
  }

  lemma AllRecoverable(spec: Spec, st: Stores, mid: Stores, rerun: Stores, straight: Stores)
    requires forall f | f in spec.files :: Recoverable(spec, st, mid, f)
    requires forall s | !Attached(spec, s) :: AlikeAt(spec, rerun, straight, s)
    requires forall f, t | f in spec.files && f.source + "!" <= t ::
               AlikeAt(spec, rerun, straight, t) <==> Writes(spec, mid, f) || Delivered(spec, st, mid, f, t)
    ensures Texts(rerun.points, spec.coll, spec.job) == Texts(straight.points, spec.coll, spec.job)
    ensures RowView(rerun.rows, spec.job) == RowView(straight.rows, spec.job)
  {
    forall s ensures AlikeAt(spec, rerun, straight, s) {
      if Attached(spec, s) {
        var f :| f in spec.files && f.source + "!" <= s;
        assert Recoverable(spec, st, mid, f);
      }
    }
    AlikeEverywhere(spec, rerun, straight);
  }

  // ---- an outage that loses an attachment

  const FRESH: Stores := Stores(map[], map[], map[])

  /** An expanding upsert over one readable file that holds one attachment. */
  ghost predicate LoneContainer(spec: Spec, f: File, a: Attachment) {
    && spec.mode == Upsert && spec.expand && !spec.dryRun && spec.ready && spec.admitted && spec.aborts == {}
    && spec.short == {}
    && spec.files == [f] && '!' !in f.source && f.size <= spec.maxBytes
    && Reading(spec, f).Extracted? && Reading(spec, f).embedded == [a] && a.chunks != []
  }

  function Name(f: File, a: Attachment): string {
    f.source + "!" + a.name
  }

  function MainTask(spec: Spec, f: File): Task
    requires Reading(spec, f).Extracted?
  {
    Index(f.source, Reading(spec, f).chunks, IndexedRow(spec, f, Reading(spec, f).text, |Reading(spec, f).chunks|))
  }

  function OwnTaskOf(spec: Spec, f: File, a: Attachment): Task {
    Index(Name(f, a), a.chunks, IndexedRow(spec, f, a.text, |a.chunks|))
  }

  lemma ThenStep(c0: Config, n: nat, c: Config)
    requires Exec(c0, n) == c
    ensures Exec(c0, n + 1) == Step(c)
  {
  }

  lemma LonePlan(spec: Spec, f: File, a: Attachment, rows: Rows)
    requires LoneContainer(spec, f, a) && rows == map[]
    ensures Decide(spec, rows, f).tasks == [MainTask(spec, f), OwnTaskOf(spec, f, a)]
  {
    var e := Reading(spec, f);
    assert [a][1..] == [];
    assert AttachmentTasks(spec, f, []) == [];
    assert AttachmentTasks(spec, f, [a]) == [OwnTaskOf(spec, f, a)];
    assert EmbeddedRows(rows, spec.job, f.source) - AttachmentNames(f, [a]) == {};
    assert Drops(Sorted({})) == [];
  }

  /** The run up to the commit of the container's row. */
  lemma CommitsContainer(spec: Spec, f: File, a: Attachment)
    requires LoneContainer(spec, f, a) && f.source !in spec.down
    ensures
      var c := Exec(Config(Begin(spec), FRESH), 6);
      && c.run == Begin(spec).(pc := Work(0, [OwnTaskOf(spec, f, a)], First), seen := c.run.seen)
      && c.st.dims == map[spec.coll := spec.dim]
      && c.st.points == map[] + DocPoints(spec.coll, spec.job, f.source, spec.run, Reading(spec, f).chunks)
      && c.st.rows == map[RowKey(spec.job, f.source) := MainTask(spec, f).row]
  {
    var c0 := Config(Begin(spec), FRESH);
    var r, ready := Begin(spec), FRESH.(dims := map[spec.coll := spec.dim]);
    var tasks := [MainTask(spec, f), OwnTaskOf(spec, f, a)];
    ThenStep(c0, 0, c0);
    ThenStep(c0, 1, Config(r.(pc := Ensure), FRESH));
    ThenStep(c0, 2, Config(r.(pc := Scan(0)), ready));
    LonePlan(spec, f, a, map[]);
    var c3 := Exec(c0, 3);
    assert c3 == Config(r.(pc := Work(0, tasks, First), seen := c3.run.seen), ready);
    ThenStep(c0, 3, c3);
    LoneFirst(c3);
    ThenStep(c0, 4, Exec(c0, 4));
    ThenStep(c0, 5, Exec(c0, 5));
    assert tasks[1..] == [OwnTaskOf(spec, f, a)];
  }

  lemma LoneFirst(c: Config)
    requires c.run.pc.Work? && c.run.pc.tasks != [] && c.run.pc.tasks[0].Index? && c.run.pc.sub == First
    requires c.run.pc.tasks[0].source !in c.run.spec.down + c.run.spec.short && c.st.points == map[]
    ensures
      Step(c) == Config(c.run.(pc := Work(c.run.pc.i, c.run.pc.tasks, Second)), c.st)
  {
    var task := c.run.pc.tasks[0];
    assert DeleteBySource(map[], c.run.spec.coll, c.run.spec.job, task.source) == map[];
  }

  /** A run that finds its only file unchanged is through in six steps. */
  lemma RerunSucceeds(spec: Spec, st: Stores, f: File)
    requires spec.mode == Upsert && spec.ready && spec.admitted && !spec.dryRun && spec.aborts == {}
    requires spec.files == [f]
    requires f.size <= spec.maxBytes && st.dims == map[spec.coll := spec.dim]
    requires st.rows.Keys == {RowKey(spec.job, f.source)} && SameStat(spec, st.rows[RowKey(spec.job, f.source)], f)
    ensures Exec(Config(Begin(spec), st), 6).run.pc == Ended(Success)
  {
    var c0, r := Config(Begin(spec), st), Begin(spec);
    ThenStep(c0, 0, c0);
    ThenStep(c0, 1, Config(r.(pc := Ensure), st));
    ThenStep(c0, 2, Config(r.(pc := Scan(0)), st));
    var c3 := Exec(c0, 3);
    assert c3 == Config(r.(pc := Work(0, [], First), seen := c3.run.seen), st) && f.source in c3.run.seen;
    ThenStep(c0, 3, c3);
    ThenStep(c0, 4, Config(c3.run.(pc := Scan(1)), st));
    var c5 := Exec(c0, 5);
    if spec.deleteVanished {
      assert c5 == Config(c3.run.(pc := Vanish), st);
      OnlyFileIsSeen(c5, f);
    }
    ThenStep(c0, 5, c5);
  }

  lemma OnlyFileIsSeen(c: Config, f: File)
    requires c.run.pc == Vanish && f.source in c.run.seen && c.st.rows.Keys == {RowKey(c.run.spec.job, f.source)}
    ensures Step(c).run.pc == Ended(Success)
  {
    assert Tracked(c.st.rows, c.run.spec.job) <= {f.source} by {
      forall k | k in c.st.rows ensures k.source == f.source { assert k in c.st.rows.Keys; }
    }
    VanishIsJudged(c);
  }

  lemma OutageFails(spec: Spec, f: File, a: Attachment)
    requires LoneContainer(spec, f, a) && f.source !in spec.down && Name(f, a) in spec.down
    ensures
      var failed := Exec(Config(Begin(spec), FRESH), 7);
      && failed.run.pc == Ended(Failed) && failed.st.dims == map[spec.coll := spec.dim]
      && failed.st.rows == map[RowKey(spec.job, f.source) := MainTask(spec, f).row]
      && Bare(spec, failed.st.points, Name(f, a))
  {
    CommitsContainer(spec, f, a);
    ThenStep(Config(Begin(spec), FRESH), 6, Exec(Config(Begin(spec), FRESH), 6));
    assert |Name(f, a)| > |f.source|;
  }

  /**
   The loss, from fresh stores: the embedder dies on an attachment, the run fails, and the next run
   over the same tree, embedder and all in order, reports success without the attachment.
   */
  lemma OutageLosesAttachment(spec: Spec, again: Spec, f: File, a: Attachment)
    requires LoneContainer(spec, f, a) && f.source !in spec.down && Name(f, a) in spec.down
    requires again == spec.(run := again.run, down := {})
    ensures
      var failed := Exec(Config(Begin(spec), FRESH), 7);
      var rerun := Exec(Config(Begin(again), failed.st), 6);
      && failed.run.pc == Ended(Failed) && rerun.run.pc == Ended(Success)
      && Bare(again, rerun.st.points, Name(f, a)) && Deliverable(again, f, Name(f, a))
  {
    var left := Exec(Config(Begin(spec), FRESH), 7).st;
    OutageFails(spec, f, a);
    assert f in again.files && [a][1..] == [];
    RerunSucceeds(again, left, f);
    UnchangedKeepsBelow(again, left, 6, f, Name(f, a));
  }
}
