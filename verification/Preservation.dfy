/** What a run that stops early cannot have lost, and what an append run cannot touch at all. */
module Preservation {
  import opened Stores
  import opened Machines
  import opened Guards
  import opened Order
  import opened Protocol

  ghost predicate HasPoints(spec: Spec, points: Points, s: string) {
    exists i: nat :: PointKey(spec.coll, spec.job, s, i) in points
  }

  /** No collection rebuild, no attachments, and no document without chunks. */
  ghost predicate Careful(spec: Spec) {
    && !(spec.mode == Full && spec.wholeCollection) && !spec.expand
    && forall s, c, p | spec.extract(s, c, p).Extracted? :: spec.extract(s, c, p).chunks != []
  }

  /** The deletion phase: the purge of vanished sources or the sweep, and what follows it. */
  predicate Deleting(r: Run) {
    match r.pc
    case Work(i, _, _) => i >= |r.spec.files|
    case SweepStale => true
    case Vanish => true
    case Ended(o) => o == Success || o == AbortedGuard
    case _ => false
  }

  /** The one source whose new points are not written yet. */
  function Replacing(r: Run): Option<string> {
    match r.pc
    case Work(_, tasks, sub) => if tasks != [] && tasks[0].Index? && sub == Second then Some(tasks[0].source) else None
    case _ => None
  }

  ghost predicate Inv(c: Config, st: Stores) {
    var r, spec := c.run, c.run.spec;
    && Careful(spec)
    && (match r.pc
        case Scan(i) => forall j | 0 <= j < i && j < |spec.files| :: spec.files[j].source in r.seen
        case Work(i, tasks, sub) =>
          && (forall j | 0 <= j <= i && j < |spec.files| :: spec.files[j].source in r.seen)
          && (i >= |spec.files| ==> forall t | t in tasks :: t.Drop?)
          && (i < |spec.files| ==> forall t | t in tasks :: !t.Drop? && (t.Index? ==> t.chunks != []))
        case DropColl => false
        case CreateColl => false
        case ForgetColl => false
        case _ => true)
    && (Deleting(r) ==> forall f | f in spec.files :: f.source in r.seen)
    && (!Deleting(r) ==>
          forall s | HasPoints(spec, st.points, s) && Replacing(r) != Some(s) :: HasPoints(spec, c.st.points, s))
  }

  lemma DeleteLosesOne(spec: Spec, points: Points, s: string, t: string)
    requires HasPoints(spec, points, t) && t != s
    ensures HasPoints(spec, DeleteBySource(points, spec.coll, spec.job, s), t)
  {
    var i: nat :| PointKey(spec.coll, spec.job, t, i) in points;
    assert PointKey(spec.coll, spec.job, t, i) in DeleteBySource(points, spec.coll, spec.job, s);
  }

  lemma UpsertLosesNone(spec: Spec, points: Points, s: string, chunks: seq<string>, t: string)
    requires chunks != [] && (t == s || HasPoints(spec, points, t))
    ensures HasPoints(spec, points + DocPoints(spec.coll, spec.job, s, spec.run, chunks), t)
  {
    var after := points + DocPoints(spec.coll, spec.job, s, spec.run, chunks);
    if t == s { assert PointKey(spec.coll, spec.job, s, 0) in after; }
    else {
      var i: nat :| PointKey(spec.coll, spec.job, t, i) in points;
      assert PointKey(spec.coll, spec.job, t, i) in after;
    }
  }

  lemma WorkKeeps(c: Config, st: Stores)
    requires Inv(c, st) && c.run.pc.Work?
    ensures Inv(WorkStep(c), st)
  {
    var spec := c.run.spec;
    var Work(i, tasks, sub) := c.run.pc;
    var now, after := c.st.points, WorkStep(c).st.points;
    if tasks != [] { assert tasks[0] in tasks; }
    if tasks != [] && i < |spec.files| {
      var task := tasks[0];
      forall t | HasPoints(spec, st.points, t) && Replacing(WorkStep(c).run) != Some(t)
        ensures HasPoints(spec, after, t)
      {
        if task.Index? && sub == Second {
          UpsertLosesNone(spec, now, task.source, task.chunks, t);
        } else if task.Index? && sub == First && t != task.source {
          DeleteLosesOne(spec, now, task.source, t);
        }
      }
    }
  }

  lemma StepKeeps(c: Config, st: Stores)
    requires Inv(c, st)
    ensures Inv(Step(c), st)
  {
    match c.run.pc
    case Work(_, _, _) => WorkKeeps(c, st);
    case Scan(_) => ScanKeeps(c, st);
    case Vanish => VanishKeeps(c, st);
    case _ =>
  }

  lemma JudgedKeeps(c: Config, d: Config, st: Stores)
    requires Inv(c, st) && c.run.pc.Vanish? && Judged(c, d)
    ensures Inv(d, st)
  {
  }

  lemma VanishKeeps(c: Config, st: Stores)
    requires Inv(c, st) && c.run.pc.Vanish?
    ensures Inv(Step(c), st)
  {
    VanishIsJudged(c);
    JudgedKeeps(c, Step(c), st);
  }

  lemma ScanKeeps(c: Config, st: Stores)
    requires Inv(c, st) && c.run.pc.Scan?
    ensures Inv(Step(c), st)
  {
  }

  /**
   Until its deletion phase a run loses at most the document in hand: every source that had points
   has points. A run stopped by an abort or a dead embedder, between documents, loses none. And a
   run in its deletion phase has been through every scanned file.
   */
  lemma NothingLostBeforeDeletion(spec: Spec, st: Stores, n: nat, s: string)
    requires Careful(spec) && HasPoints(spec, st.points, s)
    ensures
      var c := Exec(Config(Begin(spec), st), n);
      && (!Deleting(c.run) ==> HasPoints(spec, c.st.points, s) || Replacing(c.run) == Some(s))
      && (c.run.pc == Ended(Interrupted) || c.run.pc == Ended(Failed) ==> HasPoints(spec, c.st.points, s))
      && (Deleting(c.run) ==> forall f | f in spec.files :: f.source in c.run.seen)
  {
    var inv := (d: Config) => Inv(d, st) && d.run.spec == spec;
    forall d | inv(d) ensures inv(Step(d)) { StepKeeps(d, st); }
    Invariant(Step, inv, Config(Begin(spec), st), n);
  }
}
