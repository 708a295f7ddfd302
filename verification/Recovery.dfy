/**
 Crash anywhere, rerun, converge: from any stores, over trees of any files. A stop leaves each
 document of the tree as it was, as the run leaves it, or torn with its old row still there; and
 each source outside the tree as it was, or dropped for good. These relations compose over any
 number of stopped attempts, and a successful run ends all of them in the same place. What becomes
 of attachments, when a run expands them, is the business of module Containers.
 */
module Recovery {
  import opened Stores
  import opened Guards
  import opened Order
  import opened Machines
  import opened Protocol
  import opened Documents

  /** An upsert over distinct sources that are not attachment names. */
  ghost predicate Rerunnable(spec: Spec) {
    Gentle(spec) && spec.mode == Upsert && Unmarked(spec)
  }

  /** A name below a file of the tree, in a run that expands. */
  ghost predicate Attached(spec: Spec, s: string) {
    spec.expand && exists f :: f in spec.files && f.source + "!" <= s
  }

  /** Neither a file of the tree nor, where the run expands, a name below one. */
  ghost predicate Outside(spec: Spec, s: string) {
    s !in Sources(spec.files) && !Attached(spec, s)
  }

  /** The same run attempted again; aborts, dead embedders and probe failures may differ. */
  ghost predicate SameAttempt(a: Spec, again: Spec) {
    a == again.(run := a.run, aborts := a.aborts, down := a.down, facet := a.facet, ready := a.ready,
                    admitted := a.admitted)
  }

  // ---- documents of the tree

  /** The row a processed file ends with, up to the run id. */
  predicate Fated(spec: Spec, prev: Option<Row>, f: File, row: Row) {
    RowFate(spec, prev, f, row.(run := if Refreshed(spec, prev, f) then prev.value.run else spec.run))
  }

  /** The document is where a completed run leaves it. */
  ghost predicate Landed(spec: Spec, st: Stores, now: Stores, f: File) {
    && (if Writes(spec, st, f) then Holds(now.points, spec.coll, spec.job, f.source, Reading(spec, f).chunks)
        else SamePoints(spec, st.points, now.points, f.source))
    && var row := Lookup(now.rows, spec.job, f.source);
       row.Some? && Fated(spec, Lookup(st.rows, spec.job, f.source), f, row.value)
  }

  ghost predicate LeftTorn(spec: Spec, st: Stores, now: Stores, f: File) {
    Writes(spec, st, f) && Lookup(now.rows, spec.job, f.source) == Lookup(st.rows, spec.job, f.source)
  }

  /** What any number of stopped attempts can have made of a document. */
  ghost predicate Reached(spec: Spec, st: Stores, now: Stores, f: File) {
    Untouched(spec, st, now, f.source) || Landed(spec, st, now, f) || LeftTorn(spec, st, now, f)
  }

  lemma OutcomeLands(a: Spec, again: Spec, st: Stores, now: Stores, f: File)
    requires SameAttempt(a, again) && a.mode == Upsert && Documents.Outcome(a, st, now, f)
    ensures Landed(again, st, now, f)
  {
  }

  /** The fate of a row is the same up to the run id whoever carries it out, and final. */
  lemma FateUnique(spec: Spec, prev: Option<Row>, f: File, a: Row, b: Row)
    requires Fated(spec, prev, f, a) && Fated(spec, prev, f, b)
    ensures a.(run := "") == b.(run := "")
  {
  }

  lemma FateIsFinal(spec: Spec, prev: Option<Row>, f: File, mid: Row, row: Row)
    requires Fated(spec, prev, f, mid) && Fated(spec, Some(mid), f, row)
    ensures Fated(spec, prev, f, row)
  {
  }

  lemma LandedWritesNoMore(spec: Spec, st: Stores, mid: Stores, f: File)
    requires spec.mode == Upsert && Landed(spec, st, mid, f)
    ensures !Writes(spec, mid, f)
  {
  }

  /** Landing from where stopped attempts have got to is landing from the start. */
  lemma LandsAllTheSame(spec: Spec, st: Stores, mid: Stores, now: Stores, f: File)
    requires spec.mode == Upsert && Reached(spec, st, mid, f) && Landed(spec, mid, now, f)
    ensures Landed(spec, st, now, f)
  {
    if Landed(spec, st, mid, f) {
      LandedWritesNoMore(spec, st, mid, f);
      FateIsFinal(spec, Lookup(st.rows, spec.job, f.source), f, Lookup(mid.rows, spec.job, f.source).value,
                  Lookup(now.rows, spec.job, f.source).value);
    }
  }

  lemma ReachedComposes(spec: Spec, st: Stores, mid: Stores, now: Stores, f: File)
    requires spec.mode == Upsert && Reached(spec, st, mid, f) && Reached(spec, mid, now, f)
    ensures Reached(spec, st, now, f)
  {
    if Landed(spec, mid, now, f) { LandsAllTheSame(spec, st, mid, now, f); }
    else if Landed(spec, st, mid, f) { LandedWritesNoMore(spec, st, mid, f); }
  }

  // ---- sources outside the tree

  /** Tracked, without a parent in the tree, and the run deletes what vanished. */
  predicate Doomed(spec: Spec, st: Stores, s: string) {
    spec.deleteVanished && s in Tracked(st.rows, spec.job) && Parent(s) !in Sources(spec.files)
  }

  ghost predicate Dropped(spec: Spec, now: Stores, s: string) {
    Lookup(now.rows, spec.job, s) == None && Bare(spec, now.points, s)
  }

  /** What stopped attempts can have made of a source outside the tree. */
  ghost predicate Left(spec: Spec, st: Stores, now: Stores, s: string) {
    if Doomed(spec, st, s) then
      Lookup(now.rows, spec.job, s) == Lookup(st.rows, spec.job, s) || Dropped(spec, now, s)
    else Untouched(spec, st, now, s)
  }

  ghost predicate Finished(spec: Spec, st: Stores, now: Stores, s: string) {
    if Doomed(spec, st, s) then Dropped(spec, now, s) else Untouched(spec, st, now, s)
  }

  lemma TrackedByLookup(rows: Rows, job: string, s: string)
    ensures s in Tracked(rows, job) <==> Lookup(rows, job, s).Some?
  {
    assert RowKey(job, s).source == s;
  }

  lemma LeftComposes(spec: Spec, st: Stores, mid: Stores, now: Stores, s: string)
    requires Left(spec, st, mid, s)
    ensures Left(spec, mid, now, s) ==> Left(spec, st, now, s)
    ensures Finished(spec, mid, now, s) ==> Finished(spec, st, now, s)
  {
    TrackedByLookup(st.rows, spec.job, s);
    TrackedByLookup(mid.rows, spec.job, s);
  }

  /** What the run has seen: files of the tree, and tracked names below them. */
  ghost predicate SeenWithin(r: Run) {
    forall t | t in r.seen :: t in Sources(r.spec.files) || exists f :: f in r.spec.files && f.source + "!" <= t
  }

  ghost predicate SeenUpTo(r: Run, i: nat) {
    forall j | 0 <= j < i && j < |r.spec.files| :: r.spec.files[j].source in r.seen
  }

  /** At the end of the scan exactly the doomed sources are gone. */
  lemma GoneIsDoomed(r: Run, st: Stores, now: Stores, s: string)
    requires Rerunnable(r.spec) && r.spec.deleteVanished && SeenWithin(r) && SeenUpTo(r, |r.spec.files|)
    requires s !in Sources(r.spec.files) && Untouched(r.spec, st, now, s)
    ensures s in Gone(r.seen, Tracked(now.rows, r.spec.job)) <==> Doomed(r.spec, st, s)
  {
    TrackedByLookup(st.rows, r.spec.job, s);
    TrackedByLookup(now.rows, r.spec.job, s);
    forall p | p in Sources(r.spec.files) ensures p in r.seen {
      var j :| 0 <= j < |r.spec.files| && r.spec.files[j].source == p;
    }
    if s in r.seen {
      var f :| f in r.spec.files && f.source + "!" <= s;
      ParentOf(f.source, s);
      assert f.source in Sources(r.spec.files);
    }
    if Parent(s) in r.seen && Parent(s) !in Sources(r.spec.files) {
      var f :| f in r.spec.files && f.source + "!" <= Parent(s);
      MarkBelow(f.source, Parent(s));
      ParentsHaveNoMark(s);
    }
  }

  /** One source outside the tree, followed through the run. */
  ghost predicate Stray(c: Config, st: Stores, s: string) {
    var r, now, spec := c.run, c.st, c.run.spec;
    && Rerunnable(spec) && Outside(spec, s)
    && match r.pc
       case Admit => now == st && r.seen == {}
       case Ensure => now == st && r.seen == {}
       case Scan(i) => Untouched(spec, st, now, s) && SeenWithin(r) && SeenUpTo(r, i)
       case Work(i, tasks, sub) =>
         if i < |spec.files| then
           Untouched(spec, st, now, s) && SeenWithin(r) && SeenUpTo(r, i + 1) && Elsewhere(tasks, s)
         else Purge(spec, st, now, s, tasks, sub)
       case Vanish =>
         spec.deleteVanished && Untouched(spec, st, now, s) && SeenWithin(r) && SeenUpTo(r, |spec.files|)
       case Ended(o) => Left(spec, st, now, s) && (o == Success ==> Finished(spec, st, now, s))
       case _ => false
  }

  /** The deletion phase, as far as this source is concerned. */
  ghost predicate Purge(spec: Spec, st: Stores, now: Stores, s: string, tasks: seq<Task>, sub: Sub) {
    && (forall t | t in tasks :: t.Drop?)
    && (if Doomed(spec, st, s) then
          || Dropped(spec, now, s)
          || (Drop(s) in tasks && Lookup(now.rows, spec.job, s) == Lookup(st.rows, spec.job, s)
              && (sub != First && tasks[0] == Drop(s) ==> Bare(spec, now.points, s)))
        else Untouched(spec, st, now, s) && Elsewhere(tasks, s))
  }

  lemma DecideSeesChildren(spec: Spec, rows: Rows, f: File)
    ensures forall t | t in Decide(spec, rows, f).seen :: OfFile(f, t)
  {
  }

  lemma StrayScan(c: Config, st: Stores, s: string)
    requires Stray(c, st, s) && c.run.pc.Scan?
    ensures Stray(Step(c), st, s)
  {
    var spec, i := c.run.spec, c.run.pc.i;
    if i < |spec.files| {
      var f := spec.files[i];
      assert f in spec.files && f.source in Sources(spec.files);
      DecideStaysInFile(spec, c.st.rows, f);
      DecideSeesChildren(spec, c.st.rows, f);
    }
  }

  lemma StrayJudged(c: Config, d: Config, st: Stores, s: string)
    requires Stray(c, st, s) && c.run.pc.Vanish? && Judged(c, d)
    ensures Stray(d, st, s)
  {
    GoneIsDoomed(c.run, st, c.st, s);
  }

  lemma StrayVanish(c: Config, st: Stores, s: string)
    requires Stray(c, st, s) && c.run.pc.Vanish?
    ensures Stray(Step(c), st, s)
  {
    VanishIsJudged(c);
    StrayJudged(c, Step(c), st, s);
  }

  lemma StrayFile(c: Config, st: Stores, s: string)
    requires Stray(c, st, s) && c.run.pc.Work? && c.run.pc.i < |c.run.spec.files|
    ensures Stray(WorkStep(c), st, s)
  {
    ElsewhereFrames(c, s);
  }

  lemma StrayPurge(c: Config, st: Stores, s: string)
    requires Stray(c, st, s) && c.run.pc.Work? && c.run.pc.i >= |c.run.spec.files|
    ensures Stray(WorkStep(c), st, s)
  {
    var tasks := c.run.pc.tasks;
    if tasks != [] {
      assert tasks[0] in tasks && tasks[0].Drop?;
      if tasks[0].source != s { OthersFramed(c, s); }
    }
  }

  lemma StrayStep(c: Config, st: Stores, s: string)
    requires Stray(c, st, s)
    ensures Stray(Step(c), st, s)
  {
    match c.run.pc
    case Scan(_) => StrayScan(c, st, s);
    case Vanish => StrayVanish(c, st, s);
    case Work(i, _, _) => if i < |c.run.spec.files| { StrayFile(c, st, s); } else { StrayPurge(c, st, s); }
    case Ended(_) =>
    case _ =>
  }

  lemma StrayAlways(spec: Spec, st: Stores, n: nat, s: string)
    requires Rerunnable(spec) && Outside(spec, s)
    ensures Stray(Exec(Config(Begin(spec), st), n), st, s) && Exec(Config(Begin(spec), st), n).run.spec == spec
  {
    var inv := (d: Config) => Stray(d, st, s) && d.run.spec == spec;
    forall d | inv(d) ensures inv(Step(d)) { StrayStep(d, st, s); }
    Invariant(Step, inv, Config(Begin(spec), st), n);
  }

  lemma StrayIsLeft(c: Config, st: Stores, s: string)
    requires Stray(c, st, s)
    ensures Left(c.run.spec, st, c.st, s)
  {
  }

  // ---- attempts

  /** What any number of stopped attempts can have made of the stores. */
  ghost predicate Kept(spec: Spec, st: Stores, now: Stores) {
    && (forall f | f in spec.files :: Reached(spec, st, now, f))
    && (forall s | Outside(spec, s) :: Left(spec, st, now, s))
  }

  /** What a successful attempt has made of them. */
  ghost predicate Completed(spec: Spec, st: Stores, now: Stores) {
    && (forall f | f in spec.files :: Landed(spec, st, now, f))
    && (forall s | Outside(spec, s) :: Finished(spec, st, now, s))
  }

  lemma StopKeeps(a: Spec, again: Spec, st: Stores, n: nat)
    requires Rerunnable(again) && SameAttempt(a, again)
    ensures Kept(again, st, Exec(Config(Begin(a), st), n).st)
  {
    var now := Exec(Config(Begin(a), st), n).st;
    forall f | f in again.files ensures Reached(again, st, now, f) {
      StopTearsOne(a, st, n, f);
      if Documents.Outcome(a, st, now, f) { OutcomeLands(a, again, st, now, f); }
    }
    forall s | Outside(again, s) ensures Left(again, st, now, s) {
      StrayAlways(a, st, n, s);
      StrayIsLeft(Exec(Config(Begin(a), st), n), st, s);
    }
  }

  lemma SuccessCompletes(again: Spec, st: Stores, n: nat)
    requires Rerunnable(again) && Exec(Config(Begin(again), st), n).run.pc == Ended(Success)
    ensures Completed(again, st, Exec(Config(Begin(again), st), n).st)
  {
    var now := Exec(Config(Begin(again), st), n).st;
    forall f | f in again.files ensures Landed(again, st, now, f) {
      DocumentFate(again, st, n, f);
      OutcomeLands(again, again, st, now, f);
    }
    forall s | Outside(again, s) ensures Finished(again, st, now, s) {
      StrayAlways(again, st, n, s);
    }
  }

  lemma KeptComposes(spec: Spec, st: Stores, mid: Stores, now: Stores)
    requires spec.mode == Upsert && Kept(spec, st, mid)
    ensures Kept(spec, mid, now) ==> Kept(spec, st, now)
    ensures Completed(spec, mid, now) ==> Completed(spec, st, now)
  {
    if Kept(spec, mid, now) {
      forall f | f in spec.files ensures Reached(spec, st, now, f) { ReachedComposes(spec, st, mid, now, f); }
      forall s | Outside(spec, s) ensures Left(spec, st, now, s) { LeftComposes(spec, st, mid, now, s); }
    }
    if Completed(spec, mid, now) {
      forall f | f in spec.files ensures Landed(spec, st, now, f) { LandsAllTheSame(spec, st, mid, now, f); }
      forall s | Outside(spec, s) ensures Finished(spec, st, now, s) { LeftComposes(spec, st, mid, now, s); }
    }
  }

  lemma {:induction false} StopsKeep(specs: seq<Spec>, stops: seq<nat>, st: Stores, again: Spec)
    requires |specs| == |stops| && Rerunnable(again) && forall a | a in specs :: SameAttempt(a, again)
    ensures Kept(again, st, Stopped(specs, stops, st))
  {
    if specs != [] {
      var mid := Exec(Config(Begin(specs[0]), st), stops[0]).st;
      assert specs[0] in specs && forall a | a in specs[1..] :: a in specs;
      StopKeeps(specs[0], again, st, stops[0]);
      StopsKeep(specs[1..], stops[1..], mid, again);
      KeptComposes(again, st, mid, Stopped(specs, stops, st));
    }
  }

  // ---- main result

  ghost predicate SameTextsAt(spec: Spec, a: Stores, b: Stores, s: string) {
    forall i: nat ::
      var k := PointKey(spec.coll, spec.job, s, i);
      (k in a.points <==> k in b.points) && (k in a.points && k in b.points ==> a.points[k].text == b.points[k].text)
  }

  /** At one source two stores hold the same texts and the same row, up to run ids. */
  ghost predicate AlikeAt(spec: Spec, a: Stores, b: Stores, s: string) {
    && SameTextsAt(spec, a, b, s)
    && var p, q := Lookup(a.rows, spec.job, s), Lookup(b.rows, spec.job, s);
       (p.Some? <==> q.Some?) && (p.Some? && q.Some? ==> p.value.(run := "") == q.value.(run := ""))
  }

  lemma CompletedAlike(spec: Spec, st: Stores, a: Stores, b: Stores, s: string)
    requires Completed(spec, st, a) && Completed(spec, st, b) && !Attached(spec, s)
    ensures AlikeAt(spec, a, b, s)
  {
    if s in Sources(spec.files) {
      var f :| f in spec.files && f.source == s;
      FateUnique(spec, Lookup(st.rows, spec.job, s), f, Lookup(a.rows, spec.job, s).value,
                 Lookup(b.rows, spec.job, s).value);
    } else {
      assert Outside(spec, s);
    }
  }

  lemma AlikeEverywhere(spec: Spec, a: Stores, b: Stores)
    requires forall s :: AlikeAt(spec, a, b, s)
    ensures Texts(a.points, spec.coll, spec.job) == Texts(b.points, spec.coll, spec.job)
    ensures RowView(a.rows, spec.job) == RowView(b.rows, spec.job)
  {
    forall k: PointKey | k.coll == spec.coll && k.job == spec.job
      ensures (k in a.points <==> k in b.points) &&
              (k in a.points && k in b.points ==> a.points[k].text == b.points[k].text)
    {
      assert AlikeAt(spec, a, b, k.source) && k == PointKey(spec.coll, spec.job, k.source, k.index);
    }
    forall s ensures s in Tracked(a.rows, spec.job) <==> s in Tracked(b.rows, spec.job) {
      assert AlikeAt(spec, a, b, s);
      TrackedByLookup(a.rows, spec.job, s);
      TrackedByLookup(b.rows, spec.job, s);
    }
    forall s | s in Tracked(a.rows, spec.job) ensures RowView(a.rows, spec.job)[s] == RowView(b.rows, spec.job)[s] {
      assert AlikeAt(spec, a, b, s);
    }
  }

  /**
   Stop an upsert between any two store operations, any number of times, and rerun it to success:
   the job's points and rows equal those of the run that was never stopped, up to run ids. This is
   from any stores and for every kind of file: too large, broken, unsupported, without text, with a
   wrong vector count, or readable. Where the run expands containers it is so of everything but
   their attachments.
   */
  lemma CrashesConverge(specs: seq<Spec>, stops: seq<nat>, st: Stores, again: Spec, m: nat, k: nat)
    requires |specs| == |stops| && Rerunnable(again) && forall a | a in specs :: SameAttempt(a, again)
    requires Exec(Config(Begin(again), Stopped(specs, stops, st)), m).run.pc == Ended(Success)
    requires Exec(Config(Begin(again), st), k).run.pc == Ended(Success)
    ensures
      var rerun := Exec(Config(Begin(again), Stopped(specs, stops, st)), m).st;
      var straight := Exec(Config(Begin(again), st), k).st;
      && (forall s | !Attached(again, s) :: AlikeAt(again, rerun, straight, s))
      && (!again.expand ==>
            && Texts(rerun.points, again.coll, again.job) == Texts(straight.points, again.coll, again.job)
            && RowView(rerun.rows, again.job) == RowView(straight.rows, again.job))
  {
    var mid := Stopped(specs, stops, st);
    var rerun := Exec(Config(Begin(again), mid), m).st;
    var straight := Exec(Config(Begin(again), st), k).st;
    StopsKeep(specs, stops, st, again);
    SuccessCompletes(again, mid, m);
    SuccessCompletes(again, st, k);
    KeptComposes(again, st, mid, rerun);
    forall s | !Attached(again, s) ensures AlikeAt(again, rerun, straight, s) {
      CompletedAlike(again, st, rerun, straight, s);
    }
    if !again.expand { AlikeEverywhere(again, rerun, straight); }
  }
}
