/**
 Under every interleaving of runs of any jobs, a rebuild's drop and a full run's generation sweep
 delete only points of runs that had released the collection lock before the full run took it.
 */
module SweepSafety {
  import opened Stores
  import opened Protocol
  import opened Locks

  /** A run under way on this collection with this run id. */
  predicate Live(w: World, p: nat, coll: string, run: string) {
    p in w.procs && w.procs[p].phase.Running? && w.procs[p].spec.coll == coll && w.procs[p].spec.run == run
  }

  /** A run of this collection that has released its lock. */
  predicate Done(w: World, p: nat, coll: string, run: string) {
    && p in w.procs && (w.procs[p].phase.Leaving? || w.procs[p].phase.Gone?)
    && w.procs[p].spec.coll == coll && w.procs[p].spec.run == run
  }

  /** Every point has an author: it was there at the start, or its run has left, or is under way. */
  ghost predicate Accounted(w: World, born: set<string>, k: PointKey)
    requires k in w.st.points
  {
    var run := w.st.points[k].run;
    run in born || run in FinishedIn(w, k.coll) || exists p :: Live(w, p, k.coll, run)
  }

  /** The program counters only full runs reach, and those at which nothing was written yet. */
  predicate FullOnly(r: Run) {
    r.pc.DropColl? || r.pc.CreateColl? || r.pc.ForgetColl? || r.pc.SweepStale? ==> r.spec.mode == Full
  }

  predicate Unwritten(r: Run) {
    r.pc.Admit? || r.pc.DropColl?
  }

  /** What a run under way may find in its collection: points from before it, or its own. */
  predicate Expects(q: Proc, run: string)
    requires q.phase.Running?
  {
    run in q.before || (run == q.spec.run && !Unwritten(q.phase.run))
  }

  ghost predicate Alone(w: World, q: Proc)
    requires q.phase.Running?
  {
    forall k | k in w.st.points && k.coll == q.spec.coll :: Expects(q, w.st.points[k].run)
  }

  ghost predicate RunSafe(w: World, born: set<string>, q: Proc)
    requires q.phase.Running?
  {
    && FullOnly(q.phase.run)
    && q.before <= born + FinishedIn(w, q.spec.coll)
    && (Exclusive(q.spec) ==> Alone(w, q))
  }

  ghost predicate Traced(w: World) {
    forall coll, run | run in FinishedIn(w, coll) :: exists p :: Done(w, p, coll, run)
  }

  ghost predicate Safe(w: World, born: set<string>) {
    && (forall k | k in w.st.points :: Accounted(w, born, k))
    && (forall p | p in w.procs && w.procs[p].phase.Running? :: RunSafe(w, born, w.procs[p]))
    && Traced(w)
  }

  // ---- one step of a run

  /** A step writes only points of its own run, into its own collection. */
  lemma StepWritesOwn(c: Config, k: PointKey)
    requires k in Step(c).st.points
    ensures (k in c.st.points && Step(c).st.points[k] == c.st.points[k]) ||
            (k.coll == c.run.spec.coll && Step(c).st.points[k].run == c.run.spec.run && !Unwritten(c.run))
  {
  }

  lemma StepStaysFullOnly(c: Config)
    requires FullOnly(c.run)
    ensures FullOnly(Step(c).run) && (Unwritten(Step(c).run) ==> Unwritten(c.run))
  {
  }

  // ---- the moves keep it

  /** A move that starts and ends no run and writes nothing. */
  ghost predicate SameRuns(w: World, v: World) {
    && v.st == w.st && v.finished == w.finished && v.procs.Keys == w.procs.Keys
    && forall p | p in w.procs ::
         && v.procs[p].spec == w.procs[p].spec
         && (w.procs[p].phase.Running? || v.procs[p].phase.Running? ==> v.procs[p] == w.procs[p])
         && (w.procs[p].phase.Leaving? || w.procs[p].phase.Gone? ==>
             v.procs[p].phase.Leaving? || v.procs[p].phase.Gone?)
  }

  /** Who has left stays gone. */
  lemma TraceStays(w: World, v: World)
    requires Traced(w) && v.finished == w.finished
    requires forall p | p in w.procs && (w.procs[p].phase.Leaving? || w.procs[p].phase.Gone?) ::
               p in v.procs && v.procs[p].spec == w.procs[p].spec &&
               (v.procs[p].phase.Leaving? || v.procs[p].phase.Gone?)
    ensures Traced(v)
  {
    forall coll, run | run in FinishedIn(v, coll) ensures exists p :: Done(v, p, coll, run) {
      assert run in FinishedIn(w, coll);
      var p :| Done(w, p, coll, run);
      assert Done(v, p, coll, run);
    }
  }

  lemma SameRunsKeep(w: World, v: World, born: set<string>)
    requires Safe(w, born) && SameRuns(w, v)
    ensures Safe(v, born)
  {
    forall k | k in v.st.points ensures Accounted(v, born, k) {
      assert Accounted(w, born, k);
      var run := w.st.points[k].run;
      if p :| Live(w, p, k.coll, run) { assert Live(v, p, k.coll, run); }
    }
    TraceStays(w, v);
  }

  lemma PutIsSame(w: World, p: nat, phase: Phase, held: set<string>)
    requires p in w.procs && !w.procs[p].phase.Running? && !phase.Running?
    requires w.procs[p].phase.Leaving? || w.procs[p].phase.Gone? ==> phase.Leaving? || phase.Gone?
    ensures SameRuns(w, Put(w, p, phase).(held := held))
  {
  }

  lemma QuietMoveIsSame(w: World, m: Move, born: set<string>)
    requires m.Claim? || m.TimeOut? || m.Unclaim?
    ensures SameRuns(w, Apply(w, m, born))
  {
    var v := Apply(w, m, born);
    if m.p in w.procs && v != w { PutIsSame(w, m.p, v.procs[m.p].phase, v.held); }
  }

  lemma FreeLockMeansAlone(w: World, coll: string, p: nat)
    requires LockExact(w, coll) && LockOf(w, coll) == RwLock(0, false)
    requires p in w.procs && w.procs[p].phase.Running?
    ensures w.procs[p].spec.coll != coll
  {
    assert p in SharedHolders(w, coll) || p in Writers(w, coll) || w.procs[p].spec.coll != coll;
  }

  /** When the lock is free, every point of the collection is from before. */
  lemma NewcomerKnows(w: World, coll: string, born: set<string>, k: PointKey)
    requires LocksExact(w) && LockOf(w, coll) == RwLock(0, false)
    requires k in w.st.points && k.coll == coll && Accounted(w, born, k)
    ensures w.st.points[k].run in born + FinishedIn(w, coll)
  {
    assert LockExact(w, coll);
    if q :| Live(w, q, coll, w.st.points[k].run) { FreeLockMeansAlone(w, coll, q); }
  }

  lemma AcquireKeepsSafe(w: World, p: nat, born: set<string>)
    requires LocksExact(w) && Safe(w, born)
    ensures Safe(Apply(w, Acquire(p), born), born)
  {
    var v := Apply(w, Acquire(p), born);
    if p in w.procs && v != w {
      var spec := w.procs[p].spec;
      forall k | k in v.st.points ensures Accounted(v, born, k) {
        AcquireKeepsPoint(w, p, born, k);
      }
      TraceStays(w, v);
      if Exclusive(spec) {
        forall k | k in v.st.points && k.coll == spec.coll ensures v.st.points[k].run in v.procs[p].before {
          NewcomerKnows(w, spec.coll, born, k);
        }
      }
    }
  }

  lemma AcquireKeepsPoint(w: World, p: nat, born: set<string>, k: PointKey)
    requires k in w.st.points && Accounted(w, born, k)
    requires p in w.procs && Apply(w, Acquire(p), born) != w
    ensures Accounted(Apply(w, Acquire(p), born), born, k)
  {
    var v, run := Apply(w, Acquire(p), born), w.st.points[k].run;
    if q :| Live(w, q, k.coll, run) { assert Live(v, q, k.coll, run); }
  }

  lemma LeaveKeepsSafe(w: World, p: nat, born: set<string>)
    requires Safe(w, born)
    ensures Safe(Apply(w, Leave(p), born), born)
  {
    var v := Apply(w, Leave(p), born);
    if p in w.procs && w.procs[p].phase.Running? {
      var spec := w.procs[p].spec;
      assert Done(v, p, spec.coll, spec.run);
      forall k | k in v.st.points ensures Accounted(v, born, k) {
        assert Accounted(w, born, k);
        var run := w.st.points[k].run;
        if q :| Live(w, q, k.coll, run) {
          assert q == p || Live(v, q, k.coll, run);
        }
      }
      assert Traced(v.(finished := w.finished)) by { TraceStays(w, v.(finished := w.finished)); }
      forall coll, run | run in FinishedIn(v, coll) ensures exists q :: Done(v, q, coll, run) {
        if run in FinishedIn(w, coll) {
          assert run in FinishedIn(v.(finished := w.finished), coll);
          var q :| Done(v.(finished := w.finished), q, coll, run);
          assert Done(v, q, coll, run);
        }
      }
    }
  }

  lemma TwoRunsShare(w: World, p: nat, q: nat)
    requires LocksExact(w) && p != q && p in w.procs && q in w.procs
    requires w.procs[p].phase.Running? && w.procs[q].phase.Running? && Exclusive(w.procs[q].spec)
    ensures w.procs[p].spec.coll != w.procs[q].spec.coll
  {
    var coll := w.procs[q].spec.coll;
    assert LockExact(w, coll) && q in Writers(w, coll);
    assert p in SharedHolders(w, coll) || p in Writers(w, coll) || w.procs[p].spec.coll != coll;
  }

  lemma WorkKeepsAccounts(w: World, p: nat, born: set<string>, k: PointKey)
    requires LocksExact(w) && Safe(w, born) && p in w.procs && w.procs[p].phase.Running?
    requires k in Apply(w, Move.Work(p), born).st.points
    ensures Accounted(Apply(w, Move.Work(p), born), born, k)
  {
    var v := Apply(w, Move.Work(p), born);
    var c := Config(w.procs[p].phase.run, w.st);
    StepWritesOwn(c, k);
    if k in w.st.points && v.st.points[k] == w.st.points[k] {
      assert Accounted(w, born, k);
      var run := w.st.points[k].run;
      if q :| Live(w, q, k.coll, run) { assert Live(v, q, k.coll, run); }
    } else {
      assert Live(v, p, k.coll, v.st.points[k].run);
    }
  }

  lemma WorkKeepsRun(w: World, p: nat, born: set<string>, q: nat)
    requires LocksExact(w) && Safe(w, born) && p in w.procs && w.procs[p].phase.Running?
    requires q in w.procs && w.procs[q].phase.Running?
    ensures
      var v := Apply(w, Move.Work(p), born);
      v.procs[q].phase.Running? && RunSafe(v, born, v.procs[q])
  {
    var v := Apply(w, Move.Work(p), born);
    var c := Config(w.procs[p].phase.run, w.st);
    assert RunSafe(w, born, w.procs[q]) && RunSafe(w, born, w.procs[p]);
    StepStaysFullOnly(c);
    if Exclusive(w.procs[q].spec) {
      if q != p { TwoRunsShare(w, p, q); }
      forall k | k in v.st.points && k.coll == w.procs[q].spec.coll ensures Expects(v.procs[q], v.st.points[k].run) {
        StepWritesOwn(c, k);
        WrittenIsExpected(w, p, born, q, k);
      }
    }
  }

  lemma WrittenIsExpected(w: World, p: nat, born: set<string>, q: nat, k: PointKey)
    requires RunsOwnSpec(w) && p in w.procs && w.procs[p].phase.Running?
    requires q in w.procs && w.procs[q].phase.Running? && Alone(w, w.procs[q]) && FullOnly(w.procs[p].phase.run)
    requires q != p ==> w.procs[q].spec.coll != w.procs[p].spec.coll
    requires k in Apply(w, Move.Work(p), born).st.points && k.coll == w.procs[q].spec.coll
    ensures
      var v := Apply(w, Move.Work(p), born);
      v.procs[q].phase.Running? && Expects(v.procs[q], v.st.points[k].run)
  {
    var c := Config(w.procs[p].phase.run, w.st);
    StepWritesOwn(c, k);
    StepStaysFullOnly(c);
    assert k in w.st.points ==> Expects(w.procs[q], w.st.points[k].run);
  }

  lemma WorkKeepsSafe(w: World, p: nat, born: set<string>)
    requires LocksExact(w) && Safe(w, born)
    ensures Safe(Apply(w, Move.Work(p), born), born)
  {
    var v := Apply(w, Move.Work(p), born);
    if p in w.procs && w.procs[p].phase.Running? {
      forall k | k in v.st.points ensures Accounted(v, born, k) { WorkKeepsAccounts(w, p, born, k); }
      forall q | q in v.procs && v.procs[q].phase.Running? ensures RunSafe(v, born, v.procs[q]) {
        WorkKeepsRun(w, p, born, q);
      }
      TraceStays(w, v);
    }
  }

  lemma MoveKeepsSafe(w: World, m: Move, born: set<string>)
    requires LocksExact(w) && Safe(w, born)
    ensures Safe(Apply(w, m, born), born)
  {
    match m
    case Acquire(p) => AcquireKeepsSafe(w, p, born);
    case Leave(p) => LeaveKeepsSafe(w, p, born);
    case Work(p) => WorkKeepsSafe(w, p, born);
    case _ =>
      QuietMoveIsSame(w, m, born);
      SameRunsKeep(w, Apply(w, m, born), born);
  }

  /** The first world of a history: no call made yet, and `born` names every run found on a point. */
  ghost predicate Opening(w: World, born: set<string>) {
    AllFresh(w) && forall k | k in w.st.points :: w.st.points[k].run in born
  }

  lemma {:induction false} StaysSafe(w: World, moves: Moves, born: set<string>)
    requires Opening(w, born)
    ensures Safe(Play(w, moves, born), born)
  {
    match moves
    case Start =>
    case Then(past, m) =>
      StaysSafe(w, past, born);
      LocksStayExact(w, past, born);
      MoveKeepsSafe(Play(w, past, born), m, born);
  }

  // ---- main results

  /** The two steps that delete by generation rather than by source. */
  predicate Sweeping(r: Run) {
    r.pc.DropColl? || r.pc.SweepStale?
  }

  /**
   Whatever a drop or a sweep deletes lies in its own collection and was written by a run that had
   released the collection lock before this one took it (or was there before the first run), so in
   particular by no run still under way.
   */
  lemma SweepSparesLiveRuns(w: World, moves: Moves, born: set<string>, p: nat, k: PointKey)
    requires Opening(w, born)
    requires
      var v := Play(w, moves, born);
      && p in v.procs && v.procs[p].phase.Running? && Sweeping(v.procs[p].phase.run)
      && k in v.st.points && k !in Apply(v, Move.Work(p), born).st.points
    ensures
      var v := Play(w, moves, born);
      var run := v.st.points[k].run;
      && k.coll == v.procs[p].spec.coll
      && run in v.procs[p].before
      && (run in born || exists q :: Done(v, q, k.coll, run))
  {
    StaysSafe(w, moves, born);
    LocksStayExact(w, moves, born);
    var v := Play(w, moves, born);
    assert RunSafe(v, born, v.procs[p]);
    assert Expects(v.procs[p], v.st.points[k].run) by {
      assert Exclusive(v.procs[p].spec) && k.coll == v.procs[p].spec.coll;
    }
    if v.st.points[k].run !in born {
      assert v.st.points[k].run in FinishedIn(v, k.coll);
    }
  }

  /** Run ids name one call each, and none was on a point before its call. */
  ghost predicate UniqueRuns(w: World, born: set<string>) {
    && (forall p, q | p in w.procs && q in w.procs && w.procs[p].spec.run == w.procs[q].spec.run :: p == q)
    && (forall p | p in w.procs :: w.procs[p].spec.run !in born)
  }

  lemma {:induction false} SpecsStay(w: World, moves: Moves, born: set<string>, p: nat)
    ensures p in Play(w, moves, born).procs <==> p in w.procs
    ensures p in w.procs ==> Play(w, moves, born).procs[p].spec == w.procs[p].spec
  {
    if moves.Then? { SpecsStay(w, moves.past, born, p); }
  }

  /** With unique run ids, no call that has yet to release its lock loses a point to a sweep. */
  lemma SweepHitsNoLiveRun(w: World, moves: Moves, born: set<string>, p: nat, k: PointKey, q: nat)
    requires Opening(w, born) && UniqueRuns(w, born)
    requires
      var v := Play(w, moves, born);
      && p in v.procs && v.procs[p].phase.Running? && Sweeping(v.procs[p].phase.run)
      && q in v.procs && !v.procs[q].phase.Leaving? && !v.procs[q].phase.Gone?
      && k in v.st.points && v.st.points[k].run == v.procs[q].spec.run
    ensures k in Apply(Play(w, moves, born), Move.Work(p), born).st.points
  {
    var v := Play(w, moves, born);
    SpecsStay(w, moves, born, q);
    if k !in Apply(v, Move.Work(p), born).st.points {
      SweepSparesLiveRuns(w, moves, born, p, k);
      var r :| Done(v, r, k.coll, v.st.points[k].run);
      SpecsStay(w, moves, born, r);
      assert false;
    }
  }
}
