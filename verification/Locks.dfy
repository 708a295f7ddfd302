/**
 Runs under locks: a non-blocking lock per job, and per collection a reader/writer lock that full
 runs take exclusively. The machine interleaves the steps of any number of runs with the lock
 calls around them; a run may also be cut short by an exception at any point or give up waiting.
 */
module Locks {
  import opened Stores
  import opened Protocol

  /** `_ReadWriteLock`. */
  datatype RwLock = RwLock(readers: nat, writer: bool)

  predicate CanAcquire(l: RwLock, exclusive: bool) {
    !l.writer && (exclusive ==> l.readers == 0)
  }

  function Acquired(l: RwLock, exclusive: bool): RwLock {
    if exclusive then l.(writer := true) else l.(readers := l.readers + 1)
  }

  /** The reader count is clamped at zero. */
  function Released(l: RwLock, exclusive: bool): RwLock {
    if exclusive then l.(writer := false) else l.(readers := if l.readers == 0 then 0 else l.readers - 1)
  }

  /** Where one call of `LockingRunner.run` is. */
  datatype Phase =
    | Fresh              // not yet called
    | Waiting            // holds the job lock, wants the collection lock
    | Running(run: Run)  // holds both
    | Leaving            // holds the job lock only, on the way out
    | Gone               // returned or rejected, holds nothing

  /** `before`: the runs whose points it could find when it took the collection lock. */
  datatype Proc = Proc(spec: Spec, phase: Phase, before: set<string>)

  datatype World = World(procs: map<nat, Proc>, held: set<string>, locks: map<string, RwLock>,
                         finished: map<string, set<string>>, st: Stores)

  datatype Move =
    | Claim(p: nat)     // begin: take the job lock or be rejected
    | Acquire(p: nat)   // take the collection lock if it is free
    | TimeOut(p: nat)   // give up waiting
    | Work(p: nat)      // one step of the run
    | Leave(p: nat)     // return from the run, or be thrown out of it: release the collection lock
    | Unclaim(p: nat)   // release the job lock

  datatype Moves = Start | Then(past: Moves, m: Move)

  predicate Exclusive(spec: Spec) {
    spec.mode == Full
  }

  function LockOf(w: World, coll: string): RwLock {
    if coll in w.locks then w.locks[coll] else RwLock(0, false)
  }

  /** The run ids that have released the lock of a collection. */
  function FinishedIn(w: World, coll: string): set<string> {
    if coll in w.finished then w.finished[coll] else {}
  }

  function Put(w: World, p: nat, phase: Phase): World
    requires p in w.procs
  {
    w.(procs := w.procs[p := w.procs[p].(phase := phase)])
  }

  /** `born`: the run ids found on points before the first run. A move that is not enabled does nothing. */
  function Apply(w: World, m: Move, born: set<string>): World {
    if m.p !in w.procs then w else
      var q, spec := w.procs[m.p], w.procs[m.p].spec;
      match m
      case Claim(p) =>
        if !q.phase.Fresh? then w
        else if spec.job in w.held then Put(w, p, Gone)
        else Put(w, p, Waiting).(held := w.held + {spec.job})
      case Acquire(p) =>
        if !q.phase.Waiting? || !CanAcquire(LockOf(w, spec.coll), Exclusive(spec)) then w
        else
          w.(procs := w.procs[p := Proc(spec, Running(Begin(spec)), born + FinishedIn(w, spec.coll))],
             locks := w.locks[spec.coll := Acquired(LockOf(w, spec.coll), Exclusive(spec))])
      case TimeOut(p) => if q.phase.Waiting? then Put(w, p, Leaving) else w
      case Work(p) =>
        if !q.phase.Running? then w
        else
          var c := Step(Config(q.phase.run, w.st));
          Put(w, p, Running(c.run)).(st := c.st)
      case Leave(p) =>
        if !q.phase.Running? then w
        else
          Put(w, p, Leaving).(
            locks := w.locks[spec.coll := Released(LockOf(w, spec.coll), Exclusive(spec))],
            finished := w.finished[spec.coll := FinishedIn(w, spec.coll) + {spec.run}])
      case Unclaim(p) => if q.phase.Leaving? then Put(w, p, Gone).(held := w.held - {spec.job}) else w
  }

  function Play(w: World, moves: Moves, born: set<string>): World {
    match moves
    case Start => w
    case Then(past, m) => Apply(Play(w, past, born), m, born)
  }

  // ---- who holds what

  function SharedHolders(w: World, coll: string): set<nat> {
    set p | p in w.procs && w.procs[p].phase.Running? && w.procs[p].spec.coll == coll && !Exclusive(w.procs[p].spec)
  }

  function Writers(w: World, coll: string): set<nat> {
    set p | p in w.procs && w.procs[p].phase.Running? && w.procs[p].spec.coll == coll && Exclusive(w.procs[p].spec)
  }

  predicate HasJobLock(q: Proc) {
    q.phase.Waiting? || q.phase.Running? || q.phase.Leaving?
  }

  /** A lock counts its shared holders and knows its one writer. */
  ghost predicate Exact(l: RwLock, shared: set<nat>, writers: set<nat>) {
    && l.readers == |shared|
    && (l.writer <==> writers != {})
    && (l.writer ==> shared == {})
    && forall p, q | p in writers && q in writers :: p == q
  }

  /** The lock of a collection counts its shared holders and knows its one writer. */
  ghost predicate LockExact(w: World, coll: string) {
    Exact(LockOf(w, coll), SharedHolders(w, coll), Writers(w, coll))
  }

  predicate Owns(w: World, p: nat, job: string) {
    p in w.procs && HasJobLock(w.procs[p]) && w.procs[p].spec.job == job
  }

  /** A job lock is held exactly if one call of the job is under way, and there is only one. */
  ghost predicate JobLockExact(w: World) {
    && (forall p, j | Owns(w, p, j) :: j in w.held)
    && (forall j | j in w.held :: exists p :: Owns(w, p, j))
    && (forall p, q, j | Owns(w, p, j) && Owns(w, q, j) :: p == q)
  }

  ghost predicate RunsOwnSpec(w: World) {
    forall p | p in w.procs && w.procs[p].phase.Running? :: w.procs[p].phase.run.spec == w.procs[p].spec
  }

  ghost predicate LocksExact(w: World) {
    (forall coll :: LockExact(w, coll)) && JobLockExact(w) && RunsOwnSpec(w)
  }

  ghost predicate AllFresh(w: World) {
    && (forall p | p in w.procs :: w.procs[p].phase.Fresh?)
    && w.held == {} && w.locks == map[] && w.finished == map[]
  }

  // ---- the locks are exact in every reachable world

  lemma FreshIsExact(w: World)
    requires AllFresh(w)
    ensures LocksExact(w)
  {
    forall coll ensures LockExact(w, coll) {
      assert SharedHolders(w, coll) == {} && Writers(w, coll) == {};
    }
  }

  lemma SpecStays(c: Config)
    ensures Step(c).run.spec == c.run.spec
  {
  }

  /** A move that makes nobody enter or leave `Running` changes no holders. */
  lemma HoldersUnchanged(w: World, v: World, coll: string)
    requires w.procs.Keys == v.procs.Keys
    requires forall p | p in w.procs ::
               v.procs[p].spec == w.procs[p].spec && (v.procs[p].phase.Running? <==> w.procs[p].phase.Running?)
    ensures SharedHolders(v, coll) == SharedHolders(w, coll) && Writers(v, coll) == Writers(w, coll)
  {
  }

  lemma OwnersUnchanged(w: World, v: World)
    requires JobLockExact(w) && v.held == w.held && w.procs.Keys == v.procs.Keys
    requires forall p | p in w.procs ::
               v.procs[p].spec == w.procs[p].spec && (HasJobLock(v.procs[p]) <==> HasJobLock(w.procs[p]))
    ensures JobLockExact(v)
  {
    forall p, j ensures Owns(v, p, j) <==> Owns(w, p, j) {}
    forall j | j in v.held ensures exists p :: Owns(v, p, j) {
      var p :| Owns(w, p, j);
      assert Owns(v, p, j);
    }
  }

  /** One process enters or leaves `Running`; nobody else moves. */
  ghost predicate OnlyMoves(w: World, v: World, p: nat, running: bool) {
    && p in w.procs && w.procs.Keys == v.procs.Keys
    && v.procs[p].spec == w.procs[p].spec && v.procs[p].phase.Running? == running
    && forall q | q in w.procs && q != p ::
         v.procs[q].spec == w.procs[q].spec && v.procs[q].phase.Running? == w.procs[q].phase.Running?
  }

  lemma HoldersAfterEntering(w: World, v: World, p: nat, coll: string)
    requires OnlyMoves(w, v, p, true)
    ensures
      var spec := w.procs[p].spec;
      && SharedHolders(v, coll) == SharedHolders(w, coll) + (if coll == spec.coll && !Exclusive(spec) then {p} else {})
      && Writers(v, coll) == Writers(w, coll) + (if coll == spec.coll && Exclusive(spec) then {p} else {})
  {
  }

  lemma HoldersAfterLeaving(w: World, v: World, p: nat, coll: string)
    requires OnlyMoves(w, v, p, false)
    ensures SharedHolders(v, coll) == SharedHolders(w, coll) - {p} && Writers(v, coll) == Writers(w, coll) - {p}
  {
  }

  lemma AcquiredLock(w: World, p: nat, born: set<string>, coll: string)
    requires p in w.procs && w.procs[p].phase.Waiting?
    requires CanAcquire(LockOf(w, w.procs[p].spec.coll), Exclusive(w.procs[p].spec))
    ensures
      var spec := w.procs[p].spec;
      LockOf(Apply(w, Acquire(p), born), coll) ==
        if coll == spec.coll then Acquired(LockOf(w, coll), Exclusive(spec)) else LockOf(w, coll)
  {
  }

  lemma AcquireKeepsLock(w: World, p: nat, born: set<string>, coll: string)
    requires LockExact(w, coll)
    ensures LockExact(Apply(w, Acquire(p), born), coll)
  {
    var v := Apply(w, Acquire(p), born);
    if p in w.procs && w.procs[p].phase.Waiting? &&
        CanAcquire(LockOf(w, w.procs[p].spec.coll), Exclusive(w.procs[p].spec))
    {
      var spec := w.procs[p].spec;
      assert OnlyMoves(w, v, p, true);
      HoldersAfterEntering(w, v, p, coll);
      AcquiredLock(w, p, born, coll);
      assert p !in SharedHolders(w, coll);
      EntryIsExact(LockOf(w, coll), SharedHolders(w, coll), Writers(w, coll), p, Exclusive(spec));
    }
  }

  lemma EntryIsExact(l: RwLock, shared: set<nat>, writers: set<nat>, p: nat, exclusive: bool)
    requires Exact(l, shared, writers) && p !in shared
    ensures CanAcquire(l, exclusive) ==>
              if exclusive then Exact(Acquired(l, true), shared, writers + {p})
              else Exact(Acquired(l, false), shared + {p}, writers)
  {
  }

  lemma ExitIsExact(l: RwLock, shared: set<nat>, writers: set<nat>, p: nat)
    requires Exact(l, shared, writers)
    ensures p in writers ==> Exact(Released(l, true), shared - {p}, writers - {p})
    ensures p in shared ==> Exact(Released(l, false), shared - {p}, writers - {p})
  {
  }

  lemma LeaveKeepsLock(w: World, p: nat, born: set<string>, coll: string)
    requires LockExact(w, coll)
    ensures LockExact(Apply(w, Leave(p), born), coll)
  {
    var v := Apply(w, Leave(p), born);
    if p in w.procs && w.procs[p].phase.Running? {
      var spec := w.procs[p].spec;
      assert OnlyMoves(w, v, p, false);
      HoldersAfterLeaving(w, v, p, coll);
      assert LockOf(v, coll) ==
             if coll == spec.coll then Released(LockOf(w, coll), Exclusive(spec)) else LockOf(w, coll);
      assert p in SharedHolders(w, coll) <==> coll == spec.coll && !Exclusive(spec);
      assert p in Writers(w, coll) <==> coll == spec.coll && Exclusive(spec);
      ExitIsExact(LockOf(w, coll), SharedHolders(w, coll), Writers(w, coll), p);
    }
  }

  /** A process changes phase and the stores change; who runs and the locks do not. */
  lemma PutKeepsLock(w: World, p: nat, phase: Phase, held: set<string>, st: Stores, coll: string)
    requires LockExact(w, coll) && p in w.procs && (phase.Running? <==> w.procs[p].phase.Running?)
    ensures LockExact(Put(w, p, phase).(held := held, st := st), coll)
  {
    HoldersUnchanged(w, Put(w, p, phase).(held := held, st := st), coll);
  }

  lemma QuietMoveKeepsLock(w: World, m: Move, born: set<string>, coll: string)
    requires LockExact(w, coll) && !m.Acquire? && !m.Leave?
    ensures LockExact(Apply(w, m, born), coll)
  {
    var v := Apply(w, m, born);
    if m.p in w.procs && v != w { PutKeepsLock(w, m.p, v.procs[m.p].phase, v.held, v.st, coll); }
  }

  lemma MoveKeepsLock(w: World, m: Move, born: set<string>, coll: string)
    requires LockExact(w, coll)
    ensures LockExact(Apply(w, m, born), coll)
  {
    match m
    case Acquire(p) => AcquireKeepsLock(w, p, born, coll);
    case Leave(p) => LeaveKeepsLock(w, p, born, coll);
    case _ => QuietMoveKeepsLock(w, m, born, coll);
  }

  /** A granted claim makes one owner more and changes no other. */
  lemma ClaimedOwners(w: World, p: nat, q: nat, j: string)
    requires p in w.procs && w.procs[p].phase.Fresh?
    ensures
      var spec := w.procs[p].spec;
      Owns(Put(w, p, Waiting).(held := w.held + {spec.job}), q, j) <==> Owns(w, q, j) || (q == p && j == spec.job)
  {
  }

  lemma ClaimKeepsOwners(w: World, p: nat, born: set<string>)
    requires JobLockExact(w)
    ensures JobLockExact(Apply(w, Claim(p), born))
  {
    var v := Apply(w, Claim(p), born);
    if p in w.procs && w.procs[p].phase.Fresh? && w.procs[p].spec.job !in w.held {
      var job := w.procs[p].spec.job;
      assert v == Put(w, p, Waiting).(held := w.held + {job});
      forall q, j ensures Owns(v, q, j) <==> Owns(w, q, j) || (q == p && j == job) { ClaimedOwners(w, p, q, j); }
      forall j | j in v.held ensures exists q :: Owns(v, q, j) {
        if j == job { assert Owns(v, p, j); }
        else {
          var q :| Owns(w, q, j);
          assert Owns(v, q, j);
        }
      }
    } else {
      OwnersUnchanged(w, v);
    }
  }

  lemma UnclaimKeepsOwners(w: World, p: nat, born: set<string>)
    requires JobLockExact(w)
    ensures JobLockExact(Apply(w, Unclaim(p), born))
  {
    var v := Apply(w, Unclaim(p), born);
    if p in w.procs && w.procs[p].phase.Leaving? {
      var job := w.procs[p].spec.job;
      assert Owns(w, p, job);
      forall q, j ensures Owns(v, q, j) <==> Owns(w, q, j) && q != p {}
      forall j | j in v.held ensures exists q :: Owns(v, q, j) {
        var q :| Owns(w, q, j);
        assert Owns(v, q, j);
      }
    }
  }

  lemma MoveKeepsOwners(w: World, m: Move, born: set<string>)
    requires JobLockExact(w)
    ensures JobLockExact(Apply(w, m, born))
  {
    match m
    case Claim(p) => ClaimKeepsOwners(w, p, born);
    case Unclaim(p) => UnclaimKeepsOwners(w, p, born);
    case _ => OtherMovesKeepOwners(w, m, born);
  }

  lemma OtherMovesKeepOwners(w: World, m: Move, born: set<string>)
    requires JobLockExact(w) && !m.Claim? && !m.Unclaim?
    ensures JobLockExact(Apply(w, m, born))
  {
    OwnersUnchanged(w, Apply(w, m, born));
  }

  lemma MoveKeepsSpecs(w: World, m: Move, born: set<string>)
    requires RunsOwnSpec(w)
    ensures RunsOwnSpec(Apply(w, m, born))
  {
    if m.Work? && m.p in w.procs && w.procs[m.p].phase.Running? { SpecStays(Config(w.procs[m.p].phase.run, w.st)); }
  }

  lemma MoveKeeps(w: World, m: Move, born: set<string>)
    requires LocksExact(w)
    ensures LocksExact(Apply(w, m, born))
  {
    forall coll ensures LockExact(Apply(w, m, born), coll) {
      assert LockExact(w, coll);
      MoveKeepsLock(w, m, born, coll);
    }
    MoveKeepsOwners(w, m, born);
    MoveKeepsSpecs(w, m, born);
  }

  // ---- main results

  /**
   In every reachable world the reader count is the number of shared holders (so the clamp never
   acts), a writer excludes readers and other writers, and at most one call per job is under way.
   Since the locks are exactly what the phases say, every way out gives back what was taken.
   */
  lemma {:induction false} LocksStayExact(w: World, moves: Moves, born: set<string>)
    requires AllFresh(w)
    ensures LocksExact(Play(w, moves, born))
  {
    match moves
    case Start => FreshIsExact(w);
    case Then(past, m) =>
      LocksStayExact(w, past, born);
      MoveKeeps(Play(w, past, born), m, born);
  }

  /** When every call has returned or been rejected, every lock is free. */
  lemma AllGoneAllFree(w: World, moves: Moves, born: set<string>, coll: string)
    requires AllFresh(w)
    requires forall p | p in Play(w, moves, born).procs :: Play(w, moves, born).procs[p].phase.Gone?
    ensures Play(w, moves, born).held == {} && LockOf(Play(w, moves, born), coll) == RwLock(0, false)
  {
    LocksStayExact(w, moves, born);
    var v := Play(w, moves, born);
    assert SharedHolders(v, coll) == {} && Writers(v, coll) == {};
    assert LockExact(v, coll);
    assert forall p, j :: !Owns(v, p, j);
    assert forall j :: j !in v.held;
  }

  /** A release always finds a reader to subtract: the clamp at zero is never needed. */
  lemma ClampNeverActs(w: World, moves: Moves, born: set<string>, p: nat)
    requires AllFresh(w)
    requires
      var v := Play(w, moves, born);
      p in v.procs && v.procs[p].phase.Running? && !Exclusive(v.procs[p].spec)
    ensures LockOf(Play(w, moves, born), Play(w, moves, born).procs[p].spec.coll).readers > 0
  {
    LocksStayExact(w, moves, born);
    var v := Play(w, moves, born);
    var coll := v.procs[p].spec.coll;
    assert LockExact(v, coll) && p in SharedHolders(v, coll);
  }

  lemma AcquireSucceeds(v: World, p: nat, born: set<string>)
    requires p in v.procs && v.procs[p].phase.Waiting?
    ensures CanAcquire(LockOf(v, v.procs[p].spec.coll), Exclusive(v.procs[p].spec)) <==>
              Apply(v, Acquire(p), born).procs[p].phase.Running?
  {
  }

  /**
   Who shares a collection: in every reachable world a waiting call gets the lock if and only if no full
   run is under way in its collection and, if it is a full run itself, no run at all.
   */
  lemma AcquiresExactly(w: World, moves: Moves, born: set<string>, p: nat)
    requires AllFresh(w)
    requires p in Play(w, moves, born).procs && Play(w, moves, born).procs[p].phase.Waiting?
    ensures
      var v := Play(w, moves, born);
      var coll := v.procs[p].spec.coll;
      Apply(v, Acquire(p), born).procs[p].phase.Running? <==>
        forall q | q in v.procs && v.procs[q].phase.Running? && v.procs[q].spec.coll == coll ::
          v.procs[q].spec.mode != Full && v.procs[p].spec.mode != Full
  {
    LocksStayExact(w, moves, born);
    var v := Play(w, moves, born);
    var coll := v.procs[p].spec.coll;
    assert LockExact(v, coll);
    AcquireSucceeds(v, p, born);
    assert forall q | q in v.procs && v.procs[q].phase.Running? && v.procs[q].spec.coll == coll ::
             q in SharedHolders(v, coll) || q in Writers(v, coll);
    if SharedHolders(v, coll) != {} {
      var q :| q in SharedHolders(v, coll);
      assert v.procs[q].phase.Running?;
    }
    if Writers(v, coll) != {} {
      var q :| q in Writers(v, coll);
      assert v.procs[q].phase.Running?;
    }
  }

  /** A call is let in exactly if no other call of its job is waiting, running or on its way out. */
  lemma ClaimsExactly(w: World, moves: Moves, born: set<string>, p: nat)
    requires AllFresh(w)
    requires p in Play(w, moves, born).procs && Play(w, moves, born).procs[p].phase.Fresh?
    ensures
      var v := Play(w, moves, born);
      var phase := Apply(v, Claim(p), born).procs[p].phase;
      phase == if forall q | q in v.procs && v.procs[q].spec.job == v.procs[p].spec.job ::
                    v.procs[q].phase.Fresh? || v.procs[q].phase.Gone?
               then Waiting else Gone
  {
    LocksStayExact(w, moves, born);
    var v := Play(w, moves, born);
    var job := v.procs[p].spec.job;
    if job in v.held {
      var q :| Owns(v, q, job);
      assert !v.procs[q].phase.Fresh? && !v.procs[q].phase.Gone?;
    } else {
      assert forall q :: !Owns(v, q, job);
      assert forall q | q in v.procs && v.procs[q].spec.job == job :: !Owns(v, q, job);
    }
  }

  /** No deadlock: who waits in vain waits for a run that holds the lock and waits for no lock. */
  lemma BlockedByARunner(w: World, moves: Moves, born: set<string>, p: nat) returns (q: nat)
    requires AllFresh(w)
    requires
      var v := Play(w, moves, born);
      p in v.procs && v.procs[p].phase.Waiting? && Apply(v, Acquire(p), born) == v
    ensures
      var v := Play(w, moves, born);
      q != p && q in v.procs && v.procs[q].phase.Running? && v.procs[q].spec.coll == v.procs[p].spec.coll
  {
    LocksStayExact(w, moves, born);
    var v := Play(w, moves, born);
    var coll := v.procs[p].spec.coll;
    assert LockExact(v, coll);
    AcquireSucceeds(v, p, born);
    if Writers(v, coll) != {} {
      q :| q in Writers(v, coll);
    } else {
      assert SharedHolders(v, coll) != {};
      q :| q in SharedHolders(v, coll);
    }
  }
}
