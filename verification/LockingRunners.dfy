/**
 The lock classes as they are written. Module Locks interleaves many calls; here is one call, with
 every way out of it: each gives back exactly what it took.
 */
module LockingRunners {
  import opened Stores
  import opened Protocol
  import P = Protocol
  import opened Locks
  import opened Runner

  /** `_ReadWriteLock`. An attempt stands for the moment the wait ends: the lock is free or time is up. */
  class ReadWriteLock {
    var readers: nat
    var writer: bool

    function View(): RwLock
      reads this
    {
      RwLock(readers, writer)
    }

    constructor ()
      ensures View() == RwLock(0, false)
    {
      readers, writer := 0, false;
    }

    method Acquire(exclusive: bool) returns (acquired: bool)
      modifies this
      ensures acquired <==> !old(writer) && (exclusive ==> old(readers) == 0)
      ensures !acquired ==> readers == old(readers) && writer == old(writer)
      ensures acquired && exclusive ==> writer && readers == old(readers)
      ensures acquired && !exclusive ==> !writer && readers == old(readers) + 1
      ensures acquired <==> CanAcquire(old(View()), exclusive)
      ensures View() == if acquired then Acquired(old(View()), exclusive) else old(View())
    {
      if exclusive {
        acquired := !writer && readers == 0;
        if acquired { writer := true; }
        return;
      }
      acquired := !writer;
      if acquired { readers := readers + 1; }
    }

    method Release(exclusive: bool)
      modifies this
      ensures if exclusive then !writer && readers == old(readers)
              else writer == old(writer) && readers == (if old(readers) > 0 then old(readers) - 1 else 0)
      ensures View() == Released(old(View()), exclusive)
    {
      if exclusive {
        writer := false;
      } else {
        readers := if readers - 1 > 0 then readers - 1 else 0;
      }
    }
  }

  /** Releasing undoes acquiring; the clamp does not get in the way. */
  lemma ReleaseUndoesAcquire(l: RwLock, exclusive: bool)
    requires CanAcquire(l, exclusive)
    ensures Released(Acquired(l, exclusive), exclusive) == l
  {
  }

  /** How a call ends: with a finished run, without the collection lock, or with an exception. */
  datatype Returned = Finished(outcome: Outcome) | AbortedLock | Thrown

  /** Where an exception escapes: `run_job` keeps those of the run itself, not those of the run's own row. */
  datatype Fault = NoFault | BeforeRun | AfterRun

  class LockingRunner {
    const runner: JobRunner
    var jobLocks: set<string>
    var collectionLocks: map<string, ReadWriteLock>

    constructor (runner: JobRunner)
      ensures this.runner == runner && jobLocks == {} && collectionLocks == map[]
    {
      this.runner := runner;
      jobLocks, collectionLocks := {}, map[];
    }

    ghost predicate Valid()
      reads this
    {
      forall c, d | c in collectionLocks && d in collectionLocks && c != d :: collectionLocks[c] != collectionLocks[d]
    }

    /** A collection nobody has locked yet is free. */
    function LockView(coll: string): RwLock
      reads this, collectionLocks.Values
    {
      if coll in collectionLocks then collectionLocks[coll].View() else RwLock(0, false)
    }

    /** `_collection_lock`: a new lock the first time a collection is named. */
    method CollectionLock(coll: string) returns (l: ReadWriteLock)
      requires Valid()
      modifies this`collectionLocks
      ensures Valid() && jobLocks == old(jobLocks)
      ensures coll in collectionLocks && collectionLocks[coll] == l && l.View() == old(LockView(coll))
      ensures collectionLocks == old(collectionLocks)[coll := l]
      ensures l in old(collectionLocks.Values) || fresh(l)
    {
      if coll !in collectionLocks {
        l := new ReadWriteLock();
        collectionLocks := collectionLocks[coll := l];
      }
      l := collectionLocks[coll];
    }

    /** `begin`: false stands for the rejection. */
    method Begin(job: string) returns (ok: bool)
      modifies this`jobLocks
      ensures ok <==> job !in old(jobLocks)
      ensures jobLocks == old(jobLocks) + {job}
    {
      ok := job !in jobLocks;
      jobLocks := jobLocks + {job};
    }

    method RunUnlocked(job: Job, fault: Fault) returns (result: Returned, ghost last: Run)
      requires runner.Valid() && Registered(job)
      modifies runner.writer, runner.writer.client, runner.state
      ensures runner.Valid() && (if fault.NoFault? then result.Finished? else result.Thrown?)
      ensures job.spec.dryRun ==> runner.Now() == old(runner.Now())
      ensures result.Finished? ==>
                last.pc == Ended(result.outcome) &&
                Gets(Config(P.Begin(old(runner.Facing(job))), old(runner.Now())), Config(last, runner.Now()))
    {
      if fault.BeforeRun? { return Thrown, P.Begin(job.spec); }
      var run;
      run, last := runner.RunJob(job);
      result := if fault.AfterRun? then Thrown else Finished(run.status.value);
    }

    /** The part under the collection lock, if it can be had; the lock is given back either way. */
    method RunHolding(l: ReadWriteLock, job: Job, fault: Fault) returns (result: Returned, ghost last: Run)
      requires runner.Valid() && Registered(job)
      modifies l, runner.writer, runner.writer.client, runner.state
      ensures runner.Valid() && l.View() == old(l.View())
      ensures result.AbortedLock? <==> old(l.writer) || (job.spec.mode == Full && old(l.readers) > 0)
      ensures result.AbortedLock? || job.spec.dryRun ==> runner.Now() == old(runner.Now())
      ensures !result.AbortedLock? ==> (result.Thrown? <==> !fault.NoFault?)
      ensures result.Finished? ==>
                last.pc == Ended(result.outcome) &&
                Gets(Config(P.Begin(old(runner.Facing(job))), old(runner.Now())), Config(last, runner.Now()))
    {
      var exclusive := job.spec.mode == Full;
      var acquired := l.Acquire(exclusive);
      if !acquired { return AbortedLock, P.Begin(job.spec); }
      result, last := RunUnlocked(job, fault);
      l.Release(exclusive);
    }

    /** Everything but the job lock. */
    method RunInTurn(job: Job, fault: Fault) returns (result: Returned, ghost last: Run)
      requires Valid() && runner.Valid() && Registered(job)
      modifies this`collectionLocks, collectionLocks.Values, runner.writer, runner.writer.client, runner.state
      ensures Valid() && runner.Valid()
      ensures forall coll :: LockView(coll) == old(LockView(coll))
      ensures
        var l := old(LockView(job.spec.coll));
        result.AbortedLock? <==> l.writer || (job.spec.mode == Full && l.readers > 0)
      ensures result.AbortedLock? || job.spec.dryRun ==> runner.Now() == old(runner.Now())
      ensures !result.AbortedLock? ==> (result.Thrown? <==> !fault.NoFault?)
      ensures result.Finished? ==>
                last.pc == Ended(result.outcome) &&
                Gets(Config(P.Begin(old(runner.Facing(job))), old(runner.Now())), Config(last, runner.Now()))
    {
      var l := CollectionLock(job.spec.coll);
      assert forall c | c in collectionLocks && c != job.spec.coll ::
               c in old(collectionLocks) && collectionLocks[c] != l;
      assert runner.Facing(job) == old(runner.Facing(job)) && runner.Now() == old(runner.Now());
      result, last := RunHolding(l, job, fault);
    }

    /**
     `execute`, with the job lock in hand. Whether the run finishes, raises or never gets the
     collection lock, afterwards the job lock is free and every collection lock is as it was. It does not
     get the lock exactly if a full run has it or it is a full run itself and anyone has it; then no
     store was touched, otherwise the run is the machine's.
     */
    method Execute(job: Job, fault: Fault) returns (result: Returned, ghost last: Run)
      requires Valid() && runner.Valid() && Registered(job) && job.spec.job in jobLocks
      modifies this, collectionLocks.Values, runner.writer, runner.writer.client, runner.state
      ensures Valid() && runner.Valid() && jobLocks == old(jobLocks) - {job.spec.job}
      ensures forall coll :: LockView(coll) == old(LockView(coll))
      ensures
        var l := old(LockView(job.spec.coll));
        result.AbortedLock? <==> l.writer || (job.spec.mode == Full && l.readers > 0)
      ensures result.AbortedLock? || job.spec.dryRun ==> runner.Now() == old(runner.Now())
      ensures !result.AbortedLock? ==> (result.Thrown? <==> !fault.NoFault?)
      ensures result.Finished? ==>
                last.pc == Ended(result.outcome) &&
                Gets(Config(P.Begin(old(runner.Facing(job))), old(runner.Now())), Config(last, runner.Now()))
    {
      result, last := RunInTurn(job, fault);
      jobLocks := jobLocks - {job.spec.job};
    }
  }
}
