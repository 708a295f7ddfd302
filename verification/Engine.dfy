/** The scheduler and the engine as they are written, changing timers and registry in place. */
module Engine {
  import opened Stores
  import opened Catalog
  import opened Registry

  /** The timers when the ids in `done` have been brought up to date and obsolete ones are gone. */
  ghost function Midway(t: Timers, desired: map<string, JobDef>, done: set<string>): map<string, Timer> {
    map id | id in t.live.Keys + done && id in desired :: if id in done then Synced(t, id, desired[id]) else t.live[id]
  }

  ghost function MidwayApplied(t: Timers, desired: map<string, JobDef>, done: set<string>): map<string, Schedule> {
    map id | id in t.applied.Keys + done && id in desired :: if id in done then desired[id].schedule else t.applied[id]
  }

  lemma MidwayGrows(t: Timers, desired: map<string, JobDef>, done: set<string>, id: string)
    requires id in desired && id !in done
    ensures Midway(t, desired, done + {id}) == Midway(t, desired, done)[id := Synced(t, id, desired[id])]
    ensures MidwayApplied(t, desired, done + {id}) == MidwayApplied(t, desired, done)[id := desired[id].schedule]
    ensures Keeps(t, id, desired[id]) ==>
              MidwayApplied(t, desired, done)[id := desired[id].schedule] == MidwayApplied(t, desired, done)
    ensures Keeps(t, id, desired[id]) <==>
              id in Midway(t, desired, done) && id in MidwayApplied(t, desired, done) &&
              MidwayApplied(t, desired, done)[id] == desired[id].schedule
  {
  }

  class IngestScheduler {
    var live: map<string, Timer>
    var applied: map<string, Schedule>
    var clock: nat

    function View(): Timers
      reads this
    {
      Timers(live, applied, clock)
    }

    constructor ()
      ensures View() == Timers(map[], map[], 0)
    {
      live, applied, clock := map[], map[], 0;
    }

    method ApplyCatalog(jobs: seq<JobDef>)
      modifies this
      ensures View() == Applied(old(View()), Desired(jobs))
    {
      var desired: map<string, JobDef> := map[];
      for i := 0 to |jobs|
        invariant desired == Desired(jobs[..i]) && View() == old(View())
      {
        assert jobs[..i + 1][..i] == jobs[..i];
        if Scheduled(jobs[i]) { desired := desired[jobs[i].id := jobs[i]]; }
      }
      assert jobs[..|jobs|] == jobs;
      RemoveObsolete(desired);
      applied := map id | id in applied && id in desired :: applied[id];
      ghost var t := old(View());
      assert live == Midway(t, desired, {}) && applied == MidwayApplied(t, desired, {});
      Sync(desired, t);
      clock := clock + 1;
    }

    /** Each desired job keeps its timer, with the new definition, or gets a new one. */
    method Sync(desired: map<string, JobDef>, ghost t: Timers)
      requires clock == t.clock && live == Midway(t, desired, {}) && applied == MidwayApplied(t, desired, {})
      modifies this`live, this`applied
      ensures live == Applied(t, desired).live && applied == Applied(t, desired).applied
    {
      var todo := desired.Keys;
      while todo != {}
        invariant todo <= desired.Keys
        invariant live == Midway(t, desired, desired.Keys - todo)
        invariant applied == MidwayApplied(t, desired, desired.Keys - todo)
      {
        var id :| id in todo;
        var job := desired[id];
        MidwayGrows(t, desired, desired.Keys - todo, id);
        assert desired.Keys - (todo - {id}) == desired.Keys - todo + {id};
        if id in live && id in applied && applied[id] == job.schedule {
          live := live[id := live[id].(job := job)];
        } else {
          live := live[id := Timer(job, false, clock)];
          applied := applied[id := job.schedule];
        }
        todo := todo - {id};
      }
      assert desired.Keys - {} == desired.Keys;
    }

    method RemoveObsolete(desired: map<string, JobDef>)
      modifies this`live
      ensures live == map id | id in old(live) && id in desired :: old(live)[id]
    {
      var obsolete := live.Keys - desired.Keys;
      var left := obsolete;
      while left != {}
        invariant left <= obsolete
        invariant live == old(live) - (obsolete - left)
      {
        var id :| id in left;
        live := live - {id};
        left := left - {id};
      }
    }

    method PauseJob(id: string) returns (found: bool)
      modifies this`live
      ensures found <==> id in old(live)
      ensures live == PausedAll(old(live), {id})
    {
      found := id in live;
      if found { live := live[id := live[id].(paused := true)]; }
    }

    method ResumeJob(id: string) returns (found: bool)
      modifies this`live
      ensures found <==> id in old(live)
      ensures live == if found then old(live)[id := old(live)[id].(paused := false)] else old(live)
    {
      found := id in live;
      if found { live := live[id := live[id].(paused := false)]; }
    }
  }

  class IngestEngine {
    const scheduler: IngestScheduler
    var jobs: map<string, JobDef>
    var paused: set<string>

    function View(): State
      reads this, scheduler
    {
      State(jobs, paused, scheduler.View())
    }

    constructor (scheduler: IngestScheduler)
      ensures this.scheduler == scheduler && jobs == map[] && paused == {}
    {
      this.scheduler := scheduler;
      jobs, paused := map[], {};
    }

    /** `reload_config` with the loader's result; the answer says whether it was applied. */
    method ReloadConfig(load: LoadResult, initial: bool) returns (applies: bool)
      modifies this, scheduler
      ensures applies <==> load.errors == [] || initial || old(jobs) == map[]
      ensures View() == Reloaded(old(View()), load, initial)
    {
      applies := load.errors == [] || initial || jobs == map[];
      if !applies { return; }
      var byId: map<string, JobDef> := map[];
      for i := 0 to |load.jobs|
        invariant byId == ById(load.jobs[..i]) && View() == old(View())
      {
        assert load.jobs[..i + 1][..i] == load.jobs[..i];
        byId := byId[load.jobs[i].id := load.jobs[i]];
      }
      assert load.jobs[..|load.jobs|] == load.jobs;
      jobs := byId;
      paused := paused * jobs.Keys;
      scheduler.ApplyCatalog(load.jobs);
      PauseAgain();
    }

    /** The scheduler pauses every paused job that has a timer. */
    method PauseAgain()
      modifies scheduler
      ensures scheduler.View() == old(scheduler.View()).(live := PausedAll(old(scheduler.live), paused))
    {
      var left := paused;
      while left != {}
        invariant left <= paused
        invariant scheduler.applied == old(scheduler.applied) && scheduler.clock == old(scheduler.clock)
        invariant scheduler.live == PausedAll(old(scheduler.live), paused - left)
      {
        var id :| id in left;
        var found := scheduler.PauseJob(id);
        assert paused - (left - {id}) == paused - left + {id};
        left := left - {id};
      }
    }

    /** None stands for the unknown-job error. */
    method PauseJob(id: string) returns (answer: Option<bool>)
      modifies this, scheduler
      ensures answer == if id in old(jobs) then Some(true) else None
      ensures View() == Paused(old(View()), id)
    {
      if id !in jobs { return None; }
      paused := paused + {id};
      var found := scheduler.PauseJob(id);
      answer := Some(true);
    }

    method ResumeJob(id: string) returns (answer: Option<bool>)
      modifies this, scheduler
      ensures answer == if id in old(jobs) then Some(id in old(scheduler.live)) else None
      ensures View() == Resumed(old(View()), id)
    {
      if id !in jobs { return None; }
      paused := paused - {id};
      var found := scheduler.ResumeJob(id);
      answer := Some(found);
    }
  }
}
