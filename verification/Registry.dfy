/**
 The registry of jobs, its live timers and its paused set, under every sequence of reloads, pauses
 and resumes. A timer is its job definition, whether it is paused, and when it was made: making a
 timer again would push its next firing back, so an unchanged schedule must keep its timer.
 */
module Registry {
  import opened Stores
  import opened Catalog

  datatype Timer = Timer(job: JobDef, paused: bool, made: nat)

  /** The scheduler: live timers, and the schedule each was made with. `clock` counts reloads. */
  datatype Timers = Timers(live: map<string, Timer>, applied: map<string, Schedule>, clock: nat)

  datatype State = State(jobs: map<string, JobDef>, paused: set<string>, timers: Timers)

  predicate Scheduled(job: JobDef) {
    job.enabled && (job.schedule.cron.Some? || job.schedule.every.Some?)
  }

  function ById(jobs: seq<JobDef>): map<string, JobDef> {
    if jobs == [] then map[]
    else
      var last := jobs[|jobs| - 1];
      ById(jobs[..|jobs| - 1])[last.id := last]
  }

  /** The jobs that should have a timer; of two with one id the later one. */
  function Desired(jobs: seq<JobDef>): map<string, JobDef> {
    if jobs == [] then map[]
    else
      var last := jobs[|jobs| - 1];
      var before := Desired(jobs[..|jobs| - 1]);
      if Scheduled(last) then before[last.id := last] else before
  }

  predicate Keeps(t: Timers, id: string, job: JobDef) {
    id in t.live && id in t.applied && t.applied[id] == job.schedule
  }

  function Synced(t: Timers, id: string, job: JobDef): Timer {
    if Keeps(t, id, job) then t.live[id].(job := job) else Timer(job, false, t.clock)
  }

  /** `apply_catalog`. */
  function Applied(t: Timers, desired: map<string, JobDef>): Timers {
    Timers(map id | id in desired :: Synced(t, id, desired[id]),
           map id | id in desired :: desired[id].schedule,
           t.clock + 1)
  }

  function PausedAll(live: map<string, Timer>, paused: set<string>): map<string, Timer> {
    map id | id in live :: if id in paused then live[id].(paused := true) else live[id]
  }

  predicate Applies(s: State, load: LoadResult, initial: bool) {
    load.errors == [] || initial || s.jobs == map[]
  }

  /** `reload_config` with what the loader returned. */
  function Reloaded(s: State, load: LoadResult, initial: bool): State {
    if !Applies(s, load, initial) then s
    else
      var jobs := ById(load.jobs);
      var paused := s.paused * jobs.Keys;
      var timers := Applied(s.timers, Desired(load.jobs));
      State(jobs, paused, timers.(live := PausedAll(timers.live, paused)))
  }

  function Paused(s: State, id: string): State {
    if id !in s.jobs then s
    else s.(paused := s.paused + {id}, timers := s.timers.(live := PausedAll(s.timers.live, {id})))
  }

  function Resumed(s: State, id: string): State {
    if id !in s.jobs then s
    else
      var live := s.timers.live;
      s.(paused := s.paused - {id},
         timers := s.timers.(live := if id in live then live[id := live[id].(paused := false)] else live))
  }

  datatype Command = Reload(load: LoadResult, initial: bool) | Pause(id: string) | Resume(id: string)

  datatype History = Fresh | After(past: History, cmd: Command)

  function Do(s: State, cmd: Command): State {
    match cmd
    case Reload(load, initial) => Reloaded(s, load, initial)
    case Pause(id) => Paused(s, id)
    case Resume(id) => Resumed(s, id)
  }

  function Replay(h: History): State {
    match h
    case Fresh => State(map[], {}, Timers(map[], map[], 0))
    case After(past, cmd) => Do(Replay(past), cmd)
  }

  /** The loader never returns two jobs with one id. */
  predicate DistinctIds(jobs: seq<JobDef>) {
    forall i, j | 0 <= i < j < |jobs| :: jobs[i].id != jobs[j].id
  }

  predicate Loaded(h: History) {
    match h
    case Fresh => true
    case After(past, cmd) => Loaded(past) && (cmd.Reload? ==> DistinctIds(cmd.load.jobs))
  }

  /** Timers, paused set and registry say the same thing. */
  ghost predicate InStep(s: State) {
    && s.paused <= s.jobs.Keys
    && (forall id | id in s.jobs :: s.jobs[id].id == id)
    && (forall id :: id in s.timers.live <==>
          && id in s.jobs && s.jobs[id].enabled
          && (s.jobs[id].schedule.cron.Some? || s.jobs[id].schedule.every.Some?))
    && s.timers.applied.Keys == s.timers.live.Keys
    && (forall id | id in s.timers.live ::
          && s.timers.live[id].job == s.jobs[id]
          && s.timers.applied[id] == s.jobs[id].schedule
          && (s.timers.live[id].paused <==> id in s.paused)
          && s.timers.live[id].made < s.timers.clock)
  }

  lemma {:induction false} DesiredAreScheduled(jobs: seq<JobDef>)
    requires DistinctIds(jobs)
    ensures forall id :: id in Desired(jobs) <==> id in ById(jobs) && Scheduled(ById(jobs)[id])
    ensures forall id | id in Desired(jobs) :: Desired(jobs)[id] == ById(jobs)[id]
    ensures forall id | id in ById(jobs) :: ById(jobs)[id].id == id && ById(jobs)[id] in jobs
  {
    if jobs != [] {
      var n := |jobs| - 1;
      DesiredAreScheduled(jobs[..n]);
      assert jobs[n].id !in ById(jobs[..n]);
    }
  }

  lemma ReloadKeepsStep(s: State, load: LoadResult, initial: bool)
    requires InStep(s) && DistinctIds(load.jobs)
    ensures InStep(Reloaded(s, load, initial))
  {
    DesiredAreScheduled(load.jobs);
  }

  lemma PauseKeepsStep(s: State, id: string)
    requires InStep(s)
    ensures InStep(Paused(s, id)) && InStep(Resumed(s, id))
  {
  }

  // ---- main results

  /**
   After every sequence of reloads, pauses and resumes, the live timers are those of the enabled,
   scheduled jobs with their current definitions, each paused exactly if its job is, and only
   registered jobs are paused.
   */
  lemma {:induction false} AlwaysInStep(h: History)
    requires Loaded(h)
    ensures InStep(Replay(h))
  {
    match h
    case Fresh =>
    case After(past, cmd) =>
      AlwaysInStep(past);
      match cmd
      case Reload(load, initial) => ReloadKeepsStep(Replay(past), load, initial);
      case Pause(id) => PauseKeepsStep(Replay(past), id);
      case Resume(id) => PauseKeepsStep(Replay(past), id);
  }

  /** A history without the reloads that were turned down when they came. */
  function Accepted(h: History): History {
    match h
    case Fresh => Fresh
    case After(past, cmd) =>
      if cmd.Reload? && !Applies(Replay(past), cmd.load, cmd.initial) then Accepted(past)
      else After(Accepted(past), cmd)
  }

  /** The jobs of the newest reload. */
  function Newest(h: History): map<string, JobDef> {
    match h
    case Fresh => map[]
    case After(past, cmd) => if cmd.Reload? then ById(cmd.load.jobs) else Newest(past)
  }

  /**
   Reloads that are turned down leave no trace, whatever jobs they bring and however many commands
   follow: registry, timers, their ages and the paused set are those of the history without them,
   and the registry is what the newest of the others asked for.
   */
  lemma {:induction false} RejectedReloadsLeaveNoTrace(h: History)
    ensures Replay(Accepted(h)) == Replay(h) && Replay(h).jobs == Newest(Accepted(h))
  {
    match h
    case Fresh =>
    case After(past, cmd) => RejectedReloadsLeaveNoTrace(past);
  }

  /** A reload is turned down exactly if it has errors, is not the initial one, and a job is registered. */
  lemma {:induction false} TurnedDownExactly(h: History, load: LoadResult, initial: bool)
    ensures Accepted(After(h, Reload(load, initial))) == Accepted(h) <==>
              load.errors != [] && !initial && Newest(Accepted(h)) != map[]
  {
    RejectedReloadsLeaveNoTrace(h);
    GrowsApart(Accepted(h), Reload(load, initial));
  }

  /** An applied reload registers exactly the jobs it brings. */
  lemma {:induction false} AllAreRegistered(jobs: seq<JobDef>)
    requires DistinctIds(jobs)
    ensures forall job | job in jobs :: job.id in ById(jobs) && ById(jobs)[job.id] == job
    ensures forall id | id in ById(jobs) :: exists job :: job in jobs && job.id == id
  {
    if jobs != [] {
      var n := |jobs| - 1;
      AllAreRegistered(jobs[..n]);
      assert jobs == jobs[..n] + [jobs[n]];
      forall job | job in jobs[..n] ensures job.id != jobs[n].id {
        var i :| 0 <= i < n && jobs[i] == job;
      }
      forall id | id in ById(jobs) ensures exists job :: job in jobs && job.id == id {
        if id == jobs[n].id { assert jobs[n] in jobs; }
        else {
          var job :| job in jobs[..n] && job.id == id;
          assert job in jobs;
        }
      }
    }
  }

  lemma {:induction false} GrowsApart(h: History, cmd: Command)
    ensures After(h, cmd) != h
  {
    match h
    case Fresh =>
    case After(past, last) => if cmd == last { GrowsApart(past, cmd); }
  }

  /**
   After any history, a reload leaves a job's timer running as it was, paused or not, exactly if
   the job had one and still asks for the same schedule; every other timer is new.
   */
  lemma TimerKeptExactly(h: History, load: LoadResult, initial: bool, id: string)
    requires Loaded(h) && DistinctIds(load.jobs) && Applies(Replay(h), load, initial)
    requires id in Reloaded(Replay(h), load, initial).timers.live
    ensures
      var before, after := Replay(h).timers, Reloaded(Replay(h), load, initial).timers.live[id];
      var kept := id in before.live && before.live[id].job.schedule == after.job.schedule;
      (after.made < before.clock <==> kept) && (kept ==> after == before.live[id].(job := after.job))
  {
    AlwaysInStep(h);
    ReloadKeepsStep(Replay(h), load, initial);
  }

  /** A reload pauses and resumes nothing: who stays registered stays paused or not, and so does the timer. */
  lemma PauseSurvivesReload(h: History, load: LoadResult, initial: bool, id: string)
    requires Loaded(h) && DistinctIds(load.jobs)
    ensures
      var before, after := Replay(h), Reloaded(Replay(h), load, initial);
      id in before.jobs && id in after.jobs ==>
        && (id in after.paused <==> id in before.paused)
        && (id in after.timers.live ==> (after.timers.live[id].paused <==> id in before.paused))
  {
    AlwaysInStep(h);
    ReloadKeepsStep(Replay(h), load, initial);
  }

  /** Pausing an unknown job does nothing; pausing another marks it and pauses its timer, and no other. */
  lemma PauseTouchesOne(h: History, id: string, other: string)
    requires Loaded(h)
    ensures
      var before, after := Replay(h), Replay(After(h, Pause(id)));
      && after.jobs == before.jobs && (id !in before.jobs ==> after == before)
      && (id in before.jobs ==> id in after.paused)
      && (id in before.jobs && id in before.timers.live ==>
            id in after.timers.live && after.timers.live[id] == before.timers.live[id].(paused := true))
      && (other != id ==>
            && (other in after.paused <==> other in before.paused)
            && (other in after.timers.live <==> other in before.timers.live)
            && (other in before.timers.live ==> after.timers.live[other] == before.timers.live[other]))
  {
  }

  /** Resuming a job that was paused by hand brings back everything as it was. */
  lemma ResumeUndoesPause(h: History, id: string)
    requires Loaded(h) && id !in Replay(h).paused
    ensures Replay(After(After(h, Pause(id)), Resume(id))) == Replay(h)
    ensures id !in Replay(After(h, Resume(id))).paused
  {
    AlwaysInStep(h);
    var s := Replay(h);
    assert s.paused + {id} - {id} == s.paused;
    var live := PausedAll(s.timers.live, {id});
    if id in s.jobs && id in s.timers.live { assert live[id := live[id].(paused := false)] == s.timers.live; }
    else { assert live == s.timers.live; }
  }
}
