/** The run history: `delete_runs` removes a window of a job's runs together with their events. */
module RunHistory {
  import opened Stores
  import opened Order
  import opened Ids
  import opened Timestamps

  /** A `runs` row: its job, its start as stored text, and whether it is still running. */
  datatype RunRec = RunRec(job: string, started: string, running: bool)

  /** A `run_events` row by its primary key. */
  datatype EventKey = EventKey(run: string, seqno: nat)

  type Runs = map<string, RunRec>

  predicate InWindow(r: RunRec, job: string, since: Option<string>, until: Option<string>) {
    && r.job == job
    && (since.Some? ==> AtMost(since.value, r.started))
    && (until.Some? ==> Before(r.started, until.value))
  }

  /** The subquery both statements share. */
  function Deletable(runs: Runs, job: string, since: Option<string>, until: Option<string>): set<string> {
    set id | id in runs && InWindow(runs[id], job, since, until) && !runs[id].running
  }

  function StillRunning(runs: Runs, job: string, since: Option<string>, until: Option<string>): set<string> {
    set id | id in runs && InWindow(runs[id], job, since, until) && runs[id].running
  }

  function EventsOf(events: set<EventKey>, ids: set<string>): set<EventKey> {
    set e | e in events && e.run in ids
  }

  datatype Counts = Counts(matched: nat, matchedEvents: nat, deletedRuns: nat, deletedEvents: nat, skippedRunning: nat)

  class RunStore {
    var runs: Runs
    var events: set<EventKey>

    constructor ()
      ensures runs == map[] && events == {}
    {
      runs, events := map[], {};
    }

    /** `delete_runs`: events first, while the runs they belong to can still be selected. */
    method DeleteRuns(job: string, since: Option<string>, until: Option<string>, dryRun: bool) returns (c: Counts)
      modifies this
      ensures
        var gone := Deletable(old(runs), job, since, until);
        && c.matched == |gone| && c.matchedEvents == |EventsOf(old(events), gone)|
        && c.skippedRunning == |StillRunning(old(runs), job, since, until)|
        && (if dryRun then c.deletedRuns == 0 && c.deletedEvents == 0 && runs == old(runs) && events == old(events)
            else
              && c.deletedRuns == c.matched && c.deletedEvents == c.matchedEvents
              && runs == old(runs) - gone && events == old(events) - EventsOf(old(events), gone))
    {
      var matched := |Deletable(runs, job, since, until)|;
      var matchedEvents := |EventsOf(events, Deletable(runs, job, since, until))|;
      var running := |StillRunning(runs, job, since, until)|;
      if dryRun { return Counts(matched, matchedEvents, 0, 0, running); }
      DeleteEvents(job, since, until);
      DeleteRunRows(job, since, until);
      c := Counts(matched, matchedEvents, matched, matchedEvents, running);
    }

    method DeleteEvents(job: string, since: Option<string>, until: Option<string>)
      modifies this`events
      ensures events == old(events) - EventsOf(old(events), Deletable(runs, job, since, until))
    {
      events := set e | e in events && e.run !in Deletable(runs, job, since, until);
    }

    method DeleteRunRows(job: string, since: Option<string>, until: Option<string>)
      modifies this`runs
      ensures runs == old(runs) - Deletable(old(runs), job, since, until)
    {
      runs := map id | id in runs && !(InWindow(runs[id], job, since, until) && !runs[id].running) :: runs[id];
    }
  }

  /** No event is left whose run was deleted, and no other event is touched. */
  ghost predicate EventsHaveRuns(runs: Runs, events: set<EventKey>) {
    forall e | e in events :: e.run in runs
  }

  /** What a deletion leaves is closed: if every event had its run before, every event has it after. */
  lemma DeletionLeavesNoOrphans(runs: Runs, events: set<EventKey>, gone: set<string>)
    requires EventsHaveRuns(runs, events)
    ensures EventsHaveRuns(runs - gone, events - EventsOf(events, gone))
    ensures EventsOf(events - EventsOf(events, gone), runs.Keys - gone) == EventsOf(events, runs.Keys - gone)
  {
    forall e | e in events - EventsOf(events, gone) ensures e.run in runs - gone {
      assert e !in EventsOf(events, gone);
    }
  }

  /** Whether a run that started at an instant is in a window of instants, open where a bound is missing. */
  predicate Within(t: Instant, since: Option<Instant>, until: Option<Instant>) {
    && (since.Some? ==> !Earlier(Fields(t), Fields(since.value)))
    && (until.Some? ==> Earlier(Fields(t), Fields(until.value)))
  }

  /** A bound in stored form. */
  function Stored(bound: Option<Instant>): Option<string> {
    if bound.Some? then Some(Text(bound.value, UTC)) else None
  }

  /**
   With starts and bounds in stored form, the runs removed are exactly the job's finished runs that
   started in [since, until) as instants, to the microsecond, with either bound or both left out.
   */
  lemma WindowIsOfInstants(runs: Runs, starts: map<string, Instant>, job: string, since: Option<Instant>,
                           until: Option<Instant>, id: string)
    requires id in runs && id in starts && runs[id].started == Text(starts[id], UTC) && Proper(starts[id])
    requires (since.Some? ==> Proper(since.value)) && (until.Some? ==> Proper(until.value))
    ensures id in Deletable(runs, job, Stored(since), Stored(until)) <==>
              runs[id].job == job && !runs[id].running && Within(starts[id], since, until)
  {
    if since.Some? {
      TextOrderIsTimeOrder(since.value, starts[id]);
      EarlierIsStrict(Fields(since.value), Fields(starts[id]));
      FieldsTell(since.value, starts[id]);
    }
    if until.Some? { TextOrderIsTimeOrder(starts[id], until.value); }
  }
}
