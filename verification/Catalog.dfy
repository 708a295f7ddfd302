/**
 The job catalog: defaults merged under every job, then rules across jobs. A load with errors keeps
 the jobs no error names; those form a consistent catalog by themselves.
 */
module Catalog {
  import opened Stores

  // ---- merging defaults

  datatype Yaml = Leaf(text: string) | Dict(entries: map<string, Yaml>)

  /** `_deep_merge` of two mappings. */
  function Merge(base: Yaml, over: Yaml): Yaml
    requires base.Dict? && over.Dict?
    decreases over
  {
    Dict(map k | k in base.entries.Keys + over.entries.Keys ::
           if k !in over.entries then base.entries[k]
           else if over.entries[k].Dict? && k in base.entries && base.entries[k].Dict? then
             Merge(base.entries[k], over.entries[k])
           else over.entries[k])
  }

  /** What a nested mapping says at a path of keys. */
  function At(y: Yaml, path: seq<string>): Option<Yaml>
    decreases |path|
  {
    if path == [] then Some(y)
    else if y.Dict? && path[0] in y.entries then At(y.entries[path[0]], path[1..])
    else None
  }

  /** A leaf of the merge is the job's where the job says anything, and the default's elsewhere. */
  lemma {:induction false} JobKeysWin(base: Yaml, over: Yaml, path: seq<string>, text: string)
    requires base.Dict? && over.Dict?
    ensures At(Merge(base, over), path) == Some(Leaf(text)) <==>
              At(over, path) == Some(Leaf(text)) || (At(base, path) == Some(Leaf(text)) && !Shadows(over, path))
    decreases |path|
  {
    if path != [] {
      var k := path[0];
      var m := Merge(base, over);
      if k in m.entries && k in over.entries && over.entries[k].Dict? && k in base.entries && base.entries[k].Dict? {
        JobKeysWin(base.entries[k], over.entries[k], path[1..], text);
      } else if k in over.entries {
        LeafOrDict(over.entries[k], path[1..], text);
        if k in base.entries { LeafOrDict(base.entries[k], path[1..], text); }
      }
    }
  }

  /** The job has an entry on the way to the path that is not a mapping, or one at the path itself. */
  predicate Shadows(over: Yaml, path: seq<string>)
    decreases |path|
  {
    if path == [] || over.Leaf? then true
    else path[0] in over.entries && Shadows(over.entries[path[0]], path[1..])
  }

  lemma LeafOrDict(y: Yaml, path: seq<string>, text: string)
    ensures y.Leaf? && path != [] ==> At(y, path) == None
    ensures y.Leaf? ==> Shadows(y, path)
  {
  }

  lemma {:induction false} MergeSelf(y: Yaml)
    requires y.Dict?
    ensures Merge(y, y) == y
  {
    forall k | k in y.entries ensures Merge(y, y).entries[k] == y.entries[k] {
      if y.entries[k].Dict? { MergeSelf(y.entries[k]); }
    }
  }

  /** Merging the defaults again into a merged job changes nothing. */
  lemma {:induction false} MergeIdempotent(base: Yaml, over: Yaml)
    requires base.Dict? && over.Dict?
    ensures Merge(base, Merge(base, over)) == Merge(base, over)
    decreases over
  {
    var m := Merge(base, over);
    forall k | k in m.entries ensures Merge(base, m).entries[k] == m.entries[k] {
      if k in over.entries && over.entries[k].Dict? && k in base.entries && base.entries[k].Dict? {
        MergeIdempotent(base.entries[k], over.entries[k]);
      } else if k !in over.entries && base.entries[k].Dict? {
        MergeSelf(base.entries[k]);
      }
    }
  }

  // ---- jobs

  /** Whether a job runs once when the service starts. */
  datatype Startup = Never | IfMissed | Always

  datatype Schedule = Schedule(cron: Option<string>, every: Option<string>, timezone: Option<string>,
                               jitter: nat, grace: nat, startup: Startup)

  datatype JobDef = JobDef(id: string, enabled: bool, sourceLabel: string, collection: string, connection: string,
                           model: Option<string>, schedule: Schedule)

  datatype Field = Id | Collection | SourceLabel | Model | Connection | Other(name: string)

  /** A named problem; `job` is None when no job can be named. */
  datatype Issue = Issue(job: Option<string>, field: Field)

  // ---- rules across jobs

  predicate SameCollection(a: JobDef, b: JobDef) {
    a.enabled && b.enabled && a.collection == b.collection
  }

  /** The first enabled job with a model claims its collection for that model. */
  predicate Claims(jobs: seq<JobDef>, i: nat)
    requires i < |jobs|
  {
    jobs[i].enabled && jobs[i].model.Some? &&
    forall j | 0 <= j < i :: !(SameCollection(jobs[j], jobs[i]) && jobs[j].model.Some?)
  }

  /** The first enabled job of a collection claims it for its connection. */
  predicate Connects(jobs: seq<JobDef>, i: nat)
    requires i < |jobs|
  {
    jobs[i].enabled && forall j | 0 <= j < i :: !SameCollection(jobs[j], jobs[i])
  }

  /** Which jobs are flagged for what: later jobs that clash with an earlier one. */
  ghost predicate Flagged(jobs: seq<JobDef>, system: set<string>, i: nat, field: Field)
    requires i < |jobs|
  {
    var job := jobs[i];
    match field
    case Id => exists j :: 0 <= j < i && jobs[j].id == job.id
    case Collection => job.collection in system
    case SourceLabel => exists j :: 0 <= j < i && SameCollection(jobs[j], job) && jobs[j].sourceLabel == job.sourceLabel
    case Model =>
      job.model.Some? &&
      exists j :: 0 <= j < i && SameCollection(jobs[j], job) && Claims(jobs, j) && jobs[j].model != job.model
    case Connection =>
      exists j ::
        0 <= j < i && SameCollection(jobs[j], job) && Connects(jobs, j) && jobs[j].connection != job.connection
    case Other(_) => false
  }

  /** A catalog no two of whose jobs stand in each other's way. */
  ghost predicate Consistent(jobs: seq<JobDef>, system: set<string>) {
    && (forall i, j | 0 <= i < j < |jobs| :: jobs[i].id != jobs[j].id)
    && (forall job | job in jobs :: job.collection !in system)
    && (forall i, j | 0 <= i < j < |jobs| && SameCollection(jobs[i], jobs[j]) ::
          && jobs[i].sourceLabel != jobs[j].sourceLabel && jobs[i].connection == jobs[j].connection
          && (jobs[i].model.Some? && jobs[j].model.Some? ==> jobs[i].model == jobs[j].model))
  }

  ghost predicate Clean(jobs: seq<JobDef>, system: set<string>) {
    forall i, field | 0 <= i < |jobs| :: !Flagged(jobs, system, i, field)
  }

  lemma {:induction false} FirstClaim(jobs: seq<JobDef>, i: nat) returns (j: nat)
    requires i < |jobs| && jobs[i].enabled && jobs[i].model.Some?
    ensures j <= i && SameCollection(jobs[j], jobs[i]) && Claims(jobs, j)
  {
    if Claims(jobs, i) { return i; }
    var k :| 0 <= k < i && SameCollection(jobs[k], jobs[i]) && jobs[k].model.Some?;
    j := FirstClaim(jobs, k);
  }

  lemma {:induction false} FirstConnect(jobs: seq<JobDef>, i: nat) returns (j: nat)
    requires i < |jobs| && jobs[i].enabled
    ensures j <= i && SameCollection(jobs[j], jobs[i]) && Connects(jobs, j)
  {
    if Connects(jobs, i) { return i; }
    var k :| 0 <= k < i && SameCollection(jobs[k], jobs[i]);
    j := FirstConnect(jobs, k);
  }

  lemma UnclaimedClaims(jobs: seq<JobDef>, i: nat)
    requires i < |jobs| && jobs[i].enabled && jobs[i].model.Some?
    requires forall j | 0 <= j < i && Claims(jobs, j) :: jobs[j].collection != jobs[i].collection
    ensures Claims(jobs, i)
  {
    var j := FirstClaim(jobs, i);
  }

  lemma UnclaimedConnects(jobs: seq<JobDef>, i: nat)
    requires i < |jobs| && jobs[i].enabled
    requires forall j | 0 <= j < i && Connects(jobs, j) :: jobs[j].collection != jobs[i].collection
    ensures Connects(jobs, i)
  {
    var j := FirstConnect(jobs, i);
  }

  /** Two unflagged jobs of one collection agree with the job that claimed it, hence with each other. */
  lemma UnflaggedAgree(jobs: seq<JobDef>, system: set<string>, i: nat, j: nat)
    requires i < j < |jobs| && SameCollection(jobs[i], jobs[j])
    requires forall field :: !Flagged(jobs, system, i, field) && !Flagged(jobs, system, j, field)
    ensures jobs[i].sourceLabel != jobs[j].sourceLabel && jobs[i].connection == jobs[j].connection
    ensures jobs[i].model.Some? && jobs[j].model.Some? ==> jobs[i].model == jobs[j].model
  {
    assert !Flagged(jobs, system, j, SourceLabel);
    assert !Flagged(jobs, system, i, Connection) && !Flagged(jobs, system, j, Connection);
    assert !Flagged(jobs, system, i, Model) && !Flagged(jobs, system, j, Model);
    var first := FirstConnect(jobs, i);
    if jobs[i].model.Some? { var claim := FirstClaim(jobs, i); }
  }

  /** The rules flag nothing exactly when the catalog is consistent. */
  lemma CleanIffConsistent(jobs: seq<JobDef>, system: set<string>)
    ensures Clean(jobs, system) <==> Consistent(jobs, system)
  {
    if Clean(jobs, system) {
      forall i, j | 0 <= i < j < |jobs| ensures jobs[i].id != jobs[j].id { assert !Flagged(jobs, system, j, Id); }
      forall job | job in jobs ensures job.collection !in system {
        var i :| 0 <= i < |jobs| && jobs[i] == job;
        assert !Flagged(jobs, system, i, Collection);
      }
      forall i, j | 0 <= i < j < |jobs| && SameCollection(jobs[i], jobs[j])
        ensures jobs[i].sourceLabel != jobs[j].sourceLabel && jobs[i].connection == jobs[j].connection
        ensures jobs[i].model.Some? && jobs[j].model.Some? ==> jobs[i].model == jobs[j].model
      {
        UnflaggedAgree(jobs, system, i, j);
      }
    }
  }

  // ---- survivors

  function Survivors(jobs: seq<JobDef>, failed: set<string>): seq<JobDef> {
    if jobs == [] then []
    else
      var last := jobs[|jobs| - 1];
      Survivors(jobs[..|jobs| - 1], failed) + (if last.id in failed then [] else [last])
  }

  /** Each survivor is a job no failed id names, and order is kept. */
  lemma {:induction false} SurvivorsAreJobs(jobs: seq<JobDef>, failed: set<string>) returns (at: seq<nat>)
    ensures |at| == |Survivors(jobs, failed)|
    ensures forall a | 0 <= a < |at| ::
              at[a] < |jobs| && jobs[at[a]] == Survivors(jobs, failed)[a] && jobs[at[a]].id !in failed
    ensures forall a, b | 0 <= a < b < |at| :: at[a] < at[b]
  {
    at := [];
    if jobs != [] {
      var n := |jobs| - 1;
      at := SurvivorsAreJobs(jobs[..n], failed);
      if jobs[n].id !in failed { at := at + [n]; }
    }
  }

  /**
   The jobs no issue names are consistent by themselves, even when the job that claimed a collection
   is not among them.
   */
  lemma SurvivorsConsistent(jobs: seq<JobDef>, system: set<string>, failed: set<string>)
    requires forall i, field | 0 <= i < |jobs| && Flagged(jobs, system, i, field) :: jobs[i].id in failed
    ensures Consistent(Survivors(jobs, failed), system)
  {
    var at := SurvivorsAreJobs(jobs, failed);
    var left := Survivors(jobs, failed);
    forall a, b | 0 <= a < b < |left| ensures left[a].id != left[b].id {
      assert !Flagged(jobs, system, at[b], Id);
    }
    forall job | job in left ensures job.collection !in system {
      var a :| 0 <= a < |left| && left[a] == job;
      assert !Flagged(jobs, system, at[a], Collection);
    }
    forall a, b | 0 <= a < b < |left| && SameCollection(left[a], left[b])
      ensures left[a].sourceLabel != left[b].sourceLabel && left[a].connection == left[b].connection
      ensures left[a].model.Some? && left[b].model.Some? ==> left[a].model == left[b].model
    {
      UnflaggedAgree(jobs, system, at[a], at[b]);
    }
  }

  // ---- the validator's loops

  /** The issues of one rule over the first `n` jobs, in order. */
  ghost function IssuesOf(jobs: seq<JobDef>, system: set<string>, field: Field, n: nat): seq<Issue>
    requires n <= |jobs|
  {
    if n == 0 then []
    else IssuesOf(jobs, system, field, n - 1)
         + (if Flagged(jobs, system, n - 1, field) then [Issue(Some(jobs[n - 1].id), field)] else [])
  }

  ghost function CrossIssues(jobs: seq<JobDef>, system: set<string>): seq<Issue> {
    IssuesOf(jobs, system, Id, |jobs|) + IssuesOf(jobs, system, Collection, |jobs|)
    + IssuesOf(jobs, system, SourceLabel, |jobs|) + IssuesOf(jobs, system, Model, |jobs|)
    + IssuesOf(jobs, system, Connection, |jobs|)
  }

  lemma {:induction false} IssueNamesFlagged(jobs: seq<JobDef>, system: set<string>, field: Field, n: nat, i: nat)
    requires i < n <= |jobs| && Flagged(jobs, system, i, field)
    ensures Issue(Some(jobs[i].id), field) in IssuesOf(jobs, system, field, n)
  {
    if i < n - 1 { IssueNamesFlagged(jobs, system, field, n - 1, i); }
  }

  lemma {:induction false} CleanHasNoIssues(jobs: seq<JobDef>, system: set<string>, field: Field, n: nat)
    requires n <= |jobs| && Clean(jobs, system)
    ensures IssuesOf(jobs, system, field, n) == []
  {
    if n > 0 { CleanHasNoIssues(jobs, system, field, n - 1); }
  }

  /** Every flagged job is named, and a clean catalog has no issue. */
  lemma CrossIssuesExact(jobs: seq<JobDef>, system: set<string>)
    ensures forall i, field | 0 <= i < |jobs| && Flagged(jobs, system, i, field) ::
              Issue(Some(jobs[i].id), field) in CrossIssues(jobs, system)
    ensures CrossIssues(jobs, system) == [] <==> Clean(jobs, system)
  {
    forall i, field | 0 <= i < |jobs| && Flagged(jobs, system, i, field)
      ensures Issue(Some(jobs[i].id), field) in CrossIssues(jobs, system)
    {
      IssueNamesFlagged(jobs, system, field, |jobs|, i);
    }
    if Clean(jobs, system) {
      CleanHasNoIssues(jobs, system, Id, |jobs|);
      CleanHasNoIssues(jobs, system, Collection, |jobs|);
      CleanHasNoIssues(jobs, system, SourceLabel, |jobs|);
      CleanHasNoIssues(jobs, system, Model, |jobs|);
      CleanHasNoIssues(jobs, system, Connection, |jobs|);
    }
  }

  method DuplicateIds(jobs: seq<JobDef>, ghost system: set<string>) returns (issues: seq<Issue>)
    ensures issues == IssuesOf(jobs, system, Id, |jobs|)
  {
    issues := [];
    var seen: set<string> := {};
    for i := 0 to |jobs|
      invariant seen == set j | 0 <= j < i :: jobs[j].id
      invariant issues == IssuesOf(jobs, system, Id, i)
    {
      if jobs[i].id in seen { issues := issues + [Issue(Some(jobs[i].id), Id)]; }
      seen := seen + {jobs[i].id};
    }
  }

  method SystemCollections(jobs: seq<JobDef>, system: set<string>) returns (issues: seq<Issue>)
    ensures issues == IssuesOf(jobs, system, Collection, |jobs|)
  {
    issues := [];
    for i := 0 to |jobs|
      invariant issues == IssuesOf(jobs, system, Collection, i)
    {
      if jobs[i].collection in system { issues := issues + [Issue(Some(jobs[i].id), Collection)]; }
    }
  }

  method SharedLabels(jobs: seq<JobDef>, ghost system: set<string>) returns (issues: seq<Issue>)
    ensures issues == IssuesOf(jobs, system, SourceLabel, |jobs|)
  {
    issues := [];
    var labels: map<string, map<string, string>> := map[];
    for i := 0 to |jobs|
      invariant forall j | 0 <= j < i && jobs[j].enabled ::
                  jobs[j].collection in labels && jobs[j].sourceLabel in labels[jobs[j].collection]
      invariant forall c, l | c in labels && l in labels[c] ::
                  exists j :: 0 <= j < i && jobs[j].enabled && jobs[j].collection == c && jobs[j].sourceLabel == l
      invariant issues == IssuesOf(jobs, system, SourceLabel, i)
    {
      var job := jobs[i];
      if job.enabled {
        var here := if job.collection in labels then labels[job.collection] else map[];
        if job.sourceLabel in here {
          issues := issues + [Issue(Some(job.id), SourceLabel)];
        } else {
          here := here[job.sourceLabel := job.id];
        }
        labels := labels[job.collection := here];
      }
    }
  }

  /** The claim of a collection is unique, so one comparison decides. */
  lemma ModelFlag(jobs: seq<JobDef>, system: set<string>, i: nat, first: nat)
    requires first < i < |jobs| && Claims(jobs, first) && SameCollection(jobs[first], jobs[i]) && jobs[i].model.Some?
    ensures Flagged(jobs, system, i, Model) <==> jobs[first].model != jobs[i].model
  {
    assert forall j | 0 <= j < i && SameCollection(jobs[j], jobs[i]) && Claims(jobs, j) :: j == first;
  }

  lemma ConnectionFlag(jobs: seq<JobDef>, system: set<string>, i: nat, first: nat)
    requires first < i < |jobs| && Connects(jobs, first) && SameCollection(jobs[first], jobs[i])
    ensures Flagged(jobs, system, i, Connection) <==> jobs[first].connection != jobs[i].connection
  {
    assert forall j | 0 <= j < i && SameCollection(jobs[j], jobs[i]) && Connects(jobs, j) :: j == first;
  }

  method MixedModels(jobs: seq<JobDef>, ghost system: set<string>) returns (issues: seq<Issue>)
    ensures issues == IssuesOf(jobs, system, Model, |jobs|)
  {
    issues := [];
    var models: map<string, (string, string)> := map[];
    ghost var first: map<string, nat> := map[];
    for i := 0 to |jobs|
      invariant first.Keys == models.Keys
      invariant forall c | c in first ::
                  && first[c] < i && Claims(jobs, first[c]) && jobs[first[c]].collection == c
                  && models[c].0 == jobs[first[c]].model.value
      invariant forall j | 0 <= j < i && Claims(jobs, j) :: jobs[j].collection in models
      invariant issues == IssuesOf(jobs, system, Model, i)
    {
      var job := jobs[i];
      if job.enabled && job.model.Some? {
        if job.collection in models {
          ModelFlag(jobs, system, i, first[job.collection]);
          if models[job.collection].0 != job.model.value { issues := issues + [Issue(Some(job.id), Model)]; }
        } else {
          UnclaimedClaims(jobs, i);
          models := models[job.collection := (job.model.value, job.id)];
          first := first[job.collection := i];
        }
      }
    }
  }

  method MixedConnections(jobs: seq<JobDef>, ghost system: set<string>) returns (issues: seq<Issue>)
    ensures issues == IssuesOf(jobs, system, Connection, |jobs|)
  {
    issues := [];
    var connections: map<string, (string, string)> := map[];
    ghost var first: map<string, nat> := map[];
    for i := 0 to |jobs|
      invariant first.Keys == connections.Keys
      invariant forall c | c in first ::
                  && first[c] < i && Connects(jobs, first[c]) && jobs[first[c]].collection == c
                  && connections[c].0 == jobs[first[c]].connection
      invariant forall j | 0 <= j < i && Connects(jobs, j) :: jobs[j].collection in connections
      invariant issues == IssuesOf(jobs, system, Connection, i)
    {
      var job := jobs[i];
      if job.enabled {
        if job.collection in connections {
          ConnectionFlag(jobs, system, i, first[job.collection]);
          if connections[job.collection].0 != job.connection { issues := issues + [Issue(Some(job.id), Connection)]; }
        } else {
          UnclaimedConnects(jobs, i);
          connections := connections[job.collection := (job.connection, job.id)];
          first := first[job.collection := i];
        }
      }
    }
  }

  /** `_cross_job_issues`. */
  method CrossJobIssues(jobs: seq<JobDef>, system: set<string>) returns (issues: seq<Issue>)
    ensures issues == CrossIssues(jobs, system)
  {
    var ids := DuplicateIds(jobs, system);
    var targets := SystemCollections(jobs, system);
    var labels := SharedLabels(jobs, system);
    var models := MixedModels(jobs, system);
    var connections := MixedConnections(jobs, system);
    issues := ids + targets + labels + models + connections;
  }

  // ---- loading

  /** A job entry as parsing and schema validation leave it, with the issues found in it alone. */
  datatype Entry = Malformed(issues: seq<Issue>) | Parsed(job: JobDef, issues: seq<Issue>)

  datatype LoadResult = LoadResult(jobs: seq<JobDef>, errors: seq<Issue>)

  function ParsedJobs(entries: seq<Entry>): seq<JobDef> {
    if entries == [] then []
    else
      var last := entries[|entries| - 1];
      ParsedJobs(entries[..|entries| - 1]) + (if last.Parsed? then [last.job] else [])
  }

  function EntryIssues(entries: seq<Entry>): seq<Issue> {
    if entries == [] then [] else EntryIssues(entries[..|entries| - 1]) + entries[|entries| - 1].issues
  }

  function FailedIds(errors: seq<Issue>): set<string> {
    set e | e in errors && e.job.Some? :: e.job.value
  }

  /** The end of `_validate_document`; `early` are problems of the document as a whole. */
  method ValidateEntries(entries: seq<Entry>, system: set<string>, early: seq<Issue>) returns (result: LoadResult)
    ensures result.errors == early + EntryIssues(entries) + CrossIssues(ParsedJobs(entries), system)
    ensures result.jobs == if result.errors == [] then ParsedJobs(entries)
                           else Survivors(ParsedJobs(entries), FailedIds(result.errors))
  {
    var jobs: seq<JobDef> := [];
    var errors := early;
    for i := 0 to |entries|
      invariant jobs == ParsedJobs(entries[..i]) && errors == early + EntryIssues(entries[..i])
    {
      assert entries[..i + 1][..i] == entries[..i];
      errors := errors + entries[i].issues;
      if entries[i].Parsed? { jobs := jobs + [entries[i].job]; }
    }
    assert entries[..|entries|] == entries;
    var cross := CrossJobIssues(jobs, system);
    errors := errors + cross;
    result := LoadResult(if errors == [] then jobs else Survivors(jobs, FailedIds(errors)), errors);
  }

  /** Whatever a load accepts is consistent: validating it again finds nothing across jobs. */
  lemma LoadedIsConsistent(entries: seq<Entry>, system: set<string>, early: seq<Issue>, result: LoadResult)
    requires result.errors == early + EntryIssues(entries) + CrossIssues(ParsedJobs(entries), system)
    requires result.jobs == if result.errors == [] then ParsedJobs(entries)
                            else Survivors(ParsedJobs(entries), FailedIds(result.errors))
    ensures Consistent(result.jobs, system) && CrossIssues(result.jobs, system) == []
    ensures forall job, e | job in result.jobs && e in result.errors :: e.job != Some(job.id)
  {
    var jobs := ParsedJobs(entries);
    CrossIssuesExact(jobs, system);
    if result.errors == [] {
      CleanIffConsistent(jobs, system);
    } else {
      var failed := FailedIds(result.errors);
      forall i, field | 0 <= i < |jobs| && Flagged(jobs, system, i, field) ensures jobs[i].id in failed {
        assert Issue(Some(jobs[i].id), field) in result.errors;
      }
      SurvivorsConsistent(jobs, system, failed);
      var at := SurvivorsAreJobs(jobs, failed);
      forall job, e | job in result.jobs && e in result.errors ensures e.job != Some(job.id) {
        var a :| 0 <= a < |result.jobs| && result.jobs[a] == job;
        assert job.id !in failed;
      }
    }
    CleanIffConsistent(result.jobs, system);
    CrossIssuesExact(result.jobs, system);
  }
}
