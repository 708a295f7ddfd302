/**
 Append runs that are stopped and run again. What an append run skips depends on where it looks: with
 the rows as its memory every stop is made good, with the points as its memory a document stopped
 between its points and its row is taken for done.
 */
module AppendRecovery {
  import opened Stores
  import opened Order
  import opened Machines
  import opened Protocol
  import opened Documents
  import opened Appending
  import opened Recovery

  /** What append does to a document it does not know is what an upsert does. */
  function AsUpsert(spec: Spec): Spec {
    spec.(mode := Upsert)
  }

  /** The file is new to both stores. */
  ghost predicate New(spec: Spec, st: Stores, f: File) {
    Lookup(st.rows, spec.job, f.source) == None && Bare(spec, st.points, f.source)
  }

  lemma NewIsUnknown(spec: Spec, st: Stores, f: File)
    requires New(spec, st, f)
    ensures f.source !in KnownSources(spec, st.points, st.rows)
  {
    TrackedByLookup(st.rows, spec.job, f.source);
    forall k | k in st.points && k.coll == spec.coll && k.job == spec.job ensures k.source != f.source {
      assert k == PointKey(spec.coll, spec.job, k.source, k.index);
    }
  }

  // ---- one run

  /** Where a stop leaves a document the run did not know. */
  lemma UnknownStop(a: Spec, again: Spec, st: Stores, n: nat, f: File)
    requires Gentle(again) && again.mode == Append && SameAttempt(a, again) && f in again.files
    requires Processed(a, st, f)
    ensures
      var c := Exec(Config(Begin(a), st), n);
      if Torn(c.run, f.source) then LeftTorn(AsUpsert(again), st, c.st, f)
      else Untouched(again, st, c.st, f.source) || Landed(AsUpsert(again), st, c.st, f)
  {
    var c := Exec(Config(Begin(a), st), n);
    StopTearsOne(a, st, n, f);
    if Torn(c.run, f.source) { TearIsTear(a, again, st, c.st, f); }
    else if Documents.Outcome(a, st, c.st, f) { OutcomeIsLanding(a, again, st, c.st, f); }
    else { assert Untouched(again, st, c.st, f.source); }
  }

  lemma TearIsTear(a: Spec, again: Spec, st: Stores, now: Stores, f: File)
    requires again.mode == Append && SameAttempt(a, again) && Writes(a, st, f)
    requires Lookup(now.rows, a.job, f.source) == Lookup(st.rows, a.job, f.source)
    ensures LeftTorn(AsUpsert(again), st, now, f)
  {
  }

  lemma OutcomeIsLanding(a: Spec, again: Spec, st: Stores, now: Stores, f: File)
    requires again.mode == Append && SameAttempt(a, again) && Processed(a, st, f) && Documents.Outcome(a, st, now, f)
    ensures Landed(AsUpsert(again), st, now, f)
  {
  }

  lemma KnownStays(spec: Spec, st: Stores, n: nat, f: File)
    requires Gentle(spec) && spec.mode == Append && f in spec.files && !Processed(spec, st, f)
    ensures Untouched(spec, st, Exec(Config(Begin(spec), st), n).st, f.source)
  {
    StopTearsOne(spec, st, n, f);
  }

  lemma UnknownLands(spec: Spec, st: Stores, n: nat, f: File)
    requires Gentle(spec) && spec.mode == Append && f in spec.files && Processed(spec, st, f)
    requires Exec(Config(Begin(spec), st), n).run.pc == Ended(Success)
    ensures Landed(AsUpsert(spec), st, Exec(Config(Begin(spec), st), n).st, f)
  {
    DocumentFate(spec, st, n, f);
    OutcomeIsLanding(spec, spec, st, Exec(Config(Begin(spec), st), n).st, f);
  }

  lemma LandedAlike(spec: Spec, st: Stores, a: Stores, b: Stores, f: File)
    requires Landed(spec, st, a, f) && Landed(spec, st, b, f)
    ensures AlikeAt(spec, a, b, f.source)
  {
    FateUnique(spec, Lookup(st.rows, spec.job, f.source), f, Lookup(a.rows, spec.job, f.source).value,
               Lookup(b.rows, spec.job, f.source).value);
  }

  lemma LandedFramed(spec: Spec, st: Stores, mid: Stores, now: Stores, f: File)
    requires Landed(spec, st, mid, f) && Untouched(spec, mid, now, f.source)
    ensures Landed(spec, st, now, f)
  {
  }

  // ---- a new file, under every probe

  /**
   A new file after a stop and a successful rerun, exactly: it is as in the run that was never stopped
   unless the stop tore it and the rerun's probe takes what was left for a document it knows.
   */
  lemma NewFileConvergesExactly(a: Spec, again: Spec, st: Stores, n: nat, m: nat, k: nat, f: File)
    requires Gentle(again) && again.mode == Append && SameAttempt(a, again) && f in again.files && New(again, st, f)
    requires Exec(Config(Begin(again), Exec(Config(Begin(a), st), n).st), m).run.pc == Ended(Success)
    requires Exec(Config(Begin(again), st), k).run.pc == Ended(Success)
    ensures
      var c := Exec(Config(Begin(a), st), n);
      var rerun, straight := Exec(Config(Begin(again), c.st), m).st, Exec(Config(Begin(again), st), k).st;
      AlikeAt(again, rerun, straight, f.source) <==>
        !(Torn(c.run, f.source) && f.source in KnownSources(again, c.st.points, c.st.rows))
  {
    var c, up := Exec(Config(Begin(a), st), n), AsUpsert(again);
    var left := c.st;
    var rerun, straight := Exec(Config(Begin(again), left), m).st, Exec(Config(Begin(again), st), k).st;
    NewIsUnknown(again, st, f);
    NewIsUnknown(a, st, f);
    UnknownLands(again, st, k, f);
    UnknownStop(a, again, st, n, f);
    if Processed(again, left, f) {
      UnknownLands(again, left, m, f);
      LandsAllTheSame(up, st, left, rerun, f);
      LandedAlike(up, st, rerun, straight, f);
    } else {
      KnownStays(again, left, m, f);
      if Landed(up, st, left, f) {
        LandedFramed(up, st, left, rerun, f);
        LandedAlike(up, st, rerun, straight, f);
      } else if !Torn(c.run, f.source) {
        NewIsUnknown(again, left, f);
      }
    }
  }

  /**
   Under the facet probe that is every new document that was stopped between its points and its row:
   no later append run touches it, so it stays without a row for good.
   */
  lemma TornIsSkipped(spec: Spec, st: Stores, n: nat, later: Spec, m: nat, f: File)
    requires Gentle(spec) && spec.mode == Append && New(spec, st, f) && f in spec.files
    requires
      var c := Exec(Config(Begin(spec), st), n);
      && Torn(c.run, f.source) && c.run.pc.sub == Third
      && Reading(spec, f).Extracted? && Reading(spec, f).chunks != []
      && |PointSources(c.st.points, spec.coll, spec.job)| <= 10_000
    requires Gentle(later) && later.mode == Append && later.probe == ByFacet && f in later.files
    requires later.job == spec.job && later.coll == spec.coll
    ensures
      var left := Exec(Config(Begin(spec), st), n).st;
      && Untouched(later, left, Exec(Config(Begin(later), left), m).st, f.source)
      && Lookup(left.rows, spec.job, f.source) == None
  {
    var c := Exec(Config(Begin(spec), st), n);
    StopTearsOne(spec, st, n, f);
    TornHolds(spec, st, n, f);
    assert PointKey(spec.coll, spec.job, f.source, 0) in c.st.points;
    KnownStays(later, c.st, m, f);
  }

  lemma TornHolds(spec: Spec, st: Stores, n: nat, f: File)
    requires Gentle(spec) && f in spec.files && Reading(spec, f).Extracted?
    requires Torn(Exec(Config(Begin(spec), st), n).run, f.source)
    requires Exec(Config(Begin(spec), st), n).run.pc.sub == Third
    ensures
      var c := Exec(Config(Begin(spec), st), n);
      Holds(c.st.points, spec.coll, spec.job, f.source, Reading(spec, f).chunks)
  {
    var m :| 0 <= m < |spec.files| && spec.files[m] == f;
    Always(spec, st, m, n);
  }

  // ---- any number of stops, with the rows as memory

  /** What stopped attempts can have made of a document of the tree: what has a row is left alone. */
  ghost predicate Kept(spec: Spec, st: Stores, now: Stores, f: File) {
    if Lookup(st.rows, spec.job, f.source).Some? then Untouched(spec, st, now, f.source)
    else Reached(AsUpsert(spec), st, now, f)
  }

  ghost predicate Finished(spec: Spec, st: Stores, now: Stores, f: File) {
    if Lookup(st.rows, spec.job, f.source).Some? then Untouched(spec, st, now, f.source)
    else Landed(AsUpsert(spec), st, now, f)
  }

  lemma KnownByRow(spec: Spec, st: Stores, f: File)
    requires spec.mode == Append && spec.probe == ByState
    ensures Processed(spec, st, f) <==> Lookup(st.rows, spec.job, f.source) == None
  {
    TrackedByLookup(st.rows, spec.job, f.source);
  }

  lemma StopKeepsFile(a: Spec, again: Spec, st: Stores, n: nat, f: File)
    requires Gentle(again) && again.mode == Append && again.probe == ByState && f in again.files
    requires SameAttempt(a, again)
    ensures Kept(again, st, Exec(Config(Begin(a), st), n).st, f)
  {
    KnownByRow(a, st, f);
    if Processed(a, st, f) { UnknownIsKept(a, again, st, n, f); } else { KnownStays(a, st, n, f); }
  }

  lemma UnknownIsKept(a: Spec, again: Spec, st: Stores, n: nat, f: File)
    requires Gentle(again) && again.mode == Append && SameAttempt(a, again) && f in again.files && Processed(a, st, f)
    requires Lookup(st.rows, again.job, f.source) == None
    ensures Kept(again, st, Exec(Config(Begin(a), st), n).st, f)
  {
    UnknownStop(a, again, st, n, f);
    StopIsKept(again, st, Exec(Config(Begin(a), st), n).st, f);
  }

  lemma StopIsKept(again: Spec, st: Stores, now: Stores, f: File)
    requires Lookup(st.rows, again.job, f.source) == None
    ensures
      (LeftTorn(AsUpsert(again), st, now, f) || Untouched(again, st, now, f.source)
       || Landed(AsUpsert(again), st, now, f)) ==> Kept(again, st, now, f)
  {
  }

  lemma SuccessFinishes(again: Spec, st: Stores, n: nat, f: File)
    requires Gentle(again) && again.mode == Append && again.probe == ByState && f in again.files
    requires Exec(Config(Begin(again), st), n).run.pc == Ended(Success)
    ensures Finished(again, st, Exec(Config(Begin(again), st), n).st, f)
  {
    KnownByRow(again, st, f);
    if Processed(again, st, f) { UnknownLands(again, st, n, f); } else { KnownStays(again, st, n, f); }
  }

  lemma KeptCompose(spec: Spec, st: Stores, mid: Stores, now: Stores, f: File)
    requires Kept(spec, st, mid, f)
    ensures Kept(spec, mid, now, f) ==> Kept(spec, st, now, f)
    ensures Finished(spec, mid, now, f) ==> Finished(spec, st, now, f)
  {
    var up := AsUpsert(spec);
    if Lookup(st.rows, spec.job, f.source) == None {
      if Lookup(mid.rows, spec.job, f.source).Some? {
        if Untouched(spec, mid, now, f.source) { LandedFramed(up, st, mid, now, f); }
      } else {
        if Reached(up, mid, now, f) { ReachedComposes(up, st, mid, now, f); }
        if Landed(up, mid, now, f) { LandsAllTheSame(up, st, mid, now, f); }
      }
    }
  }

  lemma {:induction false} StopsKeepFile(specs: seq<Spec>, stops: seq<nat>, st: Stores, again: Spec, f: File)
    requires |specs| == |stops| && forall a | a in specs :: SameAttempt(a, again)
    requires Gentle(again) && again.mode == Append && again.probe == ByState && f in again.files
    ensures Kept(again, st, Stopped(specs, stops, st), f)
  {
    if specs != [] {
      var mid := Exec(Config(Begin(specs[0]), st), stops[0]).st;
      assert specs[0] in specs && forall a | a in specs[1..] :: a in specs;
      StopKeepsFile(specs[0], again, st, stops[0], f);
      StopsKeepFile(specs[1..], stops[1..], mid, again, f);
      KeptCompose(again, st, mid, Stopped(specs, stops, st), f);
    }
  }

  lemma {:induction false} StopsLeaveOutside(specs: seq<Spec>, stops: seq<nat>, st: Stores, again: Spec, s: string)
    requires |specs| == |stops| && again.mode == Append && forall a | a in specs :: SameAttempt(a, again)
    requires Outside(again, s)
    ensures Untouched(again, st, Stopped(specs, stops, st), s)
  {
    if specs != [] {
      var mid := Exec(Config(Begin(specs[0]), st), stops[0]).st;
      assert specs[0] in specs && forall a | a in specs[1..] :: a in specs;
      OutsideStays(specs[0], st, stops[0], s);
      StopsLeaveOutside(specs[1..], stops[1..], mid, again, s);
    }
  }

  lemma OutsideStays(spec: Spec, st: Stores, n: nat, s: string)
    requires spec.mode == Append && Outside(spec, s)
    ensures Untouched(spec, st, Exec(Config(Begin(spec), st), n).st, s)
  {
    forall f | f in spec.files ensures f.source != s { assert f.source in Sources(spec.files); }
    AppendTouchesOnlyNew(spec, st, n, s);
  }

  lemma FinishedAlike(spec: Spec, st: Stores, a: Stores, b: Stores, f: File)
    requires Finished(spec, st, a, f) && Finished(spec, st, b, f)
    ensures AlikeAt(spec, a, b, f.source)
  {
    if Lookup(st.rows, spec.job, f.source) == None { LandedAlike(AsUpsert(spec), st, a, b, f); }
  }

  lemma FileConverges(specs: seq<Spec>, stops: seq<nat>, st: Stores, again: Spec, m: nat, k: nat, f: File)
    requires |specs| == |stops| && forall a | a in specs :: SameAttempt(a, again)
    requires Gentle(again) && again.mode == Append && again.probe == ByState && f in again.files
    requires Exec(Config(Begin(again), Stopped(specs, stops, st)), m).run.pc == Ended(Success)
    requires Exec(Config(Begin(again), st), k).run.pc == Ended(Success)
    ensures AlikeAt(again, Exec(Config(Begin(again), Stopped(specs, stops, st)), m).st,
                    Exec(Config(Begin(again), st), k).st, f.source)
  {
    var mid := Stopped(specs, stops, st);
    var rerun, straight := Exec(Config(Begin(again), mid), m).st, Exec(Config(Begin(again), st), k).st;
    StopsKeepFile(specs, stops, st, again, f);
    SuccessFinishes(again, mid, m, f);
    SuccessFinishes(again, st, k, f);
    KeptCompose(again, st, mid, rerun, f);
    FinishedAlike(again, st, rerun, straight, f);
  }

  lemma OutsideConverges(specs: seq<Spec>, stops: seq<nat>, st: Stores, again: Spec, m: nat, k: nat, s: string)
    requires |specs| == |stops| && again.mode == Append && forall a | a in specs :: SameAttempt(a, again)
    requires Outside(again, s)
    ensures AlikeAt(again, Exec(Config(Begin(again), Stopped(specs, stops, st)), m).st,
                    Exec(Config(Begin(again), st), k).st, s)
  {
    StopsLeaveOutside(specs, stops, st, again, s);
    OutsideStays(again, Stopped(specs, stops, st), m, s);
    OutsideStays(again, st, k, s);
  }

  /**
   Append with the rows as its memory, stopped anywhere and any number of times and rerun to success,
   from any stores and for every kind of file: everything but attachments is as in the run that was
   never stopped, up to run ids.
   */
  lemma AppendsConverge(specs: seq<Spec>, stops: seq<nat>, st: Stores, again: Spec, m: nat, k: nat)
    requires |specs| == |stops| && forall a | a in specs :: SameAttempt(a, again)
    requires Gentle(again) && again.mode == Append && again.probe == ByState
    requires Exec(Config(Begin(again), Stopped(specs, stops, st)), m).run.pc == Ended(Success)
    requires Exec(Config(Begin(again), st), k).run.pc == Ended(Success)
    ensures
      var rerun := Exec(Config(Begin(again), Stopped(specs, stops, st)), m).st;
      var straight := Exec(Config(Begin(again), st), k).st;
      && (forall s | !Attached(again, s) :: AlikeAt(again, rerun, straight, s))
      && (!again.expand ==>
            && Texts(rerun.points, again.coll, again.job) == Texts(straight.points, again.coll, again.job)
            && RowView(rerun.rows, again.job) == RowView(straight.rows, again.job))
  {
    var rerun := Exec(Config(Begin(again), Stopped(specs, stops, st)), m).st;
    var straight := Exec(Config(Begin(again), st), k).st;
    forall s | !Attached(again, s) ensures AlikeAt(again, rerun, straight, s) {
      if s in Sources(again.files) {
        var f :| f in again.files && f.source == s;
        FileConverges(specs, stops, st, again, m, k, f);
      } else {
        OutsideConverges(specs, stops, st, again, m, k, s);
      }
    }
    if !again.expand { AlikeEverywhere(again, rerun, straight); }
  }

  // ---- after state loss, the run after next

  /**
   The automatic probe's protection after state loss lasts for one run. The first one keeps what the
   facet names and writes a row for each new document only; with any row there the next looks at the
   rows alone, and embeds every stored document again.
   */
  lemma ProtectionLastsOnce(first: Spec, st: Stores, n: nat, second: Spec, m: nat, f: File, g: File)
    requires Gentle(first) && first.mode == Append && first.probe == Auto && Tracked(st.rows, first.job) == {}
    requires Gentle(second) && second == first.(run := second.run, files := second.files, aborts := second.aborts,
                                                down := second.down, facet := second.facet)
    requires Exec(Config(Begin(first), st), n).run.pc == Ended(Success)
    requires Exec(Config(Begin(second), Exec(Config(Begin(first), st), n).st), m).run.pc == Ended(Success)
    requires f in first.files && f in second.files && !Processed(first, st, f)
    requires g in first.files && Processed(first, st, g)
    requires f.size <= first.maxBytes && f.source !in first.short && Reading(first, f).Extracted?
    ensures
      var kept := Exec(Config(Begin(first), st), n).st;
      var now := Exec(Config(Begin(second), kept), m).st;
      && SamePoints(first, st.points, kept.points, f.source)
      && Holds(now.points, second.coll, second.job, f.source, Reading(second, f).chunks)
      && Stamped(now.points, second.coll, second.job, f.source, second.run)
  {
    var kept := Exec(Config(Begin(first), st), n).st;
    DocumentFate(first, st, n, f);
    DocumentFate(first, st, n, g);
    TrackedByLookup(st.rows, first.job, f.source);
    TrackedByLookup(kept.rows, first.job, f.source);
    TrackedByLookup(kept.rows, first.job, g.source);
    DocumentFate(second, kept, m, f);
  }
}
