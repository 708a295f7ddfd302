/**
 An allowed deletion can always be finished. A run stopped in its deletion phase leaves a state in
 which the next run over the same tree sees at least what the first one saw of what is still
 tracked, so the guard that let the first one delete lets the next one finish.
 */
module Resumption {
  import opened Stores
  import opened Guards
  import opened Order
  import opened Machines
  import opened Protocol
  import opened Documents
  import opened Attachments
  import opened Recovery
  import Deletion

  // ---- the guard

  /** Fewer tracked sources and no fewer of them seen: still allowed. */
  lemma SeeingMoreIsAllowed(seen: set<string>, state: set<string>, more: set<string>, left: set<string>, ratio: real,
                            emptyGuard: bool, force: bool)
    requires Allows(seen, state, ratio, emptyGuard, force) && ratio <= 1.0
    requires state - Gone(seen, state) <= left <= state && seen * left <= more && (more == {} ==> seen == {})
    ensures Allows(more, left, ratio, emptyGuard, force)
  {
    Deletion.StillAllowed(seen, state, left, ratio, emptyGuard, force);
    Deletion.SubsetSize(left - more, left - seen);
    if left - more != {} && !force { FewerShare(|left - more|, |left - seen|, |left|, ratio); }
  }

  lemma FewerShare(k: nat, v: nat, n: nat, ratio: real)
    requires k <= v && n > 0 && v as real / n as real <= ratio
    ensures k as real / n as real <= ratio
  {
    var rk, rv, rn := k as real, v as real, n as real;
    assert rk / rn <= rv / rn;
  }

  // ---- the first run: what it has seen

  /** Files of the tree, and names below those that are not too large. */
  ghost predicate SeenFits(r: Run) {
    forall t | t in r.seen ::
      t in Sources(r.spec.files) || exists f :: f in r.spec.files && f.source + "!" <= t && f.size <= r.spec.maxBytes
  }

  lemma DecideSeesFitting(spec: Spec, rows: Rows, f: File)
    ensures forall t | t in Decide(spec, rows, f).seen ::
              t == f.source || (f.source + "!" <= t && f.size <= spec.maxBytes)
  {
  }

  lemma ScanFits(c: Config)
    requires Rerunnable(c.run.spec) && SeenFits(c.run) && c.run.pc.Scan?
    ensures SeenFits(Step(c).run)
  {
    var spec, i := c.run.spec, c.run.pc.i;
    if i < |spec.files| {
      var f := spec.files[i];
      assert f in spec.files && f.source in Sources(spec.files);
      DecideSeesFitting(spec, c.st.rows, f);
    }
  }

  lemma OnlyScansSee(c: Config)
    requires !c.run.pc.Scan?
    ensures Step(c).run.seen == c.run.seen && Step(c).run.spec == c.run.spec
  {
  }

  lemma FitsAlways(spec: Spec, st: Stores, n: nat)
    requires Rerunnable(spec)
    ensures SeenFits(Exec(Config(Begin(spec), st), n).run)
  {
    var inv := (d: Config) => d.run.spec == spec && SeenFits(d.run);
    forall d | inv(d) ensures inv(Step(d)) {
      if d.run.pc.Scan? { ScanFits(d); } else { OnlyScansSee(d); }
    }
    Invariant(Step, inv, Config(Begin(spec), st), n);
  }

  // ---- the next run: it sees the same again

  /** A name below file `m` of the tree, tracked when the run began. */
  ghost predicate Below(spec: Spec, st: Stores, m: nat, t: string) {
    && m < |spec.files| && t !in Sources(spec.files) && t in Tracked(st.rows, spec.job)
    && var f := spec.files[m];
       var row := Lookup(st.rows, spec.job, f.source);
       f.source + "!" <= t && f.size <= spec.maxBytes && row.Some? && SameStat(spec, row.value, f)
  }

  /** From its file on the name is seen. */
  ghost predicate Resighted(r: Run, m: nat, t: string) {
    match r.pc
    case Scan(i) => i > m ==> t in r.seen
    case Work(i, _, _) => i >= m ==> t in r.seen
    case Vanish => t in r.seen
    case _ => true
  }

  lemma BelowStays(c: Config, st: Stores, m: nat, t: string)
    requires Follows(c, st, m, t) && Below(c.run.spec, st, m, t)
    ensures Untouched(c.run.spec, st, c.st, t)
  {
    StaysUntouched(c, st, m, t);
  }

  lemma ScanResights(c: Config, st: Stores, m: nat, t: string)
    requires Inv(c, st, m) && Follows(c, st, m, t) && Below(c.run.spec, st, m, t) && c.run.spec.mode == Upsert
    requires Resighted(c.run, m, t) && c.run.pc.Scan?
    ensures Resighted(Step(c).run, m, t)
  {
    BelowStays(c, st, m, t);
    TrackedByLookup(st.rows, c.run.spec.job, t);
    TrackedByLookup(c.st.rows, c.run.spec.job, t);
  }

  lemma OthersKeepSight(c: Config, m: nat, t: string)
    requires m < |c.run.spec.files| && Resighted(c.run, m, t) && !c.run.pc.Scan? && c.run.pc != Known
    ensures Resighted(Step(c).run, m, t)
  {
    if c.run.pc.Vanish? { VanishIsJudged(c); }
  }

  lemma ResightedAlways(spec: Spec, st: Stores, n: nat, m: nat, t: string)
    requires Rerunnable(spec) && Below(spec, st, m, t)
    ensures Resighted(Exec(Config(Begin(spec), st), n).run, m, t)
  {
    var inv := (d: Config) => d.run.spec == spec && Inv(d, st, m) && Follows(d, st, m, t) && Resighted(d.run, m, t);
    forall d | inv(d) ensures inv(Step(d)) {
      StepKeeps(d, st, m);
      StepFollows(d, st, m, t);
      StepKeepsSpec(d);
      if d.run.pc.Scan? { ScanResights(d, st, m, t); } else { OthersKeepSight(d, m, t); }
    }
    Invariant(Step, inv, Config(Begin(spec), st), n);
  }

  // ---- from the first run to the next

  /** What the stopped run leaves: its files' rows, refreshed, and all tracked sources but some of the gone. */
  ghost predicate Halfway(spec: Spec, was: Config, left: Stores) {
    && was.run.pc.Vanish?
    && Deletion.OnlyRemoved(was.run.spec, was.st, left, Gone(was.run.seen, Tracked(was.st.rows, spec.job)))
    && forall f | f in spec.files ::
         f.source in was.run.seen && Lookup(left.rows, spec.job, f.source).Some? &&
         SameStat(spec, Lookup(left.rows, spec.job, f.source).value, f)
  }

  lemma StopIsHalfway(a: Spec, again: Spec, st: Stores, n: nat, later: nat)
    requires Rerunnable(again) && SameAttempt(a, again) && Exec(Config(Begin(a), st), n).run.pc.Vanish?
    ensures Halfway(again, Exec(Config(Begin(a), st), n), Exec(Config(Begin(a), st), n + later).st)
  {
    var was, left := Exec(Config(Begin(a), st), n), Exec(Config(Begin(a), st), n + later).st;
    IterateAdds(Step, Config(Begin(a), st), n, later);
    SpecStays(a, st, n);
    Deletion.PurgeRemovesOnlyGone(was, later);
    forall f | f in again.files
      ensures f.source in was.run.seen && Lookup(left.rows, again.job, f.source).Some? &&
              SameStat(again, Lookup(left.rows, again.job, f.source).value, f)
    {
      var m :| 0 <= m < |again.files| && again.files[m] == f;
      Always(a, st, m, n);
    }
  }

  lemma SpecStays(spec: Spec, st: Stores, n: nat)
    ensures Exec(Config(Begin(spec), st), n).run.spec == spec
  {
    var inv := (d: Config) => d.run.spec == spec;
    forall d | inv(d) ensures inv(Step(d)) { StepKeepsSpec(d); }
    Invariant(Step, inv, Config(Begin(spec), st), n);
  }

  lemma AttachedStays(again: Spec, was: Config, left: Stores, m: nat, s: string)
    requires Rerunnable(again) && Halfway(again, was, left) && Attached(again, s)
    ensures Untouched(again, left, Exec(Config(Begin(again), left), m).st, s)
  {
    var f :| f in again.files && f.source + "!" <= s;
    AttachmentsStay(again, left, m, f, s);
  }

  /** At its deletion phase the next run tracks what the stop left. */
  lemma SameTracked(again: Spec, was: Config, left: Stores, m: nat)
    requires Rerunnable(again) && Halfway(again, was, left)
    requires Exec(Config(Begin(again), left), m).run.pc.Vanish?
    ensures Tracked(Exec(Config(Begin(again), left), m).st.rows, again.job) == Tracked(left.rows, again.job)
  {
    var now := Exec(Config(Begin(again), left), m).st;
    forall s ensures s in Tracked(now.rows, again.job) <==> s in Tracked(left.rows, again.job) {
      TrackedByLookup(now.rows, again.job, s);
      TrackedByLookup(left.rows, again.job, s);
      if s in Sources(again.files) {
        var j :| 0 <= j < |again.files| && again.files[j].source == s;
        assert again.files[j] in again.files;
        Always(again, left, j, m);
      } else if Attached(again, s) {
        AttachedStays(again, was, left, m, s);
      } else {
        StrayAlways(again, left, m, s);
      }
    }
  }

  lemma SeesFiles(again: Spec, left: Stores, m: nat, s: string)
    requires Rerunnable(again) && s in Sources(again.files) && Exec(Config(Begin(again), left), m).run.pc.Vanish?
    ensures s in Exec(Config(Begin(again), left), m).run.seen
  {
    var j :| 0 <= j < |again.files| && again.files[j].source == s;
    Always(again, left, j, m);
  }

  lemma SeesAgain(again: Spec, was: Config, left: Stores, m: nat, s: string)
    requires Rerunnable(again) && Halfway(again, was, left) && SeenFits(was.run)
    requires was.run.spec.files == again.files && was.run.spec.maxBytes == again.maxBytes
    requires Exec(Config(Begin(again), left), m).run.pc.Vanish?
    requires s in was.run.seen && s in Tracked(left.rows, again.job) && s !in Sources(again.files)
    ensures s in Exec(Config(Begin(again), left), m).run.seen
  {
    var f :| f in again.files && f.source + "!" <= s && f.size <= again.maxBytes;
    var j :| 0 <= j < |again.files| && again.files[j] == f;
    ResightedAlways(again, left, m, j, s);
  }

  /** The guard lets the run go on. */
  ghost predicate Passes(c: Config) {
    var spec := c.run.spec;
    c.run.pc.Vanish? ==> Allows(c.run.seen, Tracked(c.st.rows, spec.job), spec.ratio, spec.emptyGuard, spec.force)
  }

  lemma SeesAll(again: Spec, was: Config, left: Stores, m: nat)
    requires Rerunnable(again) && Halfway(again, was, left) && SeenFits(was.run)
    requires was.run.spec.files == again.files && was.run.spec.maxBytes == again.maxBytes
    requires Exec(Config(Begin(again), left), m).run.pc.Vanish?
    ensures was.run.seen * Tracked(left.rows, again.job) <= Exec(Config(Begin(again), left), m).run.seen
    ensures Sources(again.files) <= Exec(Config(Begin(again), left), m).run.seen
  {
    var seen, rest := was.run.seen, Tracked(left.rows, again.job);
    var resight := Exec(Config(Begin(again), left), m).run.seen;
    forall s | s in Sources(again.files) ensures s in resight { SeesFiles(again, left, m, s); }
    forall s | s in seen * rest ensures s in resight {
      if s !in Sources(again.files) { SeesAgain(again, was, left, m, s); }
    }
  }

  lemma SomethingToSee(r: Run)
    requires SeenFits(r) && r.seen != {}
    ensures Sources(r.spec.files) != {}
  {
    var t :| t in r.seen;
    if t !in Sources(r.spec.files) {
      var f :| f in r.spec.files && f.source + "!" <= t;
      assert f.source in Sources(r.spec.files);
    }
  }

  lemma NextPasses(again: Spec, was: Config, left: Stores, m: nat)
    requires Rerunnable(again) && Halfway(again, was, left) && SeenFits(was.run) && again.ratio <= 1.0 && Passes(was)
    requires SameAttempt(was.run.spec, again)
    ensures Passes(Exec(Config(Begin(again), left), m))
  {
    var c := Exec(Config(Begin(again), left), m);
    SpecStays(again, left, m);
    if c.run.pc.Vanish? {
      SameTracked(again, was, left, m);
      SeesAll(again, was, left, m);
      if was.run.seen != {} { SomethingToSee(was.run); }
      PassesOn(was, left, c);
    }
  }

  lemma PassesOn(was: Config, left: Stores, c: Config)
    requires was.run.pc.Vanish? && Passes(was) && was.run.spec.ratio <= 1.0
    requires SameAttempt(was.run.spec, c.run.spec) &&
             Tracked(c.st.rows, c.run.spec.job) == Tracked(left.rows, c.run.spec.job)
    requires
      var spec := was.run.spec;
      Deletion.OnlyRemoved(spec, was.st, left, Gone(was.run.seen, Tracked(was.st.rows, spec.job)))
    requires was.run.seen * Tracked(left.rows, c.run.spec.job) <= c.run.seen &&
             (c.run.seen == {} ==> was.run.seen == {})
    ensures Passes(c)
  {
    var spec, seen := was.run.spec, was.run.seen;
    var state := Tracked(was.st.rows, spec.job);
    Deletion.TrackedAfter(spec, was.st, left, Gone(seen, state));
    SeeingMoreIsAllowed(seen, state, c.run.seen, Tracked(left.rows, spec.job), spec.ratio, spec.emptyGuard, spec.force);
  }

  // ---- main result

  lemma OnlyTheGuardAborts(c: Config)
    requires c.run.pc != Ended(AbortedGuard) && Passes(c)
    ensures Step(c).run.pc != Ended(AbortedGuard)
  {
    if c.run.pc.Vanish? { VanishIsJudged(c); }
  }

  lemma {:induction false} NeverAborted(step: Config -> Config, c: Config, m: nat)
    requires c.run.pc != Ended(AbortedGuard) && forall k: nat :: Passes(Iterate(step, c, k))
    requires forall d: Config | d.run.pc != Ended(AbortedGuard) && Passes(d) :: step(d).run.pc != Ended(AbortedGuard)
    ensures Iterate(step, c, m).run.pc != Ended(AbortedGuard)
  {
    if m > 0 { NeverAborted(step, c, m - 1); }
  }

  /**
   Let a run's deletion be allowed and stop the run at any later step, before, amid or after the
   deletion: the guard never turns down the next run over the same tree, so it can finish.
   */
  lemma AllowedDeletionResumes(a: Spec, again: Spec, st: Stores, n: nat, later: nat, m: nat)
    requires Rerunnable(again) && SameAttempt(a, again) && again.ratio <= 1.0
    requires Exec(Config(Begin(a), st), n).run.pc.Vanish? && Passes(Exec(Config(Begin(a), st), n))
    ensures Exec(Config(Begin(again), Exec(Config(Begin(a), st), n + later).st), m).run.pc != Ended(AbortedGuard)
  {
    var was, left := Exec(Config(Begin(a), st), n), Exec(Config(Begin(a), st), n + later).st;
    StopIsHalfway(a, again, st, n, later);
    FitsAlways(a, st, n);
    SpecStays(a, st, n);
    forall k: nat ensures Passes(Iterate(Step, Config(Begin(again), left), k)) { NextPasses(again, was, left, k); }
    forall d: Config | d.run.pc != Ended(AbortedGuard) && Passes(d) ensures Step(d).run.pc != Ended(AbortedGuard) {
      OnlyTheGuardAborts(d);
    }
    NeverAborted(Step, Config(Begin(again), left), m);
  }
}
