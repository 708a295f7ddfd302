/** What the deletion phase of an upsert may remove, and that a stop in its middle does no harm. */
module Deletion {
  import opened Stores
  import opened Guards
  import opened Order
  import opened Machines
  import opened Protocol

  lemma SubsetSize(a: set<string>, b: set<string>)
    requires a <= b
    ensures |a| <= |b| && |b - a| == |b| - |a|
  {
    assert b == a + (b - a);
  }

  /** (v - d) / (n - d) <= v / n for d <= v <= n. */
  lemma ShareShrinks(v: nat, n: nat, d: nat, ratio: real)
    requires d <= v <= n && d < n && v as real / n as real <= ratio && ratio <= 1.0
    ensures (v - d) as real / (n - d) as real <= ratio
  {
    var rv, rn, rd := v as real, n as real, d as real;
    assert rv <= ratio * rn;
    assert rv - rd <= ratio * rn - ratio * rd == ratio * (rn - rd);
  }

  /** A deletion that was allowed stays allowed after part of it has been carried out. */
  lemma GuardMonotone(seen: set<string>, state: set<string>, done: set<string>, ratio: real, emptyGuard: bool,
                      force: bool)
    requires Allows(seen, state, ratio, emptyGuard, force) && done <= state - seen && ratio <= 1.0
    ensures Allows(seen, state - done, ratio, emptyGuard, force)
  {
    var vanished, left := state - seen, state - done;
    assert left - seen == vanished - done;
    SubsetSize(done, vanished);
    SubsetSize(done, state);
    SubsetSize(vanished, state);
    if vanished - done != {} && !force {
      SubsetSize(vanished - done, left);
      ShareShrinks(|vanished|, |state|, |done|, ratio);
    }
  }

  /** `k` is at most the share `ratio` of `n`. */
  predicate WithinShare(k: nat, n: nat, ratio: real) {
    k as real <= ratio * n as real
  }

  lemma ShareBounds(v: nat, n: nat, ratio: real)
    requires ratio >= 0.0 && (v == 0 || (n > 0 && v as real / n as real <= ratio))
    ensures WithinShare(v, n, ratio)
  {
    if v != 0 {
      var rv, rn := v as real, n as real;
      assert rv == (rv / rn) * rn;
    }
  }

  lemma FewerWithinShare(k: nat, v: nat, n: nat, ratio: real)
    requires k <= v && WithinShare(v, n, ratio)
    ensures WithinShare(k, n, ratio)
  {
  }

  /** An unforced run that may delete removes at most `ratio` of the tracked sources. */
  lemma AllowedShare(seen: set<string>, state: set<string>, ratio: real, emptyGuard: bool)
    requires Allows(seen, state, ratio, emptyGuard, false) && ratio >= 0.0
    ensures WithinShare(|Gone(seen, state)|, |state|, ratio)
  {
    var v, n := |state - seen|, |state|;
    SubsetSize(Gone(seen, state), state - seen);
    SubsetSize(state - seen, state);
    ShareBounds(v, n, ratio);
    FewerWithinShare(|Gone(seen, state)|, v, n, ratio);
  }

  /** What the guard allowed it still allows when only `left` is left. */
  lemma StillAllowed(seen: set<string>, state: set<string>, left: set<string>, ratio: real, emptyGuard: bool,
                     force: bool)
    requires Allows(seen, state, ratio, emptyGuard, force) && ratio <= 1.0
    requires state - Gone(seen, state) <= left <= state
    ensures Allows(seen, left, ratio, emptyGuard, force)
  {
    assert state - (state - left) == left;
    GuardMonotone(seen, state, state - left, ratio, emptyGuard, force);
  }

  lemma ShareSoFar(seen: set<string>, state: set<string>, left: set<string>, ratio: real, emptyGuard: bool)
    requires WithinShare(|Gone(seen, state)|, |state|, ratio)
    requires state - Gone(seen, state) <= left <= state
    ensures WithinShare(|state - left|, |state|, ratio)
  {
    SubsetSize(state - left, Gone(seen, state));
    FewerWithinShare(|state - left|, |Gone(seen, state)|, |state|, ratio);
  }

  lemma ShareExceeds(v: nat, n: nat, ratio: real)
    requires n > 0
    ensures v as real / n as real > ratio <==> v as real > ratio * n as real
  {
    var share, size := v as real / n as real, n as real;
    assert share * size == v as real;
    if share > ratio { assert (share - ratio) * size > 0.0; } else { assert (ratio - share) * size >= 0.0; }
  }

  /**
   The guard refuses exactly this: something vanished, and either the scan saw nothing where an empty
   tree is guarded against, forced or not, or the run is not forced and more than `ratio` of the
   tracked sources vanished.
   */
  lemma GuardRefusesExactly(seen: set<string>, state: set<string>, ratio: real, emptyGuard: bool, force: bool)
    ensures
      !Allows(seen, state, ratio, emptyGuard, force) <==>
        && !(state <= seen)
        && ((emptyGuard && seen == {}) || (!force && |state - seen| as real > ratio * |state| as real))
  {
    if state <= seen {
      assert state - seen == {};
    } else {
      var s :| s in state && s !in seen;
      assert s in state - seen;
      ShareExceeds(|state - seen|, |state|, ratio);
    }
  }

  // ---- the deletion phase step by step

  ghost predicate Doomed(tasks: seq<Task>, gone: set<string>) {
    forall t | t in tasks :: t.Drop? && t.source in gone
  }

  ghost predicate OnlyRemoved(spec: Spec, was: Stores, now: Stores, gone: set<string>) {
    && (forall k | k in now.rows :: k in was.rows && now.rows[k] == was.rows[k])
    && (forall k | k in was.rows && !(k.job == spec.job && k.source in gone) :: k in now.rows)
    && (forall k | k in now.points :: k in was.points && now.points[k] == was.points[k])
    && (forall k | k in was.points && !(k.coll == spec.coll && k.job == spec.job && k.source in gone) ::
          k in now.points)
  }

  ghost predicate Purging(c: Config, was: Config, gone: set<string>) {
    && c.run.spec == was.run.spec && c.run.seen == was.run.seen
    && OnlyRemoved(c.run.spec, was.st, c.st, gone)
    && match c.run.pc
       case Work(i, tasks, _) => i == |c.run.spec.files| && Doomed(tasks, gone)
       case Ended(_) => true
       case _ => c == was && c.run.pc.Vanish?
  }

  lemma JudgedPurges(was: Config, d: Config)
    requires was.run.pc.Vanish? && Judged(was, d)
    ensures Purging(d, was, Gone(was.run.seen, Tracked(was.st.rows, was.run.spec.job)))
  {
  }

  lemma DropPurges(c: Config, was: Config, gone: set<string>)
    requires Purging(c, was, gone) && c.run.pc.Work?
    ensures Purging(WorkStep(c), was, gone)
  {
  }

  lemma PurgeKeeps(c: Config, was: Config, gone: set<string>)
    requires was.run.pc.Vanish? && gone == Gone(was.run.seen, Tracked(was.st.rows, was.run.spec.job))
    requires Purging(c, was, gone)
    ensures Purging(Step(c), was, gone)
  {
    match c.run.pc
    case Vanish =>
      VanishIsJudged(c);
      JudgedPurges(was, Step(c));
    case Work(_, _, _) => DropPurges(c, was, gone);
    case _ =>
  }

  lemma PurgeRemovesOnlyGone(was: Config, n: nat)
    requires was.run.pc.Vanish?
    ensures
      var gone := Gone(was.run.seen, Tracked(was.st.rows, was.run.spec.job));
      OnlyRemoved(was.run.spec, was.st, Exec(was, n).st, gone)
  {
    var gone := Gone(was.run.seen, Tracked(was.st.rows, was.run.spec.job));
    var inv := (d: Config) => Purging(d, was, gone);
    forall d | inv(d) ensures inv(Step(d)) { PurgeKeeps(d, was, gone); }
    Invariant(Step, inv, was, n);
  }

  lemma RefusedStaysPut(was: Config, n: nat)
    requires was.run.pc.Vanish?
    requires
      var spec, state := was.run.spec, Tracked(was.st.rows, was.run.spec.job);
      !Allows(was.run.seen, state, spec.ratio, spec.emptyGuard, spec.force)
    ensures Exec(was, n).st == was.st
  {
    var inv := (d: Config) => d.st == was.st && (d == was || d.run.pc.Ended?);
    forall d | inv(d) ensures inv(Step(d)) {}
    Invariant(Step, inv, was, n);
  }

  lemma TrackedAfter(spec: Spec, was: Stores, now: Stores, gone: set<string>)
    requires OnlyRemoved(spec, was, now, gone)
    ensures Tracked(was.rows, spec.job) - gone <= Tracked(now.rows, spec.job) <= Tracked(was.rows, spec.job)
  {
    forall s | s in Tracked(was.rows, spec.job) - gone ensures s in Tracked(now.rows, spec.job) {
      assert RowKey(spec.job, s) in now.rows;
    }
  }

  // ---- an empty tree

  ghost predicate Guarding(c: Config, st: Stores) {
    var r, spec := c.run, c.run.spec;
    && spec.mode == Upsert && spec.files == [] && spec.emptyGuard
    && c.st.points == st.points && c.st.rows == st.rows && r.seen == {}
    && match r.pc
       case Admit => true
       case Ensure => !spec.dryRun
       case Scan(i) => true
       case Vanish => !spec.dryRun && spec.deleteVanished
       case Ended(Success) => spec.dryRun || !spec.deleteVanished || Tracked(st.rows, spec.job) == {}
       case Ended(AbortedGuard) => !spec.dryRun && spec.deleteVanished && Tracked(st.rows, spec.job) != {}
       case Ended(o) => o == Failed
       case _ => false
  }

  lemma GuardingKeeps(c: Config, st: Stores)
    requires Guarding(c, st)
    ensures Guarding(Step(c), st)
  {
    if c.run.pc.Vanish? { GuardingJudges(c, st); }
  }

  lemma GuardingJudges(c: Config, st: Stores)
    requires Guarding(c, st) && c.run.pc.Vanish?
    ensures Guarding(Step(c), st)
  {
    var spec, state := c.run.spec, Tracked(st.rows, c.run.spec.job);
    assert Gone({}, state) == state;
    GuardRefusesExactly({}, state, spec.ratio, spec.emptyGuard, spec.force);
  }

  // ---- main results

  /**
   An unmounted volume: under the empty-source guard an upsert that scans an empty tree deletes nothing
   at any step, forced or not and whatever the ratio, and it ends in success only if it was not to
   delete or nothing was tracked.
   */
  lemma EmptyTreeDeletesNothing(spec: Spec, st: Stores, n: nat)
    requires spec.mode == Upsert && spec.files == [] && spec.emptyGuard
    ensures
      var c := Exec(Config(Begin(spec), st), n);
      && c.st.points == st.points && c.st.rows == st.rows
      && (c.run.pc == Ended(Success) ==>
            spec.dryRun || !spec.deleteVanished || forall k | k in st.rows :: k.job != spec.job)
      && (c.run.pc == Ended(AbortedGuard) ==>
            !spec.dryRun && spec.deleteVanished && exists k | k in st.rows :: k.job == spec.job)
  {
    var inv := (d: Config) => Guarding(d, st) && d.run.spec == spec;
    forall d | inv(d) ensures inv(Step(d)) { GuardingKeeps(d, st); }
    Invariant(Step, inv, Config(Begin(spec), st), n);
    assert forall k | k in st.rows && k.job == spec.job :: k.source in Tracked(st.rows, spec.job);
  }

  lemma JudgedExactly(c: Config, d: Config)
    requires c.run.pc.Vanish? && Judged(c, d)
    ensures
      var spec, seen, state := c.run.spec, c.run.seen, Tracked(c.st.rows, c.run.spec.job);
      var refused := !Allows(seen, state, spec.ratio, spec.emptyGuard, spec.force);
      && (d.run.pc == Ended(Success) <==> Gone(seen, state) == {})
      && (d.run.pc == Ended(AbortedGuard) <==> Gone(seen, state) != {} && refused)
      && (Gone(seen, state) != {} && !refused ==>
            d.run.pc.Work? && forall s :: Drop(s) in d.run.pc.tasks <==> s in Gone(seen, state))
  {
  }

  /**
   How the deletion phase begins, exactly: with nothing to do if every tracked source is accounted for
   by itself or its parent; otherwise refused if the tree was empty where that is guarded against, or
   if unforced and more than `ratio` of the tracked sources was not seen; otherwise with the drops.
   */
  lemma VerdictExactly(c: Config)
    requires c.run.pc.Vanish?
    ensures
      var spec, seen, state, pc := c.run.spec, c.run.seen, Tracked(c.st.rows, c.run.spec.job), Step(c).run.pc;
      var doomed := exists s :: s in state && s !in seen && Parent(s) !in seen;
      var refused :=
        (spec.emptyGuard && seen == {}) || (!spec.force && |state - seen| as real > spec.ratio * |state| as real);
      && Step(c).st == c.st
      && (pc == Ended(Success) <==> !doomed)
      && (pc == Ended(AbortedGuard) <==> doomed && refused)
      && (doomed && !refused ==>
            pc.Work? && forall s :: Drop(s) in pc.tasks <==> s in state && s !in seen && Parent(s) !in seen)
  {
    VanishIsJudged(c);
    JudgedInWords(c, Step(c));
  }

  /**
   What the deletion phase is to refuse: there is something to delete, and the tree was empty where that
   is guarded against, or, unforced, more than `ratio` of the tracked sources was not seen.
   */
  ghost predicate Refused(spec: Spec, seen: set<string>, tracked: set<string>) {
    && (exists s :: s in tracked && s !in seen && Parent(s) !in seen)
    && ((spec.emptyGuard && seen == {})
        || (!spec.force && |tracked - seen| as real > spec.ratio * |tracked| as real))
  }

  lemma RefusalInWords(spec: Spec, seen: set<string>, state: set<string>)
    ensures
      Gone(seen, state) != {} && !Allows(seen, state, spec.ratio, spec.emptyGuard, spec.force) <==>
        Refused(spec, seen, state)
  {
    VerdictInWords(spec, seen, state);
  }

  lemma JudgedInWords(c: Config, d: Config)
    requires c.run.pc.Vanish? && Judged(c, d)
    ensures
      var spec, seen, state, pc := c.run.spec, c.run.seen, Tracked(c.st.rows, c.run.spec.job), d.run.pc;
      var doomed := exists s :: s in state && s !in seen && Parent(s) !in seen;
      var refused :=
        (spec.emptyGuard && seen == {}) || (!spec.force && |state - seen| as real > spec.ratio * |state| as real);
      && d.st == c.st
      && (pc == Ended(Success) <==> !doomed)
      && (pc == Ended(AbortedGuard) <==> doomed && refused)
      && (doomed && !refused ==>
            pc.Work? && forall s :: Drop(s) in pc.tasks <==> s in state && s !in seen && Parent(s) !in seen)
  {
    JudgedExactly(c, d);
    VerdictInWords(c.run.spec, c.run.seen, Tracked(c.st.rows, c.run.spec.job));
  }

  lemma VerdictInWords(spec: Spec, seen: set<string>, state: set<string>)
    ensures
      var doomed := exists s :: s in state && s !in seen && Parent(s) !in seen;
      var refused :=
        (spec.emptyGuard && seen == {}) || (!spec.force && |state - seen| as real > spec.ratio * |state| as real);
      && (doomed <==> Gone(seen, state) != {})
      && (doomed ==> (refused <==> !Allows(seen, state, spec.ratio, spec.emptyGuard, spec.force)))
      && (forall s :: s in Gone(seen, state) <==> s in state && s !in seen && Parent(s) !in seen)
  {
    GuardRefusesExactly(seen, state, spec.ratio, spec.emptyGuard, spec.force);
    assert forall s :: s in Gone(seen, state) <==> s in state && s !in seen && Parent(s) !in seen;
    if Gone(seen, state) != {} {
      var s :| s in Gone(seen, state);
      assert s in state && s !in seen && Parent(s) !in seen;
    }
  }

  /**
   From the start of the deletion phase on, at every moment: only sources that are tracked, unseen
   and without a seen parent have lost anything, and nothing is lost if the guard refuses.
   */
  lemma OnlyVanishedAreDeleted(was: Config, n: nat)
    requires was.run.pc.Vanish?
    ensures
      var spec, seen, state := was.run.spec, was.run.seen, Tracked(was.st.rows, was.run.spec.job);
      && OnlyRemoved(spec, was.st, Exec(was, n).st, Gone(seen, state))
      && (forall s | s in Gone(seen, state) :: s in state && s !in seen && Parent(s) !in seen)
      && (!Allows(seen, state, spec.ratio, spec.emptyGuard, spec.force) ==> Exec(was, n).st == was.st)
  {
    PurgeRemovesOnlyGone(was, n);
    var spec, seen, state := was.run.spec, was.run.seen, Tracked(was.st.rows, was.run.spec.job);
    if !Allows(seen, state, spec.ratio, spec.emptyGuard, spec.force) { RefusedStaysPut(was, n); }
  }

  /**
   An unforced run has at every moment removed at most `ratio` of the tracked sources; and whenever
   an allowed deletion is interrupted, a rerun that sees the same tree may finish it.
   */
  lemma DeletionIsBoundedAndResumable(was: Config, n: nat)
    requires was.run.pc.Vanish? && 0.0 <= was.run.spec.ratio <= 1.0
    requires
      var spec := was.run.spec;
      Allows(was.run.seen, Tracked(was.st.rows, spec.job), spec.ratio, spec.emptyGuard, spec.force)
    ensures
      var spec, state := was.run.spec, Tracked(was.st.rows, was.run.spec.job);
      var left := Tracked(Exec(was, n).st.rows, spec.job);
      && Allows(was.run.seen, left, spec.ratio, spec.emptyGuard, spec.force)
      && (!spec.force ==> WithinShare(|state - left|, |state|, spec.ratio))
  {
    var spec, seen, state := was.run.spec, was.run.seen, Tracked(was.st.rows, was.run.spec.job);
    PurgeRemovesOnlyGone(was, n);
    TrackedAfter(spec, was.st, Exec(was, n).st, Gone(seen, state));
    StillAllowed(seen, state, Tracked(Exec(was, n).st.rows, spec.job), spec.ratio, spec.emptyGuard, spec.force);
    if !spec.force {
      AllowedShare(seen, state, spec.ratio, spec.emptyGuard);
      ShareSoFar(seen, state, Tracked(Exec(was, n).st.rows, spec.job), spec.ratio, spec.emptyGuard);
    }
  }
}
