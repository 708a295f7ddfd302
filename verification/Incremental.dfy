/** Incremental equals from scratch, a rerun after crashes mirrors the tree, and every run ends. */
module Incremental {
  import opened Stores
  import opened Machines
  import opened Protocol
  import opened Convergence

  /** Two runs over the same tree with the same parameters; run ids and mishaps may differ. */
  ghost predicate SameTree(a: Spec, b: Spec) {
    && a.job == b.job && a.coll == b.coll && a.params == b.params && a.maxBytes == b.maxBytes
    && a.files == b.files && a.extract == b.extract
  }

  function Final(spec: Spec, st: Stores, n: nat): Config {
    Exec(Config(Begin(spec), st), n)
  }

  ghost predicate Succeeds(spec: Spec, st: Stores, n: nat, after: Stores) {
    Final(spec, st, n).run.pc == Ended(Success) && Final(spec, st, n).st == after
  }

  lemma SameDocument(a: Spec, b: Spec, s: string)
    requires SameTree(a, b) && Readable(a)
    ensures Document(a, s) == Document(b, s)
  {
    if s in Sources(a.files) {
      var f :| f in b.files && f.source == s && Document(b, s) == ChunksOf(b, f);
      DocumentIs(a, f);
    }
  }

  /** A tree has one mirror. */
  lemma MirrorsAgree(a: Spec, p: Stores, b: Spec, q: Stores)
    requires SameTree(a, b) && Readable(a) && Mirrors(a, p) && Mirrors(b, q)
    ensures Texts(p.points, a.coll, a.job) == Texts(q.points, a.coll, a.job)
    ensures RowView(p.rows, a.job) == RowView(q.rows, a.job)
  {
    forall s ensures Holds(q.points, a.coll, a.job, s, Document(a, s)) {
      SameDocument(a, b, s);
      assert Holds(q.points, b.coll, b.job, s, Document(b, s));
    }
    var doc := s => Document(a, s);
    SameTexts(p.points, q.points, a.coll, a.job, doc);
    forall s | s in Sources(a.files)
      ensures p.rows[RowKey(a.job, s)].(run := "") == q.rows[RowKey(a.job, s)].(run := "")
    {
      var f :| f in a.files && f.source == s;
      assert RowOf(a, f, p.rows[RowKey(a.job, s)]) && RowOf(b, f, q.rows[RowKey(a.job, s)]);
    }
  }

  // ---- from a sound state

  lemma SoundFileIsGood(spec: Spec, st: Stores, f: File)
    requires Sound(spec, st) && Readable(spec) && TextDetermines(spec) && StatFaithful(spec, st.rows)
    requires spec.mode == Upsert && f in spec.files
    ensures Reindexes(spec, st.rows, f) || Settled(spec, st, f)
  {
    var k := RowKey(spec.job, f.source);
    if k in st.rows && !Reindexes(spec, st.rows, f) {
      var row := st.rows[k];
      assert RowTrue(spec, st.points, f.source, row);
      if row.status == Indexed {
        var before := spec.extract(f.source, row.content.of, spec.params);
        assert before.text == TextOf(spec, f);
      }
    }
  }

  /** Every point tracked and every row true: incremental work may start here. */
  lemma SoundIsGood(spec: Spec, st: Stores)
    requires Sound(spec, st) && Readable(spec) && TextDetermines(spec) && StatFaithful(spec, st.rows)
    requires spec.mode == Upsert
    ensures Good(spec, st)
  {
    forall f | f in spec.files ensures Reindexes(spec, st.rows, f) || Settled(spec, st, f) {
      SoundFileIsGood(spec, st, f);
    }
    forall s | s in Tracked(st.rows, spec.job) ensures Plain(s) {
      assert RowTrue(spec, st.points, s, st.rows[RowKey(spec.job, s)]);
    }
    forall k | k in st.points && k.coll == spec.coll && k.job == spec.job
      ensures k.source in Tracked(st.rows, spec.job)
    {
      assert k.source in PointSources(st.points, spec.coll, spec.job);
    }
  }

  /** A mirror of one tree is a sound start for the next tree of the same job. */
  lemma MirrorIsSound(spec: Spec, st: Stores, next: Spec)
    requires Readable(spec) && Mirrors(spec, st)
    requires next.job == spec.job && next.coll == spec.coll && next.maxBytes == spec.maxBytes &&
             next.extract == spec.extract
    ensures Sound(next, st)
  {
    forall s | s in PointSources(st.points, spec.coll, spec.job) ensures s in Tracked(st.rows, spec.job) {
      var k :| k in st.points && k.coll == spec.coll && k.job == spec.job && k.source == s;
      assert Holds(st.points, spec.coll, spec.job, s, Document(spec, s));
      assert k == PointKey(spec.coll, spec.job, s, k.index);
    }
    forall k | k in st.rows && k.job == spec.job ensures RowTrue(next, st.points, k.source, st.rows[k]) {
      assert k.source in Sources(spec.files);
      var f :| f in spec.files && f.source == k.source;
      DocumentIs(spec, f);
      assert Holds(st.points, spec.coll, spec.job, k.source, Document(spec, k.source));
    }
  }

  // ---- histories

  ghost predicate SameJob(a: Spec, b: Spec) {
    a.job == b.job && a.coll == b.coll && a.maxBytes == b.maxBytes && a.extract == b.extract
  }

  /** One run of a history: a successful upsert, or a full run under a fresh id. */
  ghost predicate Episode(spec: Spec, before: Stores, after: Stores) {
    && Ordinary(spec) && Readable(spec) && TextDetermines(spec)
    && (if spec.mode == Upsert then StatFaithful(spec, before.rows) else Startable(spec, before))
    && exists n: nat :: Succeeds(spec, before, n, after)
  }

  /** Successful runs of one job over changing trees and parameters. */
  ghost predicate History(specs: seq<Spec>, sts: seq<Stores>) {
    && |sts| == |specs| + 1
    && forall i | 0 <= i < |specs| :: Episode(specs[i], sts[i], sts[i + 1]) && SameJob(specs[i], specs[0])
  }

  lemma EpisodeMirrors(spec: Spec, before: Stores, after: Stores)
    requires Episode(spec, before, after) && Sound(spec, before)
    ensures Mirrors(spec, after)
  {
    var n: nat :| Succeeds(spec, before, n, after);
    if spec.mode == Upsert { SoundIsGood(spec, before); }
    SuccessfulRunMirrorsTree(spec, before, n);
  }

  lemma {:induction false} HistoryMirrors(specs: seq<Spec>, sts: seq<Stores>, i: nat)
    requires History(specs, sts) && i < |specs| && Sound(specs[0], sts[0])
    ensures Sound(specs[i], sts[i]) && Mirrors(specs[i], sts[i + 1])
  {
    assert Episode(specs[i], sts[i], sts[i + 1]) && SameJob(specs[i], specs[0]);
    if i != 0 {
      HistoryMirrors(specs, sts, i - 1);
      assert Episode(specs[i - 1], sts[i - 1], sts[i]) && SameJob(specs[i - 1], specs[0]);
      MirrorIsSound(specs[i - 1], sts[i], specs[i]);
    }
    EpisodeMirrors(specs[i], sts[i], sts[i + 1]);
  }

  /**
   Incremental equals from scratch: after any history of runs from any sound state, the job's
   documents and rows are those a full run over the last tree makes from empty stores.
   */
  lemma IncrementalEqualsScratch(specs: seq<Spec>, sts: seq<Stores>, full: Spec, dims: map<string, nat>, n: nat)
    requires History(specs, sts) && specs != [] && Sound(specs[0], sts[0])
    requires SameTree(specs[|specs| - 1], full) && Ordinary(full) && Readable(full) && full.mode == Full
    requires Final(full, Stores(dims, map[], map[]), n).run.pc == Ended(Success)
    ensures
      var last, scratch := sts[|specs|], Final(full, Stores(dims, map[], map[]), n).st;
      && Texts(last.points, full.coll, full.job) == Texts(scratch.points, full.coll, full.job)
      && RowView(last.rows, full.job) == RowView(scratch.rows, full.job)
  {
    var i := |specs| - 1;
    HistoryMirrors(specs, sts, i);
    assert Episode(specs[i], sts[i], sts[i + 1]);
    SuccessfulRunMirrorsTree(full, Stores(dims, map[], map[]), n);
    MirrorsAgree(specs[i], sts[i + 1], full, Final(full, Stores(dims, map[], map[]), n).st);
  }

  // ---- crashes

  ghost predicate Attempts(specs: seq<Spec>, again: Spec) {
    forall a | a in specs :: SameTree(a, again) && Ordinary(a) && Readable(a) && a.mode == Upsert
  }

  lemma {:induction false} GoodSurvivesStops(specs: seq<Spec>, stops: seq<nat>, st: Stores, again: Spec)
    requires |specs| == |stops| && Attempts(specs, again) && again.mode == Upsert && Good(again, st)
    ensures Good(again, Stopped(specs, stops, st))
  {
    if specs != [] {
      var first := specs[0];
      assert first in specs;
      Always(first, st, stops[0]);
      UpsertNeverBad(Final(first, st, stops[0]));
      GoodSurvivesStops(specs[1..], stops[1..], Final(first, st, stops[0]).st, again);
    }
  }

  lemma UpsertNeverBad(c: Config)
    requires Inv(c) && c.run.spec.mode == Upsert
    ensures Good(c.run.spec, c.st)
  {
  }

  /**
   Over a readable tree the rerun of a stopped upsert, which module Recovery shows to converge from
   any stores, ends in the tree itself.
   */
  lemma CrashesMirror(specs: seq<Spec>, stops: seq<nat>, st: Stores, again: Spec, m: nat, k: nat)
    requires |specs| == |stops| && Attempts(specs, again)
    requires Ordinary(again) && Readable(again) && again.mode == Upsert && Good(again, st)
    requires Final(again, Stopped(specs, stops, st), m).run.pc == Ended(Success)
    requires Final(again, st, k).run.pc == Ended(Success)
    ensures
      var rerun, straight := Final(again, Stopped(specs, stops, st), m).st, Final(again, st, k).st;
      && Mirrors(again, rerun)
      && Texts(rerun.points, again.coll, again.job) == Texts(straight.points, again.coll, again.job)
      && RowView(rerun.rows, again.job) == RowView(straight.rows, again.job)
  {
    GoodSurvivesStops(specs, stops, st, again);
    SuccessfulRunMirrorsTree(again, Stopped(specs, stops, st), m);
    SuccessfulRunMirrorsTree(again, st, k);
    MirrorsAgree(again, Final(again, Stopped(specs, stops, st), m).st, again, Final(again, st, k).st);
  }

  // ---- termination

  function Phase(r: Run): nat {
    match r.pc
    case Admit => 9
    case DropColl => 8
    case CreateColl => 7
    case ForgetColl => 6
    case ForgetRows => 6
    case Ensure => 5
    case Known => 4
    case Scan(_) => 3
    case Work(i, _, _) => if i < |r.spec.files| then 3 else 1
    case Vanish => 2
    case SweepStale => 1
    case Ended(_) => 0
  }

  function FilesLeft(r: Run): nat {
    match r.pc
    case Scan(i) => if i < |r.spec.files| then 2 * (|r.spec.files| - i) else 0
    case Work(i, _, _) => if i < |r.spec.files| then 2 * (|r.spec.files| - i) - 1 else 0
    case _ => 0
  }

  function StepsLeft(r: Run): nat {
    match r.pc
    case Work(_, tasks, sub) => 3 * |tasks| + (if sub == First then 2 else if sub == Second then 1 else 0)
    case _ => 0
  }

  predicate Shrinks(q: Run, r: Run) {
    Phase(q) < Phase(r) ||
    (Phase(q) == Phase(r) &&
     (FilesLeft(q) < FilesLeft(r) || (FilesLeft(q) == FilesLeft(r) && StepsLeft(q) < StepsLeft(r))))
  }

  lemma WorkShrinks(c: Config)
    requires c.run.pc.Work?
    ensures Shrinks(WorkStep(c).run, c.run)
  {
  }

  lemma StepShrinks(c: Config)
    requires !c.run.pc.Ended?
    ensures Shrinks(Step(c).run, c.run)
  {
    match c.run.pc
    case Work(_, _, _) => WorkShrinks(c);
    case Vanish =>
      VanishIsJudged(c);
      JudgedShrinks(c, Step(c));
    case Scan(i) => ScanShrinks(c);
    case SweepStale =>
    case _ => PrepareShrinks(c);
  }

  lemma JudgedShrinks(c: Config, d: Config)
    requires c.run.pc.Vanish? && Judged(c, d)
    ensures Shrinks(d.run, c.run)
  {
  }

  lemma ScanShrinks(c: Config)
    requires c.run.pc.Scan?
    ensures Shrinks(ScanStep(c.run, c.st, c.run.pc.i), c.run)
  {
  }

  lemma PrepareShrinks(c: Config)
    requires Phase(c.run) >= 4
    ensures Shrinks(Prepare(c).run, c.run)
  {
  }

  /** Every run of every mode ends, whatever the stores hold. */
  lemma {:induction false} EveryRunEnds(c: Config)
    ensures exists n: nat :: Exec(c, n).run.pc.Ended?
    decreases Phase(c.run), FilesLeft(c.run), StepsLeft(c.run)
  {
    if c.run.pc.Ended? {
      assert Exec(c, 0) == c;
    } else {
      StepShrinks(c);
      var d := Step(c);
      EveryRunEnds(d);
      var n: nat :| Exec(d, n).run.pc.Ended?;
      StepFirst(Step, c, n);
      assert Exec(c, n + 1).run.pc.Ended?;
    }
  }
}
