/** An append run only adds: it touches no source it knew when it started. */
module Appending {
  import opened Stores
  import opened Machines
  import opened Order
  import opened Protocol
  import opened Documents

  /** A new file of the tree, or one of its attachments. */
  ghost predicate Exposed(spec: Spec, known: set<string>, s: string) {
    exists f | f in spec.files :: f.source !in known && (s == f.source || (spec.expand && f.source + "!" <= s))
  }

  ghost predicate Inv(c: Config, st: Stores) {
    var r, spec := c.run, c.run.spec;
    var known := KnownSources(spec, st.points, st.rows);
    && spec.mode == Append
    && (forall s | !Exposed(spec, known, s) :: Untouched(spec, st, c.st, s))
    && match r.pc
       case Admit => c.st == st
       case Ensure => c.st == st
       case Known => c.st.points == st.points && c.st.rows == st.rows
       case Scan(_) => r.known == known
       case Work(i, tasks, _) =>
         i < |spec.files| && r.known == known && forall t | t in tasks :: Exposed(spec, known, t.source)
       case Ended(_) => true
       case _ => false
  }

  lemma WorkKeeps(c: Config, st: Stores)
    requires Inv(c, st) && c.run.pc.Work?
    ensures Inv(WorkStep(c), st)
  {
    if c.run.pc.tasks != [] {
      var spec, t := c.run.spec, c.run.pc.tasks[0];
      var known := KnownSources(spec, st.points, st.rows);
      assert t in c.run.pc.tasks;
      forall s | !Exposed(spec, known, s) ensures Untouched(spec, st, WorkStep(c).st, s) {
        OthersFramed(c, s);
      }
    }
  }

  lemma ScanKeeps(c: Config, st: Stores)
    requires Inv(c, st) && c.run.pc.Scan?
    ensures Inv(Step(c), st)
  {
    var spec, i := c.run.spec, c.run.pc.i;
    if i < |spec.files| && spec.files[i].source !in c.run.known {
      DecideStaysInFile(spec, c.st.rows, spec.files[i]);
      assert spec.files[i] in spec.files;
    }
  }

  lemma StepKeeps(c: Config, st: Stores)
    requires Inv(c, st)
    ensures Inv(Step(c), st)
  {
    match c.run.pc
    case Work(_, _, _) => WorkKeeps(c, st);
    case Scan(_) => ScanKeeps(c, st);
    case _ =>
  }

  /** At every step of an append run, all points and rows but those of new files are as before. */
  lemma AppendTouchesOnlyNew(spec: Spec, st: Stores, n: nat, s: string)
    requires spec.mode == Append && !Exposed(spec, KnownSources(spec, st.points, st.rows), s)
    ensures Untouched(spec, st, Exec(Config(Begin(spec), st), n).st, s)
  {
    var inv := (d: Config) => Inv(d, st) && d.run.spec == spec;
    forall d | inv(d) ensures inv(Step(d)) { StepKeeps(d, st); }
    Invariant(Step, inv, Config(Begin(spec), st), n);
  }

  /** The job has a point of this source in its collection. */
  ghost predicate HasPoint(spec: Spec, points: Points, s: string) {
    exists k :: k in points && k.coll == spec.coll && k.job == spec.job && k.source == s
  }

  /**
   What an append run skips, probe by probe: what has a row; what has a point, as far as one facet
   answer of 10 000 sources reaches; or, of the two, the rows as long as the job has any.
   */
  lemma SkipsExactly(spec: Spec, st: Stores, f: File)
    requires spec.mode == Append
    ensures
      var stored := set k | k in st.points && k.coll == spec.coll && k.job == spec.job :: k.source;
      var named := HasPoint(spec, st.points, f.source) && (|stored| <= 10_000 || f.source in spec.facet);
      var row := RowKey(spec.job, f.source) in st.rows;
      !Processed(spec, st, f) <==>
        match spec.probe
        case ByState => row
        case ByFacet => named
        case Auto => row || (named && forall k | k in st.rows :: k.job != spec.job)
  {
    var stored := set k | k in st.points && k.coll == spec.coll && k.job == spec.job :: k.source;
    assert stored == PointSources(st.points, spec.coll, spec.job);
    assert f.source in stored <==> HasPoint(spec, st.points, f.source);
    assert f.source in Tracked(st.rows, spec.job) <==> RowKey(spec.job, f.source) in st.rows by {
      if f.source in Tracked(st.rows, spec.job) {
        var k :| k in st.rows && k.job == spec.job && k.source == f.source;
        assert k == RowKey(spec.job, f.source);
      }
    }
    assert Tracked(st.rows, spec.job) == {} <==> forall k | k in st.rows :: k.job != spec.job by {
      if k :| k in st.rows && k.job == spec.job { assert k.source in Tracked(st.rows, spec.job); }
    }
  }

  /**
   After the state volume is lost, the automatic probe protects a stored document exactly as far as
   one facet request reaches: up to the limit all of them, beyond it those the server names. A
   document it does not name is embedded a second time.
   */
  lemma StateLossExact(spec: Spec, st: Stores, n: nat, f: File)
    requires Gentle(spec) && spec.mode == Append && spec.probe == Auto && Tracked(st.rows, spec.job) == {}
    requires f in spec.files && f.source in PointSources(st.points, spec.coll, spec.job)
    requires f.size <= spec.maxBytes && f.source !in spec.short &&
             spec.extract(f.source, f.content, spec.params).Extracted?
    requires Exec(Config(Begin(spec), st), n).run.pc == Ended(Success)
    ensures
      var now, all := Exec(Config(Begin(spec), st), n).st, PointSources(st.points, spec.coll, spec.job);
      if |all| <= 10_000 || f.source in spec.facet then SamePoints(spec, st.points, now.points, f.source)
      else
        && Holds(now.points, spec.coll, spec.job, f.source, spec.extract(f.source, f.content, spec.params).chunks)
        && Stamped(now.points, spec.coll, spec.job, f.source, spec.run)
  {
    DocumentFate(spec, st, n, f);
    assert RowKey(spec.job, f.source) !in st.rows by {
      assert f.source !in Tracked(st.rows, spec.job);
    }
  }
}
