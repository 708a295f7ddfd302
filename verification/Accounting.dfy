/**
 Which sources an upsert has seen when its deletion phase begins. The guard compares them with what is
 tracked, so a source wrongly left out counts towards the share it refuses, even where it would not be
 deleted.
 */
module Accounting {
  import opened Stores
  import opened Guards
  import opened Machines
  import opened Protocol
  import opened Documents
  import opened Attachments

  /**
   The file accounts for `t`, a name below it: if the file is unchanged, or its text is known, where the
   name is tracked; if the file is written, where an attachment of that name becomes a document.
   */
  ghost predicate Accounts(spec: Spec, st: Stores, f: File, t: string) {
    var prev, tracked := Lookup(st.rows, spec.job, f.source), RowKey(spec.job, t) in st.rows;
    && f.size <= spec.maxBytes
    && if Unchanged(spec, prev, f) then tracked
       else
         && Reading(spec, f).Extracted?
         && if TextKnown(spec, prev, Reading(spec, f).text) then tracked
            else
              && spec.expand && f.source !in spec.short && t !in spec.short
              && exists a :: a in Reading(spec, f).embedded && a.chunks != [] && f.source + "!" + a.name == t
  }

  lemma BelowIsTracked(spec: Spec, rows: Rows, f: File, t: string)
    requires f.source + "!" <= t
    ensures t in EmbeddedRows(rows, spec.job, f.source) <==> RowKey(spec.job, t) in rows
  {
    if t in Tracked(rows, spec.job) {
      var k :| k in rows && k.job == spec.job && k.source == t;
      assert k == RowKey(spec.job, t);
    }
    assert RowKey(spec.job, t).source == t;
  }

  lemma PlanSees(spec: Spec, rows: Rows, f: File, e: Extraction, t: string)
    requires e.Extracted? && f.source + "!" <= t
    ensures t in IndexPlan(spec, rows, f, e).seen <==>
              && spec.expand && f.source !in spec.short && t !in spec.short
              && exists a :: a in e.embedded && a.chunks != [] && f.source + "!" + a.name == t
  {
    assert t != f.source;
    assert t in Produced(spec, f, e.embedded) <==>
             t !in spec.short && exists a :: a in e.embedded && a.chunks != [] && f.source + "!" + a.name == t;
  }

  /** What a file accounts for, branch by branch. */
  lemma SeenByBranch(spec: Spec, rows: Rows, f: File)
    ensures
      var prev, e, whole := Lookup(rows, spec.job, f.source), Reading(spec, f),
                            {f.source} + EmbeddedRows(rows, spec.job, f.source);
      Decide(spec, rows, f).seen ==
        if f.size > spec.maxBytes then {f.source}
        else if Unchanged(spec, prev, f) then whole
        else if !e.Extracted? then {f.source}
        else if TextKnown(spec, prev, e.text) then whole
        else IndexPlan(spec, rows, f, e).seen
  {
  }

  lemma DecideSees(spec: Spec, st: Stores, now: Stores, f: File, t: string)
    requires f.source + "!" <= t
    requires Lookup(now.rows, spec.job, f.source) == Lookup(st.rows, spec.job, f.source)
    requires Lookup(now.rows, spec.job, t) == Lookup(st.rows, spec.job, t)
    ensures t in Decide(spec, now.rows, f).seen <==> Accounts(spec, st, f, t)
  {
    SeenByBranch(spec, now.rows, f);
    BelowIsTracked(spec, now.rows, f, t);
    var planned := if Reading(spec, f).Extracted? then IndexPlan(spec, now.rows, f, Reading(spec, f)).seen else {};
    if Reading(spec, f).Extracted? { PlanSees(spec, now.rows, f, Reading(spec, f), t); }
    SeenInWords(spec, st, f, t, EmbeddedRows(now.rows, spec.job, f.source), planned, Decide(spec, now.rows, f).seen);
  }

  lemma SeenInWords(spec: Spec, st: Stores, f: File, t: string, below: set<string>, planned: set<string>,
                    seen: set<string>)
    requires t != f.source && (t in below <==> RowKey(spec.job, t) in st.rows)
    requires
      Reading(spec, f).Extracted? ==>
        (t in planned <==>
           && spec.expand && f.source !in spec.short && t !in spec.short
           && exists a :: a in Reading(spec, f).embedded && a.chunks != [] && f.source + "!" + a.name == t)
    requires
      var prev, e := Lookup(st.rows, spec.job, f.source), Reading(spec, f);
      seen == if f.size > spec.maxBytes then {f.source}
              else if Unchanged(spec, prev, f) then {f.source} + below
              else if !e.Extracted? then {f.source}
              else if TextKnown(spec, prev, e.text) then {f.source} + below
              else planned
    ensures t in seen <==> Accounts(spec, st, f, t)
  {
  }

  /** A file accounts for nothing but itself and names below it. */
  lemma SeesAtHome(spec: Spec, rows: Rows, f: File)
    ensures forall s | s in Decide(spec, rows, f).seen :: s == f.source || f.source + "!" <= s
  {
    if Reading(spec, f).Extracted? { PlanSeesAtHome(spec, rows, f, Reading(spec, f)); }
  }

  lemma PlanSeesAtHome(spec: Spec, rows: Rows, f: File, e: Extraction)
    requires e.Extracted?
    ensures forall s | s in IndexPlan(spec, rows, f, e).seen :: s == f.source || f.source + "!" <= s
  {
  }

  // ---- a name below a file

  ghost predicate Reckoned(c: Config, st: Stores, m: nat, t: string) {
    var r, spec := c.run, c.run.spec;
    && spec.mode == Upsert && m < |spec.files|
    && match r.pc
       case Admit => t !in r.seen
       case Ensure => t !in r.seen
       case Scan(i) => if i <= m then t !in r.seen else (t in r.seen <==> Accounts(spec, st, spec.files[m], t))
       case Work(i, _, _) => if i < m then t !in r.seen else (t in r.seen <==> Accounts(spec, st, spec.files[m], t))
       case Vanish => t in r.seen <==> Accounts(spec, st, spec.files[m], t)
       case _ => true
  }

  lemma ScanReckons(c: Config, st: Stores, m: nat, t: string)
    requires Inv(c, st, m) && Follows(c, st, m, t) && Reckoned(c, st, m, t) && c.run.pc.Scan?
    ensures Reckoned(Step(c), st, m, t)
  {
    var spec, i := c.run.spec, c.run.pc.i;
    if i < |spec.files| && i !in spec.aborts {
      var f, g := spec.files[m], spec.files[i];
      assert f in spec.files && g in spec.files;
      MarkBelow(f.source, t);
      if i == m {
        DecideSees(spec, st, c.st, f, t);
      } else {
        SeesAtHome(spec, c.st.rows, g);
        ParentOf(f.source, t);
        if g.source + "!" <= t { ParentOf(g.source, t); }
      }
    }
  }

  lemma WorkReckons(c: Config, st: Stores, m: nat, t: string)
    requires Follows(c, st, m, t) && Reckoned(c, st, m, t) && c.run.pc.Work?
    ensures Reckoned(WorkStep(c), st, m, t)
  {
    WorkMoves(c);
    MovedReckons(c, WorkStep(c), st, m, t);
  }

  lemma MovedReckons(c: Config, d: Config, st: Stores, m: nat, t: string)
    requires Reckoned(c, st, m, t) && c.run.pc.Work? && Moved(c, d)
    ensures Reckoned(d, st, m, t)
  {
  }

  lemma StepReckons(c: Config, st: Stores, m: nat, t: string)
    requires Inv(c, st, m) && Follows(c, st, m, t) && Reckoned(c, st, m, t)
    ensures Reckoned(Step(c), st, m, t)
  {
    match c.run.pc
    case Scan(_) => ScanReckons(c, st, m, t);
    case Work(_, _, _) => WorkReckons(c, st, m, t);
    case Vanish =>
      VanishIsJudged(c);
      JudgedReckons(c, Step(c), st, m, t);
    case _ =>
  }

  lemma JudgedReckons(c: Config, d: Config, st: Stores, m: nat, t: string)
    requires Follows(c, st, m, t) && Reckoned(c, st, m, t) && c.run.pc.Vanish? && Judged(c, d)
    ensures Reckoned(d, st, m, t)
  {
  }

  lemma BelowReckoned(spec: Spec, st: Stores, m: nat, n: nat, t: string)
    requires Gentle(spec) && Unmarked(spec) && spec.mode == Upsert && m < |spec.files|
    requires spec.files[m].source + "!" <= t
    ensures Reckoned(Exec(Config(Begin(spec), st), n), st, m, t)
  {
    var inv := (d: Config) => Inv(d, st, m) && Follows(d, st, m, t) && Reckoned(d, st, m, t);
    forall d | inv(d) ensures inv(Step(d)) {
      StepKeeps(d, st, m);
      StepFollows(d, st, m, t);
      StepReckons(d, st, m, t);
    }
    Invariant(Step, inv, Config(Begin(spec), st), n);
  }

  // ---- files, and everything else

  ghost predicate AtHome(spec: Spec, s: string) {
    exists f :: f in spec.files && OfFile(f, s)
  }

  ghost predicate OnlyHome(c: Config) {
    forall s | s in c.run.seen :: AtHome(c.run.spec, s)
  }

  lemma StepStaysHome(c: Config)
    requires OnlyHome(c)
    ensures OnlyHome(Step(c)) && Step(c).run.spec == c.run.spec
  {
    var spec := c.run.spec;
    match c.run.pc
    case Scan(i) =>
      if i < |spec.files| {
        SeesAtHome(spec, c.st.rows, spec.files[i]);
        assert spec.files[i] in spec.files;
      }
    case Work(_, _, _) => WorkMoves(c);
    case Vanish => VanishIsJudged(c);
    case _ =>
  }

  lemma SeenIsHome(spec: Spec, st: Stores, n: nat)
    ensures
      var c := Exec(Config(Begin(spec), st), n);
      OnlyHome(c) && c.run.spec == spec
  {
    var inv := (d: Config) => OnlyHome(d) && d.run.spec == spec;
    forall d | inv(d) ensures inv(Step(d)) { StepStaysHome(d); }
    Invariant(Step, inv, Config(Begin(spec), st), n);
  }

  /**
   What an upsert has seen when its deletion phase begins, exactly, in terms of the stores before the
   run: the files of the tree, and below each file what the file accounts for.
   */
  lemma SeenExactly(spec: Spec, st: Stores, n: nat, s: string)
    requires Gentle(spec) && Unmarked(spec) && spec.mode == Upsert
    requires Exec(Config(Begin(spec), st), n).run.pc == Vanish
    ensures s in Exec(Config(Begin(spec), st), n).run.seen <==>
              exists f :: f in spec.files && (s == f.source || (f.source + "!" <= s && Accounts(spec, st, f, s)))
  {
    var c := Exec(Config(Begin(spec), st), n);
    SeenIsHome(spec, st, n);
    forall m | 0 <= m < |spec.files|
      ensures spec.files[m].source in c.run.seen
      ensures spec.files[m].source + "!" <= s ==> (s in c.run.seen <==> Accounts(spec, st, spec.files[m], s))
    {
      Always(spec, st, m, n);
      if spec.files[m].source + "!" <= s { BelowReckoned(spec, st, m, n, s); }
    }
  }
}
