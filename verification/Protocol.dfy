/**
 One ingestion run as a deterministic small-step machine over the two stores. Every step makes at
 most one store call, so the state after any number of steps is a state a crash can leave behind,
 and steps of different runs can be interleaved freely.
 */
module Protocol {
  import opened Stores
  import opened Order
  import opened Guards
  import opened Machines

  datatype Mode = Full | Append | Upsert
  datatype Probe = Auto | ByState | ByFacet

  /** A scanned file, with the source URI the job gives it. */
  datatype File = File(source: string, size: nat, mtime: int, content: string)

  datatype Attachment = Attachment(name: string, text: string, chunks: seq<string>)

  datatype Extraction =
    | Broken
    | Unreadable
    | Textless
    | Extracted(text: string, chunks: seq<string>, embedded: seq<Attachment>)

  /** Extraction and chunking as a function of source, content and parameter fingerprint. */
  type Extractor = (string, string, string) -> Extraction

  /**
   Everything that stays fixed during one run: the job, the call's flags, the scanned tree, and
   what the environment does: `ready` (sync and dimension probe succeed), `admitted` (the metadata
   record of the collection, if there is one, is of the run's model), `aborts` (file indices at
   which an abort is requested), `down` and `short` (documents for which the embedder raises or
   returns the wrong number of vectors), `facet` (which sources an overfull facet answers).
   */
  datatype Spec = Spec(
    job: string, coll: string, run: string, mode: Mode, wholeCollection: bool, probe: Probe,
    params: string, dim: nat, maxBytes: nat, expand: bool, ratio: real, emptyGuard: bool,
    force: bool, dryRun: bool, deleteVanished: bool, siblings: bool,
    files: seq<File>, extract: Extractor,
    ready: bool, admitted: bool, aborts: set<nat>, down: set<string>, short: set<string>, facet: set<string>)

  /** A unit of writing. Its store calls are separate steps. */
  datatype Task =
    | Save(source: string, row: Row)
    | Index(source: string, chunks: seq<string>, row: Row)
    | Drop(source: string)

  datatype Sub = First | Second | Third

  datatype Outcome = Success | Failed | Interrupted | AbortedGuard

  datatype Pc =
    | Admit
    | DropColl
    | CreateColl
    | ForgetColl
    | ForgetRows
    | Ensure
    | Known
    | Scan(i: nat)
    | Work(i: nat, tasks: seq<Task>, sub: Sub)
    | Vanish
    | SweepStale
    | Ended(outcome: Outcome)

  datatype Run = Run(spec: Spec, pc: Pc, seen: set<string>, known: set<string>)

  datatype Config = Config(run: Run, st: Stores)

  function Sources(files: seq<File>): set<string> {
    set f | f in files :: f.source
  }

  function Reading(spec: Spec, f: File): Extraction {
    spec.extract(f.source, f.content, spec.params)
  }

  const FACET_LIMIT: nat := 10_000

  function Begin(spec: Spec): Run {
    Run(spec, Admit, {}, {})
  }

  // ---- reads

  /** Attachments of `source` that have a row. */
  function EmbeddedRows(rows: Rows, job: string, source: string): set<string> {
    set t | t in Tracked(rows, job) && source + "!" <= t
  }

  /** One facet request: all distinct sources, or the server's choice of at most that many. */
  function Facet(points: Points, coll: string, job: string, choice: set<string>): set<string> {
    var all := PointSources(points, coll, job);
    if |all| <= FACET_LIMIT then all else all * choice
  }

  function KnownSources(spec: Spec, points: Points, rows: Rows): set<string> {
    var state := Tracked(rows, spec.job);
    match spec.probe
    case ByState => state
    case ByFacet => Facet(points, spec.coll, spec.job, spec.facet)
    case Auto =>
      if state == {} && PointSources(points, spec.coll, spec.job) != {}
      then Facet(points, spec.coll, spec.job, spec.facet)
      else state
  }

  // ---- the four-stage change detector

  function IndexedRow(spec: Spec, f: File, text: string, chunks: nat): Row {
    Row(spec.coll, f.size, f.mtime, Sha256(f.content), Sha256(text), spec.params, chunks, Indexed, spec.run)
  }

  function StatusRow(spec: Spec, f: File, content: Digest, status: Status): Row {
    Row(spec.coll, f.size, f.mtime, content, Blank, spec.params, 0, status, spec.run)
  }

  predicate SameStat(spec: Spec, row: Row, f: File) {
    row.params == spec.params && row.size == f.size && row.mtime == f.mtime
  }

  predicate SameContent(spec: Spec, row: Row, f: File) {
    row.params == spec.params && row.content == Sha256(f.content)
  }

  predicate SameText(spec: Spec, row: Row, text: string) {
    row.params == spec.params && row.text == Sha256(text) && row.status == Indexed
  }

  /** What the run will do about one file, and which sources the file accounts for. */
  datatype Plan = Plan(tasks: seq<Task>, seen: set<string>)

  function AttachmentTasks(spec: Spec, f: File, embedded: seq<Attachment>): seq<Task> {
    if embedded == [] then [] else
      var a := embedded[0];
      (if a.chunks == [] then []
       else [Index(f.source + "!" + a.name, a.chunks, IndexedRow(spec, f, a.text, |a.chunks|))])
      + AttachmentTasks(spec, f, embedded[1..])
  }

  function AttachmentNames(f: File, embedded: seq<Attachment>): set<string> {
    set a | a in embedded :: f.source + "!" + a.name
  }

  /** The attachments that become documents. */
  function Produced(spec: Spec, f: File, embedded: seq<Attachment>): set<string> {
    set a | a in embedded && a.chunks != [] && f.source + "!" + a.name !in spec.short :: f.source + "!" + a.name
  }

  function Drops(sources: seq<string>): (tasks: seq<Task>)
    ensures |tasks| == |sources|
    ensures forall i | 0 <= i < |tasks| :: tasks[i] == Drop(sources[i])
  {
    seq(|sources|, i requires 0 <= i < |sources| => Drop(sources[i]))
  }

  /** The drops of a set of sources are those of its elements. */
  lemma DropsOf(gone: set<string>)
    ensures forall t | t in Drops(Sorted(gone)) :: t.Drop? && t.source in gone
    ensures forall s | s in gone :: Drop(s) in Drops(Sorted(gone))
  {
    var sources := Sorted(gone);
    forall t | t in Drops(sources) ensures t.Drop? && t.source in gone {
      var j :| 0 <= j < |sources| && Drops(sources)[j] == t;
      assert sources[j] in sources;
    }
    forall s | s in gone ensures Drop(s) in Drops(sources) {
      var j :| 0 <= j < |sources| && sources[j] == s;
      assert Drops(sources)[j] == Drop(s);
    }
  }

  /** A file that reaches indexing: the document itself, then its attachments. */
  function IndexPlan(spec: Spec, rows: Rows, f: File, e: Extraction): Plan
    requires e.Extracted?
  {
    var s := f.source;
    var main := Index(s, e.chunks, IndexedRow(spec, f, e.text, |e.chunks|));
    if s in spec.short || !spec.expand || e.embedded == [] then Plan([main], {s})
    else
      var stale := EmbeddedRows(rows, spec.job, s) - AttachmentNames(f, e.embedded);
      Plan([main] + (AttachmentTasks(spec, f, e.embedded) + Drops(Sorted(stale))), {s} + Produced(spec, f, e.embedded))
  }

  function Decide(spec: Spec, rows: Rows, f: File): Plan {
    var s := f.source;
    var prev := Lookup(rows, spec.job, s);
    var whole := {s} + EmbeddedRows(rows, spec.job, s);
    if f.size > spec.maxBytes then Plan([Save(s, StatusRow(spec, f, Blank, TooLarge))], {s})
    else if prev.Some? && SameStat(spec, prev.value, f) then Plan([], whole)
    else if prev.Some? && SameContent(spec, prev.value, f) then
      Plan([Save(s, prev.value.(size := f.size, mtime := f.mtime))], whole)
    else
      var e := spec.extract(s, f.content, spec.params);
      match e
      case Broken => Plan([Save(s, StatusRow(spec, f, Sha256(f.content), FailedExtract))], {s})
      case Unreadable => Plan([Save(s, StatusRow(spec, f, Sha256(f.content), Unsupported))], {s})
      case Textless => Plan([Save(s, StatusRow(spec, f, Sha256(f.content), NoText))], {s})
      case Extracted(text, chunks, embedded) =>
        if prev.Some? && SameText(spec, prev.value, text) then
          Plan([Save(s, prev.value.(size := f.size, mtime := f.mtime, content := Sha256(f.content)))], whole)
        else IndexPlan(spec, rows, f, e)
  }

  // ---- steps

  /** A full run over the whole collection drops it first, and records its own model. */
  predicate Rebuilds(spec: Spec) {
    spec.mode == Full && spec.wholeCollection
  }

  function AfterPrepare(spec: Spec): Pc {
    if spec.mode == Append then Known else Scan(0)
  }

  function Prepare(c: Config): Config {
    var r, st, spec := c.run, c.st, c.run.spec;
    match r.pc
    case Admit =>
      if spec.mode == Full && spec.wholeCollection && spec.siblings && !spec.force then
        Config(r.(pc := Ended(Failed)), st)
      else if !spec.ready then Config(r.(pc := Ended(Failed)), st)
      else if spec.dryRun then Config(r.(pc := AfterPrepare(spec)), st)
      else if spec.mode == Full && spec.wholeCollection then Config(r.(pc := DropColl), st)
      else if spec.mode == Full then Config(r.(pc := ForgetRows), st)
      else Config(r.(pc := Ensure), st)
    case DropColl =>
      Config(r.(pc := CreateColl), st.(points := DropCollection(st.points, spec.coll), dims := st.dims - {spec.coll}))
    case CreateColl => Config(r.(pc := ForgetColl), st.(dims := st.dims[spec.coll := spec.dim]))
    case ForgetColl => Config(r.(pc := Ensure), st.(rows := ForgetCollection(st.rows, spec.coll)))
    case ForgetRows => Config(r.(pc := Ensure), st.(rows := ForgetJob(st.rows, spec.job)))
    case Ensure =>
      if spec.coll !in st.dims then Config(r.(pc := AfterPrepare(spec)), st.(dims := st.dims[spec.coll := spec.dim]))
      else if st.dims[spec.coll] != spec.dim then Config(r.(pc := Ended(Failed)), st)
      else if !spec.admitted && !Rebuilds(spec) then Config(r.(pc := Ended(Failed)), st)
      else Config(r.(pc := AfterPrepare(spec)), st)
    case Known => Config(r.(pc := Scan(0), known := KnownSources(spec, st.points, st.rows)), st)
    case _ => c
  }

  /** The top of the file loop: reads only. */
  function ScanStep(r: Run, st: Stores, i: nat): Run {
    var spec := r.spec;
    if i >= |spec.files| then
      if spec.dryRun then r.(pc := Ended(Success))
      else if spec.mode == Upsert && spec.deleteVanished then r.(pc := Vanish)
      else if spec.mode == Full then r.(pc := SweepStale)
      else r.(pc := Ended(Success))
    else if i in spec.aborts then r.(pc := Ended(Interrupted))
    else
      var f := spec.files[i];
      if spec.mode == Append && f.source in r.known then r.(pc := Scan(i + 1), seen := r.seen + {f.source})
      else
        var plan := Decide(spec, st.rows, f);
        r.(pc := Work(i, if spec.dryRun then [] else plan.tasks, First), seen := r.seen + {f.source} + plan.seen)
  }

  /** One store call of the task in hand. */
  function WorkStep(c: Config): Config
    requires c.run.pc.Work?
  {
    var r, st, spec := c.run, c.st, c.run.spec;
    var Work(i, tasks, sub) := r.pc;
    if tasks == [] then
      Config(r.(pc := if i < |spec.files| then Scan(i + 1) else Ended(Success)), st)
    else
      var next, rest := r.(pc := Work(i, tasks[1..], First)), tasks[0];
      match tasks[0]
      case Save(s, row) => Config(next, st.(rows := st.rows[RowKey(spec.job, s) := row]))
      case Drop(s) =>
        if sub == First then
          Config(r.(pc := Work(i, tasks, Second)), st.(points := DeleteBySource(st.points, spec.coll, spec.job, s)))
        else Config(next, st.(rows := st.rows - {RowKey(spec.job, s)}))
      case Index(s, chunks, row) =>
        if sub == First then
          if s in spec.down then Config(r.(pc := Ended(Failed)), st)
          else if s in spec.short then
            Config(next, st.(rows := st.rows[RowKey(spec.job, s) := row.(status := FailedEmbed, chunks := 0)]))
          else
            Config(r.(pc := Work(i, tasks, Second)), st.(points := DeleteBySource(st.points, spec.coll, spec.job, s)))
        else if sub == Second then
          Config(r.(pc := Work(i, tasks, Third)),
                 st.(points := st.points + DocPoints(spec.coll, spec.job, s, spec.run, chunks)))
        else Config(next, st.(rows := st.rows[RowKey(spec.job, s) := row]))
  }

  function VanishStep(r: Run, st: Stores): Run {
    var spec := r.spec;
    var state := Tracked(st.rows, spec.job);
    var gone := Gone(r.seen, state);
    if gone == {} then r.(pc := Ended(Success))
    else if !Allows(r.seen, state, spec.ratio, spec.emptyGuard, spec.force) then r.(pc := Ended(AbortedGuard))
    else r.(pc := Work(|spec.files|, Drops(Sorted(gone)), First))
  }

  function SweepScope(spec: Spec): Option<string> {
    if spec.wholeCollection then None else Some(spec.job)
  }

  function Step(c: Config): Config {
    match c.run.pc
    case Scan(i) => Config(ScanStep(c.run, c.st, i), c.st)
    case Work(_, _, _) => WorkStep(c)
    case Vanish => Config(VanishStep(c.run, c.st), c.st)
    case SweepStale =>
      Config(c.run.(pc := Ended(Success)),
             c.st.(points := Sweep(c.st.points, c.run.spec.coll, SweepScope(c.run.spec), c.run.spec.run)))
    case Ended(_) => c
    case _ => Prepare(c)
  }

  /** What the start of the deletion phase can lead to, without saying in which order it deletes. */
  ghost predicate Judged(c: Config, d: Config) {
    var spec, state := c.run.spec, Tracked(c.st.rows, c.run.spec.job);
    var gone := Gone(c.run.seen, state);
    && d.st == c.st && d.run == c.run.(pc := d.run.pc)
    && match d.run.pc
       case Ended(Success) => gone == {}
       case Ended(AbortedGuard) => gone != {} && !Allows(c.run.seen, state, spec.ratio, spec.emptyGuard, spec.force)
       case Work(i, tasks, sub) =>
         && i == |spec.files| && sub == First && gone != {}
         && Allows(c.run.seen, state, spec.ratio, spec.emptyGuard, spec.force)
         && (forall t | t in tasks :: t.Drop? && t.source in gone)
         && (forall s | s in gone :: Drop(s) in tasks)
       case _ => false
  }

  lemma VanishIsJudged(c: Config)
    requires c.run.pc.Vanish?
    ensures Judged(c, Step(c))
  {
    DropsOf(Gone(c.run.seen, Tracked(c.st.rows, c.run.spec.job)));
  }

  /** The configuration after `n` steps: what a stop after `n` steps leaves behind. */
  function Exec(c: Config, n: nat): Config {
    Iterate(Step, c, n)
  }

  /** The stores after attempt `i` was stopped after `stops[i]` steps, one attempt after the other. */
  function Stopped(specs: seq<Spec>, stops: seq<nat>, st: Stores): Stores
    requires |specs| == |stops|
  {
    if specs == [] then st else Stopped(specs[1..], stops[1..], Exec(Config(Begin(specs[0]), st), stops[0]).st)
  }
}
