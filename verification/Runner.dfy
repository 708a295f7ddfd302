/**
 `JobRunner` as it is written: loops over files, attachments and vanished sources that change the
 two stores in place. Each method is proved to take the machine of module Protocol from where it
 finds it to where it leaves it, one machine step per store call; so what is proved of every run of
 the machine, and of a machine stopped after any number of steps, is true of these methods.
 */
module Runner {
  import opened Stores
  import opened Order
  import opened Guards
  import opened Machines
  import opened Protocol
  import opened Ids
  import opened Payloads
  import opened PointStores
  import opened Qdrant
  import opened StateDb
  import Convergence
  import Deletion
  import DryRuns

  // ---- one machine step per store call

  /** The machine gets from `c0` to `d`. */
  ghost predicate Gets(c0: Config, d: Config) {
    Reaches(Step, c0, d)
  }

  lemma Starts(c: Config)
    ensures Gets(c, c)
  {
    assert Iterate(Step, c, 0) == c;
  }

  lemma GetsOn(c0: Config, c: Config)
    requires Gets(c0, c)
    ensures Gets(c0, Step(c))
  {
    ReachesOne(Step, c0, c);
  }

  predicate AtTask(c: Config, i: nat, t: Task, rest: seq<Task>, sub: Sub) {
    c.run.pc == Work(i, [t] + rest, sub)
  }

  lemma TaskTaken(t: Task, rest: seq<Task>)
    ensures ([t] + rest)[0] == t && ([t] + rest)[1..] == rest
  {
  }

  lemma SaveOnce(c0: Config, c: Config, i: nat, s: string, row: Row, rest: seq<Task>) returns (d: Config)
    requires Gets(c0, c) && AtTask(c, i, Task.Save(s, row), rest, First)
    ensures Gets(c0, d)
    ensures d == Config(c.run.(pc := Work(i, rest, First)), c.st.(rows := c.st.rows[RowKey(c.run.spec.job, s) := row]))
  {
    TaskTaken(Task.Save(s, row), rest);
    GetsOn(c0, c);
    d := Step(c);
  }

  lemma Raise(c0: Config, c: Config, i: nat, s: string, chunks: seq<string>, row: Row, rest: seq<Task>)
    returns (d: Config)
    requires Gets(c0, c) && AtTask(c, i, Index(s, chunks, row), rest, First) && s in c.run.spec.down
    ensures Gets(c0, d) && d == Config(c.run.(pc := Ended(Failed)), c.st)
  {
    TaskTaken(Index(s, chunks, row), rest);
    GetsOn(c0, c);
    d := Step(c);
  }

  lemma Refuse(c0: Config, c: Config, i: nat, s: string, chunks: seq<string>, row: Row, rest: seq<Task>)
    returns (d: Config)
    requires Gets(c0, c) && AtTask(c, i, Index(s, chunks, row), rest, First)
    requires s !in c.run.spec.down && s in c.run.spec.short
    ensures Gets(c0, d)
    ensures d == Config(c.run.(pc := Work(i, rest, First)),
                        c.st.(rows := c.st.rows[RowKey(c.run.spec.job, s) := row.(status := FailedEmbed, chunks := 0)]))
  {
    TaskTaken(Index(s, chunks, row), rest);
    GetsOn(c0, c);
    d := Step(c);
  }

  lemma Clear(c0: Config, c: Config, i: nat, s: string, chunks: seq<string>, row: Row, rest: seq<Task>)
    returns (d: Config)
    requires Gets(c0, c) && AtTask(c, i, Index(s, chunks, row), rest, First)
    requires s !in c.run.spec.down && s !in c.run.spec.short
    ensures Gets(c0, d)
    ensures d == Config(c.run.(pc := Work(i, [Index(s, chunks, row)] + rest, Second)),
                        c.st.(points := DeleteBySource(c.st.points, c.run.spec.coll, c.run.spec.job, s)))
  {
    TaskTaken(Index(s, chunks, row), rest);
    GetsOn(c0, c);
    d := Step(c);
  }

  lemma Fill(c0: Config, c: Config, i: nat, s: string, chunks: seq<string>, row: Row, rest: seq<Task>)
    returns (d: Config)
    requires Gets(c0, c) && AtTask(c, i, Index(s, chunks, row), rest, Second)
    ensures Gets(c0, d)
    ensures d == Config(c.run.(pc := Work(i, [Index(s, chunks, row)] + rest, Third)),
                        c.st.(points :=
                          c.st.points + DocPoints(c.run.spec.coll, c.run.spec.job, s, c.run.spec.run, chunks)))
  {
    TaskTaken(Index(s, chunks, row), rest);
    GetsOn(c0, c);
    d := Step(c);
  }

  lemma Commit(c0: Config, c: Config, i: nat, s: string, chunks: seq<string>, row: Row, rest: seq<Task>)
    returns (d: Config)
    requires Gets(c0, c) && AtTask(c, i, Index(s, chunks, row), rest, Third)
    ensures Gets(c0, d)
    ensures d == Config(c.run.(pc := Work(i, rest, First)), c.st.(rows := c.st.rows[RowKey(c.run.spec.job, s) := row]))
  {
    TaskTaken(Index(s, chunks, row), rest);
    GetsOn(c0, c);
    d := Step(c);
  }

  lemma DropPoints(c0: Config, c: Config, i: nat, s: string, rest: seq<Task>) returns (d: Config)
    requires Gets(c0, c) && AtTask(c, i, Drop(s), rest, First)
    ensures Gets(c0, d)
    ensures d == Config(c.run.(pc := Work(i, [Drop(s)] + rest, Second)),
                        c.st.(points := DeleteBySource(c.st.points, c.run.spec.coll, c.run.spec.job, s)))
  {
    TaskTaken(Drop(s), rest);
    GetsOn(c0, c);
    d := Step(c);
  }

  lemma DropRow(c0: Config, c: Config, i: nat, s: string, rest: seq<Task>) returns (d: Config)
    requires Gets(c0, c) && AtTask(c, i, Drop(s), rest, Second)
    ensures Gets(c0, d)
    ensures d == Config(c.run.(pc := Work(i, rest, First)), c.st.(rows := c.st.rows - {RowKey(c.run.spec.job, s)}))
  {
    TaskTaken(Drop(s), rest);
    GetsOn(c0, c);
    d := Step(c);
  }

  /** The tasks of a file, or of the deletion phase, are done. */
  lemma Next(c0: Config, c: Config, i: nat) returns (d: Config)
    requires Gets(c0, c) && c.run.pc == Work(i, [], First)
    ensures Gets(c0, d)
    ensures d == Config(c.run.(pc := if i < |c.run.spec.files| then Scan(i + 1) else Ended(Success)), c.st)
  {
    GetsOn(c0, c);
    d := Step(c);
  }

  lemma Look(c0: Config, c: Config, i: nat) returns (d: Config)
    requires Gets(c0, c) && c.run.pc == Scan(i)
    ensures Gets(c0, d) && d == Config(ScanStep(c.run, c.st, i), c.st)
  {
    GetsOn(c0, c);
    d := Step(c);
  }

  lemma LookAborted(c0: Config, c: Config, i: nat) returns (d: Config)
    requires Gets(c0, c) && c.run.pc == Scan(i) && i < |c.run.spec.files| && i in c.run.spec.aborts
    ensures Gets(c0, d) && d == Config(c.run.(pc := Ended(Interrupted)), c.st)
  {
    d := Look(c0, c, i);
  }

  lemma LookKnown(c0: Config, c: Config, i: nat) returns (d: Config)
    requires Gets(c0, c) && c.run.pc == Scan(i) && i < |c.run.spec.files| && i !in c.run.spec.aborts
    requires c.run.spec.mode == Append && c.run.spec.files[i].source in c.run.known
    ensures Gets(c0, d)
    ensures d == Config(c.run.(pc := Scan(i + 1), seen := c.run.seen + {c.run.spec.files[i].source}), c.st)
  {
    d := Look(c0, c, i);
  }

  lemma Judge(c0: Config, c: Config, vanished: set<string>, allowed: bool) returns (d: Config)
    requires Gets(c0, c) && c.run.pc == Vanish
    requires
      var spec, tracked := c.run.spec, Tracked(c.st.rows, c.run.spec.job);
      && vanished == Gone(c.run.seen, tracked)
      && (allowed <==> Allows(c.run.seen, tracked, spec.ratio, spec.emptyGuard, spec.force))
    ensures Gets(c0, d)
    ensures d == Config(c.run.(pc := if vanished == {} then Ended(Success)
                                     else if !allowed then Ended(AbortedGuard)
                                     else Work(|c.run.spec.files|, Drops(Sorted(vanished)), First)), c.st)
  {
    GetsOn(c0, c);
    d := Step(c);
  }

  lemma SweepOnce(c0: Config, c: Config) returns (d: Config)
    requires Gets(c0, c) && c.run.pc == SweepStale
    ensures Gets(c0, d)
    ensures d == Config(c.run.(pc := Ended(Success)),
                        c.st.(points := Sweep(c.st.points, c.run.spec.coll, SweepScope(c.run.spec), c.run.spec.run)))
  {
    GetsOn(c0, c);
    d := Step(c);
  }

  lemma PrepareOnce(c0: Config, c: Config) returns (d: Config)
    requires Gets(c0, c)
    requires c.run.pc.Admit? || c.run.pc.DropColl? || c.run.pc.CreateColl? || c.run.pc.ForgetColl? ||
             c.run.pc.ForgetRows?
             || c.run.pc.Ensure? || c.run.pc.Known?
    ensures Gets(c0, d) && d == Prepare(c)
  {
    GetsOn(c0, c);
    d := Step(c);
  }

  /** Only the rows of these sources differ. */
  ghost predicate RowsOnlyAt(a: Rows, b: Rows, job: string, sources: set<string>) {
    forall k: RowKey | k.job != job || k.source !in sources ::
      (k in a <==> k in b) && (k in a && k in b ==> a[k] == b[k])
  }

  /** What is left to do for the attachments from the k-th on. */
  ghost function TasksFrom(spec: Spec, f: File, embedded: seq<Attachment>, k: nat, drops: seq<Task>): seq<Task>
    requires k <= |embedded|
  {
    AttachmentTasks(spec, f, embedded[k..]) + drops
  }

  /** The drops left from the k-th source on. */
  ghost function DropsFrom(sources: seq<string>, k: nat): seq<Task>
    requires k <= |sources|
  {
    Drops(sources)[k..]
  }

  lemma NextDrop(sources: seq<string>, k: nat)
    requires k < |sources|
    ensures DropsFrom(sources, k) == [Drop(sources[k])] + DropsFrom(sources, k + 1)
  {
  }

  lemma DropsFromEnds(sources: seq<string>)
    ensures DropsFrom(sources, 0) == Drops(sources) && DropsFrom(sources, |sources|) == []
  {
  }

  lemma AttachmentsBegin(spec: Spec, f: File, embedded: seq<Attachment>, drops: seq<Task>)
    ensures TasksFrom(spec, f, embedded, 0, drops) == AttachmentTasks(spec, f, embedded) + drops
    ensures AttachmentNames(f, embedded[..0]) == {} && Produced(spec, f, embedded[..0]) == {}
  {
    assert embedded[0..] == embedded;
  }

  lemma AttachmentsEnd(spec: Spec, f: File, embedded: seq<Attachment>, drops: seq<Task>)
    ensures TasksFrom(spec, f, embedded, |embedded|, drops) == drops && embedded[..|embedded|] == embedded
  {
    assert embedded[|embedded|..] == [];
  }

  lemma NextAttachment(spec: Spec, f: File, embedded: seq<Attachment>, k: nat, drops: seq<Task>)
    requires k < |embedded|
    ensures
      var a, source := embedded[k], f.source + "!" + embedded[k].name;
      && AttachmentNames(f, embedded[..k + 1]) == AttachmentNames(f, embedded[..k]) + {source}
      && Produced(spec, f, embedded[..k + 1]) ==
           Produced(spec, f, embedded[..k]) + (if a.chunks != [] && source !in spec.short then {source} else {})
      && TasksFrom(spec, f, embedded, k, drops) ==
           (if a.chunks == [] then [] else [Index(source, a.chunks, IndexedRow(spec, f, a.text, |a.chunks|))])
           + TasksFrom(spec, f, embedded, k + 1, drops)
  {
    assert embedded[..k + 1] == embedded[..k] + [embedded[k]];
    assert embedded[k..][0] == embedded[k] && embedded[k..][1..] == embedded[k + 1..];
  }

  lemma RowsOnlyGrow(a: Rows, b: Rows, c: Rows, job: string, sources: set<string>, s: string)
    requires RowsOnlyAt(a, b, job, sources) && RowsOnlyAt(b, c, job, {s})
    ensures RowsOnlyAt(a, c, job, sources + {s})
  {
  }

  /** Which attachments are stale does not depend on the rows written in between. */
  lemma SameStale(a: Rows, b: Rows, c: Rows, job: string, parent: string, current: set<string>)
    requires RowsOnlyAt(a, b, job, {parent}) && RowsOnlyAt(b, c, job, current)
    ensures EmbeddedRows(a, job, parent) - current == EmbeddedRows(c, job, parent) - current
  {
    forall s | s !in current ensures s in EmbeddedRows(a, job, parent) <==> s in EmbeddedRows(c, job, parent) {
      if parent + "!" <= s {
        assert s != parent;
        assert RowKey(job, s) in a <==> RowKey(job, s) in c;
      }
    }
  }

  lemma RowsOnlyWiden(a: Rows, b: Rows, job: string, sources: set<string>, more: set<string>)
    requires RowsOnlyAt(a, b, job, sources) && sources <= more
    ensures RowsOnlyAt(a, b, job, more)
  {
  }

  lemma PlanStartsWithMain(spec: Spec, rows: Rows, f: File, e: Extraction)
    requires e.Extracted?
    ensures
      var main := Index(f.source, e.chunks, IndexedRow(spec, f, e.text, |e.chunks|));
      var tasks := IndexPlan(spec, rows, f, e).tasks;
      && tasks == [main] + tasks[1..]
      && if f.source in spec.short || !spec.expand || e.embedded == [] then tasks[1..] == []
         else tasks[1..] == AttachmentTasks(spec, f, e.embedded)
                            + Drops(Sorted(EmbeddedRows(rows, spec.job, f.source) - AttachmentNames(f, e.embedded)))
  {
    var main := Index(f.source, e.chunks, IndexedRow(spec, f, e.text, |e.chunks|));
    if f.source in spec.short || !spec.expand || e.embedded == [] {
      TaskTaken(main, []);
    } else {
      TaskTaken(main, AttachmentTasks(spec, f, e.embedded)
                      + Drops(Sorted(EmbeddedRows(rows, spec.job, f.source) - AttachmentNames(f, e.embedded))));
    }
  }

  /** Wherever a dry run gets, the stores are as they were. */
  lemma DryGets(spec: Spec, st: Stores, d: Config)
    requires spec.dryRun && Gets(Config(Begin(spec), st), d)
    ensures d.st == st
  {
    var n: nat :| Iterate(Step, Config(Begin(spec), st), n) == d;
    DryRuns.DryRunWritesNothing(spec, st, n);
  }

  /** A run has one end: what `RunJob` leaves is all the machine can end with. */
  lemma OneEnd(c: Config, d: Config, e: Config)
    requires Gets(c, d) && Gets(c, e) && d.run.pc.Ended? && e.run.pc.Ended?
    ensures d == e
  {
    OneFixpoint(Step, c, d, e);
  }

  /** What is proved of successful machine runs is true of what `RunJob` leaves, for instance this. */
  lemma SuccessfulRunJobMirrors(spec: Spec, before: Stores, last: Run, after: Stores)
    requires Convergence.Ordinary(spec) && Convergence.Readable(spec) && Convergence.Startable(spec, before)
    requires Gets(Config(Begin(spec), before), Config(last, after)) && last.pc == Ended(Success)
    ensures Convergence.Mirrors(spec, after)
  {
    var n: nat :| Iterate(Step, Config(Begin(spec), before), n) == Config(last, after);
    Convergence.SuccessfulRunMirrorsTree(spec, before, n);
  }

  /**
   A job ready to run: the run's parameters, and what its points carry besides. `hex` and `iso` are how
   a payload writes digests and instants.
   */
  datatype Job = Job(spec: Spec, model: string, aclTags: seq<string>, extra: Payload, about: string -> About,
                     hex: Digest -> string, iso: int -> string)

  /**
   The stored point of chunk `i`, word for word: its id, what it is a point of, the access tags, and what
   it says of document, chunk and model where the job's own entries do not say otherwise.
   */
  predicate Told(job: Job, source: string, chunks: seq<string>, row: Row, p: PointStruct<Payload>, i: nat)
    requires i < |chunks|
  {
    && p.id == Uuid5(job.spec.job + "|" + source + "#" + Decimal(i))
    && (forall key | key in p.payload :: key in CHUNK_KEYS || key == "acl_tags" || key in job.extra)
    && Entry(p.payload, map[], "text", Str(chunks[i])) && Entry(p.payload, map[], "source", Str(source))
    && Entry(p.payload, map[], "ingest_job", Str(job.spec.job))
    && Entry(p.payload, map[], "ingest_run", Str(job.spec.run))
    && Tagged(p.payload, job.aclTags)
    && Describes(p.payload, job.extra, job.about(source),
                 Stamp(job.iso(row.mtime), row.size, job.hex(row.content), job.model), job.spec.coll, i, |chunks|)
  }

  function StampOf(job: Job, row: Row): Stamp {
    Stamp(job.iso(row.mtime), row.size, job.hex(row.content), job.model)
  }

  lemma PointTold(job: Job, source: string, chunks: seq<string>, row: Row, p: PointStruct<Payload>, i: nat)
    requires Registered(job) && i < |chunks| && p.id == PointId(job.spec.job, source, i)
    requires
      var k, point := PointKey(job.spec.coll, job.spec.job, source, i), Point(job.spec.run, chunks[i]);
      p.payload == ChunkPayload(job.about(source), StampOf(job, row), k, point, |chunks|, job.aclTags, job.extra)
    ensures Told(job, source, chunks, row, p, i)
  {
    var k, point := PointKey(job.spec.coll, job.spec.job, source, i), Point(job.spec.run, chunks[i]);
    PayloadSays(job.about(source), StampOf(job, row), k, point, |chunks|, job.aclTags, job.extra);
    ToldIfSaid(job, source, chunks, row, p, i);
  }

  lemma ToldIfSaid(job: Job, source: string, chunks: seq<string>, row: Row, p: PointStruct<Payload>, i: nat)
    requires i < |chunks| && p.id == PointId(job.spec.job, source, i)
    requires Carries(p.payload, PointKey(job.spec.coll, job.spec.job, source, i), Point(job.spec.run, chunks[i]))
    requires Tagged(p.payload, job.aclTags)
    requires Describes(p.payload, job.extra, job.about(source), StampOf(job, row), job.spec.coll, i, |chunks|)
    requires p.payload.Keys == CHUNK_KEYS + (if job.aclTags == [] then {} else {"acl_tags"}) + job.extra.Keys
    ensures Told(job, source, chunks, row, p, i)
  {
  }

  lemma ToldAreStructs(job: Job, source: string, chunks: seq<string>, row: Row, ps: seq<PointStruct<Payload>>)
    requires |ps| == |chunks| && forall i | 0 <= i < |ps| :: Told(job, source, chunks, row, ps[i], i)
    ensures DocStructs(PointMeaning(), ps, job.spec.coll, job.spec.job, source, job.spec.run, chunks)
  {
    forall i | 0 <= i < |ps|
      ensures ps[i].id == PointId(job.spec.job, source, i)
      ensures Carries(ps[i].payload, PointKey(job.spec.coll, job.spec.job, source, i), Point(job.spec.run, chunks[i]))
    {
      assert Told(job, source, chunks, row, ps[i], i);
    }
  }

  /** Chunk `i` of the document is found under its id, with all it is to say. */
  ghost predicate Stored(job: Job, source: string, chunks: seq<string>, row: Row, store: map<Uuid, Payload>, i: nat)
    requires i < |chunks|
  {
    var id := PointId(job.spec.job, source, i);
    id in store && Told(job, source, chunks, row, PointStruct(id, store[id]), i)
  }

  lemma AllStored(job: Job, source: string, chunks: seq<string>, row: Row, ps: seq<PointStruct<Payload>>,
                  store: map<Uuid, Payload>)
    requires Registered(job) && |ps| == |chunks|
    requires forall i | 0 <= i < |ps| :: Told(job, source, chunks, row, ps[i], i)
    ensures forall i | 0 <= i < |chunks| :: Stored(job, source, chunks, row, Inserted(store, ps), i)
  {
    forall a, b | 0 <= a < b < |ps| ensures ps[a].id != ps[b].id {
      assert Told(job, source, chunks, row, ps[a], a) && Told(job, source, chunks, row, ps[b], b);
      if ps[a].id == ps[b].id { PointIdInjective(job.spec.job, source, a, job.spec.job, source, b); }
    }
    forall i | 0 <= i < |chunks| ensures Stored(job, source, chunks, row, Inserted(store, ps), i) {
      assert Told(job, source, chunks, row, ps[i], i);
      InsertedIsFound(store, ps, i);
    }
  }

  /** What the catalog guarantees of every registered job. */
  predicate Registered(job: Job) {
    Slug(job.spec.job) && NoReservedKeys(job.extra)
  }

  /** A run's row; no status yet stands for "running". */
  class RunRow {
    var status: Option<Outcome>

    constructor ()
      ensures status == None
    {
      status := None;
    }
  }

  class JobRunner {
    const writer: QdrantWriter
    const state: StateStore

    constructor (writer: QdrantWriter, state: StateStore)
      ensures this.writer == writer && this.state == state
    {
      this.writer := writer;
      this.state := state;
    }

    ghost predicate Valid()
      reads writer, writer.client
    {
      writer.Valid() && writer.meaning == PointMeaning()
    }

    /** What the two stores hold. */
    ghost function Now(): Stores
      reads writer, writer.client, state
    {
      Stores(writer.Dimensions(), writer.points, state.rows)
    }

    /** The run as the metadata record of its collection finds it. */
    function Facing(job: Job): Spec
      reads writer
    {
      job.spec.(admitted := writer.Admits(job.spec.coll, job.model))
    }

    /** The machine `c` describes this runner, at a given place in the run. */
    ghost predicate At(c: Config, spec: Spec, pc: Pc)
      reads writer, writer.client, state
    {
      c.st == Now() && c.run.spec == spec && c.run.pc == pc
    }

    /** The point of one chunk. */
    method BuildPoint(job: Job, source: string, chunks: seq<string>, row: Row, i: nat)
      returns (p: PointStruct<Payload>)
      requires Registered(job) && i < |chunks|
      ensures Told(job, source, chunks, row, p, i)
    {
      var k, point := PointKey(job.spec.coll, job.spec.job, source, i), Point(job.spec.run, chunks[i]);
      var payload := ChunkPayload(job.about(source), StampOf(job, row), k, point, |chunks|, job.aclTags, job.extra);
      p := PointStruct(PointId(job.spec.job, source, i), payload);
      PointTold(job, source, chunks, row, p, i);
    }

    /** The chunk points of one document. */
    method BuildPoints(job: Job, source: string, chunks: seq<string>, row: Row)
      returns (points: seq<PointStruct<Payload>>)
      requires Registered(job)
      ensures |points| == |chunks| && forall i | 0 <= i < |points| :: Told(job, source, chunks, row, points[i], i)
      ensures DocStructs(PointMeaning(), points, job.spec.coll, job.spec.job, source, job.spec.run, chunks)
    {
      points := [];
      for i := 0 to |chunks|
        invariant |points| == i && forall j | 0 <= j < i :: Told(job, source, chunks, row, points[j], j)
      {
        var p := BuildPoint(job, source, chunks, row, i);
        points := points + [p];
      }
      ToldAreStructs(job, source, chunks, row, points);
    }

    /** `_index_document`: delete, upsert, then commit the row. `raised` stands for the embedder giving up. */
    method IndexDocument(job: Job, source: string, chunks: seq<string>, row: Row,
                         ghost i: nat, ghost rest: seq<Task>, ghost c0: Config, ghost c: Config)
      returns (raised: bool, indexed: bool, ghost d: Config)
      requires Valid() && Registered(job) && job.spec.coll in writer.Dimensions()
      requires Gets(c0, c) && At(c, job.spec, Work(i, [Index(source, chunks, row)] + rest, First))
      modifies writer`points, writer.client, state
      ensures Valid() && writer.Dimensions() == old(writer.Dimensions())
      ensures Gets(c0, d) && d.st == Now()
      ensures raised ==> d.run == c.run.(pc := Ended(Failed))
      ensures !raised ==> d.run == c.run.(pc := Work(i, rest, First))
      ensures !raised ==> (indexed <==> source !in job.spec.short)
      ensures RowsOnlyAt(old(state.rows), state.rows, job.spec.job, {source})
      ensures !raised && indexed ==>
                && job.spec.coll in writer.client.collections
                && forall k | 0 <= k < |chunks| ::
                     Stored(job, source, chunks, row, writer.client.collections[job.spec.coll].points, k)
    {
      var spec := job.spec;
      d := c;
      if source in spec.down {
        d := Raise(c0, d, i, source, chunks, row, rest);
        return true, false, d;
      }
      if source in spec.short {
        state.UpsertDocument(spec.job, source, row.(status := FailedEmbed, chunks := 0));
        d := Refuse(c0, d, i, source, chunks, row, rest);
        return false, false, d;
      }
      writer.DeleteBySource(spec.coll, spec.job, source);
      d := Clear(c0, d, i, source, chunks, row, rest);
      var points := BuildPoints(job, source, chunks, row);
      AllStored(job, source, chunks, row, points, writer.client.collections[spec.coll].points);
      writer.UpsertPoints(spec.coll, points, spec.job, source, spec.run, chunks);
      d := Fill(c0, d, i, source, chunks, row, rest);
      state.UpsertDocument(spec.job, source, row);
      d := Commit(c0, d, i, source, chunks, row, rest);
      raised, indexed := false, true;
    }

    /** Deletes documents one by one: stale attachments, or what vanished from the tree. */
    method DeleteEach(job: Job, sources: seq<string>, ghost i: nat, ghost c0: Config, ghost c: Config)
      returns (ghost d: Config)
      requires Valid() && job.spec.coll in writer.Dimensions()
      requires Gets(c0, c) && At(c, job.spec, Work(i, Drops(sources), First))
      modifies writer`points, writer.client, state
      ensures Valid() && writer.Dimensions() == old(writer.Dimensions())
      ensures Gets(c0, d) && d.st == Now() && d.run == c.run.(pc := Work(i, [], First))
    {
      d := c;
      DropsFromEnds(sources);
      for k := 0 to |sources|
        invariant Valid() && writer.Dimensions() == old(writer.Dimensions())
        invariant Gets(c0, d) && d.st == Now() && d.run == c.run.(pc := Work(i, DropsFrom(sources, k), First))
      {
        ghost var rest := DropsFrom(sources, k + 1);
        NextDrop(sources, k);
        writer.DeleteBySource(job.spec.coll, job.spec.job, sources[k]);
        d := DropPoints(c0, d, i, sources[k], rest);
        state.DeleteDocument(job.spec.job, sources[k]);
        d := DropRow(c0, d, i, sources[k], rest);
      }
    }

    /** `_embedded_sources_in_state`. */
    method EmbeddedInState(job: string, parent: string) returns (sources: set<string>)
      ensures sources == EmbeddedRows(state.rows, job, parent)
    {
      var all := state.ListSources(job);
      sources := set s | s in all && parent + "!" <= s;
    }

    /** One attachment: those without chunks are left alone. */
    method IndexAttachment(job: Job, f: File, a: Attachment, ghost i: nat, ghost rest: seq<Task>, ghost c0: Config,
                           ghost c: Config)
      returns (raised: bool, indexed: bool, ghost d: Config)
      requires Valid() && Registered(job) && job.spec.coll in writer.Dimensions()
      requires
        var source := f.source + "!" + a.name;
        var tasks :=
          if a.chunks == [] then []
          else [Index(source, a.chunks, IndexedRow(job.spec, f, a.text, |a.chunks|))];
        Gets(c0, c) && At(c, job.spec, Work(i, tasks + rest, First))
      modifies writer`points, writer.client, state
      ensures Valid() && writer.Dimensions() == old(writer.Dimensions())
      ensures Gets(c0, d) && d.st == Now()
      ensures raised ==> d.run == c.run.(pc := Ended(Failed))
      ensures !raised ==> d.run == c.run.(pc := Work(i, rest, First))
      ensures !raised ==> (indexed <==> a.chunks != [] && f.source + "!" + a.name !in job.spec.short)
      ensures RowsOnlyAt(old(state.rows), state.rows, job.spec.job, {f.source + "!" + a.name})
    {
      var source := f.source + "!" + a.name;
      d := c;
      if a.chunks == [] {
        assert [] + rest == rest;
        return false, false, d;
      }
      var row := IndexedRow(job.spec, f, a.text, |a.chunks|);
      raised, indexed, d := IndexDocument(job, source, a.chunks, row, i, rest, c0, d);
    }

    /** The attachments in turn; `current` is what the container holds now, `produced` what was written. */
    method IndexAttachments(job: Job, f: File, embedded: seq<Attachment>, ghost drops: seq<Task>,
                            ghost i: nat, ghost c0: Config, ghost c: Config)
      returns (raised: bool, current: set<string>, produced: set<string>, ghost d: Config)
      requires Valid() && Registered(job) && job.spec.coll in writer.Dimensions()
      requires Gets(c0, c) && At(c, job.spec, Work(i, AttachmentTasks(job.spec, f, embedded) + drops, First))
      modifies writer`points, writer.client, state
      ensures Valid() && writer.Dimensions() == old(writer.Dimensions())
      ensures Gets(c0, d) && d.st == Now()
      ensures raised ==> d.run == c.run.(pc := Ended(Failed))
      ensures !raised ==> d.run == c.run.(pc := Work(i, drops, First))
      ensures !raised ==> current == AttachmentNames(f, embedded) && produced == Produced(job.spec, f, embedded)
      ensures RowsOnlyAt(old(state.rows), state.rows, job.spec.job, AttachmentNames(f, embedded))
    {
      current, produced, d := {}, {}, c;
      AttachmentsBegin(job.spec, f, embedded, drops);
      for k := 0 to |embedded|
        invariant Valid() && writer.Dimensions() == old(writer.Dimensions())
        invariant current == AttachmentNames(f, embedded[..k]) && produced == Produced(job.spec, f, embedded[..k])
        invariant RowsOnlyAt(old(state.rows), state.rows, job.spec.job, current)
        invariant Gets(c0, d) && d.st == Now()
        invariant d.run == c.run.(pc := Work(i, TasksFrom(job.spec, f, embedded, k, drops), First))
      {
        ghost var before := state.rows;
        NextAttachment(job.spec, f, embedded, k, drops);
        var source := f.source + "!" + embedded[k].name;
        var indexed;
        raised, indexed, d :=
          IndexAttachment(job, f, embedded[k], i, TasksFrom(job.spec, f, embedded, k + 1, drops), c0, d);
        RowsOnlyGrow(old(state.rows), before, state.rows, job.spec.job, current, source);
        current := current + {source};
        if raised {
          RowsOnlyWiden(old(state.rows), state.rows, job.spec.job, current, AttachmentNames(f, embedded));
          return;
        }
        if indexed { produced := produced + {source}; }
      }
      AttachmentsEnd(job.spec, f, embedded, drops);
      raised := false;
    }

    /** `_index_embedded`: each attachment becomes a document; those no longer there are deleted. */
    method IndexEmbedded(job: Job, f: File, embedded: seq<Attachment>, ghost decided: Rows,
                         ghost i: nat, ghost c0: Config, ghost c: Config)
      returns (raised: bool, produced: set<string>, ghost d: Config)
      requires Valid() && Registered(job) && job.spec.coll in writer.Dimensions()
      requires RowsOnlyAt(decided, state.rows, job.spec.job, {f.source})
      requires
        var stale := EmbeddedRows(decided, job.spec.job, f.source) - AttachmentNames(f, embedded);
        Gets(c0, c) && At(c, job.spec, Work(i, AttachmentTasks(job.spec, f, embedded) + Drops(Sorted(stale)), First))
      modifies writer`points, writer.client, state
      ensures Valid() && writer.Dimensions() == old(writer.Dimensions())
      ensures Gets(c0, d) && d.st == Now()
      ensures raised ==> d.run == c.run.(pc := Ended(Failed))
      ensures !raised ==> d.run == c.run.(pc := Work(i, [], First)) && produced == Produced(job.spec, f, embedded)
    {
      ghost var before := state.rows;
      ghost var stale := EmbeddedRows(decided, job.spec.job, f.source) - AttachmentNames(f, embedded);
      var current;
      raised, current, produced, d := IndexAttachments(job, f, embedded, Drops(Sorted(stale)), i, c0, c);
      if raised { return; }
      var tracked := EmbeddedInState(job.spec.job, f.source);
      SameStale(decided, before, state.rows, job.spec.job, f.source, current);
      d := DeleteEach(job, Sorted(tracked - current), i, c0, d);
    }

    /** `_process_one`: the four-stage change detector, and what it leads to. */
    method ProcessOne(job: Job, f: File, ghost i: nat, ghost c0: Config, ghost c: Config)
      returns (raised: bool, accounted: set<string>, ghost d: Config)
      requires Valid() && Registered(job) && (!job.spec.dryRun ==> job.spec.coll in writer.Dimensions())
      requires Gets(c0, c) && At(c, job.spec, Scan(i)) && i < |job.spec.files| && job.spec.files[i] == f
      requires i !in job.spec.aborts && !(job.spec.mode == Append && f.source in c.run.known)
      modifies writer`points, writer.client, state
      ensures Valid() && writer.Dimensions() == old(writer.Dimensions())
      ensures Gets(c0, d) && d.st == Now()
      ensures d.run.spec == job.spec && (raised ==> d.run.pc == Ended(Failed))
      ensures !raised ==> d.run == c.run.(pc := Scan(i + 1), seen := d.run.seen)
      ensures !raised && !job.spec.dryRun ==> d.run.seen == c.run.seen + {f.source} + accounted
      ensures job.spec.dryRun ==> !raised && Now() == old(Now())
    {
      var spec, s := job.spec, f.source;
      ghost var decided := state.rows;
      d := Look(c0, c, i);
      raised := false;
      var prev := state.GetDocument(spec.job, s);
      if f.size > spec.maxBytes {
        d := SaveUnlessDry(job, s, StatusRow(spec, f, Blank, TooLarge), i, c0, d);
        return false, {s}, d;
      }
      if prev.Some? && SameStat(spec, prev.value, f) {
        var children := EmbeddedInState(spec.job, s);
        d := Next(c0, d, i);
        return false, {s} + children, d;
      }
      if prev.Some? && SameContent(spec, prev.value, f) {
        var children := EmbeddedInState(spec.job, s);
        d := SaveUnlessDry(job, s, prev.value.(size := f.size, mtime := f.mtime), i, c0, d);
        return false, {s} + children, d;
      }
      var e := spec.extract(s, f.content, spec.params);
      if !e.Extracted? {
        var status := if e.Broken? then FailedExtract else if e.Unreadable? then Unsupported else NoText;
        d := SaveUnlessDry(job, s, StatusRow(spec, f, Sha256(f.content), status), i, c0, d);
        return false, {s}, d;
      }
      if prev.Some? && SameText(spec, prev.value, e.text) {
        var children := EmbeddedInState(spec.job, s);
        var row := prev.value.(size := f.size, mtime := f.mtime, content := Sha256(f.content));
        d := SaveUnlessDry(job, s, row, i, c0, d);
        return false, {s} + children, d;
      }
      if spec.dryRun {
        d := Next(c0, d, i);
        return false, {s}, d;
      }
      raised, accounted, d := IndexFile(job, f, e, decided, i, c0, d);
    }

    method SaveUnlessDry(job: Job, source: string, row: Row, ghost i: nat, ghost c0: Config, ghost c: Config)
      returns (ghost d: Config)
      requires Valid() && i < |job.spec.files|
      requires Gets(c0, c) && At(c, job.spec, Work(i, if job.spec.dryRun then [] else [Task.Save(source, row)], First))
      modifies state
      ensures Gets(c0, d) && d.st == Now() && d.run == c.run.(pc := Scan(i + 1))
      ensures state.rows == if job.spec.dryRun then old(state.rows)
                            else old(state.rows)[RowKey(job.spec.job, source) := row]
    {
      d := c;
      if !job.spec.dryRun {
        assert [Task.Save(source, row)] == [Task.Save(source, row)] + [];
        state.UpsertDocument(job.spec.job, source, row);
        d := SaveOnce(c0, d, i, source, row, []);
      }
      d := Next(c0, d, i);
    }

    /** The end of `_process_one`: the document, then its attachments. */
    method IndexFile(job: Job, f: File, e: Extraction, ghost decided: Rows, ghost i: nat, ghost c0: Config,
                     ghost c: Config)
      returns (raised: bool, accounted: set<string>, ghost d: Config)
      requires Valid() && Registered(job) && job.spec.coll in writer.Dimensions() && e.Extracted?
      requires decided == state.rows && i < |job.spec.files|
      requires Gets(c0, c) && At(c, job.spec, Work(i, IndexPlan(job.spec, decided, f, e).tasks, First))
      modifies writer`points, writer.client, state
      ensures Valid() && writer.Dimensions() == old(writer.Dimensions())
      ensures Gets(c0, d) && d.st == Now()
      ensures d.run.spec == job.spec && (raised ==> d.run.pc == Ended(Failed))
      ensures !raised ==> d.run == c.run.(pc := Scan(i + 1)) && accounted == IndexPlan(job.spec, decided, f, e).seen
    {
      var spec, s := job.spec, f.source;
      var row := IndexedRow(spec, f, e.text, |e.chunks|);
      ghost var main := Index(s, e.chunks, row);
      ghost var rest := IndexPlan(spec, decided, f, e).tasks[1..];
      PlanStartsWithMain(spec, decided, f, e);
      var indexed;
      raised, indexed, d := IndexDocument(job, s, e.chunks, row, i, rest, c0, c);
      accounted := {s};
      if raised { return; }
      if indexed && spec.expand && e.embedded != [] {
        var produced;
        raised, produced, d := IndexEmbedded(job, f, e.embedded, decided, i, c0, d);
        if raised { return; }
        accounted := accounted + produced;
      }
      d := Next(c0, d, i);
    }

    /** `_delete_vanished`, with the guard in front of it; refused, it touches nothing. */
    method DeleteVanished(job: Job, seen: set<string>, ghost c0: Config, ghost c: Config)
      returns (outcome: Outcome, ghost d: Config)
      requires Valid() && job.spec.coll in writer.Dimensions()
      requires Gets(c0, c) && At(c, job.spec, Vanish) && c.run.seen == seen
      modifies writer`points, writer.client, state
      ensures Valid() && writer.Dimensions() == old(writer.Dimensions())
      ensures Gets(c0, d) && d.st == Now() && d.run.pc == Ended(outcome)
      ensures outcome == Success || outcome == AbortedGuard
      ensures outcome == AbortedGuard <==> Deletion.Refused(job.spec, seen, old(Tracked(state.rows, job.spec.job)))
      ensures outcome == AbortedGuard ==> Now() == old(Now())
    {
      var tracked := state.ListSources(job.spec.job);
      var vanished := Gone(seen, tracked);
      var allowed := Allows(seen, tracked, job.spec.ratio, job.spec.emptyGuard, job.spec.force);
      Deletion.RefusalInWords(job.spec, seen, tracked);
      d := Judge(c0, c, vanished, allowed);
      if vanished == {} { return Success, d; }
      if !allowed { return AbortedGuard, d; }
      d := DeleteEach(job, Sorted(vanished), |job.spec.files|, c0, d);
      d := Next(c0, d, |job.spec.files|);
      outcome := Success;
    }

    /** `_append_known_sources`. */
    method AppendKnownSources(spec: Spec) returns (known: set<string>)
      requires Valid()
      ensures known == KnownSources(spec, writer.points, state.rows)
    {
      var tracked := state.ListSources(spec.job);
      match spec.probe
      case ByState => known := tracked;
      case ByFacet => known := writer.FacetSources(spec.coll, spec.job, spec.facet);
      case Auto =>
        var holds := writer.HasJobPoints(spec.coll, spec.job);
        if tracked == {} && holds {
          known := writer.FacetSources(spec.coll, spec.job, spec.facet);
        } else {
          known := tracked;
        }
    }

    /** The phases up to the scan: the collection is rebuilt or verified, a full run forgets its rows. */
    method PrepareStores(job: Job, ghost c0: Config, ghost c: Config) returns (ok: bool, ghost d: Config)
      requires Valid() && !job.spec.dryRun && job.spec.ready && job.spec == Facing(job)
      requires !(Rebuilds(job.spec) && job.spec.siblings && !job.spec.force)
      requires Gets(c0, c) && At(c, job.spec, Admit)
      modifies writer, writer.client, state
      ensures Valid() && Gets(c0, d) && d.st == Now()
      ensures ok ==> job.spec.coll in writer.Dimensions()
      ensures d.run == c.run.(pc := if ok then AfterPrepare(job.spec) else Ended(Failed))
      ensures writer.metas ==
                if Rebuilds(job.spec) then old(writer.metas)[job.spec.coll := job.model] else old(writer.metas)
    {
      var spec := job.spec;
      d := PrepareOnce(c0, c);
      if spec.mode == Full && spec.wholeCollection {
        d := Rebuild(job, c0, d);
      } else if spec.mode == Full {
        state.DeleteDocumentsForJob(spec.job);
        d := PrepareOnce(c0, d);
      }
      ok, d := EnsureReady(job, c0, d);
    }

    /** `ensure_collection` says whether the machine gets past its check. */
    method EnsureReady(job: Job, ghost c0: Config, ghost c: Config) returns (ok: bool, ghost d: Config)
      requires Valid() && Gets(c0, c) && At(c, job.spec, Protocol.Ensure)
      requires writer.Admits(job.spec.coll, job.model) <==> job.spec.admitted || Rebuilds(job.spec)
      modifies writer`points, writer.client
      ensures Valid() && Gets(c0, d) && d.st == Now()
      ensures ok ==> job.spec.coll in writer.Dimensions()
      ensures d.run == c.run.(pc := if ok then AfterPrepare(job.spec) else Ended(Failed))
    {
      var verdict := writer.EnsureCollection(job.spec.coll, job.spec.dim, job.model);
      ok := verdict.Granted?;
      d := PrepareOnce(c0, c);
    }

    /** The collection anew, its rows forgotten, and the record of this run's model. */
    method Rebuild(job: Job, ghost c0: Config, ghost c: Config) returns (ghost d: Config)
      requires Valid() && Gets(c0, c) && At(c, job.spec, DropColl)
      modifies writer, writer.client, state
      ensures Valid() && Gets(c0, d) && d.st == Now() && d.run == c.run.(pc := Protocol.Ensure)
      ensures writer.metas == old(writer.metas)[job.spec.coll := job.model]
    {
      var spec := job.spec;
      writer.DropIfPresent(spec.coll);
      d := PrepareOnce(c0, c);
      writer.Create(spec.coll, spec.dim);
      d := PrepareOnce(c0, d);
      state.DeleteDocumentsForCollection(spec.coll);
      d := PrepareOnce(c0, d);
      writer.UpsertMeta(spec.coll, job.model);
    }

    /** The file loop; None when every file was processed. */
    method ScanFiles(job: Job, known: set<string>, ghost c0: Config, ghost c: Config)
      returns (outcome: Option<Outcome>, seen: set<string>, ghost d: Config)
      requires Valid() && Registered(job) && (!job.spec.dryRun ==> job.spec.coll in writer.Dimensions())
      requires Gets(c0, c) && At(c, job.spec, Scan(0)) && c.run.seen == {} && c.run.known == known
      modifies writer`points, writer.client, state
      ensures Valid() && writer.Dimensions() == old(writer.Dimensions())
      ensures Gets(c0, d) && d.st == Now() && d.run.spec == job.spec
      ensures outcome.Some? ==> d.run.pc == Ended(outcome.value)
      ensures outcome.None? ==> d.run.pc == Scan(|job.spec.files|) && (!job.spec.dryRun ==> d.run.seen == seen)
    {
      var spec := job.spec;
      seen, d := {}, c;
      for i := 0 to |spec.files|
        invariant Valid() && writer.Dimensions() == old(writer.Dimensions())
        invariant Gets(c0, d) && At(d, spec, Scan(i)) && d.run.known == known
        invariant !spec.dryRun ==> d.run.seen == seen
      {
        var f := spec.files[i];
        if i in spec.aborts {
          d := LookAborted(c0, d, i);
          return Some(Interrupted), seen, d;
        }
        if spec.mode == Append && f.source in known {
          d := LookKnown(c0, d, i);
          seen := seen + {f.source};
        } else {
          var raised, accounted;
          raised, accounted, d := ProcessOne(job, f, i, c0, d);
          if raised { return Some(Failed), seen, d; }
          seen := seen + {f.source} + accounted;
        }
      }
      outcome := None;
    }

    /** `_execute` past the admission: scan, then the destructive phases of a clean scan. */
    method ScanAndClean(job: Job, ghost c0: Config, ghost c: Config) returns (outcome: Outcome, ghost d: Config)
      requires Valid() && Registered(job) && (!job.spec.dryRun ==> job.spec.coll in writer.Dimensions())
      requires Gets(c0, c) && At(c, job.spec, AfterPrepare(job.spec)) && c.run.seen == {} && c.run.known == {}
      modifies writer`points, writer.client, state
      ensures Valid() && Gets(c0, d) && d.st == Now() && d.run.pc == Ended(outcome)
    {
      var spec := job.spec;
      var known: set<string> := {};
      d := c;
      if spec.mode == Append {
        known := AppendKnownSources(spec);
        d := PrepareOnce(c0, d);
      }
      var stopped, seen;
      stopped, seen, d := ScanFiles(job, known, c0, d);
      if stopped.Some? { return stopped.value, d; }
      d := Look(c0, d, |spec.files|);
      if spec.mode == Upsert && !spec.dryRun && spec.deleteVanished {
        outcome, d := DeleteVanished(job, seen, c0, d);
        return;
      }
      if spec.mode == Full && !spec.dryRun {
        writer.SweepStale(spec.coll, spec.run, SweepScope(spec));
        d := SweepOnce(c0, d);
      }
      outcome := Success;
    }

    /** `_execute` behind its first checks. */
    method RunAdmitted(job: Job, ghost c0: Config, ghost c: Config) returns (outcome: Outcome, ghost d: Config)
      requires Valid() && Registered(job) && job.spec.ready && job.spec == Facing(job)
      requires !(Rebuilds(job.spec) && job.spec.siblings && !job.spec.force)
      requires Gets(c0, c) && At(c, job.spec, Admit) && c.run == Begin(job.spec)
      modifies writer, writer.client, state
      ensures Valid() && Gets(c0, d) && d.st == Now() && d.run.pc == Ended(outcome)
      ensures writer.metas ==
                if Rebuilds(job.spec) && !job.spec.dryRun then old(writer.metas)[job.spec.coll := job.model]
                else old(writer.metas)
    {
      var ok := true;
      if job.spec.dryRun {
        d := PrepareOnce(c0, c);
      } else {
        ok, d := PrepareStores(job, c0, c);
      }
      outcome := Failed;
      if ok { outcome, d := ScanAndClean(job, c0, d); }
    }

    /** `_execute`: refused, not ready, or run; a run that succeeds records its model. */
    method Perform(job: Job) returns (outcome: Outcome, ghost last: Run)
      requires Valid() && Registered(job)
      modifies writer, writer.client, state
      ensures Valid() && last.pc == Ended(outcome)
      ensures Gets(Config(Begin(old(Facing(job))), old(Now())), Config(last, Now()))
      ensures
        var spec := job.spec;
        var rebuilt :=
          spec.mode == Full && spec.wholeCollection && spec.ready && (spec.force || !spec.siblings);
        writer.metas == if !spec.dryRun && (rebuilt || outcome == Success) then
                          old(writer.metas)[spec.coll := job.model]
                        else old(writer.metas)
    {
      var spec := Facing(job);
      ghost var c0 := Config(Begin(spec), Now());
      Starts(c0);
      ghost var d := c0;
      var refused := spec.mode == Full && spec.wholeCollection && spec.siblings && !spec.force;
      if refused || !spec.ready {
        d := PrepareOnce(c0, d);
        return Failed, d.run;
      }
      outcome, d := RunAdmitted(job.(spec := spec), c0, d);
      if outcome == Success && !spec.dryRun { writer.UpsertMeta(spec.coll, job.model); }
      last := d.run;
    }

    /**
     `run_job`: whatever happens the run ends with a status, and the stores are those of the machine
     run to its end. The record names the run's model exactly if the run succeeded or got as far as
     rebuilding the collection, and is otherwise as it was. A dry run leaves stores and record alone.
     */
    method RunJob(job: Job) returns (run: RunRow, ghost last: Run)
      requires Valid() && Registered(job)
      modifies writer, writer.client, state
      ensures Valid() && fresh(run) && last.pc.Ended? && run.status == Some(last.pc.outcome)
      ensures Gets(Config(Begin(old(Facing(job))), old(Now())), Config(last, Now()))
      ensures job.spec.dryRun ==> Now() == old(Now()) && writer.metas == old(writer.metas)
      ensures
        var spec := job.spec;
        var rebuilt :=
          spec.mode == Full && spec.wholeCollection && spec.ready && (spec.force || !spec.siblings);
        writer.metas == if !spec.dryRun && (rebuilt || run.status == Some(Success)) then
                          old(writer.metas)[spec.coll := job.model]
                        else old(writer.metas)
    {
      run := new RunRow();
      var outcome;
      outcome, last := Perform(job);
      run.status := Some(outcome);
      if job.spec.dryRun { DryGets(old(Facing(job)), old(Now()), Config(last, Now())); }
    }
  }
}
