/**
 The two stores a run keeps in step, as values: the point set of the vector store and the
 document rows of the state database. Each function here is one store call, one atomic step.

 A point id is the UUIDv5 of `job|source#index`; module Ids proves that name injective, so the
 id is the triple itself here, qualified by the collection. The payload fields the filters read
 are the id's own job and source plus the run; module Payloads proves that this is so.
 */
module Stores {

  datatype Option<+T> = None | Some(value: T)

  /** A SHA-256 digest stands for what was hashed; `Blank` is the `"-"` or NULL written instead. */
  datatype Digest = Blank | Sha256(of: string)

  datatype Status = Indexed | NoText | TooLarge | Unsupported | FailedExtract | FailedEmbed

  /** A `documents` row without its reporting columns. `chunks` is chunk_count, `run` last_run_id. */
  datatype Row = Row(collection: string, size: nat, mtime: int, content: Digest, text: Digest,
                     params: string, chunks: nat, status: Status, run: string)

  datatype RowKey = RowKey(job: string, source: string)

  datatype PointKey = PointKey(coll: string, job: string, source: string, index: nat)

  /** The payload of a point beyond its scoping keys: the generation and the chunk. */
  datatype Point = Point(run: string, text: string)

  type Points = map<PointKey, Point>
  type Rows = map<RowKey, Row>

  /** `dims` holds the existing collections with their vector size. */
  datatype Stores = Stores(dims: map<string, nat>, points: Points, rows: Rows)

  // ---- point store

  /** The points `upsert_points` writes for one document. */
  function DocPoints(coll: string, job: string, source: string, run: string, chunks: seq<string>): Points {
    map i | 0 <= i < |chunks| :: PointKey(coll, job, source, i) := Point(run, chunks[i])
  }

  function DeleteBySource(points: Points, coll: string, job: string, source: string): Points {
    map k | k in points && !(k.coll == coll && k.job == job && k.source == source) :: points[k]
  }

  /** The generation sweep; `job` is None for the collection scope. */
  function Sweep(points: Points, coll: string, job: Option<string>, run: string): Points {
    map k | k in points && !(k.coll == coll && (job == None || k.job == job.value) && points[k].run != run)
      :: points[k]
  }

  function DropCollection(points: Points, coll: string): Points {
    map k | k in points && k.coll != coll :: points[k]
  }

  function PointSources(points: Points, coll: string, job: string): set<string> {
    set k | k in points && k.coll == coll && k.job == job :: k.source
  }

  // ---- row store

  function ForgetJob(rows: Rows, job: string): Rows {
    map k | k in rows && k.job != job :: rows[k]
  }

  function ForgetCollection(rows: Rows, coll: string): Rows {
    map k | k in rows && rows[k].collection != coll :: rows[k]
  }

  function Tracked(rows: Rows, job: string): set<string> {
    set k | k in rows && k.job == job :: k.source
  }

  function Lookup(rows: Rows, job: string, source: string): Option<Row> {
    var k := RowKey(job, source);
    if k in rows then Some(rows[k]) else None
  }

  // ---- what a reader sees of one document

  /** The points of one document are exactly `chunks`, at indices 0..n-1, whatever their run. */
  ghost predicate Holds(points: Points, coll: string, job: string, source: string, chunks: seq<string>) {
    forall i: nat ::
      && (PointKey(coll, job, source, i) in points <==> i < |chunks|)
      && (i < |chunks| ==> points[PointKey(coll, job, source, i)].text == chunks[i])
  }

  /** Every point of one document carries this run. */
  ghost predicate Stamped(points: Points, coll: string, job: string, source: string, run: string) {
    forall i: nat :: PointKey(coll, job, source, i) in points ==> points[PointKey(coll, job, source, i)].run == run
  }

  /** One job's slice of one collection as a reader sees it: id to text. */
  function Texts(points: Points, coll: string, job: string): map<PointKey, string> {
    map k | k in points && k.coll == coll && k.job == job :: points[k].text
  }

  /** A job's rows up to run ids. */
  function RowView(rows: Rows, job: string): map<string, Row> {
    map s | s in Tracked(rows, job) :: rows[RowKey(job, s)].(run := "")
  }

  /** A job's documents agree in two stores iff source by source they hold the same chunks. */
  lemma SameTexts(p: Points, q: Points, coll: string, job: string, doc: string -> seq<string>)
    requires forall s :: Holds(p, coll, job, s, doc(s))
    requires forall s :: Holds(q, coll, job, s, doc(s))
    ensures Texts(p, coll, job) == Texts(q, coll, job)
  {
    forall k: PointKey | k.coll == coll && k.job == job
      ensures k in p <==> k in q
      ensures k in p ==> p[k].text == q[k].text
    {
      assert k == PointKey(coll, job, k.source, k.index);
      assert Holds(p, coll, job, k.source, doc(k.source)) && Holds(q, coll, job, k.source, doc(k.source));
    }
  }
}
