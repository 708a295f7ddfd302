/**
 What is stored with a point, and the payload filters every read and delete goes by. The run
 protocol speaks of jobs, sources and runs; this module shows the filters mean exactly that,
 whatever a job adds to its payloads.
 */
module Payloads {
  import opened Stores

  datatype Json =
    | Null
    | Bool(b: bool)
    | Num(n: int)
    | Str(s: string)
    | Arr(items: seq<Json>)
    | Obj(fields: seq<(string, Json)>)

  type Payload = map<string, Json>

  /** The keys the deletes, the sweep and the access layer rely on. */
  const RESERVED_PAYLOAD_KEYS: set<string> := {"text", "source", "ingest_job", "ingest_run", "acl_tags"}

  /** Of those, the keys whose value says what the point is. */
  const SCOPING_KEYS: set<string> := {"text", "source", "ingest_job", "ingest_run"}

  /** The validator of `extra_payload`. */
  predicate NoReservedKeys(extra: Payload) {
    RESERVED_PAYLOAD_KEYS * extra.Keys == {}
  }

  /** What a document's points say of the file they come from, as far as the run has it from outside. */
  datatype About = About(title: Json, fileName: string, relPath: string, sourceLabel: string, fileType: string,
                         mediaType: Json, ingestedAt: string)

  /** What they say of the file as it was read, in the payload's own terms, and of the model. */
  datatype Stamp = Stamp(mtime: string, size: nat, contentSha: string, model: string)

  /** The entries every chunk's payload has. */
  function FixedEntries(about: About, stamp: Stamp, k: PointKey, point: Point, total: nat): Payload {
    map[
      "text" := Str(point.text),
      "source" := Str(k.source),
      "ingest_job" := Str(k.job),
      "ingest_run" := Str(point.run),
      "collection" := Str(k.coll),
      "title" := about.title,
      "file_name" := Str(about.fileName),
      "rel_path" := Str(about.relPath),
      "source_label" := Str(about.sourceLabel),
      "chunk_index" := Num(k.index),
      "total_chunks" := Num(total),
      "file_type" := Str(about.fileType),
      "media_type" := about.mediaType,
      "file_mtime" := Str(stamp.mtime),
      "file_size" := Num(stamp.size),
      "content_sha256" := Str(stamp.contentSha),
      "ingested_at" := Str(about.ingestedAt),
      "embedding_model" := Str(stamp.model)]
  }

  function TagEntries(aclTags: seq<string>): Payload {
    if aclTags == [] then map[]
    else map["acl_tags" := Arr(seq(|aclTags|, i requires 0 <= i < |aclTags| => Str(aclTags[i])))]
  }

  /** The payload of one chunk: the fixed entries, the access tags if any, then the job's own entries. */
  function ChunkPayload(about: About, stamp: Stamp, k: PointKey, point: Point, total: nat,
                        aclTags: seq<string>, extra: Payload): Payload
  {
    FixedEntries(about, stamp, k, point, total) + TagEntries(aclTags) + extra
  }

  /** The payload says which job, document, run and chunk the point belongs to. */
  ghost predicate Carries(p: Payload, k: PointKey, point: Point) {
    && "text" in p && p["text"] == Str(point.text)
    && "source" in p && p["source"] == Str(k.source)
    && "ingest_job" in p && p["ingest_job"] == Str(k.job)
    && "ingest_run" in p && p["ingest_run"] == Str(point.run)
  }

  /**
   A payload says what its point is, for every point, exactly if the job's own entries stay off the
   scoping keys; the reserved keys contain those.
   */
  lemma ExtraCannotShadow(about: About, stamp: Stamp, total: nat, aclTags: seq<string>, extra: Payload)
    ensures (forall k, point :: Carries(ChunkPayload(about, stamp, k, point, total, aclTags, extra), k, point)) <==>
            SCOPING_KEYS * extra.Keys == {}
    ensures NoReservedKeys(extra) ==> SCOPING_KEYS * extra.Keys == {}
  {
    assert forall key | key in SCOPING_KEYS :: key in RESERVED_PAYLOAD_KEYS;
    if SCOPING_KEYS * extra.Keys == {} {
      forall key | key in SCOPING_KEYS ensures key !in extra.Keys {
        assert key !in SCOPING_KEYS * extra.Keys;
      }
      forall k, point ensures Carries(ChunkPayload(about, stamp, k, point, total, aclTags, extra), k, point) {
        PayloadCarries(about, stamp, k, point, total, aclTags, extra);
      }
    } else {
      var key :| key in SCOPING_KEYS * extra.Keys;
      var k, point := Stranger(extra, key);
      assert !Carries(ChunkPayload(about, stamp, k, point, total, aclTags, extra), k, point);
    }
  }

  lemma PayloadCarries(about: About, stamp: Stamp, k: PointKey, point: Point, total: nat, aclTags: seq<string>,
                       extra: Payload)
    requires forall key | key in SCOPING_KEYS :: key !in extra.Keys
    ensures Carries(ChunkPayload(about, stamp, k, point, total, aclTags, extra), k, point)
  {
    assert "text" in SCOPING_KEYS && "source" in SCOPING_KEYS && "ingest_job" in SCOPING_KEYS &&
           "ingest_run" in SCOPING_KEYS;
  }

  /** A point whose four scoping values all differ from what `extra` says for `key`. */
  lemma Stranger(extra: Payload, key: string) returns (k: PointKey, point: Point)
    requires key in SCOPING_KEYS && key in extra
    ensures forall p | key in p && p[key] == extra[key] :: !Carries(p, k, point)
  {
    var word := if extra[key] == Str("") then "x" else "";
    k, point := PointKey(word, word, word, 0), Point(word, word);
  }

  /** The entry the run gives, unless the job's own entries have the key. */
  predicate Entry(p: Payload, extra: Payload, key: string, value: Json) {
    key in p && p[key] == if key in extra then extra[key] else value
  }

  /** The access tags, in order, and only where there are any. */
  predicate Tagged(p: Payload, tags: seq<string>) {
    && ("acl_tags" in p <==> tags != [])
    && (tags != [] ==>
          && p["acl_tags"].Arr? && |p["acl_tags"].items| == |tags|
          && forall i | 0 <= i < |tags| :: p["acl_tags"].items[i] == Str(tags[i]))
  }

  /** Everything the run says with a chunk of a document besides what the point is. */
  predicate Describes(p: Payload, extra: Payload, about: About, stamp: Stamp, coll: string, index: nat, total: nat) {
    && Entry(p, extra, "collection", Str(coll))
    && Entry(p, extra, "chunk_index", Num(index))
    && Entry(p, extra, "total_chunks", Num(total))
    && Entry(p, extra, "embedding_model", Str(stamp.model))
    && Entry(p, extra, "content_sha256", Str(stamp.contentSha))
    && Entry(p, extra, "file_size", Num(stamp.size))
    && Entry(p, extra, "file_mtime", Str(stamp.mtime))
    && Entry(p, extra, "title", about.title)
    && Entry(p, extra, "file_name", Str(about.fileName))
    && Entry(p, extra, "rel_path", Str(about.relPath))
    && Entry(p, extra, "source_label", Str(about.sourceLabel))
    && Entry(p, extra, "file_type", Str(about.fileType))
    && Entry(p, extra, "media_type", about.mediaType)
    && Entry(p, extra, "ingested_at", Str(about.ingestedAt))
    && (forall key | key in extra :: key in p && p[key] == extra[key])
  }

  /** The keys of a chunk's payload beside the access tags and the job's own. */
  const CHUNK_KEYS: set<string> :=
    {"text", "source", "ingest_job", "ingest_run", "collection", "title", "file_name", "rel_path", "source_label",
     "chunk_index", "total_chunks", "file_type", "media_type", "file_mtime", "file_size", "content_sha256",
     "ingested_at", "embedding_model"}

  lemma FixedSay(about: About, stamp: Stamp, k: PointKey, point: Point, total: nat)
    ensures Describes(FixedEntries(about, stamp, k, point, total), map[], about, stamp, k.coll, k.index, total)
  {
  }

  lemma FixedCarry(about: About, stamp: Stamp, k: PointKey, point: Point, total: nat)
    ensures Carries(FixedEntries(about, stamp, k, point, total), k, point)
    ensures FixedEntries(about, stamp, k, point, total).Keys == CHUNK_KEYS
  {
  }

  lemma DescriptionStays(fixed: Payload, tags: Payload, extra: Payload, about: About, stamp: Stamp, coll: string,
                         index: nat, total: nat)
    requires Describes(fixed, map[], about, stamp, coll, index, total) && tags.Keys <= {"acl_tags"}
    ensures Describes(fixed + tags + extra, extra, about, stamp, coll, index, total)
  {
  }

  lemma TagsStay(fixed: Payload, aclTags: seq<string>, extra: Payload)
    requires "acl_tags" !in fixed && "acl_tags" !in extra
    ensures Tagged(fixed + TagEntries(aclTags) + extra, aclTags)
  {
  }

  /**
   The payload of a chunk, key by key: with admitted entries of the job it says what the point is, has
   the access tags exactly where the job has some, describes document and chunk except where the job
   says otherwise, and has no other key.
   */
  lemma PayloadSays(about: About, stamp: Stamp, k: PointKey, point: Point, total: nat, aclTags: seq<string>,
                    extra: Payload)
    requires NoReservedKeys(extra)
    ensures
      var p := ChunkPayload(about, stamp, k, point, total, aclTags, extra);
      && Carries(p, k, point) && Tagged(p, aclTags) && Describes(p, extra, about, stamp, k.coll, k.index, total)
      && p.Keys == CHUNK_KEYS + (if aclTags == [] then {} else {"acl_tags"}) + extra.Keys
  {
    FixedSay(about, stamp, k, point, total);
    FixedCarry(about, stamp, k, point, total);
    MergedSay(FixedEntries(about, stamp, k, point, total), about, stamp, k, point, total, aclTags, extra);
  }

  lemma MergedSay(fixed: Payload, about: About, stamp: Stamp, k: PointKey, point: Point, total: nat,
                  aclTags: seq<string>, extra: Payload)
    requires NoReservedKeys(extra) && Carries(fixed, k, point) && fixed.Keys == CHUNK_KEYS
    requires Describes(fixed, map[], about, stamp, k.coll, k.index, total)
    ensures
      var p := fixed + TagEntries(aclTags) + extra;
      && Carries(p, k, point) && Tagged(p, aclTags) && Describes(p, extra, about, stamp, k.coll, k.index, total)
      && p.Keys == CHUNK_KEYS + (if aclTags == [] then {} else {"acl_tags"}) + extra.Keys
  {
    NotShadowed(fixed, TagEntries(aclTags), extra, k, point);
    DescriptionStays(fixed, TagEntries(aclTags), extra, about, stamp, k.coll, k.index, total);
    assert "acl_tags" !in extra by {
      assert "acl_tags" in RESERVED_PAYLOAD_KEYS && "acl_tags" !in RESERVED_PAYLOAD_KEYS * extra.Keys;
    }
    TagsStay(fixed, aclTags, extra);
    MergedKeys(fixed, aclTags, extra);
  }

  lemma MergedKeys(fixed: Payload, aclTags: seq<string>, extra: Payload)
    ensures (fixed + TagEntries(aclTags) + extra).Keys ==
            fixed.Keys + (if aclTags == [] then {} else {"acl_tags"}) + extra.Keys
  {
  }

  lemma NotShadowed(fixed: Payload, tags: Payload, extra: Payload, k: PointKey, point: Point)
    requires Carries(fixed, k, point) && tags.Keys <= {"acl_tags"} && NoReservedKeys(extra)
    ensures Carries(fixed + tags + extra, k, point)
  {
    forall key | key in SCOPING_KEYS ensures key !in extra {
      assert key in RESERVED_PAYLOAD_KEYS && key !in RESERVED_PAYLOAD_KEYS * extra.Keys;
    }
    assert "text" in SCOPING_KEYS && "source" in SCOPING_KEYS && "ingest_job" in SCOPING_KEYS &&
           "ingest_run" in SCOPING_KEYS;
  }

  // ---- filters

  /** `FieldCondition` with a `MatchValue`: equality, or membership when the payload holds a list. */
  datatype Condition = Condition(key: string, value: Json)

  datatype Filter = Filter(must: seq<Condition>, mustNot: seq<Condition>)

  predicate ConditionMatches(c: Condition, p: Payload) {
    var value := if c.key in p then p[c.key] else Null;
    if value.Arr? then c.value in value.items else value == c.value
  }

  predicate FilterMatches(f: Filter, p: Payload) {
    && (forall c | c in f.must :: ConditionMatches(c, p))
    && (forall c | c in f.mustNot :: !ConditionMatches(c, p))
  }

  function JobCondition(job: string): Condition {
    Condition("ingest_job", Str(job))
  }

  function JobFilter(job: string): Filter {
    Filter([JobCondition(job)], [])
  }

  function SourceFilter(job: string, source: string): Filter {
    Filter([JobCondition(job), Condition("source", Str(source))], [])
  }

  /** The generation sweep: everything this run did not touch. */
  function StaleFilter(run: string, job: Option<string>): Filter {
    var stale := Condition("ingest_run", Str(run));
    if job.Some? then Filter([JobCondition(job.value)], [stale]) else Filter([], [stale])
  }

  /** The three filters select by the point's job, source and run. */
  lemma FiltersMeanScopes(p: Payload, k: PointKey, point: Point, job: string, source: string, run: string,
                          scope: Option<string>)
    requires Carries(p, k, point)
    ensures FilterMatches(JobFilter(job), p) <==> k.job == job
    ensures FilterMatches(SourceFilter(job, source), p) <==> k.job == job && k.source == source
    ensures FilterMatches(StaleFilter(run, scope), p) <==> (scope == None || k.job == scope.value) && point.run != run
  {
    assert ConditionMatches(JobCondition(job), p) <==> k.job == job;
    assert ConditionMatches(Condition("source", Str(source)), p) <==> k.source == source;
    assert ConditionMatches(Condition("ingest_run", Str(run)), p) <==> point.run == run;
    assert JobFilter(job).must[0] == JobCondition(job);
    assert SourceFilter(job, source).must[0] == JobCondition(job);
    assert SourceFilter(job, source).must[1] == Condition("source", Str(source));
    assert StaleFilter(run, scope).mustNot[0] == Condition("ingest_run", Str(run));
    if scope.Some? {
      assert ConditionMatches(JobCondition(scope.value), p) <==> k.job == scope.value;
      assert StaleFilter(run, scope).must[0] == JobCondition(scope.value);
    }
  }

  /** A filter on an access tag finds exactly the payloads that have the tag. */
  lemma TagsFindTheirPoints(p: Payload, tags: seq<string>, tag: string)
    requires Tagged(p, tags)
    ensures FilterMatches(Filter([Condition("acl_tags", Str(tag))], []), p) <==> tag in tags
  {
    var c, f := Condition("acl_tags", Str(tag)), Filter([Condition("acl_tags", Str(tag))], []);
    assert f.must == [c] && f.must[0] == c && f.mustNot == [];
    assert FilterMatches(f, p) <==> ConditionMatches(c, p);
    if tag in tags {
      var i :| 0 <= i < |tags| && tags[i] == tag;
      assert p["acl_tags"].items[i] == Str(tag);
    }
  }

  /** Fields that do not scope are the job's to overwrite: no delete could go by `chunk_index`. */
  lemma ChunkIndexCanBeShadowed(about: About, stamp: Stamp, k: PointKey, point: Point, total: nat, aclTags: seq<string>)
    ensures
      var extra: Payload := map["chunk_index" := Str("any")];
      && NoReservedKeys(extra)
      && Carries(ChunkPayload(about, stamp, k, point, total, aclTags, extra), k, point)
      && ChunkPayload(about, stamp, k, point, total, aclTags, extra)["chunk_index"] == Str("any")
  {
    var extra: Payload := map["chunk_index" := Str("any")];
    assert extra.Keys == {"chunk_index"};
    PayloadCarries(about, stamp, k, point, total, aclTags, extra);
  }
}
