/**
 The vector store and the writer in front of it. The store holds ids and payloads and knows
 nothing of jobs and documents; every writer method is proved to do to the points, as the run
 protocol sees them, what the function of the same meaning in module Stores says.
 */
module Qdrant {
  import opened Stores
  import S = Stores
  import opened Ids
  import opened Payloads
  import opened PointStores
  import opened Protocol
  import Metadata

  function Matching(f: Filter): Payload -> bool {
    p => FilterMatches(f, p)
  }

  /** The server: named collections, changed in place. */
  class QdrantClient {
    var collections: Collections<Payload>

    constructor ()
      ensures collections == map[]
    {
      collections := map[];
    }

    method CreateCollection(name: string, dim: nat)
      modifies this
      ensures collections == old(collections)[name := Collection(dim, map[])]
    {
      collections := collections[name := Collection(dim, map[])];
    }

    method DeleteCollection(name: string)
      modifies this
      ensures collections == old(collections) - {name}
    {
      collections := collections - {name};
    }

    method Upsert(name: string, points: seq<PointStruct<Payload>>)
      requires name in collections
      modifies this
      ensures collections == WithPoints(old(collections), name, Inserted(old(collections)[name].points, points))
    {
      var store := collections[name].points;
      for i := 0 to |points|
        invariant store == Inserted(collections[name].points, points[..i])
        invariant collections == old(collections)
      {
        assert points[..i + 1][..i] == points[..i];
        store := store[points[i].id := points[i].payload];
      }
      assert points[..|points|] == points;
      collections := WithPoints(collections, name, store);
    }

    /** Collects the matching ids first, then removes them one by one. */
    method Delete(name: string, f: Filter)
      requires name in collections
      modifies this
      ensures collections == WithPoints(old(collections), name, Remaining(old(collections)[name].points, Matching(f)))
    {
      ghost var before := collections[name].points;
      var store := collections[name].points;
      var doomed := set id | id in store && FilterMatches(f, store[id]);
      var left := doomed;
      while left != {}
        invariant left <= doomed
        invariant store == before - (doomed - left)
        invariant collections == old(collections)
      {
        var id :| id in left;
        store := store - {id};
        left := left - {id};
      }
      assert store == Remaining(before, Matching(f));
      collections := WithPoints(collections, name, store);
    }
  }

  function PointName(k: PointKey): Uuid {
    PointId(k.job, k.source, k.index)
  }

  ghost function PointMeaning(): Meaning<Payload> {
    Meaning(PointName, (p, k, point) => Carries(p, k, point))
  }

  lemma NamesDiffer()
    ensures Injective(PointMeaning().name)
  {
    forall j, k | PointName(j) == PointName(k) && j.coll == k.coll && Slug(j.job) && Slug(k.job) ensures j == k {
      PointIdInjective(j.job, j.source, j.index, k.job, k.source, k.index);
    }
  }

  function SourceText(p: Payload): string {
    if "source" in p && p["source"].Str? then p["source"].s else ""
  }

  /** A filter means a condition on points when it holds of exactly the payloads of such points. */
  ghost predicate Selects(m: Meaning<Payload>, f: Filter, gone: (PointKey, Point) -> bool) {
    forall p, k, point | m.says(p, k, point) :: FilterMatches(f, p) <==> gone(k, point)
  }

  ghost function OfSource(job: string, source: string): (PointKey, Point) -> bool {
    (k: PointKey, point: Point) => k.job == job && k.source == source
  }

  ghost function Stale(run: string, job: Option<string>): (PointKey, Point) -> bool {
    (k: PointKey, point: Point) => (job == None || k.job == job.value) && point.run != run
  }

  lemma SourceFilterSelects(job: string, source: string)
    ensures Selects(PointMeaning(), SourceFilter(job, source), OfSource(job, source))
  {
    forall p, k, point | PointMeaning().says(p, k, point)
      ensures FilterMatches(SourceFilter(job, source), p) <==> k.job == job && k.source == source
    {
      FiltersMeanScopes(p, k, point, job, source, "", None);
    }
  }

  lemma StaleFilterSelects(run: string, job: Option<string>)
    ensures Selects(PointMeaning(), StaleFilter(run, job), Stale(run, job))
  {
    forall p, k, point | PointMeaning().says(p, k, point)
      ensures FilterMatches(StaleFilter(run, job), p) <==> (job == None || k.job == job.value) && point.run != run
    {
      FiltersMeanScopes(p, k, point, "", "", run, job);
    }
  }

  lemma JobFilterSelects(job: string)
    ensures FindsJob(PointMeaning(), job)
  {
    forall p, k, point | PointMeaning().says(p, k, point)
      ensures (FilterMatches(JobFilter(job), p) <==> k.job == job) && SourceText(p) == k.source
    {
      FiltersMeanScopes(p, k, point, job, "", "", None);
    }
  }

  /** The job filter finds the job's points, and their payloads say their sources. */
  ghost predicate FindsJob(m: Meaning<Payload>, job: string) {
    forall p, k, point | m.says(p, k, point) ::
      (Matching(JobFilter(job))(p) <==> k.job == job) && SourceText(p) == k.source
  }

  /** All the writer needs of names and payloads: names differ and the filters mean what they should. */
  ghost predicate Meaningful(m: Meaning<Payload>) {
    && Injective(m.name)
    && (forall job, source :: Selects(m, SourceFilter(job, source), OfSource(job, source)))
    && (forall run, job :: Selects(m, StaleFilter(run, job), Stale(run, job)))
    && (forall job :: FindsJob(m, job))
  }

  /** Point ids and chunk payloads have what the writer needs. */
  lemma PointsAreMeaningful()
    ensures Meaningful(PointMeaning())
  {
    NamesDiffer();
    forall job, source ensures Selects(PointMeaning(), SourceFilter(job, source), OfSource(job, source)) {
      SourceFilterSelects(job, source);
    }
    forall run, job ensures Selects(PointMeaning(), StaleFilter(run, job), Stale(run, job)) {
      StaleFilterSelects(run, job);
    }
    forall job ensures FindsJob(PointMeaning(), job) {
      JobFilterSelects(job);
    }
  }

  /** Deleting by a filter that means `gone` leaves the points that are not gone. */
  lemma DeleteRepresents(m: Meaning<Payload>, cs: Collections<Payload>, points: Points, coll: string, f: Filter,
                         gone: (PointKey, Point) -> bool, kept: Points)
    requires Represents(m, cs, points) && coll in cs
    requires Selects(m, f, gone)
    requires kept == map k | k in points && !(k.coll == coll && gone(k, points[k])) :: points[k]
    ensures Represents(m, WithPoints(cs, coll, Remaining(cs[coll].points, Matching(f))), kept)
  {
    RemoveRepresents(m, cs, points, coll, Matching(f), kept);
  }

  lemma SourceRepresents(m: Meaning<Payload>, cs: Collections<Payload>, points: Points, coll: string, job: string,
                         source: string)
    requires Meaningful(m) && Represents(m, cs, points) && coll in cs
    ensures
      Represents(m, WithPoints(cs, coll, Remaining(cs[coll].points, Matching(SourceFilter(job, source)))),
                 S.DeleteBySource(points, coll, job, source))
  {
    DeleteRepresents(m, cs, points, coll, SourceFilter(job, source), OfSource(job, source),
                     S.DeleteBySource(points, coll, job, source));
  }

  lemma SweepRepresents(m: Meaning<Payload>, cs: Collections<Payload>, points: Points, coll: string, run: string,
                        job: Option<string>)
    requires Meaningful(m) && Represents(m, cs, points) && coll in cs
    ensures
      Represents(m, WithPoints(cs, coll, Remaining(cs[coll].points, Matching(StaleFilter(run, job)))),
                 Sweep(points, coll, job, run))
  {
    DeleteRepresents(m, cs, points, coll, StaleFilter(run, job), Stale(run, job), Sweep(points, coll, job, run));
  }

  lemma SameDimensions<P>(cs: Collections<P>, coll: string, store: map<Uuid, P>)
    requires coll in cs
    ensures Dims(WithPoints(cs, coll, store)) == Dims(cs)
  {
  }

  /** `points` is what the collections hold, seen as the run protocol sees it; `metas` the metadata collection. */
  class QdrantWriter {
    const client: QdrantClient
    var metas: map<string, string>
    ghost const meaning: Meaning<Payload>
    ghost var points: Points

    ghost predicate Valid()
      reads this, client
    {
      Meaningful(meaning) && Represents(meaning, client.collections, points)
    }

    function Dimensions(): map<string, nat>
      reads client
    {
      Dims(client.collections)
    }

    constructor (client: QdrantClient)
      requires client.collections == map[]
      ensures this.client == client && meaning == PointMeaning() && Valid() && points == map[] && metas == map[]
    {
      PointsAreMeaningful();
      this.client := client;
      metas := map[];
      meaning := PointMeaning();
      points := map[];
    }

    method UpsertPoints(coll: string, ps: seq<PointStruct<Payload>>,
                        ghost job: string, ghost source: string, ghost run: string, ghost chunks: seq<string>)
      requires Valid() && coll in client.collections && Slug(job)
      requires DocStructs(meaning, ps, coll, job, source, run, chunks)
      modifies this`points, client
      ensures Valid() && points == old(points) + DocPoints(coll, job, source, run, chunks)
      ensures Dimensions() == old(Dimensions())
      ensures client.collections == WithPoints(old(client.collections), coll,
                                               Inserted(old(client.collections)[coll].points, ps))
    {
      InsertRepresents(meaning, client.collections, points, ps, coll, job, source, run, chunks);
      points := points + DocPoints(coll, job, source, run, chunks);
      if ps != [] {
        client.Upsert(coll, ps);
      } else {
        assert WithPoints(client.collections, coll, Inserted(client.collections[coll].points, ps)) ==
               client.collections;
      }
    }

    method DeleteBySource(coll: string, job: string, source: string)
      requires Valid() && coll in client.collections
      modifies this`points, client
      ensures Valid() && points == S.DeleteBySource(old(points), coll, job, source)
      ensures Dimensions() == old(Dimensions())
    {
      SourceRepresents(meaning, client.collections, points, coll, job, source);
      SameDimensions(client.collections, coll,
                     Remaining(client.collections[coll].points, Matching(SourceFilter(job, source))));
      points := S.DeleteBySource(points, coll, job, source);
      client.Delete(coll, SourceFilter(job, source));
    }

    method SweepStale(coll: string, run: string, job: Option<string>)
      requires Valid() && coll in client.collections
      modifies this`points, client
      ensures Valid() && points == Sweep(old(points), coll, job, run)
      ensures Dimensions() == old(Dimensions())
    {
      SweepRepresents(meaning, client.collections, points, coll, run, job);
      SameDimensions(client.collections, coll,
                     Remaining(client.collections[coll].points, Matching(StaleFilter(run, job))));
      points := Sweep(points, coll, job, run);
      client.Delete(coll, StaleFilter(run, job));
    }

    /** The first half of `recreate_collection`. */
    method DropIfPresent(coll: string)
      requires Valid()
      modifies this`points, client
      ensures Valid() && points == DropCollection(old(points), coll)
      ensures Dimensions() == old(Dimensions()) - {coll}
    {
      DropRepresents(meaning, client.collections, points, coll);
      points := DropCollection(points, coll);
      if coll in client.collections {
        client.DeleteCollection(coll);
      } else {
        assert client.collections - {coll} == client.collections;
      }
    }

    /** The second half of `recreate_collection`, and of `ensure_collection` for a new one. */
    method Create(coll: string, dim: nat)
      requires Valid() && coll !in client.collections
      modifies this`points, client
      ensures Valid() && points == old(points) && Dimensions() == old(Dimensions())[coll := dim]
    {
      CreateRepresents(meaning, client.collections, points, coll, dim);
      client.CreateCollection(coll, dim);
    }

    /** What the metadata record says of the collection's model. */
    function Recorded(coll: string): Option<string>
      reads this
    {
      if coll in metas then Some(metas[coll]) else None
    }

    function Dimension(coll: string): Option<nat>
      reads client
    {
      if coll in client.collections then Some(client.collections[coll].dim) else None
    }

    /** The record, if there is one, names this model. */
    predicate Admits(coll: string, model: string)
      reads this
    {
      Recorded(coll).Some? && Recorded(coll).value != "" ==> Recorded(coll).value == model
    }

    /** Creates the collection, or answers why it cannot be used: the dimension is looked at first. */
    method EnsureCollection(coll: string, dim: nat, model: string) returns (verdict: Metadata.Verdict)
      requires Valid()
      modifies this`points, client
      ensures Valid() && points == old(points)
      ensures verdict == Metadata.Ensured(Metadata.Coll(old(Dimension(coll)), old(Recorded(coll)), map[]), dim, model)
      ensures verdict == Metadata.WrongDimension <==> coll in old(Dimensions()) && old(Dimensions())[coll] != dim
      ensures verdict == Metadata.WrongModel <==>
                && coll in old(Dimensions()) && old(Dimensions())[coll] == dim
                && coll in metas && metas[coll] != "" && metas[coll] != model
      ensures Dimensions() == if verdict.Granted? then old(Dimensions())[coll := dim] else old(Dimensions())
    {
      if coll !in client.collections {
        Create(coll, dim);
        verdict := Metadata.Granted;
      } else if client.collections[coll].dim != dim {
        verdict := Metadata.WrongDimension;
      } else {
        var recorded := Recorded(coll);
        verdict :=
          if recorded.Some? && recorded.value != "" && recorded.value != model then Metadata.WrongModel
          else Metadata.Granted;
      }
    }

    /** `upsert_meta`. */
    method UpsertMeta(coll: string, model: string)
      modifies this`metas
      ensures metas == old(metas)[coll := model]
    {
      metas := metas[coll := model];
    }

    /** `count_points` compared with zero. */
    method HasJobPoints(coll: string, job: string) returns (r: bool)
      requires Valid()
      ensures r <==> PointSources(points, coll, job) != {}
    {
      var sources := JobSources(coll, job);
      r := sources != {};
    }

    method JobSources(coll: string, job: string) returns (sources: set<string>)
      requires Valid()
      ensures sources == PointSources(points, coll, job)
    {
      if coll !in client.collections {
        NoCollectionNoSources(meaning, client.collections, points, coll, job);
        return {};
      }
      assert FindsJob(meaning, job);
      SourcesAgree(meaning, client.collections, points, coll, job, Matching(JobFilter(job)), SourceText);
      sources := SourcesFound(client.collections[coll].points, Matching(JobFilter(job)), SourceText);
    }

    /** `facet_sources`: beyond the limit the server answers with the sources it ranks first. */
    method FacetSources(coll: string, job: string, ranked: set<string>) returns (hits: set<string>)
      requires Valid()
      ensures hits == Facet(points, coll, job, ranked)
    {
      var all := JobSources(coll, job);
      hits := if |all| <= FACET_LIMIT then all else all * ranked;
    }
  }
}
