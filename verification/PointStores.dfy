/**
 How a store of ids and payloads stands for a set of points: every point is stored under its name
 with a payload that says which point it is, and nothing else is stored. What names and payloads
 look like does not matter here, only that names differ and what payloads say.
 */
module PointStores {
  import opened Stores
  import opened Ids

  datatype Collection<P> = Collection(dim: nat, points: map<Uuid, P>)

  type Collections<P> = map<string, Collection<P>>

  datatype PointStruct<P> = PointStruct(id: Uuid, payload: P)

  /** The naming of points, and when a payload says that it belongs to a point. */
  datatype Meaning<!P> = Meaning(name: PointKey -> Uuid, says: (P, PointKey, Point) -> bool)

  /** Within a collection, a name is the name of one point of one job. */
  ghost predicate Injective(name: PointKey -> Uuid) {
    forall j, k | name(j) == name(k) && j.coll == k.coll && Slug(j.job) && Slug(k.job) :: j == k
  }

  ghost predicate Named(name: PointKey -> Uuid, points: Points, coll: string, id: Uuid) {
    exists k :: k in points && k.coll == coll && name(k) == id
  }

  ghost predicate StoredAs<P>(m: Meaning<P>, cs: Collections<P>, k: PointKey, point: Point) {
    && Slug(k.job) && k.coll in cs && m.name(k) in cs[k.coll].points
    && m.says(cs[k.coll].points[m.name(k)], k, point)
  }

  /** The collections hold exactly these points. */
  ghost predicate Represents<P>(m: Meaning<P>, cs: Collections<P>, points: Points) {
    && (forall k | k in points :: StoredAs(m, cs, k, points[k]))
    && (forall coll, id | coll in cs && id in cs[coll].points :: Named(m.name, points, coll, id))
  }

  function Dims<P>(cs: Collections<P>): map<string, nat> {
    map c | c in cs :: cs[c].dim
  }

  function WithPoints<P>(cs: Collections<P>, coll: string, store: map<Uuid, P>): Collections<P>
    requires coll in cs
  {
    cs[coll := cs[coll].(points := store)]
  }

  /** The store after inserting the points in order, a later one replacing an earlier one. */
  function Inserted<P>(store: map<Uuid, P>, ps: seq<PointStruct<P>>): map<Uuid, P> {
    if ps == [] then store
    else Inserted(store, ps[..|ps| - 1])[ps[|ps| - 1].id := ps[|ps| - 1].payload]
  }

  function Remaining<P>(store: map<Uuid, P>, doomed: P -> bool): map<Uuid, P> {
    map id | id in store && !doomed(store[id]) :: store[id]
  }

  lemma PutRepresents<P>(m: Meaning<P>, cs: Collections<P>, points: Points, k: PointKey, point: Point, payload: P)
    requires Injective(m.name) && Represents(m, cs, points)
    requires k.coll in cs && Slug(k.job) && m.says(payload, k, point)
    ensures Represents(m, WithPoints(cs, k.coll, cs[k.coll].points[m.name(k) := payload]), points[k := point])
  {
    var cs' := WithPoints(cs, k.coll, cs[k.coll].points[m.name(k) := payload]);
    var points' := points[k := point];
    forall j | j in points' ensures StoredAs(m, cs', j, points'[j]) {
      assert j != k ==> StoredAs(m, cs, j, points[j]);
    }
    forall coll, id | coll in cs' && id in cs'[coll].points ensures Named(m.name, points', coll, id) {
      if coll == k.coll && id == m.name(k) {
        assert k in points';
      } else {
        assert Named(m.name, points, coll, id);
        var j :| j in points && j.coll == coll && m.name(j) == id;
        assert j in points';
      }
    }
  }

  /** The points one document is written as. */
  ghost predicate DocStructs<P>(m: Meaning<P>, ps: seq<PointStruct<P>>, coll: string, job: string, source: string,
                                run: string, chunks: seq<string>)
  {
    && |ps| == |chunks|
    && forall i | 0 <= i < |ps| ::
         && ps[i].id == m.name(PointKey(coll, job, source, i))
         && m.says(ps[i].payload, PointKey(coll, job, source, i), Point(run, chunks[i]))
  }

  lemma DocPointsGrow(points: Points, coll: string, job: string, source: string, run: string, chunks: seq<string>)
    requires chunks != []
    ensures
      var n := |chunks| - 1;
      points + DocPoints(coll, job, source, run, chunks) ==
        (points + DocPoints(coll, job, source, run, chunks[..n]))
          [PointKey(coll, job, source, n) := Point(run, chunks[n])]
  {
  }

  lemma InsertedLast<P>(cs: Collections<P>, coll: string, ps: seq<PointStruct<P>>)
    requires coll in cs && ps != []
    ensures
      var n := |ps| - 1;
      var before := WithPoints(cs, coll, Inserted(cs[coll].points, ps[..n]));
      WithPoints(before, coll, before[coll].points[ps[n].id := ps[n].payload]) ==
        WithPoints(cs, coll, Inserted(cs[coll].points, ps))
  {
  }

  /** Writing a document's points, one after the other, adds exactly the document's points. */
  lemma {:induction false} InsertRepresents<P>(m: Meaning<P>, cs: Collections<P>, points: Points,
                                               ps: seq<PointStruct<P>>, coll: string, job: string,
                                               source: string, run: string, chunks: seq<string>)
    requires Injective(m.name) && Represents(m, cs, points)
    requires coll in cs && Slug(job) && DocStructs(m, ps, coll, job, source, run, chunks)
    ensures Represents(m, WithPoints(cs, coll, Inserted(cs[coll].points, ps)),
                       points + DocPoints(coll, job, source, run, chunks))
    decreases |ps|
  {
    if ps == [] {
      assert WithPoints(cs, coll, Inserted(cs[coll].points, ps)) == cs;
      assert points + DocPoints(coll, job, source, run, chunks) == points;
    } else {
      var n := |ps| - 1;
      InsertRepresents(m, cs, points, ps[..n], coll, job, source, run, chunks[..n]);
      var cs' := WithPoints(cs, coll, Inserted(cs[coll].points, ps[..n]));
      var points' := points + DocPoints(coll, job, source, run, chunks[..n]);
      PutRepresents(m, cs', points', PointKey(coll, job, source, n), Point(run, chunks[n]), ps[n].payload);
      DocPointsGrow(points, coll, job, source, run, chunks);
      InsertedLast(cs, coll, ps);
    }
  }

  /** Of points with different ids, each is found in the store as it was given. */
  lemma {:induction false} InsertedIsFound<P>(store: map<Uuid, P>, ps: seq<PointStruct<P>>, i: nat)
    requires forall a, b | 0 <= a < b < |ps| :: ps[a].id != ps[b].id
    requires i < |ps|
    ensures ps[i].id in Inserted(store, ps) && Inserted(store, ps)[ps[i].id] == ps[i].payload
    decreases |ps|
  {
    if i < |ps| - 1 { InsertedIsFound(store, ps[..|ps| - 1], i); }
  }

  /** Deleting by what payloads say deletes the points it is said of, whatever their names. */
  lemma RemoveRepresents<P(!new)>(m: Meaning<P>, cs: Collections<P>, points: Points, coll: string, doomed: P -> bool,
                                  kept: Points)
    requires Represents(m, cs, points) && coll in cs
    requires kept.Keys <= points.Keys && forall k | k in kept :: kept[k] == points[k]
    requires forall k, p, point | m.says(p, k, point) && k in points && points[k] == point ::
               k in kept <==> !(k.coll == coll && doomed(p))
    ensures Represents(m, WithPoints(cs, coll, Remaining(cs[coll].points, doomed)), kept)
  {
    var cs' := WithPoints(cs, coll, Remaining(cs[coll].points, doomed));
    forall k | k in kept ensures StoredAs(m, cs', k, kept[k]) {
      assert StoredAs(m, cs, k, points[k]);
    }
    forall c, id | c in cs' && id in cs'[c].points ensures Named(m.name, kept, c, id) {
      assert Named(m.name, points, c, id);
      var k :| k in points && k.coll == c && m.name(k) == id;
      assert StoredAs(m, cs, k, points[k]);
      assert k in kept;
    }
  }

  lemma DropRepresents<P>(m: Meaning<P>, cs: Collections<P>, points: Points, coll: string)
    requires Represents(m, cs, points)
    ensures Represents(m, cs - {coll}, DropCollection(points, coll))
  {
    var kept := DropCollection(points, coll);
    forall k | k in kept ensures StoredAs(m, cs - {coll}, k, kept[k]) {
      assert StoredAs(m, cs, k, points[k]);
    }
    forall c, id | c in cs - {coll} && id in cs[c].points ensures Named(m.name, kept, c, id) {
      assert Named(m.name, points, c, id);
      var k :| k in points && k.coll == c && m.name(k) == id;
      assert k in kept;
    }
  }

  lemma CreateRepresents<P>(m: Meaning<P>, cs: Collections<P>, points: Points, coll: string, dim: nat)
    requires Represents(m, cs, points) && coll !in cs
    ensures Represents(m, cs[coll := Collection(dim, map[])], points)
  {
    forall k | k in points ensures StoredAs(m, cs[coll := Collection(dim, map[])], k, points[k]) {
      assert StoredAs(m, cs, k, points[k]);
    }
  }

  /** What the payloads of a job's points say their sources are. */
  function SourcesFound<P>(store: map<Uuid, P>, ofJob: P -> bool, source: P -> string): set<string> {
    set id | id in store && ofJob(store[id]) :: source(store[id])
  }

  lemma SourcesAgree<P(!new)>(m: Meaning<P>, cs: Collections<P>, points: Points, coll: string, job: string,
                        ofJob: P -> bool, source: P -> string)
    requires Represents(m, cs, points) && coll in cs
    requires forall p, k, point | m.says(p, k, point) :: (ofJob(p) <==> k.job == job) && source(p) == k.source
    ensures SourcesFound(cs[coll].points, ofJob, source) == PointSources(points, coll, job)
  {
    var store := cs[coll].points;
    forall s | s in SourcesFound(store, ofJob, source) ensures s in PointSources(points, coll, job) {
      var id :| id in store && ofJob(store[id]) && source(store[id]) == s;
      assert Named(m.name, points, coll, id);
      var k :| k in points && k.coll == coll && m.name(k) == id;
      assert StoredAs(m, cs, k, points[k]);
    }
    forall s | s in PointSources(points, coll, job) ensures s in SourcesFound(store, ofJob, source) {
      var k :| k in points && k.coll == coll && k.job == job && k.source == s;
      assert StoredAs(m, cs, k, points[k]);
    }
  }

  lemma NoCollectionNoSources<P>(m: Meaning<P>, cs: Collections<P>, points: Points, coll: string, job: string)
    requires Represents(m, cs, points) && coll !in cs
    ensures PointSources(points, coll, job) == {}
  {
    assert forall k | k in points :: StoredAs(m, cs, k, points[k]);
  }
}
