/**
 * What becomes of every unassigned face when clustering runs: promoted with its
 * cluster to a new person, staged under a cluster id, or only marked processed.
 * Promotion works by cluster id on the whole table, so rows that still carry a
 * cluster id from an earlier run can be swept along; FaceFates gives the exact
 * condition under which that does no harm.
 */
module FaceClustering {
  import opened Prelude
  import opened ChineseWhispers
  import opened FaceGraph

  const MIN_MEDIA: nat := 10
  const MIN_FACES: nat := 3

  /** A row of the table of unassigned faces. */
  datatype FaceRow = FaceRow(mediaRef: string, embedding: Embedding, confidence: real,
                             cluster: Option<string>, processed: bool)

  function RowFace(id: string, row: FaceRow): Face {
    Face(id, row.mediaRef, row.embedding, row.confidence)
  }

  /** Unassigned faces, and the person each promoted face belongs to. */
  datatype Tables = Tables(unassigned: map<string, FaceRow>, people: map<string, nat>)

  type Clusters = map<string, seq<string>>

  // ---------------------------------------------------------------------------
  // The three updates
  // ---------------------------------------------------------------------------

  function Assign(t: Tables, ids: seq<string>, c: string): Tables {
    t.(unassigned := map f | f in t.unassigned ::
      if f in ids then t.unassigned[f].(cluster := Some(c), processed := true) else t.unassigned[f])
  }

  function Mark(t: Tables, ids: seq<string>): Tables {
    t.(unassigned := map f | f in t.unassigned ::
      if f in ids then t.unassigned[f].(processed := true) else t.unassigned[f])
  }

  function Captured(t: Tables, c: string): set<string> {
    set f | f in t.unassigned && t.unassigned[f].cluster == Some(c)
  }

  /** Moves every row carrying the cluster id, whoever put it there. */
  function Promote(t: Tables, c: string, person: nat): Tables {
    var captured := Captured(t, c);
    Tables(t.unassigned - captured, t.people + map f | f in captured :: person)
  }

  function MediaOf(ids: seq<string>, media: map<string, string>): set<string> {
    set id | id in ids && id in media :: media[id]
  }

  predicate Large(ids: seq<string>, media: map<string, string>) {
    |MediaOf(ids, media)| >= MIN_MEDIA
  }

  function DisposeOne(t: Tables, c: string, ids: seq<string>, media: map<string, string>, person: nat): Tables {
    if Large(ids, media) then Promote(Assign(t, ids, c), c, person)
    else if |ids| >= 2 then Assign(t, ids, c)
    else t
  }

  /** The clusters disposed of in the given order. */
  function DisposeAll(t: Tables, order: seq<string>, clusters: Clusters, media: map<string, string>,
                      personOf: map<string, nat>): Tables
    requires forall c :: c in order ==> c in clusters && c in personOf
  {
    if order == [] then t
    else
      var c := order[|order| - 1];
      assert c in order;
      DisposeOne(DisposeAll(t, order[..|order| - 1], clusters, media, personOf), c, clusters[c], media, personOf[c])
  }

  predicate InSomeCluster(f: string, clusters: Clusters) {
    exists c :: c in clusters && f in clusters[c]
  }

  /** The listed faces that ended in no cluster. */
  function Singles(faces: seq<string>, clusters: Clusters): seq<string> {
    if faces == [] then []
    else Singles(faces[..|faces| - 1], clusters)
         + (if InSomeCluster(faces[|faces| - 1], clusters) then [] else [faces[|faces| - 1]])
  }

  lemma {:induction false} SinglesAre(faces: seq<string>, clusters: Clusters)
    ensures forall f :: f in Singles(faces, clusters) <==> f in faces && !InSomeCluster(f, clusters)
  {
    if faces != [] { SinglesAre(faces[..|faces| - 1], clusters); }
  }

  // ---------------------------------------------------------------------------
  // The operation
  // ---------------------------------------------------------------------------

  class FaceStore {
    var unassigned: map<string, FaceRow>
    var people: map<string, nat>

    ghost function State(): Tables
      reads this
    {
      Tables(unassigned, people)
    }

    constructor ()
      ensures State() == Tables(map[], map[])
    {
      unassigned, people := map[], map[];
    }

    /** All rows, whatever their cluster id or processed flag, in some order. */
    method GetAllUnassignedFaces() returns (faces: seq<Face>)
      ensures ListsRows(faces, unassigned)
    {
      faces := [];
      var left := unassigned.Keys;
      while left != {}
        invariant left <= unassigned.Keys
        invariant ListsRows(faces, unassigned - left)
        decreases left
      {
        var f :| f in left;
        ghost var before := faces;
        faces := faces + [RowFace(f, unassigned[f])];
        left := left - {f};
        forall g | g in unassigned - left ensures HasId(faces, g) {
          if g == f {
            assert faces[|before|].id == g;
          } else {
            assert HasId(before, g);
            var i :| 0 <= i < |before| && before[i].id == g;
            assert faces[i].id == g;
          }
        }
      }
      assert unassigned - {} == unassigned;
    }

    /** The listed rows that exist get the id and the flag; nothing else changes. */
    method AssignClusterToFaces(faceIds: seq<string>, clusterId: string)
      modifies this`unassigned
      ensures unassigned.Keys == old(unassigned).Keys
      ensures forall f :: f in unassigned && f !in faceIds ==> unassigned[f] == old(unassigned)[f]
      ensures forall f :: f in unassigned && f in faceIds ==>
        unassigned[f] == old(unassigned)[f].(cluster := Some(clusterId), processed := true)
    {
      unassigned := map f | f in unassigned ::
        if f in faceIds then unassigned[f].(cluster := Some(clusterId), processed := true) else unassigned[f];
    }

    /** The listed rows that exist get the flag and keep their cluster id; nothing else changes. */
    method MarkFacesAsProcessed(faceIds: seq<string>)
      modifies this`unassigned
      ensures unassigned.Keys == old(unassigned).Keys
      ensures forall f :: f in unassigned && f !in faceIds ==> unassigned[f] == old(unassigned)[f]
      ensures forall f :: f in unassigned && f in faceIds ==> unassigned[f] == old(unassigned)[f].(processed := true)
    {
      unassigned := map f | f in unassigned ::
        if f in faceIds then unassigned[f].(processed := true) else unassigned[f];
    }

    /** No row carries the id any more; the rows that did are the person's, other rows and faces are as before. */
    method PromoteClusterToPerson(clusterId: string, personId: nat)
      modifies this
      ensures forall f :: f in unassigned <==> f in old(unassigned) && old(unassigned)[f].cluster != Some(clusterId)
      ensures forall f :: f in unassigned ==> unassigned[f] == old(unassigned)[f]
      ensures forall f :: f in old(unassigned) && f !in unassigned ==> f in people && people[f] == personId
      ensures forall f :: f !in old(unassigned) || f in unassigned ==>
        (f in people <==> f in old(people)) && (f in people ==> people[f] == old(people)[f])
    {
      var captured := set f | f in unassigned && unassigned[f].cluster == Some(clusterId);
      people := people + map f | f in captured :: personId;
      unassigned := unassigned - captured;
    }

    /** Assign, then promote if the cluster spans enough media. */
    method DisposeCluster(clusterId: string, faceIds: seq<string>, media: map<string, string>, person: nat)
      returns (promoted: bool)
      modifies this
      ensures State() == DisposeOne(old(State()), clusterId, faceIds, media, person)
      ensures promoted <==> Large(faceIds, media)
    {
      hide Assign, Promote, Large;
      promoted := Large(faceIds, media);
      ghost var t := State();
      if promoted {
        AssignClusterToFaces(faceIds, clusterId);
        AssignedRows(t, faceIds, clusterId, unassigned);
        ghost var u := State();
        PromoteClusterToPerson(clusterId, person);
        PromotedRows(u, clusterId, person, unassigned, people);
      } else if |faceIds| >= 2 {
        AssignClusterToFaces(faceIds, clusterId);
        AssignedRows(t, faceIds, clusterId, unassigned);
      }
    }

    /** All clusters, in no particular order, each promoted one under a person id never used before. */
    method DisposeClusters(clusters: Clusters, media: map<string, string>, usedPersons: set<nat>)
      returns (created: nat, ghost order: seq<string>, ghost personOf: map<string, nat>)
      modifies this
      ensures Visited(order, clusters)
      ensures FreshPersons(personOf, clusters, usedPersons)
      ensures State() == DisposeAll(old(State()), order, clusters, media, personOf)
      ensures created == |PromotedClusters(clusters, media)|
    {
      hide DisposeOne, Large, PromotedClusters;
      NoneYet(media, usedPersons);
      order, personOf, created := [], map[], 0;
      var used := usedPersons;
      var left := clusters.Keys;
      ghost var seen: Clusters := map[];
      while left != {}
        invariant left <= clusters.Keys
        invariant seen.Keys == clusters.Keys - left && forall c :: c in seen ==> seen[c] == clusters[c]
        invariant Visited(order, seen) && FreshPersons(personOf, seen, usedPersons)
        invariant usedPersons <= used && personOf.Values <= used
        invariant State() == DisposeAll(old(State()), order, clusters, media, personOf)
        invariant created == |PromotedClusters(seen, media)|
        decreases left
      {
        var clusterId :| clusterId in left;
        var person := Fresh(used);
        var ids := clusters[clusterId];
        OrderGrows(old(State()), order, clusters, media, personOf, clusterId, person);
        StepBookkeeping(order, personOf, seen, clusterId, ids, person, media, usedPersons);
        var large := DisposeCluster(clusterId, ids, media, person);
        created := created + if large then 1 else 0;
        left := left - {clusterId};
        seen := seen[clusterId := ids];
        used := used + {person};
        personOf := personOf[clusterId := person];
        order := order + [clusterId];
      }
      assert seen == clusters;
    }

    method ClusterUnassignedFaces(threshold: real, usedPersons: set<nat>)
      returns (created: nat, ghost faces: seq<Face>, ghost clusters: Clusters, ghost converged: bool,
               ghost order: seq<string>, ghost personOf: map<string, nat>)
      modifies this
      ensures ListsRows(faces, old(unassigned))
      ensures |old(unassigned)| < 3 ==> State() == old(State()) && created == 0
      ensures |old(unassigned)| >= 3 ==>
        && IsClustering(faces, threshold, clusters)
        && (converged ==> IsStableClustering(faces, threshold, clusters))
        && Visited(order, clusters)
        && FreshPersons(personOf, clusters, usedPersons)
        && State() == RunResult(old(State()), faces, order, clusters, personOf)
        && created == |PromotedClusters(clusters, MediaMap(faces))|
    {
      hide IsClustering, IsStableClustering, DisposeAll, MediaMap, Singles, PromotedClusters;
      clusters, converged, order, personOf, created := map[], false, [], map[], 0;
      var all := GetAllUnassignedFaces();
      faces := all;
      ListLength(all, unassigned);
      if |all| < MIN_FACES { return; }
      var found;
      found, converged := Cluster(all, threshold);
      clusters := found;
      created, order, personOf := DisposeClusters(found, MediaMap(all), usedPersons);
      ghost var disposed := State();
      MarkFacesAsProcessed(Singles(Ids(all), found));
      assert State() == Mark(disposed, Singles(Ids(all), found));
    }
  }

  lemma AssignedRows(t: Tables, ids: seq<string>, c: string, rows: map<string, FaceRow>)
    requires rows.Keys == t.unassigned.Keys
    requires forall f :: f in rows && f !in ids ==> rows[f] == t.unassigned[f]
    requires forall f :: f in rows && f in ids ==>
      rows[f] == t.unassigned[f].(cluster := Some(c), processed := true)
    ensures t.(unassigned := rows) == Assign(t, ids, c)
  {
  }

  lemma PromotedRows(t: Tables, c: string, person: nat, rows: map<string, FaceRow>, people: map<string, nat>)
    requires forall f :: f in rows <==> f in t.unassigned && t.unassigned[f].cluster != Some(c)
    requires forall f :: f in rows ==> rows[f] == t.unassigned[f]
    requires forall f :: f in t.unassigned && f !in rows ==> f in people && people[f] == person
    requires forall f :: f !in t.unassigned || f in rows ==>
      (f in people <==> f in t.people) && (f in people ==> people[f] == t.people[f])
    ensures Tables(rows, people) == Promote(t, c, person)
  {
    assert rows == Promote(t, c, person).unassigned;
    assert people == Promote(t, c, person).people;
  }

  /** Every cluster once. */
  ghost predicate Visited(order: seq<string>, clusters: Clusters) {
    Distinct(order) && forall c :: c in order <==> c in clusters
  }

  lemma NoneYet(media: map<string, string>, used: set<nat>)
    ensures FreshPersons(map[], map[], used) && |PromotedClusters(map[], media)| == 0
  {
  }

  lemma VisitedGrows(order: seq<string>, seen: Clusters, c: string, ids: seq<string>)
    requires Visited(order, seen) && c !in seen
    ensures Visited(order + [c], seen[c := ids])
  {
  }

  lemma PersonsGrow(personOf: map<string, nat>, seen: Clusters, c: string, ids: seq<string>, person: nat,
                    used: set<nat>)
    requires FreshPersons(personOf, seen, used) && c !in seen
    requires person !in used && person !in personOf.Values
    ensures FreshPersons(personOf[c := person], seen[c := ids], used)
  {
    forall d | d in personOf ensures personOf[d] != person {
      assert personOf[d] in personOf.Values;
    }
  }

  lemma StepBookkeeping(order: seq<string>, personOf: map<string, nat>, seen: Clusters, c: string, ids: seq<string>,
                        person: nat, media: map<string, string>, usedPersons: set<nat>)
    requires Visited(order, seen) && FreshPersons(personOf, seen, usedPersons) && c !in seen
    requires person !in usedPersons && person !in personOf.Values
    ensures Visited(order + [c], seen[c := ids])
    ensures FreshPersons(personOf[c := person], seen[c := ids], usedPersons)
    ensures |PromotedClusters(seen[c := ids], media)|
         == |PromotedClusters(seen, media)| + if Large(ids, media) then 1 else 0
  {
    VisitedGrows(order, seen, c, ids);
    PersonsGrow(personOf, seen, c, ids, person, usedPersons);
    PromotedGrows(seen, c, ids, media);
  }

  lemma PromotedGrows(seen: Clusters, c: string, ids: seq<string>, media: map<string, string>)
    requires c !in seen
    ensures |PromotedClusters(seen[c := ids], media)|
         == |PromotedClusters(seen, media)| + if Large(ids, media) then 1 else 0
  {
    var before := PromotedClusters(seen, media);
    assert PromotedClusters(seen[c := ids], media) == before + if Large(ids, media) then {c} else {};
  }

  ghost function PromotedClusters(clusters: Clusters, media: map<string, string>): set<string> {
    set c | c in clusters && Large(clusters[c], media)
  }

  function Ids(faces: seq<Face>): (ids: seq<string>)
    ensures |ids| == |faces| && forall i :: 0 <= i < |faces| ==> ids[i] == faces[i].id
  {
    seq(|faces|, i requires 0 <= i < |faces| => faces[i].id)
  }

  function MediaMap(faces: seq<Face>): map<string, string> {
    if faces == [] then map[]
    else MediaMap(faces[..|faces| - 1])[faces[|faces| - 1].id := faces[|faces| - 1].mediaRef]
  }

  ghost predicate HasId(faces: seq<Face>, f: string) {
    exists i :: 0 <= i < |faces| && faces[i].id == f
  }

  /** The list holds every row of the table once. */
  ghost predicate ListsRows(faces: seq<Face>, rows: map<string, FaceRow>) {
    && (forall f :: f in rows <==> HasId(faces, f))
    && (forall i :: 0 <= i < |faces| ==> faces[i].id in rows && faces[i] == RowFace(faces[i].id, rows[faces[i].id]))
    && (forall a, b :: 0 <= a < b < |faces| ==> faces[a].id != faces[b].id)
  }

  lemma ListLength(faces: seq<Face>, rows: map<string, FaceRow>)
    requires ListsRows(faces, rows)
    ensures |faces| == |rows|
  {
    var ids := Ids(faces);
    DistinctCount(ids);
    forall f ensures f in (set x | x in ids) <==> f in rows.Keys {
      if f in rows {
        assert HasId(faces, f);
        var i :| 0 <= i < |faces| && faces[i].id == f;
        assert ids[i] == f;
      }
    }
    assert (set x | x in ids) == rows.Keys;
  }

  /** Each cluster got a person of its own, new to the library. */
  ghost predicate FreshPersons(personOf: map<string, nat>, clusters: Clusters, used: set<nat>) {
    && personOf.Keys == clusters.Keys
    && (forall c :: c in personOf ==> personOf[c] !in used)
    && (forall c, d :: c in personOf && d in personOf && personOf[c] == personOf[d] ==> c == d)
  }

  /** Everything one run does to the tables. */
  function RunResult(t: Tables, faces: seq<Face>, order: seq<string>, clusters: Clusters,
                     personOf: map<string, nat>): Tables
    requires forall c :: c in order ==> c in clusters && c in personOf
  {
    Mark(DisposeAll(t, order, clusters, MediaMap(faces), personOf), Singles(Ids(faces), clusters))
  }

  /** Giving a person to a cluster not yet in the order changes nothing already done. */
  lemma {:induction false} PersonsIrrelevant(t: Tables, order: seq<string>, clusters: Clusters,
                                             media: map<string, string>, personOf: map<string, nat>, c: string,
                                             person: nat)
    requires forall d :: d in order ==> d in clusters && d in personOf
    requires c !in order
    ensures DisposeAll(t, order, clusters, media, personOf[c := person])
         == DisposeAll(t, order, clusters, media, personOf)
  {
    if order != [] {
      var last := order[|order| - 1];
      assert last in order && last != c;
      assert forall d :: d in order[..|order| - 1] ==> d in order;
      PersonsIrrelevant(t, order[..|order| - 1], clusters, media, personOf, c, person);
    }
  }

  lemma OrderGrows(t: Tables, order: seq<string>, clusters: Clusters, media: map<string, string>,
                   personOf: map<string, nat>, c: string, person: nat)
    requires forall d :: d in order ==> d in clusters && d in personOf
    requires c !in order && c in clusters
    ensures forall d :: d in order + [c] ==> d in clusters && d in personOf[c := person]
    ensures DisposeAll(t, order + [c], clusters, media, personOf[c := person])
      == DisposeOne(DisposeAll(t, order, clusters, media, personOf), c, clusters[c], media, person)
  {
    PersonsIrrelevant(t, order, clusters, media, personOf, c, person);
    assert (order + [c])[..|order|] == order;
  }
}
