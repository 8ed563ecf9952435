/** Which faces a clustering run gives to a person: those of clusters seen in ten different media. */
module FacePromotion {
  import opened Prelude
  import opened ChineseWhispers
  import opened FaceGraph
  import opened FaceClustering
  import opened FaceFates

  type Rows = map<string, FaceRow>

  /** Faces of the list, each found in a medium of its own. */
  ghost predicate DifferentMedia(rows: Rows, ids: seq<string>, found: seq<string>) {
    && (forall x :: 0 <= x < |found| ==> found[x] in ids && found[x] in rows)
    && (forall x, y :: 0 <= x < y < |found| ==> rows[found[x]].mediaRef != rows[found[y]].mediaRef)
  }

  /** Ten of the listed faces were found in pairwise different media. */
  ghost predicate InTenMedia(rows: Rows, ids: seq<string>) {
    exists ten :: |ten| == 10 && DifferentMedia(rows, ids, ten)
  }

  // ---------------------------------------------------------------------------
  // Large clusters are those seen in ten media
  // ---------------------------------------------------------------------------

  /** The media of the listed faces. */
  ghost function MediaRefs(rows: Rows, ids: seq<string>): set<string> {
    set id | id in ids && id in rows :: rows[id].mediaRef
  }

  lemma MediaAreRefs(faces: seq<Face>, rows: Rows, ids: seq<string>)
    requires ListsRows(faces, rows) && forall id :: id in ids ==> id in rows
    ensures MediaOf(ids, MediaMap(faces)) == MediaRefs(rows, ids)
  {
    MediaMapFacts(faces);
    hide MediaMap;
    forall id | id in ids ensures id in MediaMap(faces) && MediaMap(faces)[id] == rows[id].mediaRef {
      assert HasId(faces, id);
    }
  }

  lemma {:induction false} PickMedia(rows: Rows, ids: seq<string>, refs: set<string>, n: nat)
    returns (found: seq<string>)
    requires refs <= MediaRefs(rows, ids) && |refs| >= n
    ensures |found| == n && DifferentMedia(rows, ids, found)
    ensures forall x :: 0 <= x < |found| ==> rows[found[x]].mediaRef in refs
  {
    found := [];
    if n > 0 {
      var ref :| ref in refs;
      var id :| id in ids && id in rows && rows[id].mediaRef == ref;
      found := PickMedia(rows, ids, refs - {ref}, n - 1);
      found := found + [id];
    }
  }

  lemma MediaCounted(rows: Rows, ids: seq<string>, found: seq<string>)
    requires DifferentMedia(rows, ids, found)
    ensures |MediaRefs(rows, ids)| >= |found|
  {
    var refs := seq(|found|, x requires 0 <= x < |found| => rows[found[x]].mediaRef);
    DistinctCount(refs);
    var some := set r | r in refs;
    assert some <= MediaRefs(rows, ids);
    assert MediaRefs(rows, ids) == some + (MediaRefs(rows, ids) - some);
  }

  /** A cluster is large exactly when ten of its faces were found in pairwise different media. */
  lemma LargeIffTenMedia(faces: seq<Face>, rows: Rows, ids: seq<string>)
    requires ListsRows(faces, rows) && forall id :: id in ids ==> id in rows
    ensures Large(ids, MediaMap(faces)) <==> InTenMedia(rows, ids)
  {
    MediaAreRefs(faces, rows, ids);
    if |MediaRefs(rows, ids)| >= 10 {
      var ten := PickMedia(rows, ids, MediaRefs(rows, ids), 10);
    }
    if ten :| |ten| == 10 && DifferentMedia(rows, ids, ten) {
      MediaCounted(rows, ids, ten);
    }
  }

  // ---------------------------------------------------------------------------
  // Whom a run promotes
  // ---------------------------------------------------------------------------

  /** The face is in the cluster, or its row came with the cluster's id. */
  predicate Claims(t: Tables, clusters: Clusters, c: string, f: string) {
    f in t.unassigned && c in clusters && (f in clusters[c] || t.unassigned[f].cluster == Some(c))
  }

  /** Once the clusters of the order are disposed of: who has a person, and which ids the other rows carry. */
  ghost predicate Placed(t: Tables, t1: Tables, order: seq<string>, clusters: Clusters, media: map<string, string>,
                         personOf: map<string, nat>, f: string)
    requires f in t.unassigned && personOf.Keys == clusters.Keys
  {
    if f in t1.people then
      f !in t1.unassigned && exists c :: GivenBy(t, t1, order, clusters, media, personOf, f, c)
    else
      && f in t1.unassigned
      && (t1.unassigned[f].cluster == t.unassigned[f].cluster || CarriesOwn(t1, order, clusters, f))
  }

  /** The person of the face is that of a large cluster that claims it. */
  ghost predicate GivenBy(t: Tables, t1: Tables, order: seq<string>, clusters: Clusters, media: map<string, string>,
                          personOf: map<string, nat>, f: string, c: string)
    requires personOf.Keys == clusters.Keys && f in t1.people
  {
    c in order && Claims(t, clusters, c, f) && Large(clusters[c], media) && t1.people[f] == personOf[c]
  }

  /** The row carries the id of one of the clusters disposed of, and is in that cluster. */
  ghost predicate CarriesOwn(t1: Tables, order: seq<string>, clusters: Clusters, f: string)
    requires f in t1.unassigned
  {
    && t1.unassigned[f].cluster.Some? && t1.unassigned[f].cluster.value in order
    && t1.unassigned[f].cluster.value in clusters && f in clusters[t1.unassigned[f].cluster.value]
  }

  lemma PlacedNext(t: Tables, t1: Tables, order: seq<string>, clusters: Clusters, media: map<string, string>,
                   personOf: map<string, nat>, c: string, f: string)
    requires f in t.unassigned && personOf.Keys == clusters.Keys && c in clusters && c !in order
    requires t1.unassigned.Keys !! t1.people.Keys && Placed(t, t1, order, clusters, media, personOf, f)
    ensures Placed(t, DisposeOne(t1, c, clusters[c], media, personOf[c]), order + [c], clusters, media, personOf, f)
  {
    var t2 := DisposeOne(t1, c, clusters[c], media, personOf[c]);
    hide MediaOf;
    if f in t1.people {
      var d :| GivenBy(t, t1, order, clusters, media, personOf, f, d);
      assert GivenBy(t, t2, order + [c], clusters, media, personOf, f, d);
    } else if f in t2.people {
      assert GivenBy(t, t2, order + [c], clusters, media, personOf, f, c);
    }
  }

  lemma {:induction false} AllPlaced(t: Tables, order: seq<string>, clusters: Clusters, media: map<string, string>,
                                     personOf: map<string, nat>, f: string)
    requires t.unassigned.Keys !! t.people.Keys && f in t.unassigned && personOf.Keys == clusters.Keys
    requires Distinct(order) && forall c :: c in order ==> c in clusters
    ensures Placed(t, DisposeAll(t, order, clusters, media, personOf), order, clusters, media, personOf, f)
  {
    if order != [] {
      var init, c := order[..|order| - 1], order[|order| - 1];
      assert order == init + [c];
      AllPlaced(t, init, clusters, media, personOf, f);
      DisposeConserves(t, init, clusters, media, personOf);
      PlacedNext(t, DisposeAll(t, init, clusters, media, personOf), init, clusters, media, personOf, c, f);
    }
  }

  lemma LargeGetsPerson(t1: Tables, c: string, ids: seq<string>, media: map<string, string>, person: nat, f: string)
    requires f in t1.people || f in t1.unassigned
    requires Large(ids, media) && f in ids
    ensures f in DisposeOne(t1, c, ids, media, person).people
  {
    hide MediaOf;
    if f in t1.unassigned { assert f in Captured(Assign(t1, ids, c), c); }
  }

  /** The members of a large cluster end with a person. */
  lemma {:induction false} MembersPromoted(t: Tables, order: seq<string>, clusters: Clusters,
                                           media: map<string, string>, personOf: map<string, nat>, c: string, f: string)
    requires t.unassigned.Keys !! t.people.Keys && f in t.unassigned && personOf.Keys == clusters.Keys
    requires forall d :: d in order ==> d in clusters
    requires c in order && f in clusters[c] && Large(clusters[c], media)
    ensures f in DisposeAll(t, order, clusters, media, personOf).people
  {
    var init, last := order[..|order| - 1], order[|order| - 1];
    assert order == init + [last];
    var before := DisposeAll(t, init, clusters, media, personOf);
    DisposeConserves(t, init, clusters, media, personOf);
    DisposeOneConserves(before, last, clusters[last], media, personOf[last]);
    hide DisposeOne, Large;
    if last == c {
      LargeGetsPerson(before, c, clusters[c], media, personOf[c], f);
    } else {
      MembersPromoted(t, init, clusters, media, personOf, c, f);
    }
  }

  /** A run gives a person to every face of a cluster seen in ten different media. */
  lemma TenMediaGetPerson(t: Tables, faces: seq<Face>, order: seq<string>, clusters: Clusters,
                          personOf: map<string, nat>, c: string, f: string)
    requires WellFormed(t, clusters, personOf) && ListsRows(faces, t.unassigned) && Visited(order, clusters)
    requires c in clusters && f in clusters[c] && InTenMedia(t.unassigned, clusters[c])
    ensures f in RunResult(t, faces, order, clusters, personOf).people
  {
    LargeIffTenMedia(faces, t.unassigned, clusters[c]);
    MembersPromoted(t, order, clusters, MediaMap(faces), personOf, c, f);
  }

  /** A face gets a person only from a cluster seen in ten media that it is in or whose id its row carried. */
  lemma PersonNeedsTenMedia(t: Tables, faces: seq<Face>, order: seq<string>, clusters: Clusters,
                            personOf: map<string, nat>, f: string) returns (c: string)
    requires WellFormed(t, clusters, personOf) && ListsRows(faces, t.unassigned) && Visited(order, clusters)
    requires f in t.unassigned && f in RunResult(t, faces, order, clusters, personOf).people
    ensures Claims(t, clusters, c, f) && InTenMedia(t.unassigned, clusters[c])
    ensures RunResult(t, faces, order, clusters, personOf).people[f] == personOf[c]
  {
    var t1 := DisposeAll(t, order, clusters, MediaMap(faces), personOf);
    AllPlaced(t, order, clusters, MediaMap(faces), personOf, f);
    c :| GivenBy(t, t1, order, clusters, MediaMap(faces), personOf, f, c);
    LargeIffTenMedia(faces, t.unassigned, clusters[c]);
  }

  /** A face whose row carries no current id gets a person exactly when its cluster was seen in ten different media. */
  lemma PromotedIffTenMedia(t: Tables, faces: seq<Face>, order: seq<string>, clusters: Clusters,
                            personOf: map<string, nat>, c: string, f: string)
    requires WellFormed(t, clusters, personOf) && ListsRows(faces, t.unassigned) && Visited(order, clusters)
    requires c in clusters && f in clusters[c] && !CarriesCurrentId(t.unassigned[f], clusters)
    ensures f in RunResult(t, faces, order, clusters, personOf).people <==> InTenMedia(t.unassigned, clusters[c])
  {
    if f in RunResult(t, faces, order, clusters, personOf).people {
      var d := PersonNeedsTenMedia(t, faces, order, clusters, personOf, f);
      assert d == c;
    } else if InTenMedia(t.unassigned, clusters[c]) {
      TenMediaGetPerson(t, faces, order, clusters, personOf, c, f);
      assert false;
    }
  }

  /** The persons created are as many as the clusters seen in ten different media. */
  lemma CreatedIsTenMedia(t: Tables, faces: seq<Face>, clusters: Clusters, personOf: map<string, nat>)
    requires WellFormed(t, clusters, personOf) && ListsRows(faces, t.unassigned)
    ensures PromotedClusters(clusters, MediaMap(faces)) ==
            set c | c in clusters && InTenMedia(t.unassigned, clusters[c])
  {
    forall c | c in clusters ensures Large(clusters[c], MediaMap(faces)) <==> InTenMedia(t.unassigned, clusters[c]) {
      LargeIffTenMedia(faces, t.unassigned, clusters[c]);
    }
  }

  lemma TwoMedia(rows: Rows, ids: seq<string>, found: seq<string>)
    requires DifferentMedia(rows, ids, found) && |found| > 1
    ensures exists a, b :: a in ids && b in ids && a in rows && b in rows && rows[a].mediaRef != rows[b].mediaRef
  {
    assert rows[found[0]].mediaRef != rows[found[1]].mediaRef;
  }

  /** However many faces of one medium a cluster has, it was not seen in ten. */
  lemma OneMediumIsNotTen(rows: Rows, ids: seq<string>, medium: string)
    requires forall id :: id in ids && id in rows ==> rows[id].mediaRef == medium
    ensures !InTenMedia(rows, ids)
  {
    forall found | DifferentMedia(rows, ids, found) ensures |found| <= 1 {
      if |found| > 1 { TwoMedia(rows, ids, found); }
    }
  }
}
