/** Where every face ends up after a clustering run, and when that is where it should. */
module FaceFates {
  import opened Prelude
  import opened ChineseWhispers
  import opened FaceGraph
  import opened Graphs
  import opened FaceClustering

  /** No face is lost, duplicated or moved back, whatever the clusters and stale ids. */
  ghost predicate Conserves(t: Tables, t': Tables) {
    && t'.unassigned.Keys + t'.people.Keys == t.unassigned.Keys + t.people.Keys
    && t'.unassigned.Keys !! t'.people.Keys
    && (forall f :: f in t.people ==> f in t'.people && t'.people[f] == t.people[f])
    && (forall f :: f in t'.unassigned ==> f in t.unassigned && t'.unassigned[f].mediaRef == t.unassigned[f].mediaRef
                                           && t'.unassigned[f].embedding == t.unassigned[f].embedding)
  }

  lemma {:induction false} DisposeConserves(t: Tables, order: seq<string>, clusters: Clusters,
                                            media: map<string, string>, personOf: map<string, nat>)
    requires t.unassigned.Keys !! t.people.Keys
    requires forall c :: c in order ==> c in clusters && c in personOf
    ensures Conserves(t, DisposeAll(t, order, clusters, media, personOf))
  {
    if order != [] {
      var init, c := order[..|order| - 1], order[|order| - 1];
      assert c in order;
      DisposeConserves(t, init, clusters, media, personOf);
      DisposeOneConserves(DisposeAll(t, init, clusters, media, personOf), c, clusters[c], media, personOf[c]);
    }
  }

  lemma AssignConserves(t: Tables, ids: seq<string>, c: string)
    requires t.unassigned.Keys !! t.people.Keys
    ensures Conserves(t, Assign(t, ids, c))
  {
  }

  lemma PromoteConserves(t: Tables, c: string, person: nat)
    requires t.unassigned.Keys !! t.people.Keys
    ensures Conserves(t, Promote(t, c, person))
  {
    var captured := Captured(t, c);
    assert captured <= t.unassigned.Keys;
    assert (map f | f in captured :: person).Keys == captured;
  }

  lemma DisposeOneConserves(t: Tables, c: string, ids: seq<string>, media: map<string, string>, person: nat)
    requires t.unassigned.Keys !! t.people.Keys
    ensures Conserves(t, DisposeOne(t, c, ids, media, person))
  {
    var a := Assign(t, ids, c);
    AssignConserves(t, ids, c);
    PromoteConserves(a, c, person);
    assert Conserves(t, t);
    hide Assign, Promote, Large;
  }

  lemma RunConserves(t: Tables, faces: seq<Face>, order: seq<string>, clusters: Clusters, personOf: map<string, nat>)
    requires t.unassigned.Keys !! t.people.Keys
    requires forall c :: c in order ==> c in clusters && c in personOf
    ensures Conserves(t, RunResult(t, faces, order, clusters, personOf))
  {
    DisposeConserves(t, order, clusters, MediaMap(faces), personOf);
  }

  // ---------------------------------------------------------------------------
  // Intended fates
  // ---------------------------------------------------------------------------

  /** Clusters as label propagation returns them: disjoint, of known faces. */
  ghost predicate WellFormed(t: Tables, clusters: Clusters, personOf: map<string, nat>) {
    && t.unassigned.Keys !! t.people.Keys
    && personOf.Keys == clusters.Keys
    && (forall c, d :: c in personOf && d in personOf && personOf[c] == personOf[d] ==> c == d)
    && (forall c, f :: c in clusters && f in clusters[c] ==> f in t.unassigned)
    && (forall c :: c in clusters ==> |clusters[c]| >= 2)
    && (forall c, d, f :: c in clusters && d in clusters && f in clusters[c] && f in clusters[d] ==> c == d)
  }

  ghost predicate PromotedTo(t': Tables, f: string, person: nat) {
    f !in t'.unassigned && f in t'.people && t'.people[f] == person
  }

  ghost predicate HasRow(t': Tables, f: string, row: FaceRow) {
    f !in t'.people && f in t'.unassigned && t'.unassigned[f] == row
  }

  /** f is with the person of its large cluster, or its row holds its small cluster's id. */
  ghost predicate FateIn(t: Tables, t': Tables, f: string, c: string, ids: seq<string>, media: map<string, string>,
                         person: nat)
    requires f in t.unassigned
  {
    if Large(ids, media) then PromotedTo(t', f, person)
    else HasRow(t', f, t.unassigned[f].(cluster := Some(c), processed := true))
  }

  /** The fate of f once the clusters in `done` are disposed of and no others. */
  ghost predicate FateAfter(t: Tables, t': Tables, clusters: Clusters, media: map<string, string>,
                            personOf: map<string, nat>, done: set<string>, f: string)
    requires f in t.unassigned && personOf.Keys == clusters.Keys
  {
    && (forall c :: c in clusters && c in done && f in clusters[c] ==>
          FateIn(t, t', f, c, clusters[c], media, personOf[c]))
    && ((forall c :: c in clusters && c in done ==> f !in clusters[c]) ==> HasRow(t', f, t.unassigned[f]))
  }

  /** The row carries the id of one of the run's clusters. */
  predicate CarriesCurrentId(row: FaceRow, clusters: Clusters) {
    row.cluster.Some? && row.cluster.value in clusters
  }

  ghost predicate FaceAsIntended(t: Tables, t': Tables, clusters: Clusters, media: map<string, string>,
                                 personOf: map<string, nat>, f: string)
    requires f in t.unassigned && personOf.Keys == clusters.Keys
  {
    && (forall c :: c in clusters && f in clusters[c] ==> FateIn(t, t', f, c, clusters[c], media, personOf[c]))
    && (!InSomeCluster(f, clusters) ==>
          HasRow(t', f, t.unassigned[f].(processed := true)) && !CarriesCurrentId(t.unassigned[f], clusters))
  }

  /**
   * Every face goes to exactly one of three fates: the person of its large
   * cluster, its small cluster's id, or, in no cluster, just the processed flag
   * and no id of any of the run's clusters.
   */
  ghost predicate AsIntended(t: Tables, t': Tables, clusters: Clusters, media: map<string, string>,
                             personOf: map<string, nat>)
    requires personOf.Keys == clusters.Keys
  {
    forall f :: f in t.unassigned ==> FaceAsIntended(t, t', clusters, media, personOf, f)
  }

  /** The row carries the id of a cluster about to be promoted without being in it. */
  predicate StaleIn(t: Tables, ids: seq<string>, media: map<string, string>, f: string, c: string)
    requires f in t.unassigned
  {
    Large(ids, media) && t.unassigned[f].cluster == Some(c) && f !in ids
  }

  /** The row carries the id of a cluster it is not in, and that cluster is promoted or the row is in no other. */
  predicate Harmful(t: Tables, clusters: Clusters, media: map<string, string>, f: string, c: string)
    requires f in t.unassigned && c in clusters
  {
    && t.unassigned[f].cluster == Some(c) && f !in clusters[c]
    && (Large(clusters[c], media) || !InSomeCluster(f, clusters))
  }

  /** No left-over cluster id does harm in this run. */
  predicate StaleFree(t: Tables, clusters: Clusters, media: map<string, string>) {
    !exists f, c :: f in t.unassigned && c in clusters && Harmful(t, clusters, media, f, c)
  }

  /** Disposing of a cluster settles the untouched faces in it. */
  lemma DisposeSettles(t: Tables, t1: Tables, c: string, ids: seq<string>, media: map<string, string>, person: nat,
                       f: string)
    requires f in t.unassigned && f in ids && |ids| >= 2 && HasRow(t1, f, t.unassigned[f])
    ensures FateIn(t, DisposeOne(t1, c, ids, media, person), f, c, ids, media, person)
  {
    assert f in Assign(t1, ids, c).unassigned;
  }

  /** It leaves alone every face that is not in it and does not carry its id. */
  lemma DisposeLeaves(t1: Tables, c: string, ids: seq<string>, media: map<string, string>, person: nat, f: string)
    requires t1.unassigned.Keys !! t1.people.Keys && f !in ids
    requires f in t1.unassigned && Large(ids, media) ==> t1.unassigned[f].cluster != Some(c)
    ensures f in t1.people ==> PromotedTo(DisposeOne(t1, c, ids, media, person), f, t1.people[f])
    ensures f in t1.unassigned ==> HasRow(DisposeOne(t1, c, ids, media, person), f, t1.unassigned[f])
  {
    DisposeOneConserves(t1, c, ids, media, person);
    var a := Assign(t1, ids, c);
    assert f in t1.unassigned ==> f in a.unassigned && a.unassigned[f] == t1.unassigned[f];
  }

  lemma DisposeFatesInside(t: Tables, t1: Tables, clusters: Clusters, media: map<string, string>,
                           personOf: map<string, nat>, done: set<string>, c: string, f: string)
    requires WellFormed(t, clusters, personOf)
    requires c in clusters && c !in done && f in t.unassigned && f in clusters[c]
    requires FateAfter(t, t1, clusters, media, personOf, done, f)
    ensures FateAfter(t, DisposeOne(t1, c, clusters[c], media, personOf[c]), clusters, media, personOf, done + {c}, f)
  {
    hide DisposeOne, Large, HasRow, PromotedTo, FateIn;
    assert forall d :: d in clusters && f in clusters[d] ==> d == c;
    DisposeSettles(t, t1, c, clusters[c], media, personOf[c], f);
  }

  lemma DisposeFatesOutside(t: Tables, t1: Tables, clusters: Clusters, media: map<string, string>,
                            personOf: map<string, nat>, done: set<string>, c: string, f: string)
    requires WellFormed(t, clusters, personOf) && StaleFree(t, clusters, media) && t1.unassigned.Keys !! t1.people.Keys
    requires c in clusters && c !in done && f in t.unassigned && f !in clusters[c]
    requires FateAfter(t, t1, clusters, media, personOf, done, f)
    ensures FateAfter(t, DisposeOne(t1, c, clusters[c], media, personOf[c]), clusters, media, personOf, done + {c}, f)
  {
    assert !Harmful(t, clusters, media, f, c);
    hide DisposeOne, Large;
    assert !StaleIn(t, clusters[c], media, f, c);
    if d :| d in clusters && d in done && f in clusters[d] {
      assert FateIn(t, t1, f, d, clusters[d], media, personOf[d]);
      assert forall e :: e in clusters && f in clusters[e] ==> e == d;
    }
    DisposeLeaves(t1, c, clusters[c], media, personOf[c], f);
  }

  lemma {:induction false} DisposeAllFates(t: Tables, order: seq<string>, clusters: Clusters,
                                           media: map<string, string>, personOf: map<string, nat>, f: string)
    requires WellFormed(t, clusters, personOf) && StaleFree(t, clusters, media)
    requires Distinct(order) && forall c :: c in order ==> c in clusters
    requires f in t.unassigned
    ensures FateAfter(t, DisposeAll(t, order, clusters, media, personOf), clusters, media, personOf,
                      (set c | c in order), f)
  {
    if order != [] {
      var init, c := order[..|order| - 1], order[|order| - 1];
      assert order == init + [c];
      assert (set d | d in order) == (set d | d in init) + {c};
      DisposeAllFates(t, init, clusters, media, personOf, f);
      DisposeConserves(t, init, clusters, media, personOf);
      FatesNext(t, DisposeAll(t, init, clusters, media, personOf), clusters, media, personOf, init, c, f);
    }
  }

  lemma FatesNext(t: Tables, t1: Tables, clusters: Clusters, media: map<string, string>, personOf: map<string, nat>,
                  init: seq<string>, c: string, f: string)
    requires WellFormed(t, clusters, personOf) && StaleFree(t, clusters, media) && Conserves(t, t1)
    requires Distinct(init + [c]) && c in clusters && f in t.unassigned
    requires FateAfter(t, t1, clusters, media, personOf, (set d | d in init), f)
    ensures FateAfter(t, DisposeOne(t1, c, clusters[c], media, personOf[c]), clusters, media, personOf,
                      (set d | d in init) + {c}, f)
  {
    hide DisposeOne, FateAfter, StaleFree;
    forall i | 0 <= i < |init| ensures init[i] != c { assert (init + [c])[i] != (init + [c])[|init|]; }
    if f in clusters[c] {
      DisposeFatesInside(t, t1, clusters, media, personOf, (set d | d in init), c, f);
    } else {
      DisposeFatesOutside(t, t1, clusters, media, personOf, (set d | d in init), c, f);
    }
  }

  /** Marking other faces does not touch this one. */
  lemma MarkLeaves(t: Tables, t1: Tables, ids: seq<string>, f: string, c: string, cluster: seq<string>,
                   media: map<string, string>, person: nat)
    requires f in t.unassigned && f !in ids && FateIn(t, t1, f, c, cluster, media, person)
    ensures FateIn(t, Mark(t1, ids), f, c, cluster, media, person)
  {
    hide Large;
  }

  lemma SinglesOf(faces: seq<Face>, rows: map<string, FaceRow>, clusters: Clusters, f: string)
    requires ListsRows(faces, rows) && f in rows
    ensures f in Singles(Ids(faces), clusters) <==> !InSomeCluster(f, clusters)
  {
    SinglesAre(Ids(faces), clusters);
    assert HasId(faces, f);
    var i :| 0 <= i < |faces| && faces[i].id == f;
    assert Ids(faces)[i] == f;
  }

  lemma MarkSettles(t: Tables, t1: Tables, faces: seq<Face>, clusters: Clusters, media: map<string, string>,
                    personOf: map<string, nat>, f: string)
    requires personOf.Keys == clusters.Keys && ListsRows(faces, t.unassigned) && f in t.unassigned
    requires StaleFree(t, clusters, media) && FateAfter(t, t1, clusters, media, personOf, clusters.Keys, f)
    ensures FaceAsIntended(t, Mark(t1, Singles(Ids(faces), clusters)), clusters, media, personOf, f)
  {
    var row, ids := t.unassigned[f], Singles(Ids(faces), clusters);
    SinglesOf(faces, t.unassigned, clusters, f);
    if InSomeCluster(f, clusters) {
      forall c | c in clusters && f in clusters[c]
        ensures FateIn(t, Mark(t1, ids), f, c, clusters[c], media, personOf[c])
      {
        MarkLeaves(t, t1, ids, f, c, clusters[c], media, personOf[c]);
      }
      hide Mark, FateIn, ListsRows;
    } else {
      if CarriesCurrentId(row, clusters) { assert !Harmful(t, clusters, media, f, row.cluster.value); }
      hide ListsRows, StaleFree, FateIn, Large;
      assert HasRow(t1, f, row);
    }
  }

  /** Without stale ids every face meets its intended fate, in whatever order the clusters come. */
  lemma StaleFreeIsIntended(t: Tables, faces: seq<Face>, order: seq<string>, clusters: Clusters,
                            personOf: map<string, nat>)
    requires WellFormed(t, clusters, personOf) && StaleFree(t, clusters, MediaMap(faces))
    requires Visited(order, clusters) && ListsRows(faces, t.unassigned)
    ensures AsIntended(t, RunResult(t, faces, order, clusters, personOf), clusters, MediaMap(faces), personOf)
  {
    hide DisposeAll, Mark, FateAfter, FaceAsIntended, ListsRows, StaleFree, MediaMap;
    var media := MediaMap(faces);
    assert (set c | c in order) == clusters.Keys;
    forall f | f in t.unassigned
      ensures FaceAsIntended(t, RunResult(t, faces, order, clusters, personOf), clusters, media, personOf, f)
    {
      DisposeAllFates(t, order, clusters, media, personOf, f);
      MarkSettles(t, DisposeAll(t, order, clusters, media, personOf), faces, clusters, media, personOf, f);
    }
  }

  /** A face once promoted stays with that person. */
  lemma {:induction false} PromotionSticks(t: Tables, first: seq<string>, order: seq<string>, clusters: Clusters,
                                           media: map<string, string>, personOf: map<string, nat>, f: string)
    requires t.unassigned.Keys !! t.people.Keys
    requires forall c :: c in order ==> c in clusters && c in personOf
    requires |first| <= |order| && first == order[..|first|]
    requires forall c :: c in first ==> c in clusters && c in personOf
    requires f in DisposeAll(t, first, clusters, media, personOf).people
    ensures f in DisposeAll(t, order, clusters, media, personOf).people
    ensures DisposeAll(t, order, clusters, media, personOf).people[f]
         == DisposeAll(t, first, clusters, media, personOf).people[f]
    decreases |order|
  {
    if |first| < |order| {
      var init, c := order[..|order| - 1], order[|order| - 1];
      assert c in order;
      assert first == init[..|first|];
      assert forall d :: d in init ==> d in order;
      PromotionSticks(t, first, init, clusters, media, personOf, f);
      DisposeConserves(t, init, clusters, media, personOf);
      DisposeOneConserves(DisposeAll(t, init, clusters, media, personOf), c, clusters[c], media, personOf[c]);
    } else {
      assert first == order;
    }
  }

  lemma {:induction false} SomeOrder(keys: set<string>) returns (order: seq<string>)
    ensures Distinct(order) && forall c :: c in order <==> c in keys
    decreases keys
  {
    if keys == {} { return []; }
    var c :| c in keys;
    order := SomeOrder(keys - {c});
    assert forall d :: d in order + [c] <==> d in keys;
    order := order + [c];
  }

  lemma OrderFrom(clusters: Clusters, c: string) returns (order: seq<string>)
    requires c in clusters
    ensures Visited(order, clusters) && order != [] && order[..1] == [c]
  {
    var rest := SomeOrder(clusters.Keys - {c});
    order := [c] + rest;
  }

  lemma DisposeSingle(t: Tables, clusters: Clusters, media: map<string, string>, personOf: map<string, nat>, c: string)
    requires c in clusters && c in personOf
    ensures DisposeAll(t, [c], clusters, media, personOf) == DisposeOne(t, c, clusters[c], media, personOf[c])
  {
    assert [c][..0] == [];
  }

  /** Promotion sweeps up a row with a stale id. */
  lemma StaleCapturedAtOnce(t: Tables, clusters: Clusters, media: map<string, string>, personOf: map<string, nat>,
                            f: string, c: string)
    requires f in t.unassigned && c in clusters && c in personOf && StaleIn(t, clusters[c], media, f, c)
    ensures f in DisposeAll(t, [c], clusters, media, personOf).people
    ensures DisposeAll(t, [c], clusters, media, personOf).people[f] == personOf[c]
  {
    DisposeSingle(t, clusters, media, personOf, c);
    assert f in Captured(Assign(t, clusters[c], c), c);
  }

  lemma WrongPersonNotIntended(t: Tables, t': Tables, clusters: Clusters, media: map<string, string>,
                               personOf: map<string, nat>, f: string, c: string)
    requires WellFormed(t, clusters, personOf) && f in t.unassigned && c in clusters && f !in clusters[c]
    requires f in t'.people && t'.people[f] == personOf[c]
    ensures !AsIntended(t, t', clusters, media, personOf)
  {
    assert forall d :: d in clusters && f in clusters[d] ==> personOf[d] != personOf[c];
    assert !FaceAsIntended(t, t', clusters, media, personOf, f);
  }

  /** A left-over id that does harm does it in some order of the clusters. */
  lemma HarmDone(t: Tables, faces: seq<Face>, clusters: Clusters, personOf: map<string, nat>)
    returns (order: seq<string>)
    requires WellFormed(t, clusters, personOf) && !StaleFree(t, clusters, MediaMap(faces))
    ensures Visited(order, clusters)
    ensures !AsIntended(t, RunResult(t, faces, order, clusters, personOf), clusters, MediaMap(faces), personOf)
  {
    var media := MediaMap(faces);
    var f, c :| f in t.unassigned && c in clusters && Harmful(t, clusters, media, f, c);
    order := OrderFrom(clusters, c);
    if !InSomeCluster(f, clusters) {
      assert CarriesCurrentId(t.unassigned[f], clusters);
      hide RunResult;
      assert !FaceAsIntended(t, RunResult(t, faces, order, clusters, personOf), clusters, media, personOf, f);
    } else {
      assert StaleIn(t, clusters[c], media, f, c);
      hide DisposeAll, DisposeOne, AsIntended, Large, MediaMap, Singles, StaleFree;
      StaleCapturedAtOnce(t, clusters, media, personOf, f, c);
      PromotionSticks(t, [c], order, clusters, media, personOf, f);
      WrongPersonNotIntended(t, RunResult(t, faces, order, clusters, personOf), clusters, media, personOf, f, c);
    }
  }

  /**
   * The run sends every face where it should, for every order in which the
   * clusters may come, exactly when no row carries the id of a cluster it is not
   * in, except ids of small clusters on rows that another cluster takes.
   */
  lemma IntendedIffStaleFree(t: Tables, faces: seq<Face>, clusters: Clusters, personOf: map<string, nat>)
    requires WellFormed(t, clusters, personOf) && ListsRows(faces, t.unassigned)
    ensures StaleFree(t, clusters, MediaMap(faces)) <==>
            forall order :: Visited(order, clusters) ==>
              AsIntended(t, RunResult(t, faces, order, clusters, personOf), clusters, MediaMap(faces), personOf)
  {
    if StaleFree(t, clusters, MediaMap(faces)) {
      forall order | Visited(order, clusters)
        ensures AsIntended(t, RunResult(t, faces, order, clusters, personOf), clusters, MediaMap(faces), personOf)
      {
        StaleFreeIsIntended(t, faces, order, clusters, personOf);
      }
    } else {
      var order := HarmDone(t, faces, clusters, personOf);
    }
  }

  /** The run's own clusters are well formed, so the law above applies to every run. */
  lemma RunClustersWellFormed(t: Tables, faces: seq<Face>, threshold: real, clusters: Clusters,
                              personOf: map<string, nat>, used: set<nat>)
    requires t.unassigned.Keys !! t.people.Keys && ListsRows(faces, t.unassigned)
    requires IsClustering(faces, threshold, clusters) && FreshPersons(personOf, clusters, used)
    ensures WellFormed(t, clusters, personOf)
  {
    ClustersDisjoint(faces, threshold, clusters);
    forall c, f | c in clusters && f in clusters[c] ensures f in t.unassigned {
      var i: nat :| i < |faces| && faces[i].id == f;
      assert HasId(faces, f);
    }
  }

  /** No row carries a cluster id that a run over this many rows can produce. */
  ghost predicate NoLeftovers(t: Tables) {
    forall f, l: nat :: f in t.unassigned && l < |t.unassigned| ==> t.unassigned[f].cluster != Some(ClusterId(l))
  }

  /** A condition on the table alone: without left-over ids every run, whatever its clusters, is as intended. */
  lemma NoLeftoversIntended(t: Tables, faces: seq<Face>, threshold: real, clusters: Clusters, order: seq<string>,
                            personOf: map<string, nat>, used: set<nat>)
    requires t.unassigned.Keys !! t.people.Keys && ListsRows(faces, t.unassigned) && NoLeftovers(t)
    requires IsClustering(faces, threshold, clusters) && FreshPersons(personOf, clusters, used)
    requires Visited(order, clusters)
    ensures AsIntended(t, RunResult(t, faces, order, clusters, personOf), clusters, MediaMap(faces), personOf)
  {
    RunClustersWellFormed(t, faces, threshold, clusters, personOf, used);
    ListLength(faces, t.unassigned);
    forall f, c | f in t.unassigned && c in clusters ensures t.unassigned[f].cluster != Some(c) {
      ClusterIdsAreIndices(faces, threshold, clusters, c);
    }
    assert StaleFree(t, clusters, MediaMap(faces)) by {
      hide Large, InSomeCluster, MediaMap;
      forall f, c | f in t.unassigned && c in clusters ensures !Harmful(t, clusters, MediaMap(faces), f, c) {}
    }
    StaleFreeIsIntended(t, faces, order, clusters, personOf);
  }

  // ---------------------------------------------------------------------------
  // Runs that go wrong
  // ---------------------------------------------------------------------------

  const GROUP := "cluster_1"

  /** The given faces all look alike, each from a medium of its own; one other row carries an id from an earlier run. */
  function Alike(id: string): FaceRow {
    FaceRow(id, [1.0], 1.0, None, false)
  }

  const LEFT_OVER: FaceRow := FaceRow("m", [0.0], 1.0, Some(GROUP), true)

  function LookalikeTable(ids: seq<string>, other: string): Tables {
    var rows := map id | id in ids :: Alike(id);
    Tables(rows[other := LEFT_OVER], map[])
  }

  function Lookalikes(ids: seq<string>, other: string): (faces: seq<Face>)
    ensures |faces| == |ids| + 1 && faces[|ids|] == RowFace(other, LEFT_OVER)
    ensures forall i :: 0 <= i < |ids| ==> faces[i] == RowFace(ids[i], Alike(ids[i]))
  {
    seq(|ids|, i requires 0 <= i < |ids| => RowFace(ids[i], Alike(ids[i]))) + [RowFace(other, LEFT_OVER)]
  }

  lemma LookalikesListed(ids: seq<string>, other: string)
    requires Distinct(ids) && other !in ids
    ensures ListsRows(Lookalikes(ids, other), LookalikeTable(ids, other).unassigned)
  {
    var faces, rows := Lookalikes(ids, other), LookalikeTable(ids, other).unassigned;
    assert forall i :: 0 <= i < |faces| ==> faces[i].id in rows && faces[i] == RowFace(faces[i].id, rows[faces[i].id]);
    hide RowFace, Alike;
    forall f ensures f in rows <==> HasId(faces, f) {
      if f in ids {
        var i :| 0 <= i < |ids| && ids[i] == f;
        assert faces[i].id == f;
      }
      if f == other { assert faces[|ids|].id == f; }
    }
  }

  /** The labels once the first k lookalikes have been visited in order: they hold 1, all others their own. */
  function GroupLabels(n: nat, k: nat): (labels: seq<nat>)
    ensures |labels| == n + 1 && forall i :: 0 <= i <= n ==> labels[i] == if i < k then 1 else i
  {
    seq(n + 1, i => if i < k then 1 else i)
  }

  lemma LookalikesSimilar(ids: seq<string>, other: string, threshold: real, i: nat, j: nat)
    requires i <= |ids| && j <= |ids| && 0.0 < threshold <= 1.0
    ensures Similar(Embeddings(Lookalikes(ids, other)), threshold, i, j) <==> i != j && i < |ids| && j < |ids|
    ensures i < |ids| && j < |ids| ==>
              CosineSimilarity(Lookalikes(ids, other)[i].embedding, Lookalikes(ids, other)[j].embedding) == 1.0
  {
    var a, b := Lookalikes(ids, other)[i].embedding, Lookalikes(ids, other)[j].embedding;
    assert |a| == |b| == 1 && Dot(a[..0], b[..0]) == 0.0;
    assert CosineSimilarity(a, b) == a[0] * b[0];
  }

  /** Up to lookalike b, label 1 has a score of at least one once a holder was met, any other label at most one. */
  lemma {:induction false} LookalikeScores(ids: seq<string>, other: string, threshold: real, k: nat, i: nat, l: nat,
                                           b: nat)
    requires 0.0 < threshold <= 1.0 && 2 <= |ids| && i < |ids| && i <= k <= |ids| && b <= |ids| + 1
    ensures var score := Score(Embeddings(Lookalikes(ids, other)), threshold, GroupLabels(|ids|, k), i, l, b);
      if l == 1 then 0.0 <= score && (b >= 2 ==> 1.0 <= score) else score <= if l < b then 1.0 else 0.0
  {
    if b > 0 {
      LookalikeScores(ids, other, threshold, k, i, l, b - 1);
      LookalikesSimilar(ids, other, threshold, i, b - 1);
    }
  }

  function LookalikeLists(ids: seq<string>, other: string, threshold: real): (adj: Adjacency)
    ensures InBounds(adj) && |adj| == |ids| + 1
  {
    AdjacencyFacts(Embeddings(Lookalikes(ids, other)), threshold);
    AdjacencyOf(Embeddings(Lookalikes(ids, other)), threshold)
  }

  /** Every lookalike visited in order, or again later, may take label 1. */
  lemma GroupLabelWins(ids: seq<string>, other: string, threshold: real, k: nat, i: nat)
    requires 0.0 < threshold <= 1.0 && 2 <= |ids| && i < |ids| && i <= k <= |ids|
    ensures Winning(LookalikeLists(ids, other, threshold)[i], GroupLabels(|ids|, k), 1)
  {
    var es, labels := Embeddings(Lookalikes(ids, other)), GroupLabels(|ids|, k);
    var neighbours := LookalikeLists(ids, other, threshold)[i];
    var j: nat := if i == 0 then 1 else 0;
    LookalikesSimilar(ids, other, threshold, i, j);
    NeighboursAreEdges(es, threshold, i, |es|);
    assert HeldByNeighbour(neighbours, labels, 1);
    hide HeldByNeighbour, Similar, Neighbours, Score, Votes, GroupLabels, Lookalikes;
    forall m: nat ensures Votes(neighbours, labels, m) <= Votes(neighbours, labels, 1) {
      VotesAreScores(es, threshold, labels, i, m, |es|);
      VotesAreScores(es, threshold, labels, i, 1, |es|);
      LookalikeScores(ids, other, threshold, k, i, m, |es|);
      LookalikeScores(ids, other, threshold, k, i, 1, |es|);
    }
  }

  lemma OtherHasNoNeighbours(ids: seq<string>, other: string, threshold: real)
    requires 0.0 < threshold <= 1.0
    ensures LookalikeLists(ids, other, threshold)[|ids|] == []
  {
    var es, n := Embeddings(Lookalikes(ids, other)), |ids|;
    NeighboursAreEdges(es, threshold, n, n + 1);
    if Neighbours(es, threshold, n, n + 1) != [] {
      LookalikesSimilar(ids, other, threshold, n, Neighbours(es, threshold, n, n + 1)[0].0);
      assert false;
    }
  }

  lemma LookalikeVisit(ids: seq<string>, other: string, threshold: real, i: nat)
    requires 0.0 < threshold <= 1.0 && 2 <= |ids| && i < |ids|
    ensures IsVisit(LookalikeLists(ids, other, threshold), GroupLabels(|ids|, i), i, GroupLabels(|ids|, i + 1))
  {
    var adj, labels := LookalikeLists(ids, other, threshold), GroupLabels(|ids|, i);
    GroupLabelWins(ids, other, threshold, i, i);
    hide LookalikeLists;
    assert labels[i := 1] == GroupLabels(|ids|, i + 1);
    assert adj[i] != [] by { assert Winning(adj[i], labels, 1); }
    assert TakesLabel(adj, labels, i, 1, labels[i := 1]);
  }

  lemma OtherVisit(ids: seq<string>, other: string, threshold: real)
    requires 0.0 < threshold <= 1.0
    ensures IsVisit(LookalikeLists(ids, other, threshold), GroupLabels(|ids|, |ids|), |ids|,
                    GroupLabels(|ids|, |ids|))
  {
    OtherHasNoNeighbours(ids, other, threshold);
    hide LookalikeLists, GroupLabels;
  }

  /** The first b lookalikes visited in order lead from everyone's own label to the labels above. */
  lemma {:induction false} LookalikeVisits(ids: seq<string>, other: string, threshold: real, b: nat)
    requires 0.0 < threshold <= 1.0 && 2 <= |ids| && b <= |ids|
    ensures Visits(LookalikeLists(ids, other, threshold), GroupLabels(|ids|, 0), InOrder(b), GroupLabels(|ids|, b))
  {
    if b > 0 {
      var adj, n, i := LookalikeLists(ids, other, threshold), |ids|, b - 1;
      LookalikeVisits(ids, other, threshold, i);
      LookalikeVisit(ids, other, threshold, i);
      InOrderGrows(i);
      hide *;
      VisitsNext(adj, GroupLabels(n, 0), InOrder(i), GroupLabels(n, i), i, GroupLabels(n, b));
    }
  }

  /** One pass leads from everyone's own label to the labels of the one group. */
  lemma LookalikePass(ids: seq<string>, other: string, threshold: real)
    requires 0.0 < threshold <= 1.0 && 2 <= |ids|
    ensures IsPass(LookalikeLists(ids, other, threshold), GroupLabels(|ids|, 0), GroupLabels(|ids|, |ids|))
  {
    var adj, n := LookalikeLists(ids, other, threshold), |ids|;
    LookalikeVisits(ids, other, threshold, n);
    OtherVisit(ids, other, threshold);
    hide *;
    VisitsNext(adj, GroupLabels(n, 0), InOrder(n), GroupLabels(n, n), n, GroupLabels(n, n));
    InOrderGrows(n);
    PassInOrder(adj, GroupLabels(n, 0), GroupLabels(n, n));
  }

  lemma GroupLabelsStable(ids: seq<string>, other: string, threshold: real)
    requires 0.0 < threshold <= 1.0 && 2 <= |ids|
    ensures Stable(LookalikeLists(ids, other, threshold), GroupLabels(|ids|, |ids|))
  {
    var adj, n := LookalikeLists(ids, other, threshold), |ids|;
    OtherHasNoNeighbours(ids, other, threshold);
    hide LookalikeLists, Winning;
    forall i | 0 <= i < |adj| && adj[i] != [] ensures Winning(adj[i], GroupLabels(n, n), GroupLabels(n, n)[i]) {
      GroupLabelWins(ids, other, threshold, n, i);
    }
  }

  /** The pass after that one may change nothing. */
  lemma LookalikesEndEarly(ids: seq<string>, other: string, threshold: real)
    requires 0.0 < threshold <= 1.0 && 2 <= |ids|
    ensures EndedEarly(LookalikeLists(ids, other, threshold), GroupLabels(|ids|, |ids|))
  {
    var adj, own, labels := LookalikeLists(ids, other, threshold), GroupLabels(|ids|, 0), GroupLabels(|ids|, |ids|);
    assert AfterPasses(adj, 0, own);
    LookalikePass(ids, other, threshold);
    GroupLabelsStable(ids, other, threshold);
    hide LookalikeLists, GroupLabels, AfterPasses, IsPass, Stable, QuietAfter;
    OnePassMore(adj, 0, own, labels);
    var passes: nat := 1;
    StableIsQuiet(adj, passes, labels);
  }

  lemma {:induction false} LookalikeHolders(ids: seq<string>, other: string, l: nat, b: nat)
    requires b <= |ids|
    ensures Holders(Lookalikes(ids, other), GroupLabels(|ids|, |ids|), l, b) == if l == 1 then ids[..b] else []
  {
    if b > 0 { LookalikeHolders(ids, other, l, b - 1); }
  }

  lemma GroupIsOne()
    ensures ClusterId(1) == GROUP
  {
  }

  lemma LookalikeClusters(ids: seq<string>, other: string)
    requires |ids| >= 2
    ensures ClustersOf(Lookalikes(ids, other), GroupLabels(|ids|, |ids|), map[GROUP := ids])
  {
    var n, faces, labels, clusters := |ids|, Lookalikes(ids, other), GroupLabels(|ids|, |ids|), map[GROUP := ids];
    GroupIsOne();
    var size := n + 1;
    forall l: nat ensures |Holders(faces, labels, l, size)| >= 2 ==> l == 1
      ensures l == 1 ==> Holders(faces, labels, l, size) == ids
    {
      LookalikeHolders(ids, other, l, n);
    }
    hide Holders, ClusterId;
    assert ClusterNamed(faces, labels, clusters, GROUP, 1);
  }

  /** Label propagation puts the lookalikes in one cluster and the other face in none. */
  lemma LookalikesClustered(ids: seq<string>, other: string, threshold: real)
    requires Distinct(ids) && other !in ids && |ids| >= 2 && 0.0 < threshold <= 1.0
    ensures IsClustering(Lookalikes(ids, other), threshold, map[GROUP := ids])
    ensures IsStableClustering(Lookalikes(ids, other), threshold, map[GROUP := ids])
  {
    var faces, labels := Lookalikes(ids, other), GroupLabels(|ids|, |ids|);
    assert LookalikeLists(ids, other, threshold) == AdjacencyOf(Embeddings(faces), threshold);
    hide *;
    LookalikesEndEarly(ids, other, threshold);
    LookalikeClusters(ids, other);
    EarlyEndClusters(faces, threshold, labels, map[GROUP := ids]);
  }

  lemma {:induction false} MediaMapFacts(faces: seq<Face>)
    requires forall a, b :: 0 <= a < b < |faces| ==> faces[a].id != faces[b].id
    ensures forall i :: 0 <= i < |faces| ==>
              faces[i].id in MediaMap(faces) && MediaMap(faces)[faces[i].id] == faces[i].mediaRef
  {
    if faces != [] {
      MediaMapFacts(faces[..|faces| - 1]);
    }
  }

  /** The lookalikes' cluster is large exactly when there are ten of them. */
  lemma LookalikeMedia(ids: seq<string>, other: string)
    requires Distinct(ids) && other !in ids
    ensures Large(ids, MediaMap(Lookalikes(ids, other))) <==> |ids| >= MIN_MEDIA
  {
    var faces := Lookalikes(ids, other);
    var media := MediaMap(faces);
    LookalikesListed(ids, other);
    MediaMapFacts(faces);
    forall id | id in ids ensures id in media && media[id] == id {
      var i :| 0 <= i < |ids| && ids[i] == id;
      assert faces[i].id == id && faces[i].mediaRef == id;
    }
    hide MediaMap;
    assert MediaOf(ids, media) == set id | id in ids;
    DistinctCount(ids);
  }

  /** The tables after the only order of the only cluster. */
  function LookalikeRun(ids: seq<string>, other: string, person: nat): Tables {
    RunResult(LookalikeTable(ids, other), Lookalikes(ids, other), [GROUP], map[GROUP := ids], map[GROUP := person])
  }

  lemma LookalikeRunIs(ids: seq<string>, other: string, person: nat)
    ensures LookalikeRun(ids, other, person) ==
            Mark(DisposeOne(LookalikeTable(ids, other), GROUP, ids, MediaMap(Lookalikes(ids, other)), person),
                 Singles(Ids(Lookalikes(ids, other)), map[GROUP := ids]))
  {
    var clusters, personOf := map[GROUP := ids], map[GROUP := person];
    DisposeSingle(LookalikeTable(ids, other), clusters, MediaMap(Lookalikes(ids, other)), personOf, GROUP);
    hide DisposeAll, DisposeOne, Mark, Singles, MediaMap;
  }

  /** The face looks like none of the others, but is given the same person as they are. */
  lemma PromotedWithLookalikes(ids: seq<string>, other: string, person: nat)
    requires Distinct(ids) && other !in ids && |ids| >= MIN_MEDIA
    ensures PromotedTo(LookalikeRun(ids, other, person), other, person)
  {
    LookalikeMedia(ids, other);
    LookalikeRunIs(ids, other, person);
    var t := LookalikeTable(ids, other);
    hide MediaMap, Large, Singles, LookalikeRun;
    assert Assign(t, ids, GROUP).unassigned[other] == LEFT_OVER;
    assert other in Captured(Assign(t, ids, GROUP), GROUP);
  }

  lemma LookalikesAssigned(ids: seq<string>, other: string)
    requires other !in ids
    ensures HasRow(Assign(LookalikeTable(ids, other), ids, GROUP), other, LEFT_OVER) && LEFT_OVER.processed
    ensures forall id :: id in ids ==>
              var row := Alike(id).(cluster := Some(GROUP), processed := true);
              row.processed && HasRow(Assign(LookalikeTable(ids, other), ids, GROUP), id, row)
  {
  }

  lemma MarkKeepsProcessed(t: Tables, faces: seq<string>)
    ensures forall f, row :: HasRow(t, f, row) && row.processed ==> HasRow(Mark(t, faces), f, row)
  {
  }

  /** With fewer lookalikes it ends under the same cluster id as they do, though it is in no cluster. */
  lemma StagedWithLookalikes(ids: seq<string>, other: string, person: nat)
    requires Distinct(ids) && other !in ids && 2 <= |ids| < MIN_MEDIA
    ensures HasRow(LookalikeRun(ids, other, person), other, LEFT_OVER)
    ensures forall id :: id in ids ==>
              HasRow(LookalikeRun(ids, other, person), id, Alike(id).(cluster := Some(GROUP), processed := true))
  {
    var t, faces := LookalikeTable(ids, other), Lookalikes(ids, other);
    LookalikeMedia(ids, other);
    assert DisposeOne(t, GROUP, ids, MediaMap(faces), person) == Assign(t, ids, GROUP) by { hide Large, Assign; }
    hide *;
    LookalikeRunIs(ids, other, person);
    LookalikesAssigned(ids, other);
    MarkKeepsProcessed(Assign(t, ids, GROUP), Singles(Ids(faces), map[GROUP := ids]));
  }

  /** No result is as intended for a row that is in no cluster but carries the id of one. */
  lemma CurrentIdNotIntended(t: Tables, t': Tables, clusters: Clusters, media: map<string, string>,
                             personOf: map<string, nat>, f: string)
    requires f in t.unassigned && personOf.Keys == clusters.Keys
    requires !InSomeCluster(f, clusters) && CarriesCurrentId(t.unassigned[f], clusters)
    ensures !AsIntended(t, t', clusters, media, personOf)
  {
    assert !FaceAsIntended(t, t', clusters, media, personOf, f);
  }

  lemma OtherCarriesId(ids: seq<string>, other: string)
    requires other !in ids
    ensures other in LookalikeTable(ids, other).unassigned && !InSomeCluster(other, map[GROUP := ids])
    ensures CarriesCurrentId(LookalikeTable(ids, other).unassigned[other], map[GROUP := ids])
  {
  }

  /** The run on the lookalikes, at the default threshold, is not as intended. */
  lemma LookalikesNotIntended(ids: seq<string>, other: string, person: nat)
    requires Distinct(ids) && other !in ids && |ids| >= 2
    ensures IsClustering(Lookalikes(ids, other), 0.4, map[GROUP := ids])
    ensures IsStableClustering(Lookalikes(ids, other), 0.4, map[GROUP := ids])
    ensures !AsIntended(LookalikeTable(ids, other), LookalikeRun(ids, other, person), map[GROUP := ids],
                        MediaMap(Lookalikes(ids, other)), map[GROUP := person])
  {
    hide *;
    LookalikesClustered(ids, other, 0.4);
    OtherCarriesId(ids, other);
    CurrentIdNotIntended(LookalikeTable(ids, other), LookalikeRun(ids, other, person), map[GROUP := ids],
                         MediaMap(Lookalikes(ids, other)), map[GROUP := person], other);
  }

  /** Ten lookalikes are promoted and take the eleventh face along. */
  lemma LeftOverPromotedExample()
    ensures exists ids :: |ids| == 10 && Distinct(ids) && "x" !in ids
              && IsStableClustering(Lookalikes(ids, "x"), 0.4, map[GROUP := ids])
              && PromotedTo(LookalikeRun(ids, "x", 7), "x", 7)
  {
    var ten := ["a", "b", "c", "d", "e", "f", "g", "h", "i", "j"];
    assert forall i :: 0 <= i < 10 ==> ten[i] == ['a' + i as char];
    assert |ten| == 10 && Distinct(ten) && "x" !in ten;
    hide LookalikeRun, PromotedTo, IsStableClustering;
    LookalikesNotIntended(ten, "x", 7);
    PromotedWithLookalikes(ten, "x", 7);
  }

  /** Two lookalikes stay a small cluster, and the third face ends under its id as well. */
  lemma LeftOverStagedExample()
    ensures exists ids :: |ids| == 2 && Distinct(ids) && "x" !in ids
              && IsStableClustering(Lookalikes(ids, "x"), 0.4, map[GROUP := ids])
              && HasRow(LookalikeRun(ids, "x", 7), "x", LEFT_OVER)
  {
    var two := ["a", "b"];
    assert two[0] == ['a'] && two[1] == ['b'];
    assert |two| == 2 && Distinct(two) && "x" !in two;
    hide LookalikeRun, HasRow, IsStableClustering;
    LookalikesNotIntended(two, "x", 7);
    StagedWithLookalikes(two, "x", 7);
  }
}
