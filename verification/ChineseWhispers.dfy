/**
 * Label propagation over the similarity graph: labels start distinct, every node
 * in turn takes the label its neighbours vote for, in a random order, at most
 * twenty passes.  Order and tie-breaks are left arbitrary.
 */
module ChineseWhispers {
  import opened Prelude
  import opened Graphs
  import opened FaceGraph
  import opened Text

  const ITERATIONS: nat := 20

  /** The summed scores of the listed neighbours currently holding a label. */
  function Votes(neighbours: seq<(nat, real)>, labels: seq<nat>, l: nat): real
    requires NeighboursIn(neighbours, |labels|)
  {
    if neighbours == [] then 0.0
    else
      var last := neighbours[|neighbours| - 1];
      Votes(neighbours[..|neighbours| - 1], labels, l) + if labels[last.0] == l then last.1 else 0.0
  }

  predicate NeighboursIn(neighbours: seq<(nat, real)>, n: nat) {
    forall x :: 0 <= x < |neighbours| ==> neighbours[x].0 < n
  }

  /** Some listed neighbour holds the label. */
  ghost predicate HeldByNeighbour(neighbours: seq<(nat, real)>, labels: seq<nat>, l: nat)
    requires NeighboursIn(neighbours, |labels|)
  {
    exists x :: 0 <= x < |neighbours| && labels[neighbours[x].0] == l
  }

  /** The label is held by a neighbour and no neighbour's label has more votes. */
  ghost predicate Winning(neighbours: seq<(nat, real)>, labels: seq<nat>, l: nat)
    requires NeighboursIn(neighbours, |labels|)
  {
    && HeldByNeighbour(neighbours, labels, l)
    && forall m: nat :: HeldByNeighbour(neighbours, labels, m) ==>
         Votes(neighbours, labels, m) <= Votes(neighbours, labels, l)
  }

  /** Every node with neighbours holds a winning label. */
  ghost predicate Stable(adj: Adjacency, labels: seq<nat>)
    requires |labels| == |adj| && forall i :: 0 <= i < |adj| ==> NeighboursIn(adj[i], |adj|)
  {
    forall i :: 0 <= i < |adj| && adj[i] != [] ==> Winning(adj[i], labels, labels[i])
  }

  /** The adjacency lists hold edges of g. */
  ghost predicate ListsOf(g: Graph, adj: Adjacency) {
    && |adj| == |g|
    && forall i: nat :: i < |g| ==> NeighboursIn(adj[i], |g|) && forall x :: 0 <= x < |adj[i]| ==> adj[i][x].0 in g[i]
  }

  /** Every label is a node of the holder's own component. */
  ghost predicate LabelsInComponent(g: Graph, labels: seq<nat>) {
    |labels| == |g| && forall i: nat :: i < |g| ==> Linked(g, i, labels[i])
  }

  lemma {:induction false} ArgMaxExists(scores: map<nat, real>, keys: set<nat>)
    requires keys != {} && keys <= scores.Keys
    ensures exists best :: best in keys && forall l :: l in keys ==> scores[l] <= scores[best]
    decreases |keys|
  {
    var k :| k in keys;
    var rest := keys - {k};
    if rest != {} {
      ArgMaxExists(scores, rest);
      var b :| b in rest && forall l :: l in rest ==> scores[l] <= scores[b];
      var best := if scores[b] <= scores[k] then k else b;
      assert forall l :: l in keys ==> l == k || l in rest;
      assert best in keys && forall l :: l in keys ==> scores[l] <= scores[best];
    } else {
      assert keys == {k};
    }
  }

  /** Tally the neighbours' labels and pick one with the highest total, ties broken arbitrarily. */
  method BestLabel(neighbours: seq<(nat, real)>, labels: array<nat>) returns (best: nat)
    requires NeighboursIn(neighbours, labels.Length) && neighbours != []
    ensures Winning(neighbours, labels[..], best)
  {
    var labelScores: map<nat, real> := map[];
    for x := 0 to |neighbours|
      invariant forall l: nat :: l in labelScores <==> HeldByNeighbour(neighbours[..x], labels[..], l)
      invariant forall l: nat :: l in labelScores ==> labelScores[l] == Votes(neighbours[..x], labels[..], l)
      invariant forall l: nat :: l !in labelScores ==> Votes(neighbours[..x], labels[..], l) == 0.0
      invariant x > 0 ==> labels[..][neighbours[0].0] in labelScores
    {
      var (neighbour, score) := neighbours[x];
      var heldLabel := labels[neighbour];
      assert neighbours[..x + 1][..x] == neighbours[..x];
      forall l: nat ensures HeldByNeighbour(neighbours[..x + 1], labels[..], l)
          <==> HeldByNeighbour(neighbours[..x], labels[..], l) || l == heldLabel {
        OneMoreHolder(neighbours, labels[..], x, l);
      }
      var votes := if heldLabel in labelScores then labelScores[heldLabel] else 0.0;
      labelScores := labelScores[heldLabel := votes + score];
    }
    assert neighbours[..|neighbours|] == neighbours;
    ArgMaxExists(labelScores, labelScores.Keys);
    best :| best in labelScores && forall l :: l in labelScores ==> labelScores[l] <= labelScores[best];
  }

  lemma OneMoreHolder(neighbours: seq<(nat, real)>, labels: seq<nat>, x: nat, l: nat)
    requires NeighboursIn(neighbours, |labels|) && x < |neighbours|
    ensures HeldByNeighbour(neighbours[..x + 1], labels, l)
      <==> HeldByNeighbour(neighbours[..x], labels, l) || l == labels[neighbours[x].0]
  {
    if HeldByNeighbour(neighbours[..x], labels, l) {
      var y :| 0 <= y < x && labels[neighbours[..x][y].0] == l;
      assert neighbours[..x + 1][y] == neighbours[..x][y];
    }
    if l == labels[neighbours[x].0] {
      assert neighbours[..x + 1][x] == neighbours[x];
    }
    forall y | 0 <= y < x && labels[neighbours[y].0] == l ensures HeldByNeighbour(neighbours[..x], labels, l) {
      assert neighbours[..x][y] == neighbours[y];
    }
  }

  /** A random order of all nodes: any order at all. */
  method Shuffle(n: nat) returns (indices: seq<nat>)
    ensures |indices| == n
    ensures forall x :: 0 <= x < n ==> indices[x] < n
    ensures forall i: nat :: i < n ==> i in indices
  {
    indices := [];
    var left := Below(n);
    while left != {}
      invariant left <= Below(n)
      invariant |indices| + |left| == n
      invariant forall x :: 0 <= x < |indices| ==> indices[x] < n
      invariant forall i: nat :: i < n ==> i in indices || i in left
      decreases left
    {
      var i :| i in left;
      left := left - {i};
      indices := indices + [i];
    }
  }

  // ---------------------------------------------------------------------------
  // Passes, for any order and any tie-break
  // ---------------------------------------------------------------------------

  type Adjacency = seq<seq<(nat, real)>>

  ghost predicate InBounds(adj: Adjacency) {
    forall i :: 0 <= i < |adj| ==> NeighboursIn(adj[i], |adj|)
  }

  /** A node without neighbours keeps its label, any other takes one that wins. */
  ghost predicate IsVisit(adj: Adjacency, labels: seq<nat>, i: nat, labels': seq<nat>)
    requires InBounds(adj) && |labels| == |adj|
  {
    i < |adj| && if adj[i] == [] then labels' == labels else exists best :: TakesLabel(adj, labels, i, best, labels')
  }

  ghost predicate TakesLabel(adj: Adjacency, labels: seq<nat>, i: nat, best: nat, labels': seq<nat>)
    requires InBounds(adj) && |labels| == |adj| && i < |adj|
  {
    Winning(adj[i], labels, best) && labels' == labels[i := best]
  }

  /** The labels after visiting the nodes in order, each seeing the updates before it. */
  ghost predicate Visits(adj: Adjacency, labels: seq<nat>, order: seq<nat>, labels': seq<nat>)
    requires InBounds(adj) && |labels| == |adj|
    decreases |order|
  {
    if order == [] then labels' == labels
    else
      exists mid: seq<nat> ::
        && |mid| == |adj| && Visits(adj, labels, order[..|order| - 1], mid)
        && IsVisit(adj, mid, order[|order| - 1], labels')
  }

  ghost predicate IsOrder(order: seq<nat>, n: nat) {
    |order| == n && (forall x :: 0 <= x < n ==> order[x] < n) && forall i: nat :: i < n ==> i in order
  }

  ghost predicate IsPass(adj: Adjacency, labels: seq<nat>, labels': seq<nat>)
    requires InBounds(adj) && |labels| == |adj|
  {
    exists order :: IsOrder(order, |adj|) && Visits(adj, labels, order, labels')
  }

  /** Labels that k passes can lead to, starting from every node's own. */
  ghost predicate AfterPasses(adj: Adjacency, k: nat, labels: seq<nat>)
    requires InBounds(adj)
  {
    && |labels| == |adj|
    && if k == 0 then forall i :: 0 <= i < |adj| ==> labels[i] == i
       else exists before: seq<nat> :: AfterPasses(adj, k - 1, before) && IsPass(adj, before, labels)
  }

  /** The last of at most ITERATIONS passes changed nothing. */
  ghost predicate EndedEarly(adj: Adjacency, labels: seq<nat>)
    requires InBounds(adj)
  {
    exists k: nat :: k < ITERATIONS && QuietAfter(adj, k, labels)
  }

  ghost predicate QuietAfter(adj: Adjacency, k: nat, labels: seq<nat>)
    requires InBounds(adj)
  {
    AfterPasses(adj, k, labels) && IsPass(adj, labels, labels) && Stable(adj, labels)
  }

  /** At most twenty passes; with fewer the labels are stable. */
  lemma AtMostTwentyPasses(adj: Adjacency, labels: seq<nat>) returns (k: nat)
    requires InBounds(adj) && Propagated(adj, labels)
    ensures k <= 20 && AfterPasses(adj, k, labels) && (k < 20 ==> Stable(adj, labels))
  {
    if EndedEarly(adj, labels) {
      k :| k < ITERATIONS && QuietAfter(adj, k, labels);
    } else {
      k := 20;
    }
  }

  /** Labels that the whole propagation can end with. */
  ghost predicate Propagated(adj: Adjacency, labels: seq<nat>)
    requires InBounds(adj)
  {
    EndedEarly(adj, labels) || AfterPasses(adj, ITERATIONS, labels)
  }

  lemma VisitsNext(adj: Adjacency, labels: seq<nat>, order: seq<nat>, mid: seq<nat>, i: nat, labels': seq<nat>)
    requires InBounds(adj) && |labels| == |adj| == |mid|
    requires Visits(adj, labels, order, mid) && IsVisit(adj, mid, i, labels')
    ensures Visits(adj, labels, order + [i], labels')
  {
    var all := order + [i];
    assert all[..|all| - 1] == order && all[|all| - 1] == i;
    hide IsVisit;
  }

  lemma TakingVisits(adj: Adjacency, labels: seq<nat>, i: nat, best: nat)
    requires InBounds(adj) && |labels| == |adj| && i < |adj| && adj[i] != [] && Winning(adj[i], labels, best)
    ensures IsVisit(adj, labels, i, labels[i := best])
  {
    assert TakesLabel(adj, labels, i, best, labels[i := best]);
  }

  /** The first b nodes of the order hold winning labels. */
  ghost predicate StableUpTo(adj: Adjacency, labels: seq<nat>, order: seq<nat>, b: nat)
    requires InBounds(adj) && |labels| == |adj| && b <= |order|
    requires forall x :: 0 <= x < |order| ==> order[x] < |adj|
  {
    forall x :: 0 <= x < b && adj[order[x]] != [] ==> Winning(adj[order[x]], labels, labels[order[x]])
  }

  lemma StableNext(adj: Adjacency, labels: seq<nat>, order: seq<nat>, b: nat)
    requires InBounds(adj) && |labels| == |adj| && b < |order|
    requires forall x :: 0 <= x < |order| ==> order[x] < |adj|
    requires StableUpTo(adj, labels, order, b)
    requires adj[order[b]] != [] ==> Winning(adj[order[b]], labels, labels[order[b]])
    ensures StableUpTo(adj, labels, order, b + 1)
  {
  }

  lemma StableThroughout(adj: Adjacency, labels: seq<nat>, order: seq<nat>)
    requires InBounds(adj) && |labels| == |adj| && IsOrder(order, |adj|) && StableUpTo(adj, labels, order, |order|)
    ensures Stable(adj, labels)
  {
    forall i | 0 <= i < |adj| && adj[i] != [] ensures Winning(adj[i], labels, labels[i]) {
      assert i in order;
    }
  }

  /** A node with neighbours takes a winning label; changed says whether that is a new one. */
  method Visit(adj: Adjacency, labels: array<nat>, i: nat) returns (changed: bool)
    requires InBounds(adj) && labels.Length == |adj| && i < |adj|
    modifies labels
    ensures IsVisit(adj, old(labels[..]), i, labels[..])
    ensures !changed ==> labels[..] == old(labels[..]) && (adj[i] != [] ==> Winning(adj[i], labels[..], labels[i]))
  {
    changed := false;
    if adj[i] != [] {
      hide Winning;
      var best := BestLabel(adj[i], labels);
      TakingVisits(adj, labels[..], i, best);
      changed := labels[i] != best;
      labels[i] := best;
      assert labels[..] == old(labels[..])[i := best];
    }
  }

  /** One pass: every node in turn takes a winning label, updates visible to later nodes at once. */
  method Pass(adj: Adjacency, labels: array<nat>) returns (changes: nat)
    requires InBounds(adj) && labels.Length == |adj|
    modifies labels
    ensures IsPass(adj, old(labels[..]), labels[..])
    ensures changes == 0 ==> labels[..] == old(labels[..]) && Stable(adj, labels[..])
  {
    changes := 0;
    ghost var start := labels[..];
    var indices := Shuffle(|adj|);
    assert Visits(adj, start, indices[..0], start) && indices[..|indices|] == indices;
    assert StableUpTo(adj, start, indices, 0);
    assert IsOrder(indices, |adj|);
    hide *;
    for x := 0 to |indices|
      invariant Visits(adj, start, indices[..x], labels[..])
      invariant changes == 0 ==> labels[..] == start && StableUpTo(adj, start, indices, x)
    {
      ghost var was := labels[..];
      var changed := Visit(adj, labels, indices[x]);
      if changed { changes := changes + 1; }
      assert indices[..x + 1] == indices[..x] + [indices[x]];
      VisitsNext(adj, start, indices[..x], was, indices[x], labels[..]);
      if changes == 0 { StableNext(adj, start, indices, x); }
    }
    assert IsPass(adj, start, labels[..]) by { PassOf(adj, start, indices, labels[..]); }
    if changes == 0 { StableThroughout(adj, labels[..], indices); }
  }

  /** All passes. `converged` is the early exit of the loop. */
  method Propagate(adj: Adjacency) returns (labels: seq<nat>, converged: bool)
    requires InBounds(adj)
    ensures if converged then EndedEarly(adj, labels) else AfterPasses(adj, ITERATIONS, labels)
  {
    var n := |adj|;
    var current := new nat[n](i => i);
    converged := false;
    for iter := 0 to ITERATIONS
      invariant AfterPasses(adj, iter, current[..])
      invariant !converged
    {
      hide AfterPasses, IsPass, Stable;
      ghost var before := current[..];
      var changes := Pass(adj, current);
      if changes == 0 {
        assert QuietAfter(adj, iter, before);
        converged := true;
        break;
      }
      OnePassMore(adj, iter, before, current[..]);
    }
    labels := current[..];
  }

  lemma OnePassMore(adj: Adjacency, k: nat, before: seq<nat>, labels: seq<nat>)
    requires InBounds(adj) && AfterPasses(adj, k, before) && |labels| == |adj| && IsPass(adj, before, labels)
    ensures AfterPasses(adj, k + 1, labels)
  {
  }

  /** Stable labels can survive a pass: every node may take the label it has. */
  lemma {:induction false} StableVisits(adj: Adjacency, labels: seq<nat>, order: seq<nat>)
    requires InBounds(adj) && |labels| == |adj| && Stable(adj, labels)
    requires forall x :: 0 <= x < |order| ==> order[x] < |adj|
    ensures Visits(adj, labels, order, labels)
    decreases |order|
  {
    if order != [] {
      var init, i := order[..|order| - 1], order[|order| - 1];
      StableVisits(adj, labels, init);
      assert IsVisit(adj, labels, i, labels) by {
        assert labels[i := labels[i]] == labels;
        assert adj[i] != [] ==> TakesLabel(adj, labels, i, labels[i], labels);
      }
      assert init + [i] == order;
      VisitsNext(adj, labels, init, labels, i, labels);
    }
  }

  function InOrder(n: nat): (order: seq<nat>)
    ensures |order| == n && forall i :: 0 <= i < n ==> order[i] == i
  {
    seq(n, i => i)
  }

  lemma InOrderGrows(n: nat)
    ensures InOrder(n + 1) == InOrder(n) + [n]
  {
  }

  lemma PassOf(adj: Adjacency, labels: seq<nat>, order: seq<nat>, labels': seq<nat>)
    requires InBounds(adj) && |labels| == |adj| && IsOrder(order, |adj|) && Visits(adj, labels, order, labels')
    ensures IsPass(adj, labels, labels')
  {
  }

  lemma PassInOrder(adj: Adjacency, labels: seq<nat>, labels': seq<nat>)
    requires InBounds(adj) && |labels| == |adj| && Visits(adj, labels, InOrder(|adj|), labels')
    ensures IsPass(adj, labels, labels')
  {
    forall i: nat | i < |adj| ensures i in InOrder(|adj|) {
      assert InOrder(|adj|)[i] == i;
    }
    PassOf(adj, labels, InOrder(|adj|), labels');
  }

  lemma StableIsQuiet(adj: Adjacency, k: nat, labels: seq<nat>)
    requires InBounds(adj) && AfterPasses(adj, k, labels) && Stable(adj, labels)
    ensures QuietAfter(adj, k, labels)
  {
    StableVisits(adj, labels, InOrder(|adj|));
    PassInOrder(adj, labels, labels);
  }

  // ---------------------------------------------------------------------------
  // Labels never leave a component
  // ---------------------------------------------------------------------------

  lemma VotedLabelLinked(g: Graph, adj: Adjacency, labels: seq<nat>, i: nat, l: nat)
    requires ListsOf(g, adj) && LabelsInComponent(g, labels) && i < |g|
    requires Winning(adj[i], labels, l)
    ensures Linked(g, i, l)
  {
    var x :| 0 <= x < |adj[i]| && labels[adj[i][x].0] == l;
    LinkedEdge(g, i, adj[i][x].0);
    LinkedTrans(g, i, adj[i][x].0, l);
  }

  lemma {:induction false} VisitsStayInComponent(g: Graph, adj: Adjacency, labels: seq<nat>, order: seq<nat>,
                                                 labels': seq<nat>)
    requires ListsOf(g, adj) && InBounds(adj) && LabelsInComponent(g, labels) && Visits(adj, labels, order, labels')
    ensures LabelsInComponent(g, labels')
    decreases |order|
  {
    if order != [] {
      var init, i := order[..|order| - 1], order[|order| - 1];
      var mid: seq<nat> :| |mid| == |adj| && Visits(adj, labels, init, mid) && IsVisit(adj, mid, i, labels');
      VisitsStayInComponent(g, adj, labels, init, mid);
      if adj[i] != [] {
        var best :| TakesLabel(adj, mid, i, best, labels');
        VotedLabelLinked(g, adj, mid, i, best);
      }
    }
  }

  /** However many passes, in whatever orders and with whatever tie-breaks: labels stay in their component. */
  lemma {:induction false} PassesStayInComponent(g: Graph, adj: Adjacency, k: nat, labels: seq<nat>)
    requires ListsOf(g, adj) && InBounds(adj) && AfterPasses(adj, k, labels)
    ensures LabelsInComponent(g, labels)
  {
    if k == 0 {
      forall i: nat | i < |g| ensures Linked(g, i, labels[i]) { LinkedRefl(g, i); }
    } else {
      var before: seq<nat> :| AfterPasses(adj, k - 1, before) && IsPass(adj, before, labels);
      PassesStayInComponent(g, adj, k - 1, before);
      var order :| IsOrder(order, |adj|) && Visits(adj, before, order, labels);
      VisitsStayInComponent(g, adj, before, order, labels);
    }
  }

  // ---------------------------------------------------------------------------
  // From labels to clusters
  // ---------------------------------------------------------------------------

  function ClusterId(l: nat): string {
    "cluster_" + Decimal(l)
  }

  /** Ids of the faces below b holding label l, in order. */
  function Holders(faces: seq<Face>, labels: seq<nat>, l: nat, b: nat): (ids: seq<string>)
    requires b <= |faces| == |labels|
  {
    if b == 0 then [] else
    Holders(faces, labels, l, b - 1) + if labels[b - 1] == l then [faces[b - 1].id] else []
  }

  /** The clusters are the groups of two or more faces with one label. */
  ghost predicate ClustersOf(faces: seq<Face>, labels: seq<nat>, clusters: map<string, seq<string>>)
    requires |labels| == |faces|
  {
    && (forall c :: c in clusters ==> exists l: nat :: ClusterNamed(faces, labels, clusters, c, l))
    && (forall l: nat :: |Holders(faces, labels, l, |faces|)| >= 2 ==> ClusterId(l) in clusters)
  }

  ghost predicate ClusterNamed(faces: seq<Face>, labels: seq<nat>, clusters: map<string, seq<string>>, c: string,
                               l: nat)
    requires |labels| == |faces| && c in clusters
  {
    c == ClusterId(l) && clusters[c] == Holders(faces, labels, l, |faces|) && |clusters[c]| >= 2
  }

  lemma ClusterIdInjective(l: nat, m: nat)
    requires ClusterId(l) == ClusterId(m)
    ensures l == m
  {
    var prefix := "cluster_";
    assert ClusterId(l)[|prefix|..] == Decimal(l) && ClusterId(m)[|prefix|..] == Decimal(m);
    DecimalInjective(l, m);
  }

  /** Raw groups of the faces below b, every label's group under its own name. */
  ghost predicate RawGroups(faces: seq<Face>, labels: seq<nat>, b: nat, clusters: map<string, seq<string>>)
    requires b <= |faces| == |labels|
  {
    && (forall l: nat :: ClusterId(l) in clusters <==> Holders(faces, labels, l, b) != [])
    && (forall l: nat :: ClusterId(l) in clusters ==> clusters[ClusterId(l)] == Holders(faces, labels, l, b))
    && (forall c :: c in clusters ==> exists l: nat :: c == ClusterId(l))
  }

  lemma RawNext(faces: seq<Face>, labels: seq<nat>, i: nat, raw: map<string, seq<string>>, list: seq<string>)
    requires i < |faces| == |labels| && RawGroups(faces, labels, i, raw)
    requires list == if ClusterId(labels[i]) in raw then raw[ClusterId(labels[i])] else []
    ensures RawGroups(faces, labels, i + 1, raw[ClusterId(labels[i]) := list + [faces[i].id]])
  {
    var clusterId := ClusterId(labels[i]);
    var next := raw[clusterId := list + [faces[i].id]];
    assert list == Holders(faces, labels, labels[i], i);
    forall l: nat
      ensures ClusterId(l) in next <==> Holders(faces, labels, l, i + 1) != []
      ensures ClusterId(l) in next ==> next[ClusterId(l)] == Holders(faces, labels, l, i + 1)
    {
      if ClusterId(l) == clusterId { ClusterIdInjective(l, labels[i]); }
    }
    forall c | c in next ensures exists l: nat :: c == ClusterId(l) {
      if c == clusterId { assert c == ClusterId(labels[i]); }
    }
  }

  lemma NoRawGroups(faces: seq<Face>, labels: seq<nat>)
    requires |labels| == |faces|
    ensures RawGroups(faces, labels, 0, map[])
  {
  }

  /** The groups of at least two. */
  function AtLeastTwo(raw: map<string, seq<string>>): (r: map<string, seq<string>>)
    ensures forall c :: c in r <==> c in raw && |raw[c]| >= 2
    ensures forall c :: c in r ==> r[c] == raw[c]
  {
    map c | c in raw && |raw[c]| >= 2 :: raw[c]
  }

  lemma LargeGroupsAreClusters(faces: seq<Face>, labels: seq<nat>, raw: map<string, seq<string>>)
    requires |labels| == |faces| && RawGroups(faces, labels, |faces|, raw)
    ensures ClustersOf(faces, labels, AtLeastTwo(raw))
  {
    var clusters := AtLeastTwo(raw);
    forall c | c in clusters ensures exists l: nat :: ClusterNamed(faces, labels, clusters, c, l) {
      var l: nat :| c == ClusterId(l);
      assert ClusterNamed(faces, labels, clusters, c, l);
    }
  }

  method GroupByLabel(faces: seq<Face>, labels: seq<nat>) returns (clusters: map<string, seq<string>>)
    requires |labels| == |faces|
    ensures ClustersOf(faces, labels, clusters)
  {
    var raw: map<string, seq<string>> := map[];
    NoRawGroups(faces, labels);
    for i := 0 to |labels|
      invariant RawGroups(faces, labels, i, raw)
    {
      var clusterId := ClusterId(labels[i]);
      var list := if clusterId in raw then raw[clusterId] else [];
      RawNext(faces, labels, i, raw, list);
      raw := raw[clusterId := list + [faces[i].id]];
    }
    LargeGroupsAreClusters(faces, labels, raw);
    clusters := AtLeastTwo(raw);
  }

  /** The total similarity between i and the faces below b holding label l. */
  ghost function Score(es: seq<Embedding>, threshold: real, labels: seq<nat>, i: nat, l: nat, b: nat): real
    requires i < |es| == |labels| && b <= |es|
  {
    if b == 0 then 0.0
    else
      var counts := Similar(es, threshold, i, b - 1) && labels[b - 1] == l;
      Score(es, threshold, labels, i, l, b - 1) + if counts then CosineSimilarity(es[i], es[b - 1]) else 0.0
  }

  lemma {:induction false} VotesAreScores(es: seq<Embedding>, threshold: real, labels: seq<nat>, i: nat, l: nat, b: nat)
    requires i < |es| == |labels| && b <= |es|
    requires NeighboursIn(Neighbours(es, threshold, i, b), |labels|)
    ensures Votes(Neighbours(es, threshold, i, b), labels, l) == Score(es, threshold, labels, i, l, b)
  {
    if b > 0 {
      NeighboursAreEdges(es, threshold, i, b - 1);
      VotesAreScores(es, threshold, labels, i, l, b - 1);
      var all := Neighbours(es, threshold, i, b);
      if Similar(es, threshold, i, b - 1) {
        assert all[..|all| - 1] == Neighbours(es, threshold, i, b - 1);
      } else {
        assert all == Neighbours(es, threshold, i, b - 1);
      }
    }
  }

  /** After a pass without changes, no neighbour's label outscores a node's own. */
  lemma StableLabelsOutscore(es: seq<Embedding>, threshold: real, adj: Adjacency, labels: seq<nat>, i: nat, j: nat)
    requires |adj| == |labels| == |es| && i < |es| && j < |es| && Similar(es, threshold, i, j)
    requires forall k: nat :: k < |es| ==> adj[k] == Neighbours(es, threshold, k, |es|) && NeighboursIn(adj[k], |es|)
    requires Stable(adj, labels)
    ensures Score(es, threshold, labels, i, labels[j], |es|) <= Score(es, threshold, labels, i, labels[i], |es|)
    ensures exists k: nat :: k < |es| && Similar(es, threshold, i, k) && labels[k] == labels[i]
  {
    NeighboursAreEdges(es, threshold, i, |es|);
    var x :| 0 <= x < |adj[i]| && adj[i][x].0 == j;
    assert Winning(adj[i], labels, labels[i]);
    assert HeldByNeighbour(adj[i], labels, labels[j]);
    VotesAreScores(es, threshold, labels, i, labels[j], |es|);
    VotesAreScores(es, threshold, labels, i, labels[i], |es|);
    var y :| 0 <= y < |adj[i]| && labels[adj[i][y].0] == labels[i];
  }

  /** No neighbour's label has a higher total similarity than a node's own. */
  ghost predicate NoneOutscores(es: seq<Embedding>, threshold: real, labels: seq<nat>)
    requires |labels| == |es|
  {
    forall i: nat, j: nat :: i < |es| && j < |es| && Similar(es, threshold, i, j) ==>
      Score(es, threshold, labels, i, labels[j], |es|) <= Score(es, threshold, labels, i, labels[i], |es|)
  }

  /** A similar face holds the same label. */
  ghost predicate SharesLabel(es: seq<Embedding>, threshold: real, labels: seq<nat>, i: nat)
    requires i < |es| == |labels|
  {
    exists k: nat :: k < |es| && Similar(es, threshold, i, k) && labels[k] == labels[i]
  }

  /** Every node with neighbours shares its label with one of them. */
  ghost predicate NoneAlone(es: seq<Embedding>, threshold: real, labels: seq<nat>)
    requires |labels| == |es|
  {
    forall i: nat, j: nat :: i < |es| && j < |es| && Similar(es, threshold, i, j) ==>
      SharesLabel(es, threshold, labels, i)
  }

  /** Every face's neighbours with their scores. */
  function AdjacencyOf(es: seq<Embedding>, threshold: real): (adj: Adjacency)
    ensures |adj| == |es| && forall k: nat :: k < |es| ==> adj[k] == Neighbours(es, threshold, k, |es|)
  {
    seq(|es|, k requires 0 <= k < |es| => Neighbours(es, threshold, k, |es|))
  }

  lemma AdjacencyFacts(es: seq<Embedding>, threshold: real)
    ensures InBounds(AdjacencyOf(es, threshold))
    ensures ListsOf(SimilarityGraph(es, threshold), AdjacencyOf(es, threshold))
  {
    forall i: nat | i < |es| ensures NeighboursIn(Neighbours(es, threshold, i, |es|), |es|)
      ensures forall x :: 0 <= x < |Neighbours(es, threshold, i, |es|)| ==>
                Similar(es, threshold, i, Neighbours(es, threshold, i, |es|)[x].0)
    {
      NeighboursAreEdges(es, threshold, i, |es|);
    }
  }

  /** The clusters come from labels that label propagation can end with. */
  ghost predicate IsClustering(faces: seq<Face>, threshold: real, clusters: map<string, seq<string>>) {
    var adj := AdjacencyOf(Embeddings(faces), threshold);
    AdjacencyFacts(Embeddings(faces), threshold);
    exists labels: seq<nat> :: |labels| == |faces| && Propagated(adj, labels) && ClustersOf(faces, labels, clusters)
  }

  /** The clusters come from labels with which label propagation can end early. */
  ghost predicate IsStableClustering(faces: seq<Face>, threshold: real, clusters: map<string, seq<string>>) {
    var adj := AdjacencyOf(Embeddings(faces), threshold);
    AdjacencyFacts(Embeddings(faces), threshold);
    exists labels: seq<nat> :: |labels| == |faces| && EndedEarly(adj, labels) && ClustersOf(faces, labels, clusters)
  }

  lemma EarlyEndClusters(faces: seq<Face>, threshold: real, labels: seq<nat>, clusters: map<string, seq<string>>)
    requires |labels| == |faces| && ClustersOf(faces, labels, clusters)
    requires InBounds(AdjacencyOf(Embeddings(faces), threshold))
    requires EndedEarly(AdjacencyOf(Embeddings(faces), threshold), labels)
    ensures IsStableClustering(faces, threshold, clusters) && IsClustering(faces, threshold, clusters)
  {
  }

  lemma ClusteringLabels(faces: seq<Face>, threshold: real, clusters: map<string, seq<string>>)
    returns (labels: seq<nat>)
    requires IsClustering(faces, threshold, clusters)
    ensures LabelsInComponent(SimilarityGraph(Embeddings(faces), threshold), labels)
    ensures ClustersOf(faces, labels, clusters)
  {
    var adj := AdjacencyOf(Embeddings(faces), threshold);
    AdjacencyFacts(Embeddings(faces), threshold);
    labels :| |labels| == |faces| && Propagated(adj, labels) && ClustersOf(faces, labels, clusters);
    var k: nat :| AfterPasses(adj, k, labels);
    hide ClustersOf;
    PassesStayInComponent(SimilarityGraph(Embeddings(faces), threshold), adj, k, labels);
  }

  lemma StableNoneOutscores(es: seq<Embedding>, threshold: real, labels: seq<nat>)
    requires |labels| == |es| && InBounds(AdjacencyOf(es, threshold)) && Stable(AdjacencyOf(es, threshold), labels)
    ensures NoneOutscores(es, threshold, labels) && NoneAlone(es, threshold, labels)
  {
    forall i: nat, j: nat | i < |es| && j < |es| && Similar(es, threshold, i, j)
      ensures SharesLabel(es, threshold, labels, i)
      ensures Score(es, threshold, labels, i, labels[j], |es|) <= Score(es, threshold, labels, i, labels[i], |es|)
    {
      StableLabelsOutscore(es, threshold, AdjacencyOf(es, threshold), labels, i, j);
    }
  }

  lemma StableClusteringLabels(faces: seq<Face>, threshold: real, clusters: map<string, seq<string>>)
    returns (labels: seq<nat>)
    requires IsStableClustering(faces, threshold, clusters)
    ensures |labels| == |faces| && ClustersOf(faces, labels, clusters)
    ensures NoneOutscores(Embeddings(faces), threshold, labels)
    ensures NoneAlone(Embeddings(faces), threshold, labels)
  {
    var adj := AdjacencyOf(Embeddings(faces), threshold);
    AdjacencyFacts(Embeddings(faces), threshold);
    labels :| |labels| == |faces| && EndedEarly(adj, labels) && ClustersOf(faces, labels, clusters);
    hide ClustersOf;
    StableNoneOutscores(Embeddings(faces), threshold, labels);
  }

  /** The clusters; converged says whether the passes ended early. */
  method Cluster(faces: seq<Face>, threshold: real) returns (clusters: map<string, seq<string>>, ghost converged: bool)
    ensures IsClustering(faces, threshold, clusters)
    ensures converged ==> IsStableClustering(faces, threshold, clusters)
  {
    var es := Embeddings(faces);
    AdjacencyFacts(es, threshold);
    var adj := BuildAdjacency(es, threshold);
    assert adj == AdjacencyOf(es, threshold);
    hide ClustersOf, AfterPasses, EndedEarly;
    var labels, early := Propagate(adj);
    assert |labels| == |faces| by { hide *; PropagatedLength(adj, labels); }
    clusters := GroupByLabel(faces, labels);
    converged := early;
  }

  lemma PropagatedLength(adj: Adjacency, labels: seq<nat>)
    requires InBounds(adj) && Propagated(adj, labels)
    ensures |labels| == |adj|
  {
  }

  // ---------------------------------------------------------------------------
  // What clustering promises
  // ---------------------------------------------------------------------------

  lemma {:induction false} HoldersAre(faces: seq<Face>, labels: seq<nat>, l: nat, b: nat, id: string)
    requires b <= |faces| == |labels|
    ensures id in Holders(faces, labels, l, b) <==> exists i: nat :: i < b && labels[i] == l && faces[i].id == id
  {
    if b > 0 { HoldersAre(faces, labels, l, b - 1, id); }
  }

  lemma MemberHoldsLabel(faces: seq<Face>, labels: seq<nat>, l: nat, i: nat)
    requires |labels| == |faces| && i < |faces| && faces[i].id in Holders(faces, labels, l, |faces|)
    requires forall a, b :: 0 <= a < b < |faces| ==> faces[a].id != faces[b].id
    ensures labels[i] == l
  {
    HoldersAre(faces, labels, l, |faces|, faces[i].id);
  }

  /** Faces of one cluster are joined by a chain of similar faces. */
  lemma ClusterStaysInComponent(faces: seq<Face>, threshold: real, clusters: map<string, seq<string>>, c: string,
                                i: nat, j: nat)
    requires IsClustering(faces, threshold, clusters) && c in clusters
    requires forall a, b :: 0 <= a < b < |faces| ==> faces[a].id != faces[b].id
    requires i < |faces| && j < |faces| && faces[i].id in clusters[c] && faces[j].id in clusters[c]
    ensures Linked(SimilarityGraph(Embeddings(faces), threshold), i, j)
  {
    var g := SimilarityGraph(Embeddings(faces), threshold);
    SimilarityGraphValid(Embeddings(faces), threshold);
    var labels := ClusteringLabels(faces, threshold, clusters);
    var l: nat :| ClusterNamed(faces, labels, clusters, c, l);
    MemberHoldsLabel(faces, labels, l, i);
    MemberHoldsLabel(faces, labels, l, j);
    LinkedSym(g, j, l);
    LinkedTrans(g, i, l, j);
  }

  /** Every cluster has two or more faces, and no face is in two clusters. */
  lemma ClustersDisjoint(faces: seq<Face>, threshold: real, clusters: map<string, seq<string>>)
    requires IsClustering(faces, threshold, clusters)
    requires forall a, b :: 0 <= a < b < |faces| ==> faces[a].id != faces[b].id
    ensures forall c :: c in clusters ==> |clusters[c]| >= 2
    ensures forall c, id :: c in clusters && id in clusters[c] ==> exists i: nat :: i < |faces| && faces[i].id == id
    ensures forall c, d, id :: c in clusters && d in clusters && id in clusters[c] && id in clusters[d] ==> c == d
  {
    var g := SimilarityGraph(Embeddings(faces), threshold);
    var labels := ClusteringLabels(faces, threshold, clusters);
    forall c, id | c in clusters && id in clusters[c]
      ensures exists i: nat :: i < |faces| && faces[i].id == id && c == ClusterId(labels[i])
    {
      var l: nat :| ClusterNamed(faces, labels, clusters, c, l);
      HoldersAre(faces, labels, l, |faces|, id);
    }
    forall c | c in clusters ensures |clusters[c]| >= 2 {
      var l: nat :| ClusterNamed(faces, labels, clusters, c, l);
    }
  }

  /** The total similarity between face i and those of the first b faces that are in the cluster. */
  ghost function Affinity(faces: seq<Face>, threshold: real, i: nat, ids: seq<string>, b: nat): real
    requires i < |faces| && b <= |faces|
  {
    if b == 0 then 0.0
    else
      var similar := Similar(Embeddings(faces), threshold, i, b - 1) && faces[b - 1].id in ids;
      Affinity(faces, threshold, i, ids, b - 1)
        + if similar then CosineSimilarity(faces[i].embedding, faces[b - 1].embedding) else 0.0
  }

  lemma {:induction false} ScoreIsAffinity(faces: seq<Face>, threshold: real, labels: seq<nat>, i: nat, l: nat, b: nat)
    requires i < |faces| == |labels| && b <= |faces|
    requires forall x, y :: 0 <= x < y < |faces| ==> faces[x].id != faces[y].id
    ensures Score(Embeddings(faces), threshold, labels, i, l, b)
         == Affinity(faces, threshold, i, Holders(faces, labels, l, |faces|), b)
  {
    if b > 0 {
      ScoreIsAffinity(faces, threshold, labels, i, l, b - 1);
      HoldersAre(faces, labels, l, |faces|, faces[b - 1].id);
    }
  }

  /** When the passes ended early, a face is at least as similar to its own cluster as to that of any similar face. */
  lemma StableClustersOutscore(faces: seq<Face>, threshold: real, clusters: map<string, seq<string>>, c: string,
                               d: string, i: nat, j: nat)
    requires IsStableClustering(faces, threshold, clusters) && c in clusters && d in clusters
    requires forall x, y :: 0 <= x < y < |faces| ==> faces[x].id != faces[y].id
    requires i < |faces| && j < |faces| && faces[i].id in clusters[c] && faces[j].id in clusters[d]
    requires Similar(Embeddings(faces), threshold, i, j)
    ensures Affinity(faces, threshold, i, clusters[d], |faces|) <= Affinity(faces, threshold, i, clusters[c], |faces|)
  {
    var labels := StableClusteringLabels(faces, threshold, clusters);
    var l: nat :| ClusterNamed(faces, labels, clusters, c, l);
    var m: nat :| ClusterNamed(faces, labels, clusters, d, m);
    MemberHoldsLabel(faces, labels, l, i);
    MemberHoldsLabel(faces, labels, m, j);
    ScoreIsAffinity(faces, threshold, labels, i, l, |faces|);
    ScoreIsAffinity(faces, threshold, labels, i, m, |faces|);
  }

  lemma {:induction false} HoldersDistinct(faces: seq<Face>, labels: seq<nat>, l: nat, b: nat)
    requires b <= |faces| == |labels|
    requires forall x, y :: 0 <= x < y < |faces| ==> faces[x].id != faces[y].id
    ensures Distinct(Holders(faces, labels, l, b))
  {
    if b > 0 {
      HoldersDistinct(faces, labels, l, b - 1);
      HoldersAre(faces, labels, l, b - 1, faces[b - 1].id);
    }
  }

  lemma TwoMembers(s: seq<string>, a: string, b: string)
    requires a in s && b in s && a != b
    ensures |s| >= 2
  {
    var i :| 0 <= i < |s| && s[i] == a;
    var j :| 0 <= j < |s| && s[j] == b;
    assert i != j;
  }

  /** The label's group is a cluster once two faces hold the label. */
  lemma SharedLabelClusters(faces: seq<Face>, labels: seq<nat>, clusters: map<string, seq<string>>, i: nat, k: nat)
    requires |labels| == |faces| && ClustersOf(faces, labels, clusters)
    requires i < |faces| && k < |faces| && faces[i].id != faces[k].id && labels[i] == labels[k]
    ensures var c := ClusterId(labels[i]);
      c in clusters && faces[i].id in clusters[c] && faces[k].id in clusters[c]
  {
    var l := labels[i];
    var c := ClusterId(l);
    HoldersAre(faces, labels, l, |faces|, faces[i].id);
    HoldersAre(faces, labels, l, |faces|, faces[k].id);
    TwoMembers(Holders(faces, labels, l, |faces|), faces[i].id, faces[k].id);
    var m: nat :| ClusterNamed(faces, labels, clusters, c, m);
    ClusterIdInjective(l, m);
  }

  /** When the passes ended early, every face that is similar to some face is in a cluster with one it is similar to. */
  lemma StableClustersCover(faces: seq<Face>, threshold: real, clusters: map<string, seq<string>>, i: nat, j: nat)
    returns (c: string, k: nat)
    requires IsStableClustering(faces, threshold, clusters)
    requires forall x, y :: 0 <= x < y < |faces| ==> faces[x].id != faces[y].id
    requires i < |faces| && j < |faces| && Similar(Embeddings(faces), threshold, i, j)
    ensures k < |faces| && Similar(Embeddings(faces), threshold, i, k)
    ensures c in clusters && faces[i].id in clusters[c] && faces[k].id in clusters[c]
  {
    var labels := StableClusteringLabels(faces, threshold, clusters);
    assert SharesLabel(Embeddings(faces), threshold, labels, i);
    k :| k < |faces| && Similar(Embeddings(faces), threshold, i, k) && labels[k] == labels[i];
    assert faces[i].id != faces[k].id;
    c := ClusterId(labels[i]);
    hide *;
    SharedLabelClusters(faces, labels, clusters, i, k);
  }

  /** A face similar to no other is in no cluster. */
  lemma UnlikeFaceUnclustered(faces: seq<Face>, threshold: real, clusters: map<string, seq<string>>, i: nat, c: string)
    requires IsClustering(faces, threshold, clusters) && i < |faces| && c in clusters
    requires forall x, y :: 0 <= x < y < |faces| ==> faces[x].id != faces[y].id
    requires forall j: nat :: j < |faces| ==> !Similar(Embeddings(faces), threshold, i, j)
    ensures faces[i].id !in clusters[c]
  {
    if faces[i].id in clusters[c] {
      var j := OtherMember(faces, threshold, clusters, i, c);
      ClusterStaysInComponent(faces, threshold, clusters, c, i, j);
      IsolatedAlone(SimilarityGraph(Embeddings(faces), threshold), i, j);
      assert false;
    }
  }

  lemma OtherMember(faces: seq<Face>, threshold: real, clusters: map<string, seq<string>>, i: nat, c: string)
    returns (j: nat)
    requires IsClustering(faces, threshold, clusters) && i < |faces| && c in clusters
    requires forall x, y :: 0 <= x < y < |faces| ==> faces[x].id != faces[y].id
    ensures j < |faces| && j != i && faces[j].id in clusters[c]
  {
    var labels := ClusteringLabels(faces, threshold, clusters);
    var l: nat :| ClusterNamed(faces, labels, clusters, c, l);
    HoldersDistinct(faces, labels, l, |faces|);
    var id := if clusters[c][0] == faces[i].id then clusters[c][1] else clusters[c][0];
    HoldersAre(faces, labels, l, |faces|, id);
    j :| j < |faces| && labels[j] == l && faces[j].id == id;
  }

  /** Cluster ids are those of labels that are face indices. */
  lemma ClusterIdsAreIndices(faces: seq<Face>, threshold: real, clusters: map<string, seq<string>>, c: string)
    requires IsClustering(faces, threshold, clusters) && c in clusters
    ensures exists l: nat :: l < |faces| && c == ClusterId(l)
  {
    var g := SimilarityGraph(Embeddings(faces), threshold);
    var labels := ClusteringLabels(faces, threshold, clusters);
    var l: nat :| ClusterNamed(faces, labels, clusters, c, l);
    HoldersAre(faces, labels, l, |faces|, clusters[c][0]);
    var i: nat :| i < |faces| && labels[i] == l;
    LinkedInRange(g, i, l);
  }
}
