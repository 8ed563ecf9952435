/** Keeping one face, the most confident, of every group of similar faces. */
module DeduplicateFaces {
  import opened Graphs
  import opened FaceGraph

  ghost function FacesGraph(faces: seq<Face>, threshold: real): (g: Graph)
    ensures |g| == |faces|
  {
    SimilarityGraph(Embeddings(faces), threshold)
  }

  /** seed is the first face of its component and pick the most confident one. */
  ghost predicate PickOk(faces: seq<Face>, threshold: real, seed: nat, pick: nat)
    requires seed < |faces| && pick < |faces|
  {
    var g := FacesGraph(faces, threshold);
    && (forall m: nat :: m < seed ==> !Linked(g, seed, m))
    && Linked(g, seed, pick)
    && (forall m: nat :: m < |faces| && Linked(g, seed, m) ==> faces[m].confidence <= faces[pick].confidence)
  }

  /** out lists one most-confident face per component, components in order of first face. */
  ghost predicate PickedBy(faces: seq<Face>, threshold: real, out: seq<Face>, seeds: seq<nat>, picks: seq<nat>) {
    && |seeds| == |picks| == |out|
    && (forall k :: 0 <= k < |out| ==> seeds[k] < |faces| && picks[k] < |faces| && out[k] == faces[picks[k]])
    && (forall k :: 0 <= k < |out| ==> PickOk(faces, threshold, seeds[k], picks[k]))
    && (forall a, b :: 0 <= a < b < |seeds| ==> seeds[a] < seeds[b])
    && (forall i: nat :: i < |faces| ==> HasSeed(FacesGraph(faces, threshold), seeds, i))
  }

  ghost predicate HasSeed(g: Graph, seeds: seq<nat>, i: nat) {
    exists k :: 0 <= k < |seeds| && Linked(g, seeds[k], i)
  }

  ghost predicate IsDeduplication(faces: seq<Face>, threshold: real, out: seq<Face>) {
    exists seeds: seq<nat>, picks: seq<nat> :: PickedBy(faces, threshold, out, seeds, picks)
  }

  // ---------------------------------------------------------------------------
  // The algorithm
  // ---------------------------------------------------------------------------

  ghost predicate ListsEdges(g: Graph, adj: seq<seq<(nat, real)>>) {
    && |adj| == |g|
    && (forall i: nat, x: nat :: i < |g| && x < |adj[i]| ==> adj[i][x].0 < |g| && adj[i][x].0 in g[i])
    && (forall i: nat, j: nat :: i < |g| && j in g[i] ==> exists x: nat :: x < |adj[i]| && adj[i][x].0 == j)
  }

  ghost function Marked(visited: seq<bool>): (s: set<nat>)
    ensures forall v: nat :: v in s <==> v < |visited| && visited[v]
  {
    set v: nat | v < |visited| && visited[v]
  }

  /** Search state: visited is what was visited before plus what is done or on the stack. */
  ghost predicate Searching(g: Graph, before: set<nat>, start: nat, visited: seq<bool>, done: set<nat>,
                            stack: seq<nat>) {
    && |visited| == |g|
    && (forall v: nat :: v in stack ==> v in Marked(visited) && v !in before)
    && (forall v: nat :: v in done ==> v in Marked(visited) && v !in before)
    && (forall v: nat :: v in Marked(visited) ==> v in before || v in done || v in stack)
    && (forall v: nat :: v in Marked(visited) && v !in before ==> Linked(g, start, v))
    && before <= Marked(visited)
    && (start in done || start in stack)
  }

  /** Every neighbour of a finished node has been visited. */
  ghost predicate Expanded(g: Graph, visited: seq<bool>, done: set<nat>)
    requires |visited| == |g|
  {
    forall v: nat, w: nat :: v in done && v < |g| && w in g[v] ==> w in Marked(visited)
  }

  lemma ExploredIsComponent(g: Graph, before: set<nat>, start: nat, visited: seq<bool>, done: set<nat>)
    requires Valid(g) && start < |g| && start !in before && Closed(g, before)
    requires Searching(g, before, start, visited, done, []) && Expanded(g, visited, done)
    ensures done == Component(g, start)
    ensures Marked(visited) == before + Component(g, start)
    ensures Closed(g, Marked(visited))
  {
    forall v: nat, w: nat | v in done && v < |g| && w in g[v] ensures w in done {
      assert w in Marked(visited);
      assert v in g[w];
    }
    forall j: nat | j < |g| && Linked(g, start, j) ensures j in done {
      ClosedContains(g, done, start, j);
    }
    assert Closed(g, done);
  }

  /** Marking and pushing a linked, unvisited node keeps the search state. */
  lemma MarkOne(g: Graph, before: set<nat>, start: nat, visited: seq<bool>, done: set<nat>, stack: seq<nat>, node: nat,
                v: nat)
    requires v < |g| && Searching(g, before, start, visited, done, stack) && !visited[v] && Linked(g, start, v)
    requires Expanded(g, visited, done - {node})
    ensures Marked(visited[v := true]) == Marked(visited) + {v}
    ensures Searching(g, before, start, visited[v := true], done, stack + [v])
    ensures Expanded(g, visited[v := true], done - {node})
  {
  }

  /** Once all listed neighbours are marked, the node is expanded too. */
  lemma NodeExpanded(g: Graph, adj: seq<seq<(nat, real)>>, visited: seq<bool>, done: set<nat>, node: nat)
    requires ListsEdges(g, adj) && node < |g| == |visited| && Expanded(g, visited, done - {node})
    requires forall y: nat :: y < |adj[node]| ==> adj[node][y].0 in Marked(visited)
    ensures Expanded(g, visited, done)
  {
    forall w: nat | w in g[node] ensures w in Marked(visited) {
      var y: nat :| y < |adj[node]| && adj[node][y].0 == w;
    }
  }

  ghost predicate Unvisited(visited: seq<bool>, nodes: set<nat>) {
    forall v: nat :: v in nodes <==> v < |visited| && !visited[v]
  }

  lemma UnvisitedShrinks(visited: seq<bool>, nodes: set<nat>, v: nat)
    requires Unvisited(visited, nodes) && v < |visited| && !visited[v]
    ensures Unvisited(visited[v := true], nodes - {v}) && |nodes - {v}| == |nodes| - 1
  {
    assert nodes == (nodes - {v}) + {v};
  }

  /** The first x listed neighbours are marked. */
  ghost predicate MarkedUpTo(neighbours: seq<(nat, real)>, x: nat, marked: set<nat>)
    requires x <= |neighbours|
  {
    forall y: nat :: y < x ==> neighbours[y].0 in marked
  }

  lemma MarkedNext(neighbours: seq<(nat, real)>, x: nat, marked: set<nat>, marked': set<nat>)
    requires x < |neighbours| && MarkedUpTo(neighbours, x, marked)
    requires marked <= marked' && neighbours[x].0 in marked'
    ensures MarkedUpTo(neighbours, x + 1, marked')
  {
  }

  /** Push the unvisited neighbours of one node. */
  method PushNeighbours(g0: seq<seq<(nat, real)>>, visited: array<bool>, stack0: seq<nat>, node: nat, ghost g: Graph,
                        ghost before: set<nat>, ghost start: nat, ghost done: set<nat>, ghost unvisited: set<nat>)
    returns (stack: seq<nat>, ghost unvisited': set<nat>)
    requires Valid(g) && ListsEdges(g, g0) && node < |g| && node in done
    requires Searching(g, before, start, visited[..], done, stack0)
    requires Expanded(g, visited[..], done - {node})
    requires Unvisited(visited[..], unvisited)
    modifies visited
    ensures Searching(g, before, start, visited[..], done, stack)
    ensures Expanded(g, visited[..], done)
    ensures Unvisited(visited[..], unvisited')
    ensures |unvisited'| + |stack| == |unvisited| + |stack0|
  {
    stack, unvisited' := stack0, unvisited;
    assert Linked(g, start, node) && visited.Length == |g|;
    assert forall x: nat :: x < |g0[node]| ==> g0[node][x].0 < |g| && g0[node][x].0 in g[node];
    assert MarkedUpTo(g0[node], 0, Marked(visited[..]));
    assert forall y: nat, s :: y < |g0[node]| && MarkedUpTo(g0[node], |g0[node]|, s) ==> g0[node][y].0 in s;
    hide *;
    for x := 0 to |g0[node]|
      invariant Searching(g, before, start, visited[..], done, stack)
      invariant Expanded(g, visited[..], done - {node})
      invariant Unvisited(visited[..], unvisited')
      invariant |unvisited'| + |stack| == |unvisited| + |stack0|
      invariant MarkedUpTo(g0[node], x, Marked(visited[..]))
    {
      var neighbour := g0[node][x].0;
      ghost var was := visited[..];
      if !visited[neighbour] {
        LinkedEdge(g, node, neighbour);
        LinkedTrans(g, start, node, neighbour);
        visited[neighbour] := true;
        assert visited[..] == was[neighbour := true];
        MarkOne(g, before, start, was, done, stack, node, neighbour);
        UnvisitedShrinks(was, unvisited', neighbour);
        unvisited' := unvisited' - {neighbour};
        stack := stack + [neighbour];
      }
      MarkedNext(g0[node], x, Marked(was), Marked(visited[..]));
    }
    NodeExpanded(g, g0, visited[..], done, node);
  }

  /** Depth-first search with an explicit stack: the nodes popped are the component of `start`. */
  method Explore(adj: seq<seq<(nat, real)>>, visited: array<bool>, start: nat, ghost g: Graph)
    returns (cluster: seq<nat>)
    requires Valid(g) && ListsEdges(g, adj) && start < |g| == visited.Length && !visited[start]
    requires Closed(g, Marked(visited[..]))
    modifies visited
    ensures cluster != [] && forall v: nat :: v in cluster <==> v in Component(g, start)
    ensures Marked(visited[..]) == old(Marked(visited[..])) + Component(g, start)
    ensures Closed(g, Marked(visited[..]))
  {
    ghost var before := Marked(visited[..]);
    ghost var was := visited[..];
    LinkedRefl(g, start);
    var stack := [start];
    visited[start] := true;
    assert visited[..] == was[start := true];
    assert Marked(visited[..]) == before + {start};
    cluster := [];
    ghost var done: set<nat> := {};
    ghost var unvisited := set v: nat | v < |g| && !visited[..][v];
    while stack != []
      invariant Searching(g, before, start, visited[..], done, stack)
      invariant Expanded(g, visited[..], done)
      invariant forall v: nat :: v in cluster <==> v in done
      invariant Unvisited(visited[..], unvisited)
      decreases |unvisited| + |stack|
    {
      var node := stack[|stack| - 1];
      ghost var full := stack;
      stack := stack[..|stack| - 1];
      assert full == stack + [node];
      assert forall v: nat :: v in full <==> v in stack || v == node;
      assert node in full;
      cluster := cluster + [node];
      done := done + {node};
      assert Searching(g, before, start, visited[..], done, stack);
      stack, unvisited := PushNeighbours(adj, visited, stack, node, g, before, start, done, unvisited);
    }
    ExploredIsComponent(g, before, start, visited[..], done);
    assert start in cluster;
  }

  /** The last of the most confident members. */
  function MostConfident(faces: seq<Face>, cluster: seq<nat>): (best: nat)
    requires cluster != [] && forall x :: 0 <= x < |cluster| ==> cluster[x] < |faces|
    ensures best in cluster && best < |faces|
    ensures forall x :: 0 <= x < |cluster| ==> faces[cluster[x]].confidence <= faces[best].confidence
  {
    var last := cluster[|cluster| - 1];
    if |cluster| == 1 then last
    else
      var init := MostConfident(faces, cluster[..|cluster| - 1]);
      if faces[last].confidence >= faces[init].confidence then last else init
  }

  /** Clusters found so far: the components of increasing seeds, covering every node below i. */
  ghost predicate ClustersUpTo(g: Graph, visited: seq<bool>, clusters: seq<seq<nat>>, seeds: seq<nat>, i: nat)
  {
    && |seeds| == |clusters| && |visited| == |g|
    && (forall k :: 0 <= k < |seeds| ==> seeds[k] < i && seeds[k] < |g| && clusters[k] != [])
    && (forall k :: 0 <= k < |seeds| ==> forall v: nat :: v in clusters[k] <==> v in Component(g, seeds[k]))
    && (forall a, b :: 0 <= a < b < |seeds| ==> seeds[a] < seeds[b])
    && (forall k :: 0 <= k < |seeds| ==> forall m: nat :: m < seeds[k] ==> !Linked(g, seeds[k], m))
    && (forall v: nat :: v in Marked(visited) ==> HasSeed(g, seeds, v))
    && (forall v: nat :: v < i && v < |g| ==> v in Marked(visited))
    && Closed(g, Marked(visited))
  }

  lemma NewSeedIsFirst(g: Graph, visited: seq<bool>, clusters: seq<seq<nat>>, seeds: seq<nat>, i: nat, m: nat)
    requires Valid(g) && ClustersUpTo(g, visited, clusters, seeds, i) && m < i < |g| && i !in Marked(visited)
    ensures !Linked(g, i, m)
  {
    if Linked(g, i, m) {
      LinkedSym(g, i, m);
      ClosedContains(g, Marked(visited), m, i);
    }
  }

  ghost predicate InSomeCluster(clusters: seq<seq<nat>>, i: nat) {
    exists k :: 0 <= k < |clusters| && i in clusters[k]
  }

  /** Every node is in one cluster only, whose members are exactly the nodes linked to it. */
  ghost predicate AreComponents(g: Graph, clusters: seq<seq<nat>>) {
    && (forall i: nat :: i < |g| ==> InSomeCluster(clusters, i))
    && (forall k, v: nat, w: nat :: 0 <= k < |clusters| && v in clusters[k] ==>
          v < |g| && (w in clusters[k] <==> Linked(g, v, w)))
    && (forall a, b, v: nat :: 0 <= a < b < |clusters| ==> !(v in clusters[a] && v in clusters[b]))
  }

  lemma SameClusterLinked(g: Graph, visited: seq<bool>, clusters: seq<seq<nat>>, seeds: seq<nat>, k: nat, v: nat,
                          w: nat)
    requires Valid(g) && ClustersUpTo(g, visited, clusters, seeds, |g|) && k < |clusters| && v in clusters[k]
    ensures v < |g| && (w in clusters[k] <==> Linked(g, v, w))
  {
    var s := seeds[k];
    assert v in Component(g, s);
    LinkedInRange(g, s, v);
    LinkedSym(g, s, v);
    if w in clusters[k] {
      assert w in Component(g, s);
      LinkedTrans(g, v, s, w);
    }
    if Linked(g, v, w) {
      LinkedInRange(g, v, w);
      LinkedTrans(g, s, v, w);
    }
  }

  lemma NotLinkedThrough(g: Graph, s: nat, t: nat, v: nat)
    requires Valid(g) && !Linked(g, t, s) && Linked(g, s, v)
    ensures !Linked(g, t, v)
  {
    LinkedSym(g, s, v);
    if Linked(g, t, v) { LinkedTrans(g, t, v, s); }
  }

  lemma FoundAllComponents(g: Graph, visited: seq<bool>, clusters: seq<seq<nat>>, seeds: seq<nat>)
    requires Valid(g) && ClustersUpTo(g, visited, clusters, seeds, |g|)
    ensures AreComponents(g, clusters)
  {
    forall i: nat | i < |g| ensures InSomeCluster(clusters, i) {
      assert HasSeed(g, seeds, i);
      var k :| 0 <= k < |seeds| && Linked(g, seeds[k], i);
      assert i in clusters[k];
    }
    forall k, v: nat, w: nat | 0 <= k < |clusters| && v in clusters[k]
      ensures v < |g| && (w in clusters[k] <==> Linked(g, v, w))
    {
      SameClusterLinked(g, visited, clusters, seeds, k, v, w);
    }
    forall a, b, v: nat | 0 <= a < b < |clusters| && v in clusters[a] ensures v !in clusters[b] {
      assert v in Component(g, seeds[a]);
      NotLinkedThrough(g, seeds[a], seeds[b], v);
    }
  }

  method FindClusters(adj: seq<seq<(nat, real)>>, ghost g: Graph)
    returns (clusters: seq<seq<nat>>, ghost seeds: seq<nat>)
    requires Valid(g) && ListsEdges(g, adj)
    ensures AreComponents(g, clusters)
    ensures |seeds| == |clusters|
    ensures exists visited: seq<bool> :: ClustersUpTo(g, visited, clusters, seeds, |g|)
  {
    var n := |adj|;
    var visited := new bool[n](_ => false);
    clusters, seeds := [], [];
    for i := 0 to n
      invariant ClustersUpTo(g, visited[..], clusters, seeds, i)
    {
      if !visited[i] {
        ghost var was := visited[..];
        ghost var clusters0, seeds0 := clusters, seeds;
        forall m: nat | m < i ensures !Linked(g, i, m) { NewSeedIsFirst(g, was, clusters, seeds, i, m); }
        var cluster := Explore(adj, visited, i, g);
        clusters := clusters + [cluster];
        seeds := seeds + [i];
        LinkedRefl(g, i);
        ClusterAdded(g, was, visited[..], clusters0, seeds0, i, cluster);
      }
    }
    assert ClustersUpTo(g, visited[..], clusters, seeds, |g|);
    FoundAllComponents(g, visited[..], clusters, seeds);
  }

  lemma ClusterAdded(g: Graph, was: seq<bool>, visited: seq<bool>, clusters: seq<seq<nat>>, seeds: seq<nat>, i: nat,
                     cluster: seq<nat>)
    requires ClustersUpTo(g, was, clusters, seeds, i) && i < |g| == |visited|
    requires forall m: nat :: m < i ==> !Linked(g, i, m)
    requires cluster != [] && forall v: nat :: v in cluster <==> v in Component(g, i)
    requires Marked(visited) == Marked(was) + Component(g, i) && Closed(g, Marked(visited))
    requires Linked(g, i, i)
    ensures ClustersUpTo(g, visited, clusters + [cluster], seeds + [i], i + 1)
  {
    var seeds' := seeds + [i];
    forall v: nat | v in Marked(visited) ensures HasSeed(g, seeds', v) {
      if v in Marked(was) {
        assert HasSeed(g, seeds, v);
        var k :| 0 <= k < |seeds| && Linked(g, seeds[k], v);
        assert seeds'[k] == seeds[k];
      } else {
        assert seeds'[|seeds|] == i && Linked(g, i, v);
      }
    }
  }

  lemma AdjacencyListsEdges(es: seq<Embedding>, threshold: real, adj: seq<seq<(nat, real)>>)
    requires |adj| == |es| && forall k: nat :: k < |es| ==> adj[k] == Neighbours(es, threshold, k, |es|)
    ensures ListsEdges(SimilarityGraph(es, threshold), adj)
  {
    var g := SimilarityGraph(es, threshold);
    forall i: nat, x: nat | i < |g| && x < |adj[i]| ensures adj[i][x].0 < |g| && adj[i][x].0 in g[i] {
      NeighboursAreEdges(es, threshold, i, |es|);
    }
    forall i: nat, j: nat | i < |g| && j in g[i] ensures exists x: nat :: x < |adj[i]| && adj[i][x].0 == j {
      NeighboursAreEdges(es, threshold, i, |es|);
      var x :| 0 <= x < |adj[i]| && adj[i][x].0 == j;
      assert (x as nat) < |adj[i]|;
    }
  }

  lemma TooFewToDeduplicate(faces: seq<Face>, threshold: real)
    requires |faces| <= 1
    ensures IsDeduplication(faces, threshold, faces)
  {
    var seeds: seq<nat> := if |faces| == 1 then [0] else [];
    if |faces| == 1 {
      LinkedRefl(FacesGraph(faces, threshold), 0);
      assert PickOk(faces, threshold, 0, 0);
    }
    assert PickedBy(faces, threshold, faces, seeds, seeds);
  }

  /** The clusters are the components of the faces' graph, each with its first face. */
  ghost predicate Clustered(faces: seq<Face>, threshold: real, clusters: seq<seq<nat>>, seeds: seq<nat>) {
    exists visited: seq<bool> ::
      ClustersUpTo(FacesGraph(faces, threshold), visited, clusters, seeds, |faces|)
  }

  /** Build the similarity graph and find its components. */
  method FaceClusters(faces: seq<Face>, threshold: real) returns (clusters: seq<seq<nat>>, ghost seeds: seq<nat>)
    ensures Clustered(faces, threshold, clusters, seeds)
  {
    var es := Embeddings(faces);
    var adj := BuildAdjacency(es, threshold);
    SimilarityGraphValid(es, threshold);
    AdjacencyListsEdges(es, threshold, adj);
    hide ClustersUpTo, ListsEdges, AreComponents;
    clusters, seeds := FindClusters(adj, FacesGraph(faces, threshold));
  }

  lemma ClusterFaces(faces: seq<Face>, threshold: real, clusters: seq<seq<nat>>, seeds: seq<nat>, k: nat)
    requires Clustered(faces, threshold, clusters, seeds) && k < |clusters|
    ensures |seeds| == |clusters| && seeds[k] < |faces|
    ensures clusters[k] != [] && forall x :: 0 <= x < |clusters[k]| ==> clusters[k][x] < |faces|
  {
    forall x | 0 <= x < |clusters[k]| ensures clusters[k][x] < |faces| {
      assert clusters[k][x] in clusters[k];
    }
  }

  lemma BestIsPick(faces: seq<Face>, threshold: real, clusters: seq<seq<nat>>, seeds: seq<nat>, k: nat, best: nat)
    requires Clustered(faces, threshold, clusters, seeds) && k < |clusters| == |seeds| && seeds[k] < |faces|
    requires best in clusters[k] && best < |faces|
    requires forall x :: 0 <= x < |clusters[k]| ==>
      clusters[k][x] < |faces| && faces[clusters[k][x]].confidence <= faces[best].confidence
    ensures PickOk(faces, threshold, seeds[k], best)
  {
    var g := FacesGraph(faces, threshold);
    var visited: seq<bool> :| ClustersUpTo(g, visited, clusters, seeds, |faces|);
    assert forall v: nat :: v in clusters[k] <==> v in Component(g, seeds[k]);
    hide ClustersUpTo, FacesGraph, Linked;
  }

  lemma AllPicked(faces: seq<Face>, threshold: real, clusters: seq<seq<nat>>, seeds: seq<nat>, out: seq<Face>,
                  picks: seq<nat>)
    requires Clustered(faces, threshold, clusters, seeds) && |out| == |picks| == |clusters| == |seeds|
    requires forall c :: 0 <= c < |picks| ==> picks[c] < |faces| && out[c] == faces[picks[c]]
    requires forall c :: 0 <= c < |picks| ==> seeds[c] < |faces| && PickOk(faces, threshold, seeds[c], picks[c])
    ensures IsDeduplication(faces, threshold, out)
  {
    var g := FacesGraph(faces, threshold);
    var visited: seq<bool> :| ClustersUpTo(g, visited, clusters, seeds, |faces|);
    hide PickOk, FacesGraph;
    forall i: nat | i < |faces| ensures HasSeed(g, seeds, i) {
      assert i in Marked(visited);
    }
    assert PickedBy(faces, threshold, out, seeds, picks);
  }

  method Deduplicate(collectedFaces: seq<Face>, threshold: real) returns (deduplicated: seq<Face>)
    ensures IsDeduplication(collectedFaces, threshold, deduplicated)
  {
    if |collectedFaces| <= 1 {
      TooFewToDeduplicate(collectedFaces, threshold);
      return collectedFaces;
    }
    var clusters; ghost var seeds;
    clusters, seeds := FaceClusters(collectedFaces, threshold);
    hide *;
    deduplicated := [];
    ghost var picks: seq<nat> := [];
    for k := 0 to |clusters|
      invariant |deduplicated| == |picks| == k
      invariant forall c :: 0 <= c < k ==> picks[c] < |collectedFaces| && deduplicated[c] == collectedFaces[picks[c]]
      invariant forall c :: 0 <= c < k ==>
        seeds[c] < |collectedFaces| && PickOk(collectedFaces, threshold, seeds[c], picks[c])
    {
      ClusterFaces(collectedFaces, threshold, clusters, seeds, k);
      var best := if |clusters[k]| == 1 then clusters[k][0] else MostConfident(collectedFaces, clusters[k]);
      BestIsPick(collectedFaces, threshold, clusters, seeds, k, best);
      deduplicated := deduplicated + [collectedFaces[best]];
      picks := picks + [best];
    }
    AllPicked(collectedFaces, threshold, clusters, seeds, deduplicated, picks);
  }

  // ---------------------------------------------------------------------------
  // What deduplication promises
  // ---------------------------------------------------------------------------

  /** Every face has exactly one representative in the result. */
  lemma OnePerComponent(faces: seq<Face>, threshold: real, out: seq<Face>, seeds: seq<nat>, picks: seq<nat>, i: nat)
    requires PickedBy(faces, threshold, out, seeds, picks) && i < |faces|
    ensures exists k :: 0 <= k < |picks| && Linked(FacesGraph(faces, threshold), i, picks[k])
    ensures forall a, b :: 0 <= a < b < |picks| ==>
      !(Linked(FacesGraph(faces, threshold), i, picks[a]) && Linked(FacesGraph(faces, threshold), i, picks[b]))
  {
    var g := FacesGraph(faces, threshold);
    SimilarityGraphValid(Embeddings(faces), threshold);
    assert HasSeed(g, seeds, i);
    var k :| 0 <= k < |seeds| && Linked(g, seeds[k], i);
    assert PickOk(faces, threshold, seeds[k], picks[k]);
    LinkedSym(g, seeds[k], i);
    LinkedTrans(g, i, seeds[k], picks[k]);
    forall a, b | 0 <= a < b < |picks| ensures !(Linked(g, i, picks[a]) && Linked(g, i, picks[b])) {
      if Linked(g, i, picks[a]) && Linked(g, i, picks[b]) {
        LinkedSym(g, i, picks[a]);
        LinkedTrans(g, picks[a], i, picks[b]);
        PicksNotLinked(faces, threshold, out, seeds, picks, a, b);
      }
    }
  }

  lemma PicksNotLinked(faces: seq<Face>, threshold: real, out: seq<Face>, seeds: seq<nat>, picks: seq<nat>, a: nat,
                       b: nat)
    requires PickedBy(faces, threshold, out, seeds, picks) && a < b < |picks|
    ensures !Linked(FacesGraph(faces, threshold), picks[a], picks[b])
  {
    var g := FacesGraph(faces, threshold);
    SimilarityGraphValid(Embeddings(faces), threshold);
    if Linked(g, picks[a], picks[b]) {
      assert PickOk(faces, threshold, seeds[a], picks[a]) && PickOk(faces, threshold, seeds[b], picks[b]);
      LinkedTrans(g, seeds[a], picks[a], picks[b]);
      LinkedSym(g, seeds[b], picks[b]);
      LinkedTrans(g, seeds[a], picks[b], seeds[b]);
      LinkedSym(g, seeds[a], seeds[b]);
    }
  }

  /** Every face is joined to a face kept of which the detector was at least as sure. */
  lemma KeptMoreConfident(faces: seq<Face>, threshold: real, out: seq<Face>, i: nat) returns (k: nat, pick: nat)
    requires IsDeduplication(faces, threshold, out) && i < |faces|
    ensures k < |out| && pick < |faces| && out[k] == faces[pick]
    ensures Linked(FacesGraph(faces, threshold), i, pick) && faces[i].confidence <= out[k].confidence
  {
    var seeds: seq<nat>, picks: seq<nat> :| PickedBy(faces, threshold, out, seeds, picks);
    var g := FacesGraph(faces, threshold);
    SimilarityGraphValid(Embeddings(faces), threshold);
    assert HasSeed(g, seeds, i);
    k :| k < |seeds| && Linked(g, seeds[k], i);
    pick := picks[k];
    assert PickOk(faces, threshold, seeds[k], pick);
    LinkedSym(g, seeds[k], i);
    LinkedTrans(g, i, seeds[k], pick);
  }

  /** Any two faces kept are below the threshold. */
  lemma KeptFacesDiffer(faces: seq<Face>, threshold: real, out: seq<Face>)
    requires IsDeduplication(faces, threshold, out)
    ensures forall a, b :: 0 <= a < b < |out| ==> CosineSimilarity(out[a].embedding, out[b].embedding) < threshold
  {
    var seeds: seq<nat>, picks: seq<nat> :| PickedBy(faces, threshold, out, seeds, picks);
    var g := FacesGraph(faces, threshold);
    forall a, b | 0 <= a < b < |out| ensures CosineSimilarity(out[a].embedding, out[b].embedding) < threshold {
      if CosineSimilarity(out[a].embedding, out[b].embedding) >= threshold {
        if picks[a] == picks[b] {
          LinkedRefl(g, picks[a]);
        } else {
          assert Similar(Embeddings(faces), threshold, picks[a], picks[b]);
          LinkedEdge(g, picks[a], picks[b]);
        }
        PicksNotLinked(faces, threshold, out, seeds, picks, a, b);
      }
    }
  }

  lemma {:induction false} IncreasingFromZero(s: seq<nat>, k: nat)
    requires forall a, b :: 0 <= a < b < |s| ==> s[a] < s[b]
    requires k < |s|
    ensures s[k] >= k
  {
    if k > 0 { IncreasingFromZero(s, k - 1); }
  }

  lemma {:induction false} CoveringIsIdentity(s: seq<nat>, n: nat, k: nat)
    requires forall a, b :: 0 <= a < b < |s| ==> s[a] < s[b]
    requires forall x: nat :: x < n ==> x in s
    requires forall a :: 0 <= a < |s| ==> s[a] < n
    ensures k < n ==> k < |s| && s[k] == k
  {
    if k < n {
      if k > 0 { CoveringIsIdentity(s, n, k - 1); }
      assert k in s;
      var a :| 0 <= a < |s| && s[a] == k;
      IncreasingFromZero(s, a);
      if a < k {
        CoveringIsIdentity(s, n, a);
      }
    }
  }

  /** Faces that already differ are all kept, in order. */
  lemma DifferentFacesAllKept(faces: seq<Face>, threshold: real, out: seq<Face>)
    requires IsDeduplication(faces, threshold, out)
    requires forall a, b :: 0 <= a < b < |faces| ==>
      CosineSimilarity(faces[a].embedding, faces[b].embedding) < threshold
    ensures out == faces
  {
    var seeds: seq<nat>, picks: seq<nat> :| PickedBy(faces, threshold, out, seeds, picks);
    var g := FacesGraph(faces, threshold);
    forall i: nat, j: nat | i < |faces| && Linked(g, i, j) ensures i == j {
      forall w: nat | w in g[i] ensures false {
        SimilaritySymmetric(faces[i].embedding, faces[w].embedding);
      }
      IsolatedAlone(g, i, j);
    }
    forall i: nat | i < |faces| ensures i in seeds {
      assert HasSeed(g, seeds, i);
    }
    forall k: nat | k < |out| ensures picks[k] == seeds[k] {
      assert PickOk(faces, threshold, seeds[k], picks[k]);
    }
    forall k: nat | k < |faces| ensures k < |seeds| && seeds[k] == k {
      CoveringIsIdentity(seeds, |faces|, k);
    }
    if |seeds| > |faces| { IncreasingFromZero(seeds, |faces|); }
    assert |out| >= |faces| by {
      if |faces| > 0 { CoveringIsIdentity(seeds, |faces|, |faces| - 1); }
    }
    forall k: nat | k < |out| ensures out[k] == faces[k] {
      assert picks[k] == seeds[k] == k;
    }
  }

  /** Running deduplication on its own result returns that result. */
  lemma DeduplicateTwice(faces: seq<Face>, threshold: real, once: seq<Face>, twice: seq<Face>)
    requires IsDeduplication(faces, threshold, once) && IsDeduplication(once, threshold, twice)
    ensures twice == once
  {
    KeptFacesDiffer(faces, threshold, once);
    DifferentFacesAllKept(once, threshold, twice);
  }
}
