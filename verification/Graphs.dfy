/**
 * Undirected graphs over the indices 0..|g|, given by neighbour sets, and the
 * relation "joined by a chain of edges".  Identity merging and both face
 * algorithms are stated against this one relation.
 */
module Graphs {
  type Graph = seq<set<nat>>

  ghost predicate Valid(g: Graph) {
    && (forall i, j :: 0 <= i < |g| && j in g[i] ==> j < |g|)
    && (forall i, j :: 0 <= i < |g| && 0 <= j < |g| && j in g[i] ==> i in g[j])
  }

  ghost predicate IsPath(g: Graph, p: seq<nat>) {
    && |p| > 0
    && (forall k :: 0 <= k < |p| ==> p[k] < |g|)
    && (forall k :: 0 <= k < |p| - 1 ==> p[k + 1] in g[p[k]])
  }

  ghost predicate PathBetween(g: Graph, p: seq<nat>, i: nat, j: nat) {
    IsPath(g, p) && p[0] == i && p[|p| - 1] == j
  }

  /** Some chain of edges joins i and j. */
  ghost predicate Linked(g: Graph, i: nat, j: nat) {
    exists p: seq<nat> :: PathBetween(g, p, i, j)
  }

  /** Everything joined to i. */
  ghost function Component(g: Graph, i: nat): (c: set<nat>)
    ensures forall j: nat :: j in c <==> j < |g| && Linked(g, i, j)
  {
    set j: nat | j < |g| && Linked(g, i, j)
  }

  ghost predicate Closed(g: Graph, s: set<nat>) {
    forall i, j :: i in s && i < |g| && j in g[i] ==> j in s
  }

  lemma LinkedInRange(g: Graph, i: nat, j: nat)
    requires Linked(g, i, j)
    ensures i < |g| && j < |g|
  {
    var p :| PathBetween(g, p, i, j);
  }

  lemma LinkedRefl(g: Graph, i: nat)
    requires i < |g|
    ensures Linked(g, i, i)
  {
    assert PathBetween(g, [i], i, i);
  }

  lemma LinkedEdge(g: Graph, i: nat, j: nat)
    requires i < |g| && j < |g| && j in g[i]
    ensures Linked(g, i, j)
  {
    assert PathBetween(g, [i, j], i, j);
  }

  lemma LinkedTrans(g: Graph, i: nat, j: nat, k: nat)
    requires Linked(g, i, j) && Linked(g, j, k)
    ensures Linked(g, i, k)
  {
    var p :| PathBetween(g, p, i, j);
    var q :| PathBetween(g, q, j, k);
    var r := p + q[1..];
    forall m | 0 <= m < |r| - 1 ensures r[m + 1] in g[r[m]] {
      if m >= |p| - 1 {
        assert r[m] == q[m - (|p| - 1)];
        assert r[m + 1] == q[m - (|p| - 1) + 1];
      }
    }
    assert PathBetween(g, r, i, k);
  }

  lemma {:induction false} LinkedSym(g: Graph, i: nat, j: nat)
    requires Valid(g) && Linked(g, i, j)
    ensures Linked(g, j, i)
  {
    var p :| PathBetween(g, p, i, j);
    ReversePath(g, p);
  }

  lemma {:induction false} ReversePath(g: Graph, p: seq<nat>)
    requires Valid(g) && IsPath(g, p)
    ensures Linked(g, p[|p| - 1], p[0])
    decreases |p|
  {
    if |p| == 1 {
      LinkedRefl(g, p[0]);
    } else {
      ReversePath(g, p[1..]);
      assert p[1] in g[p[0]];
      LinkedEdge(g, p[1], p[0]);
      LinkedTrans(g, p[|p| - 1], p[1], p[0]);
    }
  }

  /** A set closed under edges contains everything linked to its members. */
  lemma {:induction false} ClosedContains(g: Graph, s: set<nat>, i: nat, j: nat)
    requires Closed(g, s) && i in s && Linked(g, i, j)
    ensures j in s
  {
    var p :| PathBetween(g, p, i, j);
    ClosedPath(g, s, p);
  }

  lemma {:induction false} ClosedPath(g: Graph, s: set<nat>, p: seq<nat>)
    requires Closed(g, s) && IsPath(g, p) && p[0] in s
    ensures p[|p| - 1] in s
    decreases |p|
  {
    if |p| > 1 {
      assert p[1] in g[p[0]];
      ClosedPath(g, s, p[1..]);
    }
  }

  /** Adding nodes and edges keeps every link. */
  lemma LinkedMono(g: Graph, h: Graph, i: nat, j: nat)
    requires |g| <= |h| && forall k :: 0 <= k < |g| ==> g[k] <= h[k]
    requires Linked(g, i, j)
    ensures Linked(h, i, j)
  {
    var p :| PathBetween(g, p, i, j);
    forall m | 0 <= m < |p| - 1 ensures p[m + 1] in h[p[m]] {
      assert p[m] < |g|;
      assert p[m + 1] in g[p[m]];
    }
    assert PathBetween(h, p, i, j);
  }

  /** Linked nodes have the same component. */
  lemma ComponentEqual(g: Graph, i: nat, j: nat)
    requires Valid(g) && Linked(g, i, j)
    ensures Component(g, i) == Component(g, j)
  {
    LinkedSym(g, i, j);
    forall k: nat | k < |g| ensures Linked(g, i, k) <==> Linked(g, j, k) {
      if Linked(g, i, k) { LinkedTrans(g, j, i, k); }
      if Linked(g, j, k) { LinkedTrans(g, i, j, k); }
    }
  }

  /** A node without neighbours other than itself is linked to nothing else. */
  lemma IsolatedAlone(g: Graph, i: nat, j: nat)
    requires i < |g| && g[i] <= {i} && Linked(g, i, j)
    ensures j == i
  {
    assert Closed(g, {i});
    ClosedContains(g, {i}, i, j);
  }
}
