/** The similarity graph both face algorithms work on. */
module FaceGraph {
  import opened Graphs

  type Embedding = seq<real>

  /** A detected face: its id, the medium or frame it was found in, and how sure the detector was. */
  datatype Face = Face(id: string, mediaRef: string, embedding: Embedding, confidence: real)

  function Embeddings(faces: seq<Face>): (es: seq<Embedding>)
    ensures |es| == |faces|
    ensures forall i :: 0 <= i < |faces| ==> es[i] == faces[i].embedding
  {
    seq(|faces|, i requires 0 <= i < |faces| => faces[i].embedding)
  }

  function Dot(a: Embedding, b: Embedding): real
    requires |a| == |b|
  {
    if a == [] then 0.0
    else Dot(a[..|a| - 1], b[..|b| - 1]) + a[|a| - 1] * b[|b| - 1]
  }

  /** Dot product of normalised embeddings; 0 for empty or mismatched ones. */
  function CosineSimilarity(a: Embedding, b: Embedding): real {
    if |a| == 0 || |b| == 0 || |a| != |b| then 0.0 else Dot(a, b)
  }

  lemma {:induction false} DotSymmetric(a: Embedding, b: Embedding)
    requires |a| == |b|
    ensures Dot(a, b) == Dot(b, a)
  {
    if a != [] { DotSymmetric(a[..|a| - 1], b[..|b| - 1]); }
  }

  lemma SimilaritySymmetric(a: Embedding, b: Embedding)
    ensures CosineSimilarity(a, b) == CosineSimilarity(b, a)
  {
    if |a| == |b| { DotSymmetric(a, b); }
  }

  function Sum(a: Embedding, b: Embedding): (c: Embedding)
    requires |a| == |b|
    ensures |c| == |a| && forall i :: 0 <= i < |c| ==> c[i] == a[i] + b[i]
  {
    seq(|a|, i requires 0 <= i < |a| => a[i] + b[i])
  }

  function Scaled(k: real, a: Embedding): (c: Embedding)
    ensures |c| == |a| && forall i :: 0 <= i < |c| ==> c[i] == k * a[i]
  {
    seq(|a|, i requires 0 <= i < |a| => k * a[i])
  }

  /** 1 at position i, 0 elsewhere. */
  function Axis(n: nat, i: nat): (c: Embedding)
    ensures |c| == n && forall j :: 0 <= j < n ==> c[j] == if j == i then 1.0 else 0.0
  {
    seq(n, j => if j == i then 1.0 else 0.0)
  }

  lemma {:induction false} DotSum(a: Embedding, b: Embedding, c: Embedding)
    requires |a| == |b| == |c|
    ensures Dot(Sum(a, b), c) == Dot(a, c) + Dot(b, c)
  {
    if a != [] {
      var n := |a| - 1;
      DotSum(a[..n], b[..n], c[..n]);
      assert Sum(a, b)[..n] == Sum(a[..n], b[..n]);
      TimesSum(a[n], b[n], c[n]);
    }
  }

  lemma TimesSum(x: real, y: real, z: real)
    ensures (x + y) * z == x * z + y * z
  {
  }

  lemma ScaledInit(k: real, a: Embedding)
    requires a != []
    ensures Scaled(k, a)[..|a| - 1] == Scaled(k, a[..|a| - 1])
  {
    var n := |a| - 1;
    forall i | 0 <= i < n ensures Scaled(k, a)[i] == Scaled(k, a[..n])[i] { assert a[..n][i] == a[i]; }
  }

  lemma TimesProduct(k: real, x: real, y: real, d: real)
    ensures k * d + (k * x) * y == k * (d + x * y)
  {
  }

  lemma {:induction false} DotScaled(k: real, a: Embedding, c: Embedding)
    requires |a| == |c|
    ensures Dot(Scaled(k, a), c) == k * Dot(a, c)
  {
    if a != [] {
      var n := |a| - 1;
      DotScaled(k, a[..n], c[..n]);
      ScaledInit(k, a);
      TimesProduct(k, a[n], c[n], Dot(a[..n], c[..n]));
    }
  }

  lemma {:induction false} DotZero(n: nat, i: nat, a: Embedding)
    requires |a| == n <= i
    ensures Dot(Axis(n, i), a) == 0.0
  {
    if n > 0 {
      DotZero(n - 1, i, a[..n - 1]);
      assert Axis(n, i)[..n - 1] == Axis(n - 1, i);
    }
  }

  lemma {:induction false} DotAxis(n: nat, i: nat, a: Embedding)
    requires i < |a| == n
    ensures Dot(Axis(n, i), a) == a[i]
  {
    assert Axis(n, i)[..n - 1] == Axis(n - 1, i);
    if i < n - 1 { DotAxis(n - 1, i, a[..n - 1]); } else { DotZero(n - 1, i, a[..n - 1]); }
  }

  /**
   * Similarity is the one product that is linear in each embedding and takes a
   * coordinate along each axis; with an empty or a mismatched embedding it is 0.
   */
  lemma SimilarityLinear(a: Embedding, b: Embedding, k: real, c: Embedding, i: nat)
    requires |a| == |b| == |c| && i < |c|
    ensures CosineSimilarity(Sum(a, b), c) == CosineSimilarity(a, c) + CosineSimilarity(b, c)
    ensures CosineSimilarity(Scaled(k, a), c) == k * CosineSimilarity(a, c)
    ensures CosineSimilarity(Axis(|c|, i), c) == c[i]
    ensures forall d: Embedding :: |d| != |c| ==> CosineSimilarity(d, c) == 0.0
    ensures CosineSimilarity([], []) == 0.0
  {
    DotSum(a, b, c);
    DotScaled(k, a, c);
    DotAxis(|c|, i, c);
    hide Dot, Axis, Scaled, Sum;
  }

  predicate Similar(es: seq<Embedding>, threshold: real, i: nat, j: nat)
    requires i < |es| && j < |es|
  {
    i != j && CosineSimilarity(es[i], es[j]) >= threshold
  }

  /** An edge wherever two different faces reach the threshold. */
  ghost function SimilarityGraph(es: seq<Embedding>, threshold: real): (g: Graph)
    ensures |g| == |es|
    ensures forall i: nat, j: nat :: i < |es| ==> (j in g[i] <==> j < |es| && Similar(es, threshold, i, j))
  {
    seq(|es|, i requires 0 <= i < |es| => set j: nat | j < |es| && Similar(es, threshold, i, j))
  }

  lemma SimilarityGraphValid(es: seq<Embedding>, threshold: real)
    ensures Valid(SimilarityGraph(es, threshold))
  {
    var g := SimilarityGraph(es, threshold);
    forall i: nat, j: nat | i < |g| && j < |g| && j in g[i] ensures i in g[j] {
      SimilaritySymmetric(es[i], es[j]);
    }
  }

  /** The neighbours of i below b in increasing order, each with its score. */
  function Neighbours(es: seq<Embedding>, threshold: real, i: nat, b: nat): (ns: seq<(nat, real)>)
    requires i < |es| && b <= |es|
  {
    if b == 0 then [] else
    var last := if Similar(es, threshold, i, b - 1) then [(b - 1, CosineSimilarity(es[i], es[b - 1]))] else [];
    Neighbours(es, threshold, i, b - 1) + last
  }

  lemma {:induction false} NeighboursAreEdges(es: seq<Embedding>, threshold: real, i: nat, b: nat)
    requires i < |es| && b <= |es|
    ensures forall x :: 0 <= x < |Neighbours(es, threshold, i, b)| ==>
      Neighbours(es, threshold, i, b)[x].0 < b && Similar(es, threshold, i, Neighbours(es, threshold, i, b)[x].0)
    ensures forall j: nat :: j < b && Similar(es, threshold, i, j) ==>
      exists x :: 0 <= x < |Neighbours(es, threshold, i, b)| && Neighbours(es, threshold, i, b)[x].0 == j
  {
    if b > 0 {
      var rest := Neighbours(es, threshold, i, b - 1);
      var all := Neighbours(es, threshold, i, b);
      NeighboursAreEdges(es, threshold, i, b - 1);
      forall j: nat | j < b && Similar(es, threshold, i, j) ensures exists x :: 0 <= x < |all| && all[x].0 == j {
        if j < b - 1 {
          var x :| 0 <= x < |rest| && rest[x].0 == j;
          assert all[x].0 == j;
        } else {
          assert all[|rest|].0 == j;
        }
      }
    }
  }

  /** How far down row k's list has been filled once rows below i, and row i up to j, are done. */
  function Filled(n: nat, i: nat, j: nat, k: nat): nat {
    if k < i then n else if k == i then j else if k < j then i + 1 else i
  }

  /** j entered at the end of the list of i. */
  function WithNeighbour(adj: seq<seq<(nat, real)>>, i: nat, j: nat, sim: real): (adj': seq<seq<(nat, real)>>)
    requires i < |adj|
    ensures |adj'| == |adj|
  {
    adj[i := adj[i] + [(j, sim)]]
  }

  /** Every list holds the neighbours compared so far. */
  ghost predicate FilledTo(es: seq<Embedding>, threshold: real, adj: seq<seq<(nat, real)>>, i: nat, j: nat)
    requires i <= |es| && j <= |es|
  {
    |adj| == |es| && forall k: nat :: k < |es| ==> adj[k] == Neighbours(es, threshold, k, Filled(|es|, i, j, k))
  }

  lemma NothingCompared(es: seq<Embedding>, threshold: real, adj: seq<seq<(nat, real)>>)
    requires |adj| == |es| && forall k :: 0 <= k < |es| ==> adj[k] == []
    ensures FilledTo(es, threshold, adj, 0, 0)
  {
  }

  lemma AllCompared(es: seq<Embedding>, threshold: real, adj: seq<seq<(nat, real)>>)
    requires FilledTo(es, threshold, adj, |es|, |es|)
    ensures |adj| == |es| && forall k: nat :: k < |es| ==> adj[k] == Neighbours(es, threshold, k, |es|)
  {
  }

  /** No face is compared with itself. */
  lemma RowStarts(es: seq<Embedding>, threshold: real, adj: seq<seq<(nat, real)>>, i: nat)
    requires i < |es| && FilledTo(es, threshold, adj, i, i)
    ensures |adj| == |es| && FilledTo(es, threshold, adj, i, i + 1)
  {
    assert Neighbours(es, threshold, i, i + 1) == Neighbours(es, threshold, i, i);
    hide Neighbours;
  }

  lemma RowEnds(es: seq<Embedding>, threshold: real, adj: seq<seq<(nat, real)>>, i: nat)
    requires i < |es| && FilledTo(es, threshold, adj, i, |es|)
    ensures FilledTo(es, threshold, adj, i + 1, i + 1)
  {
    hide Neighbours;
  }

  lemma PairCompared(es: seq<Embedding>, threshold: real, adj: seq<seq<(nat, real)>>, i: nat, j: nat)
    requires i < j < |es| && FilledTo(es, threshold, adj, i, j)
    ensures var sim := CosineSimilarity(es[i], es[j]);
      var adj' := if sim >= threshold then WithNeighbour(WithNeighbour(adj, i, j, sim), j, i, sim) else adj;
      FilledTo(es, threshold, adj', i, j + 1)
  {
    SimilaritySymmetric(es[i], es[j]);
    hide CosineSimilarity;
  }

  /** Compare every pair once and record the edge on both sides. */
  method BuildAdjacency(es: seq<Embedding>, threshold: real) returns (adj: seq<seq<(nat, real)>>)
    ensures |adj| == |es|
    ensures forall k: nat :: k < |es| ==> adj[k] == Neighbours(es, threshold, k, |es|)
  {
    var n := |es|;
    adj := seq(n, _ => []);
    NothingCompared(es, threshold, adj);
    hide *;
    for i := 0 to n
      invariant FilledTo(es, threshold, adj, i, i)
    {
      RowStarts(es, threshold, adj, i);
      for j := i + 1 to n
        invariant |adj| == n
        invariant FilledTo(es, threshold, adj, i, j)
      {
        PairCompared(es, threshold, adj, i, j);
        var sim := CosineSimilarity(es[i], es[j]);
        if sim >= threshold {
          adj := WithNeighbour(adj, i, j, sim);
          adj := WithNeighbour(adj, j, i, sim);
        }
      }
      RowEnds(es, threshold, adj, i);
    }
    AllCompared(es, threshold, adj);
  }
}
