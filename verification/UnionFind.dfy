/**
 * The union-find used to merge search results: a `parent` vector, path halving,
 * and no rank or size.  The ranks below are ghost: they only witness that the
 * parent links are acyclic.
 */
module UnionFind {

  /**
   * Node i's link is in range, climbs strictly in rank unless i is a root, and
   * leads to a node with the same representative, which is a root.
   */
  ghost predicate NodeOk(p: seq<nat>, rank: seq<nat>, bound: nat, rep: seq<nat>, i: nat)
    requires i < |p| == |rank| == |rep|
  {
    && p[i] < |p| && rank[i] <= bound
    && (p[i] != i ==> rank[i] < rank[p[i]])
    && (p[i] == i ==> rep[i] == i)
    && rep[p[i]] == rep[i]
    && rep[i] < |p| && p[rep[i]] == rep[i]
  }

  /** Acyclic parent links, with `rep` naming the root of every node. */
  ghost predicate Forest(p: seq<nat>, rank: seq<nat>, bound: nat, rep: seq<nat>) {
    && |p| == |rank| == |rep|
    && (forall i: nat :: i < |p| ==> NodeOk(p, rank, bound, rep, i))
  }

  /** Climbing parent links from x stops at r. */
  ghost predicate ReachesRoot(p: seq<nat>, x: nat, r: nat, steps: nat)
    decreases steps
  {
    x < |p| && (if p[x] == x then x == r else steps > 0 && ReachesRoot(p, p[x], r, steps - 1))
  }

  /** The representative is the root that climbing reaches. */
  lemma {:induction false} ClimbReachesRep(p: seq<nat>, rank: seq<nat>, bound: nat, rep: seq<nat>, x: nat)
    requires Forest(p, rank, bound, rep) && x < |p|
    ensures exists steps: nat :: ReachesRoot(p, x, rep[x], steps)
    decreases bound - rank[x]
  {
    assert NodeOk(p, rank, bound, rep, x);
    if p[x] == x {
      assert ReachesRoot(p, x, rep[x], 0);
    } else {
      assert NodeOk(p, rank, bound, rep, p[x]);
      ClimbReachesRep(p, rank, bound, rep, p[x]);
      var steps: nat :| ReachesRoot(p, p[x], rep[p[x]], steps);
      assert ReachesRoot(p, x, rep[x], steps + 1);
    }
  }

  /** ... and climbing reaches no other root. */
  lemma {:induction false} ClimbOnlyReachesRep(p: seq<nat>, rank: seq<nat>, bound: nat, rep: seq<nat>, x: nat, r: nat,
                                               steps: nat)
    requires Forest(p, rank, bound, rep) && ReachesRoot(p, x, r, steps)
    ensures r == rep[x]
    decreases steps
  {
    assert NodeOk(p, rank, bound, rep, x);
    if p[x] != x {
      ClimbOnlyReachesRep(p, rank, bound, rep, p[x], r, steps - 1);
    }
  }

  /** Pointing a node at its grandparent keeps the forest and every root. */
  lemma HalvingKeepsForest(p: seq<nat>, rank: seq<nat>, bound: nat, rep: seq<nat>, x: nat)
    requires Forest(p, rank, bound, rep) && x < |p| && p[x] != x
    ensures p[x] < |p| && p[p[x]] < |p| && Forest(p[x := p[p[x]]], rank, bound, rep)
    ensures rep[p[p[x]]] == rep[x] && rank[x] < rank[p[p[x]]] <= bound
  {
    assert NodeOk(p, rank, bound, rep, x);
    assert NodeOk(p, rank, bound, rep, p[x]);
    assert NodeOk(p, rank, bound, rep, p[p[x]]);
    var q := p[x := p[p[x]]];
    forall i: nat | i < |q| ensures NodeOk(q, rank, bound, rep, i) {
      assert NodeOk(p, rank, bound, rep, i);
      assert rep[i] != x;
    }
  }

  /**
   * Path halving.  Terminates because the rank grows at every step; changes
   * links but no node's root.
   */
  method Find(parent: array<nat>, start: nat, ghost rank: seq<nat>, ghost bound: nat, ghost rep: seq<nat>)
    returns (x: nat)
    requires start < parent.Length
    requires Forest(parent[..], rank, bound, rep)
    modifies parent
    ensures Forest(parent[..], rank, bound, rep)
    ensures x == rep[start] < parent.Length && parent[x] == x
  {
    x := start;
    assert NodeOk(parent[..], rank, bound, rep, x);
    while parent[x] != x
      invariant x < parent.Length
      invariant Forest(parent[..], rank, bound, rep)
      invariant rep[x] == rep[start] && rank[x] <= bound
      decreases bound - rank[x]
    {
      ghost var before := parent[..];
      HalvingKeepsForest(before, rank, bound, rep, x);
      parent[x] := parent[parent[x]];
      assert parent[..] == before[x := before[before[x]]];
      x := parent[x];
    }
    assert NodeOk(parent[..], rank, bound, rep, x);
  }

  /** Every node whose root was `from` now has root `to`; nobody else moves. */
  ghost function Redirected(rep: seq<nat>, from: nat, to: nat): (r: seq<nat>)
    ensures |r| == |rep|
    ensures forall i :: 0 <= i < |rep| ==> r[i] == if rep[i] == from then to else rep[i]
  {
    seq(|rep|, i requires 0 <= i < |rep| => if rep[i] == from then to else rep[i])
  }

  /** Linking one root under another: some ranks witness that no cycle appears. */
  lemma LinkKeepsForest(p: seq<nat>, rank: seq<nat>, bound: nat, rep: seq<nat>, ra: nat, rb: nat)
    returns (rank': seq<nat>, bound': nat)
    requires Forest(p, rank, bound, rep)
    requires ra < |p| && rb < |p| && p[ra] == ra && p[rb] == rb && ra != rb
    ensures Forest(p[ra := rb], rank', bound', Redirected(rep, ra, rb))
  {
    assert NodeOk(p, rank, bound, rep, ra);
    assert NodeOk(p, rank, bound, rep, rb);
    rank' := if rank[rb] <= rank[ra] then rank[rb := rank[ra] + 1] else rank;
    bound' := bound + 1;
    var q, rep' := p[ra := rb], Redirected(rep, ra, rb);
    forall i: nat | i < |q| ensures NodeOk(q, rank', bound', rep', i) {
      assert NodeOk(p, rank, bound, rep, i);
    }
  }

  /** Two finds and a link: the classes of a and b, and no others, become one. */
  method Union(parent: array<nat>, a: nat, b: nat, ghost rank: seq<nat>, ghost bound: nat, ghost rep: seq<nat>)
    returns (ghost rank': seq<nat>, ghost bound': nat, ghost rep': seq<nat>)
    requires a < parent.Length && b < parent.Length
    requires Forest(parent[..], rank, bound, rep)
    modifies parent
    ensures Forest(parent[..], rank', bound', rep')
    ensures rep' == Redirected(rep, rep[a], rep[b])
  {
    var ra := Find(parent, a, rank, bound, rep);
    assert NodeOk(parent[..], rank, bound, rep, ra);
    var rb := Find(parent, b, rank, bound, rep);
    assert NodeOk(parent[..], rank, bound, rep, ra);
    rank', bound' := rank, bound;
    rep' := Redirected(rep, ra, rb);
    if ra != rb {
      ghost var before := parent[..];
      assert before[ra] == ra by {
        assert NodeOk(before, rank, bound, rep, ra);
        assert NodeOk(before, rank, bound, rep, a);
      }
      rank', bound' := LinkKeepsForest(before, rank, bound, rep, ra, rb);
      parent[ra] := rb;
      assert parent[..] == before[ra := rb];
    } else {
      assert rep' == rep;
    }
  }
}
