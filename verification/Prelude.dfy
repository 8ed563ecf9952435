/** Small shared datatypes and facts about finite collections. */
module Prelude {
  datatype Option<+T> = None | Some(value: T) {
    function GetOr(default: T): T {
      match this
      case Some(v) => v
      case None => default
    }
  }

  /** No element occurs twice. */
  ghost predicate Distinct<T>(s: seq<T>) {
    forall i, j :: 0 <= i < j < |s| ==> s[i] != s[j]
  }

  /** out lists the elements of s at the increasing positions. */
  ghost predicate Picked<T>(s: seq<T>, at: seq<nat>, out: seq<T>) {
    && |at| == |out|
    && (forall x :: 0 <= x < |at| ==> at[x] < |s| && out[x] == s[at[x]])
    && (forall x, y :: 0 <= x < y < |at| ==> at[x] < at[y])
  }

  /** Positions picked among all but the last element, and perhaps the last one. */
  lemma PickNext<T>(s: seq<T>, at: seq<nat>, out: seq<T>, take: bool)
    requires s != [] && Picked(s[..|s| - 1], at, out)
    ensures Picked(s, at + (if take then [|s| - 1] else []), out + if take then [s[|s| - 1]] else [])
  {
  }

  /** The indices 0..n. */
  function Below(n: nat): (s: set<nat>)
    ensures |s| == n
    ensures forall x: nat :: x in s <==> x < n
  {
    if n == 0 then {} else Below(n - 1) + {n - 1}
  }

  lemma {:induction false} DistinctCount<T>(s: seq<T>)
    requires Distinct(s)
    ensures |set x | x in s| == |s|
  {
    if s != [] {
      var init, last := s[..|s| - 1], s[|s| - 1];
      DistinctCount(init);
      assert s == init + [last];
      assert (set x | x in s) == (set x | x in init) + {last};
    }
  }

  lemma UnusedExists(used: set<nat>)
    ensures exists p: nat :: p !in used
  {
    var bound := UpperBound(used);
    assert bound !in used;
  }

  lemma {:induction false} UpperBound(used: set<nat>) returns (bound: nat)
    ensures forall p: nat :: p in used ==> p < bound
    decreases used
  {
    if used == {} { return 0; }
    var p :| p in used;
    var rest := UpperBound(used - {p});
    bound := if rest <= p then p + 1 else rest;
    assert forall q: nat :: q in used ==> q == p || q in used - {p};
  }

  /** A generated identifier: any number not in use. */
  method Fresh(used: set<nat>) returns (id: nat)
    ensures id !in used
  {
    UnusedExists(used);
    id :| id !in used;
  }
}
