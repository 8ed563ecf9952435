/**
 * Merging of external identifiers across search results: results that share an
 * id string, directly or through a chain of other results, end with the same ids.
 */
module IdMerge {
  import opened Prelude
  import opened Graphs
  import opened UnionFind

  /** The identifiers of one result: provider name to value. */
  type Ids = map<string, string>

  function AllIds(ids: Ids): set<string> {
    set key | key in ids :: key + ":" + ids[key]
  }

  predicate HasCommonId(a: Ids, b: Ids) {
    AllIds(a) * AllIds(b) != {}
  }

  /** Fill the keys `a` lacks from `b`. */
  function Merge(a: Ids, b: Ids): Ids {
    b + a
  }

  /** A search result; `ids` is None for kinds of metadata that carry no ids. */
  datatype Wrapper = Wrapper(ids: Option<Ids>, metadata: string)

  datatype Group = Group(sourceId: string, sourceName: string, results: seq<Wrapper>)

  function ApplyIds(w: Wrapper, ids: Ids): Wrapper {
    w.(ids := Some(ids))
  }

  function ExtractIds(ws: seq<Wrapper>): (ids: seq<Ids>)
    ensures |ids| == |ws|
    ensures forall i :: 0 <= i < |ws| ==> ids[i] == ws[i].ids.GetOr(map[])
  {
    seq(|ws|, i requires 0 <= i < |ws| => ws[i].ids.GetOr(map[]))
  }

  // ---------------------------------------------------------------------------
  // What merging means
  // ---------------------------------------------------------------------------

  /** An edge wherever two results share an id string. */
  ghost function ShareGraph(ids: seq<Ids>): (g: Graph)
    ensures |g| == |ids|
    ensures forall i: nat, j: nat :: i < |ids| ==> (j in g[i] <==> j < |ids| && HasCommonId(ids[i], ids[j]))
    ensures Valid(g)
  {
    seq(|ids|, i requires 0 <= i < |ids| => set j: nat | j < |ids| && HasCommonId(ids[i], ids[j]))
  }

  /** The members of c below n, in increasing order. */
  function Members(c: set<nat>, n: nat): (m: seq<nat>)
    ensures InRange(m, n)
  {
    if n == 0 then [] else Members(c, n - 1) + (if n - 1 in c then [n - 1] else [])
  }

  lemma {:induction false} MembersFacts(c: set<nat>, n: nat)
    ensures forall j: nat :: j in Members(c, n) <==> j in c && j < n
    ensures forall a, b :: 0 <= a < b < |Members(c, n)| ==> Members(c, n)[a] < Members(c, n)[b]
  {
    if n > 0 { MembersFacts(c, n - 1); }
  }

  predicate InRange(members: seq<nat>, n: nat) {
    forall x :: 0 <= x < |members| ==> members[x] < n
  }

  /** Ids of the listed results folded together, earlier results taking precedence. */
  function MergeMembers(ids: seq<Ids>, members: seq<nat>): Ids
    requires InRange(members, |ids|)
  {
    if members == [] then map[]
    else Merge(MergeMembers(ids, members[..|members| - 1]), ids[members[|members| - 1]])
  }

  ghost function MergedIds(ids: seq<Ids>, i: nat): Ids
    requires i < |ids|
  {
    MergeMembers(ids, Members(Component(ShareGraph(ids), i), |ids|))
  }

  ghost predicate HasCompany(ids: seq<Ids>, i: nat) {
    exists j: nat :: j != i && Linked(ShareGraph(ids), i, j)
  }

  ghost function MergedWrapper(ws: seq<Wrapper>, i: nat): Wrapper
    requires i < |ws|
  {
    var ids := ExtractIds(ws);
    if HasCompany(ids, i) then ApplyIds(ws[i], MergedIds(ids, i)) else ws[i]
  }

  ghost function MergedWrappers(ws: seq<Wrapper>): (out: seq<Wrapper>)
    ensures |out| == |ws|
    ensures forall i :: 0 <= i < |ws| ==> out[i] == MergedWrapper(ws, i)
  {
    seq(|ws|, i requires 0 <= i < |ws| => MergedWrapper(ws, i))
  }

  /** All results of the first k groups in order. */
  function Flat(groups: seq<Group>, k: nat): seq<Wrapper>
    requires k <= |groups|
  {
    if k == 0 then [] else Flat(groups, k - 1) + groups[k - 1].results
  }

  ghost predicate SameShape(a: seq<Group>, b: seq<Group>) {
    && |a| == |b|
    && forall g :: 0 <= g < |a| ==>
         && a[g].sourceId == b[g].sourceId && a[g].sourceName == b[g].sourceName
         && |a[g].results| == |b[g].results|
  }

  // ---------------------------------------------------------------------------
  // The algorithm
  // ---------------------------------------------------------------------------

  /** The list kept for an id string: some results below n, all carrying it. */
  ghost predicate CarriersOf(ids: seq<Ids>, n: nat, idStr: string, list: seq<nat>)
    requires n <= |ids|
  {
    list != [] && InRange(list, n) && forall x :: 0 <= x < |list| ==> idStr in AllIds(ids[list[x]])
  }

  /** The index from id string to the results below n carrying it. */
  ghost predicate IndexOf(ids: seq<Ids>, n: nat, index: map<string, seq<nat>>)
    requires n <= |ids|
  {
    && (forall s :: s in index ==> CarriersOf(ids, n, s, index[s]))
    && (forall k: nat, s :: k < n && s in AllIds(ids[k]) ==> s in index && k in index[s])
  }

  /** The ids of the results below idx are entered, and those in done of result idx. */
  ghost predicate IndexWith(ids: seq<Ids>, idx: nat, done: set<string>, index: map<string, seq<nat>>)
    requires idx < |ids|
  {
    && (forall s :: s in index ==> CarriersOf(ids, idx + 1, s, index[s]))
    && (forall k: nat, s :: k < idx && s in AllIds(ids[k]) ==> s in index && k in index[s])
    && (forall s :: s in done ==> s in index && idx in index[s])
  }

  lemma IndexStarts(ids: seq<Ids>, idx: nat, index: map<string, seq<nat>>)
    requires idx < |ids| && IndexOf(ids, idx, index)
    ensures IndexWith(ids, idx, {}, index)
  {
  }

  lemma IndexGrows(ids: seq<Ids>, idx: nat, done: set<string>, index: map<string, seq<nat>>, s: string, list: seq<nat>)
    requires idx < |ids| && IndexWith(ids, idx, done, index) && s in AllIds(ids[idx])
    requires list == if s in index then index[s] else []
    ensures IndexWith(ids, idx, done + {s}, index[s := list + [idx]])
  {
    assert forall k: nat :: k in list + [idx] <==> k in list || k == idx;
    hide AllIds;
  }

  lemma IndexComplete(ids: seq<Ids>, idx: nat, index: map<string, seq<nat>>)
    requires idx < |ids| && IndexWith(ids, idx, AllIds(ids[idx]), index)
    ensures IndexOf(ids, idx + 1, index)
  {
    hide AllIds, CarriersOf;
  }

  method BuildIndex(ids: seq<Ids>) returns (index: map<string, seq<nat>>)
    ensures IndexOf(ids, |ids|, index)
  {
    index := map[];
    assert IndexOf(ids, 0, index);
    hide *;
    for idx := 0 to |ids|
      invariant IndexOf(ids, idx, index)
    {
      IndexStarts(ids, idx, index);
      var todo := AllIds(ids[idx]);
      ghost var done: set<string> := {};
      while todo != {}
        invariant todo <= AllIds(ids[idx]) && done + todo == AllIds(ids[idx])
        invariant IndexWith(ids, idx, done, index)
        decreases todo
      {
        var idStr :| idStr in todo;
        var list := if idStr in index then index[idStr] else [];
        IndexGrows(ids, idx, done, index, idStr, list);
        index := index[idStr := list + [idx]];
        todo := todo - {idStr};
        done := done + {idStr};
      }
      assert done == AllIds(ids[idx]);
      IndexComplete(ids, idx, index);
    }
  }

  /** The first upTo listed results have the same representative. */
  ghost predicate Agree(rep: seq<nat>, indices: seq<nat>, upTo: nat)
    requires upTo <= |indices|
  {
    InRange(indices, |rep|) && forall a, b :: 0 <= a < upTo && 0 <= b < upTo ==> rep[indices[a]] == rep[indices[b]]
  }

  /** Every result is linked to its representative. */
  ghost predicate LinkedToRep(g: Graph, rep: seq<nat>) {
    |rep| == |g| && forall i: nat :: i < |g| ==> Linked(g, i, rep[i])
  }

  /** Results that had one representative still have one. */
  ghost predicate Coarser(rep: seq<nat>, rep': seq<nat>) {
    |rep| == |rep'| &&
    forall i: nat, j: nat :: i < |rep| && j < |rep| && rep[i] == rep[j] ==> rep'[i] == rep'[j]
  }

  lemma RedirectKeepsLinks(g: Graph, rep: seq<nat>, a: nat, b: nat)
    requires Valid(g) && LinkedToRep(g, rep) && a < |g| && b < |g| && b in g[a]
    ensures LinkedToRep(g, Redirected(rep, rep[a], rep[b]))
  {
    forall i: nat | i < |g| ensures Linked(g, i, Redirected(rep, rep[a], rep[b])[i]) {
      if rep[i] == rep[a] {
        LinkedSym(g, a, rep[a]);
        LinkedTrans(g, i, rep[a], a);
        LinkedEdge(g, a, b);
        LinkedTrans(g, i, a, b);
        LinkedTrans(g, i, b, rep[b]);
      }
    }
  }

  /** Union the first listed result with each of the others. */
  method UnionAll(parent: array<nat>, indices: seq<nat>, ghost g: Graph, ghost rank: seq<nat>, ghost bound: nat,
                  ghost rep: seq<nat>)
    returns (ghost rank': seq<nat>, ghost bound': nat, ghost rep': seq<nat>)
    requires Forest(parent[..], rank, bound, rep) && Valid(g) && LinkedToRep(g, rep)
    requires |indices| > 1 && InRange(indices, parent.Length)
    requires forall m :: 1 <= m < |indices| ==> indices[m] in g[indices[0]]
    modifies parent
    ensures Forest(parent[..], rank', bound', rep') && LinkedToRep(g, rep')
    ensures Coarser(rep, rep') && Agree(rep', indices, |indices|)
  {
    rank', bound', rep' := rank, bound, rep;
    var root := indices[0];
    for m := 1 to |indices|
      invariant Forest(parent[..], rank', bound', rep') && LinkedToRep(g, rep')
      invariant Coarser(rep, rep') && Agree(rep', indices, m)
    {
      RedirectKeepsLinks(g, rep', root, indices[m]);
      rank', bound', rep' := Union(parent, root, indices[m], rank', bound', rep');
    }
  }

  /** All carriers of an id string share it with the first of them. */
  lemma CarriersLinked(ids: seq<Ids>, index: map<string, seq<nat>>, s: string)
    requires IndexOf(ids, |ids|, index) && s in index
    ensures InRange(index[s], |ids|) && index[s] != []
    ensures forall m :: 1 <= m < |index[s]| ==> index[s][m] in ShareGraph(ids)[index[s][0]]
    ensures |index[s]| == 1 ==> forall rep: seq<nat> :: |rep| == |ids| ==> Agree(rep, index[s], 1)
  {
    var list := index[s];
    assert CarriersOf(ids, |ids|, s, list);
    forall m | 1 <= m < |list| ensures list[m] in ShareGraph(ids)[list[0]] {
      assert s in AllIds(ids[list[0]]) * AllIds(ids[list[m]]);
    }
  }

  lemma AgreementStays(before: seq<nat>, rep: seq<nat>, indices: seq<nat>)
    requires Coarser(before, rep) && Agree(before, indices, |indices|)
    ensures Agree(rep, indices, |indices|)
  {
  }

  /** Union the carriers of every id string, ids taken in any order. */
  method UnionEveryId(parent: array<nat>, ids: seq<Ids>, index: map<string, seq<nat>>)
    returns (ghost rank: seq<nat>, ghost bound: nat, ghost rep: seq<nat>)
    requires parent.Length == |ids| && parent[..] == seq(|ids|, i => i)
    requires IndexOf(ids, |ids|, index)
    modifies parent
    ensures Forest(parent[..], rank, bound, rep) && LinkedToRep(ShareGraph(ids), rep)
    ensures forall s :: s in index ==> Agree(rep, index[s], |index[s]|)
  {
    ghost var g := ShareGraph(ids);
    rank, bound, rep := seq(|ids|, i => 0), 0, seq(|ids|, i => i);
    forall i: nat | i < |ids| ensures Linked(g, i, rep[i]) { LinkedRefl(g, i); }
    assert Forest(parent[..], rank, bound, rep) && LinkedToRep(g, rep);
    var todo := index.Keys;
    hide *;
    while todo != {}
      invariant todo <= index.Keys
      invariant Forest(parent[..], rank, bound, rep) && LinkedToRep(g, rep)
      invariant forall s :: s in index.Keys - todo ==> Agree(rep, index[s], |index[s]|)
      decreases todo
    {
      var idStr :| idStr in todo;
      var indices := index[idStr];
      CarriersLinked(ids, index, idStr);
      if |indices| > 1 {
        ghost var before := rep;
        rank, bound, rep := UnionAll(parent, indices, g, rank, bound, rep);
        forall s | s in index.Keys - todo ensures Agree(rep, index[s], |index[s]|) {
          AgreementStays(before, rep, index[s]);
        }
      }
      todo := todo - {idStr};
    }
  }

  /**
   * Union-find over the results, then the root of each result read off.  Roots
   * agree exactly when a chain of results, each sharing an id string with the
   * next, joins the two.
   */
  method ComponentRoots(ids: seq<Ids>) returns (roots: seq<nat>)
    ensures |roots| == |ids|
    ensures forall i: nat, j: nat :: i < |ids| && j < |ids| ==>
      (roots[i] == roots[j] <==> Linked(ShareGraph(ids), i, j))
  {
    var index := BuildIndex(ids);
    var n := |ids|;
    var parent := new nat[n](i => i);
    assert parent[..] == seq(n, i => i);
    ghost var rank, bound, rep := UnionEveryId(parent, ids, index);
    roots := [];
    for i := 0 to n
      invariant Forest(parent[..], rank, bound, rep)
      invariant roots == rep[..i]
    {
      var r := Find(parent, i, rank, bound, rep);
      roots := roots + [r];
    }
    assert roots == rep;
    RootsAreComponents(ids, index, rep);
  }

  lemma RootsAreComponents(ids: seq<Ids>, index: map<string, seq<nat>>, rep: seq<nat>)
    requires IndexOf(ids, |ids|, index) && LinkedToRep(ShareGraph(ids), rep)
    requires forall s :: s in index ==> Agree(rep, index[s], |index[s]|)
    ensures forall i: nat, j: nat :: i < |ids| && j < |ids| ==>
      (rep[i] == rep[j] <==> Linked(ShareGraph(ids), i, j))
  {
    var g := ShareGraph(ids);
    forall i: nat, j: nat | i < |ids| && j < |ids|
      ensures rep[i] == rep[j] <==> Linked(g, i, j)
    {
      if rep[i] == rep[j] {
        LinkedSym(g, j, rep[j]);
        LinkedTrans(g, i, rep[i], j);
      }
      if Linked(g, i, j) {
        var sameRoot := set k: nat | k < |ids| && rep[k] == rep[i];
        forall a, b | a in sameRoot && a < |g| && b in g[a] ensures b in sameRoot {
          var s :| s in AllIds(ids[a]) * AllIds(ids[b]);
          var x :| 0 <= x < |index[s]| && index[s][x] == a;
          var y :| 0 <= y < |index[s]| && index[s][y] == b;
        }
        ClosedContains(g, sameRoot, i, j);
      }
    }
  }

  ghost function WithRoot(roots: seq<nat>, r: nat): set<nat> {
    set i: nat | i < |roots| && roots[i] == r
  }

  /** The first i results grouped by root. */
  ghost predicate GroupedUpTo(roots: seq<nat>, i: nat, components: map<nat, seq<nat>>)
    requires i <= |roots|
  {
    && (forall k: nat :: k < i ==> roots[k] in components)
    && (forall r: nat :: r in components ==> components[r] == Members(WithRoot(roots, r), i))
  }

  /** i entered at the end of the list of root r. */
  function Entered(components: map<nat, seq<nat>>, r: nat, i: nat): map<nat, seq<nat>> {
    components[r := (if r in components then components[r] else []) + [i]]
  }

  lemma MembersNext(roots: seq<nat>, r: nat, i: nat)
    requires i < |roots|
    ensures Members(WithRoot(roots, r), i + 1) == Members(WithRoot(roots, r), i) + if roots[i] == r then [i] else []
  {
  }

  lemma NewRootHasNone(roots: seq<nat>, i: nat, components: map<nat, seq<nat>>)
    requires i < |roots| && GroupedUpTo(roots, i, components) && roots[i] !in components
    ensures Members(WithRoot(roots, roots[i]), i) == []
  {
    hide Members;
    NoMembersYet(WithRoot(roots, roots[i]), i);
  }

  lemma GroupNext(roots: seq<nat>, i: nat, components: map<nat, seq<nat>>, list: seq<nat>)
    requires i < |roots| && GroupedUpTo(roots, i, components)
    requires list == if roots[i] in components then components[roots[i]] else []
    ensures GroupedUpTo(roots, i + 1, components[roots[i] := list + [i]])
  {
    var next := components[roots[i] := list + [i]];
    if roots[i] !in components { NewRootHasNone(roots, i, components); }
    hide Members, WithRoot;
    assert list == Members(WithRoot(roots, roots[i]), i);
    forall r: nat | r in next ensures next[r] == Members(WithRoot(roots, r), i + 1) {
      MembersNext(roots, r, i);
    }
  }

  lemma EnteredGroups(roots: seq<nat>, i: nat, components: map<nat, seq<nat>>)
    requires i < |roots| && GroupedUpTo(roots, i, components)
    ensures GroupedUpTo(roots, i + 1, Entered(components, roots[i], i))
  {
    hide GroupedUpTo;
    GroupNext(roots, i, components, if roots[i] in components then components[roots[i]] else []);
  }

  lemma NothingGrouped(roots: seq<nat>)
    ensures GroupedUpTo(roots, 0, map[])
  {
  }

  /** Group the results by root, members of each group in increasing order. */
  method GroupByRoot(roots: seq<nat>) returns (components: map<nat, seq<nat>>)
    ensures GroupedUpTo(roots, |roots|, components)
  {
    components := map[];
    NothingGrouped(roots);
    hide *;
    for i := 0 to |roots|
      invariant GroupedUpTo(roots, i, components)
    {
      EnteredGroups(roots, i, components);
      components := Entered(components, roots[i], i);
    }
  }

  lemma NoMembersYet(c: set<nat>, n: nat)
    requires forall j :: j in c ==> j >= n
    ensures Members(c, n) == []
  {
    MembersFacts(c, n);
  }

  /** Where group g starts in the flat list. */
  function Offset(groups: seq<Group>, g: nat): nat
    requires g <= |groups|
  {
    |Flat(groups, g)|
  }

  ghost predicate Addresses(groups: seq<Group>, entry: (nat, nat), k: nat) {
    && entry.0 < |groups| && entry.1 < |groups[entry.0].results|
    && Offset(groups, entry.0) + entry.1 == k
  }

  lemma {:induction false} FlatAt(groups: seq<Group>, m: nat, g: nat, r: nat)
    requires g < m <= |groups| && r < |groups[g].results|
    ensures Offset(groups, g) + r < |Flat(groups, m)|
    ensures Flat(groups, m)[Offset(groups, g) + r] == groups[g].results[r]
  {
    if g < m - 1 {
      FlatAt(groups, m - 1, g, r);
    }
  }

  function SetResult(groups: seq<Group>, g: nat, r: nat, w: Wrapper): (out: seq<Group>)
    requires g < |groups| && r < |groups[g].results|
    ensures SameShape(groups, out)
  {
    groups[g := groups[g].(results := groups[g].results[r := w])]
  }

  lemma {:induction false} FlatUpdate(groups: seq<Group>, m: nat, g: nat, r: nat, w: Wrapper)
    requires g < |groups| && r < |groups[g].results| && m <= |groups|
    ensures Offset(SetResult(groups, g, r, w), m) == Offset(groups, m)
    ensures m <= g ==> Flat(SetResult(groups, g, r, w), m) == Flat(groups, m)
    ensures g < m ==> Offset(groups, g) + r < Offset(groups, m)
    ensures g < m ==> Flat(SetResult(groups, g, r, w), m) == Flat(groups, m)[Offset(groups, g) + r := w]
  {
    if m > 0 {
      FlatUpdate(groups, m - 1, g, r, w);
      if g < m { FlatAt(groups, m, g, r); }
    }
  }

  lemma {:induction false} SameShapeSameOffset(a: seq<Group>, b: seq<Group>, m: nat)
    requires SameShape(a, b) && m <= |a|
    ensures Offset(a, m) == Offset(b, m)
  {
    if m > 0 { SameShapeSameOffset(a, b, m - 1); }
  }

  /** Number all results and pull out their ids. */
  method Flatten(groups: seq<Group>) returns (entries: seq<(nat, nat)>, idsVec: seq<Ids>)
    ensures |entries| == Offset(groups, |groups|)
    ensures forall k :: 0 <= k < |entries| ==> Addresses(groups, entries[k], k)
    ensures idsVec == ExtractIds(Flat(groups, |groups|))
  {
    entries, idsVec := [], [];
    for gi := 0 to |groups|
      invariant |entries| == Offset(groups, gi)
      invariant forall k :: 0 <= k < |entries| ==> Addresses(groups, entries[k], k)
      invariant idsVec == ExtractIds(Flat(groups, gi))
    {
      var results := groups[gi].results;
      for ri := 0 to |results|
        invariant |entries| == Offset(groups, gi) + ri
        invariant forall k :: 0 <= k < |entries| ==> Addresses(groups, entries[k], k)
        invariant idsVec == ExtractIds(Flat(groups, gi) + results[..ri])
      {
        assert Flat(groups, gi) + results[..ri + 1] == Flat(groups, gi) + results[..ri] + [results[ri]];
        entries := entries + [(gi, ri)];
        idsVec := idsVec + [results[ri].ids.GetOr(map[])];
      }
      assert results[..|results|] == results;
    }
  }

  /** A component of two or more is exactly a result with company. */
  lemma CompanyMeansTwo(ids: seq<Ids>, roots: seq<nat>, i: nat, members: seq<nat>)
    requires |roots| == |ids| && i < |ids|
    requires forall a: nat, b: nat :: a < |ids| && b < |ids| ==>
      (roots[a] == roots[b] <==> Linked(ShareGraph(ids), a, b))
    requires members == Members(WithRoot(roots, roots[i]), |roots|)
    ensures members == Members(Component(ShareGraph(ids), i), |ids|)
    ensures i in members
    ensures HasCompany(ids, i) <==> |members| > 1
  {
    var g := ShareGraph(ids);
    MembersFacts(Component(g, i), |ids|);
    assert WithRoot(roots, roots[i]) == Component(g, i);
    if |members| > 1 {
      var j := if members[0] == i then members[1] else members[0];
      assert j in members;
      assert Linked(g, i, j);
    }
    if HasCompany(ids, i) {
      var j: nat :| j != i && Linked(g, i, j);
      LinkedInRange(g, i, j);
      assert j in members && i in members;
    }
  }

  /** One component: fold its ids and write them to every member, unless it has only one. */
  method MergeComponent(ghost original: seq<Group>, groups: seq<Group>, entries: seq<(nat, nat)>, idsVec: seq<Ids>,
                        ghost roots: seq<nat>, ghost r: nat, members: seq<nat>) returns (out: seq<Group>)
    requires SameShape(original, groups)
    requires forall k :: 0 <= k < |entries| ==> Addresses(original, entries[k], k)
    requires |entries| == |idsVec| == |roots| == |Flat(groups, |groups|)| == |Flat(original, |original|)|
    requires idsVec == ExtractIds(Flat(original, |original|))
    requires forall i: nat, j: nat :: i < |roots| && j < |roots| ==>
      (roots[i] == roots[j] <==> Linked(ShareGraph(idsVec), i, j))
    requires members == Members(WithRoot(roots, r), |roots|)
    requires forall i: nat :: i < |roots| && roots[i] == r ==>
      Flat(groups, |groups|)[i] == Flat(original, |original|)[i]
    ensures SameShape(original, out) && |Flat(out, |out|)| == |entries|
    ensures forall i: nat :: i < |roots| ==>
      Flat(out, |out|)[i] == if roots[i] == r then MergedWrapper(Flat(original, |original|), i)
                             else Flat(groups, |groups|)[i]
  {
    out := groups;
    MembersFacts(WithRoot(roots, r), |roots|);
    forall i: nat | i < |roots| && roots[i] == r
      ensures members == Members(Component(ShareGraph(idsVec), i), |idsVec|)
      ensures i in members && (HasCompany(idsVec, i) <==> |members| > 1)
    {
      CompanyMeansTwo(idsVec, roots, i, members);
    }
    if |members| <= 1 { return; }
    var merged := MergeAll(idsVec, members);
    out := ApplyToMembers(original, out, entries, members, merged);
  }

  /** The merge as the search endpoints run it, in place on the result groups. */
  method MergeResultIds(groups: seq<Group>) returns (out: seq<Group>)
    ensures SameShape(groups, out)
    ensures Flat(out, |out|) == MergedWrappers(Flat(groups, |groups|))
  {
    out := groups;
    ghost var ws := Flat(groups, |groups|);
    var entries, idsVec := Flatten(groups);
    var n := |entries|;
    if n <= 1 {
      FewerThanTwo(ws);
      return;
    }
    var roots := ComponentRoots(idsVec);
    var components := GroupByRoot(roots);
    var todo := components.Keys;
    while todo != {}
      invariant todo <= components.Keys
      invariant SameShape(groups, out) && |Flat(out, |out|)| == n
      invariant forall i: nat :: i < n ==>
        Flat(out, |out|)[i] == if roots[i] in todo then ws[i] else MergedWrapper(ws, i)
      decreases todo
    {
      var r :| r in todo;
      out := MergeComponent(groups, out, entries, idsVec, roots, r, components[r]);
      todo := todo - {r};
    }
    assert Flat(out, |out|) == MergedWrappers(ws);
  }

  lemma FewerThanTwo(ws: seq<Wrapper>)
    requires |ws| <= 1
    ensures MergedWrappers(ws) == ws
  {
    var g := ShareGraph(ExtractIds(ws));
    forall i: nat, j: nat | i < |ws| && Linked(g, i, j) ensures i == j {
      LinkedInRange(g, i, j);
    }
  }

  method MergeAll(idsVec: seq<Ids>, members: seq<nat>) returns (merged: Ids)
    requires InRange(members, |idsVec|)
    ensures merged == MergeMembers(idsVec, members)
  {
    merged := map[];
    for k := 0 to |members|
      invariant merged == MergeMembers(idsVec, members[..k])
    {
      assert members[..k + 1][..k] == members[..k];
      merged := Merge(merged, idsVec[members[k]]);
    }
    assert members[..|members|] == members;
  }

  method ApplyToMembers(ghost original: seq<Group>, groups: seq<Group>, entries: seq<(nat, nat)>, members: seq<nat>,
                        merged: Ids) returns (out: seq<Group>)
    requires SameShape(original, groups)
    requires forall k :: 0 <= k < |entries| ==> Addresses(original, entries[k], k)
    requires |entries| == |Flat(groups, |groups|)|
    requires InRange(members, |entries|)
    ensures SameShape(original, out)
    ensures |Flat(out, |out|)| == |entries|
    ensures forall i: nat :: i < |entries| ==>
      Flat(out, |out|)[i] ==
        if i in members then ApplyIds(Flat(groups, |groups|)[i], merged) else Flat(groups, |groups|)[i]
  {
    out := groups;
    for k := 0 to |members|
      invariant SameShape(original, out)
      invariant |Flat(out, |out|)| == |entries|
      invariant forall i: nat :: i < |entries| ==>
        Flat(out, |out|)[i] ==
          if i in members[..k] then ApplyIds(Flat(groups, |groups|)[i], merged) else Flat(groups, |groups|)[i]
    {
      hide ApplyIds, SameShape;
      var idx := members[k];
      var (gi, ri) := entries[idx];
      assert Addresses(original, entries[idx], idx);
      SameShapeSameOffset(original, out, gi);
      FlatAt(out, |out|, gi, ri);
      FlatUpdate(out, |out|, gi, ri, ApplyIds(out[gi].results[ri], merged));
      out := SetResult(out, gi, ri, ApplyIds(out[gi].results[ri], merged));
      assert members[..k + 1] == members[..k] + [idx];
    }
    assert members[..|members|] == members;
  }
}
