/**
 * The path of each tag, filled in by walking down from a starting parent.  The
 * walk is recursion over lists that shrink at every level, so it ends even when
 * the parent links form cycles.
 */
module TagPaths {
  import opened Prelude
  import opened Text

  datatype Tag = Tag(id: string, name: string, parent: Option<string>, path: string)

  function ChildrenOf(list: seq<Tag>, parent: Option<string>): (r: seq<Tag>)
    ensures forall t :: t in r <==> t in list && t.parent == parent
  {
    if list == [] then []
    else (if list[0].parent == parent then [list[0]] else []) + ChildrenOf(list[1..], parent)
  }

  function Others(list: seq<Tag>, parent: Option<string>): (r: seq<Tag>)
    ensures forall t :: t in r <==> t in list && t.parent != parent
    ensures |r| + |ChildrenOf(list, parent)| == |list|
  {
    if list == [] then []
    else (if list[0].parent != parent then [list[0]] else []) + Others(list[1..], parent)
  }

  function ChildPath(path: string, t: Tag): string {
    path + t.name + "/"
  }

  function Fill(parent: Option<string>, path: string, list: seq<Tag>): seq<Tag>
    decreases |list|, 1
  {
    var elements, remaining := ChildrenOf(list, parent), Others(list, parent);
    FillEach(elements, path, remaining)
  }

  /** Each element with its path, followed by everything below it. */
  function FillEach(elements: seq<Tag>, path: string, remaining: seq<Tag>): seq<Tag>
    decreases |elements| + |remaining|, 0
  {
    if elements == [] then []
    else
      var e := elements[0];
      [e.(path := path)] + Fill(Some(e.id), ChildPath(path, e), remaining) + FillEach(elements[1..], path, remaining)
  }

  // ---------------------------------------------------------------------------
  // What the walk is meant to list
  // ---------------------------------------------------------------------------

  ghost predicate DistinctIds(list: seq<Tag>) {
    forall i, j :: 0 <= i < j < |list| ==> list[i].id != list[j].id
  }

  ghost predicate HasId(list: seq<Tag>, id: string) {
    exists t :: t in list && t.id == id
  }

  /** The start is the root, or no tag of the list. */
  ghost predicate Outside(start: Option<string>, list: seq<Tag>) {
    start.Some? ==> !HasId(list, start.value)
  }

  /** Tags of the list, each the parent of the next, the first directly below the start. */
  ghost predicate Chain(list: seq<Tag>, start: Option<string>, c: seq<Tag>) {
    && c != []
    && (forall i :: 0 <= i < |c| ==> c[i] in list)
    && c[0].parent == start
    && (forall i :: 0 < i < |c| ==> c[i].parent == Some(c[i - 1].id))
  }

  /** The starting path followed by the names of all but the last tag, each with a slash. */
  function PathAlong(path: string, c: seq<Tag>): string
    requires c != []
    decreases |c|
  {
    if |c| == 1 then path else PathAlong(ChildPath(path, c[0]), c[1..])
  }

  /** The output entry of the tag at the end of a chain. */
  function Entry(path: string, c: seq<Tag>): Tag
    requires c != []
  {
    c[|c| - 1].(path := PathAlong(path, c))
  }

  ghost predicate Leads(list: seq<Tag>, start: Option<string>, path: string, c: seq<Tag>, t: Tag) {
    Chain(list, start, c) && t == Entry(path, c)
  }

  // ---------------------------------------------------------------------------
  // Exactly the tags whose parent chain reaches the start
  // ---------------------------------------------------------------------------

  ghost predicate ListedUnder(e: Tag, path: string, remaining: seq<Tag>, t: Tag) {
    t == e.(path := path) || t in Fill(Some(e.id), ChildPath(path, e), remaining)
  }

  lemma {:induction false} ListedUnderSome(elements: seq<Tag>, path: string, remaining: seq<Tag>, t: Tag)
    ensures t in FillEach(elements, path, remaining) <==>
            exists e :: e in elements && ListedUnder(e, path, remaining, t)
  {
    if elements != [] {
      ListedUnderSome(elements[1..], path, remaining, t);
      if ListedUnder(elements[0], path, remaining, t) { assert elements[0] in elements; }
      forall e | e in elements && e != elements[0] ensures e in elements[1..] {}
    }
  }

  lemma DistinctParts(a: seq<Tag>, b: seq<Tag>)
    requires DistinctIds(a) && DistinctIds(b)
    requires forall s, t :: s in a && t in b ==> s.id != t.id
    ensures DistinctIds(a + b)
  {
  }

  lemma {:induction false} SplitFacts(list: seq<Tag>, parent: Option<string>)
    requires DistinctIds(list)
    ensures DistinctIds(ChildrenOf(list, parent)) && DistinctIds(Others(list, parent))
  {
    if list != [] {
      var t, rest := list[0], list[1..];
      SplitFacts(rest, parent);
      assert forall s :: s in rest ==> t.id != s.id;
      DistinctParts([t], ChildrenOf(rest, parent));
      DistinctParts([t], Others(rest, parent));
    }
  }

  lemma SameIdSameTag(list: seq<Tag>, s: Tag, t: Tag)
    requires DistinctIds(list) && s in list && t in list && s.id == t.id
    ensures s == t
  {
    var i :| 0 <= i < |list| && list[i] == s;
    var j :| 0 <= j < |list| && list[j] == t;
    assert !(i < j) && !(j < i);
  }

  /** Below a child, the rest of the list holds neither the child nor another child of the start. */
  lemma ChildIsOutside(list: seq<Tag>, start: Option<string>, e: Tag)
    requires DistinctIds(list) && e in ChildrenOf(list, start)
    ensures Outside(Some(e.id), Others(list, start))
  {
    forall t | t in Others(list, start) ensures t.id != e.id {
      if t.id == e.id { SameIdSameTag(list, e, t); }
    }
  }

  /** A chain is its first tag followed by a chain below it in the rest of the list. */
  lemma ChainTail(list: seq<Tag>, start: Option<string>, c: seq<Tag>)
    requires Outside(start, list) && Chain(list, start, c) && |c| > 1
    ensures c[0] in ChildrenOf(list, start) && Chain(Others(list, start), Some(c[0].id), c[1..])
  {
    forall i | 0 < i < |c| ensures c[i] in Others(list, start) {
      assert c[i - 1] in list;
    }
  }

  lemma ChainCons(list: seq<Tag>, start: Option<string>, e: Tag, c: seq<Tag>)
    requires e in ChildrenOf(list, start) && Chain(Others(list, start), Some(e.id), c)
    ensures Chain(list, start, [e] + c)
  {
    var d := [e] + c;
    forall i | 0 <= i < |d| ensures d[i] in list && (i > 0 ==> d[i].parent == Some(d[i - 1].id)) {
      if i > 0 { assert d[i] == c[i - 1] && c[i - 1] in Others(list, start); }
    }
  }

  lemma EntryCons(path: string, e: Tag, c: seq<Tag>)
    requires c != []
    ensures Entry(path, [e] + c) == Entry(ChildPath(path, e), c)
  {
    assert ([e] + c)[1..] == c;
  }

  lemma LeadsFurther(list: seq<Tag>, start: Option<string>, path: string, e: Tag, c: seq<Tag>, t: Tag)
    requires e in ChildrenOf(list, start) && Leads(Others(list, start), Some(e.id), ChildPath(path, e), c, t)
    ensures Leads(list, start, path, [e] + c, t)
  {
    ChainCons(list, start, e, c);
    EntryCons(path, e, c);
  }

  lemma ChildLeads(list: seq<Tag>, start: Option<string>, path: string, e: Tag)
    requires e in ChildrenOf(list, start)
    ensures Leads(list, start, path, [e], e.(path := path))
  {
  }

  /** An entry is one child's own or lies below one child. */
  lemma ListedUnderChild(start: Option<string>, path: string, list: seq<Tag>, t: Tag) returns (e: Tag)
    requires t in Fill(start, path, list)
    ensures e in ChildrenOf(list, start) && ListedUnder(e, path, Others(list, start), t)
  {
    var elements, remaining := ChildrenOf(list, start), Others(list, start);
    ListedUnderSome(elements, path, remaining, t);
    e :| e in elements && ListedUnder(e, path, remaining, t);
  }

  lemma {:induction false} ListedHasChain(start: Option<string>, path: string, list: seq<Tag>, t: Tag)
    requires DistinctIds(list) && Outside(start, list) && t in Fill(start, path, list)
    ensures exists c :: Leads(list, start, path, c, t)
    decreases |list|
  {
    var e := ListedUnderChild(start, path, list, t);
    if t == e.(path := path) {
      ChildLeads(list, start, path, e);
    } else {
      var remaining := Others(list, start);
      assert t in Fill(Some(e.id), ChildPath(path, e), remaining) && |remaining| < |list|;
      hide *;
      SplitFacts(list, start);
      ChildIsOutside(list, start, e);
      ListedHasChain(Some(e.id), ChildPath(path, e), remaining, t);
      var c :| Leads(remaining, Some(e.id), ChildPath(path, e), c, t);
      LeadsFurther(list, start, path, e, c, t);
    }
  }

  lemma {:induction false} ChainIsListed(start: Option<string>, path: string, list: seq<Tag>, c: seq<Tag>)
    requires DistinctIds(list) && Outside(start, list) && Chain(list, start, c)
    ensures Entry(path, c) in Fill(start, path, list)
    decreases |list|
  {
    var elements, remaining := ChildrenOf(list, start), Others(list, start);
    var e := c[0];
    assert e in elements;
    if |c| > 1 {
      SplitFacts(list, start);
      ChildIsOutside(list, start, e);
      ChainTail(list, start, c);
      ChainIsListed(Some(e.id), ChildPath(path, e), remaining, c[1..]);
    }
    assert ListedUnder(e, path, remaining, Entry(path, c));
    ListedUnderSome(elements, path, remaining, Entry(path, c));
  }

  /** The output holds an entry exactly when a parent chain leads from the start to its tag, with that chain's path. */
  lemma ListedIffReachable(start: Option<string>, path: string, list: seq<Tag>, t: Tag)
    requires DistinctIds(list) && Outside(start, list)
    ensures t in Fill(start, path, list) <==> exists c :: Leads(list, start, path, c, t)
  {
    if t in Fill(start, path, list) { ListedHasChain(start, path, list, t); }
    if c :| Leads(list, start, path, c, t) { ChainIsListed(start, path, list, c); }
  }

  // ---------------------------------------------------------------------------
  // What a path says
  // ---------------------------------------------------------------------------

  function NamesOf(c: seq<Tag>): (names: seq<string>)
    ensures |names| == |c| && forall i :: 0 <= i < |c| ==> names[i] == c[i].name
  {
    seq(|c|, i requires 0 <= i < |c| => c[i].name)
  }

  lemma {:induction false} JoinEmptyEnd(name: string, names: seq<string>, sep: char)
    ensures Join([name] + names + [""], sep) == name + [sep] + Join(names + [""], sep)
  {
    var all := [name] + names + [""];
    assert all[1..] == names + [""];
  }

  /** The path along a chain is the starting path and the names of all tags but the last, each closed by a slash. */
  lemma {:induction false} PathIsNames(path: string, c: seq<Tag>)
    requires c != []
    ensures PathAlong(path, c) == path + Join(NamesOf(c[..|c| - 1]) + [""], '/')
    decreases |c|
  {
    var init := c[..|c| - 1];
    if |c| == 1 {
      assert NamesOf(init) + [""] == [""];
    } else {
      var tail := c[1..];
      PathIsNames(ChildPath(path, c[0]), tail);
      assert NamesOf(init) == [c[0].name] + NamesOf(tail[..|tail| - 1]);
      JoinEmptyEnd(c[0].name, NamesOf(tail[..|tail| - 1]), '/');
    }
  }

  /**
   * Every listed entry is a tag of the list, and splitting its path behind the
   * starting path at slashes gives the names of its ancestors below the start,
   * outermost first, when no name has a slash.
   */
  lemma PathNamesAncestors(start: Option<string>, path: string, list: seq<Tag>, t: Tag) returns (c: seq<Tag>)
    requires DistinctIds(list) && Outside(start, list) && t in Fill(start, path, list)
    requires forall s :: s in list ==> '/' !in s.name
    ensures Chain(list, start, c) && c[|c| - 1].id == t.id && c[|c| - 1].name == t.name
    ensures path <= t.path && Split(t.path[|path|..], '/') == NamesOf(c[..|c| - 1]) + [""]
  {
    ListedHasChain(start, path, list, t);
    c :| Leads(list, start, path, c, t);
    PathIsNames(path, c);
    var names := NamesOf(c[..|c| - 1]) + [""];
    forall k | 0 <= k < |names| ensures '/' !in names[k] {
      if k < |c| - 1 { assert c[k] in list; }
    }
    SplitJoin(names, '/');
    assert t.path[|path|..] == Join(names, '/');
  }

  // ---------------------------------------------------------------------------
  // Each tag once
  // ---------------------------------------------------------------------------

  /** Chains from two starts outside the list that end in the same tag are the same chain. */
  lemma {:induction false} ChainsAgree(list: seq<Tag>, s1: Option<string>, c1: seq<Tag>, s2: Option<string>,
                                       c2: seq<Tag>)
    requires DistinctIds(list) && Outside(s1, list) && Outside(s2, list)
    requires Chain(list, s1, c1) && Chain(list, s2, c2) && c1[|c1| - 1].id == c2[|c2| - 1].id
    ensures s1 == s2 && c1 == c2
    decreases |c1|
  {
    var n1, n2 := |c1| - 1, |c2| - 1;
    SameIdSameTag(list, c1[n1], c2[n2]);
    if n1 > 0 { assert HasId(list, c1[n1 - 1].id); }
    if n2 > 0 { assert HasId(list, c2[n2 - 1].id); }
    if n1 > 0 && n2 > 0 {
      ChainsAgree(list, s1, c1[..n1], s2, c2[..n2]);
      assert c1 == c1[..n1] + [c1[n1]] && c2 == c2[..n2] + [c2[n2]];
    } else {
      assert n1 == 0 && n2 == 0;
    }
  }

  lemma {:induction false} FromList(start: Option<string>, path: string, list: seq<Tag>, t: Tag)
    requires DistinctIds(list) && Outside(start, list) && t in Fill(start, path, list)
    ensures HasId(list, t.id)
  {
    ListedHasChain(start, path, list, t);
    var c :| Leads(list, start, path, c, t);
    assert c[|c| - 1] in list;
  }

  /** Nothing is listed below two different elements. */
  lemma SubtreesApart(remaining: seq<Tag>, e1: Tag, p1: string, e2: Tag, p2: string, t1: Tag, t2: Tag)
    requires DistinctIds(remaining) && e1.id != e2.id
    requires Outside(Some(e1.id), remaining) && Outside(Some(e2.id), remaining)
    requires t1 in Fill(Some(e1.id), p1, remaining) && t2 in Fill(Some(e2.id), p2, remaining)
    ensures t1.id != t2.id
  {
    ListedHasChain(Some(e1.id), p1, remaining, t1);
    ListedHasChain(Some(e2.id), p2, remaining, t2);
    var c1 :| Leads(remaining, Some(e1.id), p1, c1, t1);
    var c2 :| Leads(remaining, Some(e2.id), p2, c2, t2);
    if t1.id == t2.id { ChainsAgree(remaining, Some(e1.id), c1, Some(e2.id), c2); }
  }

  ghost predicate SiblingsOutside(elements: seq<Tag>, remaining: seq<Tag>) {
    && DistinctIds(elements) && DistinctIds(remaining)
    && forall e :: e in elements ==> Outside(Some(e.id), remaining)
  }

  /** What is listed at or below one element differs from what is listed for another. */
  lemma BranchesApart(e1: Tag, e2: Tag, path: string, remaining: seq<Tag>, t1: Tag, t2: Tag)
    requires DistinctIds(remaining) && e1.id != e2.id
    requires Outside(Some(e1.id), remaining) && Outside(Some(e2.id), remaining)
    requires ListedUnder(e1, path, remaining, t1) && ListedUnder(e2, path, remaining, t2)
    ensures t1.id != t2.id
  {
    var p1, p2 := ChildPath(path, e1), ChildPath(path, e2);
    if t1 in Fill(Some(e1.id), p1, remaining) { FromList(Some(e1.id), p1, remaining, t1); }
    if t2 in Fill(Some(e2.id), p2, remaining) { FromList(Some(e2.id), p2, remaining, t2); }
    if t1 in Fill(Some(e1.id), p1, remaining) && t2 in Fill(Some(e2.id), p2, remaining) {
      SubtreesApart(remaining, e1, p1, e2, p2, t1, t2);
    }
  }

  lemma {:induction false} EachListedOnce(start: Option<string>, path: string, list: seq<Tag>)
    requires DistinctIds(list) && Outside(start, list)
    ensures DistinctIds(Fill(start, path, list))
    decreases |list|, 1
  {
    var elements, remaining := ChildrenOf(list, start), Others(list, start);
    SplitFacts(list, start);
    forall e | e in elements ensures Outside(Some(e.id), remaining) { ChildIsOutside(list, start, e); }
    EachUnderOnce(elements, path, remaining);
  }

  lemma {:induction false} EachUnderOnce(elements: seq<Tag>, path: string, remaining: seq<Tag>)
    requires SiblingsOutside(elements, remaining)
    ensures DistinctIds(FillEach(elements, path, remaining))
    decreases |elements| + |remaining|, 0
  {
    if elements != [] {
      var e, tail := elements[0], elements[1..];
      var below := Fill(Some(e.id), ChildPath(path, e), remaining);
      EachListedOnce(Some(e.id), ChildPath(path, e), remaining);
      EachUnderOnce(tail, path, remaining);
      forall t | t in below ensures t.id != e.id { FromList(Some(e.id), ChildPath(path, e), remaining, t); }
      DistinctParts([e.(path := path)], below);
      forall s, t | s in [e.(path := path)] + below && t in FillEach(tail, path, remaining) ensures s.id != t.id {
        ListedUnderSome(tail, path, remaining, t);
        var f :| f in tail && ListedUnder(f, path, remaining, t);
        BranchesApart(e, f, path, remaining, s, t);
      }
      DistinctParts([e.(path := path)] + below, FillEach(tail, path, remaining));
    }
  }

  // ---------------------------------------------------------------------------
  // Parents first, cycles left out
  // ---------------------------------------------------------------------------

  ghost predicate Preceded(out: seq<Tag>, j: nat)
    requires j < |out|
  {
    exists i: nat :: i < j && out[j].parent == Some(out[i].id)
  }

  /** Every entry is directly below the start or comes after its parent. */
  ghost predicate ParentsFirst(start: Option<string>, out: seq<Tag>) {
    forall j: nat :: j < |out| ==> out[j].parent == start || Preceded(out, j)
  }

  lemma ParentsFirstParts(start: Option<string>, e: Tag, below: seq<Tag>, rest: seq<Tag>)
    requires e.parent == start && ParentsFirst(Some(e.id), below) && ParentsFirst(start, rest)
    ensures ParentsFirst(start, [e] + below + rest)
  {
    var out := [e] + below + rest;
    forall j: nat | j < |out| ensures out[j].parent == start || Preceded(out, j) {
      if 0 < j <= |below| {
        assert out[j] == below[j - 1];
        if Preceded(below, j - 1) {
          var i: nat :| i < j - 1 && below[j - 1].parent == Some(below[i].id);
          assert out[i + 1] == below[i];
        } else {
          assert out[0] == e;
        }
      } else if j > |below| {
        var k := j - 1 - |below|;
        assert out[j] == rest[k];
        if Preceded(rest, k) {
          var i: nat :| i < k && rest[k].parent == Some(rest[i].id);
          assert out[i + 1 + |below|] == rest[i];
        }
      }
    }
  }

  lemma {:induction false} ListsParentsFirst(start: Option<string>, path: string, list: seq<Tag>)
    ensures ParentsFirst(start, Fill(start, path, list))
    decreases |list|, 1
  {
    ListsEachParentFirst(start, ChildrenOf(list, start), path, Others(list, start));
  }

  lemma {:induction false} ListsEachParentFirst(start: Option<string>, elements: seq<Tag>, path: string,
                                                remaining: seq<Tag>)
    requires forall e :: e in elements ==> e.parent == start
    ensures ParentsFirst(start, FillEach(elements, path, remaining))
    decreases |elements| + |remaining|, 0
  {
    if elements != [] {
      var e := elements[0];
      ListsParentsFirst(Some(e.id), ChildPath(path, e), remaining);
      ListsEachParentFirst(start, elements[1..], path, remaining);
      ParentsFirstParts(start, e.(path := path), Fill(Some(e.id), ChildPath(path, e), remaining),
                        FillEach(elements[1..], path, remaining));
    }
  }

  /** A set of ids closed under parents: every tag with an id in it has its parent in it. */
  ghost predicate ClosedUpwards(list: seq<Tag>, ids: set<string>) {
    forall t :: t in list && t.id in ids ==> t.parent.Some? && t.parent.value in ids
  }

  lemma {:induction false} ChainLeavesClosed(list: seq<Tag>, start: Option<string>, c: seq<Tag>, ids: set<string>)
    requires ClosedUpwards(list, ids) && Chain(list, start, c) && c[|c| - 1].id in ids
    ensures start.Some? && start.value in ids
    decreases |c|
  {
    if |c| > 1 {
      assert c[|c| - 1] in list;
      ChainLeavesClosed(list, start, c[..|c| - 1], ids);
    }
  }

  /** Tags whose parents form a cycle, and everything hanging off only that cycle, are never listed. */
  lemma CyclesNotListed(start: Option<string>, path: string, list: seq<Tag>, ids: set<string>, t: Tag)
    requires DistinctIds(list) && Outside(start, list)
    requires ClosedUpwards(list, ids) && (start.Some? ==> start.value !in ids) && t.id in ids
    ensures t !in Fill(start, path, list)
  {
    if t in Fill(start, path, list) {
      ListedHasChain(start, path, list, t);
      var c :| Leads(list, start, path, c, t);
      ChainLeavesClosed(list, start, c, ids);
    }
  }
}
