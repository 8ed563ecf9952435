/** What the id merge promises, for every list of results. */
module IdMergeLaws {
  import opened Prelude
  import opened Graphs
  import opened IdMerge

  /** Some listed result up to position x is the first to hold the key. */
  ghost predicate FirstHolder(ids: seq<Ids>, members: seq<nat>, key: string, x: nat)
    requires InRange(members, |ids|)
  {
    x < |members| && key in ids[members[x]] && forall y :: 0 <= y < x ==> key !in ids[members[y]]
  }

  /** Folding keeps every key any member has, with the value of the first member having it. */
  lemma {:induction false} FoldKeepsFirst(ids: seq<Ids>, members: seq<nat>, key: string)
    requires InRange(members, |ids|)
    ensures key in MergeMembers(ids, members) <==> exists x: nat :: x < |members| && key in ids[members[x]]
    ensures key in MergeMembers(ids, members) ==>
      exists x: nat :: FirstHolder(ids, members, key, x) && MergeMembers(ids, members)[key] == ids[members[x]][key]
  {
    if members != [] {
      var last := |members| - 1;
      var init := members[..last];
      FoldKeepsFirst(ids, init, key);
      if key in MergeMembers(ids, init) {
        var x: nat :| FirstHolder(ids, init, key, x) && MergeMembers(ids, init)[key] == ids[init[x]][key];
        assert FirstHolder(ids, members, key, x);
      } else if key in ids[members[last]] {
        forall y | 0 <= y < last ensures key !in ids[members[y]] {
          assert members[y] == init[y];
        }
        assert FirstHolder(ids, members, key, last);
      } else {
        forall x: nat | x < |members| ensures key !in ids[members[x]] {
          assert x < last ==> members[x] == init[x];
        }
      }
    }
  }

  lemma EarliestMember(ids: seq<Ids>, g: Graph, i: nat, members: seq<nat>, key: string, x: nat)
    requires forall j: nat :: j in members <==> j < |ids| && Linked(g, i, j)
    requires forall a, b :: 0 <= a < b < |members| ==> members[a] < members[b]
    requires InRange(members, |ids|) && FirstHolder(ids, members, key, x)
    ensures Linked(g, i, members[x]) && key in ids[members[x]]
    ensures forall k: nat :: k < members[x] && k < |ids| && Linked(g, i, k) ==> key !in ids[k]
  {
    hide Linked;
    assert members[x] in members;
    forall k: nat | k < members[x] && k < |ids| && Linked(g, i, k) ensures key !in ids[k] {
      assert k in members;
      var y :| 0 <= y < |members| && members[y] == k;
      assert y < x;
    }
  }

  /**
   * The merged ids of a component: exactly the keys some member had, each with
   * the value of the earliest member having it.
   */
  lemma MergedFromEarliest(ids: seq<Ids>, i: nat, key: string)
    requires i < |ids|
    ensures key in MergedIds(ids, i) <==>
      exists j: nat :: j < |ids| && Linked(ShareGraph(ids), i, j) && key in ids[j]
    ensures key in MergedIds(ids, i) ==>
      exists j: nat :: j < |ids| && Linked(ShareGraph(ids), i, j) && key in ids[j]
        && MergedIds(ids, i)[key] == ids[j][key]
        && forall k: nat :: k < j && Linked(ShareGraph(ids), i, k) ==> key !in ids[k]
  {
    var g := ShareGraph(ids);
    var members := Members(Component(g, i), |ids|);
    MembersFacts(Component(g, i), |ids|);
    assert MergedIds(ids, i) == MergeMembers(ids, members);
    assert forall j: nat :: j in members <==> j < |ids| && Linked(g, i, j);
    hide *;
    FoldKeepsFirst(ids, members, key);
    if j: nat :| j < |ids| && Linked(g, i, j) && key in ids[j] {
      assert j in members;
    }
    if key in MergedIds(ids, i) {
      var x: nat :| FirstHolder(ids, members, key, x) && MergedIds(ids, i)[key] == ids[members[x]][key];
      EarliestMember(ids, g, i, members, key, x);
    }
  }

  /** Results joined by a chain of shared ids end with the same ids. */
  lemma LinkedResultsAgree(ws: seq<Wrapper>, i: nat, j: nat)
    requires i < |ws| && j < |ws| && i != j && Linked(ShareGraph(ExtractIds(ws)), i, j)
    ensures MergedWrappers(ws)[i].ids == MergedWrappers(ws)[j].ids == Some(MergedIds(ExtractIds(ws), i))
  {
    var g := ShareGraph(ExtractIds(ws));
    ComponentEqual(g, i, j);
    LinkedSym(g, i, j);
  }

  lemma IdStringFromComponent(ws: seq<Wrapper>, i: nat, idStr: string) returns (j: nat)
    requires i < |ws| && idStr in AllIds(ExtractIds(MergedWrappers(ws))[i])
    ensures j < |ws| && Linked(ShareGraph(ExtractIds(ws)), i, j) && idStr in AllIds(ExtractIds(ws)[j])
  {
    var ids := ExtractIds(ws);
    var g := ShareGraph(ids);
    LinkedRefl(g, i);
    j := i;
    if HasCompany(ids, i) {
      var key :| key in MergedIds(ids, i) && idStr == key + ":" + MergedIds(ids, i)[key];
      MergedFromEarliest(ids, i, key);
      j :| j < |ids| && Linked(g, i, j) && key in ids[j] && MergedIds(ids, i)[key] == ids[j][key];
    }
  }

  lemma CompanyHasIds(ids: seq<Ids>, i: nat)
    requires i < |ids| && HasCompany(ids, i)
    ensures AllIds(MergedIds(ids, i)) != {}
  {
    var g := ShareGraph(ids);
    var j: nat :| j != i && Linked(g, i, j);
    if g[i] <= {i} { IsolatedAlone(g, i, j); }
    var k :| k in g[i] && k != i;
    var s :| s in AllIds(ids[i]);
    var key :| key in ids[i] && s == key + ":" + ids[i][key];
    LinkedRefl(g, i);
    MergedFromEarliest(ids, i, key);
    assert key + ":" + MergedIds(ids, i)[key] in AllIds(MergedIds(ids, i));
  }

  /** Merging neither joins nor separates components. */
  lemma MergeKeepsLinks(ws: seq<Wrapper>, i: nat, j: nat)
    requires i < |ws| && j < |ws|
    ensures Linked(ShareGraph(ExtractIds(MergedWrappers(ws))), i, j) <==> Linked(ShareGraph(ExtractIds(ws)), i, j)
  {
    var ids, ids' := ExtractIds(ws), ExtractIds(MergedWrappers(ws));
    var g, g' := ShareGraph(ids), ShareGraph(ids');
    if Linked(g', i, j) {
      var comp := Component(g, i);
      LinkedRefl(g, i);
      forall a, b | a in comp && a < |g'| && b in g'[a] ensures b in comp {
        var s :| s in AllIds(ids'[a]) * AllIds(ids'[b]);
        var a2 := IdStringFromComponent(ws, a, s);
        var b2 := IdStringFromComponent(ws, b, s);
        assert s in AllIds(ids[a2]) * AllIds(ids[b2]);
        LinkedEdge(g, a2, b2);
        LinkedTrans(g, i, a, a2);
        LinkedTrans(g, i, a2, b2);
        LinkedSym(g, b, b2);
        LinkedTrans(g, i, b2, b);
      }
      ClosedContains(g', comp, i, j);
    }
    if Linked(g, i, j) {
      if i == j {
        LinkedRefl(g', i);
      } else {
        LinkedResultsAgree(ws, i, j);
        CompanyHasIds(ids, i);
        assert AllIds(ids'[i]) * AllIds(ids'[j]) == AllIds(ids'[i]);
        LinkedEdge(g', i, j);
      }
    }
  }

  lemma {:induction false} FoldOfEqualIds(ids: seq<Ids>, members: seq<nat>, all: Ids)
    requires InRange(members, |ids|) && members != []
    requires forall x :: 0 <= x < |members| ==> ids[members[x]] == all
    ensures MergeMembers(ids, members) == all
  {
    if |members| > 1 {
      FoldOfEqualIds(ids, members[..|members| - 1], all);
    }
  }

  /** Merging merged results changes nothing; the search paths do run it twice. */
  lemma MergeIdempotent(ws: seq<Wrapper>)
    ensures MergedWrappers(MergedWrappers(ws)) == MergedWrappers(ws)
  {
    var ws' := MergedWrappers(ws);
    var ids, ids' := ExtractIds(ws), ExtractIds(ws');
    var g, g' := ShareGraph(ids), ShareGraph(ids');
    forall i: nat | i < |ws| ensures MergedWrapper(ws', i) == ws'[i] {
      if HasCompany(ids', i) {
        var j: nat :| j != i && Linked(g', i, j);
        LinkedInRange(g', i, j);
        MergeKeepsLinks(ws, i, j);
        LinkedResultsAgree(ws, i, j);
        var comp := Component(g', i);
        var members := Members(comp, |ids'|);
        MembersFacts(comp, |ids'|);
        LinkedRefl(g', i);
        assert i in members;
        forall x | 0 <= x < |members| ensures ids'[members[x]] == ids'[i] {
          var k := members[x];
          assert k in members;
          MergeKeepsLinks(ws, i, k);
          if k != i { LinkedResultsAgree(ws, i, k); }
        }
        FoldOfEqualIds(ids', members, ids'[i]);
      }
    }
  }

  // ---------------------------------------------------------------------------
  // What sharing an id string means
  // ---------------------------------------------------------------------------

  /** The provider names hold no colon, as "key:value" strings need to be told apart. */
  ghost predicate PlainKeys(ids: Ids) {
    forall key :: key in ids ==> ':' !in key
  }

  /** Some provider gives both the same value. */
  ghost predicate AgreeOnProvider(a: Ids, b: Ids) {
    exists key :: key in a && key in b && a[key] == b[key]
  }

  lemma ColonSplits(k: string, v: string, l: string, w: string)
    requires ':' !in k && ':' !in l && k + ":" + v == l + ":" + w
    ensures k == l && v == w
  {
    var s, t := k + ":" + v, l + ":" + w;
    assert s[|k|] == ':' && t[|l|] == ':';
    assert forall x :: 0 <= x < |k| ==> s[x] == k[x];
    assert forall x :: 0 <= x < |l| ==> t[x] == l[x];
    assert |k| == |l|;
    assert s[..|k|] == k && t[..|l|] == l;
    assert s[|k| + 1..] == v && t[|l| + 1..] == w;
  }

  /** Two id sets have an id string in common exactly when they agree on a provider: a value alone is not enough. */
  lemma CommonIdIffAgree(a: Ids, b: Ids)
    requires PlainKeys(a) && PlainKeys(b)
    ensures HasCommonId(a, b) <==> AgreeOnProvider(a, b)
  {
    if s :| s in AllIds(a) * AllIds(b) {
      var k :| k in a && s == k + ":" + a[k];
      var l :| l in b && s == l + ":" + b[l];
      ColonSplits(k, a[k], l, b[l]);
    }
    if key :| key in a && key in b && a[key] == b[key] {
      assert key + ":" + a[key] in AllIds(a) * AllIds(b);
    }
  }

  /** With a colon in a provider name two id sets can share a string without agreeing on anything. */
  lemma ColonKeyExample()
    ensures HasCommonId(map["a:b" := "c"], map["a" := "b:c"]) && !AgreeOnProvider(map["a:b" := "c"], map["a" := "b:c"])
  {
    var a: Ids, b: Ids := map["a:b" := "c"], map["a" := "b:c"];
    assert "a:b" + ":" + a["a:b"] == "a:b:c" == "a" + ":" + b["a"];
    assert "a:b:c" in AllIds(a) * AllIds(b);
    assert "a:b" != "a";
  }

  ghost predicate AllPlain(ws: seq<Wrapper>) {
    forall i :: 0 <= i < |ws| ==> PlainKeys(ExtractIds(ws)[i])
  }

  /** Two results that agree on a provider end with the same ids. */
  lemma AgreeingResultsMerge(ws: seq<Wrapper>, i: nat, j: nat)
    requires AllPlain(ws) && i < |ws| && j < |ws| && i != j && AgreeOnProvider(ExtractIds(ws)[i], ExtractIds(ws)[j])
    ensures MergedWrappers(ws)[i].ids == MergedWrappers(ws)[j].ids
  {
    var ids := ExtractIds(ws);
    CommonIdIffAgree(ids[i], ids[j]);
    LinkedEdge(ShareGraph(ids), i, j);
    LinkedResultsAgree(ws, i, j);
  }

  /** A result that agrees with no other on any provider is left as it is. */
  lemma DisagreeingResultStays(ws: seq<Wrapper>, i: nat)
    requires AllPlain(ws) && i < |ws|
    requires forall j: nat :: j < |ws| && j != i ==> !AgreeOnProvider(ExtractIds(ws)[i], ExtractIds(ws)[j])
    ensures MergedWrappers(ws)[i] == ws[i]
  {
    var ids := ExtractIds(ws);
    forall j: nat | j < |ws| && j in ShareGraph(ids)[i] ensures j == i {
      CommonIdIffAgree(ids[i], ids[j]);
    }
    if HasCompany(ids, i) {
      var j: nat :| j != i && Linked(ShareGraph(ids), i, j);
      IsolatedAlone(ShareGraph(ids), i, j);
    }
  }

  /** The results of a chain each agree with the next on a provider. */
  ghost predicate AgreeingChain(ids: seq<Ids>, chain: seq<nat>) {
    && (forall x :: 0 <= x < |chain| ==> chain[x] < |ids|)
    && (forall x :: 0 <= x < |chain| - 1 ==> AgreeOnProvider(ids[chain[x]], ids[chain[x + 1]]))
  }

  /** Results are merged exactly along chains of results agreeing on a provider. */
  lemma LinkedIffChain(ws: seq<Wrapper>, i: nat, j: nat)
    requires AllPlain(ws)
    ensures Linked(ShareGraph(ExtractIds(ws)), i, j) <==>
            exists chain: seq<nat> ::
              chain != [] && chain[0] == i && chain[|chain| - 1] == j && AgreeingChain(ExtractIds(ws), chain)
  {
    var ids := ExtractIds(ws);
    var g := ShareGraph(ids);
    forall a: nat, b: nat | a < |ids| && b < |ids| ensures b in g[a] <==> AgreeOnProvider(ids[a], ids[b]) {
      CommonIdIffAgree(ids[a], ids[b]);
    }
    hide AgreeOnProvider, ExtractIds, ShareGraph;
    if Linked(g, i, j) {
      var p: seq<nat> :| PathBetween(g, p, i, j);
      assert AgreeingChain(ids, p);
    }
    if chain: seq<nat> :|
      chain != [] && chain[0] == i && chain[|chain| - 1] == j && AgreeingChain(ids, chain) {
      forall x | 0 <= x < |chain| - 1 ensures chain[x + 1] in g[chain[x]] {
        assert AgreeOnProvider(ids[chain[x]], ids[chain[x + 1]]);
      }
      assert PathBetween(g, chain, i, j);
    }
  }

  /** One value under two providers does not make two results one. */
  lemma SameValueExample()
    ensures var ws := [Wrapper(Some(map["tmdb" := "603"]), "film"), Wrapper(Some(map["trakt" := "603"]), "other film")];
      MergedWrappers(ws) == ws
  {
    var ws := [Wrapper(Some(map["tmdb" := "603"]), "film"), Wrapper(Some(map["trakt" := "603"]), "other film")];
    assert "tmdb" != "trakt" by { assert |"tmdb"| != |"trakt"|; }
    assert ':' !in "tmdb" && ':' !in "trakt";
    DisagreeingResultStays(ws, 0);
    DisagreeingResultStays(ws, 1);
  }

  // ---------------------------------------------------------------------------
  // On the groups themselves
  // ---------------------------------------------------------------------------

  /** Result r of group g comes before result q of group h. */
  predicate Before(g: nat, r: nat, h: nat, q: nat) {
    g < h || (g == h && r < q)
  }

  lemma {:induction false} FlatSource(groups: seq<Group>, m: nat, k: nat) returns (g: nat, r: nat)
    requires m <= |groups| && k < Offset(groups, m)
    ensures g < m && r < |groups[g].results| && Offset(groups, g) + r == k
  {
    if k < Offset(groups, m - 1) {
      g, r := FlatSource(groups, m - 1, k);
    } else {
      g, r := m - 1, k - Offset(groups, m - 1);
    }
  }

  lemma {:induction false} OffsetsGrow(groups: seq<Group>, g: nat, h: nat)
    requires g < h <= |groups|
    ensures Offset(groups, g) + |groups[g].results| <= Offset(groups, h)
  {
    if g < h - 1 { OffsetsGrow(groups, g, h - 1); }
  }

  ghost predicate HoldsKey(groups: seq<Group>, g: nat, r: nat, key: string)
    requires g < |groups| && r < |groups[g].results|
  {
    groups[g].results[r].ids.Some? && key in groups[g].results[r].ids.value
  }

  ghost predicate FirstToHold(groups: seq<Group>, g: nat, r: nat, key: string)
    requires g < |groups| && r < |groups[g].results|
  {
    && HoldsKey(groups, g, r, key)
    && forall h: nat, q: nat :: h < |groups| && q < |groups[h].results| && Before(h, q, g, r) ==>
         !HoldsKey(groups, h, q, key)
  }

  /**
   * The first result, groups and results in order, to hold a key gives its value
   * to itself and to every result that agrees with it on some provider.
   */
  lemma FirstHolderWins(groups: seq<Group>, out: seq<Group>, g: nat, r: nat, h: nat, q: nat, key: string)
    requires SameShape(groups, out) && Flat(out, |out|) == MergedWrappers(Flat(groups, |groups|))
    requires AllPlain(Flat(groups, |groups|))
    requires g < |groups| && r < |groups[g].results| && h < |groups| && q < |groups[h].results|
    requires FirstToHold(groups, g, r, key) && groups[h].results[q].ids.Some? && (g, r) != (h, q)
    requires AgreeOnProvider(groups[g].results[r].ids.value, groups[h].results[q].ids.value)
    ensures out[h].results[q].ids.Some? && key in out[h].results[q].ids.value
    ensures out[h].results[q].ids.value[key] == groups[g].results[r].ids.value[key]
    ensures out[g].results[r].ids == out[h].results[q].ids
  {
    hide *;
    var ws, i, j := Flat(groups, |groups|), Offset(groups, g) + r, Offset(groups, h) + q;
    MergedAt(groups, out, g, r);
    MergedAt(groups, out, h, q);
    PositionsDiffer(groups, g, r, h, q);
    NoneBefore(groups, g, r, key);
    FirstAgreeing(ws, i, j, key);
  }

  /** Where a result is in the flat list, before and after the merge. */
  lemma MergedAt(groups: seq<Group>, out: seq<Group>, g: nat, r: nat)
    requires SameShape(groups, out) && Flat(out, |out|) == MergedWrappers(Flat(groups, |groups|))
    requires g < |groups| && r < |groups[g].results|
    ensures |out| == |groups| && r < |out[g].results|
    ensures Offset(groups, g) + r < |Flat(groups, |groups|)|
    ensures Flat(groups, |groups|)[Offset(groups, g) + r] == groups[g].results[r]
    ensures MergedWrappers(Flat(groups, |groups|))[Offset(groups, g) + r] == out[g].results[r]
  {
    FlatAt(groups, |groups|, g, r);
    SameShapeSameOffset(groups, out, g);
    FlatAt(out, |out|, g, r);
  }

  lemma FirstAgreeing(ws: seq<Wrapper>, i: nat, j: nat, key: string)
    requires AllPlain(ws) && i < |ws| && j < |ws| && i != j && ws[i].ids.Some? && ws[j].ids.Some?
    requires AgreeOnProvider(ws[i].ids.value, ws[j].ids.value) && key in ws[i].ids.value
    requires forall k: nat :: k < i ==> key !in ExtractIds(ws)[k]
    ensures MergedWrappers(ws)[j].ids.Some? && MergedWrappers(ws)[i].ids == MergedWrappers(ws)[j].ids
    ensures key in MergedWrappers(ws)[j].ids.value && MergedWrappers(ws)[j].ids.value[key] == ws[i].ids.value[key]
  {
    var ids := ExtractIds(ws);
    CommonIdIffAgree(ids[i], ids[j]);
    LinkedEdge(ShareGraph(ids), i, j);
    hide *;
    LinkedResultsAgree(ws, i, j);
    EarliestValue(ids, i, key);
  }

  lemma PositionsDiffer(groups: seq<Group>, g: nat, r: nat, h: nat, q: nat)
    requires g < |groups| && r < |groups[g].results| && h < |groups| && q < |groups[h].results| && (g, r) != (h, q)
    ensures Offset(groups, g) + r != Offset(groups, h) + q
  {
    if g < h { OffsetsGrow(groups, g, h); }
    if h < g { OffsetsGrow(groups, h, g); }
  }

  lemma NoneBefore(groups: seq<Group>, g: nat, r: nat, key: string)
    requires g < |groups| && r < |groups[g].results| && FirstToHold(groups, g, r, key)
    ensures HoldsKey(groups, g, r, key) && groups[g].results[r].ids.Some? && key in groups[g].results[r].ids.value
    ensures Offset(groups, g) + r < |Flat(groups, |groups|)|
    ensures forall k: nat :: k < Offset(groups, g) + r ==> key !in ExtractIds(Flat(groups, |groups|))[k]
  {
    FlatAt(groups, |groups|, g, r);
    var ids := ExtractIds(Flat(groups, |groups|));
    forall k: nat | k < Offset(groups, g) + r ensures key !in ids[k] {
      var h, q := FlatSource(groups, |groups|, k);
      FlatAt(groups, |groups|, h, q);
      if g < h { OffsetsGrow(groups, g, h); }
      assert Before(h, q, g, r);
      assert !HoldsKey(groups, h, q, key);
    }
  }

  /** When nothing before result i holds the key, its component gets its value. */
  lemma EarliestValue(ids: seq<Ids>, i: nat, key: string)
    requires i < |ids| && key in ids[i] && forall k: nat :: k < i ==> key !in ids[k]
    ensures key in MergedIds(ids, i) && MergedIds(ids, i)[key] == ids[i][key]
  {
    LinkedRefl(ShareGraph(ids), i);
    MergedFromEarliest(ids, i, key);
    var j: nat :|
      && j < |ids| && Linked(ShareGraph(ids), i, j) && key in ids[j]
      && MergedIds(ids, i)[key] == ids[j][key]
      && forall k: nat :: k < j && Linked(ShareGraph(ids), i, k) ==> key !in ids[k];
    assert j == i;
  }
}
