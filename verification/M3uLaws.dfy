/** What an import achieves, from any starting tables, and exactly when. */
module M3uLaws {
  import opened Prelude
  import opened M3uImport

  type Groups = map<string, seq<Entry>>

  type Channels = map<Id, ChannelRow>

  /** The channel of one group: found by tvg id or new, with the row the group asks for. */
  ghost predicate ChannelRowOk(rows0: Channels, rows1: Channels, groups: Groups, rules: Rules, chan: map<string, Id>,
                               key: string)
    requires WellGrouped(groups) && key in groups
  {
    && key in chan && chan[key] in rows1
    && (if chan[key] in rows0 then rows0[chan[key]].tvgId == Some(key)
        else forall i :: i in rows0 ==> rows0[i].tvgId != Some(key))
    && rows1[chan[key]] ==
         ChannelFor(if chan[key] in rows0 then Some(rows0[chan[key]]) else None, key, groups[key], rules)
  }

  /** What an import does to the channel table alone. */
  ghost predicate ChannelsImported(rows0: Channels, rows1: Channels, groups: Groups, rules: Rules,
                                   chan: map<string, Id>) {
    && WellGrouped(groups) && chan.Keys == groups.Keys && rows1.Keys == chan.Values
    && (forall key :: key in groups ==> ChannelRowOk(rows0, rows1, groups, rules, chan, key))
  }

  lemma ImportChannels(t0: Tables, t': Tables, groups: Groups, rules: Rules, tagOf: string -> Id, chan: map<string, Id>)
    requires Imported(t0, t', groups, rules, tagOf, chan)
    ensures ChannelsImported(t0.channels, t'.channels, groups, rules, chan)
  {
    forall key | key in groups ensures ChannelRowOk(t0.channels, t'.channels, groups, rules, chan, key) {
      assert ChannelImported(t0, t', key, groups[key], rules, tagOf, chan[key]);
      assert ChannelSource(t0, key, chan[key]);
    }
  }

  /** One channel per playlist tvg id, and no others. */
  lemma OneChannelPerTvgId(rows0: Channels, rows1: Channels, groups: Groups, rules: Rules, chan: map<string, Id>)
    requires ChannelsImported(rows0, rows1, groups, rules, chan)
    ensures forall key, c :: key in groups && c in rows1 ==> (rows1[c].tvgId == Some(key) <==> c == chan[key])
    ensures forall key :: key in groups ==> chan[key] in rows1
    ensures forall c :: c in rows1 ==> rows1[c].tvgId.Some? && rows1[c].tvgId.value in groups
  {
    forall key | key in groups ensures chan[key] in rows1 && rows1[chan[key]].tvgId == Some(key) {
      assert ChannelRowOk(rows0, rows1, groups, rules, chan, key);
    }
    forall c | c in rows1 ensures exists key :: key in chan && chan[key] == c {
      assert c in chan.Values;
    }
  }

  /** The table grows by the channels added and shrinks by those removed; every group is counted once. */
  lemma CountersAddUp(rows0: Channels, rows1: Channels, groups: Groups, rules: Rules, chan: map<string, Id>, added: nat,
                      updated: nat, removed: nat)
    requires ChannelsImported(rows0, rows1, groups, rules, chan)
    requires Counted(rows0.Keys, groups.Keys, chan, chan.Values, added, updated, {})
    requires removed == |rows0.Keys - chan.Values|
    ensures added + updated == |groups| == |rows1|
    ensures |rows1| + removed == |rows0| + added
  {
    OneChannelPerTvgId(rows0, rows1, groups, rules, chan);
    SeenAndNew(rows0.Keys, chan);
    MapSize(rows1);
    MapSize(rows0);
    MapSize(chan);
    MapSize(groups);
  }

  lemma MapSize<K, V>(m: map<K, V>)
    ensures |m| == |m.Keys|
  {
  }

  lemma SeenAndNew(existing: set<Id>, chan: map<string, Id>)
    requires forall k, l :: k in chan && l in chan && chan[k] == chan[l] ==> k == l
    ensures |chan.Values| == |chan.Keys|
    ensures |chan.Values| + |existing - chan.Values| == |existing| + |NewKeys(existing, chan)|
  {
    ImageSize(chan, chan.Keys);
    assert (set k | k in chan.Keys :: chan[k]) == chan.Values;
    ImageSize(chan, NewKeys(existing, chan));
    forall c | c in chan.Values - existing ensures c in (set k | k in NewKeys(existing, chan) :: chan[k]) {
      var k :| k in chan && chan[k] == c;
      assert k in NewKeys(existing, chan);
    }
    assert (set k | k in NewKeys(existing, chan) :: chan[k]) == chan.Values - existing;
    DifferenceCounts(existing, chan.Values);
  }

  lemma DifferenceCounts(a: set<Id>, b: set<Id>)
    ensures |b| + |a - b| == |a| + |b - a|
  {
    assert a == (a - b) + (a * b) && b == (b - a) + (a * b);
  }

  lemma {:induction false} ImageSize(m: map<string, Id>, keys: set<string>)
    requires keys <= m.Keys && forall k, l :: k in m && l in m && m[k] == m[l] ==> k == l
    ensures |set k | k in keys :: m[k]| == |keys|
    decreases keys
  {
    if keys != {} {
      var k :| k in keys;
      ImageSize(m, keys - {k});
      assert (set l | l in keys :: m[l]) == (set l | l in keys - {k} :: m[l]) + {m[k]};
    }
  }

  // ---------------------------------------------------------------------------
  // Tags
  // ---------------------------------------------------------------------------

  /** The imported tags of a channel are the desired ones not already mapped by hand; hand-made rows stay. */
  lemma AutoTagsAfterSync(t: TagTable, c: Id, desired: set<Id>, t': TagTable)
    requires TagsSynced(t, c, desired, t')
    ensures forall g: Id :: AutoTag(t', c, g) <==> g in desired && !UserTag(t, c, g)
    ensures forall g: Id :: UserTag(t', c, g) <==> UserTag(t, c, g)
  {
    forall g: Id ensures
      && (AutoTag(t', c, g) <==> g in desired && !UserTag(t, c, g)) && (UserTag(t', c, g) <==> UserTag(t, c, g))
    {
      assert Tag(t', c, g) == if UserTag(t, c, g) then Tag(t, c, g) else if g in desired then Some(AUTO) else None;
    }
  }

  /** They equal the desired set exactly when none of those was mapped by hand before. */
  lemma AutoTagsDesiredIff(t: TagTable, c: Id, desired: set<Id>, t': TagTable)
    requires TagsSynced(t, c, desired, t')
    ensures (forall g: Id :: AutoTag(t', c, g) <==> g in desired) <==>
            (forall g: Id :: g in desired ==> !UserTag(t, c, g))
  {
    AutoTagsAfterSync(t, c, desired, t');
  }

  /** A tag added by hand before the playlist asks for it never becomes an imported one. */
  lemma HandMadeTagExample(t': TagTable)
    requires TagsSynced(map[(0, 5) := None], 0, {5}, t')
    ensures !AutoTag(t', 0, 5) && 5 in {5}
  {
    assert UserTag(map[(0, 5) := None], 0, 5);
    AutoTagsAfterSync(map[(0, 5) := None], 0, {5}, t');
  }

  // ---------------------------------------------------------------------------
  // Variants
  // ---------------------------------------------------------------------------

  /** Exactly one row has the name, and it carries the last entry of the name. */
  ghost predicate NameExact(v: Rows, c: Id, es: seq<Entry>, rules: Rules, name: string)
    requires name in Names(es)
  {
    exists id ::
      NamedRow(v, c, name, id) && AtMostOneNamed(v, c, name) && v[id] == VariantOf(c, LastNamed(es, name), rules)
  }

  /** Exactly one row per playlist name, carrying the last entry of that name. */
  ghost predicate ExactVariants(v: Rows, c: Id, es: seq<Entry>, rules: Rules) {
    forall name :: name in Names(es) ==>
      NameExact(v, c, es, rules, name)
  }

  ghost predicate NoDuplicates(v: Rows, c: Id, es: seq<Entry>) {
    forall name :: name in Names(es) ==> AtMostOneNamed(v, c, name)
  }

  lemma SyncedVia(v: Rows, c: Id, es: seq<Entry>, rules: Rules, v': Rows)
    returns (u: Rows)
    requires Synced(v, c, es, rules, v')
    ensures Upserted(v, c, es, rules, u) && v' == Kept(u, c, Names(es))
  {
    u :| Writes(v, c, es, rules, u) && v' == Kept(u, c, Names(es));
    WritesUpsert(v, c, es, rules, u);
  }

  /** A channel's named variants are exactly the playlist's names. */
  lemma VariantNamesMatch(v: Rows, c: Id, es: seq<Entry>, rules: Rules, v': Rows, name: string)
    requires Synced(v, c, es, rules, v')
    ensures AnyNamed(v', c, name) <==> name in Names(es)
  {
    var u := SyncedVia(v, c, es, rules, v');
    hide VariantOf, LastNamed;
    if name in Names(es) {
      assert AnyNamed(u, c, name);
      var id :| NamedRow(u, c, name, id);
      assert NamedRow(v', c, name, id);
    }
  }

  /** Variants without a playlist name are untouched. */
  lemma UnnamedVariantsStay(v: Rows, c: Id, es: seq<Entry>, rules: Rules, v': Rows, id: Id)
    requires Synced(v, c, es, rules, v') && id in v && v[id].tvgName.None?
    ensures id in v' && v'[id] == v[id]
  {
    var u := SyncedVia(v, c, es, rules, v');
    assert OldRowOk(v, c, es, rules, u, id);
  }

  /** A listed row that was there before is still there under its name. */
  lemma ListedRowSurvives(v: Rows, c: Id, es: seq<Entry>, rules: Rules, v': Rows, name: string, id: Id)
    requires Synced(v, c, es, rules, v') && name in Names(es) && NamedRow(v, c, name, id)
    ensures NamedRow(v', c, name, id)
    ensures v'[id] == v[id] || FromEntry(v'[id], c, es, rules, name)
    ensures AtMostOneNamed(v, c, name) ==> v'[id] == VariantOf(c, LastNamed(es, name), rules)
  {
    var u := SyncedVia(v, c, es, rules, v');
    assert OldRowOk(v, c, es, rules, u, id);
    assert id !in Stale(u, c, Names(es));
  }

  /** A named row after the import either was there before under that name, or is the only one of a new name. */
  lemma RowAfterSync(v: Rows, c: Id, es: seq<Entry>, rules: Rules, v': Rows, name: string, id: Id)
    requires Synced(v, c, es, rules, v') && NamedRow(v', c, name, id)
    ensures if id in v then NamedRow(v, c, name, id)
            else !AnyNamed(v, c, name) && AtMostOneNamed(v', c, name) && name in Names(es)
                 && v'[id] == VariantOf(c, LastNamed(es, name), rules)
  {
    var u := SyncedVia(v, c, es, rules, v');
    if id in v {
      assert OldRowOk(v, c, es, rules, u, id);
    } else {
      assert NewRowOk(v, c, es, rules, u, id);
      assert forall i :: NamedRow(v', c, name, i) ==> NamedRow(u, c, name, i);
    }
  }

  /**
   * The variants come out exact if and only if no playlist name had two rows
   * before: the import updates one of them and leaves the others as they were.
   */
  lemma VariantsExactIff(v: Rows, c: Id, es: seq<Entry>, rules: Rules, v': Rows)
    requires Synced(v, c, es, rules, v')
    ensures ExactVariants(v', c, es, rules) <==> NoDuplicates(v, c, es)
  {
    if NoDuplicates(v, c, es) {
      forall name | name in Names(es)
        ensures NameExact(v', c, es, rules, name)
      {
        SingleNameExact(v, c, es, rules, v', name);
      }
    }
    if ExactVariants(v', c, es, rules) {
      forall name, a, b | name in Names(es) && NamedRow(v, c, name, a) && NamedRow(v, c, name, b) ensures a == b {
        ListedRowSurvives(v, c, es, rules, v', name, a);
        ListedRowSurvives(v, c, es, rules, v', name, b);
        assert AtMostOneNamed(v', c, name);
      }
    }
  }

  lemma SingleNameExact(v: Rows, c: Id, es: seq<Entry>, rules: Rules, v': Rows, name: string)
    requires Synced(v, c, es, rules, v') && name in Names(es) && AtMostOneNamed(v, c, name)
    ensures NameExact(v', c, es, rules, name)
  {
    VariantNamesMatch(v, c, es, rules, v', name);
    var id :| NamedRow(v', c, name, id);
    RowAfterSync(v, c, es, rules, v', name, id);
    if id in v {
      ListedRowSurvives(v, c, es, rules, v', name, id);
      forall a | NamedRow(v', c, name, a) ensures a == id {
        RowAfterSync(v, c, es, rules, v', name, a);
      }
    }
  }

  /** Two rows of one name before the import are two rows after it. */
  lemma DuplicateVariantExample(rules: Rules, e: Entry, v': Rows)
    requires Synced(map[1 := VariantOf(0, e, rules), 2 := VariantOf(0, e, rules)], 0, [e], rules, v')
    ensures !ExactVariants(v', 0, [e], rules)
  {
    var v := map[1 := VariantOf(0, e, rules), 2 := VariantOf(0, e, rules)];
    assert [e][0].Name() == e.Name();
    assert e.Name() in Names([e]);
    assert NamedRow(v, 0, e.Name(), 1) && NamedRow(v, 0, e.Name(), 2);
    VariantsExactIff(v, 0, [e], rules, v');
  }

  // ---------------------------------------------------------------------------
  // Importing the same playlist again
  // ---------------------------------------------------------------------------

  /** All entries of the name ask for the same row. */
  ghost predicate Uniform(c: Id, es: seq<Entry>, rules: Rules, name: string)
    requires name in Names(es)
  {
    forall k :: 0 <= k < |es| && es[k].Name() == name ==>
      VariantOf(c, es[k], rules) == VariantOf(c, LastNamed(es, name), rules)
  }

  /** At most one row has the name, or all its rows already are what every entry of the name asks for. */
  ghost predicate NameSettled(v: Rows, c: Id, es: seq<Entry>, rules: Rules, name: string)
    requires name in Names(es)
  {
    || AtMostOneNamed(v, c, name)
    || (Uniform(c, es, rules, name)
        && forall id :: NamedRow(v, c, name, id) ==> v[id] == VariantOf(c, LastNamed(es, name), rules))
  }

  ghost predicate Settled(v: Rows, c: Id, es: seq<Entry>, rules: Rules) {
    forall name :: name in Names(es) ==> NameSettled(v, c, es, rules, name)
  }

  /** A row of a playlist name carries the last entry, and no write can change that. */
  ghost predicate RowFinal(v: Rows, c: Id, es: seq<Entry>, rules: Rules, name: string, id: Id)
    requires name in Names(es) && id in v
  {
    v[id] == VariantOf(c, LastNamed(es, name), rules) && (AtMostOneNamed(v, c, name) || Uniform(c, es, rules, name))
  }

  /** Settled rows are final after one sync. */
  lemma SyncedRowFinal(v: Rows, c: Id, es: seq<Entry>, rules: Rules, v': Rows, name: string, id: Id)
    requires Synced(v, c, es, rules, v') && Settled(v, c, es, rules)
    requires name in Names(es) && NamedRow(v', c, name, id)
    ensures RowFinal(v', c, es, rules, name, id)
  {
    assert NameSettled(v, c, es, rules, name);
    RowAfterSync(v, c, es, rules, v', name, id);
    if id in v {
      ListedRowSurvives(v, c, es, rules, v', name, id);
      if AtMostOneNamed(v, c, name) { SingleNameExact(v, c, es, rules, v', name); }
    }
  }

  /** Final rows are a fixed point of the sync. */
  lemma FinalSyncsToItself(v: Rows, c: Id, es: seq<Entry>, rules: Rules, v': Rows)
    requires Synced(v, c, es, rules, v')
    requires forall name, id :: name in Names(es) && NamedRow(v, c, name, id) ==> RowFinal(v, c, es, rules, name, id)
    requires forall name :: AnyNamed(v, c, name) <==> name in Names(es)
    requires forall id :: id in v ==> v[id].channelRef == c
    ensures v' == v
  {
    var u := SyncedVia(v, c, es, rules, v');
    forall id | id in v ensures id in u && u[id] == v[id] {
      assert OldRowOk(v, c, es, rules, u, id);
      if Listed(v, c, es, id) {
        var name := v[id].tvgName.value;
        assert NamedRow(v, c, name, id);
        assert RowFinal(v, c, es, rules, name, id);
      }
    }
    forall id | id in u ensures id in v {}
    assert u == v;
    forall id ensures id !in Stale(v, c, Names(es)) {
      if id in v && v[id].tvgName.Some? { assert NamedRow(v, c, v[id].tvgName.value, id); }
    }
  }

  lemma SettledRepeats(v: Rows, c: Id, es: seq<Entry>, rules: Rules, v1: Rows, v2: Rows)
    requires Settled(v, c, es, rules) && Synced(v, c, es, rules, v1) && Synced(v1, c, es, rules, v2)
    requires forall id :: id in v1 ==> v1[id].channelRef == c
    ensures v2 == v1
  {
    forall name, id | name in Names(es) && NamedRow(v1, c, name, id) ensures RowFinal(v1, c, es, rules, name, id) {
      SyncedRowFinal(v, c, es, rules, v1, name, id);
    }
    forall name ensures AnyNamed(v1, c, name) <==> name in Names(es) {
      VariantNamesMatch(v, c, es, rules, v1, name);
    }
    FinalSyncsToItself(v1, c, es, rules, v2);
  }

  /** Two rows of one name, and an entry for the lookups to send to the first of them. */
  datatype Pick = Pick(name: string, a: Id, b: Id, k: nat)

  ghost predicate PicksRows(v: Rows, c: Id, pick: Pick) {
    pick.a != pick.b && NamedRow(v, c, pick.name, pick.a) && NamedRow(v, c, pick.name, pick.b)
  }

  /** What the picked row holds when the lookups sent entry k to it and all others of the name elsewhere. */
  function PickedRow(v: Rows, c: Id, es: seq<Entry>, rules: Rules, pick: Pick): VariantRow
    requires pick.a in v
  {
    if pick.k < |es| && es[pick.k].Name() == pick.name then VariantOf(c, es[pick.k], rules) else v[pick.a]
  }

  /** The row a lookup may return for entry k when it is to follow the pick. */
  lemma SteeredTarget(v: Rows, w: Rows, c: Id, e: Entry, rules: Rules, pick: Option<Pick>, k: nat, avoid: set<Id>)
    returns (id: Id)
    requires rules.lookup.AnyRow? && v.Keys <= w.Keys && (pick.Some? ==> PicksRows(w, c, pick.value))
    ensures Directed(v, w, c, e.Name(), id, rules) && (id in w || id !in avoid)
    ensures pick.Some? && pick.value.name == e.Name() ==> id == if pick.value.k == k then pick.value.a else pick.value.b
  {
    if pick.Some? && e.Name() == pick.value.name {
      id := if pick.value.k == k then pick.value.a else pick.value.b;
    } else if j :| NamedRow(w, c, e.Name(), j) {
      id := j;
    } else {
      UnusedExists(w.Keys + avoid);
      id :| id !in w.Keys + avoid;
    }
  }

  lemma PickedNext(v: Rows, w: Rows, c: Id, init: seq<Entry>, last: Entry, rules: Rules, pick: Pick, id: Id)
    requires Directed(v, w, c, last.Name(), id, rules) && pick.a in v
    requires PicksRows(w, c, pick) && w[pick.a] == PickedRow(v, c, init, rules, pick)
    requires pick.name == last.Name() ==> id == if pick.k == |init| then pick.a else pick.b
    ensures var u := w[id := VariantOf(c, last, rules)];
      PicksRows(u, c, pick) && u[pick.a] == PickedRow(v, c, init + [last], rules, pick)
  {
    assert (init + [last])[..|init|] == init;
    assert pick.name != last.Name() ==> id != pick.a && id != pick.b;
  }

  /** When lookups may return any row of a name, writes can follow a pick, and avoid given ids for fresh rows. */
  lemma {:induction false} WritesSteered(v: Rows, c: Id, es: seq<Entry>, rules: Rules, pick: Option<Pick>,
                                         avoid: set<Id>)
    returns (u: Rows)
    requires rules.lookup.AnyRow? && (pick.Some? ==> PicksRows(v, c, pick.value))
    ensures Writes(v, c, es, rules, u) && v.Keys <= u.Keys && (u.Keys - v.Keys) !! avoid
    ensures pick.Some? ==> PicksRows(u, c, pick.value) && u[pick.value.a] == PickedRow(v, c, es, rules, pick.value)
    decreases |es|
  {
    u := v;
    if es != [] {
      var init, last := es[..|es| - 1], es[|es| - 1];
      assert es == init + [last];
      hide *;
      var w := WritesSteered(v, c, init, rules, pick, avoid);
      var id := SteeredTarget(v, w, c, last, rules, pick, |init|, avoid);
      WritesNext(v, c, init, rules, w, last, id);
      u := w[id := VariantOf(c, last, rules)];
      if pick.Some? {
        assert pick.value.a in v by { PicksRowsIn(v, c, pick.value); }
        PickedNext(v, w, c, init, last, rules, pick.value, id);
      }
    }
  }

  lemma PicksRowsIn(v: Rows, c: Id, pick: Pick)
    requires PicksRows(v, c, pick)
    ensures pick.a in v && pick.b in v
  {
  }

  /** A name that is not settled has a row and an entry asking for something else, besides another row. */
  lemma UnsettledName(v: Rows, c: Id, es: seq<Entry>, rules: Rules) returns (pick: Pick)
    requires !Settled(v, c, es, rules)
    ensures PicksRows(v, c, pick) && pick.k < |es| && es[pick.k].Name() == pick.name
    ensures PickedRow(v, c, es, rules, pick) != v[pick.a]
  {
    var name :| name in Names(es) && !NameSettled(v, c, es, rules, name);
    var a: Id, b: Id :| NamedRow(v, c, name, a) && NamedRow(v, c, name, b) && a != b;
    if d: Id :| NamedRow(v, c, name, d) && v[d] != VariantOf(c, LastNamed(es, name), rules) {
      var k := LastIndex(es, name);
      pick := Pick(name, d, if d == a then b else a, k);
    } else {
      var k: nat :|
        k < |es| && es[k].Name() == name && VariantOf(c, es[k], rules) != VariantOf(c, LastNamed(es, name), rules);
      pick := Pick(name, a, b, k);
    }
  }

  lemma {:induction false} LastIndex(es: seq<Entry>, name: string) returns (k: nat)
    requires name in Names(es)
    ensures k < |es| && es[k].Name() == name && es[k] == LastNamed(es, name)
    ensures forall j :: k < j < |es| ==> es[j].Name() != name
  {
    if es[|es| - 1].Name() == name {
      k := |es| - 1;
    } else {
      var i :| 0 <= i < |es| && es[i].Name() == name;
      assert es[..|es| - 1][i] == es[i];
      var init := es[..|es| - 1];
      k := LastIndex(init, name);
      forall j | k < j < |es| ensures es[j].Name() != name {
        if j < |es| - 1 { assert init[j] == es[j]; }
      }
    }
  }

  lemma NameListed(es: seq<Entry>, k: nat)
    requires k < |es|
    ensures es[k].Name() in Names(es)
  {
  }

  /** Unsettled rows can change at the second import when lookups may answer differently each time. */
  lemma UnsettledMoves(v: Rows, c: Id, es: seq<Entry>, rules: Rules) returns (v1: Rows, v2: Rows)
    requires rules.lookup.AnyRow? && !Settled(v, c, es, rules)
    ensures Synced(v, c, es, rules, v1) && Synced(v1, c, es, rules, v2) && v2 != v1
  {
    var pick := UnsettledName(v, c, es, rules);
    NameListed(es, pick.k);
    var u1 := WritesSteered(v, c, es, rules, Some(pick.(k := |es|)), {});
    v1 := Kept(u1, c, Names(es));
    assert PicksRows(v1, c, pick) && v1[pick.a] == v[pick.a];
    var u2 := WritesSteered(v1, c, es, rules, Some(pick), {});
    v2 := Kept(u2, c, Names(es));
    assert pick.a in v2 && v2[pick.a] == VariantOf(c, es[pick.k], rules);
  }

  lemma {:induction false} WritesKeepChannel(v: Rows, c: Id, es: seq<Entry>, rules: Rules, u: Rows)
    requires Writes(v, c, es, rules, u) && forall id :: id in v ==> v[id].channelRef == c
    ensures forall id :: id in u ==> u[id].channelRef == c
    decreases |es|
  {
    if es != [] {
      var w, id := LastWrite(v, c, es, rules, u);
      WritesKeepChannel(v, c, es[..|es| - 1], rules, w);
    }
  }

  // ---------------------------------------------------------------------------
  // Lookups that answer alike for the same ids
  // ---------------------------------------------------------------------------

  lemma RowsNamedAfter(v: Rows, w: Rows, c: Id, e: Entry, id: Id, rules: Rules, name: string)
    requires Directed(v, w, c, e.Name(), id, rules)
    ensures var u := w[id := VariantOf(c, e, rules)];
      RowsNamed(u, c, name) ==
        if name == e.Name() && RowsNamed(w, c, name) == {} then {id} else RowsNamed(w, c, name)
    ensures RowsNamed(w, c, e.Name()) != {} ==> rules.lookup.Returns(RowsNamed(w, c, e.Name()), id)
  {
    var u := w[id := VariantOf(c, e, rules)];
    forall i ensures i in RowsNamed(u, c, name) <==> i in RowsNamed(w, c, name) || (i == id && name == e.Name()) {}
    if i :| i in RowsNamed(w, c, e.Name()) {
      assert NamedRow(w, c, e.Name(), i);
    }
    assert RowsNamed(u, c, name) == RowsNamed(w, c, name) + if name == e.Name() then {id} else {};
  }

  /** The row the lookups choose for the name carries its last entry. */
  ghost predicate ChosenLast(u: Rows, c: Id, es: seq<Entry>, rules: Rules, name: string)
    requires rules.lookup.ByIds? && name in Names(es)
  {
    var rows := RowsNamed(u, c, name);
    var chosen := rules.lookup.choose(rows);
    rows != {} && chosen in u && u[chosen] == VariantOf(c, LastNamed(es, name), rules)
  }

  lemma ChosenLastStep(v: Rows, w: Rows, c: Id, init: seq<Entry>, last: Entry, rules: Rules, id: Id, name: string)
    requires rules.lookup.ByIds? && Directed(v, w, c, last.Name(), id, rules) && name in Names(init + [last])
    requires name != last.Name() ==> name in Names(init) && ChosenLast(w, c, init, rules, name)
    ensures ChosenLast(w[id := VariantOf(c, last, rules)], c, init + [last], rules, name)
  {
    NamesGrow(init, last);
    RowsNamedAfter(v, w, c, last, id, rules, name);
    var rows := RowsNamed(w, c, name);
    if name != last.Name() {
      assert rules.lookup.choose(rows) in rows;
    }
    hide Names, LastNamed, VariantOf;
  }

  lemma {:induction false} WritesChosenLast(v: Rows, c: Id, es: seq<Entry>, rules: Rules, u: Rows, name: string)
    requires rules.lookup.ByIds? && Writes(v, c, es, rules, u) && name in Names(es)
    ensures ChosenLast(u, c, es, rules, name)
    decreases |es|
  {
    var init, last := es[..|es| - 1], es[|es| - 1];
    assert es == init + [last];
    NamesGrow(init, last);
    var w, id := LastWrite(v, c, es, rules, u);
    hide Writes, ChosenLast, Directed, Names, LastNamed, VariantOf;
    if name != last.Name() {
      WritesChosenLast(v, c, init, rules, w, name);
    }
    ChosenLastStep(v, w, c, init, last, rules, id, name);
  }

  ghost predicate ChosenForSome(v: Rows, c: Id, es: seq<Entry>, rules: Rules, id: Id)
    requires rules.lookup.ByIds?
  {
    exists name :: name in Names(es) && id == rules.lookup.choose(RowsNamed(v, c, name))
  }

  /** A write to a name that has rows goes to the chosen one and leaves every name its rows. */
  lemma ChosenWrite(v: Rows, w: Rows, c: Id, e: Entry, id: Id, rules: Rules)
    requires rules.lookup.ByIds? && Directed(v, w, c, e.Name(), id, rules) && RowsNamed(w, c, e.Name()) != {}
    ensures id in w && id == rules.lookup.choose(RowsNamed(w, c, e.Name()))
    ensures forall name :: RowsNamed(w[id := VariantOf(c, e, rules)], c, name) == RowsNamed(w, c, name)
  {
    forall name ensures RowsNamed(w[id := VariantOf(c, e, rules)], c, name) == RowsNamed(w, c, name) {
      RowsNamedAfter(v, w, c, e, id, rules, name);
    }
    RowsNamedAfter(v, w, c, e, id, rules, e.Name());
    assert id in RowsNamed(w, c, e.Name());
  }

  lemma ChosenForMore(v: Rows, c: Id, init: seq<Entry>, last: Entry, rules: Rules)
    requires rules.lookup.ByIds?
    ensures forall id :: ChosenForSome(v, c, init, rules, id) ==> ChosenForSome(v, c, init + [last], rules, id)
    ensures ChosenForSome(v, c, init + [last], rules, rules.lookup.choose(RowsNamed(v, c, last.Name())))
  {
    NamesGrow(init, last);
    hide Names, RowsNamed;
    forall id | ChosenForSome(v, c, init, rules, id) ensures ChosenForSome(v, c, init + [last], rules, id) {
      var name :| name in Names(init) && id == rules.lookup.choose(RowsNamed(v, c, name));
      assert name in Names(init + [last]);
    }
    assert last.Name() in Names(init + [last]);
  }

  lemma TouchChosenNext(v: Rows, w: Rows, c: Id, init: seq<Entry>, last: Entry, rules: Rules, id: Id)
    requires rules.lookup.ByIds? && Directed(v, w, c, last.Name(), id, rules)
    requires w.Keys == v.Keys && forall name :: RowsNamed(w, c, name) == RowsNamed(v, c, name)
    requires RowsNamed(v, c, last.Name()) != {}
    requires forall i :: i in v ==> w[i] == v[i] || ChosenForSome(v, c, init, rules, i)
    ensures var u := w[id := VariantOf(c, last, rules)];
      && u.Keys == v.Keys && (forall name :: RowsNamed(u, c, name) == RowsNamed(v, c, name))
      && forall i :: i in v ==> u[i] == v[i] || ChosenForSome(v, c, init + [last], rules, i)
  {
    hide *;
    ChosenWrite(v, w, c, last, id, rules);
    ChosenForMore(v, c, init, last, rules);
  }

  /** Where every name has a row already, the writes only touch chosen rows, and lookups keep choosing the same. */
  lemma {:induction false} WritesTouchChosen(v: Rows, c: Id, es: seq<Entry>, rules: Rules, u: Rows)
    requires rules.lookup.ByIds? && Writes(v, c, es, rules, u)
    requires forall name :: name in Names(es) ==> RowsNamed(v, c, name) != {}
    ensures u.Keys == v.Keys && forall name :: RowsNamed(u, c, name) == RowsNamed(v, c, name)
    ensures forall id :: id in v ==> u[id] == v[id] || ChosenForSome(v, c, es, rules, id)
    decreases |es|
  {
    if es != [] {
      var init, last := es[..|es| - 1], es[|es| - 1];
      assert es == init + [last];
      NamesGrow(init, last);
      var w, id := LastWrite(v, c, es, rules, u);
      assert forall name :: name in Names(init) ==> name in Names(es);
      assert last.Name() in Names(es);
      hide *;
      WritesTouchChosen(v, c, init, rules, w);
      TouchChosenNext(v, w, c, init, last, rules, id);
    }
  }

  lemma KeptRowsNamed(u: Rows, c: Id, names: set<string>, name: string)
    requires name in names
    ensures RowsNamed(Kept(u, c, names), c, name) == RowsNamed(u, c, name)
    ensures forall id :: id in RowsNamed(u, c, name) ==> id in Kept(u, c, names) && Kept(u, c, names)[id] == u[id]
  {
    forall id ensures id in RowsNamed(Kept(u, c, names), c, name) <==> id in RowsNamed(u, c, name) {}
  }

  lemma SyncedChosenLast(v: Rows, c: Id, es: seq<Entry>, rules: Rules, v1: Rows, name: string)
    requires rules.lookup.ByIds? && Synced(v, c, es, rules, v1) && name in Names(es)
    ensures ChosenLast(v1, c, es, rules, name)
  {
    var u :| Writes(v, c, es, rules, u) && v1 == Kept(u, c, Names(es));
    WritesChosenLast(v, c, es, rules, u, name);
    KeptRowsNamed(u, c, Names(es), name);
    hide Writes, Kept, VariantOf, LastNamed;
  }

  /** The writes of a second sync leave every row as it is. */
  lemma SecondWritesSame(v1: Rows, c: Id, es: seq<Entry>, rules: Rules, u2: Rows)
    requires rules.lookup.ByIds? && Writes(v1, c, es, rules, u2)
    requires forall name :: name in Names(es) ==> ChosenLast(v1, c, es, rules, name)
    ensures u2 == v1
  {
    WritesTouchChosen(v1, c, es, rules, u2);
    forall id | id in v1 ensures u2[id] == v1[id] {
      if ChosenForSome(v1, c, es, rules, id) {
        var name :| name in Names(es) && id == rules.lookup.choose(RowsNamed(v1, c, name));
        WritesChosenLast(v1, c, es, rules, u2, name);
        assert ChosenLast(v1, c, es, rules, name);
      }
    }
  }

  lemma KeptTwice(u: Rows, c: Id, names: set<string>)
    ensures Kept(Kept(u, c, names), c, names) == Kept(u, c, names)
  {
    assert Stale(Kept(u, c, names), c, names) == {};
  }

  /** When lookups answer alike for the same ids, a second sync changes nothing, whatever duplicates there are. */
  lemma SameAnswersRepeat(v: Rows, c: Id, es: seq<Entry>, rules: Rules, v1: Rows, v2: Rows)
    requires rules.lookup.ByIds? && Synced(v, c, es, rules, v1) && Synced(v1, c, es, rules, v2)
    ensures v2 == v1
  {
    var u1 :| Writes(v, c, es, rules, u1) && v1 == Kept(u1, c, Names(es));
    KeptTwice(u1, c, Names(es));
    var u2 :| Writes(v1, c, es, rules, u2) && v2 == Kept(u2, c, Names(es));
    hide *;
    forall name | name in Names(es) ensures ChosenLast(v1, c, es, rules, name) {
      SyncedChosenLast(v, c, es, rules, v1, name);
    }
    SecondWritesSame(v1, c, es, rules, u2);
  }

  /**
   * A second sync changes nothing if and only if lookups answer alike for the
   * same ids, or every playlist name has at most one row or is already settled.
   */
  lemma RepeatsIffSettled(v: Rows, c: Id, es: seq<Entry>, rules: Rules)
    requires forall id :: id in v ==> v[id].channelRef == c
    ensures (forall v1: Rows, v2: Rows :: Synced(v, c, es, rules, v1) && Synced(v1, c, es, rules, v2) ==> v2 == v1)
            <==> rules.lookup.ByIds? || Settled(v, c, es, rules)
  {
    if rules.lookup.ByIds? || Settled(v, c, es, rules) {
      forall v1: Rows, v2: Rows | Synced(v, c, es, rules, v1) && Synced(v1, c, es, rules, v2) ensures v2 == v1 {
        SyncRepeats(v, c, es, rules, v1, v2);
      }
    } else {
      var v1, v2 := UnsettledMoves(v, c, es, rules);
    }
  }

  lemma SyncRepeats(v: Rows, c: Id, es: seq<Entry>, rules: Rules, v1: Rows, v2: Rows)
    requires rules.lookup.ByIds? || Settled(v, c, es, rules)
    requires forall id :: id in v ==> v[id].channelRef == c
    requires Synced(v, c, es, rules, v1) && Synced(v1, c, es, rules, v2)
    ensures v2 == v1
  {
    if rules.lookup.ByIds? {
      SameAnswersRepeat(v, c, es, rules, v1, v2);
    } else {
      var u: Rows :| Writes(v, c, es, rules, u) && v1 == Kept(u, c, Names(es));
      WritesKeepChannel(v, c, es, rules, u);
      SettledRepeats(v, c, es, rules, v1, v2);
    }
  }

  lemma SyncedTagsAgain(t0: TagTable, t1: TagTable, t2: TagTable, c: Id, desired: set<Id>)
    requires TagsSynced(t0, c, desired, t1) && TagsSynced(t1, c, desired, t2)
    ensures SameTags(t1, t2, c)
  {
    AutoTagsAfterSync(t0, c, desired, t1);
    forall g: Id ensures Tag(t1, c, g) == Tag(t2, c, g) {
      assert Tag(t1, c, g) == if UserTag(t0, c, g) then Tag(t0, c, g) else if g in desired then Some(AUTO) else None;
    }
  }

  /** Both imports use the same channel for the group, with the same row. */
  ghost predicate AgreeOn(chan: map<string, Id>, chan2: map<string, Id>, found1: Channels, found2: Channels,
                          key: string)
  {
    && key in chan && key in chan2 && chan2[key] == chan[key]
    && chan[key] in found1 && chan[key] in found2 && found2[chan[key]] == found1[chan[key]]
  }

  lemma ChannelForTwice(former: Option<ChannelRow>, key: string, es: seq<Entry>, rules: Rules)
    requires es != []
    ensures var row := ChannelFor(former, key, es, rules); ChannelFor(Some(row), key, es, rules) == row
  {
    hide Representative;
  }

  lemma SecondImportSameChannel(rows0: Channels, rows1: Channels, rows2: Channels, groups: Groups, rules: Rules,
                                chan: map<string, Id>, chan2: map<string, Id>, key: string)
    requires ChannelsImported(rows0, rows1, groups, rules, chan)
    requires ChannelsImported(rows1, rows2, groups, rules, chan2)
    requires key in groups
    ensures AgreeOn(chan, chan2, rows1, rows2, key)
  {
    OneChannelPerTvgId(rows0, rows1, groups, rules, chan);
    assert ChannelRowOk(rows1, rows2, groups, rules, chan2, key);
    assert ChannelRowOk(rows0, rows1, groups, rules, chan, key);
    ChannelForTwice(if chan[key] in rows0 then Some(rows0[chan[key]]) else None, key, groups[key], rules);
    hide ChannelsImported, ChannelFor;
  }

  /** A second import finds every channel it needs and no other. */
  lemma SecondImportSameChannels(rows0: Channels, rows1: Channels, rows2: Channels, groups: Groups, rules: Rules,
                                 chan: map<string, Id>, chan2: map<string, Id>)
    requires ChannelsImported(rows0, rows1, groups, rules, chan)
    requires ChannelsImported(rows1, rows2, groups, rules, chan2)
    ensures chan2 == chan && rows2 == rows1
    ensures NewKeys(rows1.Keys, chan2) == {} && rows1.Keys - chan2.Values == {}
  {
    forall key | key in groups ensures AgreeOn(chan, chan2, rows1, rows2, key) {
      SecondImportSameChannel(rows0, rows1, rows2, groups, rules, chan, chan2, key);
    }
    SameAssignments(chan, chan2, rows1, rows2);
  }

  lemma SameAssignments(chan: map<string, Id>, chan2: map<string, Id>, found1: Channels, found2: Channels)
    requires chan.Keys == chan2.Keys && found1.Keys == chan.Values && found2.Keys == chan2.Values
    requires forall key :: key in chan ==> AgreeOn(chan, chan2, found1, found2, key)
    ensures chan2 == chan && found2 == found1
    ensures NewKeys(found1.Keys, chan2) == {} && found1.Keys - chan2.Values == {}
  {
    forall key | key in chan ensures chan[key] == chan2[key] { assert AgreeOn(chan, chan2, found1, found2, key); }
    SameMaps(chan, chan2);
    forall c | c in found1 ensures c in found2 && found1[c] == found2[c] {
      var key :| key in chan && chan[key] == c;
      assert AgreeOn(chan, chan2, found1, found2, key);
    }
    SameMaps(found1, found2);
  }

  lemma SameMaps<K, V>(m: map<K, V>, n: map<K, V>)
    requires m.Keys == n.Keys && forall k :: k in m ==> m[k] == n[k]
    ensures m == n
  {
  }

  lemma SecondImportSameData(t0: Tables, t1: Tables, t2: Tables, groups: Groups, rules: Rules, tagOf: string -> Id,
                             chan: map<string, Id>, key: string)
    requires Imported(t0, t1, groups, rules, tagOf, chan) && Imported(t1, t2, groups, rules, tagOf, chan)
    requires key in groups
    requires rules.lookup.ByIds? || Settled(RowsOf(t0.variants, chan[key]), chan[key], groups[key], rules)
    ensures SameChannelData(t1, t2, chan[key])
  {
    var c, es := chan[key], groups[key];
    assert ChannelImported(t0, t1, key, es, rules, tagOf, c) && ChannelImported(t1, t2, key, es, rules, tagOf, c);
    SyncRepeats(RowsOf(t0.variants, c), c, es, rules, RowsOf(t1.variants, c), RowsOf(t2.variants, c));
    SyncedTagsAgain(t0.tags, t1.tags, t2.tags, c, DesiredTags(es, tagOf));
  }

  lemma RowsIncluded(t1: Tables, t2: Tables)
    requires forall d: Id :: RowsOf(t1.variants, d) == RowsOf(t2.variants, d)
    ensures forall id :: id in t1.variants ==> id in t2.variants && t2.variants[id] == t1.variants[id]
  {
    forall id | id in t1.variants ensures id in t2.variants && t2.variants[id] == t1.variants[id] {
      var d := t1.variants[id].channelRef;
      assert id in RowsOf(t1.variants, d);
      assert id in RowsOf(t2.variants, d);
    }
  }

  lemma SameRowsSameTables(t1: Tables, t2: Tables)
    requires t1.channels == t2.channels && forall d: Id :: SameChannelData(t1, t2, d)
    ensures t1 == t2
  {
    assert t1.variants == t2.variants by {
      forall d: Id ensures RowsOf(t1.variants, d) == RowsOf(t2.variants, d) { assert SameChannelData(t1, t2, d); }
      RowsIncluded(t1, t2);
      RowsIncluded(t2, t1);
    }
    forall p: (Id, Id) ensures p in t1.tags <==> p in t2.tags
      ensures p in t1.tags && p in t2.tags ==> t1.tags[p] == t2.tags[p]
    {
      assert SameChannelData(t1, t2, p.0);
      assert Tag(t1.tags, p.0, p.1) == Tag(t2.tags, p.0, p.1);
      assert p == (p.0, p.1);
    }
    assert t1.tags == t2.tags;
  }

  /**
   * Importing the same playlist again adds nothing, removes nothing and leaves
   * all three tables as they are, provided lookups answer alike for the same ids
   * or the variants were settled.
   */
  lemma SecondImportChangesNothing(t0: Tables, t1: Tables, t2: Tables, groups: Groups, rules: Rules,
                                   tagOf: string -> Id, chan: map<string, Id>, chan2: map<string, Id>)
    requires Imported(t0, t1, groups, rules, tagOf, chan) && Imported(t1, t2, groups, rules, tagOf, chan2)
    requires rules.lookup.ByIds? ||
      forall key :: key in groups ==> Settled(RowsOf(t0.variants, chan[key]), chan[key], groups[key], rules)
    ensures t2 == t1
    ensures |NewKeys(t1.channels.Keys, chan2)| == 0 && |t1.channels.Keys - chan2.Values| == 0
  {
    ImportChannels(t0, t1, groups, rules, tagOf, chan);
    ImportChannels(t1, t2, groups, rules, tagOf, chan2);
    SecondImportSameChannels(t0.channels, t1.channels, t2.channels, groups, rules, chan, chan2);
    SecondImportSameRows(t0, t1, t2, groups, rules, tagOf, chan);
    hide Imported, SameChannelData;
    SameRowsSameTables(t1, t2);
  }

  lemma SecondImportSameRows(t0: Tables, t1: Tables, t2: Tables, groups: Groups, rules: Rules, tagOf: string -> Id,
                             chan: map<string, Id>)
    requires Imported(t0, t1, groups, rules, tagOf, chan) && Imported(t1, t2, groups, rules, tagOf, chan)
    requires rules.lookup.ByIds? ||
      forall key :: key in groups ==> Settled(RowsOf(t0.variants, chan[key]), chan[key], groups[key], rules)
    ensures forall d: Id :: SameChannelData(t1, t2, d)
  {
    hide SameChannelData, ChannelImported, RowsOf, Settled;
    forall d: Id ensures SameChannelData(t1, t2, d) {
      if d in chan.Values {
        var key :| key in chan && chan[key] == d;
        SecondImportSameData(t0, t1, t2, groups, rules, tagOf, chan, key);
      } else {
        assert d !in t1.channels;
      }
    }
  }
}
