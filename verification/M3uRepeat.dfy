/**
 * Importing the same playlist twice, over whole tables.  When lookups answer
 * alike for the same ids the second import does nothing; when they may answer
 * differently each time, the exact condition is on the tables and the playlist.
 */
module M3uRepeat {
  import opened Prelude
  import opened M3uImport
  import opened M3uLaws

  /** Every channel the import may find for a group has settled variants. */
  ghost predicate AllSettled(t: Tables, groups: Groups, rules: Rules) {
    forall key, c :: key in groups && c in t.channels && t.channels[c].tvgId == Some(key) ==>
      Settled(RowsOf(t.variants, c), c, groups[key], rules)
  }

  /** Two imports in a row. */
  ghost predicate Twice(t0: Tables, t1: Tables, t2: Tables, groups: Groups, rules: Rules, tagOf: string -> Id) {
    exists chan, chan2 ::
      Imported(t0, t1, groups, rules, tagOf, chan) && Imported(t1, t2, groups, rules, tagOf, chan2)
  }

  lemma ImportsRepeat(t0: Tables, t1: Tables, t2: Tables, groups: Groups, rules: Rules, tagOf: string -> Id)
    requires rules.lookup.ByIds? || AllSettled(t0, groups, rules)
    requires Twice(t0, t1, t2, groups, rules, tagOf)
    ensures t2 == t1
  {
    var chan, chan2 :| Imported(t0, t1, groups, rules, tagOf, chan) && Imported(t1, t2, groups, rules, tagOf, chan2);
    if !rules.lookup.ByIds? {
      forall key | key in groups ensures Settled(RowsOf(t0.variants, chan[key]), chan[key], groups[key], rules) {
        FoundIsSettled(t0, t1, groups, rules, tagOf, chan, key);
      }
    }
    SecondImportChangesNothing(t0, t1, t2, groups, rules, tagOf, chan, chan2);
  }

  lemma FoundIsSettled(t0: Tables, t1: Tables, groups: Groups, rules: Rules, tagOf: string -> Id, chan: map<string, Id>,
                       key: string)
    requires AllSettled(t0, groups, rules) && Imported(t0, t1, groups, rules, tagOf, chan) && key in groups
    ensures Settled(RowsOf(t0.variants, chan[key]), chan[key], groups[key], rules)
  {
    var c := chan[key];
    assert ChannelImported(t0, t1, key, groups[key], rules, tagOf, c);
    assert ChannelSource(t0, key, c);
    if c !in t0.channels {
      NoRowsSettled(c, groups[key], rules);
    }
  }

  lemma NoRowsSettled(c: Id, es: seq<Entry>, rules: Rules)
    ensures Settled(map[], c, es, rules)
  {
  }

  // ---------------------------------------------------------------------------
  // Building imports that differ
  // ---------------------------------------------------------------------------

  /** The confidence a pair's row has once the tags of channel c are synced. */
  function TagAfter(t: TagTable, c: Id, desired: set<Id>, p: (Id, Id)): Option<Option<int>> {
    if p.0 != c || UserTag(t, c, p.1) then Tag(t, p.0, p.1)
    else if p.1 in desired then Some(AUTO)
    else None
  }

  function TagsAfter(t: TagTable, c: Id, desired: set<Id>): TagTable {
    var pairs := t.Keys + set g | g in desired :: (c, g);
    map p | p in pairs && TagAfter(t, c, desired, p).Some? :: TagAfter(t, c, desired, p).value
  }

  lemma TagsAfterSynced(t: TagTable, c: Id, desired: set<Id>)
    ensures TagsSynced(t, c, desired, TagsAfter(t, c, desired))
    ensures forall d: Id :: d != c ==> SameTags(t, TagsAfter(t, c, desired), d)
  {
    var t' := TagsAfter(t, c, desired);
    forall d: Id, g: Id ensures Tag(t', d, g) == TagAfter(t, c, desired, (d, g)) {
      if d == c && g in desired { assert (c, g) in set h | h in desired :: (c, h); }
    }
  }

  /** Replacing one channel's rows leaves the others' as they were. */
  lemma ReplaceRows(variants: Rows, c: Id, rows: Rows)
    requires forall id :: id in rows ==> rows[id].channelRef == c && (id in variants ==> variants[id].channelRef == c)
    ensures RowsOf(variants - RowsOf(variants, c).Keys + rows, c) == rows
    ensures forall d: Id :: d != c ==> RowsOf(variants - RowsOf(variants, c).Keys + rows, d) == RowsOf(variants, d)
  {
  }

  ghost predicate PickHolds(t: Tables, t': Tables, c: Id, es: seq<Entry>, rules: Rules, pick: Pick)
    requires PicksRows(RowsOf(t.variants, c), c, pick)
  {
    && PicksRows(RowsOf(t'.variants, c), c, pick)
    && RowsOf(t'.variants, c)[pick.a] == PickedRow(RowsOf(t.variants, c), c, es, rules, pick)
  }

  /** The variants of one channel after an import of its group that follows the pick. */
  lemma RowsRun(variants: Rows, c: Id, es: seq<Entry>, rules: Rules, pick: Option<Pick>)
    returns (rows: Rows)
    requires rules.lookup.AnyRow?
    requires pick.Some? ==> PicksRows(RowsOf(variants, c), c, pick.value) && pick.value.name in Names(es)
    ensures Synced(RowsOf(variants, c), c, es, rules, rows)
    ensures forall id :: id in rows ==> rows[id].channelRef == c && (id in variants ==> variants[id].channelRef == c)
    ensures pick.Some? ==> PicksRows(rows, c, pick.value)
    ensures pick.Some? ==> rows[pick.value.a] == PickedRow(RowsOf(variants, c), c, es, rules, pick.value)
  {
    var v := RowsOf(variants, c);
    var u := WritesSteered(v, c, es, rules, pick, variants.Keys);
    WritesKeepChannel(v, c, es, rules, u);
    rows := Kept(u, c, Names(es));
    forall id | id in u.Keys && id !in v.Keys ensures id !in variants.Keys {
      assert id in u.Keys - v.Keys;
    }
    assert forall id :: id in rows && id in variants ==> id in u.Keys && id in v.Keys;
  }

  /** An import of one group into the given channel. */
  lemma GroupRun(t: Tables, key: string, es: seq<Entry>, rules: Rules, tagOf: string -> Id, c: Id, pick: Option<Pick>)
    returns (t': Tables)
    requires rules.lookup.AnyRow? && es != [] && ChannelSource(t, key, c)
    requires pick.Some? ==> PicksRows(RowsOf(t.variants, c), c, pick.value) && pick.value.name in Names(es)
    ensures GroupImported(t, t', key, es, rules, tagOf, c)
    ensures pick.Some? ==> PickHolds(t, t', c, es, rules, pick.value)
  {
    var rows := RowsRun(t.variants, c, es, rules, pick);
    ReplaceRows(t.variants, c, rows);
    TagsAfterSynced(t.tags, c, DesiredTags(es, tagOf));
    var row := ChannelFor(if c in t.channels then Some(t.channels[c]) else None, key, es, rules);
    hide RowsOf, TagsAfter, TagsSynced, SameTags, Synced;
    t' := Tables(t.channels[c := row], t.variants - RowsOf(t.variants, c).Keys + rows,
                 TagsAfter(t.tags, c, DesiredTags(es, tagOf)));
  }

  /** A channel for a group: one carrying its tvg id, or an unused one. */
  lemma SomeChannel(t: Tables, key: string) returns (c: Id)
    ensures ChannelSource(t, key, c)
  {
    if i :| i in t.channels && t.channels[i].tvgId == Some(key) {
      c := i;
    } else {
      var referred := (set i | i in t.variants :: t.variants[i].channelRef) + set p | p in t.tags :: p.0;
      var used := t.channels.Keys + referred;
      UnusedExists(used);
      c :| c !in used;
      UnusedChannel(t.variants, t.tags, c);
    }
  }

  lemma NoGroupsYet(t: Tables, groups: Groups, rules: Rules, tagOf: string -> Id)
    requires WellGrouped(groups)
    ensures Upsert(t, t, groups, rules, tagOf, map[])
  {
  }

  lemma PickCarries(t0: Tables, t: Tables, t': Tables, c: Id, es: seq<Entry>, rules: Rules, pick: Pick)
    requires PicksRows(RowsOf(t0.variants, c), c, pick) && PickHolds(t0, t, c, es, rules, pick)
    requires SameChannelData(t, t', c)
    ensures PickHolds(t0, t', c, es, rules, pick)
  {
  }

  lemma SameChannelHasData(t: Tables, t': Tables, d: Id)
    requires SameChannel(t, t', d)
    ensures SameChannelData(t, t', d)
  {
  }

  /** An import of another group keeps what the pick achieved. */
  lemma OtherGroupRun(t0: Tables, before: Tables, key: string, es: seq<Entry>, rules: Rules, tagOf: string -> Id, c: Id,
                      c0: Id, es0: seq<Entry>, pick: Pick)
    returns (t: Tables)
    requires rules.lookup.AnyRow? && es != [] && ChannelSource(before, key, c) && c != c0
    requires PicksRows(RowsOf(t0.variants, c0), c0, pick) && PickHolds(t0, before, c0, es0, rules, pick)
    ensures GroupImported(before, t, key, es, rules, tagOf, c)
    ensures PickHolds(t0, t, c0, es0, rules, pick)
  {
    hide PickHolds, PicksRows, GroupImported, ChannelSource, RowsOf, SameChannel, SameChannelData;
    t := GroupRun(before, key, es, rules, tagOf, c, None);
    GroupLeavesOthers(before, t, key, es, rules, tagOf, c);
    assert SameChannel(before, t, c0);
    SameChannelHasData(before, t, c0);
    PickCarries(t0, before, t, c0, es0, rules, pick);
  }

  lemma NextGroup(t0: Tables, before: Tables, groups: Groups, rules: Rules, tagOf: string -> Id, chan1: map<string, Id>,
                  key: string, key0: string, pick: Pick)
    returns (t: Tables, chan: map<string, Id>)
    requires rules.lookup.AnyRow? && WellGrouped(groups) && Upsert(t0, before, groups, rules, tagOf, chan1)
    requires key in groups && key !in chan1 && key0 in chan1 && key0 in groups
    requires PicksRows(RowsOf(t0.variants, chan1[key0]), chan1[key0], pick)
    requires PickHolds(t0, before, chan1[key0], groups[key0], rules, pick)
    ensures Upsert(t0, t, groups, rules, tagOf, chan) && chan.Keys == chan1.Keys + {key} && chan[key0] == chan1[key0]
    ensures PickHolds(t0, t, chan1[key0], groups[key0], rules, pick)
  {
    hide PickHolds, PicksRows, Upsert, GroupImported, ChannelSource, RowsOf;
    assert chan1[key0] in chan1.Values;
    var c := SomeChannel(before, key);
    NotSeenYet(t0, before, groups, rules, tagOf, chan1, key, c);
    t := OtherGroupRun(t0, before, key, groups[key], rules, tagOf, c, chan1[key0], groups[key0], pick);
    UpsertGroup(t0, before, t, groups, rules, tagOf, chan1, key, c);
    chan := chan1[key := c];
  }

  lemma FirstGroup(t0: Tables, groups: Groups, rules: Rules, tagOf: string -> Id, key0: string, c0: Id, pick: Pick)
    returns (t: Tables, chan: map<string, Id>)
    requires rules.lookup.AnyRow? && WellGrouped(groups) && key0 in groups && ChannelSource(t0, key0, c0)
    requires PicksRows(RowsOf(t0.variants, c0), c0, pick) && pick.name in Names(groups[key0])
    ensures Upsert(t0, t, groups, rules, tagOf, chan) && chan.Keys == {key0} && chan[key0] == c0
    ensures PickHolds(t0, t, c0, groups[key0], rules, pick)
  {
    var none: map<string, Id> := map[];
    NoGroupsYet(t0, groups, rules, tagOf);
    hide *;
    t := GroupRun(t0, key0, groups[key0], rules, tagOf, c0, Some(pick));
    UpsertGroup(t0, t0, t, groups, rules, tagOf, none, key0, c0);
    chan := none[key0 := c0];
  }

  /** The groups in todo imported, the distinguished one first and into the given channel. */
  lemma {:induction false} GroupsRun(t0: Tables, groups: Groups, rules: Rules, tagOf: string -> Id, todo: set<string>,
                                     key0: string, c0: Id, pick: Pick)
    returns (t: Tables, chan: map<string, Id>)
    requires rules.lookup.AnyRow? && WellGrouped(groups)
    requires todo <= groups.Keys && key0 in todo && ChannelSource(t0, key0, c0)
    requires PicksRows(RowsOf(t0.variants, c0), c0, pick) && pick.name in Names(groups[key0])
    ensures Upsert(t0, t, groups, rules, tagOf, chan) && chan.Keys == todo && chan[key0] == c0
    ensures PickHolds(t0, t, c0, groups[key0], rules, pick)
    decreases todo
  {
    hide *;
    if todo - {key0} == {} {
      t, chan := FirstGroup(t0, groups, rules, tagOf, key0, c0, pick);
      assert todo == {key0};
    } else {
      var key :| key in todo - {key0};
      var before, chan1 := GroupsRun(t0, groups, rules, tagOf, todo - {key}, key0, c0, pick);
      t, chan := NextGroup(t0, before, groups, rules, tagOf, chan1, key, key0, pick);
      assert todo - {key} + {key} == todo;
    }
  }

  lemma {:induction false} RemoveAllOf(t: Tables, gone: set<Id>) returns (t': Tables)
    ensures RemovedUpTo(t, t', gone)
    decreases gone
  {
    if gone == {} {
      NothingRemoved(t);
      t' := t;
    } else {
      hide RemovedUpTo;
      var c :| c in gone;
      var before := RemoveAllOf(t, gone - {c});
      t' := Without(before, c);
      WithoutRemoves(before, c);
      RemovedTrans(t, before, t', gone - {c}, c);
      assert gone - {c} + {c} == gone;
    }
  }

  /** A whole import that uses the given channel for one group and follows the pick there. */
  lemma ImportRun(t0: Tables, groups: Groups, rules: Rules, tagOf: string -> Id, key0: string, c0: Id, pick: Pick)
    returns (t1: Tables, chan: map<string, Id>)
    requires rules.lookup.AnyRow? && WellGrouped(groups) && key0 in groups && ChannelSource(t0, key0, c0)
    requires PicksRows(RowsOf(t0.variants, c0), c0, pick) && pick.name in Names(groups[key0])
    ensures Imported(t0, t1, groups, rules, tagOf, chan) && chan[key0] == c0
    ensures PickHolds(t0, t1, c0, groups[key0], rules, pick)
  {
    var t;
    t, chan := GroupsRun(t0, groups, rules, tagOf, groups.Keys, key0, c0, pick);
    var gone := t0.channels.Keys - chan.Values;
    t1 := RemoveAllOf(t, gone);
    RemovalFinishes(t0, t, t1, groups, rules, tagOf, chan);
    assert c0 in chan.Values && SameChannelData(t, t1, c0);
    PickCarries(t0, t, t1, c0, groups[key0], rules, pick);
  }

  /** When a channel is not settled, two imports exist of which the second changes the tables. */
  lemma UnsettledImportsDiffer(t0: Tables, groups: Groups, rules: Rules, tagOf: string -> Id)
    returns (t1: Tables, t2: Tables)
    requires rules.lookup.AnyRow? && WellGrouped(groups) && !AllSettled(t0, groups, rules)
    ensures Twice(t0, t1, t2, groups, rules, tagOf) && t2 != t1
  {
    var key, c :| key in groups && c in t0.channels && t0.channels[c].tvgId == Some(key)
                    && !Settled(RowsOf(t0.variants, c), c, groups[key], rules);
    var es := groups[key];
    var pick := UnsettledName(RowsOf(t0.variants, c), c, es, rules);
    NameListed(es, pick.k);
    var chan, chan2;
    t1, chan := ImportRun(t0, groups, rules, tagOf, key, c, pick.(k := |es|));
    ImportChannels(t0, t1, groups, rules, tagOf, chan);
    OneChannelPerTvgId(t0.channels, t1.channels, groups, rules, chan);
    t2, chan2 := ImportRun(t1, groups, rules, tagOf, key, c, pick);
    hide Imported, RowsOf;
    assert RowsOf(t1.variants, c)[pick.a] == RowsOf(t0.variants, c)[pick.a] != RowsOf(t2.variants, c)[pick.a];
  }

  /**
   * A second import of the same playlist leaves all tables as they are when
   * lookups answer alike for the same ids, whatever duplicates there are.
   */
  lemma SameAnswersImportsRepeat(t0: Tables, t1: Tables, t2: Tables, groups: Groups, rules: Rules, tagOf: string -> Id)
    requires rules.lookup.ByIds? && Twice(t0, t1, t2, groups, rules, tagOf)
    ensures t2 == t1
  {
    ImportsRepeat(t0, t1, t2, groups, rules, tagOf);
  }

  /**
   * When lookups may answer differently each time, it does so if and only if
   * every channel carrying the tvg id of a group has settled variants.
   */
  lemma ImportsRepeatIff(t0: Tables, groups: Groups, rules: Rules, tagOf: string -> Id)
    requires rules.lookup.AnyRow? && WellGrouped(groups)
    ensures (forall t1, t2 :: Twice(t0, t1, t2, groups, rules, tagOf) ==> t2 == t1) <==> AllSettled(t0, groups, rules)
  {
    if AllSettled(t0, groups, rules) {
      forall t1, t2 | Twice(t0, t1, t2, groups, rules, tagOf) ensures t2 == t1 {
        ImportsRepeat(t0, t1, t2, groups, rules, tagOf);
      }
    } else {
      var t1, t2 := UnsettledImportsDiffer(t0, groups, rules, tagOf);
    }
  }

  // ---------------------------------------------------------------------------
  // An input on which the second import differs
  // ---------------------------------------------------------------------------

  /**
   * Two rows of one name with different addresses, and one entry of that name:
   * lookups that answer differently each time make the second sync change a row.
   */
  lemma TwoAddressesExample(rules: Rules, e: Entry, former: Entry)
    requires rules.lookup.AnyRow? && e.Name() == former.Name() && e.url == "http://new" && former.url == "http://old"
    ensures var v := map[1 := VariantOf(0, former, rules), 2 := VariantOf(0, e, rules)];
      && !Settled(v, 0, [e], rules)
      && exists v1, v2 :: Synced(v, 0, [e], rules, v1) && Synced(v1, 0, [e], rules, v2) && v2 != v1
  {
    var v := map[1 := VariantOf(0, former, rules), 2 := VariantOf(0, e, rules)];
    NameListed([e], 0);
    assert NamedRow(v, 0, e.Name(), 1) && NamedRow(v, 0, e.Name(), 2);
    assert LastNamed([e], e.Name()) == e;
    assert !NameSettled(v, 0, [e], rules, e.Name());
    var v1, v2 := UnsettledMoves(v, 0, [e], rules);
  }
}
