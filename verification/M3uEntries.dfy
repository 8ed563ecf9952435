/** What a whole import makes of the entries of the playlist, stated on the entries themselves. */
module M3uEntries {
  import opened Prelude
  import opened Text
  import opened M3uImport
  import opened M3uLaws

  // ---------------------------------------------------------------------------
  // Entries and groups
  // ---------------------------------------------------------------------------

  /** An entry is live unless its address has a movie or series directory in it. */
  lemma LiveIff(e: Entry)
    ensures e.Live() <==> forall a: string, b: string :: e.url != a + "/movie/" + b && e.url != a + "/series/" + b
  {
    ContainsIff(e.url, "/movie/");
    ContainsIff(e.url, "/series/");
  }

  /** A live entry of the channel with this tvg id. */
  predicate EntryOf(e: Entry, key: string) {
    e.Live() && e.tvgId == Some(key)
  }

  /** The entry is the channel's and has this name: its tvg name or else its display name. */
  predicate NamedEntry(e: Entry, key: string, name: string) {
    EntryOf(e, key) && name == match e.tvgName { case Some(n) => n case None => e.displayName }
  }

  /** A group lists exactly the entries of its tvg id, in playlist order. */
  lemma {:induction false} GroupPicked(entries: seq<Entry>, key: string) returns (at: seq<nat>)
    ensures Picked(entries, at, GroupOf(entries, key))
    ensures forall k: nat :: k < |entries| ==> (k in at <==> EntryOf(entries[k], key))
  {
    at := [];
    if entries != [] {
      var last := |entries| - 1;
      at := GroupPicked(entries[..last], key);
      PickNext(entries, at, GroupOf(entries[..last], key), EntryOf(entries[last], key));
      if EntryOf(entries[last], key) { at := at + [last]; }
    }
  }

  /** Where entry k of the playlist is in its group. */
  lemma InGroup(entries: seq<Entry>, groups: Groups, key: string, at: seq<nat>, k: nat) returns (x: nat)
    requires Grouped(entries, groups) && Picked(entries, at, GroupOf(entries, key)) && k < |entries| && k in at
    ensures key in groups && x < |groups[key]| == |at| && at[x] == k && groups[key][x] == entries[k]
  {
    x :| x < |at| && at[x] == k;
  }

  /** And on which side of its element x. */
  lemma BesideInGroup(entries: seq<Entry>, groups: Groups, key: string, at: seq<nat>, x: nat, k: nat) returns (y: nat)
    requires Grouped(entries, groups) && Picked(entries, at, GroupOf(entries, key)) && k < |entries| && k in at
    requires x < |at|
    ensures key in groups && y < |groups[key]| == |at| && groups[key][y] == entries[k]
    ensures (at[x] < k ==> x < y) && (k < at[x] ==> y < x)
  {
    y := InGroup(entries, groups, key, at, k);
    hide Grouped, GroupOf;
  }

  lemma GroupElement(entries: seq<Entry>, groups: Groups, key: string, at: seq<nat>, x: nat)
    requires Grouped(entries, groups) && Picked(entries, at, GroupOf(entries, key))
    requires key in groups && x < |groups[key]|
    ensures |at| == |groups[key]| && at[x] < |entries| && groups[key][x] == entries[at[x]] && at[x] in at
  {
    assert at[x] in at;
  }

  /** There is a group for a tvg id exactly when some live entry has it; it holds all of those and no other entry. */
  lemma GroupsHoldEntries(entries: seq<Entry>, groups: Groups, key: string)
    requires Grouped(entries, groups)
    ensures key in groups <==> exists k: nat :: k < |entries| && EntryOf(entries[k], key)
    ensures key in groups ==> forall e :: e in groups[key] <==> e in entries && EntryOf(e, key)
  {
    var at := GroupPicked(entries, key);
    forall k: nat | k < |entries| && EntryOf(entries[k], key) ensures key in groups && entries[k] in groups[key] {
      var x := InGroup(entries, groups, key, at, k);
    }
    if key in groups {
      assert at[0] in at;
      forall x | 0 <= x < |groups[key]| ensures groups[key][x] in entries && EntryOf(groups[key][x], key) {
        assert at[x] in at;
      }
    }
  }

  // ---------------------------------------------------------------------------
  // The import, channel by channel
  // ---------------------------------------------------------------------------

  /** The group a channel was imported from. */
  lemma ChannelGroup(t0: Tables, t': Tables, groups: Groups, rules: Rules, tagOf: string -> Id, chan: map<string, Id>,
                     c: Id) returns (key: string)
    requires Imported(t0, t', groups, rules, tagOf, chan) && c in t'.channels
    ensures t'.channels[c].tvgId == Some(key) && key in groups && groups[key] != []
    ensures t'.channels[c] ==
            ChannelFor(if c in t0.channels then Some(t0.channels[c]) else None, key, groups[key], rules)
    ensures Synced(RowsOf(t0.variants, c), c, groups[key], rules, RowsOf(t'.variants, c))
    ensures TagsSynced(t0.tags, c, DesiredTags(groups[key], tagOf), t'.tags)
  {
    ImportChannels(t0, t', groups, rules, tagOf, chan);
    OneChannelPerTvgId(t0.channels, t'.channels, groups, rules, chan);
    key := t'.channels[c].tvgId.value;
    assert c == chan[key];
    assert ChannelImported(t0, t', key, groups[key], rules, tagOf, c);
    hide ChannelFor, Synced, TagsSynced;
  }

  /** Afterwards there is a channel for a tvg id exactly when some live entry has it. */
  lemma ChannelsOfPlaylist(entries: seq<Entry>, t0: Tables, t': Tables, groups: Groups, rules: Rules,
                           tagOf: string -> Id, chan: map<string, Id>, key: string)
    requires Grouped(entries, groups) && Imported(t0, t', groups, rules, tagOf, chan)
    ensures (exists c :: c in t'.channels && t'.channels[c].tvgId == Some(key)) <==>
            exists k: nat :: k < |entries| && EntryOf(entries[k], key)
  {
    ImportChannels(t0, t', groups, rules, tagOf, chan);
    OneChannelPerTvgId(t0.channels, t'.channels, groups, rules, chan);
    GroupsHoldEntries(entries, groups, key);
  }

  lemma GroupNames(entries: seq<Entry>, groups: Groups, key: string, name: string)
    requires Grouped(entries, groups) && key in groups
    ensures name in Names(groups[key]) <==> exists k: nat :: k < |entries| && NamedEntry(entries[k], key, name)
  {
    var es := groups[key];
    GroupsHoldEntries(entries, groups, key);
    if x: nat :| x < |es| && es[x].Name() == name {
      assert es[x] in es;
      var k: nat :| k < |entries| && entries[k] == es[x];
      assert NamedEntry(entries[k], key, name);
    }
    if k: nat :| k < |entries| && NamedEntry(entries[k], key, name) {
      assert entries[k] in es;
      var x: nat :| x < |es| && es[x] == entries[k];
      assert es[x].Name() == name;
    }
  }

  /** Some variant row of the channel has the name. */
  ghost predicate HasVariant(t: Tables, c: Id, name: string) {
    exists id :: id in t.variants && t.variants[id].channelRef == c && t.variants[id].tvgName == Some(name)
  }

  lemma VariantInRows(t: Tables, c: Id, name: string)
    ensures HasVariant(t, c, name) <==> AnyNamed(RowsOf(t.variants, c), c, name)
  {
    if id :| id in t.variants && t.variants[id].channelRef == c && t.variants[id].tvgName == Some(name) {
      assert NamedRow(RowsOf(t.variants, c), c, name, id);
    }
  }

  /** A channel's variant names are exactly the names of the playlist's live entries with its tvg id. */
  lemma VariantNamesOfPlaylist(entries: seq<Entry>, t0: Tables, t': Tables, groups: Groups, rules: Rules,
                               tagOf: string -> Id, chan: map<string, Id>, c: Id, name: string)
    requires Grouped(entries, groups) && Imported(t0, t', groups, rules, tagOf, chan) && c in t'.channels
    ensures t'.channels[c].tvgId.Some?
    ensures HasVariant(t', c, name) <==>
            exists k: nat :: k < |entries| && NamedEntry(entries[k], t'.channels[c].tvgId.value, name)
  {
    hide *;
    var key := ChannelGroup(t0, t', groups, rules, tagOf, chan, c);
    GroupNames(entries, groups, key, name);
    VariantNamesMatch(RowsOf(t0.variants, c), c, groups[key], rules, RowsOf(t'.variants, c), name);
    VariantInRows(t', c, name);
  }

  /** Entry k is the last of the channel's entries with the name. */
  ghost predicate LastEntry(entries: seq<Entry>, key: string, name: string, k: nat) {
    && k < |entries| && NamedEntry(entries[k], key, name)
    && forall j: nat :: k < j < |entries| ==> !NamedEntry(entries[j], key, name)
  }

  lemma LastEntryIs(entries: seq<Entry>, key: string, name: string, k: nat)
    requires k < |entries| && NamedEntry(entries[k], key, name)
    requires forall j: nat :: k < j < |entries| ==> !NamedEntry(entries[j], key, name)
    ensures LastEntry(entries, key, name, k)
  {
  }

  lemma NotNamedLater(entries: seq<Entry>, groups: Groups, key: string, name: string, at: seq<nat>, x: nat, j: nat)
    requires Grouped(entries, groups) && Picked(entries, at, GroupOf(entries, key)) && key in groups
    requires forall k: nat :: k < |entries| ==> (k in at <==> EntryOf(entries[k], key))
    requires x < |groups[key]| == |at| && at[x] < j < |entries|
    requires forall y :: x < y < |groups[key]| ==> groups[key][y].Name() != name
    ensures !NamedEntry(entries[j], key, name)
  {
    if EntryOf(entries[j], key) {
      var y := BesideInGroup(entries, groups, key, at, x, j);
    }
  }

  /** The last entry of a name in a group is the last such entry of the playlist. */
  lemma LastOfGroup(entries: seq<Entry>, groups: Groups, key: string, name: string) returns (k: nat)
    requires Grouped(entries, groups) && key in groups && name in Names(groups[key])
    ensures LastEntry(entries, key, name, k) && entries[k] == LastNamed(groups[key], name)
  {
    var es := groups[key];
    var at := GroupPicked(entries, key);
    var x := LastIndex(es, name);
    GroupElement(entries, groups, key, at, x);
    k := at[x];
    assert NamedEntry(entries[k], key, name);
    hide *;
    forall j: nat | k < j < |entries| ensures !NamedEntry(entries[j], key, name) {
      NotNamedLater(entries, groups, key, name, at, x, j);
    }
    LastEntryIs(entries, key, name, k);
  }

  /**
   * Where a channel had at most one row of a name, its row of the name holds
   * the address, quality and cleaned name of the last such entry.
   */
  lemma VariantOfPlaylist(entries: seq<Entry>, t0: Tables, t': Tables, groups: Groups, rules: Rules,
                          tagOf: string -> Id, chan: map<string, Id>, c: Id, name: string, id: Id) returns (k: nat)
    requires Grouped(entries, groups) && Imported(t0, t', groups, rules, tagOf, chan) && c in t'.channels
    requires AtMostOneNamed(RowsOf(t0.variants, c), c, name)
    requires id in t'.variants && t'.variants[id].channelRef == c && t'.variants[id].tvgName == Some(name)
    ensures t'.channels[c].tvgId.Some? && LastEntry(entries, t'.channels[c].tvgId.value, name, k)
    ensures t'.variants[id].streamUrl == entries[k].url
    ensures t'.variants[id].quality ==
            match rules.quality(name) { case Some(q) => Some(q) case None => Some("default") }
    ensures t'.variants[id].name == Some(rules.variantName(name))
  {
    RowOfChannel(t', c, name, id);
    hide *;
    var key := ChannelGroup(t0, t', groups, rules, tagOf, chan, c);
    var es, v, v' := groups[key], RowsOf(t0.variants, c), RowsOf(t'.variants, c);
    OnlyVariant(v, c, es, rules, v', name, id);
    k := LastOfGroup(entries, groups, key, name);
    VariantHolds(c, entries[k], rules, key, name);
  }

  lemma RowOfChannel(t: Tables, c: Id, name: string, id: Id)
    requires id in t.variants && t.variants[id].channelRef == c && t.variants[id].tvgName == Some(name)
    ensures NamedRow(RowsOf(t.variants, c), c, name, id) && RowsOf(t.variants, c)[id] == t.variants[id]
  {
  }

  lemma OnlyVariant(v: Rows, c: Id, es: seq<Entry>, rules: Rules, v': Rows, name: string, id: Id)
    requires Synced(v, c, es, rules, v') && AtMostOneNamed(v, c, name) && NamedRow(v', c, name, id)
    ensures name in Names(es) && id in v' && v'[id] == VariantOf(c, LastNamed(es, name), rules)
  {
    hide Synced, VariantOf;
    VariantNamesMatch(v, c, es, rules, v', name);
    SingleNameExact(v, c, es, rules, v', name);
  }

  lemma VariantHolds(c: Id, e: Entry, rules: Rules, key: string, name: string)
    requires NamedEntry(e, key, name)
    ensures VariantOf(c, e, rules).streamUrl == e.url
    ensures VariantOf(c, e, rules).quality ==
            match rules.quality(name) { case Some(q) => Some(q) case None => Some("default") }
    ensures VariantOf(c, e, rules).name == Some(rules.variantName(name))
  {
  }

  // ---------------------------------------------------------------------------
  // Tags and the channel row
  // ---------------------------------------------------------------------------

  /** Some live entry of the channel has a group title with this tag. */
  ghost predicate AsksForTag(entries: seq<Entry>, key: string, tagOf: string -> Id, g: Id) {
    exists k: nat :: k < |entries| && EntryOf(entries[k], key) && entries[k].groupTitle.Some?
                     && tagOf(entries[k].groupTitle.value) == g
  }

  lemma DesiredOfGroup(entries: seq<Entry>, groups: Groups, key: string, tagOf: string -> Id, g: Id)
    requires Grouped(entries, groups) && key in groups
    ensures g in DesiredTags(groups[key], tagOf) <==> AsksForTag(entries, key, tagOf, g)
  {
    var es := groups[key];
    GroupsHoldEntries(entries, groups, key);
    if x: nat :| x < |es| && es[x].groupTitle.Some? && tagOf(es[x].groupTitle.value) == g {
      assert es[x] in es;
      var k: nat :| k < |entries| && entries[k] == es[x];
      assert EntryOf(entries[k], key);
    }
    if k: nat :| k < |entries| && EntryOf(entries[k], key) && entries[k].groupTitle.Some?
                 && tagOf(entries[k].groupTitle.value) == g {
      assert entries[k] in es;
      var x: nat :| x < |es| && es[x] == entries[k];
    }
  }

  lemma TagKinds(t: TagTable, c: Id, g: Id)
    ensures AutoTag(t, c, g) <==> (c, g) in t && t[(c, g)] == Some(0)
    ensures UserTag(t, c, g) <==> (c, g) in t && t[(c, g)] != Some(0)
  {
  }

  /** A channel's imported tags, those of confidence 0, are what its live entries ask for and nobody mapped by hand. */
  lemma TagsOfPlaylist(entries: seq<Entry>, t0: Tables, t': Tables, groups: Groups, rules: Rules, tagOf: string -> Id,
                       chan: map<string, Id>, c: Id, g: Id)
    requires Grouped(entries, groups) && Imported(t0, t', groups, rules, tagOf, chan) && c in t'.channels
    ensures t'.channels[c].tvgId.Some?
    ensures (c, g) in t'.tags && t'.tags[(c, g)] == Some(0) <==>
            && AsksForTag(entries, t'.channels[c].tvgId.value, tagOf, g)
            && !((c, g) in t0.tags && t0.tags[(c, g)] != Some(0))
    ensures (c, g) in t0.tags && t0.tags[(c, g)] != Some(0) ==> (c, g) in t'.tags && t'.tags[(c, g)] == t0.tags[(c, g)]
  {
    TagKinds(t0.tags, c, g);
    TagKinds(t'.tags, c, g);
    hide *;
    var key := ChannelGroup(t0, t', groups, rules, tagOf, chan, c);
    DesiredOfGroup(entries, groups, key, tagOf, g);
    AutoTagsAfterSync(t0.tags, c, DesiredTags(groups[key], tagOf), t'.tags);
    HandMadeStays(t0.tags, c, DesiredTags(groups[key], tagOf), t'.tags, g);
  }

  lemma HandMadeStays(t: TagTable, c: Id, desired: set<Id>, t': TagTable, g: Id)
    requires TagsSynced(t, c, desired, t')
    ensures (c, g) in t && t[(c, g)] != Some(0) ==> (c, g) in t' && t'[(c, g)] == t[(c, g)]
  {
    assert Tag(t', c, g) == if UserTag(t, c, g) then Tag(t, c, g) else if g in desired then Some(AUTO) else None;
  }

  lemma {:induction false} RepresentativeIs(es: seq<Entry>) returns (x: nat)
    requires es != []
    ensures x < |es| && Representative(es) == es[x]
    ensures forall y :: 0 <= y < x ==> es[y].tvgLogo.None?
    ensures es[x].tvgLogo.None? ==> x == 0 && forall y :: 0 <= y < |es| ==> es[y].tvgLogo.None?
  {
    x := 0;
    if es[0].tvgLogo.None? && |es| > 1 {
      var z := RepresentativeIs(es[1..]);
      if es[1..][z].tvgLogo.Some? {
        x := z + 1;
        forall y | 0 <= y < x ensures es[y].tvgLogo.None? {
          if y > 0 { assert es[1..][y - 1] == es[y]; }
        }
      } else {
        forall y | 0 <= y < |es| ensures es[y].tvgLogo.None? {
          if y > 0 { assert es[1..][y - 1] == es[y]; }
        }
      }
    }
  }

  /** The entry that gives a channel its name and logo: its first with a logo, or its first when none has one. */
  ghost predicate Leads(entries: seq<Entry>, key: string, k: nat) {
    && k < |entries| && EntryOf(entries[k], key)
    && (forall j: nat :: j < k && EntryOf(entries[j], key) ==> entries[j].tvgLogo.None? && entries[k].tvgLogo.Some?)
    && (entries[k].tvgLogo.None? ==>
          forall j: nat :: j < |entries| && EntryOf(entries[j], key) ==> entries[j].tvgLogo.None?)
  }

  lemma LeaderOfGroup(entries: seq<Entry>, groups: Groups, key: string) returns (k: nat)
    requires Grouped(entries, groups) && key in groups && groups[key] != []
    ensures Leads(entries, key, k) && entries[k] == Representative(groups[key])
  {
    var es := groups[key];
    var at := GroupPicked(entries, key);
    var x := RepresentativeIs(es);
    GroupElement(entries, groups, key, at, x);
    k := at[x];
    assert EntryOf(entries[k], key);
    hide *;
    forall j: nat | j < |entries| && EntryOf(entries[j], key)
      ensures j < k ==> entries[j].tvgLogo.None? && entries[k].tvgLogo.Some?
      ensures entries[k].tvgLogo.None? ==> entries[j].tvgLogo.None?
    {
      var y := BesideInGroup(entries, groups, key, at, x, j);
    }
    LeadsIs(entries, key, k);
  }

  lemma LeadsIs(entries: seq<Entry>, key: string, k: nat)
    requires k < |entries| && EntryOf(entries[k], key)
    requires forall j: nat :: j < k && EntryOf(entries[j], key) ==> entries[j].tvgLogo.None? && entries[k].tvgLogo.Some?
    requires entries[k].tvgLogo.None? ==>
      forall j: nat :: j < |entries| && EntryOf(entries[j], key) ==> entries[j].tvgLogo.None?
    ensures Leads(entries, key, k)
  {
  }

  /**
   * A channel is named after its leading entry and shows that entry's logo; when
   * no entry has a logo it keeps the one it had.  Its number never changes.
   */
  lemma ChannelOfPlaylist(entries: seq<Entry>, t0: Tables, t': Tables, groups: Groups, rules: Rules,
                          tagOf: string -> Id, chan: map<string, Id>, c: Id) returns (k: nat)
    requires Grouped(entries, groups) && Imported(t0, t', groups, rules, tagOf, chan) && c in t'.channels
    ensures t'.channels[c].tvgId.Some? && Leads(entries, t'.channels[c].tvgId.value, k)
    ensures t'.channels[c].name ==
            rules.channelName(match entries[k].tvgName { case Some(n) => n case None => entries[k].displayName })
    ensures t'.channels[c].logo == if entries[k].tvgLogo.Some? then entries[k].tvgLogo
                                   else if c in t0.channels then t0.channels[c].logo else None
    ensures t'.channels[c].channelNumber == if c in t0.channels then t0.channels[c].channelNumber else None
  {
    hide *;
    var key := ChannelGroup(t0, t', groups, rules, tagOf, chan, c);
    k := LeaderOfGroup(entries, groups, key);
    ChannelForHolds(if c in t0.channels then Some(t0.channels[c]) else None, key, groups[key], rules);
  }

  lemma ChannelForHolds(former: Option<ChannelRow>, key: string, es: seq<Entry>, rules: Rules)
    requires es != []
    ensures var row, e := ChannelFor(former, key, es, rules), Representative(es);
      && row.name == rules.channelName(match e.tvgName { case Some(n) => n case None => e.displayName })
      && row.logo == (if e.tvgLogo.Some? then e.tvgLogo else if former.Some? then former.value.logo else None)
      && row.channelNumber == if former.Some? then former.value.channelNumber else None
  {
    hide Representative;
  }
}
