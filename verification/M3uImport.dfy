/**
 * Importing a playlist: the channel, tag and variant tables are brought in line
 * with the live entries by diffs.
 */
module M3uImport {
  import opened Prelude
  import opened Text

  type Id = nat

  datatype Entry = Entry(tvgId: Option<string>, tvgName: Option<string>, tvgLogo: Option<string>,
                         groupTitle: Option<string>, displayName: string, url: string)
  {
    /** The name all derived fields come from, and the key of the entry's variant. */
    function Name(): string { tvgName.GetOr(displayName) }

    predicate Live() { !Contains(url, "/movie/") && !Contains(url, "/series/") }
  }

  /** Some id of a set, or 0. */
  ghost function Member(ids: set<Id>): (id: Id)
    ensures ids != {} ==> id in ids
  {
    if id :| id in ids then id else 0
  }

  /** A choice that depends on the set of ids only. */
  type Chooser = choose: set<Id> -> Id | forall ids :: ids != {} ==> choose(ids) in ids ghost witness Member

  /**
   * Which of several rows of one name a lookup returns: SQL leaves it open, and
   * a scan in a fixed order of ids always returns the same for the same ids.
   */
  datatype Lookup = AnyRow | ByIds(choose: Chooser) {
    predicate Returns(rows: set<Id>, id: Id) {
      match this
      case AnyRow => id in rows
      case ByIds(choose) => rows != {} && id == choose(rows)
    }
  }

  /** How names are turned into quality, variant name and channel name, and how rows are looked up by name. */
  datatype Rules = Rules(quality: string -> Option<string>, variantName: string -> string,
                         channelName: string -> string, lookup: Lookup)

  datatype ChannelRow = ChannelRow(name: string, tvgId: Option<string>, logo: Option<string>,
                                   channelNumber: Option<int>)

  datatype VariantRow = VariantRow(channelRef: Id, quality: Option<string>, streamUrl: string,
                                   name: Option<string>, tvgName: Option<string>)

  /** Variant rows by id. */
  type Rows = map<Id, VariantRow>

  /** Tag mapping rows are keyed by channel and tag; confidence Some(0) marks an imported tag. */
  datatype Tables = Tables(channels: map<Id, ChannelRow>, variants: Rows, tags: TagTable)

  const AUTO: Option<int> := Some(0)

  // ---------------------------------------------------------------------------
  // What a group of entries asks for
  // ---------------------------------------------------------------------------

  /** The live entries with the given tvg id, in playlist order. */
  function GroupOf(entries: seq<Entry>, key: string): (g: seq<Entry>)
    ensures forall i :: 0 <= i < |g| ==> g[i].tvgId == Some(key)
  {
    if entries == [] then []
    else
      var last := entries[|entries| - 1];
      GroupOf(entries[..|entries| - 1], key) + (if last.Live() && last.tvgId == Some(key) then [last] else [])
  }

  /** The first entry with a logo, or else the first. */
  function Representative(es: seq<Entry>): Entry
    requires es != []
  {
    if es[0].tvgLogo.Some? || |es| == 1 then es[0]
    else
      var rest := Representative(es[1..]);
      if rest.tvgLogo.Some? then rest else es[0]
  }

  function Names(es: seq<Entry>): set<string> {
    set i | 0 <= i < |es| :: es[i].Name()
  }

  /** The last entry with the given name. */
  function LastNamed(es: seq<Entry>, name: string): Entry
    requires name in Names(es)
  {
    if es[|es| - 1].Name() == name then es[|es| - 1]
    else
      assert name in Names(es[..|es| - 1]) by {
        var i :| 0 <= i < |es| && es[i].Name() == name;
        assert es[..|es| - 1][i] == es[i];
      }
      LastNamed(es[..|es| - 1], name)
  }

  function VariantOf(c: Id, e: Entry, rules: Rules): VariantRow {
    var name := e.Name();
    VariantRow(c, Some(rules.quality(name).GetOr("default")), e.url, Some(rules.variantName(name)), Some(name))
  }

  function DesiredTags(es: seq<Entry>, tagOf: string -> Id): set<Id> {
    set i | 0 <= i < |es| && es[i].groupTitle.Some? :: tagOf(es[i].groupTitle.value)
  }

  // ---------------------------------------------------------------------------
  // Synchronising the variants of one channel
  // ---------------------------------------------------------------------------

  predicate NamedRow(v: Rows, c: Id, name: string, id: Id) {
    id in v && v[id].channelRef == c && v[id].tvgName == Some(name)
  }

  function RowsNamed(v: Rows, c: Id, name: string): set<Id> {
    set id | id in v && NamedRow(v, c, name, id)
  }

  ghost predicate AnyNamed(v: Rows, c: Id, name: string) {
    exists id :: NamedRow(v, c, name, id)
  }

  ghost predicate AtMostOneNamed(v: Rows, c: Id, name: string) {
    forall a, b :: NamedRow(v, c, name, a) && NamedRow(v, c, name, b) ==> a == b
  }

  /** Row id is one of the playlist's named variants of channel c. */
  ghost predicate Listed(v: Rows, c: Id, es: seq<Entry>, id: Id) {
    id in v && v[id].channelRef == c && v[id].tvgName.Some? && v[id].tvgName.value in Names(es)
  }

  /** The row is what one of the entries of that name asks for. */
  ghost predicate FromEntry(row: VariantRow, c: Id, es: seq<Entry>, rules: Rules, name: string) {
    exists k :: 0 <= k < |es| && es[k].Name() == name && row == VariantOf(c, es[k], rules)
  }

  /** What became of a row that was there before. */
  ghost predicate OldRowOk(v: Rows, c: Id, es: seq<Entry>, rules: Rules, u: Rows, id: Id)
    requires id in v
  {
    && id in u
    // rows the playlist does not name are untouched
    && (!Listed(v, c, es, id) ==> u[id] == v[id])
    // rows it names keep id, channel and name, and carry some entry or what they did;
    // when there is just one it carries the last entry
    && (Listed(v, c, es, id) ==>
          var name := v[id].tvgName.value;
          && NamedRow(u, c, name, id)
          && (u[id] == v[id] || FromEntry(u[id], c, es, rules, name))
          && (AtMostOneNamed(v, c, name) ==> u[id] == VariantOf(c, LastNamed(es, name), rules)))
  }

  /** New rows are for names that had none, one each, carrying the last entry. */
  ghost predicate NewRowOk(v: Rows, c: Id, es: seq<Entry>, rules: Rules, u: Rows, id: Id)
    requires id in u
  {
    && Listed(u, c, es, id)
    && var name := u[id].tvgName.value;
       && !AnyNamed(v, c, name)
       && AtMostOneNamed(u, c, name)
       && u[id] == VariantOf(c, LastNamed(es, name), rules)
  }

  /** The upserts of es have been applied to v, giving u. */
  ghost predicate Upserted(v: Rows, c: Id, es: seq<Entry>, rules: Rules, u: Rows) {
    && (forall id :: id in v ==> OldRowOk(v, c, es, rules, u, id))
    && (forall id :: id in u && id !in v ==> NewRowOk(v, c, es, rules, u, id))
    && (forall name :: name in Names(es) ==> AnyNamed(u, c, name))
  }

  /**
   * u is v after one write per entry in playlist order, each into a row of the
   * entry's name, whichever the lookup returns, or a fresh row when there is none.
   */
  ghost predicate Writes(v: Rows, c: Id, es: seq<Entry>, rules: Rules, u: Rows)
    decreases |es|
  {
    if es == [] then u == v
    else
      var init, last := es[..|es| - 1], es[|es| - 1];
      exists w: Rows, id: Id ::
        && Writes(v, c, init, rules, w) && Directed(v, w, c, last.Name(), id, rules)
        && u == w[id := VariantOf(c, last, rules)]
  }

  /** The writes, and then named rows of c that the playlist no longer lists are gone. */
  ghost predicate Synced(v: Rows, c: Id, es: seq<Entry>, rules: Rules, v': Rows) {
    exists u: Rows :: Writes(v, c, es, rules, u) && v' == Kept(u, c, Names(es))
  }

  /** The rows of one channel. */
  function RowsOf(v: Rows, c: Id): Rows {
    map id | id in v && v[id].channelRef == c :: v[id]
  }

  function Stale(v: Rows, c: Id, names: set<string>): set<Id> {
    set id | id in v && v[id].channelRef == c && v[id].tvgName.Some? && v[id].tvgName.value !in names
  }

  function Kept(v: Rows, c: Id, names: set<string>): Rows {
    v - Stale(v, c, names)
  }

  lemma NamesGrow(es: seq<Entry>, e: Entry)
    ensures Names(es + [e]) == Names(es) + {e.Name()}
    ensures LastNamed(es + [e], e.Name()) == e
    ensures forall name :: name in Names(es) && name != e.Name() ==> LastNamed(es + [e], name) == LastNamed(es, name)
  {
    var all := es + [e];
    assert all[..|es|] == es;
    forall name ensures name in Names(all) <==> name in Names(es) + {e.Name()} {
      if name in Names(es) {
        var i :| 0 <= i < |es| && es[i].Name() == name;
        assert all[i].Name() == name;
      }
      if name == e.Name() { assert all[|es|].Name() == name; }
    }
  }

  /** The write an entry causes: into the row of its name, or into a fresh row when there is none. */
  ghost predicate Target(v: Rows, u: Rows, c: Id, name: string, id: Id) {
    NamedRow(u, c, name, id) || (!AnyNamed(u, c, name) && id !in u && id !in v)
  }

  /** The target is the row the lookup returns, when there is any. */
  ghost predicate Directed(v: Rows, u: Rows, c: Id, name: string, id: Id, rules: Rules) {
    Target(v, u, c, name, id) && (AnyNamed(u, c, name) ==> rules.lookup.Returns(RowsNamed(u, c, name), id))
  }

  lemma WriteFrame(v: Rows, c: Id, u: Rows, row: VariantRow, name: string, id: Id)
    requires Target(v, u, c, name, id) && row.channelRef == c && row.tvgName == Some(name)
    ensures forall n, i :: n != name ==> (NamedRow(u[id := row], c, n, i) <==> NamedRow(u, c, n, i))
    ensures forall i :: NamedRow(u[id := row], c, name, i) <==> NamedRow(u, c, name, i) || i == id
  {
  }

  lemma WriteKeepsSingle(v: Rows, c: Id, u: Rows, row: VariantRow, name: string, id: Id, n: string)
    requires Target(v, u, c, name, id) && row.channelRef == c && row.tvgName == Some(name)
    requires AtMostOneNamed(u, c, n)
    ensures AtMostOneNamed(u[id := row], c, n)
  {
    var u' := u[id := row];
    forall a, b | NamedRow(u', c, n, a) && NamedRow(u', c, n, b) ensures a == b {
      if a != id { assert NamedRow(u, c, n, a); }
      if b != id { assert NamedRow(u, c, n, b); }
    }
  }

  /** The only row of a name, if it was there before, is the row any lookup finds. */
  lemma LookupFindsOnlyRow(v: Rows, c: Id, es: seq<Entry>, rules: Rules, u: Rows, name: string, former: Id, id: Id)
    requires Upserted(v, c, es, rules, u) && Target(v, u, c, name, id)
    requires NamedRow(v, c, name, former) && AtMostOneNamed(v, c, name)
    ensures id == former
  {
    assert OldRowOk(v, c, es, rules, u, former);
    assert NamedRow(u, c, name, former) && AnyNamed(v, c, name);
    assert forall i :: i in u && i !in v ==> NewRowOk(v, c, es, rules, u, i);
    if id in v {
      assert OldRowOk(v, c, es, rules, u, id);
      assert NamedRow(v, c, name, id);
    }
  }

  lemma FromEntryGrows(u: Rows, c: Id, es: seq<Entry>, rules: Rules, e: Entry, i: Id)
    requires i in u
    ensures forall name :: FromEntry(u[i], c, es, rules, name) ==> FromEntry(u[i], c, es + [e], rules, name)
    ensures FromEntry(VariantOf(c, e, rules), c, es + [e], rules, e.Name())
  {
    var all := es + [e];
    assert all[|es|] == e;
    forall name | FromEntry(u[i], c, es, rules, name) ensures FromEntry(u[i], c, all, rules, name) {
      var k :| 0 <= k < |es| && es[k].Name() == name && u[i] == VariantOf(c, es[k], rules);
      assert all[k] == es[k];
    }
  }

  lemma UpsertOldRow(v: Rows, c: Id, es: seq<Entry>, rules: Rules, u: Rows, e: Entry, id: Id, i: Id)
    requires Upserted(v, c, es, rules, u) && Target(v, u, c, e.Name(), id) && i in v
    ensures OldRowOk(v, c, es + [e], rules, u[id := VariantOf(c, e, rules)], i)
  {
    NamesGrow(es, e);
    WriteFrame(v, c, u, VariantOf(c, e, rules), e.Name(), id);
    assert OldRowOk(v, c, es, rules, u, i);
    FromEntryGrows(u, c, es, rules, e, i);
    if NamedRow(v, c, e.Name(), i) && AtMostOneNamed(v, c, e.Name()) {
      LookupFindsOnlyRow(v, c, es, rules, u, e.Name(), i, id);
    }
    if id == i { assert NamedRow(v, c, e.Name(), i); }
  }

  lemma UpsertNewRow(v: Rows, c: Id, es: seq<Entry>, rules: Rules, u: Rows, e: Entry, id: Id, i: Id)
    requires Upserted(v, c, es, rules, u) && Target(v, u, c, e.Name(), id)
    requires i in u[id := VariantOf(c, e, rules)] && i !in v
    ensures NewRowOk(v, c, es + [e], rules, u[id := VariantOf(c, e, rules)], i)
  {
    NamesGrow(es, e);
    WriteFrame(v, c, u, VariantOf(c, e, rules), e.Name(), id);
    if i in u {
      assert NewRowOk(v, c, es, rules, u, i);
      var name := u[i].tvgName.value;
      assert NamedRow(u, c, name, i);
      WriteKeepsSingle(v, c, u, VariantOf(c, e, rules), e.Name(), id, name);
    } else {
      WriteKeepsSingle(v, c, u, VariantOf(c, e, rules), e.Name(), id, e.Name());
      if k :| NamedRow(v, c, e.Name(), k) {
        assert OldRowOk(v, c, es, rules, u, k);
        assert NamedRow(u, c, e.Name(), k);
      }
    }
  }

  /** Writing entry e into its target row extends the upserts by e. */
  lemma UpsertNext(v: Rows, c: Id, es: seq<Entry>, rules: Rules, u: Rows, e: Entry, id: Id)
    requires Upserted(v, c, es, rules, u) && Target(v, u, c, e.Name(), id)
    ensures Upserted(v, c, es + [e], rules, u[id := VariantOf(c, e, rules)])
  {
    var u' := u[id := VariantOf(c, e, rules)];
    forall i | i in v ensures OldRowOk(v, c, es + [e], rules, u', i) { UpsertOldRow(v, c, es, rules, u, e, id, i); }
    forall i | i in u' && i !in v ensures NewRowOk(v, c, es + [e], rules, u', i) {
      UpsertNewRow(v, c, es, rules, u, e, id, i);
    }
    NamesGrow(es, e);
    WriteFrame(v, c, u, VariantOf(c, e, rules), e.Name(), id);
    forall name | name in Names(es + [e]) ensures AnyNamed(u', c, name) {
      if name == e.Name() {
        assert NamedRow(u', c, name, id);
      } else {
        assert AnyNamed(u, c, name);
      }
    }
  }

  lemma NothingUpserted(v: Rows, c: Id, rules: Rules)
    ensures Upserted(v, c, [], rules, v)
  {
  }

  lemma LastWrite(v: Rows, c: Id, es: seq<Entry>, rules: Rules, u: Rows)
    returns (w: Rows, id: Id)
    requires es != [] && Writes(v, c, es, rules, u)
    ensures var last := es[|es| - 1];
      && Writes(v, c, es[..|es| - 1], rules, w)
      && Directed(v, w, c, last.Name(), id, rules) && u == w[id := VariantOf(c, last, rules)]
  {
    var init, last := es[..|es| - 1], es[|es| - 1];
    w, id :|
      && Writes(v, c, init, rules, w) && Directed(v, w, c, last.Name(), id, rules)
      && u == w[id := VariantOf(c, last, rules)];
  }

  /** What the writes amount to, whichever rows the lookups returned. */
  lemma {:induction false} WritesUpsert(v: Rows, c: Id, es: seq<Entry>, rules: Rules, u: Rows)
    requires Writes(v, c, es, rules, u)
    ensures Upserted(v, c, es, rules, u)
    decreases |es|
  {
    if es == [] {
      NothingUpserted(v, c, rules);
    } else {
      hide Writes, Upserted, Target, RowsNamed, VariantOf;
      var init, last := es[..|es| - 1], es[|es| - 1];
      assert es == init + [last];
      var w, id := LastWrite(v, c, es, rules, u);
      WritesUpsert(v, c, init, rules, w);
      UpsertNext(v, c, init, rules, w, last, id);
    }
  }

  lemma WritesNext(v: Rows, c: Id, es: seq<Entry>, rules: Rules, w: Rows, e: Entry, id: Id)
    requires Writes(v, c, es, rules, w) && Directed(v, w, c, e.Name(), id, rules)
    ensures Writes(v, c, es + [e], rules, w[id := VariantOf(c, e, rules)])
  {
    var all := es + [e];
    assert all[..|all| - 1] == es && all[|all| - 1] == e;
  }

  // ---------------------------------------------------------------------------
  // Synchronising the tags of one channel
  // ---------------------------------------------------------------------------

  type TagTable = map<(Id, Id), Option<int>>

  /** The confidence of the row for a channel and tag, if there is a row. */
  function Tag(t: TagTable, c: Id, g: Id): Option<Option<int>> {
    if (c, g) in t then Some(t[(c, g)]) else None
  }

  predicate AutoTag(t: TagTable, c: Id, g: Id) {
    Tag(t, c, g) == Some(AUTO)
  }

  /** The mapping row was made by hand: present, and not with the import's confidence. */
  predicate UserTag(t: TagTable, c: Id, g: Id) {
    Tag(t, c, g).Some? && !AutoTag(t, c, g)
  }

  /** Rows made by hand stay; apart from them exactly the desired tags are mapped, as imported. */
  ghost predicate TagsSynced(t: TagTable, c: Id, desired: set<Id>, t': TagTable) {
    forall g: Id ::
      Tag(t', c, g) == if UserTag(t, c, g) then Tag(t, c, g) else if g in desired then Some(AUTO) else None
  }

  ghost predicate SameTags(t: TagTable, t': TagTable, c: Id) {
    forall g: Id :: Tag(t, c, g) == Tag(t', c, g)
  }

  // ---------------------------------------------------------------------------
  // The import
  // ---------------------------------------------------------------------------

  /** The channel row the group asks for, given the row there was, if any. */
  function ChannelFor(former: Option<ChannelRow>, key: string, es: seq<Entry>, rules: Rules): ChannelRow
    requires es != []
  {
    var rep := Representative(es);
    match former
    case Some(row) => row.(name := rules.channelName(rep.Name()), tvgId := Some(key),
                           logo := if rep.tvgLogo.Some? then rep.tvgLogo else row.logo)
    case None => ChannelRow(rules.channelName(rep.Name()), Some(key), rep.tvgLogo, None)
  }

  lemma {:induction false} RepresentativeInGroup(es: seq<Entry>)
    requires es != []
    ensures Representative(es) in es
  {
    if !(es[0].tvgLogo.Some? || |es| == 1) { RepresentativeInGroup(es[1..]); }
  }

  ghost predicate Added(t: TagTable, c: Id, gs: set<Id>, t': TagTable) {
    forall d: Id, g: Id ::
      Tag(t', d, g) == if d == c && g in gs && Tag(t, d, g).None? then Some(AUTO) else Tag(t, d, g)
  }

  ghost predicate Dropped(t: TagTable, c: Id, gs: set<Id>, t': TagTable) {
    forall d: Id, g: Id :: Tag(t', d, g) == if d == c && g in gs then None else Tag(t, d, g)
  }

  lemma CurrentAutoTags(t: TagTable, c: Id, current: set<Id>)
    requires current == set p | p in t && p.0 == c && t[p] == AUTO :: p.1
    ensures forall g: Id :: g in current <==> AutoTag(t, c, g)
  {
    forall g: Id ensures g in current <==> AutoTag(t, c, g) {
      if AutoTag(t, c, g) { assert (c, g).1 in current; }
    }
  }

  class ChannelStore {
    var channels: map<Id, ChannelRow>
    var variants: Rows
    var tags: TagTable

    ghost function State(): Tables
      reads this
    {
      Tables(channels, variants, tags)
    }

    constructor ()
      ensures State() == Tables(map[], map[], map[])
    {
      channels, variants, tags := map[], map[], map[];
    }

    method GetChannelByTvgId(key: string) returns (id: Option<Id>)
      ensures id.Some? ==> id.value in channels && channels[id.value].tvgId == Some(key)
      ensures id.None? ==> forall i :: i in channels ==> channels[i].tvgId != Some(key)
    {
      if exists i :: i in channels && channels[i].tvgId == Some(key) {
        var i :| i in channels && channels[i].tvgId == Some(key);
        return Some(i);
      }
      return None;
    }

    /** The row of the name that the lookup returns, or none if there is none. */
    method GetChannelVariantByTvgName(c: Id, name: string, lookup: Lookup) returns (id: Option<Id>)
      ensures id.Some? ==> NamedRow(variants, c, name, id.value)
      ensures id.Some? ==> lookup.Returns(RowsNamed(variants, c, name), id.value)
      ensures id.None? ==> !AnyNamed(variants, c, name)
    {
      var rows := RowsNamed(variants, c, name);
      if rows == {} {
        forall i ensures !NamedRow(variants, c, name, i) { assert i !in rows; }
        return None;
      }
      match lookup
      case AnyRow =>
        var i :| i in rows;
        id := Some(i);
      case ByIds(choose) => id := Some(choose(rows));
    }

    /** Afterwards the pair has a row; a row there before keeps its confidence, and no other row appears. */
    method AddChannelTag(c: Id, g: Id, confidence: Option<int>)
      modifies this`tags
      ensures Tag(tags, c, g) == Some(Tag(old(tags), c, g).GetOr(confidence))
      ensures forall d: Id, h: Id :: (d, h) != (c, g) ==> Tag(tags, d, h) == Tag(old(tags), d, h)
    {
      if (c, g) !in tags { tags := tags[(c, g) := confidence]; }
    }

    /** Afterwards the pair has no imported row; a row made by hand, and every other row, stays. */
    method RemoveChannelAutoTag(c: Id, g: Id)
      modifies this`tags
      ensures !AutoTag(tags, c, g) && (UserTag(old(tags), c, g) ==> Tag(tags, c, g) == Tag(old(tags), c, g))
      ensures UserTag(tags, c, g) ==> UserTag(old(tags), c, g)
      ensures forall d: Id, h: Id :: (d, h) != (c, g) ==> Tag(tags, d, h) == Tag(old(tags), d, h)
    {
      if AutoTag(tags, c, g) { tags := tags - {(c, g)}; }
    }

    /** The channel has no row, variant or tag left; every other channel keeps all of its own. */
    method RemoveChannel(c: Id)
      modifies this
      ensures RemovedUpTo(old(State()), State(), {c})
    {
      WithoutRemoves(State(), c);
      tags := map p | p in tags && p.0 != c :: tags[p];
      variants := variants - RowsOf(variants, c).Keys;
      channels := channels - {c};
    }

    /** Add what is missing, remove imported rows no longer wanted. */
    method SyncTags(c: Id, desired: set<Id>)
      modifies this`tags
      ensures TagsSynced(old(tags), c, desired, tags)
      ensures forall d: Id :: d != c ==> SameTags(old(tags), tags, d)
    {
      var current := set p | p in tags && p.0 == c && tags[p] == AUTO :: p.1;
      CurrentAutoTags(tags, c, current);
      var missing := desired - current;
      while missing != {}
        invariant missing <= desired - current
        invariant Added(old(tags), c, desired - current - missing, tags)
        decreases missing
      {
        var g :| g in missing;
        AddChannelTag(c, g, AUTO);
        missing := missing - {g};
      }
      ghost var added := tags;
      var stale := current - desired;
      while stale != {}
        invariant stale <= current - desired
        invariant Dropped(added, c, current - desired - stale, tags)
        decreases stale
      {
        var g :| g in stale;
        RemoveChannelAutoTag(c, g);
        stale := stale - {g};
      }
    }

    /** Write one entry's variant, unless the row there already says the same. */
    method UpsertVariant(c: Id, entry: Entry, rules: Rules, ghost v: Rows, ghost es: seq<Entry>)
      requires Writes(v, c, es, rules, RowsOf(variants, c))
      modifies this`variants
      ensures Writes(v, c, es + [entry], rules, RowsOf(variants, c))
      ensures forall d: Id :: d != c ==> RowsOf(variants, d) == RowsOf(old(variants), d)
    {
      hide Writes, RowsOf;
      var existing := GetChannelVariantByTvgName(c, entry.Name(), rules.lookup);
      var id;
      if existing.Some? { id := existing.value; } else { id := Fresh(variants.Keys); }
      var row := VariantOf(c, entry, rules);
      var needsUpdate := existing.None? || variants[id].streamUrl != row.streamUrl
        || variants[id].quality != row.quality || variants[id].name != row.name;
      WriteTarget(variants, v, c, es, rules, entry, existing, id);
      if needsUpdate {
        RowsWrite(variants, c, id, row);
        variants := variants[id := row];
      } else {
        assert variants[id] == row;
        assert variants[id := row] == variants;
      }
    }

    /** Upsert one variant per entry. */
    method UpsertVariants(c: Id, es: seq<Entry>, rules: Rules) returns (seenNames: set<string>)
      modifies this`variants
      ensures seenNames == Names(es)
      ensures Writes(RowsOf(old(variants), c), c, es, rules, RowsOf(variants, c))
      ensures forall d: Id :: d != c ==> RowsOf(variants, d) == RowsOf(old(variants), d)
    {
      hide RowsOf;
      seenNames := {};
      assert es[..0] == [];
      for k := 0 to |es|
        invariant seenNames == Names(es[..k])
        invariant Writes(RowsOf(old(variants), c), c, es[..k], rules, RowsOf(variants, c))
        invariant forall d: Id :: d != c ==> RowsOf(variants, d) == RowsOf(old(variants), d)
      {
        UpsertVariant(c, es[k], rules, RowsOf(old(variants), c), es[..k]);
        seenNames := seenNames + {es[k].Name()};
        NamesGrow(es[..k], es[k]);
        assert es[..k + 1] == es[..k] + [es[k]];
      }
      assert es[..|es|] == es;
    }

    method SyncVariants(c: Id, es: seq<Entry>, rules: Rules)
      modifies this`variants
      ensures Synced(RowsOf(old(variants), c), c, es, rules, RowsOf(variants, c))
      ensures forall d :: d != c ==> RowsOf(variants, d) == RowsOf(old(variants), d)
    {
      var seenNames := UpsertVariants(c, es, rules);
      KeptRows(variants, c, seenNames);
      hide RowsOf, Kept, Writes;
      variants := Kept(variants, c, seenNames);
    }

    /** The channel of the tvg id, brought up to date, or a new one. */
    method UpsertChannel(key: string, es: seq<Entry>, rules: Rules) returns (c: Id, isNew: bool)
      requires es != [] && forall i :: 0 <= i < |es| ==> es[i].tvgId == Some(key)
      modifies this`channels
      ensures ChannelSource(old(State()), key, c) && (isNew <==> c !in old(channels))
      ensures channels == old(channels)[c :=
        ChannelFor(if c in old(channels) then Some(old(channels)[c]) else None, key, es, rules)]
    {
      var rep := Representative(es);
      RepresentativeInGroup(es);
      hide Representative;
      var existing := GetChannelByTvgId(key);
      isNew := existing.None?;
      if existing.Some? {
        c := existing.value;
        var row := channels[c];
        channels := channels[c := row.(name := rules.channelName(rep.Name()), tvgId := rep.tvgId,
                                       logo := if rep.tvgLogo.Some? then rep.tvgLogo else row.logo)];
      } else {
        c := Fresh(channels.Keys + (set i | i in variants :: variants[i].channelRef) + (set p | p in tags :: p.0));
        UnusedChannel(variants, tags, c);
        channels := channels[c := ChannelRow(rules.channelName(rep.Name()), rep.tvgId, rep.tvgLogo, None)];
      }
    }

    /** One playlist group: find or create its channel, then sync tags and variants. */
    method ImportGroup(key: string, es: seq<Entry>, rules: Rules, tagOf: string -> Id) returns (c: Id, isNew: bool)
      requires es != [] && forall i :: 0 <= i < |es| ==> es[i].tvgId == Some(key)
      modifies this
      ensures GroupImported(old(State()), State(), key, es, rules, tagOf, c)
      ensures isNew <==> c !in old(channels)
    {
      hide ChannelFor, ChannelSource, TagsSynced, Synced, RowsOf, SameTags, DesiredTags;
      c, isNew := UpsertChannel(key, es, rules);
      SyncTags(c, DesiredTags(es, tagOf));
      SyncVariants(c, es, rules);
    }

    /** Group the live entries by tvg id. */
    method GroupEntries(entries: seq<Entry>) returns (groups: map<string, seq<Entry>>)
      ensures Grouped(entries, groups)
    {
      groups := map[];
      assert entries[..0] == [];
      for k := 0 to |entries|
        invariant Grouped(entries[..k], groups)
      {
        var entry := entries[k];
        assert entries[..k + 1][..k] == entries[..k];
        if entry.Live() && entry.tvgId.Some? {
          var key := entry.tvgId.value;
          groups := groups[key := (if key in groups then groups[key] else []) + [entry]];
        }
      }
      assert entries[..|entries|] == entries;
    }

    /** Import one more group and count it. */
    method ImportNext(key: string, es: seq<Entry>, rules: Rules, tagOf: string -> Id, seen: set<Id>, added: nat,
                      updated: nat, ghost todo: set<string>, ghost t0: Tables, ghost groups: map<string, seq<Entry>>,
                      ghost chan: map<string, Id>)
      returns (seen': set<Id>, added': nat, updated': nat, ghost chan': map<string, Id>)
      requires WellGrouped(groups) && key in groups && groups[key] == es && key in todo
      requires Upsert(t0, State(), groups, rules, tagOf, chan)
      requires Counted(t0.channels.Keys, groups.Keys, chan, seen, added, updated, todo)
      modifies this
      ensures Upsert(t0, State(), groups, rules, tagOf, chan')
      ensures Counted(t0.channels.Keys, groups.Keys, chan', seen', added', updated', todo - {key})
    {
      ghost var before := State();
      var c, isNew := ImportGroup(key, es, rules, tagOf);
      UpsertGroup(t0, before, State(), groups, rules, tagOf, chan, key, c);
      CountedStep(t0.channels.Keys, groups.Keys, chan, seen, added, updated, todo, key, c);
      added' := if isNew then added + 1 else added;
      updated' := if isNew then updated else updated + 1;
      seen' := seen + {c};
      chan' := chan[key := c];
    }

    /** All groups, in no particular order. */
    method ImportGroups(groups: map<string, seq<Entry>>, rules: Rules, tagOf: string -> Id)
      returns (seenChannelIds: set<Id>, added: nat, updated: nat, ghost chan: map<string, Id>)
      requires WellGrouped(groups)
      modifies this
      ensures Upsert(old(State()), State(), groups, rules, tagOf, chan)
      ensures Counted(old(channels).Keys, groups.Keys, chan, seenChannelIds, added, updated, {})
    {
      seenChannelIds, added, updated, chan := {}, 0, 0, map[];
      ghost var t0 := State();
      var todo := groups.Keys;
      while todo != {}
        invariant todo <= groups.Keys
        invariant Counted(t0.channels.Keys, groups.Keys, chan, seenChannelIds, added, updated, todo)
        invariant Upsert(t0, State(), groups, rules, tagOf, chan)
        decreases todo
      {
        var key :| key in todo;
        seenChannelIds, added, updated, chan :=
          ImportNext(key, groups[key], rules, tagOf, seenChannelIds, added, updated, todo, t0, groups, chan);
        todo := todo - {key};
      }
    }

    /** Delete the channels that existed before and were not seen. */
    method RemoveUnseen(existing: set<Id>, seen: set<Id>) returns (removed: nat)
      modifies this
      ensures RemovedUpTo(old(State()), State(), existing - seen)
      ensures removed == |existing - seen|
    {
      removed := 0;
      ghost var t := State();
      NothingRemoved(t);
      var todo := existing;
      ghost var gone: set<Id> := {};
      assert gone == Unseen(existing, todo, seen);
      hide RemovedUpTo, Unseen;
      while todo != {}
        invariant todo <= existing && gone == Unseen(existing, todo, seen)
        invariant removed == |gone| && RemovedUpTo(t, State(), gone)
        decreases todo
      {
        var channelId :| channelId in todo;
        UnseenStep(existing, todo, seen, channelId);
        if channelId !in seen {
          ghost var before := State();
          RemoveChannel(channelId);
          RemovedTrans(t, before, State(), gone, channelId);
          removed := removed + 1;
          gone := gone + {channelId};
        }
        todo := todo - {channelId};
      }
      AllUnseen(existing, seen);
    }

    /** Import the groups, then delete what they left unseen. */
    method Reconcile(groups: map<string, seq<Entry>>, rules: Rules, tagOf: string -> Id)
      returns (added: nat, updated: nat, removed: nat, ghost chan: map<string, Id>)
      requires WellGrouped(groups)
      modifies this
      ensures Imported(old(State()), State(), groups, rules, tagOf, chan)
      ensures Counted(old(channels).Keys, groups.Keys, chan, chan.Values, added, updated, {})
      ensures removed == |old(channels).Keys - chan.Values|
    {
      hide Imported, Upsert, RemovedUpTo, NewKeys;
      var existing := channels.Keys;
      var seen;
      seen, added, updated, chan := ImportGroups(groups, rules, tagOf);
      ghost var upserted := State();
      removed := RemoveUnseen(existing, seen);
      RemovalFinishes(old(State()), upserted, State(), groups, rules, tagOf, chan);
    }

    /** The whole import.  Every other input (network, parsing, tag creation) is a parameter. */
    method ImportM3u(entries: seq<Entry>, rules: Rules, tagOf: string -> Id)
      returns (added: nat, updated: nat, removed: nat, ghost groups: map<string, seq<Entry>>,
               ghost chan: map<string, Id>)
      modifies this
      ensures Grouped(entries, groups)
      ensures Imported(old(State()), State(), groups, rules, tagOf, chan)
      ensures Counted(old(channels).Keys, groups.Keys, chan, chan.Values, added, updated, {})
      ensures removed == |old(channels).Keys - chan.Values|
    {
      var live := GroupEntries(entries);
      groups := live;
      GroupsNonEmpty(entries, live);
      added, updated, removed, chan := Reconcile(live, rules, tagOf);
    }
  }

  /** Dropping stale rows of one channel can be done within its own rows. */
  lemma KeptRows(v: Rows, c: Id, names: set<string>)
    ensures RowsOf(Kept(v, c, names), c) == Kept(RowsOf(v, c), c, names)
    ensures forall d :: d != c ==> RowsOf(Kept(v, c, names), d) == RowsOf(v, d)
  {
    forall d | d != c ensures RowsOf(Kept(v, c, names), d) == RowsOf(v, d) {}
  }

  lemma UnusedChannel(variants: Rows, tags: TagTable, c: Id)
    requires c !in (set i | i in variants :: variants[i].channelRef) && c !in (set p | p in tags :: p.0)
    ensures RowsOf(variants, c) == map[] && forall g: Id :: Tag(tags, c, g) == None
  {
    forall i | i in variants ensures variants[i].channelRef != c {
      assert variants[i].channelRef in (set k | k in variants :: variants[k].channelRef);
    }
    forall p | p in tags ensures p.0 != c {
      assert p.0 in (set q | q in tags :: q.0);
    }
  }

  /** What importing one group does, with c the channel found or created. */
  ghost predicate GroupImported(t: Tables, t': Tables, key: string, es: seq<Entry>, rules: Rules, tagOf: string -> Id,
                                c: Id)
    requires es != []
  {
    && t'.channels ==
         t.channels[c := ChannelFor(if c in t.channels then Some(t.channels[c]) else None, key, es, rules)]
    && ChannelSource(t, key, c)
    && Synced(RowsOf(t.variants, c), c, es, rules, RowsOf(t'.variants, c))
    && TagsSynced(t.tags, c, DesiredTags(es, tagOf), t'.tags)
    && (forall d: Id :: d != c ==> SameChannelData(t, t', d))
  }

  /** c already carried the tvg id, or nothing did and c was entirely unused. */
  ghost predicate ChannelSource(t: Tables, key: string, c: Id) {
    if c in t.channels then t.channels[c].tvgId == Some(key)
    else
      && (forall i :: i in t.channels ==> t.channels[i].tvgId != Some(key))
      && RowsOf(t.variants, c) == map[] && (forall g: Id :: Tag(t.tags, c, g) == None)
  }

  ghost predicate SameChannelData(t: Tables, t': Tables, d: Id) {
    RowsOf(t'.variants, d) == RowsOf(t.variants, d) && SameTags(t.tags, t'.tags, d)
  }

  ghost predicate SameChannel(t: Tables, t': Tables, d: Id) {
    && (d in t'.channels <==> d in t.channels) && (d in t.channels ==> t'.channels[d] == t.channels[d])
    && SameChannelData(t, t', d)
  }

  ghost predicate Grouped(entries: seq<Entry>, groups: map<string, seq<Entry>>) {
    forall key ::
      && (key in groups <==> GroupOf(entries, key) != [])
      && (key in groups ==> groups[key] == GroupOf(entries, key))
  }

  ghost predicate WellGrouped(groups: map<string, seq<Entry>>) {
    forall key :: key in groups ==>
      groups[key] != [] && forall i :: 0 <= i < |groups[key]| ==> groups[key][i].tvgId == Some(key)
  }

  lemma GroupsNonEmpty(entries: seq<Entry>, groups: map<string, seq<Entry>>)
    requires Grouped(entries, groups)
    ensures WellGrouped(groups)
  {
  }

  /** Channel c of the group key is as the group asks, given what it was in t0. */
  ghost predicate ChannelImported(t0: Tables, t: Tables, key: string, es: seq<Entry>, rules: Rules, tagOf: string -> Id,
                                  c: Id)
    requires es != []
  {
    && ChannelSource(t0, key, c)
    && c in t.channels
    && t.channels[c] == ChannelFor(if c in t0.channels then Some(t0.channels[c]) else None, key, es, rules)
    && Synced(RowsOf(t0.variants, c), c, es, rules, RowsOf(t.variants, c))
    && TagsSynced(t0.tags, c, DesiredTags(es, tagOf), t.tags)
  }

  /** The groups in chan have been imported into t, starting from t0; other channels are untouched. */
  ghost predicate Upsert(t0: Tables, t: Tables, groups: map<string, seq<Entry>>, rules: Rules, tagOf: string -> Id,
                         chan: map<string, Id>)
    requires WellGrouped(groups)
  {
    && chan.Keys <= groups.Keys
    && (forall key :: key in chan ==> ChannelImported(t0, t, key, groups[key], rules, tagOf, chan[key]))
    && (forall d: Id :: d !in chan.Values ==> SameChannel(t0, t, d))
  }

  lemma ValuesGrow(chan: map<string, Id>, key: string, c: Id)
    requires key !in chan
    ensures chan[key := c].Values == chan.Values + {c}
  {
    forall v | v in chan.Values ensures v in chan[key := c].Values {
      var k :| k in chan && chan[k] == v;
      assert chan[key := c][k] == v;
    }
    assert chan[key := c][key] == c;
  }

  /** A channel's import is not disturbed by what leaves that channel alone. */
  lemma ImportedFrame(t0: Tables, t: Tables, t': Tables, key: string, es: seq<Entry>, rules: Rules, tagOf: string -> Id,
                      c: Id)
    requires es != [] && ChannelImported(t0, t, key, es, rules, tagOf, c)
    requires SameChannelData(t, t', c) && c in t'.channels && t'.channels[c] == t.channels[c]
    ensures ChannelImported(t0, t', key, es, rules, tagOf, c)
  {
    assert forall g: Id :: Tag(t.tags, c, g) == Tag(t'.tags, c, g);
  }

  lemma NotSeenYet(t0: Tables, t: Tables, groups: map<string, seq<Entry>>, rules: Rules, tagOf: string -> Id,
                   chan: map<string, Id>, key: string, c: Id)
    requires WellGrouped(groups) && Upsert(t0, t, groups, rules, tagOf, chan)
    requires key !in chan && ChannelSource(t, key, c)
    ensures c !in chan.Values
  {
    forall k | k in chan ensures chan[k] != c {
      assert ChannelImported(t0, t, k, groups[k], rules, tagOf, chan[k]);
    }
  }

  lemma SourceCarriesBack(t0: Tables, t: Tables, groups: map<string, seq<Entry>>, rules: Rules, tagOf: string -> Id,
                          chan: map<string, Id>, key: string, c: Id)
    requires WellGrouped(groups) && Upsert(t0, t, groups, rules, tagOf, chan)
    requires key !in chan && ChannelSource(t, key, c) && c !in chan.Values
    ensures ChannelSource(t0, key, c) && SameChannel(t0, t, c)
  {
    assert SameChannel(t0, t, c);
    if c !in t.channels {
      forall i: Id | i in t0.channels ensures t0.channels[i].tvgId != Some(key) {
        if i in chan.Values {
          var k :| k in chan && chan[k] == i;
          assert ChannelImported(t0, t, k, groups[k], rules, tagOf, i);
        } else {
          assert SameChannel(t0, t, i);
        }
      }
      assert forall g: Id :: Tag(t0.tags, c, g) == Tag(t.tags, c, g);
    }
  }

  lemma GroupIsImported(t0: Tables, t: Tables, t': Tables, key: string, es: seq<Entry>, rules: Rules,
                        tagOf: string -> Id, c: Id)
    requires es != [] && GroupImported(t, t', key, es, rules, tagOf, c)
    requires ChannelSource(t0, key, c) && SameChannel(t0, t, c)
    ensures ChannelImported(t0, t', key, es, rules, tagOf, c)
  {
    assert forall g: Id :: Tag(t0.tags, c, g) == Tag(t.tags, c, g);
  }

  lemma GroupLeavesOthers(t: Tables, t': Tables, key: string, es: seq<Entry>, rules: Rules, tagOf: string -> Id, c: Id)
    requires es != [] && GroupImported(t, t', key, es, rules, tagOf, c)
    ensures forall d: Id :: d != c ==> SameChannel(t, t', d)
  {
  }

  lemma SameChannelTrans(t0: Tables, t: Tables, t': Tables, d: Id)
    requires SameChannelData(t0, t, d) && SameChannelData(t, t', d)
    ensures SameChannelData(t0, t', d)
  {
    assert forall g: Id :: Tag(t0.tags, d, g) == Tag(t.tags, d, g) == Tag(t'.tags, d, g);
  }

  /** A channel imported before is as imported after another group's import. */
  lemma EarlierStays(t0: Tables, t: Tables, t': Tables, groups: map<string, seq<Entry>>, rules: Rules,
                     tagOf: string -> Id, chan: map<string, Id>, k: string)
    requires WellGrouped(groups) && Upsert(t0, t, groups, rules, tagOf, chan)
    requires k in chan && SameChannel(t, t', chan[k])
    ensures ChannelImported(t0, t', k, groups[k], rules, tagOf, chan[k])
  {
    ImportedFrame(t0, t, t', k, groups[k], rules, tagOf, chan[k]);
  }

  lemma UntouchedStays(t0: Tables, t: Tables, t': Tables, d: Id)
    requires SameChannel(t0, t, d) && SameChannel(t, t', d)
    ensures SameChannel(t0, t', d)
  {
    SameChannelTrans(t0, t, t', d);
  }

  lemma UpsertGroup(t0: Tables, t: Tables, t': Tables, groups: map<string, seq<Entry>>, rules: Rules,
                    tagOf: string -> Id, chan: map<string, Id>, key: string, c: Id)
    requires WellGrouped(groups) && Upsert(t0, t, groups, rules, tagOf, chan)
    requires key in groups && key !in chan && GroupImported(t, t', key, groups[key], rules, tagOf, c)
    ensures Upsert(t0, t', groups, rules, tagOf, chan[key := c])
    ensures c in t0.channels <==> c in t.channels
  {
    var chan' := chan[key := c];
    ValuesGrow(chan, key, c);
    NotSeenYet(t0, t, groups, rules, tagOf, chan, key, c);
    SourceCarriesBack(t0, t, groups, rules, tagOf, chan, key, c);
    GroupIsImported(t0, t, t', key, groups[key], rules, tagOf, c);
    GroupLeavesOthers(t, t', key, groups[key], rules, tagOf, c);
    OthersExtend(t0, t, t', groups, rules, tagOf, chan, key, c);
  }

  lemma OthersExtend(t0: Tables, t: Tables, t': Tables, groups: map<string, seq<Entry>>, rules: Rules,
                     tagOf: string -> Id, chan: map<string, Id>, key: string, c: Id)
    requires WellGrouped(groups) && Upsert(t0, t, groups, rules, tagOf, chan)
    requires key in groups && key !in chan && c !in chan.Values && chan[key := c].Values == chan.Values + {c}
    requires ChannelImported(t0, t', key, groups[key], rules, tagOf, c)
    requires forall d: Id :: d != c ==> SameChannel(t, t', d)
    ensures Upsert(t0, t', groups, rules, tagOf, chan[key := c])
  {
    hide ChannelImported, SameChannel;
    forall k | k in chan ensures ChannelImported(t0, t', k, groups[k], rules, tagOf, chan[k]) {
      assert chan[k] in chan.Values;
      EarlierStays(t0, t, t', groups, rules, tagOf, chan, k);
    }
    forall d: Id | d !in chan.Values + {c} ensures SameChannel(t0, t', d) {
      UntouchedStays(t0, t, t', d);
    }
  }

  /** Keys whose channel did not exist before. */
  ghost function NewKeys(existing: set<Id>, chan: map<string, Id>): set<string> {
    set key | key in chan && chan[key] !in existing
  }

  /** The counters and seen-set of the import loop with the keys in todo still to come. */
  ghost predicate Counted(existing: set<Id>, all: set<string>, chan: map<string, Id>, seen: set<Id>, added: nat,
                          updated: nat, todo: set<string>)
  {
    && todo <= all && chan.Keys == all - todo
    && seen == chan.Values
    && added == |NewKeys(existing, chan)| && added + updated == |chan|
  }

  lemma CountedStep(existing: set<Id>, all: set<string>, chan: map<string, Id>, seen: set<Id>, added: nat, updated: nat,
                    todo: set<string>, key: string, c: Id)
    requires Counted(existing, all, chan, seen, added, updated, todo) && key in todo
    ensures Counted(existing, all, chan[key := c], seen + {c},
                    if c in existing then added else added + 1, if c in existing then updated + 1 else updated,
                    todo - {key})
  {
    NewKeysGrow(existing, chan, key, c);
    ValuesGrow(chan, key, c);
    assert chan[key := c].Keys == all - (todo - {key});
  }

  lemma NewKeysGrow(existing: set<Id>, chan: map<string, Id>, key: string, c: Id)
    requires key !in chan
    ensures |NewKeys(existing, chan[key := c])| == |NewKeys(existing, chan)| + if c in existing then 0 else 1
  {
    assert NewKeys(existing, chan[key := c]) == NewKeys(existing, chan) + if c in existing then {} else {key};
  }

  /** Deleting a channel deletes its variants and tag rows. */
  function Without(t: Tables, c: Id): Tables {
    Tables(t.channels - {c}, t.variants - RowsOf(t.variants, c).Keys, map p | p in t.tags && p.0 != c :: t.tags[p])
  }

  /** The channels in gone, with their variants and tags, have been deleted from t; nothing else changed. */
  ghost predicate RemovedUpTo(t: Tables, t': Tables, gone: set<Id>) {
    && t'.channels == t.channels - gone
    && (forall d: Id :: d in gone ==> RowsOf(t'.variants, d) == map[] && forall g: Id :: Tag(t'.tags, d, g) == None)
    && (forall d: Id :: d !in gone ==> SameChannelData(t, t', d))
  }

  lemma NothingRemoved(t: Tables)
    ensures RemovedUpTo(t, t, {})
  {
    assert t.channels - {} == t.channels;
  }

  lemma WithoutRemoves(t: Tables, c: Id)
    ensures RemovedUpTo(t, Without(t, c), {c})
  {
    var v' := t.variants - RowsOf(t.variants, c).Keys;
    var g' := map p | p in t.tags && p.0 != c :: t.tags[p];
    assert RowsOf(v', c) == map[];
    forall d: Id | d != c ensures RowsOf(v', d) == RowsOf(t.variants, d) {}
    forall d: Id, g: Id | d != c ensures Tag(g', d, g) == Tag(t.tags, d, g) {}
  }

  lemma RemovedTrans(t: Tables, t1: Tables, t2: Tables, gone: set<Id>, c: Id)
    requires RemovedUpTo(t, t1, gone) && RemovedUpTo(t1, t2, {c})
    ensures RemovedUpTo(t, t2, gone + {c})
  {
    assert t.channels - (gone + {c}) == t.channels - gone - {c};
    forall d: Id | d !in gone + {c} ensures SameChannelData(t, t2, d) {
      SameChannelTrans(t, t1, t2, d);
    }
    forall d: Id | d in gone && d != c
      ensures RowsOf(t2.variants, d) == map[] && forall g: Id :: Tag(t2.tags, d, g) == None
    {
      assert SameChannelData(t1, t2, d);
    }
  }

  /** The unseen channels among those no longer to do. */
  ghost function Unseen(existing: set<Id>, todo: set<Id>, seen: set<Id>): set<Id> {
    existing - todo - seen
  }

  lemma UnseenStep(existing: set<Id>, todo: set<Id>, seen: set<Id>, c: Id)
    requires c in todo && todo <= existing
    ensures c !in Unseen(existing, todo, seen)
    ensures Unseen(existing, todo - {c}, seen) == Unseen(existing, todo, seen) + if c in seen then {} else {c}
  {
  }

  lemma AllUnseen(existing: set<Id>, seen: set<Id>)
    ensures Unseen(existing, {}, seen) == existing - seen
  {
  }

  /** The tables after a whole import, chan rules the channel of every group. */
  ghost predicate Imported(t0: Tables, t': Tables, groups: map<string, seq<Entry>>, rules: Rules, tagOf: string -> Id,
                           chan: map<string, Id>) {
    && WellGrouped(groups)
    && chan.Keys == groups.Keys
    && (forall key :: key in chan ==> ChannelImported(t0, t', key, groups[key], rules, tagOf, chan[key]))
    && t'.channels.Keys == chan.Values
    && (forall d: Id :: d !in chan.Values ==>
          if d in t0.channels then RowsOf(t'.variants, d) == map[] && forall g: Id :: Tag(t'.tags, d, g) == None
          else SameChannelData(t0, t', d))
  }

  lemma KeysAfterUpsert(t0: Tables, t: Tables, groups: map<string, seq<Entry>>, rules: Rules, tagOf: string -> Id,
                        chan: map<string, Id>)
    requires WellGrouped(groups) && Upsert(t0, t, groups, rules, tagOf, chan)
    ensures t.channels.Keys == t0.channels.Keys + chan.Values
  {
    forall d: Id ensures d in t.channels.Keys <==> d in t0.channels.Keys + chan.Values {
      if d in chan.Values {
        var k :| k in chan && chan[k] == d;
        assert ChannelImported(t0, t, k, groups[k], rules, tagOf, d);
      } else {
        assert SameChannel(t0, t, d);
      }
    }
  }

  lemma RemovalFinishes(t0: Tables, t: Tables, t': Tables, groups: map<string, seq<Entry>>, rules: Rules,
                        tagOf: string -> Id, chan: map<string, Id>)
    requires WellGrouped(groups) && chan.Keys == groups.Keys && Upsert(t0, t, groups, rules, tagOf, chan)
    requires RemovedUpTo(t, t', t0.channels.Keys - chan.Values)
    ensures Imported(t0, t', groups, rules, tagOf, chan)
  {
    KeysAfterRemoval(t0, t, t', groups, rules, tagOf, chan);
    forall key | key in chan ensures ChannelImported(t0, t', key, groups[key], rules, tagOf, chan[key]) {
      RemovalFrame(t0, t, t', groups, rules, tagOf, chan, key);
    }
    forall d: Id | d !in chan.Values && d !in t0.channels ensures SameChannelData(t0, t', d) {
      assert SameChannel(t0, t, d);
      SameChannelTrans(t0, t, t', d);
    }
  }

  lemma KeysAfterRemoval(t0: Tables, t: Tables, t': Tables, groups: map<string, seq<Entry>>, rules: Rules,
                         tagOf: string -> Id, chan: map<string, Id>)
    requires WellGrouped(groups) && Upsert(t0, t, groups, rules, tagOf, chan)
    requires RemovedUpTo(t, t', t0.channels.Keys - chan.Values)
    ensures t'.channels.Keys == chan.Values
  {
    KeysAfterUpsert(t0, t, groups, rules, tagOf, chan);
  }

  lemma RemovalFrame(t0: Tables, t: Tables, t': Tables, groups: map<string, seq<Entry>>, rules: Rules,
                     tagOf: string -> Id, chan: map<string, Id>, key: string)
    requires WellGrouped(groups) && Upsert(t0, t, groups, rules, tagOf, chan) && key in chan
    requires RemovedUpTo(t, t', t0.channels.Keys - chan.Values)
    ensures ChannelImported(t0, t', key, groups[key], rules, tagOf, chan[key])
  {
    assert chan[key] in chan.Values;
    assert SameChannelData(t, t', chan[key]);
    ImportedFrame(t0, t, t', key, groups[key], rules, tagOf, chan[key]);
  }

  /** Writing a row of channel c is a write to that channel's rows only. */
  lemma RowsWrite(variants: Rows, c: Id, id: Id, row: VariantRow)
    requires row.channelRef == c && (id in variants ==> variants[id].channelRef == c)
    ensures RowsOf(variants[id := row], c) == RowsOf(variants, c)[id := row]
    ensures forall d: Id :: d != c ==> RowsOf(variants[id := row], d) == RowsOf(variants, d)
  {
  }

  /** The looked-up or fresh row is the target of the entry's write, and writing it extends the writes. */
  lemma WriteTarget(variants: Rows, v: Rows, c: Id, es: seq<Entry>, rules: Rules, e: Entry, existing: Option<Id>,
                    id: Id)
    requires Writes(v, c, es, rules, RowsOf(variants, c))
    requires existing.Some? ==> id == existing.value && NamedRow(variants, c, e.Name(), id)
    requires existing.Some? ==> rules.lookup.Returns(RowsNamed(variants, c, e.Name()), id)
    requires existing.None? ==> id !in variants && !AnyNamed(variants, c, e.Name())
    ensures Writes(v, c, es + [e], rules, RowsOf(variants, c)[id := VariantOf(c, e, rules)])
    ensures RowsOf(variants[id := VariantOf(c, e, rules)], c) == RowsOf(variants, c)[id := VariantOf(c, e, rules)]
  {
    var u := RowsOf(variants, c);
    if existing.None? {
      WritesUpsert(v, c, es, rules, u);
      assert forall i :: i in v ==> OldRowOk(v, c, es, rules, u, i);
      forall i ensures !NamedRow(u, c, e.Name(), i) {
        assert !NamedRow(variants, c, e.Name(), i);
      }
    }
    forall i ensures i in RowsNamed(u, c, e.Name()) <==> i in RowsNamed(variants, c, e.Name()) {}
    assert RowsNamed(u, c, e.Name()) == RowsNamed(variants, c, e.Name());
    assert Directed(v, u, c, e.Name(), id, rules);
    WritesNext(v, c, es, rules, u, e, id);
    RowsWrite(variants, c, id, VariantOf(c, e, rules));
  }
}
