/**
 * Watch state shared between mapped users of a library.  Writes fan out over
 * the mapping graph, reads go through one redirect; what a reader sees depends
 * on both.
 */
module SharedProgress {
  import opened Prelude

  type User = string

  datatype Mapping = Mapping(from: User, to: User)

  predicate Touches(m: Mapping, u: User) {
    m.from == u || m.to == u
  }

  /** The two mappings have a user in common. */
  predicate Meets(a: Mapping, b: Mapping) {
    a.to == b.to || a.from == b.from || a.to == b.from || a.from == b.to
  }

  // ---------------------------------------------------------------------------
  // The mapping graph
  // ---------------------------------------------------------------------------

  /** Users joined by a mapping, in either direction. */
  ghost predicate Mapped(ms: seq<Mapping>, u: User, v: User) {
    exists i :: 0 <= i < |ms| && Touches(ms[i], u) && Touches(ms[i], v) && (u != v || (ms[i].from == ms[i].to))
  }

  ghost predicate Occurs(ms: seq<Mapping>, u: User) {
    exists i :: 0 <= i < |ms| && Touches(ms[i], u)
  }

  /** At most two undirected mapping steps apart. */
  ghost predicate WithinTwo(ms: seq<Mapping>, u: User, v: User) {
    u == v || Mapped(ms, u, v) || exists w :: Mapped(ms, u, w) && Mapped(ms, w, v)
  }

  function Users(ms: seq<Mapping>): set<User> {
    (set i | 0 <= i < |ms| :: ms[i].from) + (set i | 0 <= i < |ms| :: ms[i].to)
  }

  /** v is an end of one of the first n mappings that meet mapping i. */
  ghost predicate MetBefore(ms: seq<Mapping>, i: nat, n: nat, v: User)
    requires i < |ms| && n <= |ms|
  {
    exists j :: 0 <= j < n && Meets(ms[i], ms[j]) && Touches(ms[j], v)
  }

  /** v is an end of a mapping meeting one of the first n mappings that touch the user. */
  ghost predicate ReachedBefore(ms: seq<Mapping>, user: User, n: nat, v: User)
    requires n <= |ms|
  {
    exists i: nat :: i < n && Touches(ms[i], user) && MetBefore(ms, i, |ms|, v)
  }

  /** The users a write by u reaches. */
  ghost function Merged(ms: seq<Mapping>, u: User): (r: set<User>)
    ensures forall v :: v in r <==> ReachedBefore(ms, u, |ms|, v)
  {
    var r := set v | v in Users(ms) && ReachedBefore(ms, u, |ms|, v);
    forall v | ReachedBefore(ms, u, |ms|, v) ensures v in Users(ms) {
      var i: nat :| i < |ms| && Touches(ms[i], u) && MetBefore(ms, i, |ms|, v);
      var j :| 0 <= j < |ms| && Meets(ms[i], ms[j]) && Touches(ms[j], v);
      assert ms[j].from in Users(ms) && ms[j].to in Users(ms);
    }
    r
  }

  lemma MappedSymmetric(ms: seq<Mapping>, u: User, v: User)
    requires Mapped(ms, u, v)
    ensures Mapped(ms, v, u)
  {
    var i :| 0 <= i < |ms| && Touches(ms[i], u) && Touches(ms[i], v) && (u != v || (ms[i].from == ms[i].to));
    assert Touches(ms[i], v);
  }

  /** Every user the write reaches is within two steps. */
  lemma ReachedIsNear(ms: seq<Mapping>, u: User, v: User)
    requires v in Merged(ms, u)
    ensures Occurs(ms, u) && WithinTwo(ms, u, v)
  {
    var i: nat :| i < |ms| && Touches(ms[i], u) && MetBefore(ms, i, |ms|, v);
    var j :| 0 <= j < |ms| && Meets(ms[i], ms[j]) && Touches(ms[j], v);
    var w := if Touches(ms[j], ms[i].from) then ms[i].from else ms[i].to;
    assert Touches(ms[i], w) && Touches(ms[j], w);
    if u != v {
      if w != u { assert Mapped(ms, u, w); }
      if w != v { assert Mapped(ms, w, v); }
    }
  }

  /** Every user within two steps is reached. */
  lemma NearIsReached(ms: seq<Mapping>, u: User, v: User)
    requires Occurs(ms, u) && WithinTwo(ms, u, v)
    ensures v in Merged(ms, u)
  {
    if u == v || Mapped(ms, u, v) {
      var i: nat :| i < |ms| && Touches(ms[i], u) && Touches(ms[i], v);
      assert Meets(ms[i], ms[i]);
      assert MetBefore(ms, i, |ms|, v);
    } else {
      var w :| Mapped(ms, u, w) && Mapped(ms, w, v);
      var i: nat :| i < |ms| && Touches(ms[i], u) && Touches(ms[i], w);
      var j: nat :| j < |ms| && Touches(ms[j], w) && Touches(ms[j], v);
      assert Meets(ms[i], ms[j]);
      assert MetBefore(ms, i, |ms|, v);
    }
  }

  /**
   * A user who occurs in some mapping reaches exactly the users within two
   * steps; a user who occurs in none reaches nobody, not even himself.
   */
  lemma MergedIsTwoHop(ms: seq<Mapping>, u: User, v: User)
    ensures v in Merged(ms, u) <==> Occurs(ms, u) && WithinTwo(ms, u, v)
  {
    if v in Merged(ms, u) { ReachedIsNear(ms, u, v); }
    if Occurs(ms, u) && WithinTwo(ms, u, v) { NearIsReached(ms, u, v); }
  }

  lemma MergedSymmetric(ms: seq<Mapping>, u: User, v: User)
    requires v in Merged(ms, u)
    ensures u in Merged(ms, v)
  {
    var i: nat :| i < |ms| && Touches(ms[i], u) && MetBefore(ms, i, |ms|, v);
    var j: nat :| j < |ms| && Meets(ms[i], ms[j]) && Touches(ms[j], v);
    assert Meets(ms[j], ms[i]);
    assert MetBefore(ms, j, |ms|, u);
  }

  // ---------------------------------------------------------------------------
  // Writing and reading
  // ---------------------------------------------------------------------------

  /** A watched row: date 0 marks a removed entry. */
  datatype WatchKey = WatchKey(kind: string, id: string, user: User)

  datatype Progress = Progress(value: nat, parent: Option<string>)

  /** None: the library has no mapping setting. */
  type Setting = Option<seq<Mapping>>

  function Mappings(setting: Setting): seq<Mapping> {
    setting.GetOr([])
  }

  /** The user whose rows a reader reads: the target of the first mapping from the reader. */
  function Redirect(ms: seq<Mapping>, u: User): User {
    if ms == [] then u
    else if ms[0].from == u then ms[0].to
    else Redirect(ms[1..], u)
  }

  /** The first mapping from a user decides, later ones do not; without one the user is read as himself. */
  lemma {:induction false} RedirectIsFirst(ms: seq<Mapping>, u: User, i: nat)
    requires i <= |ms| && forall j :: 0 <= j < i ==> ms[j].from != u
    ensures i < |ms| && ms[i].from == u ==> Redirect(ms, u) == ms[i].to
    ensures i == |ms| ==> Redirect(ms, u) == u
    decreases |ms|
  {
    if i > 0 {
      assert forall j :: 0 <= j < i - 1 ==> ms[1..][j] == ms[j + 1];
      RedirectIsFirst(ms[1..], u, i - 1);
    }
  }

  lemma {:induction false} RedirectIsNear(ms: seq<Mapping>, u: User)
    ensures Redirect(ms, u) == u || (Occurs(ms, u) && Mapped(ms, u, Redirect(ms, u)))
  {
    if ms != [] {
      if ms[0].from == u {
        assert Touches(ms[0], u) && Touches(ms[0], ms[0].to);
      } else {
        RedirectIsNear(ms[1..], u);
        if Redirect(ms, u) != u {
          var i :| 0 <= i < |ms[1..]| && Touches(ms[1..][i], u) && Touches(ms[1..][i], Redirect(ms, u));
          assert ms[i + 1] == ms[1..][i];
        }
      }
    }
  }

  class ProgressStore {
    var watched: map<WatchKey, int>
    var progress: map<WatchKey, Progress>

    constructor ()
      ensures watched == map[] && progress == map[]
    {
      watched, progress := map[], map[];
    }

    /** Every mapping touching the user, and every mapping meeting one of those. */
    static method GetLibraryProgressMergedUsers(setting: Setting, user: User) returns (users: set<User>)
      ensures users == Merged(Mappings(setting), user)
    {
      users := {};
      if setting.None? { return; }
      var ms := setting.value;
      for i := 0 to |ms|
        invariant forall v :: v in users <==> ReachedBefore(ms, user, i, v)
      {
        if Touches(ms[i], user) {
          ghost var before := users;
          users := users + {ms[i].from, ms[i].to};
          for j := 0 to |ms|
            invariant forall v :: v in users <==> v in before || v in {ms[i].from, ms[i].to} || MetBefore(ms, i, j, v)
          {
            if Meets(ms[i], ms[j]) { users := users + {ms[j].from, ms[j].to}; }
          }
          forall v ensures v in users <==> ReachedBefore(ms, user, i + 1, v) {
            if v in {ms[i].from, ms[i].to} { assert MetBefore(ms, i, |ms|, v) by { assert Meets(ms[i], ms[i]); } }
          }
        }
      }
    }

    static method GetOptionalLibraryMappedUser(setting: Option<Setting>, user: User) returns (r: User)
      ensures r == ReadsAs(setting, user)
    {
      r := user;
      if setting.Some? && setting.value.Some? {
        var ms := setting.value.value;
        for i := 0 to |ms|
          invariant Redirect(ms[i..], user) == Redirect(ms, user)
        {
          if ms[i].from == user {
            return ms[i].to;
          }
          assert ms[i..][1..] == ms[i + 1..];
        }
        assert ms[|ms|..] == [];
      }
    }

    /** Mark an entry watched for everyone the writer reaches; drop their playback positions. */
    method AddWatched(kind: string, id: string, date: int, user: User, setting: Option<Setting>)
      modifies this
      ensures Written(old(watched), kind, id, Writes(setting, user), date, watched)
      ensures Dropped(old(progress), kind, id, Writes(setting, user), progress)
    {
      var users := {user};
      if setting.Some? { users := GetLibraryProgressMergedUsers(setting.value, user); }
      assert users == Writes(setting, user);
      assert Written(watched, kind, id, {}, date, watched) && Dropped(progress, kind, id, {}, progress);
      hide *;
      var left := users;
      ghost var done: set<User> := {};
      while left != {}
        invariant left <= users && done + left == users
        invariant Written(old(watched), kind, id, done, date, watched)
        invariant Dropped(old(progress), kind, id, done, progress)
        decreases left
      {
        var u :| u in left;
        WrittenNext(old(watched), kind, id, done, date, watched, u);
        DroppedNext(old(progress), kind, id, done, progress, u);
        watched := watched[WatchKey(kind, id, u) := date];
        progress := progress - {WatchKey(kind, id, u)};
        left := left - {u};
        done := done + {u};
      }
      assert done == users;
    }

    /** Set the date of matching live rows to 0 for everyone the writer reaches. */
    method RemoveWatched(kind: string, ids: seq<string>, user: User, setting: Option<Setting>)
      modifies this`watched
      ensures Removed(old(watched), kind, ids, Writes(setting, user), watched)
    {
      var users := {user};
      if setting.Some? { users := GetLibraryProgressMergedUsers(setting.value, user); }
      assert users == Writes(setting, user) && Removed(watched, kind, ids, {}, watched);
      hide *;
      var left := users;
      ghost var done: set<User> := {};
      while left != {}
        invariant left <= users && done + left == users
        invariant Removed(old(watched), kind, ids, done, watched)
        decreases left
      {
        var u :| u in left;
        RemovedNext(old(watched), kind, ids, done, watched, u);
        watched := Cleared(watched, kind, ids, u);
        left := left - {u};
        done := done + {u};
      }
      assert done == users;
    }

    /** The entries asked for among the rows of the user read as; the administrator, who is no user, has none. */
    method GetWatched(query: HistoryQuery, user: Option<User>, setting: Option<Setting>)
      returns (seen: map<(string, string), int>)
      ensures user.None? ==> seen == map[]
      ensures user.Some? ==> ListsWatched(watched, ReadsAs(setting, user.value), query, seen)
    {
      if user.None? { return map[]; }
      var progressUser := GetOptionalLibraryMappedUser(setting, user.value);
      seen := map k | k in watched && k.user == progressUser && Asked(query, k.kind, k.id, watched[k]) ::
        (k.kind, k.id) := watched[k];
      forall kind, id ensures (kind, id) in seen <==> Answers(watched, progressUser, query, kind, id) {
        if Answers(watched, progressUser, query, kind, id) {
          var k := WatchKey(kind, id, progressUser);
          assert (k.kind, k.id) in seen;
        }
      }
    }

    method AddViewProgress(kind: string, id: string, value: Progress, user: User, setting: Option<Setting>)
      modifies this`progress
      ensures Written(old(progress), kind, id, Writes(setting, user), value, progress)
    {
      var users := {user};
      if setting.Some? { users := GetLibraryProgressMergedUsers(setting.value, user); }
      assert users == Writes(setting, user) && Written(progress, kind, id, {}, value, progress);
      hide *;
      var left := users;
      ghost var done: set<User> := {};
      while left != {}
        invariant left <= users && done + left == users
        invariant Written(old(progress), kind, id, done, value, progress)
        decreases left
      {
        var u :| u in left;
        WrittenNext(old(progress), kind, id, done, value, progress, u);
        progress := progress[WatchKey(kind, id, u) := value];
        left := left - {u};
        done := done + {u};
      }
      assert done == users;
    }

    /** Some position of the user read as, for any of the ids, whatever its kind. */
    method GetViewProgress(ids: set<string>, user: Option<User>, setting: Option<Setting>)
      returns (r: Option<(WatchKey, Progress)>)
      ensures user.None? ==> r.None?
      ensures user.Some? ==> FindsProgress(progress, ReadsAs(setting, user.value), ids, r)
    {
      if user.None? { return None; }
      var progressUser := GetOptionalLibraryMappedUser(setting, user.value);
      if exists k :: k in progress && k.user == progressUser && k.id in ids {
        var k :| k in progress && k.user == progressUser && k.id in ids;
        return Some((k, progress[k]));
      }
      r := None;
    }
  }

  /** The users a write reaches: the writer alone outside libraries. */
  ghost function Writes(setting: Option<Setting>, user: User): set<User> {
    match setting
    case None => {user}
    case Some(s) => Merged(Mappings(s), user)
  }

  /** The user whose rows a read returns. */
  function ReadsAs(setting: Option<Setting>, user: User): User {
    match setting
    case None => user
    case Some(s) => Redirect(Mappings(s), user)
  }

  /** The row of the item for one of the users. */
  predicate Hits(k: WatchKey, kind: string, id: string, users: set<User>) {
    k.kind == kind && k.id == id && k.user in users
  }

  /** The item's row holds the value for each of the users; all other rows are as before. */
  ghost predicate Written<V>(w: map<WatchKey, V>, kind: string, id: string, users: set<User>, value: V,
                             w': map<WatchKey, V>) {
    && (forall k :: k in w' <==> k in w || Hits(k, kind, id, users))
    && (forall k :: k in w' ==> w'[k] == if Hits(k, kind, id, users) then value else w[k])
  }

  ghost predicate Dropped<V>(w: map<WatchKey, V>, kind: string, id: string, users: set<User>, w': map<WatchKey, V>) {
    && (forall k :: k in w' <==> k in w && !Hits(k, kind, id, users))
    && (forall k :: k in w' ==> w'[k] == w[k])
  }

  /** The users' rows for the given ids have date 0; all other rows are as before. */
  ghost predicate Removed(w: map<WatchKey, int>, kind: string, ids: seq<string>, users: set<User>,
                          w': map<WatchKey, int>) {
    w'.Keys == w.Keys &&
    forall k :: k in w ==> w'[k] == if k.kind == kind && k.id in ids && k.user in users then 0 else w[k]
  }

  lemma WrittenNext<V>(w: map<WatchKey, V>, kind: string, id: string, users: set<User>, value: V, w': map<WatchKey, V>,
                       u: User)
    requires Written(w, kind, id, users, value, w')
    ensures Written(w, kind, id, users + {u}, value, w'[WatchKey(kind, id, u) := value])
  {
  }

  lemma DroppedNext<V>(w: map<WatchKey, V>, kind: string, id: string, users: set<User>, w': map<WatchKey, V>, u: User)
    requires Dropped(w, kind, id, users, w')
    ensures Dropped(w, kind, id, users + {u}, w' - {WatchKey(kind, id, u)})
  {
  }

  /** One user's rows for the given ids get date 0. */
  function Cleared(w: map<WatchKey, int>, kind: string, ids: seq<string>, u: User): map<WatchKey, int> {
    map k | k in w :: if k.kind == kind && k.id in ids && k.user == u then 0 else w[k]
  }

  lemma RemovedNext(w: map<WatchKey, int>, kind: string, ids: seq<string>, users: set<User>, w': map<WatchKey, int>,
                    u: User)
    requires Removed(w, kind, ids, users, w')
    ensures Removed(w, kind, ids, users + {u}, Cleared(w', kind, ids, u))
  {
  }

  /** Reading as u shows the item: its row has a positive date. */
  predicate Sees(w: map<WatchKey, int>, u: User, kind: string, id: string) {
    WatchKey(kind, id, u) in w && w[WatchKey(kind, id, u)] > 0
  }

  /** What a history request asks for; no types means all, no ids means any. */
  datatype HistoryQuery = HistoryQuery(includeDeleted: bool, types: set<string>, ids: Option<set<string>>)

  /** The request without any filter. */
  const LIVE: HistoryQuery := HistoryQuery(false, {}, None)

  predicate Asked(query: HistoryQuery, kind: string, id: string, date: int) {
    && (query.includeDeleted || date > 0)
    && (query.types == {} || kind in query.types)
    && (query.ids.Some? ==> id in query.ids.value)
  }

  predicate Answers(w: map<WatchKey, int>, u: User, query: HistoryQuery, kind: string, id: string) {
    WatchKey(kind, id, u) in w && Asked(query, kind, id, w[WatchKey(kind, id, u)])
  }

  /** The answer lists exactly the user's rows the query asks for, with their dates. */
  ghost predicate ListsWatched(w: map<WatchKey, int>, u: User, query: HistoryQuery, seen: map<(string, string), int>) {
    && (forall kind, id :: (kind, id) in seen <==> Answers(w, u, query, kind, id))
    && forall kind, id | (kind, id) in seen && Answers(w, u, query, kind, id) ::
         seen[(kind, id)] == w[WatchKey(kind, id, u)]
  }

  /** The answer is one of the user's rows for the ids, and missing only if there is none. */
  ghost predicate FindsProgress(w: map<WatchKey, Progress>, u: User, ids: set<string>,
                                r: Option<(WatchKey, Progress)>) {
    if r.None? then forall k :: k in w && k.user == u ==> k.id !in ids
    else r.value.0 in w && r.value.0.user == u && r.value.0.id in ids && r.value.1 == w[r.value.0]
  }

  // ---------------------------------------------------------------------------
  // What readers see of what others write
  // ---------------------------------------------------------------------------

  /** A reader sees a new entry exactly when the user read as is one the write reaches. */
  lemma SeenAfterAddIff(w: map<WatchKey, int>, kind: string, id: string, date: int, writer: User, reader: User,
                        setting: Option<Setting>, w': map<WatchKey, int>)
    requires date > 0 && Written(w, kind, id, Writes(setting, writer), date, w')
    requires !Sees(w, ReadsAs(setting, reader), kind, id)
    ensures Sees(w', ReadsAs(setting, reader), kind, id) <==> ReadsAs(setting, reader) in Writes(setting, writer)
  {
    var k := WatchKey(kind, id, ReadsAs(setting, reader));
    assert Hits(k, kind, id, Writes(setting, writer)) <==> ReadsAs(setting, reader) in Writes(setting, writer);
  }

  /** The writer himself, and anyone sharing a mapping with him, read rows the write reaches. */
  lemma PartnersReadWhatIsWritten(ms: seq<Mapping>, writer: User, reader: User)
    requires Occurs(ms, writer) && (reader == writer || Mapped(ms, reader, writer))
    ensures Redirect(ms, reader) in Merged(ms, writer)
  {
    RedirectIsNear(ms, reader);
    MergedIsTwoHop(ms, writer, Redirect(ms, reader));
    if Mapped(ms, reader, writer) { MappedSymmetric(ms, reader, writer); }
    if Redirect(ms, reader) != reader && reader != writer {
      assert Mapped(ms, writer, reader) && Mapped(ms, reader, Redirect(ms, reader));
    }
  }

  /** A user of the mappings sees his own new entry, and so does everyone sharing a mapping with him. */
  lemma AddedEntryVisible(w: map<WatchKey, int>, kind: string, id: string, date: int, writer: User, reader: User,
                          s: Setting, w': map<WatchKey, int>)
    requires date > 0 && Occurs(Mappings(s), writer) && Written(w, kind, id, Writes(Some(s), writer), date, w')
    requires reader == writer || Mapped(Mappings(s), reader, writer)
    ensures Sees(w', ReadsAs(Some(s), reader), kind, id) && w'[WatchKey(kind, id, ReadsAs(Some(s), reader))] == date
  {
    PartnersReadWhatIsWritten(Mappings(s), writer, reader);
    assert Hits(WatchKey(kind, id, ReadsAs(Some(s), reader)), kind, id, Writes(Some(s), writer));
  }

  /** What readers see of other items, or as users the write does not reach, stays as it was. */
  lemma AddedElsewhereStays(w: map<WatchKey, int>, kind: string, id: string, date: int, users: set<User>,
                            w': map<WatchKey, int>, u: User, kind2: string, id2: string)
    requires Written(w, kind, id, users, date, w') && (u !in users || (kind2, id2) != (kind, id))
    ensures Sees(w', u, kind2, id2) <==> Sees(w, u, kind2, id2)
  {
    assert !Hits(WatchKey(kind2, id2, u), kind, id, users);
  }

  /** Outside libraries the writer, and nobody else, sees a new entry. */
  lemma OutsideLibraries(w: map<WatchKey, int>, kind: string, id: string, date: int, writer: User,
                         w': map<WatchKey, int>, reader: User)
    requires date > 0 && Written(w, kind, id, Writes(None, writer), date, w')
    ensures Sees(w', ReadsAs(None, reader), kind, id) <==> reader == writer || Sees(w, reader, kind, id)
  {
    assert Hits(WatchKey(kind, id, reader), kind, id, Writes(None, writer)) <==> reader == writer;
  }

  /** Removal takes nothing else from anybody. */
  lemma RemovedElsewhereStays(w: map<WatchKey, int>, kind: string, ids: seq<string>, users: set<User>,
                              w': map<WatchKey, int>, u: User, kind2: string, id2: string)
    requires Removed(w, kind, ids, users, w') && (u !in users || kind2 != kind || id2 !in ids)
    ensures Sees(w', u, kind2, id2) <==> Sees(w, u, kind2, id2)
  {
    assert WatchKey(kind2, id2, u) in w <==> WatchKey(kind2, id2, u) in w';
  }

  /** Marking an entry as watched drops its playback position for the same readers, and no other position. */
  lemma WatchedDropsPosition(p: map<WatchKey, Progress>, kind: string, id: string, writer: User, reader: User,
                             s: Setting, p': map<WatchKey, Progress>)
    requires Occurs(Mappings(s), writer) && Dropped(p, kind, id, Writes(Some(s), writer), p')
    requires reader == writer || Mapped(Mappings(s), reader, writer)
    ensures WatchKey(kind, id, ReadsAs(Some(s), reader)) !in p'
    ensures forall k :: k in p && (k.kind, k.id) != (kind, id) ==> k in p' && p'[k] == p[k]
  {
    PartnersReadWhatIsWritten(Mappings(s), writer, reader);
    assert Hits(WatchKey(kind, id, ReadsAs(Some(s), reader)), kind, id, Writes(Some(s), writer));
  }

  /** Removal hides the entry from the same readers. */
  lemma RemovedEntryHidden(w: map<WatchKey, int>, kind: string, ids: seq<string>, id: string, writer: User,
                           reader: User, s: Setting, w': map<WatchKey, int>)
    requires id in ids && Occurs(Mappings(s), writer) && Removed(w, kind, ids, Writes(Some(s), writer), w')
    requires reader == writer || Mapped(Mappings(s), reader, writer)
    ensures !Sees(w', ReadsAs(Some(s), reader), kind, id)
  {
    PartnersReadWhatIsWritten(Mappings(s), writer, reader);
  }

  /**
   * Within a library a user sees his own new entry if and only if he occurs in
   * the library's mappings; without mappings the write goes nowhere.
   */
  lemma OwnEntryVisibleIff(w: map<WatchKey, int>, kind: string, id: string, date: int, user: User, s: Setting,
                           w': map<WatchKey, int>)
    requires date > 0 && !Sees(w, ReadsAs(Some(s), user), kind, id)
    requires Written(w, kind, id, Writes(Some(s), user), date, w')
    ensures Sees(w', ReadsAs(Some(s), user), kind, id) <==> Occurs(Mappings(s), user)
  {
    SeenAfterAddIff(w, kind, id, date, user, user, Some(s), w');
    if Occurs(Mappings(s), user) {
      PartnersReadWhatIsWritten(Mappings(s), user, user);
    } else {
      MergedIsTwoHop(Mappings(s), user, ReadsAs(Some(s), user));
    }
  }

  /**
   * A playback position written by a mapped user is found by him and his
   * partners, and it is the one they get if it is the only one they have for the
   * ids they ask with.
   */
  lemma AddedProgressReadBack(w: map<WatchKey, Progress>, kind: string, id: string, value: Progress, writer: User,
                              reader: User, s: Setting, w': map<WatchKey, Progress>, ids: set<string>,
                              r: Option<(WatchKey, Progress)>)
    requires Occurs(Mappings(s), writer) && Written(w, kind, id, Writes(Some(s), writer), value, w')
    requires reader == writer || Mapped(Mappings(s), reader, writer)
    requires id in ids && FindsProgress(w', ReadsAs(Some(s), reader), ids, r)
    ensures r.Some?
    ensures var mine := WatchKey(kind, id, ReadsAs(Some(s), reader));
      (forall k :: k in w' && k.user == mine.user && k.id in ids ==> k == mine) ==> r == Some((mine, value))
  {
    PartnersReadWhatIsWritten(Mappings(s), writer, reader);
    assert Hits(WatchKey(kind, id, ReadsAs(Some(s), reader)), kind, id, Writes(Some(s), writer));
  }

  /** Without filters the history lists exactly what the reader sees, with deleted entries left out. */
  lemma LiveHistoryIsSeen(w: map<WatchKey, int>, u: User, seen: map<(string, string), int>, kind: string, id: string)
    requires ListsWatched(w, u, LIVE, seen)
    ensures (kind, id) in seen <==> Sees(w, u, kind, id)
    ensures Sees(w, u, kind, id) ==> seen[(kind, id)] == w[WatchKey(kind, id, u)]
  {
    assert Answers(w, u, LIVE, kind, id) <==> Sees(w, u, kind, id);
  }

  /** Filters only narrow the history: a type or id filter keeps what it names, and deleted entries are an addition. */
  lemma FiltersNarrow(w: map<WatchKey, int>, u: User, query: HistoryQuery, seen: map<(string, string), int>,
                      all: map<(string, string), int>, live: map<(string, string), int>, kind: string, id: string)
    requires ListsWatched(w, u, query, seen)
    requires ListsWatched(w, u, HistoryQuery(true, {}, None), all) && ListsWatched(w, u, LIVE, live)
    ensures (kind, id) in seen <==>
            && (kind, id) in (if query.includeDeleted then all else live)
            && (query.types != {} ==> kind in query.types) && (query.ids.Some? ==> id in query.ids.value)
    ensures (kind, id) in live <==> (kind, id) in all && all[(kind, id)] > 0
  {
    assert (kind, id) in seen <==> Answers(w, u, query, kind, id);
    assert (kind, id) in all <==> Answers(w, u, HistoryQuery(true, {}, None), kind, id);
    assert (kind, id) in live <==> Answers(w, u, LIVE, kind, id);
  }

  /** A user outside the library's only mapping marks an entry as watched and does not see it. */
  lemma UnmappedWriterExample(w': map<WatchKey, int>)
    requires Written(map[], "movie", "m1", Writes(Some(Some([Mapping("a", "b")])), "c"), 5, w')
    ensures w' == map[] && !Sees(w', ReadsAs(Some(Some([Mapping("a", "b")])), "c"), "movie", "m1")
  {
    var s: Setting := Some([Mapping("a", "b")]);
    assert !Occurs(Mappings(s), "c");
    forall v ensures v !in Writes(Some(s), "c") { MergedIsTwoHop(Mappings(s), "c", v); }
  }

  /** A reader two steps away may miss the entry: his redirect leads a third step away. */
  lemma TwoStepsAwayMayMiss()
    ensures var ms := [Mapping("b", "a"), Mapping("c", "d"), Mapping("c", "b")];
      WithinTwo(ms, "a", "c") && Redirect(ms, "c") !in Merged(ms, "a")
  {
    var ms := [Mapping("b", "a"), Mapping("c", "d"), Mapping("c", "b")];
    assert Touches(ms[0], "a") && Touches(ms[0], "b");
    assert Touches(ms[2], "b") && Touches(ms[2], "c");
    assert Mapped(ms, "a", "b") && Mapped(ms, "b", "c");
    assert ms[1..][0] == Mapping("c", "d");
    assert Redirect(ms, "c") == "d";
    assert !Meets(ms[0], ms[1]) && !Touches(ms[1], "a") && !Touches(ms[2], "a");
    assert !Touches(ms[0], "d") && !Touches(ms[2], "d");
  }
}
