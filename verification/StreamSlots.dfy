/**
 * Limiting concurrent streams per library: channels hold slots, HLS sessions and
 * proxied streams consume them.  Here every operation is one step: stopping a
 * session tears it down at once.  StreamRaces models the steps in between.
 */
module StreamSlots {
  import opened Prelude

  type Lib = string
  type Channel = string

  /** Session keys are "library:channel:quality"; the first two parts never contain a colon. */
  datatype Key = Key(lib: Lib, channel: Channel, quality: string)

  /** Slots per library, and the last activity of every HLS session. */
  datatype Slots = Slots(active: map<Lib, set<Channel>>, sessions: map<Key, nat>)

  function Held(active: map<Lib, set<Channel>>, lib: Lib): set<Channel> {
    if lib in active then active[lib] else {}
  }

  predicate Oldest(sessions: map<Key, nat>, lib: Lib, victim: Key) {
    && victim in sessions && victim.lib == lib
    && forall k :: k in sessions && k.lib == lib ==> sessions[victim] <= sessions[k]
  }

  predicate NoSession(sessions: map<Key, nat>, lib: Lib) {
    forall k :: k in sessions ==> k.lib != lib
  }

  function Released(active: map<Lib, set<Channel>>, lib: Lib, channel: Channel): map<Lib, set<Channel>> {
    if lib !in active then active
    else if active[lib] - {channel} == {} then active - {lib}
    else active[lib := active[lib] - {channel}]
  }

  // ---------------------------------------------------------------------------
  // Acquiring a slot and opening a session
  // ---------------------------------------------------------------------------

  datatype Outcome = Granted | Refused

  /** Whom an acquisition evicts: an oldest session of a full library, nobody if there is room or no session. */
  predicate Chosen(s: Slots, lib: Lib, channel: Channel, limit: nat, victim: Option<Key>) {
    var held := Held(s.active, lib);
    if channel in held || |held| < limit || NoSession(s.sessions, lib) then victim.None?
    else victim.Some? && Oldest(s.sessions, lib, victim.value)
  }

  function Answer(s: Slots, lib: Lib, channel: Channel, limit: nat, victim: Option<Key>): Outcome {
    if channel in Held(s.active, lib) || |Held(s.active, lib)| < limit || victim.Some? then Granted else Refused
  }

  /** The table after an acquisition; a full library without sessions only gets its (unchanged) entry. */
  function Acquired(s: Slots, lib: Lib, channel: Channel, limit: nat, victim: Option<Key>): Slots {
    var held := Held(s.active, lib);
    if channel in held then s
    else if victim.Some? then
      Slots(s.active[lib := held - {victim.value.channel} + {channel}], s.sessions - {victim.value})
    else if |held| < limit then s.(active := s.active[lib := held + {channel}])
    else s.(active := s.active[lib := held])
  }

  datatype SessionOutcome = Existing | Created | NoSlot | UrlError | CreateError

  function OpenOutcome(s: Slots, key: Key, limit: nat, urlFound: bool, created: bool,
                       victim: Option<Key>): SessionOutcome {
    if key in s.sessions then Existing
    else if Answer(s, key.lib, key.channel, limit, victim) == Refused then NoSlot
    else if !urlFound then UrlError
    else if created then Created
    else CreateError
  }

  /** An existing session is returned as it is; a failed URL lookup returns without giving the slot back. */
  function Opened(s: Slots, key: Key, limit: nat, urlFound: bool, created: bool, now: nat, victim: Option<Key>): Slots {
    var t := Acquired(s, key.lib, key.channel, limit, victim);
    match OpenOutcome(s, key, limit, urlFound, created, victim)
    case Existing => s
    case NoSlot => t
    case UrlError => t
    case Created => t.(sessions := t.sessions[key := now])
    case CreateError => t.(active := Released(t.active, key.lib, key.channel))
  }

  predicate OpenChosen(s: Slots, key: Key, limit: nat, victim: Option<Key>) {
    if key in s.sessions then victim.None? else Chosen(s, key.lib, key.channel, limit, victim)
  }

  function OnChannel(sessions: map<Key, nat>, lib: Lib, channel: Channel): set<Key> {
    set k | k in sessions && k.lib == lib && k.channel == channel
  }

  class SlotTable {
    var active: map<Lib, set<Channel>>
    var sessions: map<Key, nat>

    ghost function State(): Slots
      reads this
    {
      Slots(active, sessions)
    }

    constructor ()
      ensures State() == Slots(map[], map[])
    {
      active, sessions := map[], map[];
    }

    method OldestSession(lib: Lib) returns (victim: Option<Key>)
      ensures victim.Some? ==> Oldest(sessions, lib, victim.value)
      ensures victim.None? ==> NoSession(sessions, lib)
    {
      var left := sessions.Keys;
      victim := None;
      while left != {}
        invariant left <= sessions.Keys
        invariant victim.Some? ==> Oldest(sessions - left, lib, victim.value)
        invariant victim.None? ==> NoSession(sessions - left, lib)
        decreases left
      {
        var k :| k in left;
        left := left - {k};
        if k.lib == lib && (victim.None? || sessions[k] < sessions[victim.value]) { victim := Some(k); }
      }
      assert sessions - {} == sessions;
    }

    /** The same channel is always let in; a full library evicts its oldest session or refuses. */
    method AcquireStreamSlot(lib: Lib, channel: Channel, maxStreams: nat)
      returns (r: Outcome, ghost victim: Option<Key>)
      modifies this
      ensures Chosen(old(State()), lib, channel, maxStreams, victim)
      ensures r == Answer(old(State()), lib, channel, maxStreams, victim)
      ensures State() == Acquired(old(State()), lib, channel, maxStreams, victim)
    {
      var channels := Held(active, lib);
      victim := None;
      if channel in channels { return Granted, None; }
      if |channels| >= maxStreams {
        var oldest := OldestSession(lib);
        victim := oldest;
        if oldest.None? {
          active := active[lib := channels];
          return Refused, None;
        }
        sessions := sessions - {oldest.value};
        active := active[lib := channels - {oldest.value.channel} + {channel}];
      } else {
        active := active[lib := channels + {channel}];
      }
      r := Granted;
    }

    method ReleaseStreamSlot(lib: Lib, channel: Channel)
      modifies this`active
      ensures active == Released(old(active), lib, channel)
    {
      if lib in active {
        active := active[lib := active[lib] - {channel}];
        if active[lib] == {} { active := active - {lib}; }
      }
    }

    method GetOrCreateHlsSession(key: Key, maxStreams: nat, urlFound: bool, created: bool, now: nat)
      returns (r: SessionOutcome, ghost victim: Option<Key>)
      modifies this
      ensures OpenChosen(old(State()), key, maxStreams, victim)
      ensures r == OpenOutcome(old(State()), key, maxStreams, urlFound, created, victim)
      ensures State() == Opened(old(State()), key, maxStreams, urlFound, created, now, victim)
    {
      hide Held, Chosen, Answer, Acquired, Released;
      if key in sessions { return Existing, None; }
      var slot;
      slot, victim := AcquireStreamSlot(key.lib, key.channel, maxStreams);
      if slot == Refused { return NoSlot, victim; }
      if !urlFound { return UrlError, victim; }
      if created {
        sessions := sessions[key := now];
        return Created, victim;
      }
      ReleaseStreamSlot(key.lib, key.channel);
      r := CreateError;
    }

    method StopHlsSession(lib: Lib, channel: Channel)
      modifies this
      ensures sessions == old(sessions) - OnChannel(old(sessions), lib, channel)
      ensures active ==
        if OnChannel(old(sessions), lib, channel) == {} then old(active) else Released(old(active), lib, channel)
    {
      var keys := OnChannel(sessions, lib, channel);
      sessions := sessions - keys;
      if keys != {} { ReleaseStreamSlot(lib, channel); }
    }

    /** One turn of the cleanup loop: stop the stale sessions, then release their slots one by one. */
    method CleanupStaleSessions(stale: set<Key>)
      requires stale <= sessions.Keys
      modifies this
      ensures sessions == old(sessions) - stale
      ensures forall lib, c :: c in Held(active, lib) <==>
        c in Held(old(active), lib) && forall k :: k in stale ==> !(k.lib == lib && k.channel == c)
    {
      sessions := sessions - stale;
      var left := stale;
      while left != {}
        invariant left <= stale && sessions == old(sessions) - stale
        invariant forall lib, c :: c in Held(active, lib) <==>
          c in Held(old(active), lib) && forall k :: k in stale - left ==> !(k.lib == lib && k.channel == c)
        decreases left
      {
        var k :| k in left;
        left := left - {k};
        ReleaseStreamSlot(k.lib, k.channel);
      }
    }
  }

  // ---------------------------------------------------------------------------
  // Runs, with any number of consumers per channel
  // ---------------------------------------------------------------------------

  /** The slot table and the proxied streams being served, each with its number of viewers. */
  datatype State = State(slots: Slots, proxies: multiset<(Lib, Channel)>)

  datatype Step =
    | ProxyOpen(lib: Lib, channel: Channel, victim: Option<Key>)   // handler_stream takes a slot
    | ProxyClose(lib: Lib, channel: Channel)                       // its error paths, or the guard dropped
    | OpenHls(key: Key, urlFound: bool, created: bool, now: nat, victim: Option<Key>)
    | StopHls(lib: Lib, channel: Channel)
    | CleanUp(key: Key)                                            // a stale session, or FFmpeg gave up
    | Touch(key: Key, now: nat)

  type Limits = map<Lib, nat>

  function Limit(limits: Limits, lib: Lib): nat {
    if lib in limits then limits[lib] else 1
  }

  predicate Enabled(limits: Limits, s: State, step: Step) {
    match step
    case ProxyOpen(lib, channel, victim) => Chosen(s.slots, lib, channel, Limit(limits, lib), victim)
    case ProxyClose(lib, channel) => (lib, channel) in s.proxies
    case OpenHls(key, _, _, _, victim) => OpenChosen(s.slots, key, Limit(limits, key.lib), victim)
    case StopHls(_, _) => true
    case CleanUp(key) => key in s.slots.sessions
    case Touch(key, _) => key in s.slots.sessions
  }

  function Next(limits: Limits, s: State, step: Step): State
    requires Enabled(limits, s, step)
  {
    match step
    case ProxyOpen(lib, channel, victim) =>
      var granted := Answer(s.slots, lib, channel, Limit(limits, lib), victim) == Granted;
      State(Acquired(s.slots, lib, channel, Limit(limits, lib), victim),
            if granted then s.proxies + multiset{(lib, channel)} else s.proxies)
    case ProxyClose(lib, channel) =>
      State(s.slots.(active := Released(s.slots.active, lib, channel)), s.proxies - multiset{(lib, channel)})
    case OpenHls(key, urlFound, created, now, victim) =>
      s.(slots := Opened(s.slots, key, Limit(limits, key.lib), urlFound, created, now, victim))
    case StopHls(lib, channel) =>
      var keys := OnChannel(s.slots.sessions, lib, channel);
      var active := if keys == {} then s.slots.active else Released(s.slots.active, lib, channel);
      s.(slots := Slots(active, s.slots.sessions - keys))
    case CleanUp(key) =>
      s.(slots := Slots(Released(s.slots.active, key.lib, key.channel), s.slots.sessions - {key}))
    case Touch(key, now) => s.(slots := s.slots.(sessions := s.slots.sessions[key := now]))
  }

  const EMPTY: State := State(Slots(map[], map[]), multiset{})

  /** states[k + 1] follows from states[k] by steps[k], from the empty table on. */
  ghost predicate Run(limits: Limits, steps: seq<Step>, states: seq<State>) {
    && |states| == |steps| + 1 && states[0] == EMPTY
    && forall k :: 0 <= k < |steps| ==> Follows(limits, states[k], steps[k], states[k + 1])
  }

  ghost predicate Follows(limits: Limits, s: State, step: Step, s': State) {
    Enabled(limits, s, step) && s' == Next(limits, s, step)
  }

  /** Some session plays the channel. */
  ghost predicate Playing(sessions: map<Key, nat>, lib: Lib, channel: Channel) {
    exists k :: k in sessions && k.lib == lib && k.channel == channel
  }

  ghost predicate Consumed(s: State, lib: Lib, channel: Channel) {
    (lib, channel) in s.proxies || Playing(s.slots.sessions, lib, channel)
  }

  ghost predicate Holds(s: State, lib: Lib, channel: Channel) {
    channel in Held(s.slots.active, lib)
  }
}
