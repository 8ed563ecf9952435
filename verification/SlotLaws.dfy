/**
 * What the slot table promises, and exactly when: every consumer holds a slot,
 * no library exceeds its limit, no slot is held by nobody.
 */
module SlotLaws {
  import opened Prelude
  import opened StreamSlots

  /** Every consumed channel holds a slot. */
  ghost predicate Covered(s: State) {
    forall lib, c :: Consumed(s, lib, c) ==> Holds(s, lib, c)
  }

  /** Somebody besides this session consumes its channel. */
  ghost predicate Shared(s: State, key: Key) {
    || (key.lib, key.channel) in s.proxies
    || exists k :: k in s.slots.sessions && k != key && k.lib == key.lib && k.channel == key.channel
  }

  // ---------------------------------------------------------------------------
  // What one step does to one channel
  // ---------------------------------------------------------------------------

  predicate EvictsOn(victim: Option<Key>, lib: Lib, channel: Channel) {
    victim.Some? && victim.value.lib == lib && victim.value.channel == channel
  }

  /** The step is answered with a slot for the channel, kept or not. */
  predicate GrantedTo(limits: Limits, s: State, step: Step, lib: Lib, channel: Channel) {
    match step
    case ProxyOpen(l, c, victim) =>
      (l, c) == (lib, channel) && Answer(s.slots, l, c, Limit(limits, l), victim) == Granted
    case OpenHls(key, _, _, _, victim) =>
      && (key.lib, key.channel) == (lib, channel) && key !in s.slots.sessions
      && Answer(s.slots, lib, channel, Limit(limits, lib), victim) == Granted
    case _ => false
  }

  /** A session whose creation failed gives its slot back. */
  predicate GivesBack(step: Step) {
    step.OpenHls? && step.urlFound && !step.created
  }

  /** The step takes the channel's slot away. */
  predicate Frees(limits: Limits, s: State, step: Step, lib: Lib, channel: Channel) {
    match step
    case ProxyOpen(_, _, victim) => EvictsOn(victim, lib, channel)
    case ProxyClose(l, c) => (l, c) == (lib, channel)
    case OpenHls(_, _, _, _, victim) =>
      EvictsOn(victim, lib, channel) || (GivesBack(step) && GrantedTo(limits, s, step, lib, channel))
    case StopHls(l, c) => (l, c) == (lib, channel) && OnChannel(s.slots.sessions, l, c) != {}
    case CleanUp(key) => (key.lib, key.channel) == (lib, channel)
    case Touch(_, _) => false
  }

  lemma HeldAfterRelease(active: map<Lib, set<Channel>>, lib: Lib, channel: Channel, l: Lib)
    ensures Held(Released(active, lib, channel), l) == if l == lib then Held(active, l) - {channel} else Held(active, l)
  {
  }

  lemma HeldAfterAcquire(s: Slots, lib: Lib, channel: Channel, limit: nat, victim: Option<Key>, l: Lib, c: Channel)
    requires Chosen(s, lib, channel, limit, victim)
    ensures c in Held(Acquired(s, lib, channel, limit, victim).active, l) <==>
            if l == lib && c == channel then Answer(s, lib, channel, limit, victim) == Granted
            else c in Held(s.active, l) && !EvictsOn(victim, l, c)
  {
  }

  /** Opening a session in terms of the slot it acquires. */
  lemma OpenedVia(s: Slots, key: Key, limit: nat, urlFound: bool, created: bool, now: nat, victim: Option<Key>)
    ensures var t := Acquired(s, key.lib, key.channel, limit, victim);
      var after := Opened(s, key, limit, urlFound, created, now, victim);
      var granted := Answer(s, key.lib, key.channel, limit, victim) == Granted;
      if key in s.sessions then after == s
      else
        && after.active == (if granted && urlFound && !created then Released(t.active, key.lib, key.channel)
                            else t.active)
        && after.sessions == if granted && urlFound && created then t.sessions[key := now] else t.sessions
  {
    hide Acquired, Released, Answer;
  }

  lemma HeldAfterOpen(s: Slots, key: Key, limit: nat, urlFound: bool, created: bool, now: nat, victim: Option<Key>,
                      l: Lib, c: Channel)
    requires OpenChosen(s, key, limit, victim)
    ensures c in Held(Opened(s, key, limit, urlFound, created, now, victim).active, l) <==>
            if key !in s.sessions && l == key.lib && c == key.channel && Answer(s, l, c, limit, victim) == Granted
            then !urlFound || created
            else c in Held(s.active, l) && !EvictsOn(victim, l, c)
  {
    var t := Acquired(s, key.lib, key.channel, limit, victim);
    OpenedVia(s, key, limit, urlFound, created, now, victim);
    if key !in s.sessions {
      HeldAfterAcquire(s, key.lib, key.channel, limit, victim, l, c);
      HeldAfterRelease(t.active, key.lib, key.channel, l);
    }
    hide Opened, Acquired, Released, Held, Answer, Chosen;
  }

  /** After a step a channel holds a slot if it was granted one and kept it, or held one that was not taken away. */
  lemma HoldsAfter(limits: Limits, s: State, step: Step, lib: Lib, channel: Channel)
    requires Enabled(limits, s, step)
    ensures Holds(Next(limits, s, step), lib, channel) <==>
            if GrantedTo(limits, s, step, lib, channel) then !GivesBack(step)
            else Holds(s, lib, channel) && !Frees(limits, s, step, lib, channel)
  {
    hide Acquired, Opened, Released, Oldest;
    match step
    case ProxyOpen(l, c, victim) => HeldAfterAcquire(s.slots, l, c, Limit(limits, l), victim, lib, channel);
    case ProxyClose(l, c) => HeldAfterRelease(s.slots.active, l, c, lib);
    case OpenHls(key, urlFound, created, now, victim) =>
      HeldAfterOpen(s.slots, key, Limit(limits, key.lib), urlFound, created, now, victim, lib, channel);
    case StopHls(l, c) => HeldAfterRelease(s.slots.active, l, c, lib);
    case CleanUp(key) => HeldAfterRelease(s.slots.active, key.lib, key.channel, lib);
    case Touch(_, _) =>
  }

  predicate Creates(limits: Limits, s: State, step: Step) {
    && step.OpenHls? && step.urlFound && step.created
    && GrantedTo(limits, s, step, step.key.lib, step.key.channel)
  }

  /** The sessions a step ends. */
  function Ends(s: State, step: Step): set<Key> {
    match step
    case ProxyOpen(_, _, victim) => if victim.Some? then {victim.value} else {}
    case OpenHls(_, _, _, _, victim) => if victim.Some? then {victim.value} else {}
    case StopHls(l, c) => OnChannel(s.slots.sessions, l, c)
    case CleanUp(key) => {key}
    case _ => {}
  }

  lemma SessionsAfterAcquire(s: Slots, lib: Lib, channel: Channel, limit: nat, victim: Option<Key>)
    requires Chosen(s, lib, channel, limit, victim)
    ensures Acquired(s, lib, channel, limit, victim).sessions
         == s.sessions - if victim.Some? then {victim.value} else {}
  {
  }

  lemma SessionsAfterOpen(s: Slots, key: Key, limit: nat, urlFound: bool, created: bool, now: nat, victim: Option<Key>)
    requires OpenChosen(s, key, limit, victim)
    ensures Opened(s, key, limit, urlFound, created, now, victim).sessions.Keys
         == s.sessions.Keys - (if victim.Some? then {victim.value} else {})
            + if OpenOutcome(s, key, limit, urlFound, created, victim) == Created then {key} else {}
  {
    OpenedVia(s, key, limit, urlFound, created, now, victim);
    if key !in s.sessions { SessionsAfterAcquire(s, key.lib, key.channel, limit, victim); }
    hide Opened, Acquired, Released, Answer, Chosen;
  }

  lemma SessionsAfter(limits: Limits, s: State, step: Step)
    requires Enabled(limits, s, step)
    ensures Next(limits, s, step).slots.sessions.Keys
         == s.slots.sessions.Keys - Ends(s, step) + if Creates(limits, s, step) then {step.key} else {}
  {
    hide Acquired, Opened, Released, Held, Answer, Oldest, OnChannel;
    match step
    case ProxyOpen(l, c, victim) => SessionsAfterAcquire(s.slots, l, c, Limit(limits, l), victim);
    case OpenHls(key, urlFound, created, now, victim) =>
      SessionsAfterOpen(s.slots, key, Limit(limits, key.lib), urlFound, created, now, victim);
    case StopHls(l, c) =>
      var keys := OnChannel(s.slots.sessions, l, c);
      assert (s.slots.sessions - keys).Keys == s.slots.sessions.Keys - keys;
    case CleanUp(key) => assert (s.slots.sessions - {key}).Keys == s.slots.sessions.Keys - {key};
    case Touch(key, now) => assert s.slots.sessions[key := now].Keys == s.slots.sessions.Keys + {key};
    case ProxyClose(_, _) =>
  }

  /** The consumers of a channel other than those the step ends. */
  ghost predicate Remains(s: State, step: Step, lib: Lib, channel: Channel) {
    || (if step == ProxyClose(lib, channel) then s.proxies[(lib, channel)] >= 2 else (lib, channel) in s.proxies)
    || exists k :: k in s.slots.sessions && k !in Ends(s, step) && k.lib == lib && k.channel == channel
  }

  ghost predicate Adds(limits: Limits, s: State, step: Step, lib: Lib, channel: Channel) {
    GrantedTo(limits, s, step, lib, channel) && (step.ProxyOpen? || Creates(limits, s, step))
  }

  lemma ProxiesAfter(limits: Limits, s: State, step: Step, lib: Lib, channel: Channel)
    requires Enabled(limits, s, step)
    ensures (lib, channel) in Next(limits, s, step).proxies <==>
            || (step.ProxyOpen? && GrantedTo(limits, s, step, lib, channel))
            || if step == ProxyClose(lib, channel) then s.proxies[(lib, channel)] >= 2 else (lib, channel) in s.proxies
  {
    hide Acquired, Opened, Released, Oldest;
  }

  lemma PlayingAfter(m: map<Key, nat>, m': map<Key, nat>, gone: set<Key>, added: set<Key>, lib: Lib, channel: Channel)
    requires m'.Keys == m.Keys - gone + added
    ensures Playing(m', lib, channel) <==>
            || (exists k :: k in added && k.lib == lib && k.channel == channel)
            || exists k :: k in m && k !in gone && k.lib == lib && k.channel == channel
  {
    assert forall k :: k in m' <==> (k in m && k !in gone) || k in added;
  }

  lemma ConsumedAfter(limits: Limits, s: State, step: Step, lib: Lib, channel: Channel)
    requires Enabled(limits, s, step)
    ensures Consumed(Next(limits, s, step), lib, channel) <==>
            Adds(limits, s, step, lib, channel) || Remains(s, step, lib, channel)
  {
    var t := Next(limits, s, step);
    var added := if Creates(limits, s, step) then {step.key} else {};
    SessionsAfter(limits, s, step);
    ProxiesAfter(limits, s, step, lib, channel);
    hide Next, Enabled, Ends, Answer;
    PlayingAfter(s.slots.sessions, t.slots.sessions, Ends(s, step), added, lib, channel);
    if Creates(limits, s, step) { assert step.key in added; }
  }

  // ---------------------------------------------------------------------------
  // Every consumer holds a slot
  // ---------------------------------------------------------------------------

  /** The step takes a slot from a channel that somebody else goes on consuming. */
  ghost predicate Uncovers(limits: Limits, s: State, step: Step) {
    match step
    case ProxyOpen(_, _, victim) => victim.Some? && Shared(s, victim.value)
    case ProxyClose(lib, c) => s.proxies[(lib, c)] >= 2 || Playing(s.slots.sessions, lib, c)
    case OpenHls(key, _, _, _, victim) =>
      || (victim.Some? && Shared(s, victim.value))
      || (GivesBack(step) && GrantedTo(limits, s, step, key.lib, key.channel) && Consumed(s, key.lib, key.channel))
    case StopHls(lib, c) => Playing(s.slots.sessions, lib, c) && (lib, c) in s.proxies
    case CleanUp(key) => Shared(s, key)
    case Touch(_, _) => false
  }

  ghost predicate LosesSlot(limits: Limits, s: State, step: Step, lib: Lib, c: Channel)
    requires Enabled(limits, s, step)
  {
    Consumed(Next(limits, s, step), lib, c) && !Holds(Next(limits, s, step), lib, c)
  }

  /** In a covered state a channel loses a slot it needs exactly when its slot goes and somebody remains. */
  lemma LosesSlotIff(limits: Limits, s: State, step: Step, lib: Lib, c: Channel)
    requires Covered(s) && Enabled(limits, s, step)
    ensures LosesSlot(limits, s, step, lib, c) <==>
            Frees(limits, s, step, lib, c) && !Adds(limits, s, step, lib, c) && Remains(s, step, lib, c)
  {
    HoldsAfter(limits, s, step, lib, c);
    ConsumedAfter(limits, s, step, lib, c);
    assert Remains(s, step, lib, c) ==> Consumed(s, lib, c);
  }

  /** The channel whose slot a step can take from remaining consumers. */
  function At(step: Step, evicted: bool): (Lib, Channel) {
    match step
    case ProxyOpen(lib, c, victim) =>
      if evicted && victim.Some? then (victim.value.lib, victim.value.channel) else (lib, c)
    case OpenHls(key, _, _, _, victim) =>
      if evicted && victim.Some? then (victim.value.lib, victim.value.channel) else (key.lib, key.channel)
    case ProxyClose(lib, c) => (lib, c)
    case StopHls(lib, c) => (lib, c)
    case CleanUp(key) => (key.lib, key.channel)
    case Touch(key, _) => (key.lib, key.channel)
  }

  /** A victim's channel holds a slot in a covered state, so it is not the channel asked for. */
  lemma VictimElsewhere(limits: Limits, s: State, step: Step)
    requires Covered(s) && Enabled(limits, s, step)
    requires (step.ProxyOpen? || step.OpenHls?) && step.victim.Some?
    ensures Holds(s, step.victim.value.lib, step.victim.value.channel)
    ensures At(step, true) != At(step, false)
  {
    var v := step.victim.value;
    assert Playing(s.slots.sessions, v.lib, v.channel);
    assert Consumed(s, v.lib, v.channel);
  }

  lemma UncoversLoses(limits: Limits, s: State, step: Step) returns (lib: Lib, c: Channel)
    requires Covered(s) && Enabled(limits, s, step) && Uncovers(limits, s, step)
    ensures LosesSlot(limits, s, step, lib, c)
  {
    var evicted := (step.ProxyOpen? || step.OpenHls?) && step.victim.Some? && Shared(s, step.victim.value);
    lib, c := At(step, evicted).0, At(step, evicted).1;
    if (step.ProxyOpen? || step.OpenHls?) && step.victim.Some? { VictimElsewhere(limits, s, step); }
    if step.StopHls? {
      var k :| k in s.slots.sessions && k.lib == lib && k.channel == c;
      assert k in OnChannel(s.slots.sessions, lib, c);
    }
    LosesSlotIff(limits, s, step, lib, c);
    hide LosesSlot;
  }

  lemma LosesUncovers(limits: Limits, s: State, step: Step, lib: Lib, c: Channel)
    requires Covered(s) && Enabled(limits, s, step) && LosesSlot(limits, s, step, lib, c)
    ensures Uncovers(limits, s, step)
  {
    LosesSlotIff(limits, s, step, lib, c);
  }

  /**
   * After any step from a state in which every consumer holds a slot, every
   * consumer still does if and only if no slot was taken from a channel that
   * somebody else goes on consuming.
   */
  lemma StepKeepsCoveredIff(limits: Limits, s: State, step: Step)
    requires Covered(s) && Enabled(limits, s, step)
    ensures Covered(Next(limits, s, step)) <==> !Uncovers(limits, s, step)
  {
    if Uncovers(limits, s, step) {
      var lib, c := UncoversLoses(limits, s, step);
    } else {
      forall lib, c | Consumed(Next(limits, s, step), lib, c) ensures Holds(Next(limits, s, step), lib, c) {
        if LosesSlot(limits, s, step, lib, c) { LosesUncovers(limits, s, step, lib, c); }
      }
    }
  }

  /**
   * Along a run every consumer always holds a slot if and only if no step takes
   * a slot from a channel that somebody else goes on consuming.
   */
  lemma RunCoveredIff(limits: Limits, steps: seq<Step>, states: seq<State>)
    requires Run(limits, steps, states)
    ensures (forall n :: 0 <= n < |states| ==> Covered(states[n])) <==>
            (forall n :: 0 <= n < |steps| ==> !Uncovers(limits, states[n], steps[n]))
  {
    if forall n :: 0 <= n < |states| ==> Covered(states[n]) {
      forall n | 0 <= n < |steps| ensures !Uncovers(limits, states[n], steps[n]) {
        assert Follows(limits, states[n], steps[n], states[n + 1]);
        StepKeepsCoveredIff(limits, states[n], steps[n]);
      }
    }
    if forall n :: 0 <= n < |steps| ==> !Uncovers(limits, states[n], steps[n]) {
      forall n: nat | n < |states| ensures Covered(states[n]) { CoveredSoFar(limits, steps, states, n); }
    }
  }

  lemma {:induction false} CoveredSoFar(limits: Limits, steps: seq<Step>, states: seq<State>, n: nat)
    requires Run(limits, steps, states) && n < |states|
    requires forall m :: 0 <= m < n ==> !Uncovers(limits, states[m], steps[m])
    ensures Covered(states[n])
  {
    if n > 0 {
      CoveredSoFar(limits, steps, states, n - 1);
      assert Follows(limits, states[n - 1], steps[n - 1], states[n]);
      StepKeepsCoveredIff(limits, states[n - 1], steps[n - 1]);
    }
  }

  // ---------------------------------------------------------------------------
  // Limits
  // ---------------------------------------------------------------------------

  ghost predicate WithinLimits(limits: Limits, s: State) {
    forall lib :: |Held(s.slots.active, lib)| <= Limit(limits, lib)
  }

  /** An acquisition from within the limit exceeds it if and only if it evicts a victim whose channel holds no slot. */
  lemma AcquireExceedsIff(s: Slots, lib: Lib, channel: Channel, limit: nat, victim: Option<Key>)
    requires Chosen(s, lib, channel, limit, victim) && |Held(s.active, lib)| <= limit
    ensures |Held(Acquired(s, lib, channel, limit, victim).active, lib)| > limit <==>
            victim.Some? && victim.value.channel !in Held(s.active, lib)
  {
    if victim.Some? {
      var held, gone := Held(s.active, lib), victim.value.channel;
      if gone in held {
        assert held == (held - {gone}) + {gone};
      } else {
        assert held - {gone} == held;
      }
    }
  }

  /** The step evicts a victim whose channel holds no slot, and keeps the slot it takes. */
  predicate Exceeds(s: State, step: Step) {
    match step
    case ProxyOpen(lib, _, victim) => victim.Some? && victim.value.channel !in Held(s.slots.active, lib)
    case OpenHls(key, _, _, _, victim) =>
      victim.Some? && victim.value.channel !in Held(s.slots.active, key.lib) && !GivesBack(step)
    case _ => false
  }

  lemma SubsetSize<T>(a: set<T>, b: set<T>)
    requires a <= b
    ensures |a| <= |b|
  {
    assert b == a + (b - a);
  }

  /** A slot taken and given back leaves a library no fuller than it was. */
  lemma GivenBackFits(s: Slots, key: Key, limit: nat, now: nat, victim: Option<Key>)
    requires OpenChosen(s, key, limit, victim) && |Held(s.active, key.lib)| <= limit
    ensures |Held(Opened(s, key, limit, true, false, now, victim).active, key.lib)| <= limit
  {
    var after := Held(Opened(s, key, limit, true, false, now, victim).active, key.lib);
    forall c | c in after ensures c in Held(s.active, key.lib) {
      HeldAfterOpen(s, key, limit, true, false, now, victim, key.lib, c);
    }
    SubsetSize(after, Held(s.active, key.lib));
  }

  lemma OpenExceedsIff(s: Slots, key: Key, limit: nat, urlFound: bool, created: bool, now: nat, victim: Option<Key>)
    requires OpenChosen(s, key, limit, victim) && |Held(s.active, key.lib)| <= limit
    ensures |Held(Opened(s, key, limit, urlFound, created, now, victim).active, key.lib)| > limit <==>
            victim.Some? && victim.value.channel !in Held(s.active, key.lib) && (!urlFound || created)
  {
    if urlFound && !created {
      GivenBackFits(s, key, limit, now, victim);
    } else if key !in s.sessions {
      AcquireExceedsIff(s, key.lib, key.channel, limit, victim);
      OpenedVia(s, key, limit, urlFound, created, now, victim);
      hide Opened, Acquired, Released, Held, Answer, Chosen;
    }
  }

  /** The library a step is about. */
  function LibOf(step: Step): Lib {
    match step
    case ProxyOpen(lib, _, _) => lib
    case ProxyClose(lib, _) => lib
    case OpenHls(key, _, _, _, _) => key.lib
    case StopHls(lib, _) => lib
    case CleanUp(key) => key.lib
    case Touch(key, _) => key.lib
  }

  lemma OtherLibsUntouched(limits: Limits, s: State, step: Step, l: Lib)
    requires Enabled(limits, s, step) && l != LibOf(step)
    ensures Held(Next(limits, s, step).slots.active, l) == Held(s.slots.active, l)
  {
    forall c ensures c in Held(Next(limits, s, step).slots.active, l) <==> c in Held(s.slots.active, l) {
      HoldsAfter(limits, s, step, l, c);
      assert Holds(Next(limits, s, step), l, c) <==> Holds(s, l, c);
    }
  }

  lemma ReleaseFits(active: map<Lib, set<Channel>>, lib: Lib, channel: Channel)
    ensures |Held(Released(active, lib, channel), lib)| <= |Held(active, lib)|
  {
    HeldAfterRelease(active, lib, channel, lib);
    SubsetSize(Held(Released(active, lib, channel), lib), Held(active, lib));
  }

  lemma OwnLibExceedsIff(limits: Limits, s: State, step: Step)
    requires WithinLimits(limits, s) && Enabled(limits, s, step)
    ensures |Held(Next(limits, s, step).slots.active, LibOf(step))| > Limit(limits, LibOf(step)) <==> Exceeds(s, step)
  {
    hide Acquired, Opened, Released, Held, Answer, Chosen, Oldest;
    match step
    case ProxyOpen(lib, c, victim) => AcquireExceedsIff(s.slots, lib, c, Limit(limits, lib), victim);
    case OpenHls(key, urlFound, created, now, victim) =>
      OpenExceedsIff(s.slots, key, Limit(limits, key.lib), urlFound, created, now, victim);
    case ProxyClose(lib, c) => ReleaseFits(s.slots.active, lib, c);
    case StopHls(lib, c) => ReleaseFits(s.slots.active, lib, c);
    case CleanUp(key) => ReleaseFits(s.slots.active, key.lib, key.channel);
    case Touch(_, _) =>
  }

  /** A step from within all limits leaves them exactly when it evicts a victim without slot and keeps its own. */
  lemma StepExceedsIff(limits: Limits, s: State, step: Step)
    requires WithinLimits(limits, s) && Enabled(limits, s, step)
    ensures WithinLimits(limits, Next(limits, s, step)) <==> !Exceeds(s, step)
  {
    OwnLibExceedsIff(limits, s, step);
    forall l | l != LibOf(step) ensures |Held(Next(limits, s, step).slots.active, l)| <= Limit(limits, l) {
      OtherLibsUntouched(limits, s, step, l);
    }
  }

  lemma {:induction false} WithinSoFar(limits: Limits, steps: seq<Step>, states: seq<State>, n: nat)
    requires Run(limits, steps, states) && n < |states|
    requires forall m :: 0 <= m < n ==> !Exceeds(states[m], steps[m])
    ensures WithinLimits(limits, states[n])
  {
    if n > 0 {
      WithinSoFar(limits, steps, states, n - 1);
      assert Follows(limits, states[n - 1], steps[n - 1], states[n]);
      StepExceedsIff(limits, states[n - 1], steps[n - 1]);
    }
  }

  /** A run stays within all limits if and only if no step of it evicts a victim without slot and keeps its own. */
  lemma RunWithinLimitsIff(limits: Limits, steps: seq<Step>, states: seq<State>)
    requires Run(limits, steps, states)
    ensures (forall n :: 0 <= n < |states| ==> WithinLimits(limits, states[n])) <==>
            (forall n :: 0 <= n < |steps| ==> !Exceeds(states[n], steps[n]))
  {
    if forall n :: 0 <= n < |states| ==> WithinLimits(limits, states[n]) {
      forall n | 0 <= n < |steps| ensures !Exceeds(states[n], steps[n]) {
        assert Follows(limits, states[n], steps[n], states[n + 1]);
        StepExceedsIff(limits, states[n], steps[n]);
      }
    }
    if forall n :: 0 <= n < |steps| ==> !Exceeds(states[n], steps[n]) {
      forall n: nat | n < |states| ensures WithinLimits(limits, states[n]) { WithinSoFar(limits, steps, states, n); }
    }
  }

  lemma CoveredNeverExceeds(limits: Limits, s: State, step: Step)
    requires Covered(s) && Enabled(limits, s, step)
    ensures !Exceeds(s, step)
  {
    if (step.ProxyOpen? || step.OpenHls?) && step.victim.Some? {
      VictimElsewhere(limits, s, step);
    }
  }

  /**
   * A run in which no slot is taken from remaining consumers stays within all
   * limits, and every session and proxied stream holds a slot throughout.
   */
  lemma LimitsHold(limits: Limits, steps: seq<Step>, states: seq<State>, n: nat)
    requires Run(limits, steps, states) && n < |states|
    requires forall m :: 0 <= m < |steps| ==> !Uncovers(limits, states[m], steps[m])
    ensures WithinLimits(limits, states[n]) && Covered(states[n])
  {
    RunCoveredIff(limits, steps, states);
    forall m | 0 <= m < n ensures !Exceeds(states[m], steps[m]) {
      assert Follows(limits, states[m], steps[m], states[m + 1]);
      CoveredNeverExceeds(limits, states[m], steps[m]);
    }
    WithinSoFar(limits, steps, states, n);
  }

  // ---------------------------------------------------------------------------
  // One consumer per channel
  // ---------------------------------------------------------------------------

  ghost predicate OneSessionEach(sessions: map<Key, nat>) {
    forall k, l :: k in sessions && l in sessions && k.lib == l.lib && k.channel == l.channel ==> k == l
  }

  /** No channel has two consumers. */
  ghost predicate Alone(s: State) {
    && (forall p :: p in s.proxies ==> s.proxies[p] == 1 && !Playing(s.slots.sessions, p.0, p.1))
    && OneSessionEach(s.slots.sessions)
  }

  lemma AloneNotShared(s: State, k: Key)
    requires Alone(s) && k in s.slots.sessions
    ensures !Shared(s, k)
  {
    var p := (k.lib, k.channel);
    assert Playing(s.slots.sessions, p.0, p.1);
  }

  /** The step opens nothing on a channel that is already consumed, except the session it returns. */
  ghost predicate OpensAlone(s: State, step: Step) {
    match step
    case ProxyOpen(lib, c, _) => !Consumed(s, lib, c)
    case OpenHls(key, _, _, _, _) => key in s.slots.sessions || !Consumed(s, key.lib, key.channel)
    case _ => true
  }

  lemma AloneNeverUncovers(limits: Limits, s: State, step: Step)
    requires Alone(s) && OpensAlone(s, step) && Enabled(limits, s, step)
    ensures !Uncovers(limits, s, step)
  {
    forall k | k in s.slots.sessions ensures !Shared(s, k) { AloneNotShared(s, k); }
    hide Acquired, Opened, Answer;
    match step
    case ProxyClose(lib, c) => assert s.proxies[(lib, c)] == 1 && !Playing(s.slots.sessions, (lib, c).0, (lib, c).1);
    case StopHls(lib, c) =>
      if (lib, c) in s.proxies { assert !Playing(s.slots.sessions, (lib, c).0, (lib, c).1); }
    case _ =>
  }

  /** How many proxied streams show the channel after a step. */
  lemma ProxyCountAfter(limits: Limits, s: State, step: Step, lib: Lib, c: Channel)
    requires Enabled(limits, s, step)
    ensures Next(limits, s, step).proxies[(lib, c)] <=
            s.proxies[(lib, c)] + if step.ProxyOpen? && GrantedTo(limits, s, step, lib, c) then 1 else 0
  {
    hide Acquired, Opened, Released, Oldest, Answer;
  }

  lemma SessionsStayAlone(m: map<Key, nat>, m': map<Key, nat>, gone: set<Key>, added: set<Key>)
    requires OneSessionEach(m) && m'.Keys == m.Keys - gone + added
    requires forall k, l :: k in added && l in added ==> k == l
    requires forall k :: k in added ==> !Playing(m, k.lib, k.channel)
    ensures OneSessionEach(m')
  {
    forall k, l | k in m' && l in m' && k.lib == l.lib && k.channel == l.channel ensures k == l {
      assert k in m'.Keys && l in m'.Keys;
    }
  }

  lemma ProxyStaysAlone(limits: Limits, s: State, step: Step, lib: Lib, c: Channel)
    requires Alone(s) && OpensAlone(s, step) && Enabled(limits, s, step) && (lib, c) in Next(limits, s, step).proxies
    ensures Next(limits, s, step).proxies[(lib, c)] == 1 && !Playing(Next(limits, s, step).slots.sessions, lib, c)
  {
    var t := Next(limits, s, step);
    var added := if Creates(limits, s, step) then {step.key} else {};
    ProxyCountAfter(limits, s, step, lib, c);
    SessionsAfter(limits, s, step);
    ProxiesAfter(limits, s, step, lib, c);
    hide Next, Enabled, Ends, Answer;
    PlayingAfter(s.slots.sessions, t.slots.sessions, Ends(s, step), added, lib, c);
    assert (lib, c) in s.proxies ==> !Playing(s.slots.sessions, (lib, c).0, (lib, c).1);
  }

  lemma StaysAlone(limits: Limits, s: State, step: Step)
    requires Alone(s) && OpensAlone(s, step) && Enabled(limits, s, step)
    ensures Alone(Next(limits, s, step))
  {
    var t := Next(limits, s, step);
    var added := if Creates(limits, s, step) then {step.key} else {};
    forall p | p in t.proxies ensures t.proxies[p] == 1 && !Playing(t.slots.sessions, p.0, p.1) {
      assert p == (p.0, p.1);
      ProxyStaysAlone(limits, s, step, p.0, p.1);
    }
    SessionsAfter(limits, s, step);
    hide Next, Enabled, Ends, Answer;
    SessionsStayAlone(s.slots.sessions, t.slots.sessions, Ends(s, step), added);
  }

  lemma {:induction false} AloneSoFar(limits: Limits, steps: seq<Step>, states: seq<State>, n: nat)
    requires Run(limits, steps, states) && n < |states|
    requires forall m :: 0 <= m < |steps| ==> OpensAlone(states[m], steps[m])
    ensures Alone(states[n])
  {
    if n > 0 {
      AloneSoFar(limits, steps, states, n - 1);
      assert Follows(limits, states[n - 1], steps[n - 1], states[n]);
      StaysAlone(limits, states[n - 1], steps[n - 1]);
    }
  }

  /** With one consumer per channel limits hold and every consumer holds a slot, in every state of every run. */
  lemma OneConsumerSuffices(limits: Limits, steps: seq<Step>, states: seq<State>, n: nat)
    requires Run(limits, steps, states) && n < |states|
    requires forall m :: 0 <= m < |steps| ==> OpensAlone(states[m], steps[m])
    ensures WithinLimits(limits, states[n]) && Covered(states[n])
  {
    forall m | 0 <= m < |steps| ensures !Uncovers(limits, states[m], steps[m]) {
      AloneSoFar(limits, steps, states, m);
      assert Follows(limits, states[m], steps[m], states[m + 1]);
      AloneNeverUncovers(limits, states[m], steps[m]);
    }
    LimitsHold(limits, steps, states, n);
  }

  // ---------------------------------------------------------------------------
  // Slots held by nobody
  // ---------------------------------------------------------------------------

  ghost predicate Leaked(s: State, lib: Lib, c: Channel) {
    Holds(s, lib, c) && !Consumed(s, lib, c)
  }

  /** The step's URL lookup fails after a slot was granted, and nobody consumes the channel. */
  ghost predicate FailedGrant(limits: Limits, s: State, step: Step, lib: Lib, c: Channel) {
    && step.OpenHls? && !step.urlFound && GrantedTo(limits, s, step, lib, c)
    && !Remains(s, step, lib, c)
  }

  /**
   * After a step a slot is held by nobody if and only if the step is a failed
   * lookup that was granted the slot, or nobody held it before and the step did
   * not grant it to anyone.
   */
  lemma StepLeaksIff(limits: Limits, s: State, step: Step, lib: Lib, c: Channel)
    requires Enabled(limits, s, step)
    ensures Leaked(Next(limits, s, step), lib, c) <==>
            || FailedGrant(limits, s, step, lib, c)
            || (Leaked(s, lib, c) && !GrantedTo(limits, s, step, lib, c))
  {
    HoldsAfter(limits, s, step, lib, c);
    ConsumedAfter(limits, s, step, lib, c);
    if step.StopHls? && Playing(s.slots.sessions, lib, c) {
      var k :| k in s.slots.sessions && k.lib == lib && k.channel == c;
      assert k in OnChannel(s.slots.sessions, lib, c);
    }
    hide Next, Answer, Acquired, Opened, Held, Released, Oldest, Chosen;
  }

  /** The last time the channel was granted a slot, its lookup failed and nobody else consumed it. */
  ghost predicate LastGrantFailed(limits: Limits, steps: seq<Step>, states: seq<State>, n: nat, lib: Lib, c: Channel)
    requires |states| == |steps| + 1 && n <= |steps|
  {
    exists m: nat :: m < n && FailedAt(limits, steps, states, m, n, lib, c)
  }

  ghost predicate FailedAt(limits: Limits, steps: seq<Step>, states: seq<State>, m: nat, n: nat, lib: Lib, c: Channel)
    requires |states| == |steps| + 1 && m < n <= |steps|
  {
    && FailedGrant(limits, states[m], steps[m], lib, c)
    && forall j :: m < j < n ==> !GrantedTo(limits, states[j], steps[j], lib, c)
  }

  lemma LastGrantStep(limits: Limits, steps: seq<Step>, states: seq<State>, n: nat, lib: Lib, c: Channel)
    requires |states| == |steps| + 1 && n < |steps|
    ensures LastGrantFailed(limits, steps, states, n + 1, lib, c) <==>
            || FailedGrant(limits, states[n], steps[n], lib, c)
            || (LastGrantFailed(limits, steps, states, n, lib, c) && !GrantedTo(limits, states[n], steps[n], lib, c))
  {
    hide FailedGrant, GrantedTo;
    if FailedGrant(limits, states[n], steps[n], lib, c) {
      assert FailedAt(limits, steps, states, n, n + 1, lib, c);
    }
    if m: nat :| m < n && FailedAt(limits, steps, states, m, n, lib, c) {
      if !GrantedTo(limits, states[n], steps[n], lib, c) { assert FailedAt(limits, steps, states, m, n + 1, lib, c); }
    }
    var next := n + 1;
    if m: nat :| m < next && FailedAt(limits, steps, states, m, next, lib, c) {
      if m < n { assert FailedAt(limits, steps, states, m, n, lib, c); }
    }
  }

  /** In every state of every run a slot is held by nobody exactly when its last grant was for a lookup that failed. */
  lemma {:induction false} LeakedIffLastGrantFailed(limits: Limits, steps: seq<Step>, states: seq<State>, n: nat,
                                                    lib: Lib, c: Channel)
    requires Run(limits, steps, states) && n <= |steps|
    ensures Leaked(states[n], lib, c) <==> LastGrantFailed(limits, steps, states, n, lib, c)
  {
    if n > 0 {
      var m := n - 1;
      LeakedIffLastGrantFailed(limits, steps, states, m, lib, c);
      assert Follows(limits, states[m], steps[m], states[m + 1]);
      StepLeaksIff(limits, states[m], steps[m], lib, c);
      LastGrantStep(limits, steps, states, m, lib, c);
      hide Leaked, FailedGrant, GrantedTo, LastGrantFailed, Next, Enabled;
    }
  }

  /**
   * In a state in which every consumer holds a slot, slots and consumers match
   * one to one if and only if no channel's last grant was for a failed lookup.
   */
  lemma SlotsMatchIff(limits: Limits, steps: seq<Step>, states: seq<State>, n: nat)
    requires Run(limits, steps, states) && n <= |steps| && Covered(states[n])
    ensures (forall lib, c :: Holds(states[n], lib, c) <==> Consumed(states[n], lib, c)) <==>
            (forall lib, c :: !LastGrantFailed(limits, steps, states, n, lib, c))
  {
    forall lib, c ensures LastGrantFailed(limits, steps, states, n, lib, c) <==>
                          Holds(states[n], lib, c) && !Consumed(states[n], lib, c)
    {
      LeakedIffLastGrantFailed(limits, steps, states, n, lib, c);
    }
  }

  // ---------------------------------------------------------------------------
  // Runs that show the failures
  // ---------------------------------------------------------------------------

  /** After a failed lookup with one stream allowed, every other channel is refused, although nothing plays. */
  lemma FailedLookupBlocksLibrary(key: Key, limits: Limits, other: Channel, victim: Option<Key>)
    requires Limit(limits, key.lib) == 1 && other != key.channel
    ensures var open := OpenHls(key, false, true, 0, None);
      && Enabled(limits, EMPTY, open)
      && var s := Next(limits, EMPTY, open).slots;
         && s.sessions == map[]
         && (Chosen(s, key.lib, other, 1, victim) ==> Answer(s, key.lib, other, 1, victim) == Refused)
  {
  }

  const HD := Key("tv", "a", "HD")
  const SD := Key("tv", "a", "SD")

  function TwoQualities(): seq<Step> {
    [OpenHls(HD, true, true, 0, None), OpenHls(SD, true, true, 5, None), CleanUp(HD)]
  }

  /** Two qualities of one channel are opened, the stale one is cleaned up, and the other goes on without a slot. */
  lemma SharedChannelLosesSlot()
    ensures exists states: seq<State> ::
      && Run(map[], TwoQualities(), states)
      && SD in states[3].slots.sessions && !Holds(states[3], SD.lib, SD.channel)
  {
    var steps := TwoQualities();
    var s1 := Next(map[], EMPTY, steps[0]);
    var s2 := Next(map[], s1, steps[1]);
    var s3 := Next(map[], s2, steps[2]);
    assert s1.slots == Slots(map["tv" := {"a"}], map[HD := 0]);
    assert s2.slots == Slots(map["tv" := {"a"}], map[HD := 0, SD := 5]);
    HeldAfterRelease(s2.slots.active, "tv", "a", "tv");
    var states := [EMPTY, s1, s2, s3];
    forall k | 0 <= k < 3 ensures Follows(map[], states[k], steps[k], states[k + 1]) {}
    assert Run(map[], steps, states);
  }
}
