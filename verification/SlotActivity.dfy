/** Whom an acquisition ends and when it is refused, told from the steps of the run alone. */
module SlotActivity {
  import opened Prelude
  import opened StreamSlots
  import opened SlotLaws

  // ---------------------------------------------------------------------------
  // The least recently active session is evicted
  // ---------------------------------------------------------------------------

  /** The step touches the session, or creates it, at time t. */
  ghost predicate Activity(s: State, step: Step, s': State, k: Key, t: nat) {
    || step == Touch(k, t)
    || (step.OpenHls? && step.key == k && step.now == t && k !in s.slots.sessions && k in s'.slots.sessions)
  }

  ghost predicate ActiveAt(steps: seq<Step>, states: seq<State>, m: nat, k: Key, t: nat)
    requires |states| == |steps| + 1 && m < |steps|
  {
    Activity(states[m], steps[m], states[m + 1], k, t)
  }

  /** Step m touched or created the session at time t, and no step before n did so again. */
  ghost predicate LastActiveAt(steps: seq<Step>, states: seq<State>, n: nat, k: Key, m: nat, t: nat)
    requires |states| == |steps| + 1 && n <= |steps|
  {
    && m < n && ActiveAt(steps, states, m, k, t)
    && forall j: nat, u: nat :: m < j < n ==> !ActiveAt(steps, states, j, k, u)
  }

  /** Before step n the session was last touched or created at time t. */
  ghost predicate LastActive(steps: seq<Step>, states: seq<State>, n: nat, k: Key, t: nat)
    requires |states| == |steps| + 1 && n <= |steps|
  {
    exists m: nat :: LastActiveAt(steps, states, n, k, m, t)
  }

  lemma OpenKeepsTimes(limits: Limits, s: State, step: Step, k: Key)
    requires Enabled(limits, s, step) && step.OpenHls? && k in Next(limits, s, step).slots.sessions
    ensures Next(limits, s, step).slots.sessions[k] ==
            if k in s.slots.sessions then s.slots.sessions[k] else step.now
    ensures k !in s.slots.sessions ==> k == step.key
  {
    var limit := Limit(limits, step.key.lib);
    OpenedVia(s.slots, step.key, limit, step.urlFound, step.created, step.now, step.victim);
    if step.key !in s.slots.sessions {
      SessionsAfterAcquire(s.slots, step.key.lib, step.key.channel, limit, step.victim);
    }
    hide Acquired, Released, Held, Answer, Chosen, Opened;
  }

  /** What a step does to one session's time of last activity. */
  lemma TimeAfter(limits: Limits, s: State, step: Step, k: Key, t: nat)
    requires Enabled(limits, s, step) && k in Next(limits, s, step).slots.sessions
    ensures Activity(s, step, Next(limits, s, step), k, t) ==> Next(limits, s, step).slots.sessions[k] == t
    ensures (forall u: nat :: !Activity(s, step, Next(limits, s, step), k, u)) ==>
              k in s.slots.sessions && Next(limits, s, step).slots.sessions[k] == s.slots.sessions[k]
  {
    match step
    case OpenHls(key, _, _, now, _) =>
      OpenKeepsTimes(limits, s, step, k);
      hide Next, Enabled;
      assert k != key || k in s.slots.sessions || Activity(s, step, Next(limits, s, step), k, now);
    case ProxyOpen(lib, c, victim) =>
      SessionsAfterAcquire(s.slots, lib, c, Limit(limits, lib), victim);
      hide Acquired, Released, Held, Answer, Chosen;
    case Touch(key, now) => assert k == key ==> Activity(s, step, Next(limits, s, step), k, now);
    case _ => hide Released;
  }

  /** The table keeps exactly the time of each session's last touch or creation. */
  lemma {:induction false} TimeIsLastActivity(limits: Limits, steps: seq<Step>, states: seq<State>, n: nat, k: Key)
    requires Run(limits, steps, states) && n <= |steps| && k in states[n].slots.sessions
    ensures LastActive(steps, states, n, k, states[n].slots.sessions[k])
    decreases n
  {
    var m := n - 1;
    assert Follows(limits, states[m], steps[m], states[n]);
    var time := states[n].slots.sessions[k];
    if u: nat :| ActiveAt(steps, states, m, k, u) {
      TimeAfter(limits, states[m], steps[m], k, u);
      assert LastActiveAt(steps, states, n, k, m, time);
    } else {
      forall u: nat ensures !Activity(states[m], steps[m], states[n], k, u) {
        assert !ActiveAt(steps, states, m, k, u);
      }
      TimeAfter(limits, states[m], steps[m], k, 0);
      TimeIsLastActivity(limits, steps, states, m, k);
      var l: nat :| LastActiveAt(steps, states, m, k, l, time);
      assert LastActiveAt(steps, states, n, k, l, time);
    }
  }

  /** There is one last activity. */
  lemma LastActivityUnique(steps: seq<Step>, states: seq<State>, n: nat, k: Key, t: nat, u: nat)
    requires |states| == |steps| + 1 && n <= |steps|
    requires LastActive(steps, states, n, k, t) && LastActive(steps, states, n, k, u)
    ensures t == u
  {
    var m: nat :| LastActiveAt(steps, states, n, k, m, t);
    var l: nat :| LastActiveAt(steps, states, n, k, l, u);
    assert m == l;
    assert ActiveAt(steps, states, m, k, t) && ActiveAt(steps, states, m, k, u);
  }

  /** The session a step evicts, if any. */
  function Evicted(step: Step): Option<Key> {
    match step
    case ProxyOpen(_, _, victim) => victim
    case OpenHls(_, _, _, _, victim) => victim
    case _ => None
  }

  function LibOf(step: Step): Lib {
    match step
    case ProxyOpen(lib, _, _) => lib
    case OpenHls(key, _, _, _, _) => key.lib
    case ProxyClose(lib, _) => lib
    case StopHls(lib, _) => lib
    case CleanUp(key) => key.lib
    case Touch(key, _) => key.lib
  }

  lemma EvictedIsOldest(limits: Limits, s: State, step: Step)
    requires Enabled(limits, s, step) && Evicted(step).Some?
    ensures Oldest(s.slots.sessions, LibOf(step), Evicted(step).value)
  {
    hide Oldest;
  }

  /** In every run the session evicted is one of the library, and no other of the library was inactive for longer. */
  lemma EvictedLeastActive(limits: Limits, steps: seq<Step>, states: seq<State>, n: nat, k: Key, tv: nat, tk: nat)
    requires Run(limits, steps, states) && n < |steps| && Evicted(steps[n]).Some?
    requires k in states[n].slots.sessions && k.lib == LibOf(steps[n])
    requires LastActive(steps, states, n, Evicted(steps[n]).value, tv) && LastActive(steps, states, n, k, tk)
    ensures Evicted(steps[n]).value in states[n].slots.sessions && Evicted(steps[n]).value.lib == LibOf(steps[n])
    ensures tv <= tk
  {
    var v := Evicted(steps[n]).value;
    assert Follows(limits, states[n], steps[n], states[n + 1]);
    EvictedIsOldest(limits, states[n], steps[n]);
    TimeIsLastActivity(limits, steps, states, n, v);
    TimeIsLastActivity(limits, steps, states, n, k);
    hide LastActive;
    LastActivityUnique(steps, states, n, v, tv, states[n].slots.sessions[v]);
    LastActivityUnique(steps, states, n, k, tk, states[n].slots.sessions[k]);
  }

  /** A session active later than another of its library is not the one evicted. */
  lemma RecentlyActiveStays(limits: Limits, steps: seq<Step>, states: seq<State>, n: nat, k: Key, tk: nat, other: Key,
                            to: nat)
    requires Run(limits, steps, states) && n < |steps|
    requires k in states[n].slots.sessions && other in states[n].slots.sessions && k.lib == other.lib
    requires LastActive(steps, states, n, k, tk) && LastActive(steps, states, n, other, to) && to < tk
    ensures Evicted(steps[n]) != Some(k)
  {
    if Evicted(steps[n]) == Some(k) {
      assert Follows(limits, states[n], steps[n], states[n + 1]);
      EvictedIsOldest(limits, states[n], steps[n]);
      hide LastActive, Follows, Run, Enabled;
      EvictedLeastActive(limits, steps, states, n, other, tk, to);
      assert false;
    }
  }

  /** In particular one just touched, at a time later than the last activity of another session of its library. */
  lemma JustTouchedStays(limits: Limits, steps: seq<Step>, states: seq<State>, n: nat, k: Key, now: nat, other: Key,
                         to: nat)
    requires Run(limits, steps, states) && 0 < n < |steps| && steps[n - 1] == Touch(k, now)
    requires other in states[n].slots.sessions && k.lib == other.lib
    requires LastActive(steps, states, n, other, to) && to < now
    ensures k in states[n].slots.sessions && Evicted(steps[n]) != Some(k)
  {
    assert Follows(limits, states[n - 1], steps[n - 1], states[n]);
    var m: nat := n - 1;
    assert ActiveAt(steps, states, m, k, now);
    assert LastActiveAt(steps, states, n, k, m, now);
    hide LastActiveAt;
    RecentlyActiveStays(limits, steps, states, n, k, now, other, to);
  }

  // ---------------------------------------------------------------------------
  // When a request is refused, and when it evicts
  // ---------------------------------------------------------------------------

  /** Exactly the channels somebody consumes hold a slot. */
  ghost predicate SlotsMatch(s: State) {
    forall lib, c :: Holds(s, lib, c) <==> Consumed(s, lib, c)
  }

  /** As many channels of the library are consumed as it allows at once, one if it does not say. */
  ghost predicate Full(limits: Limits, s: State, lib: Lib) {
    exists busy: set<Channel> ::
      && |busy| >= (if lib in limits then limits[lib] else 1)
      && forall c :: c in busy ==> Consumed(s, lib, c)
  }

  /** The step asks for a slot for the channel. */
  predicate Asks(s: State, step: Step, lib: Lib, c: Channel) {
    match step
    case ProxyOpen(l, d, _) => l == lib && d == c
    case OpenHls(key, _, _, _, _) => key.lib == lib && key.channel == c && key !in s.slots.sessions
    case _ => false
  }

  lemma FullIff(limits: Limits, s: State, lib: Lib)
    requires SlotsMatch(s)
    ensures Full(limits, s, lib) <==> |Held(s.slots.active, lib)| >= Limit(limits, lib)
  {
    var held := Held(s.slots.active, lib);
    assert forall c :: c in held <==> Consumed(s, lib, c) by {
      assert forall c :: Holds(s, lib, c) <==> Consumed(s, lib, c);
    }
    hide Consumed, Held;
    if busy: set<Channel> :| |busy| >= Limit(limits, lib) && forall c :: c in busy ==> Consumed(s, lib, c) {
      assert busy <= held;
      SubsetSize(busy, held);
    }
  }

  /**
   * Where slots and consumers match: a request is refused exactly when its
   * channel is not consumed, the library is full and none of its consumers is a
   * session; a session is evicted exactly when it is full and one of them is.
   */
  lemma RefusedIff(limits: Limits, s: State, step: Step, lib: Lib, c: Channel)
    requires Enabled(limits, s, step) && SlotsMatch(s) && Asks(s, step, lib, c)
    ensures !GrantedTo(limits, s, step, lib, c) <==>
            !Consumed(s, lib, c) && Full(limits, s, lib) && forall k :: k in s.slots.sessions ==> k.lib != lib
    ensures Evicted(step).Some? <==>
            !Consumed(s, lib, c) && Full(limits, s, lib) && exists k :: k in s.slots.sessions && k.lib == lib
  {
    FullIff(limits, s, lib);
    assert Holds(s, lib, c) <==> Consumed(s, lib, c);
    hide Full, Consumed, SlotsMatch, Oldest, Held;
  }
}
