/**
 * Stream slots of one library at the grain of the code's lock sections.  Eviction
 * drops the slot lock, only cancels the victim, and re-locks; the victim's
 * supervisor removes the session and releases its slot some time later.
 */
module StreamRaces {
  type Channel = string

  /** A session of the library: channel and quality. */
  datatype Key = Key(channel: Channel, quality: string)

  /** The supervisor task of one created session. */
  datatype Supervisor = Supervisor(key: Key, phase: Phase)

  datatype Phase = Running | Cancelled | Unlisted | Ended

  /** A session in the table: its supervisor, whose token it holds, and its last activity. */
  datatype Session = Session(supervisor: nat, lastActive: nat)

  /** An acquisition that found the library full and dropped the slot lock. */
  datatype Eviction =
    | Chosen(channel: Channel, victim: Key)
    | Stopped(channel: Channel, victim: Key)
    | Swapped

  /** blind counts evictions whose victim held no slot when the lock was taken again. */
  datatype State = State(limit: nat, active: set<Channel>, sessions: map<Key, Session>,
                         supervisors: seq<Supervisor>, evictions: seq<Eviction>, blind: nat)

  datatype Step =
    | Acquire(channel: Channel)                       // fast path: already in, or room left
    | BeginEvict(channel: Channel, victim: Key)
    | StopVictim(e: nat)
    | Swap(e: nat)
    | Create(key: Key, now: nat)
    | Touch(key: Key, now: nat)
    | Cancel(i: nat)                                  // stop_session from cleanup or a stop request
    | Unlist(i: nat)                                  // supervisor removes its key from the table
    | SupervisorRelease(i: nat)
    | Release(channel: Channel)                       // guard drop, error paths, cleanup, stop request

  predicate Oldest(sessions: map<Key, Session>, victim: Key) {
    victim in sessions && forall k :: k in sessions ==> sessions[victim].lastActive <= sessions[k].lastActive
  }

  predicate Enabled(s: State, step: Step) {
    match step
    case Acquire(c) => c in s.active || |s.active| < s.limit
    case BeginEvict(c, v) => c !in s.active && |s.active| >= s.limit && Oldest(s.sessions, v)
    case StopVictim(e) => e < |s.evictions| && s.evictions[e].Chosen?
    case Swap(e) => e < |s.evictions| && s.evictions[e].Stopped?
    case Create(_, _) => true
    case Touch(k, _) => k in s.sessions
    case Cancel(i) => i < |s.supervisors| && s.supervisors[i].phase == Running
    case Unlist(i) => i < |s.supervisors| && (s.supervisors[i].phase == Running || s.supervisors[i].phase == Cancelled)
    case SupervisorRelease(i) => i < |s.supervisors| && s.supervisors[i].phase == Unlisted
    case Release(_) => true
  }

  function CancelSession(s: State, k: Key): seq<Supervisor> {
    if k in s.sessions && s.sessions[k].supervisor < |s.supervisors|
       && s.supervisors[s.sessions[k].supervisor].phase == Running
    then s.supervisors[s.sessions[k].supervisor := s.supervisors[s.sessions[k].supervisor].(phase := Cancelled)]
    else s.supervisors
  }

  function Next(s: State, step: Step): State
    requires Enabled(s, step)
  {
    match step
    case Acquire(c) => s.(active := s.active + {c})
    case BeginEvict(c, v) => s.(evictions := s.evictions + [Chosen(c, v)])
    case StopVictim(e) =>
      s.(supervisors := CancelSession(s, s.evictions[e].victim),
         evictions := s.evictions[e := Stopped(s.evictions[e].channel, s.evictions[e].victim)])
    case Swap(e) =>
      var victim := s.evictions[e].victim.channel;
      s.(active := s.active - {victim} + {s.evictions[e].channel},
         blind := if victim in s.active then s.blind else s.blind + 1,
         evictions := s.evictions[e := Swapped])
    case Create(k, now) =>
      s.(sessions := s.sessions[k := Session(|s.supervisors|, now)],
         supervisors := s.supervisors + [Supervisor(k, Running)])
    case Touch(k, now) => s.(sessions := s.sessions[k := s.sessions[k].(lastActive := now)])
    case Cancel(i) => s.(supervisors := s.supervisors[i := s.supervisors[i].(phase := Cancelled)])
    case Unlist(i) =>
      s.(sessions := s.sessions - {s.supervisors[i].key},
         supervisors := s.supervisors[i := s.supervisors[i].(phase := Unlisted)])
    case SupervisorRelease(i) =>
      s.(active := s.active - {s.supervisors[i].key.channel},
         supervisors := s.supervisors[i := s.supervisors[i].(phase := Ended)])
    case Release(c) => s.(active := s.active - {c})
  }

  function Init(limit: nat): State {
    State(limit, {}, map[], [], [], 0)
  }

  ghost predicate Run(s: State, steps: seq<Step>, s': State)
    decreases |steps|
  {
    if steps == [] then s' == s else Enabled(s, steps[0]) && Run(Next(s, steps[0]), steps[1..], s')
  }

  /** A swap that adds a slot without freeing one while the library is full. */
  predicate BlindSwap(s: State, step: Step) {
    && step.Swap? && Enabled(s, step)
    && s.evictions[step.e].victim.channel !in s.active
    && s.evictions[step.e].channel !in s.active
    && |s.active| >= s.limit
  }

  lemma RemovedSize(a: set<Channel>, c: Channel)
    ensures |a - {c}| == if c in a then |a| - 1 else |a|
  {
    if c in a { assert a == (a - {c}) + {c}; } else { assert a - {c} == a; }
  }

  /** What one step does to the number of slots held. */
  lemma StepCounts(s: State, step: Step)
    requires Enabled(s, step)
    ensures |Next(s, step).active| <= |s.active| + 1
    ensures |Next(s, step).active| > s.limit && |Next(s, step).active| > |s.active| <==> BlindSwap(s, step)
    ensures step.Swap? && s.evictions[step.e].victim.channel in s.active ==> |Next(s, step).active| <= |s.active|
  {
    match step
    case Swap(e) => RemovedSize(s.active, s.evictions[e].victim.channel);
    case SupervisorRelease(i) => RemovedSize(s.active, s.supervisors[i].key.channel);
    case Release(c) => RemovedSize(s.active, c);
    case Acquire(c) => if c in s.active { assert s.active + {c} == s.active; }
    case _ =>
  }

  /** In every interleaving: at most the limit, plus one for every eviction of a victim without slot. */
  lemma {:induction false} SlotsBounded(limit: nat, s: State, steps: seq<Step>, s': State)
    requires Run(s, steps, s') && s.limit == limit && |s.active| <= limit + s.blind
    ensures s'.limit == limit && |s'.active| <= limit + s'.blind
    decreases |steps|
  {
    if steps != [] {
      StepCounts(s, steps[0]);
      SlotsBounded(limit, Next(s, steps[0]), steps[1..], s');
    }
  }

  lemma ReachableSlotsBounded(limit: nat, steps: seq<Step>, s: State)
    requires Run(Init(limit), steps, s)
    ensures |s.active| <= limit + s.blind
  {
    SlotsBounded(limit, Init(limit), steps, s);
  }

  /** A library goes over its limit exactly at a blind swap: nothing else can take it there. */
  lemma {:induction false} OverLimitNeedsBlindSwap(s: State, steps: seq<Step>, s': State) returns (k: nat, at: State)
    requires Run(s, steps, s') && |s.active| <= s.limit && |s'.active| > s.limit
    ensures k < |steps| && Run(s, steps[..k], at) && BlindSwap(at, steps[k])
    decreases |steps|
  {
    StepCounts(s, steps[0]);
    var t := Next(s, steps[0]);
    if |t.active| > s.limit {
      k, at := 0, s;
    } else {
      k, at := OverLimitNeedsBlindSwap(t, steps[1..], s');
      assert steps[1..][..k] == steps[..k + 1][1..];
      k := k + 1;
    }
  }

  lemma RunFrom(s: State, steps: seq<Step>, s': State)
    requires steps == [] ==> s == s'
    requires steps != [] ==> Enabled(s, steps[0]) && Run(Next(s, steps[0]), steps[1..], s')
    ensures Run(s, steps, s')
  {
  }

  lemma {:induction false} RunJoin(s: State, first: seq<Step>, mid: State, second: seq<Step>, s': State)
    requires Run(s, first, mid) && Run(mid, second, s')
    ensures Run(s, first + second, s')
    decreases |first|
  {
    hide Next, Enabled;
    if first == [] {
      assert first + second == second;
    } else {
      RunJoin(Next(s, first[0]), first[1..], mid, second, s');
      assert (first + second)[1..] == first[1..] + second;
    }
  }

  const A := Key("a", "best")
  const B := Key("b", "best")

  const FIRST_STREAM: seq<Step> := [Acquire("a"), Create(A, 1)]

  const WATCHING: State := State(1, {"a"}, map[A := Session(0, 1)], [Supervisor(A, Running)], [], 0)

  /** The first session is evicted for the second, but its supervisor has not reacted yet. */
  const FIRST_EVICTION: seq<Step> := [BeginEvict("b", A), StopVictim(0), Swap(0), Create(B, 2)]

  const AFTER_FIRST: State :=
    State(1, {"b"}, map[A := Session(0, 1), B := Session(1, 2)],
          [Supervisor(A, Cancelled), Supervisor(B, Running)], [Swapped], 0)

  lemma FirstStream()
    ensures Run(Init(1), FIRST_STREAM, WATCHING)
  {
    var s1 := Next(Init(1), Acquire("a"));
    assert Next(s1, Create(A, 1)) == WATCHING;
    hide Run, Next;
    RunFrom(WATCHING, [], WATCHING);
    RunFrom(s1, FIRST_STREAM[1..], WATCHING);
    RunFrom(Init(1), FIRST_STREAM, WATCHING);
  }

  const EVICTING: State := WATCHING.(evictions := [Chosen("b", A)])

  const CANCELLED: State := WATCHING.(supervisors := [Supervisor(A, Cancelled)], evictions := [Stopped("b", A)])

  const SWAPPED: State := CANCELLED.(active := {"b"}, evictions := [Swapped])

  lemma FirstVictimStopped()
    ensures Enabled(WATCHING, BeginEvict("b", A)) && Next(WATCHING, BeginEvict("b", A)) == EVICTING
    ensures Enabled(EVICTING, StopVictim(0)) && Next(EVICTING, StopVictim(0)) == CANCELLED
  {
  }

  lemma FirstSwap()
    ensures Enabled(CANCELLED, Swap(0)) && Next(CANCELLED, Swap(0)) == SWAPPED
    ensures Enabled(SWAPPED, Create(B, 2)) && Next(SWAPPED, Create(B, 2)) == AFTER_FIRST
  {
    assert Next(CANCELLED, Swap(0)).active == {"b"};
  }

  lemma FirstEviction()
    ensures Run(WATCHING, FIRST_EVICTION, AFTER_FIRST)
  {
    FirstVictimStopped();
    FirstSwap();
    hide Run, Next, Enabled;
    RunFrom(AFTER_FIRST, [], AFTER_FIRST);
    RunFrom(SWAPPED, FIRST_EVICTION[3..], AFTER_FIRST);
    RunFrom(CANCELLED, FIRST_EVICTION[2..], AFTER_FIRST);
    RunFrom(EVICTING, FIRST_EVICTION[1..], AFTER_FIRST);
    RunFrom(WATCHING, FIRST_EVICTION, AFTER_FIRST);
  }

  const SECOND_EVICTION: seq<Step> := [BeginEvict("c", A), StopVictim(1), Swap(1)]

  lemma SecondEviction() returns (s: State)
    ensures Run(AFTER_FIRST, SECOND_EVICTION, s) && s.active == {"b", "c"} && s.blind == 1
  {
    var s1 := Next(AFTER_FIRST, BeginEvict("c", A));
    var s2 := Next(s1, StopVictim(1));
    s := Next(s2, Swap(1));
    RunFrom(s, [], s);
    RunFrom(s2, SECOND_EVICTION[2..], s);
    RunFrom(s1, SECOND_EVICTION[1..], s);
    RunFrom(AFTER_FIRST, SECOND_EVICTION, s);
  }

  /**
   * Three requests one after the other, one stream allowed: the first session,
   * already cancelled but not yet gone, is evicted a second time, and two
   * channels hold slots.
   */
  lemma CancelledSessionEvictedAgain()
    ensures exists s :: Run(Init(1), FIRST_STREAM + FIRST_EVICTION + SECOND_EVICTION, s)
                        && s.active == {"b", "c"} && s.blind == 1
  {
    FirstStream();
    FirstEviction();
    var s := SecondEviction();
    hide Run;
    RunJoin(Init(1), FIRST_STREAM, WATCHING, FIRST_EVICTION, AFTER_FIRST);
    RunJoin(Init(1), FIRST_STREAM + FIRST_EVICTION, AFTER_FIRST, SECOND_EVICTION, s);
  }

  // ---------------------------------------------------------------------------
  // When a live session keeps its slot
  // ---------------------------------------------------------------------------

  /** The channel's current session is running. */
  predicate Live(s: State, k: Key) {
    && k in s.sessions && s.sessions[k].supervisor < |s.supervisors|
    && s.supervisors[s.sessions[k].supervisor].phase == Running
  }

  /** Some session of the channel is live. */
  ghost predicate LiveOn(s: State, c: Channel) {
    exists k :: Live(s, k) && k.channel == c
  }

  /** Every live session's channel holds a slot. */
  ghost predicate Covered(s: State) {
    forall k :: Live(s, k) ==> k.channel in s.active
  }

  /** Every listed session has a supervisor. */
  ghost predicate Supervised(s: State) {
    forall k :: k in s.sessions ==> s.sessions[k].supervisor < |s.supervisors|
  }

  /** The step takes the slot of a channel with a live session, or lists a session on a channel without slot. */
  ghost predicate Uncovers(s: State, step: Step)
    requires Enabled(s, step)
  {
    match step
    case Swap(e) =>
      s.evictions[e].victim.channel != s.evictions[e].channel && LiveOn(s, s.evictions[e].victim.channel)
    case Create(k, _) => k.channel !in s.active
    case SupervisorRelease(i) => LiveOn(s, s.supervisors[i].key.channel)
    case Release(c) => LiveOn(s, c)
    case _ => false
  }

  lemma StaysSupervised(s: State, step: Step)
    requires Supervised(s) && Enabled(s, step)
    ensures Supervised(Next(s, step))
  {
  }

  /** A step makes no session live but the one it creates, and only cancelling and unlisting end one. */
  lemma LiveAfter(s: State, step: Step, k: Key)
    requires Supervised(s) && Enabled(s, step)
    ensures Live(Next(s, step), k) ==> Live(s, k) || (step.Create? && step.key == k)
    ensures step.Create? && step.key == k ==> Live(Next(s, step), k)
    ensures step.Swap? || step.SupervisorRelease? || step.Release? ==> (Live(Next(s, step), k) <==> Live(s, k))
  {
  }

  /** From a covered state, every live session keeps its slot exactly when the step takes none of theirs. */
  lemma StepKeepsCoveredIff(s: State, step: Step)
    requires Supervised(s) && Covered(s) && Enabled(s, step)
    ensures Covered(Next(s, step)) <==> !Uncovers(s, step)
  {
    var t := Next(s, step);
    forall k ensures Live(t, k) ==> Live(s, k) || (step.Create? && step.key == k)
      ensures step.Create? && step.key == k ==> Live(t, k)
      ensures step.Swap? || step.SupervisorRelease? || step.Release? ==> (Live(t, k) <==> Live(s, k))
    {
      LiveAfter(s, step, k);
    }
    assert t.active == (match step
      case Acquire(c) => s.active + {c}
      case Swap(e) => s.active - {s.evictions[e].victim.channel} + {s.evictions[e].channel}
      case SupervisorRelease(i) => s.active - {s.supervisors[i].key.channel}
      case Release(c) => s.active - {c}
      case _ => s.active);
    hide Live, Next;
    if Uncovers(s, step) {
      var k := UncoveredKey(s, step);
      assert Live(t, k) && k.channel !in t.active;
    }
  }

  lemma UncoveredKey(s: State, step: Step) returns (k: Key)
    requires Enabled(s, step) && Uncovers(s, step)
    ensures if step.Create? then k == step.key && k.channel !in s.active
            else Live(s, k) && (step.Swap? || step.SupervisorRelease? || step.Release?)
    ensures step.Swap? ==>
      k.channel == s.evictions[step.e].victim.channel && k.channel != s.evictions[step.e].channel
    ensures step.SupervisorRelease? ==> k.channel == s.supervisors[step.i].key.channel
    ensures step.Release? ==> k.channel == step.channel
  {
    match step
    case Swap(e) => k :| Live(s, k) && k.channel == s.evictions[e].victim.channel;
    case SupervisorRelease(i) => k :| Live(s, k) && k.channel == s.supervisors[i].key.channel;
    case Release(c) => k :| Live(s, k) && k.channel == c;
    case Create(key, _) => k := key;
    case _ => assert false;
  }

  /** A run that leaves a live session without slot contains a step, from a covered state, that takes one. */
  lemma {:induction false} LostSlotNeedsUncovering(s: State, steps: seq<Step>, s': State) returns (k: nat, at: State)
    requires Run(s, steps, s') && Supervised(s) && Covered(s) && !Covered(s')
    ensures k < |steps| && Run(s, steps[..k], at) && Covered(at) && Enabled(at, steps[k]) && Uncovers(at, steps[k])
    decreases |steps|
  {
    var t := Next(s, steps[0]);
    StepKeepsCoveredIff(s, steps[0]);
    StaysSupervised(s, steps[0]);
    hide Covered, Uncovers, Supervised, Next, Enabled;
    if !Covered(t) {
      k, at := 0, s;
    } else {
      k, at := LostSlotNeedsUncovering(t, steps[1..], s');
      assert steps[1..][..k] == steps[..k + 1][1..];
      k := k + 1;
    }
  }

  /** Some step of the run, taken in the state it starts from, takes a live session's slot. */
  ghost predicate UncoversSome(s: State, steps: seq<Step>)
    decreases |steps|
  {
    steps != [] && Enabled(s, steps[0]) && (Uncovers(s, steps[0]) || UncoversSome(Next(s, steps[0]), steps[1..]))
  }

  /** Covered after every step of the run. */
  ghost predicate CoveredThroughout(s: State, steps: seq<Step>)
    decreases |steps|
  {
    Covered(s) && (steps != [] && Enabled(s, steps[0]) ==> CoveredThroughout(Next(s, steps[0]), steps[1..]))
  }

  /** In every state of a run every live session holds a slot if and only if no step takes one from a live session. */
  lemma {:induction false} RunCoveredIff(s: State, steps: seq<Step>, s': State)
    requires Run(s, steps, s') && Supervised(s) && Covered(s)
    ensures CoveredThroughout(s, steps) <==> !UncoversSome(s, steps)
    decreases |steps|
  {
    if steps != [] {
      StepKeepsCoveredIff(s, steps[0]);
      StaysSupervised(s, steps[0]);
      hide Covered, Uncovers, Supervised, Next, Enabled;
      if Covered(Next(s, steps[0])) { RunCoveredIff(Next(s, steps[0]), steps[1..], s'); }
    }
  }

  // ---------------------------------------------------------------------------
  // One supervisor per channel
  // ---------------------------------------------------------------------------

  /** An eviction that has not swapped yet names the channel as its victim's. */
  predicate Pending(e: Eviction, c: Channel) {
    !e.Swapped? && e.victim.channel == c
  }

  /**
   * A session is created only on a channel that holds a slot and is free of
   * others' business, and no live session's channel is released.
   */
  ghost predicate Careful(s: State, step: Step) {
    && (step.Create? ==>
          && step.key.channel in s.active
          && (forall i :: 0 <= i < |s.supervisors| && s.supervisors[i].key.channel == step.key.channel ==>
                s.supervisors[i].phase == Ended)
          && (forall e :: 0 <= e < |s.evictions| ==> !Pending(s.evictions[e], step.key.channel)))
    && (step.Release? ==> !LiveOn(s, step.channel))
  }

  ghost predicate CarefulRun(s: State, steps: seq<Step>)
    decreases |steps|
  {
    steps != [] && Enabled(s, steps[0]) ==> Careful(s, steps[0]) && CarefulRun(Next(s, steps[0]), steps[1..])
  }

  /** No channel has two supervisors at work. */
  predicate OneSupervisorEach(s: State) {
    forall i, j :: 0 <= i < |s.supervisors| && 0 <= j < |s.supervisors| && i != j
                   && s.supervisors[i].phase != Ended && s.supervisors[j].phase != Ended ==>
      s.supervisors[i].key.channel != s.supervisors[j].key.channel
  }

  /** A listed session is supervised under its own key until it is taken off the list. */
  predicate ListedAtWork(s: State, k: Key)
    requires k in s.sessions
  {
    && s.sessions[k].supervisor < |s.supervisors|
    && s.supervisors[s.sessions[k].supervisor].key == k
    && s.supervisors[s.sessions[k].supervisor].phase in {Running, Cancelled}
  }

  /** Until its victim is stopped an eviction's channel has no other live session, and afterwards none at all. */
  ghost predicate EvictionOk(s: State, e: Eviction) {
    match e
    case Chosen(_, v) => forall k :: Live(s, k) && k.channel == v.channel ==> k == v
    case Stopped(_, v) => !LiveOn(s, v.channel)
    case Swapped => true
  }

  ghost predicate Orderly(s: State) {
    && OneSupervisorEach(s)
    && (forall k :: k in s.sessions ==> ListedAtWork(s, k))
    && (forall e :: 0 <= e < |s.evictions| ==> EvictionOk(s, s.evictions[e]))
  }

  lemma StaysOneSupervisorEach(s: State, step: Step)
    requires OneSupervisorEach(s) && Enabled(s, step) && Careful(s, step)
    ensures OneSupervisorEach(Next(s, step))
  {
    var t := Next(s, step);
    forall i | 0 <= i < |s.supervisors|
      ensures t.supervisors[i].key == s.supervisors[i].key
      ensures s.supervisors[i].phase == Ended ==> t.supervisors[i].phase == Ended
    {}
    if step.Create? { assert t.supervisors[|s.supervisors|].key == step.key; }
    assert |t.supervisors| == |s.supervisors| + if step.Create? then 1 else 0;
    hide Next, Enabled;
  }

  lemma StaysListed(s: State, step: Step, k: Key)
    requires Orderly(s) && Enabled(s, step) && k in Next(s, step).sessions
    ensures ListedAtWork(Next(s, step), k)
  {
    if k in s.sessions { assert ListedAtWork(s, k); }
    if step.StopVictim? && s.evictions[step.e].victim in s.sessions {
      assert ListedAtWork(s, s.evictions[step.e].victim);
    }
  }

  /** Live sessions of one channel are one session. */
  lemma LiveAlone(s: State, k: Key, l: Key)
    requires Orderly(s) && Live(s, k) && l in s.sessions && k.channel == l.channel
    ensures k == l
  {
    assert ListedAtWork(s, k) && ListedAtWork(s, l);
    assert s.sessions[k].supervisor == s.sessions[l].supervisor;
  }

  lemma StoppedNotLive(s: State, step: Step)
    requires Orderly(s) && step.StopVictim? && Enabled(s, step)
    ensures !Live(Next(s, step), s.evictions[step.e].victim)
  {
  }

  /** A step makes no session live on a channel that a pending eviction names. */
  lemma NoneRevived(s: State, step: Step, e: Eviction, k: Key)
    requires Orderly(s) && Enabled(s, step) && Careful(s, step) && e in s.evictions && Pending(e, k.channel)
    requires Live(Next(s, step), k)
    ensures Live(s, k)
  {
    LiveAfter(s, step, k);
  }

  lemma StaysEvictionOk(s: State, step: Step, n: nat)
    requires Orderly(s) && Enabled(s, step) && Careful(s, step) && n < |Next(s, step).evictions|
    ensures EvictionOk(Next(s, step), Next(s, step).evictions[n])
  {
    var t := Next(s, step);
    var e' := t.evictions[n];
    if !e'.Swapped? {
      var v := e'.victim;
      forall k | Live(t, k) && k.channel == v.channel ensures Live(s, k) && k == v && e'.Chosen? {
        if n < |s.evictions| {
          assert EvictionOk(s, s.evictions[n]);
          NoneRevived(s, step, s.evictions[n], k);
          if step.StopVictim? && step.e == n { StoppedNotLive(s, step); }
        } else {
          LiveAfter(s, step, k);
          LiveAlone(s, k, v);
        }
      }
      hide Next, Enabled;
    }
  }

  lemma StaysOrderly(s: State, step: Step)
    requires Orderly(s) && Enabled(s, step) && Careful(s, step)
    ensures Orderly(Next(s, step))
  {
    StaysOneSupervisorEach(s, step);
    forall k | k in Next(s, step).sessions ensures ListedAtWork(Next(s, step), k) { StaysListed(s, step, k); }
    forall n: nat | n < |Next(s, step).evictions| ensures EvictionOk(Next(s, step), Next(s, step).evictions[n]) {
      StaysEvictionOk(s, step, n);
    }
    hide Next, Enabled, Careful, ListedAtWork, EvictionOk, OneSupervisorEach;
  }

  /** In an orderly state a careful step takes no live session's slot. */
  lemma CarefulNeverUncovers(s: State, step: Step)
    requires Orderly(s) && Enabled(s, step) && Careful(s, step)
    ensures !Uncovers(s, step)
  {
    if step.Swap? {
      assert EvictionOk(s, s.evictions[step.e]);
    } else if step.SupervisorRelease? {
      forall k | Live(s, k) ensures k.channel != s.supervisors[step.i].key.channel {
        assert ListedAtWork(s, k);
      }
    }
  }

  lemma {:induction false} CarefulRunKeepsSlots(s: State, steps: seq<Step>, s': State)
    requires Run(s, steps, s') && CarefulRun(s, steps) && Orderly(s) && Supervised(s) && Covered(s)
    ensures Covered(s')
    decreases |steps|
  {
    if steps != [] {
      CarefulNeverUncovers(s, steps[0]);
      StepKeepsCoveredIff(s, steps[0]);
      StaysSupervised(s, steps[0]);
      StaysOrderly(s, steps[0]);
      hide Covered, Uncovers, Supervised, Orderly, Careful, Next, Enabled;
      CarefulRunKeepsSlots(Next(s, steps[0]), steps[1..], s');
    }
  }

  /**
   * If a session is created only on a channel that holds a slot, whose
   * supervisors have all ended and which no pending eviction names, and no live
   * session's channel is released, then every live session holds a slot in every
   * reachable state, however the lock sections interleave.
   */
  lemma OneSupervisorSuffices(limit: nat, steps: seq<Step>, s: State)
    requires Run(Init(limit), steps, s) && CarefulRun(Init(limit), steps)
    ensures Covered(s)
  {
    CarefulRunKeepsSlots(Init(limit), steps, s);
  }

  // ---------------------------------------------------------------------------
  // A live session loses its slot
  // ---------------------------------------------------------------------------

  /** The session ends and is replaced before its supervisor has released the slot. */
  function LateRelease(): seq<Step> {
    [Cancel(0), Unlist(0), Acquire("a"), Create(A, 2), SupervisorRelease(0)]
  }

  /**
   * A supervisor that has left the table but not yet released its slot releases
   * the slot of the session that replaced it.
   */
  lemma LateReleaseTakesNewSlot()
    ensures exists s :: Run(Init(1), FIRST_STREAM + LateRelease(), s) && Live(s, A) && "a" !in s.active
  {
    var steps := LateRelease();
    var s1 := Next(WATCHING, steps[0]);
    var s2 := Next(s1, steps[1]);
    var s3 := Next(s2, steps[2]);
    var s4 := Next(s3, steps[3]);
    var s5 := Next(s4, steps[4]);
    hide Run;
    assert Live(s5, A) && "a" !in s5.active;
    RunFrom(s5, steps[5..], s5);
    RunFrom(s4, steps[4..], s5);
    RunFrom(s3, steps[3..], s5);
    RunFrom(s2, steps[2..], s5);
    RunFrom(s1, steps[1..], s5);
    RunFrom(WATCHING, steps, s5);
    FirstStream();
    RunJoin(Init(1), FIRST_STREAM, WATCHING, steps, s5);
  }
}
