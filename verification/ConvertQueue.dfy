/**
 * The conversion queue: request handlers push under a read lock on the
 * "converting" flag and spawn a worker; a worker drains the queue under the
 * write lock.  Any number of handlers and workers, interleaved in any way.
 */
module ConvertQueue {
  type Element = nat

  /** Where a request handler is. */
  datatype Caller =
    | Waiting(e: Element)      // wants the read lock on convert_current
    | Holding(e: Element)      // has it, about to push
    | Pushed                   // has it, element is in the queue
    | MustSpawn                // saw the flag false and dropped the lock
    | Returned

  /** Where a worker task is. */
  datatype Worker =
    | Spawned                  // wants the write lock on convert_current
    | Locked                   // has it, flag still false
    | Draining                 // flag true, top of the loop
    | Converting(e: Element)
    | Emptied                  // saw the queue empty, flag still true
    | Cleared                  // flag false again, lock still held
    | Finished

  datatype State = State(
    callers: seq<Caller>, workers: seq<Worker>,
    queue: seq<Element>, current: bool,
    pushed: seq<Element>, processed: seq<Element>)   // history: push order and completion order

  datatype Step =
    | Arrive(e: Element)
    | Disconnect(i: nat)       // the handler's future is dropped at an await point
    | AcquireRead(i: nat) | Push(i: nat) | ReadFlag(i: nat) | Spawn(i: nat)
    | AcquireWrite(w: nat) | SetFlag(w: nat) | Pop(w: nat) | Convert(w: nat) | ClearFlag(w: nat) | ReleaseWrite(w: nat)

  predicate Reads(c: Caller) { c.Holding? || c.Pushed? }

  predicate Writes(w: Worker) { !w.Spawned? && !w.Finished? }

  predicate WriteFree(s: State) {
    forall w :: 0 <= w < |s.workers| ==> !Writes(s.workers[w])
  }

  predicate ReadFree(s: State) {
    forall i :: 0 <= i < |s.callers| ==> !Reads(s.callers[i])
  }

  predicate Enabled(s: State, step: Step) {
    match step
    case Arrive(_) => true
    case Disconnect(i) => i < |s.callers| && (s.callers[i].Waiting? || s.callers[i].Holding?)
    case AcquireRead(i) => i < |s.callers| && s.callers[i].Waiting? && WriteFree(s)
    case Push(i) => i < |s.callers| && s.callers[i].Holding?
    case ReadFlag(i) => i < |s.callers| && s.callers[i].Pushed?
    case Spawn(i) => i < |s.callers| && s.callers[i].MustSpawn?
    case AcquireWrite(w) => w < |s.workers| && s.workers[w].Spawned? && WriteFree(s) && ReadFree(s)
    case SetFlag(w) => w < |s.workers| && s.workers[w].Locked?
    case Pop(w) => w < |s.workers| && s.workers[w].Draining?
    case Convert(w) => w < |s.workers| && s.workers[w].Converting?
    case ClearFlag(w) => w < |s.workers| && s.workers[w].Emptied?
    case ReleaseWrite(w) => w < |s.workers| && s.workers[w].Cleared?
  }

  function Next(s: State, step: Step): State
    requires Enabled(s, step)
  {
    match step
    case Arrive(e) => s.(callers := s.callers + [Waiting(e)])
    case Disconnect(i) => s.(callers := s.callers[i := Returned])
    case AcquireRead(i) => s.(callers := s.callers[i := Holding(s.callers[i].e)])
    case Push(i) => s.(callers := s.callers[i := Pushed],
                       queue := s.queue + [s.callers[i].e], pushed := s.pushed + [s.callers[i].e])
    case ReadFlag(i) => s.(callers := s.callers[i := if s.current then Returned else MustSpawn])
    case Spawn(i) => s.(callers := s.callers[i := Returned], workers := s.workers + [Spawned])
    case AcquireWrite(w) => s.(workers := s.workers[w := Locked])
    case SetFlag(w) => s.(workers := s.workers[w := Draining], current := true)
    case Pop(w) =>
      if s.queue != [] then s.(workers := s.workers[w := Converting(s.queue[0])], queue := s.queue[1..])
      else s.(workers := s.workers[w := Emptied])
    case Convert(w) => s.(workers := s.workers[w := Draining], processed := s.processed + [s.workers[w].e])
    case ClearFlag(w) => s.(workers := s.workers[w := Cleared], current := false)
    case ReleaseWrite(w) => s.(workers := s.workers[w := Finished])
  }

  const INIT: State := State([], [], [], false, [], [])

  /** The state after a sequence of enabled steps from s. */
  ghost predicate Run(s: State, steps: seq<Step>, s': State)
    decreases |steps|
  {
    if steps == [] then s' == s
    else Enabled(s, steps[0]) && Run(Next(s, steps[0]), steps[1..], s')
  }

  // ---------------------------------------------------------------------------
  // Safety
  // ---------------------------------------------------------------------------

  predicate FlagUp(w: Worker) { w.Draining? || w.Converting? || w.Emptied? }

  /** The element being converted, if any. */
  function InProgress(workers: seq<Worker>): seq<Element> {
    if workers == [] then []
    else InProgress(workers[..|workers| - 1])
         + (if workers[|workers| - 1].Converting? then [workers[|workers| - 1].e] else [])
  }

  /** A worker that has yet to look at the queue again. */
  predicate WillDrain(w: Worker) { w.Spawned? || w.Locked? || w.Draining? || w.Converting? }

  predicate WillSpawn(c: Caller) { c.Pushed? || c.MustSpawn? }

  ghost predicate SomeoneWillDrain(s: State) {
    || (exists w :: 0 <= w < |s.workers| && WillDrain(s.workers[w]))
    || (exists i :: 0 <= i < |s.callers| && WillSpawn(s.callers[i]))
  }

  /** One writer at most, and never together with readers. */
  ghost predicate LockExclusive(s: State) {
    && (forall v, w :: 0 <= v < |s.workers| && 0 <= w < |s.workers| && Writes(s.workers[v]) && Writes(s.workers[w]) ==>
          v == w)
    && (WriteFree(s) || ReadFree(s))
  }

  /** The flag is up exactly while a worker is inside its loop. */
  ghost predicate FlagTracksLoop(s: State) {
    s.current <==> exists w :: 0 <= w < |s.workers| && FlagUp(s.workers[w])
  }

  /** Nothing lost, nothing reordered. */
  ghost predicate Conserved(s: State) {
    s.pushed == s.processed + InProgress(s.workers) + s.queue
  }

  /** A waiting element has someone who will come for it. */
  ghost predicate NoLostWakeup(s: State) {
    && (s.queue != [] ==> SomeoneWillDrain(s))
    && (forall w :: 0 <= w < |s.workers| && (s.workers[w].Emptied? || s.workers[w].Cleared?) ==> s.queue == [])
  }

  ghost predicate Inv(s: State) {
    LockExclusive(s) && FlagTracksLoop(s) && Conserved(s) && NoLostWakeup(s)
  }

  lemma {:induction false} InProgressNone(workers: seq<Worker>)
    requires forall w :: 0 <= w < |workers| ==> !workers[w].Converting?
    ensures InProgress(workers) == []
  {
    if workers != [] { InProgressNone(workers[..|workers| - 1]); }
  }

  lemma {:induction false} InProgressOne(workers: seq<Worker>, w: nat)
    requires w < |workers| && workers[w].Converting?
    requires forall v :: 0 <= v < |workers| && v != w ==> !workers[v].Converting?
    ensures InProgress(workers) == [workers[w].e]
  {
    var init := workers[..|workers| - 1];
    if w == |workers| - 1 {
      InProgressNone(init);
    } else {
      InProgressOne(init, w);
    }
  }

  /** With one writer, what is in progress depends on that writer alone. */
  lemma InProgressOfWriter(s: State, w: nat, x: Worker)
    requires w < |s.workers| && Writes(s.workers[w])
    requires forall v :: 0 <= v < |s.workers| && v != w ==> !Writes(s.workers[v])
    ensures InProgress(s.workers) == if s.workers[w].Converting? then [s.workers[w].e] else []
    ensures InProgress(s.workers[w := x]) == if x.Converting? then [x.e] else []
  {
    if s.workers[w].Converting? { InProgressOne(s.workers, w); } else { InProgressNone(s.workers); }
    var ws := s.workers[w := x];
    if x.Converting? { InProgressOne(ws, w); } else { InProgressNone(ws); }
  }

  predicate CallerStep(step: Step) {
    step.Arrive? || step.Disconnect? || step.AcquireRead? || step.Push? || step.ReadFlag?
  }

  lemma CallerStepKeepsLock(s: State, step: Step)
    requires Inv(s) && Enabled(s, step) && CallerStep(step)
    ensures LockExclusive(Next(s, step)) && FlagTracksLoop(Next(s, step))
  {
    var t := Next(s, step);
    assert t.workers == s.workers && t.current == s.current;
    assert WriteFree(t) <==> WriteFree(s);
    if !step.AcquireRead? && ReadFree(s) {
      forall i | 0 <= i < |t.callers| ensures !Reads(t.callers[i]) {
        if i < |s.callers| { assert !Reads(s.callers[i]); }
      }
    }
  }

  lemma CallerStepKeepsQueue(s: State, step: Step)
    requires Inv(s) && Enabled(s, step) && CallerStep(step)
    ensures Conserved(Next(s, step)) && NoLostWakeup(Next(s, step))
  {
    var t := Next(s, step);
    assert t.workers == s.workers;
    if step.Push? || step.ReadFlag? {
      assert Reads(s.callers[step.i]);
      assert WriteFree(s);
      assert WillSpawn(t.callers[step.i]);
    } else if s.queue != [] {
      if i :| 0 <= i < |s.callers| && WillSpawn(s.callers[i]) { assert WillSpawn(t.callers[i]); }
    }
  }

  lemma SpawnKeepsLock(s: State, step: Step)
    requires Inv(s) && Enabled(s, step) && step.Spawn?
    ensures LockExclusive(Next(s, step)) && FlagTracksLoop(Next(s, step))
  {
    var t := Next(s, step);
    assert forall w :: 0 <= w < |s.workers| ==> t.workers[w] == s.workers[w];
    hide InProgress;
    assert WriteFree(s) ==> WriteFree(t);
    assert ReadFree(s) ==> ReadFree(t);
    if s.current {
      var w :| 0 <= w < |s.workers| && FlagUp(s.workers[w]);
      assert FlagUp(t.workers[w]);
    }
  }

  lemma SpawnKeepsQueue(s: State, step: Step)
    requires Inv(s) && Enabled(s, step) && step.Spawn?
    ensures Conserved(Next(s, step)) && NoLostWakeup(Next(s, step))
  {
    var t, n := Next(s, step), |s.workers|;
    assert t.workers[..n] == s.workers && t.workers[n].Spawned?;
    assert WillDrain(t.workers[n]);
  }

  lemma AcquireWriteKeepsInv(s: State, step: Step)
    requires Inv(s) && Enabled(s, step) && step.AcquireWrite?
    ensures Inv(Next(s, step))
  {
    var t := Next(s, step);
    InProgressNone(s.workers);
    InProgressNone(t.workers);
    assert forall v :: 0 <= v < |s.workers| ==> !FlagUp(s.workers[v]) && !FlagUp(t.workers[v]);
    assert ReadFree(t);
    assert WillDrain(t.workers[step.w]);
  }

  predicate HolderStep(step: Step) {
    step.SetFlag? || step.Pop? || step.Convert? || step.ClearFlag? || step.ReleaseWrite?
  }

  /** The lock holder is the only writer, there are no readers, and a step of its own changes no other worker. */
  lemma HolderAlone(s: State, step: Step)
    requires LockExclusive(s) && Enabled(s, step) && HolderStep(step)
    ensures Writes(s.workers[step.w]) && ReadFree(s)
    ensures forall v :: 0 <= v < |s.workers| && v != step.w ==> !Writes(s.workers[v])
    ensures Next(s, step).callers == s.callers
    ensures Next(s, step).workers == s.workers[step.w := Next(s, step).workers[step.w]]
  {
    assert Writes(s.workers[step.w]);
  }

  lemma HolderStepKeepsLock(s: State, step: Step)
    requires Inv(s) && Enabled(s, step) && HolderStep(step)
    ensures LockExclusive(Next(s, step)) && FlagTracksLoop(Next(s, step))
  {
    var t, w := Next(s, step), step.w;
    HolderAlone(s, step);
    assert ReadFree(t);
    assert forall v :: 0 <= v < |t.workers| && v != w ==> !Writes(t.workers[v]) && !FlagUp(t.workers[v]);
    assert FlagUp(t.workers[w]) <==> t.current;
  }

  /** What is in progress before and after a step of the lock holder. */
  lemma InProgressStep(s: State, step: Step)
    requires LockExclusive(s) && Enabled(s, step) && HolderStep(step)
    ensures InProgress(s.workers) == if step.Convert? then [s.workers[step.w].e] else []
    ensures InProgress(Next(s, step).workers) == if step.Pop? && s.queue != [] then [s.queue[0]] else []
  {
    HolderAlone(s, step);
    InProgressOfWriter(s, step.w, Next(s, step).workers[step.w]);
  }

  lemma HolderStepConserves(s: State, step: Step)
    requires LockExclusive(s) && Conserved(s) && Enabled(s, step) && HolderStep(step)
    ensures Conserved(Next(s, step))
  {
    hide InProgress;
    InProgressStep(s, step);
    if step.Pop? && s.queue != [] {
      assert s.queue == [s.queue[0]] + s.queue[1..];
    }
  }

  lemma HolderStepKeepsWakeup(s: State, step: Step)
    requires Inv(s) && Enabled(s, step) && HolderStep(step)
    ensures NoLostWakeup(Next(s, step))
  {
    var t, w := Next(s, step), step.w;
    HolderAlone(s, step);
    forall v | 0 <= v < |t.workers| && (t.workers[v].Emptied? || t.workers[v].Cleared?) ensures t.queue == [] {
      if v != w { assert !Writes(s.workers[v]); }
    }
    if WillDrain(t.workers[w]) {
      assert SomeoneWillDrain(t);
    } else {
      assert t.queue == [];
    }
  }

  lemma {:induction false} RunKeepsInv(s: State, steps: seq<Step>, s': State)
    requires Inv(s) && Run(s, steps, s')
    ensures Inv(s')
    decreases |steps|
  {
    if steps != [] {
      var step := steps[0];
      if CallerStep(step) {
        CallerStepKeepsLock(s, step);
        CallerStepKeepsQueue(s, step);
      } else if step.Spawn? {
        SpawnKeepsLock(s, step);
        SpawnKeepsQueue(s, step);
      } else if step.AcquireWrite? {
        AcquireWriteKeepsInv(s, step);
      } else {
        HolderStepKeepsLock(s, step);
        HolderStepConserves(s, step);
        HolderStepKeepsWakeup(s, step);
      }
      RunKeepsInv(Next(s, step), steps[1..], s');
    }
  }

  /** Every state any interleaving can reach satisfies the invariant. */
  lemma ReachableInv(steps: seq<Step>, s: State)
    requires Run(INIT, steps, s)
    ensures Inv(s)
  {
    RunKeepsInv(INIT, steps, s);
  }

  /** Whoever can read the flag reads false: the "already converting" branch is never taken. */
  lemma FlagFalseWhenLockFree(steps: seq<Step>, s: State)
    requires Run(INIT, steps, s)
    ensures WriteFree(s) ==> !s.current
    ensures forall i: nat :: i < |s.callers| && s.callers[i].Pushed? ==> !s.current
  {
    ReachableInv(steps, s);
    forall i: nat | i < |s.callers| && s.callers[i].Pushed? ensures !s.current {
      assert Reads(s.callers[i]);
    }
  }

  predicate AllDone(s: State) {
    && (forall i :: 0 <= i < |s.callers| ==> s.callers[i].Returned?)
    && (forall w :: 0 <= w < |s.workers| ==> s.workers[w].Finished?)
  }

  /** When everything has come to rest, everything pushed was converted, in push order. */
  lemma RestMeansConverted(steps: seq<Step>, s: State)
    requires Run(INIT, steps, s) && AllDone(s)
    ensures s.queue == [] && s.processed == s.pushed
  {
    ReachableInv(steps, s);
    InProgressNone(s.workers);
  }

  /** At any moment what is done is a prefix of what was pushed, and at most one element is in the works. */
  lemma ConvertedInOrder(steps: seq<Step>, s: State)
    requires Run(INIT, steps, s)
    ensures s.processed <= s.pushed
    ensures forall v, w :: 0 <= v < w < |s.workers| ==> !(s.workers[v].Converting? && s.workers[w].Converting?)
  {
    ReachableInv(steps, s);
  }

  // ---------------------------------------------------------------------------
  // From request to conversion
  // ---------------------------------------------------------------------------

  /** How often requests came with element e. */
  ghost function Arrivals(steps: seq<Step>, e: Element): nat {
    if steps == [] then 0 else (if steps[0] == Arrive(e) then 1 else 0) + Arrivals(steps[1..], e)
  }

  /** The request still has e in hand. */
  predicate Carries(c: Caller, e: Element) { c == Waiting(e) || c == Holding(e) }

  ghost function InHand(cs: seq<Caller>, e: Element): nat {
    if cs == [] then 0 else InHand(cs[..|cs| - 1], e) + if Carries(cs[|cs| - 1], e) then 1 else 0
  }

  ghost predicate Drops(s: State, step: Step, e: Element) {
    step.Disconnect? && step.i < |s.callers| && Carries(s.callers[step.i], e)
  }

  /** How often a request disconnected with e in hand. */
  ghost function Dropped(s: State, steps: seq<Step>, e: Element): nat
    decreases |steps|
  {
    if steps == [] || !Enabled(s, steps[0]) then 0
    else (if Drops(s, steps[0], e) then 1 else 0) + Dropped(Next(s, steps[0]), steps[1..], e)
  }

  lemma {:induction false} InHandUpdate(cs: seq<Caller>, i: nat, c: Caller, e: Element)
    requires i < |cs|
    ensures InHand(cs[i := c], e) + (if Carries(cs[i], e) then 1 else 0)
         == InHand(cs, e) + if Carries(c, e) then 1 else 0
  {
    var n := |cs| - 1;
    hide Carries;
    if i < n {
      InHandUpdate(cs[..n], i, c, e);
      assert cs[i := c][..n] == cs[..n][i := c];
    } else {
      assert cs[i := c][..n] == cs[..n];
    }
  }

  lemma ArrivalAccounts(s: State, step: Step, e: Element)
    requires step.Arrive?
    ensures multiset(Next(s, step).pushed)[e] + InHand(Next(s, step).callers, e)
         == multiset(s.pushed)[e] + InHand(s.callers, e) + if step == Arrive(e) then 1 else 0
  {
    assert Next(s, step).callers[..|s.callers|] == s.callers;
  }

  lemma OtherStepAccounts(s: State, step: Step, e: Element)
    requires Enabled(s, step) && !step.Arrive?
    ensures multiset(Next(s, step).pushed)[e] + InHand(Next(s, step).callers, e) + (if Drops(s, step, e) then 1 else 0)
         == multiset(s.pushed)[e] + InHand(s.callers, e)
  {
    if step.Disconnect? || step.AcquireRead? || step.Push? || step.ReadFlag? || step.Spawn? {
      InHandUpdate(s.callers, step.i, Next(s, step).callers[step.i], e);
    }
    hide InHand;
  }

  lemma {:induction false} RunAccounts(s: State, steps: seq<Step>, s': State, e: Element)
    requires Run(s, steps, s')
    ensures multiset(s'.pushed)[e] + InHand(s'.callers, e) + Dropped(s, steps, e)
         == multiset(s.pushed)[e] + InHand(s.callers, e) + Arrivals(steps, e)
    decreases |steps|
  {
    if steps != [] {
      if steps[0].Arrive? { ArrivalAccounts(s, steps[0], e); } else { OtherStepAccounts(s, steps[0], e); }
      RunAccounts(Next(s, steps[0]), steps[1..], s', e);
      hide Next, Enabled, InHand, Carries;
    }
  }

  /** As often as requests came with e it was pushed, is still in hand, or went with a dropped request. */
  lemma ArrivalsAccounted(steps: seq<Step>, s: State, e: Element)
    requires Run(INIT, steps, s)
    ensures Arrivals(steps, e) == multiset(s.pushed)[e] + InHand(s.callers, e) + Dropped(INIT, steps, e)
  {
    RunAccounts(INIT, steps, s, e);
  }

  lemma {:induction false} NothingInHand(cs: seq<Caller>, e: Element)
    requires forall i :: 0 <= i < |cs| ==> cs[i].Returned?
    ensures InHand(cs, e) == 0
  {
    if cs != [] { NothingInHand(cs[..|cs| - 1], e); }
  }

  ghost predicate NoDisconnect(steps: seq<Step>) {
    forall k :: 0 <= k < |steps| ==> !steps[k].Disconnect?
  }

  lemma {:induction false} NothingDropped(s: State, steps: seq<Step>, e: Element)
    requires NoDisconnect(steps)
    ensures Dropped(s, steps, e) == 0
    decreases |steps|
  {
    if steps != [] && Enabled(s, steps[0]) {
      NothingDropped(Next(s, steps[0]), steps[1..], e);
      hide Next, Enabled;
    }
  }

  /** At rest every element was converted as often as it was requested, but for requests dropped with it in hand. */
  lemma RequestedMeansConverted(steps: seq<Step>, s: State, e: Element)
    requires Run(INIT, steps, s) && AllDone(s)
    ensures multiset(s.processed)[e] + Dropped(INIT, steps, e) == Arrivals(steps, e)
    ensures NoDisconnect(steps) ==> multiset(s.processed)[e] == Arrivals(steps, e)
  {
    RestMeansConverted(steps, s);
    ArrivalsAccounted(steps, s, e);
    NothingInHand(s.callers, e);
    hide Run;
    if NoDisconnect(steps) { NothingDropped(INIT, steps, e); }
  }

  /** The elements requests came with, in order. */
  function Requested(steps: seq<Step>): seq<Element> {
    if steps == [] then [] else (if steps[0].Arrive? then [steps[0].e] else []) + Requested(steps[1..])
  }

  lemma {:induction false} RequestedCount(steps: seq<Step>, e: Element)
    ensures multiset(Requested(steps))[e] == Arrivals(steps, e)
  {
    if steps != [] { RequestedCount(steps[1..], e); }
  }

  /** At rest, when no request was dropped, what was converted is a permutation of what was requested. */
  lemma ConvertedIsRequested(steps: seq<Step>, s: State)
    requires Run(INIT, steps, s) && AllDone(s) && NoDisconnect(steps)
    ensures multiset(s.processed) == multiset(Requested(steps))
  {
    hide *;
    forall e: Element ensures multiset(s.processed)[e] == multiset(Requested(steps))[e] {
      RequestedMeansConverted(steps, s, e);
      RequestedCount(steps, e);
    }
  }

  // ---------------------------------------------------------------------------
  // Progress
  // ---------------------------------------------------------------------------

  /** Unless everything is at rest, some step other than a new arrival is possible. */
  lemma NeverStuck(steps: seq<Step>, s: State) returns (step: Step)
    requires Run(INIT, steps, s) && !AllDone(s)
    ensures !step.Arrive? && !step.Disconnect? && Enabled(s, step)
  {
    ReachableInv(steps, s);
    if w: nat :| w < |s.workers| && Writes(s.workers[w]) {
      step := match s.workers[w] {
        case Locked => SetFlag(w)
        case Draining => Pop(w)
        case Converting(_) => Convert(w)
        case Emptied => ClearFlag(w)
        case _ => ReleaseWrite(w)
      };
    } else if i: nat :| i < |s.callers| && !s.callers[i].Returned? && !s.callers[i].Waiting? {
      step := match s.callers[i] {
        case Holding(_) => Push(i)
        case Pushed => ReadFlag(i)
        case _ => Spawn(i)
      };
    } else if w: nat :| w < |s.workers| && s.workers[w].Spawned? {
      step := AcquireWrite(w);
    } else {
      var i: nat :| i < |s.callers| && s.callers[i].Waiting?;
      step := AcquireRead(i);
    }
  }

  function CallerWork(c: Caller): nat {
    match c
    case Waiting(_) => 12
    case Holding(_) => 11
    case Pushed => 8
    case MustSpawn => 7
    case Returned => 0
  }

  function WorkerWork(w: Worker): nat {
    match w
    case Spawned => 6
    case Locked => 5
    case Draining => 4
    case Converting(_) => 5
    case Emptied => 3
    case Cleared => 2
    case Finished => 0
  }

  function CallersWork(cs: seq<Caller>): nat {
    if cs == [] then 0 else CallersWork(cs[..|cs| - 1]) + CallerWork(cs[|cs| - 1])
  }

  function WorkersWork(ws: seq<Worker>): nat {
    if ws == [] then 0 else WorkersWork(ws[..|ws| - 1]) + WorkerWork(ws[|ws| - 1])
  }

  /** An upper bound on the steps left before everything is at rest. */
  function Work(s: State): nat {
    CallersWork(s.callers) + WorkersWork(s.workers) + 2 * |s.queue|
  }

  lemma {:induction false} CallersUpdate(cs: seq<Caller>, i: nat, c: Caller)
    requires i < |cs|
    ensures CallersWork(cs[i := c]) + CallerWork(cs[i]) == CallersWork(cs) + CallerWork(c)
  {
    var n := |cs| - 1;
    if i < n {
      CallersUpdate(cs[..n], i, c);
      assert cs[i := c][..n] == cs[..n][i := c];
    } else {
      assert cs[i := c][..n] == cs[..n];
    }
  }

  lemma {:induction false} WorkersUpdate(ws: seq<Worker>, i: nat, w: Worker)
    requires i < |ws|
    ensures WorkersWork(ws[i := w]) + WorkerWork(ws[i]) == WorkersWork(ws) + WorkerWork(w)
  {
    var n := |ws| - 1;
    if i < n {
      WorkersUpdate(ws[..n], i, w);
      assert ws[i := w][..n] == ws[..n][i := w];
    } else {
      assert ws[i := w][..n] == ws[..n];
    }
  }

  lemma SpawnWorks(s: State, step: Step)
    requires Enabled(s, step) && step.Spawn?
    ensures Work(Next(s, step)) < Work(s)
  {
    CallersUpdate(s.callers, step.i, Returned);
    assert (s.workers + [Spawned])[..|s.workers|] == s.workers;
  }

  lemma CallerStepWorks(s: State, step: Step)
    requires Enabled(s, step) && (step.Disconnect? || step.AcquireRead? || step.Push? || step.ReadFlag?)
    ensures Work(Next(s, step)) < Work(s)
  {
    CallersUpdate(s.callers, step.i, Next(s, step).callers[step.i]);
    hide CallersWork, WorkersWork;
  }

  lemma WorkerStepWorks(s: State, step: Step)
    requires Enabled(s, step)
    requires !step.Arrive? && !step.Disconnect? && !step.AcquireRead? && !step.Push? && !step.ReadFlag? && !step.Spawn?
    ensures Work(Next(s, step)) < Work(s)
  {
    WorkersUpdate(s.workers, step.w, Next(s, step).workers[step.w]);
    hide CallersWork, WorkersWork;
  }

  lemma StepWorks(s: State, step: Step)
    requires Enabled(s, step) && !step.Arrive?
    ensures Work(Next(s, step)) < Work(s)
  {
    if step.Spawn? {
      SpawnWorks(s, step);
    } else if step.Disconnect? || step.AcquireRead? || step.Push? || step.ReadFlag? {
      CallerStepWorks(s, step);
    } else {
      WorkerStepWorks(s, step);
    }
  }

  /**
   * Once arrivals stop, every schedule comes to rest within Work(s) steps; with
   * NeverStuck and RestMeansConverted, every element pushed gets converted.
   */
  lemma {:induction false} SchedulesEnd(s: State, steps: seq<Step>, s': State)
    requires Run(s, steps, s')
    requires forall k :: 0 <= k < |steps| ==> !steps[k].Arrive?
    ensures |steps| + Work(s') <= Work(s)
    decreases |steps|
  {
    if steps != [] {
      StepWorks(s, steps[0]);
      SchedulesEnd(Next(s, steps[0]), steps[1..], s');
    }
  }
}
