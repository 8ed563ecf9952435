/** Thinning of progress messages, as the upload and the backup senders both do it. */
module ProgressThrottle {
  import opened Prelude

  type Kind = string

  /** Progress of one transfer; both numbers are unsigned and may be unknown. */
  datatype Message = Message(kind: Kind, current: Option<nat>, total: Option<nat>)

  const MAX_GAP := 1_000_000

  datatype State = State(lastSend: nat, lastKind: Option<Kind>)

  const START := State(0, None)

  function Current(m: Message): nat {
    m.current.GetOr(1)
  }

  /** Unsigned subtraction: callers must show it does not underflow. */
  function Gap(current: nat, lastSend: nat): nat
    requires lastSend <= current
  {
    current - lastSend
  }

  predicate Sends(st: State, m: Message) {
    || m.current == m.total
    || st.lastSend == 0
    || Current(m) < st.lastSend
    || Gap(Current(m), st.lastSend) > MAX_GAP
    || Some(m.kind) != st.lastKind
  }

  /** The messages let through, in order. */
  function Sent(st: State, input: seq<Message>): seq<Message>
    decreases |input|
  {
    if input == [] then []
    else if Sends(st, input[0]) then [input[0]] + Sent(State(Current(input[0]), Some(input[0].kind)), input[1..])
    else Sent(st, input[1..])
  }

  /** What a backup status shows for a message. */
  function Shown(sent: seq<Message>): seq<nat> {
    seq(|sent|, i requires 0 <= i < |sent| => sent[i].current.GetOr(0))
  }

  method CreateProgressSender(received: seq<Message>) returns (messages: seq<Message>)
    ensures messages == Sent(START, received)
  {
    messages := [];
    var lastSend: nat, lastType: Option<Kind> := 0, None;
    for i := 0 to |received|
      invariant messages + Sent(State(lastSend, lastType), received[i..]) == Sent(START, received)
    {
      var progress := received[i];
      assert received[i..][1..] == received[i + 1..];
      var current := progress.current.GetOr(1);
      if progress.current == progress.total || lastSend == 0 || current < lastSend || Gap(current, lastSend) > MAX_GAP
         || Some(progress.kind) != lastType {
        lastType := Some(progress.kind);
        lastSend := current;
        messages := messages + [progress];
      }
    }
    assert received[|received|..] == [];
  }

  method CreateBackupProgressSender(received: seq<Message>) returns (statuses: seq<nat>)
    ensures statuses == Shown(Sent(START, received))
  {
    statuses := [];
    var lastSend: nat, lastType: Option<Kind> := 0, None;
    for i := 0 to |received|
      invariant statuses + Shown(Sent(State(lastSend, lastType), received[i..])) == Shown(Sent(START, received))
    {
      var progress := received[i];
      assert received[i..][1..] == received[i + 1..];
      var current := progress.current.GetOr(1);
      if progress.current == progress.total || lastSend == 0 || current < lastSend || Gap(current, lastSend) > MAX_GAP
         || Some(progress.kind) != lastType {
        lastType := Some(progress.kind);
        lastSend := current;
        ShownCons(progress, Sent(State(lastSend, lastType), received[i + 1..]));
        statuses := statuses + [progress.current.GetOr(0)];
      }
    }
    assert received[|received|..] == [];
  }

  lemma ShownCons(m: Message, sent: seq<Message>)
    ensures Shown([m] + sent) == [m.current.GetOr(0)] + Shown(sent)
  {
  }

  // ---------------------------------------------------------------------------
  // Viewers are never far behind
  // ---------------------------------------------------------------------------

  /** The value shown last is of the message's kind and at most 1,000,000 below the message's own. */
  predicate CloseTo(shown: Message, m: Message) {
    shown.kind == m.kind && Current(shown) <= Current(m) <= Current(shown) + 1_000_000
  }

  /** Whatever was received, the last message let through is close to the last one received. */
  lemma LastSentIsClose(received: seq<Message>)
    requires received != []
    ensures var sent := Sent(START, received);
      sent != [] && CloseTo(sent[|sent| - 1], received[|received| - 1])
  {
    var m := received[0];
    var rest := Sent(State(Current(m), Some(m.kind)), received[1..]);
    assert Sent(START, received) == [m] + rest;
    if |received| > 1 {
      CloseAfter(m, received[1..]);
      assert received[1..][|received| - 2] == received[|received| - 1];
      if rest != [] { assert ([m] + rest)[|rest|] == rest[|rest| - 1]; }
    }
  }

  /** The same once some message has been let through: nothing new, or something close. */
  lemma {:induction false} CloseAfter(shown: Message, received: seq<Message>)
    requires received != []
    ensures var sent := Sent(State(Current(shown), Some(shown.kind)), received);
      CloseTo(if sent == [] then shown else sent[|sent| - 1], received[|received| - 1])
    decreases |received|
  {
    var st, m := State(Current(shown), Some(shown.kind)), received[0];
    var next := if Sends(st, m) then m else shown;
    if |received| > 1 {
      CloseAfter(next, received[1..]);
    }
  }

  // ---------------------------------------------------------------------------
  // Few messages for a steady transfer
  // ---------------------------------------------------------------------------

  /** Growing positions of one kind, none past the total. */
  predicate Steady(received: seq<Message>, kind: Kind, total: nat) {
    && (forall i :: 0 <= i < |received| ==>
          && received[i].kind == kind && received[i].total == Some(total)
          && received[i].current.Some? && received[i].current.value <= total)
    && (forall i :: 0 < i < |received| ==> Current(received[i - 1]) < Current(received[i]))
  }

  lemma SteadyTail(received: seq<Message>, kind: Kind, total: nat)
    requires Steady(received, kind, total) && received != []
    ensures Steady(received[1..], kind, total)
    ensures |received| > 1 ==> Current(received[0]) < Current(received[1..][0])
  {
  }

  /** After a positive position, each further message needs a gap, except the one reaching the total. */
  lemma {:induction false} FewAfter(last: nat, received: seq<Message>, kind: Kind, total: nat)
    requires 0 < last <= total && Steady(received, kind, total)
    requires received != [] ==> last < Current(received[0])
    ensures |Sent(State(last, Some(kind)), received)| <= 1 + (total - last) / (MAX_GAP + 1)
    decreases |received|
  {
    if received != [] {
      var c := Current(received[0]);
      SteadyTail(received, kind, total);
      if c == total {
        assert |received| == 1;
        assert Sent(State(c, Some(kind)), received[1..]) == [];
      } else if c - last > MAX_GAP {
        FewAfter(c, received[1..], kind, total);
        assert (total - c) / (MAX_GAP + 1) + 1 <= (total - last) / (MAX_GAP + 1);
      } else {
        FewAfter(last, received[1..], kind, total);
      }
    }
  }

  /** A steady transfer of a given total sends at most 3 messages and one more per gap. */
  lemma SteadySendsFew(received: seq<Message>, kind: Kind, total: nat)
    requires Steady(received, kind, total)
    ensures |Sent(START, received)| <= 3 + total / 1_000_001
  {
    if received != [] {
      SteadyTail(received, kind, total);
      var first, rest := Current(received[0]), received[1..];
      if first > 0 {
        FewAfter(first, rest, kind, total);
      } else if rest != [] {
        SteadyTail(rest, kind, total);
        FewAfter(Current(rest[0]), rest[1..], kind, total);
      }
    }
  }

  /** The bound is reached. */
  lemma SteadyBoundReached()
    ensures exists received ::
              Steady(received, "transfer", MAX_GAP + 3) && |Sent(START, received)| == 3 + (MAX_GAP + 3) / (MAX_GAP + 1)
  {
    var k, t := "transfer", Some(MAX_GAP + 3);
    var m0, m1 := Message(k, Some(0), t), Message(k, Some(1), t);
    var m2, m3 := Message(k, Some(MAX_GAP + 2), t), Message(k, Some(MAX_GAP + 3), t);
    var received := [m0, m1, m2, m3];
    assert received[1..] == [m1, m2, m3] && received[1..][1..] == [m2, m3] && [m2, m3][1..] == [m3] && [m3][1..] == [];
    assert Sent(State(MAX_GAP + 2, Some(k)), [m3]) == [m3];
    assert Sent(State(1, Some(k)), [m2, m3]) == [m2, m3];
    assert Sent(State(0, Some(k)), [m1, m2, m3]) == [m1, m2, m3];
    assert Sent(START, received) == [m0] + [m1, m2, m3];
    assert Steady(received, k, MAX_GAP + 3) && |Sent(START, received)| == 4;
  }
}
