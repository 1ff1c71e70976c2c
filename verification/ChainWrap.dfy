/**
 The limit of duplicate detection. The sequence number advances even when a
 reading finds no room, so after 65535 dropped readings in a row the next one
 repeats the key of the last one queued, and the receiver swallows it. This run
 of a two-node chain, on a clock that goes forward and with every retransmission
 sent, shows that exactly-once delivery does not hold for all runs.
 */
module ChainWrap {
  import opened Words
  import opened Config
  import opened ChainSpec
  import opened ChainNet
  import opened NodeInvariant
  import opened ChainInvariant
  import opened ChainDelivery
  import opened ChainPotential
  import opened ChainProgress
  import opened Timers

  // Runs in true time.

  /** The steps happen one after the other between `now` and `end`, each pass reading the true time in 32 bits. */
  ghost predicate Timed(steps: seq<Step>, times: seq<Times>, now: nat, end: nat)
    decreases |steps|
  {
    && |times| == |steps|
    && (if steps == [] then now <= end
        else
          && now <= times[0].helloCheck && InOrder(times[0])
          && (steps[0].Pass? ==> steps[0].clock == ClockOf(times[0]))
          && Timed(steps[1..], times[1..], times[0].ackStamp, end))
  }

  lemma TimedEarlier(steps: seq<Step>, times: seq<Times>, before: nat, now: nat, end: nat)
    requires Timed(steps, times, now, end) && before <= now
    ensures Timed(steps, times, before, end)
  {
  }

  lemma {:induction false} TimedConcat(a: seq<Step>, ta: seq<Times>, b: seq<Step>, tb: seq<Times>,
                                       now: nat, mid: nat, end: nat)
    requires Timed(a, ta, now, mid) && Timed(b, tb, mid, end)
    ensures Timed(a + b, ta + tb, now, end)
    decreases |a|
  {
    if a == [] {
      assert a + b == b && ta + tb == tb;
      TimedEarlier(b, tb, now, mid, end);
    } else {
      assert (a + b)[1..] == a[1..] + b && (ta + tb)[1..] == ta[1..] + tb;
      assert (a + b)[0] == a[0] && (ta + tb)[0] == ta[0];
      TimedConcat(a[1..], ta[1..], b, tb, ta[0].ackStamp, mid, end);
    }
  }

  /** A run between two states in true time. */
  ghost predicate Leads(net: Net, now: nat, steps: seq<Step>, times: seq<Times>, net': Net, end: nat) {
    WellFormed(net) && IsRun(net, steps) && Exec(net, steps) == net' && Timed(steps, times, now, end)
  }

  lemma LeadsOn(net: Net, now: nat, a: seq<Step>, ta: seq<Times>, net': Net, mid: nat,
                b: seq<Step>, tb: seq<Times>, net'': Net, end: nat)
    requires Leads(net, now, a, ta, net', mid) && Leads(net', mid, b, tb, net'', end)
    ensures Leads(net, now, a + b, ta + tb, net'', end)
  {
    ExecAppend(net, a, b);
    TimedConcat(a, ta, b, tb, now, mid, end);
  }

  /** All readings of a pass at one millisecond. */
  function At(t: nat): Times { Times(t, t, t, t, t, t, t, t) }

  lemma OneStep(net: Net, step: Step, t: nat)
    requires WellFormed(net) && Enabled(net, step) && (step.Pass? ==> step.clock == ClockOf(At(t)))
    ensures Leads(net, t, [step], [At(t)], Apply(net, step), t)
  {
    assert [step][1..] == [] && [At(t)][1..] == [];
  }

  lemma TwoSteps(net: Net, first: Step, second: Step, t: nat)
    requires WellFormed(net) && Enabled(net, first) && (first.Pass? ==> first.clock == ClockOf(At(t)))
    requires Enabled(Apply(net, first), second) && (second.Pass? ==> second.clock == ClockOf(At(t)))
    ensures Leads(net, t, [first] + [second], [At(t)] + [At(t)], Apply(Apply(net, first), second), t)
  {
    OneStep(net, first, t);
    OneStep(Apply(net, first), second, t);
    LeadsOn(net, t, [first], [At(t)], Apply(net, first), t, [second], [At(t)], Apply(Apply(net, first), second), t);
  }

  // The stalled relay.

  /** Two nodes that boot at time zero. */
  function Start(): Net {
    Net([1, 2], seq(2, i requires 0 <= i < 2 => Init(i, 2, 0)), seq(2, _ => Link([], [])), seq(2, _ => EMPTY_HISTORY),
        [], [])
  }

  lemma StartIsBoot()
    ensures JustBooted(Start())
  {
    forall i | 0 <= i < 2 ensures FreshNode(Start(), i) {
    }
  }

  const TICKS := 65544

  /** Tick t, two seconds after the one before. */
  function TickTime(t: nat): nat { STATUS_LOCAL_INTERVAL_MS * t }

  function Tick(t: nat): Step { Pass(1, ClockOf(At(TickTime(t)))) }

  /** Early times fit into 32 bits. */
  lemma EarlyTime(t: nat)
    requires t <= TICKS + 1
    ensures NowMs(TickTime(t)) == TickTime(t) && Wrap32(TickTime(t) + ACK_TIMEOUT_MS) == TickTime(t) + ACK_TIMEOUT_MS
  {
    Remainder(TickTime(t), 0, TWO_TO_THE_32);
    Remainder(TickTime(t) + ACK_TIMEOUT_MS, 0, TWO_TO_THE_32);
  }

  /** Relay 1 after t ticks: its first packet in the slot and as yet no frame of it has come through. */
  ghost predicate Stalled(net: Net, t: nat) {
    && Inv(net) && |net.macs| == 2 && AllUp(net) && 1 <= t <= TICKS
    && net.nodes[1].phase == Forwarding
    && net.nodes[1].lastLocalMs == TickTime(t) && net.nodes[1].ackDeadlineMs == TickTime(t) + ACK_TIMEOUT_MS
    && net.hist[1].ticks == t && |net.hist[1].started| == 1
    && FirstNine(net.hist[1].localTicks, t)
  }

  ghost predicate FirstNine(localTicks: seq<nat>, t: nat) {
    |localTicks| == (if t < 9 then t else 9) && forall k :: 0 <= k < |localTicks| ==> localTicks[k] == k
  }

  /** Relay 1 has nobody upstream, so all it queues is its own. */
  lemma OwnReadingsOnly(net: Net)
    requires Inv(net) && |net.macs| == 2
    ensures net.hist[1].queued == net.hist[1].local
    ensures |net.hist[1].localTicks| == |net.hist[1].started| + |net.nodes[1].queue|
  {
    var h := net.hist[1];
    assert NodeInv(net.macs, 1, net.nodes[1], h);
    assert FromOrigin(h.queued, 1) == h.local;
    OnlyOrigin(h.queued, 1);
  }

  lemma {:induction false} OnlyOrigin(s: seq<Packet>, j: nat)
    requires forall k :: 0 <= k < |s| ==> s[k].origin == j
    ensures FromOrigin(s, j) == s
  {
    if s != [] {
      OnlyOrigin(s[..|s| - 1], j);
    }
  }

  /** A waiting node at a tick: the reading is due, and so is the retransmission. */
  lemma WaitingTick(s: Node, t: nat)
    requires 1 <= t < TICKS && s.phase == Forwarding && !s.role.isGateway
    requires s.lastLocalMs == TickTime(t) && s.ackDeadlineMs == TickTime(t) + ACK_TIMEOUT_MS
    ensures var clock := ClockOf(At(TickTime(t + 1)));
      var o := Loop(s, clock);
      && LocalDue(s, clock) && o.radio == SendStatus(s.peers.nextMac, s.pending)
      && o.node.phase == Forwarding && o.node.lastLocalMs == TickTime(t + 1)
      && o.node.ackDeadlineMs == TickTime(t + 1) + ACK_TIMEOUT_MS
  {
    EarlyTime(t + 1);
    Remainder(TickTime(t + 1) - TickTime(t), 0, TWO_TO_THE_32);
  }

  /** A node with a free slot and an empty queue at a tick: it starts its reading. */
  lemma IdleTick(s: Node, t: nat)
    requires t <= TICKS && s.phase == Idle && !s.role.isGateway && s.queue == [] && s.lastLocalMs == TickTime(t)
    ensures var clock := ClockOf(At(TickTime(t + 1)));
      var o := Loop(s, clock);
      && LocalDue(s, clock) && o.radio == SendStatus(s.peers.nextMac, Reading(s))
      && o.node.phase == Forwarding && o.node.lastLocalMs == TickTime(t + 1) && o.node.queue == []
      && o.node.ackDeadlineMs == TickTime(t + 1) + ACK_TIMEOUT_MS
  {
    EarlyTime(t + 1);
    Remainder(TickTime(t + 1) - TickTime(t), 0, TWO_TO_THE_32);
  }

  lemma IsRelay(net: Net)
    requires Inv(net) && |net.macs| == 2
    ensures !net.nodes[1].role.isGateway
  {
    assert NodeInv(net.macs, 1, net.nodes[1], net.hist[1]);
  }

  /** What a pass of relay 1 logs. */
  lemma PassLogs(net: Net, clock: Clock)
    requires Inv(net) && |net.macs| == 2 && AllUp(net) && LocalDue(net.nodes[1], clock)
    ensures var s, h := net.nodes[1], net.hist[1];
      var net' := Apply(net, Pass(1, clock));
      && Inv(net') && AllUp(net') && |net'.macs| == 2 && net'.nodes[1] == Loop(s, clock).node
      && net'.hist[1].ticks == h.ticks + 1
      && net'.hist[1].localTicks == (if |s.queue| < STATUS_QUEUE_DEPTH then h.localTicks + [h.ticks] else h.localTicks)
      && |net'.hist[1].started|
         == |h.started| + (if s.phase != Forwarding && net'.nodes[1].phase == Forwarding then 1 else 0)
  {
    StepKeepsInv(net, Pass(1, clock));
    PassKeepsUp(net, Pass(1, clock));
    PassEffect(net, 1, clock);
    assert NodeInv(net.macs, 1, net.nodes[1], net.hist[1]);
  }

  lemma PassKeepsUp(net: Net, step: Step)
    requires Inv(net) && AllUp(net) && Enabled(net, step)
    ensures AllUp(Apply(net, step))
  {
    ChainFacts.StepRemembers(net, step);
  }

  /** One more tick: the retransmission is sent, and lost. */
  lemma StalledTick(net: Net, t: nat) returns (net': Net)
    requires Stalled(net, t) && t < TICKS && net.links[1] == Link([], [])
    ensures Stalled(net', t + 1) && net'.links[1] == Link([], [])
    ensures Leads(net, TickTime(t + 1), [Tick(t + 1)] + [LoseStatus(1, 0)],
                  [At(TickTime(t + 1))] + [At(TickTime(t + 1))], net', TickTime(t + 1))
  {
    var net1 := StalledSent(net, t);
    TwoSteps(net, Tick(t + 1), LoseStatus(1, 0), TickTime(t + 1));
    net' := Apply(net1, LoseStatus(1, 0));
    StepKeepsInv(net1, LoseStatus(1, 0));
  }

  /** The tick itself. */
  lemma StalledSent(net: Net, t: nat) returns (net': Net)
    requires Stalled(net, t) && t < TICKS && net.links[1] == Link([], [])
    ensures net' == Apply(net, Tick(t + 1)) && Stalled(net', t + 1)
    ensures net'.links[1] == Link([net.nodes[1].pending], [])
  {
    var s, clock := net.nodes[1], ClockOf(At(TickTime(t + 1)));
    IsRelay(net);
    OwnReadingsOnly(net);
    WaitingTick(s, t);
    PassLogs(net, clock);
    PassLinks(net, 1, clock);
    net' := Apply(net, Tick(t + 1));
  }

  /** After nine ticks the queue is full, and all later readings are dropped. */
  lemma {:induction false} KeepStalling(net: Net, t: nat, k: nat)
    returns (steps: seq<Step>, times: seq<Times>, net': Net)
    requires Stalled(net, t) && t + k <= TICKS && net.links[1] == Link([], [])
    ensures Stalled(net', t + k) && net'.links[1] == Link([], [])
    ensures Leads(net, TickTime(t), steps, times, net', TickTime(t + k))
    decreases k
  {
    steps, times, net' := [], [], net;
    if k > 0 {
      var net1 := StalledTick(net, t);
      var a, ta := [Tick(t + 1)] + [LoseStatus(1, 0)], [At(TickTime(t + 1))] + [At(TickTime(t + 1))];
      TimedEarlier(a, ta, TickTime(t), TickTime(t + 1), TickTime(t + 1));
      var b, tb;
      b, tb, net' := KeepStalling(net1, t + 1, k - 1);
      LeadsOn(net, TickTime(t), a, ta, net1, TickTime(t + 1), b, tb, net', TickTime(t + k));
      steps, times := a + b, ta + tb;
    }
  }

  // Before and after.

  /** Both nodes have heard each other's HELLO at time zero. */
  lemma Up() returns (net: Net, steps: seq<Step>, times: seq<Times>)
    ensures Leads(Start(), 0, steps, times, net, 0)
    ensures Inv(net) && |net.macs| == 2 && AllUp(net) && net.links[1] == Link([], [])
    ensures net.nodes[1].phase == Idle && net.nodes[1].queue == [] && net.nodes[1].lastLocalMs == 0
    ensures net.hist[1] == EMPTY_HISTORY
  {
    StartIsBoot();
    BootInv(Start());
    var s0, s1 := ChainNet.HearHello(0, 2, Hello(1, 2)), ChainNet.HearHello(1, 1, Hello(0, 2));
    StepKeepsInv(Start(), s0);
    StepKeepsInv(Apply(Start(), s0), s1);
    TwoSteps(Start(), s0, s1, 0);
    net, steps, times := Apply(Apply(Start(), s0), s1), [s0] + [s1], [At(0)] + [At(0)];
    assert net.nodes[0].phase == Idle && net.nodes[1].phase == Idle;
  }

  lemma FirstTick() returns (net: Net, steps: seq<Step>, times: seq<Times>)
    ensures Leads(Start(), 0, steps, times, net, TickTime(1))
    ensures Stalled(net, 1) && net.links[1] == Link([], [])
  {
    var net0, a, ta := Up();
    var net1 := FreshTick(net0);
    TwoSteps(net0, Tick(1), LoseStatus(1, 0), TickTime(1));
    StepKeepsInv(net1, LoseStatus(1, 0));
    net := Apply(net1, LoseStatus(1, 0));
    var b, tb := [Tick(1)] + [LoseStatus(1, 0)], [At(TickTime(1))] + [At(TickTime(1))];
    TimedEarlier(b, tb, 0, TickTime(1), TickTime(1));
    LeadsOn(Start(), 0, a, ta, net0, 0, b, tb, net, TickTime(1));
    steps, times := a + b, ta + tb;
  }

  lemma FreshTick(net: Net) returns (net': Net)
    requires Inv(net) && |net.macs| == 2 && AllUp(net) && net.links[1] == Link([], [])
    requires net.nodes[1].phase == Idle && net.nodes[1].queue == [] && net.nodes[1].lastLocalMs == 0
    requires net.hist[1] == EMPTY_HISTORY
    ensures net' == Apply(net, Tick(1)) && Stalled(net', 1) && |net'.links[1].data| == 1 && net'.links[1].acks == []
  {
    var clock := ClockOf(At(TickTime(1)));
    IsRelay(net);
    IdleTick(net.nodes[1], 0);
    PassLogs(net, clock);
    PassLinks(net, 1, clock);
    net' := Apply(net, Tick(1));
  }

  // Then frames come through, and the relay drains between two ticks.

  /** Relay 1 in the second after tick TICKS, its packet on the air or its slot free. */
  ghost predicate Draining(net: Net, localTicks: seq<nat>) {
    && Inv(net) && |net.macs| == 2 && AllUp(net)
    && net.nodes[1].lastLocalMs == TickTime(TICKS)
    && net.hist[1].ticks == TICKS && net.hist[1].localTicks == localTicks
  }

  lemma QuietKeepsDraining(net: Net, step: Step, localTicks: seq<nat>)
    requires Draining(net, localTicks) && Enabled(net, step) && IsQuiet(net, step)
    requires Apply(net, step).nodes[1].lastLocalMs == net.nodes[1].lastLocalMs
    ensures Draining(Apply(net, step), localTicks)
  {
    QuietStepPays(net, step);
    assert [step][1..] == [];
    QuietKeepsReadings(net, [step]);
  }

  /** The Gateway always answers: it takes the packet or knows it already. */
  lemma Answered(net: Net, localTicks: seq<nat>)
    requires Draining(net, localTicks) && net.links[1] == Link([net.nodes[1].pending], [])
    ensures var net' := Apply(net, TakeStatus(1));
      && Draining(net', localTicks) && net'.nodes[1] == net.nodes[1]
      && net'.links[1] == Link([], [KeyOf(net.nodes[1].pending)])
  {
    var pkt := net.nodes[1].pending;
    StatusCases(net, 1);
    LinkAfterStatusOf(net, 1);
    assert NodeInv(net.macs, 0, net.nodes[0], net.hist[0]);
    assert FromPrev(net.nodes[0], net.macs[1]);
    QuietKeepsDraining(net, TakeStatus(1), localTicks);
  }

  lemma Freed(net: Net, localTicks: seq<nat>)
    requires Draining(net, localTicks) && net.nodes[1].phase == Forwarding
    requires net.links[1] == Link([], [KeyOf(net.nodes[1].pending)])
    ensures var net' := Apply(net, TakeAck(1));
      && Draining(net', localTicks) && net'.links[1] == Link([], [])
      && net'.nodes[1].phase == Idle && net'.nodes[1].queue == net.nodes[1].queue
  {
    assert NodeInv(net.macs, 1, net.nodes[1], net.hist[1]);
    QuietKeepsDraining(net, TakeAck(1), localTicks);
  }

  /** A pass at once after the tick: no reading is due, the next packet starts. */
  lemma NextStarts(net: Net, localTicks: seq<nat>)
    requires Draining(net, localTicks) && net.links[1] == Link([], [])
    requires net.nodes[1].phase == Idle && net.nodes[1].queue != []
    ensures var net' := Apply(net, Tick(TICKS));
      && Draining(net', localTicks) && net'.nodes[1].phase == Forwarding
      && net'.links[1] == Link([net'.nodes[1].pending], []) && net'.nodes[1].queue == net.nodes[1].queue[1..]
  {
    var s, clock := net.nodes[1], ClockOf(At(TickTime(TICKS)));
    assert NodeInv(net.macs, 1, s, net.hist[1]);
    EarlyTime(TICKS);
    Remainder(0, 0, TWO_TO_THE_32);
    QuietPassShape(s, clock);
    PassLinks(net, 1, clock);
    PassChanges(net, 1, clock);
    NotDuePass(s, clock);
    QuietKeepsDraining(net, Tick(TICKS), localTicks);
  }

  lemma NotDuePass(s: Node, clock: Clock)
    requires !LocalDue(s, clock)
    ensures Loop(s, clock).node.lastLocalMs == s.lastLocalMs
    ensures s.phase == Idle && s.queue != [] && !s.role.isGateway ==> Loop(s, clock).node.phase == Forwarding
  {
    var s1 := AfterHello(s, clock);
    assert s.phase != Discovering ==> Originate(s1, clock) == s1;
  }

  /** One packet after the other gets through. */
  lemma {:induction false} Drain(net: Net, localTicks: seq<nat>)
    returns (steps: seq<Step>, times: seq<Times>, net': Net)
    requires Draining(net, localTicks) && net.nodes[1].phase == Forwarding
    requires net.links[1] == Link([net.nodes[1].pending], [])
    ensures Leads(net, TickTime(TICKS), steps, times, net', TickTime(TICKS))
    ensures Draining(net', localTicks) && net'.nodes[1].phase == Idle && net'.nodes[1].queue == []
    ensures net'.links[1] == Link([], [])
    decreases |net.nodes[1].queue|
  {
    var t := TickTime(TICKS);
    Answered(net, localTicks);
    Freed(Apply(net, TakeStatus(1)), localTicks);
    TwoSteps(net, TakeStatus(1), TakeAck(1), t);
    steps, times := [TakeStatus(1)] + [TakeAck(1)], [At(t)] + [At(t)];
    net' := Apply(Apply(net, TakeStatus(1)), TakeAck(1));
    if net'.nodes[1].queue != [] {
      var net2 := Apply(net', Tick(TICKS));
      NextStarts(net', localTicks);
      OneStep(net', Tick(TICKS), t);
      LeadsOn(net, t, steps, times, net', t, [Tick(TICKS)], [At(t)], net2, t);
      var b, tb, net3 := Drain(net2, localTicks);
      LeadsOn(net, t, steps + [Tick(TICKS)], times + [At(t)], net2, t, b, tb, net3, t);
      steps, times, net' := (steps + [Tick(TICKS)]) + b, (times + [At(t)]) + tb, net3;
    }
  }

  /** The last tick of the stall, whose retransmission comes through. */
  lemma Unstalled(net: Net) returns (net': Net)
    requires Stalled(net, TICKS - 1) && net.links[1] == Link([], [])
    ensures net' == Apply(net, Tick(TICKS)) && Stalled(net', TICKS)
    ensures net'.links[1] == Link([net'.nodes[1].pending], [])
    ensures Leads(net, TickTime(TICKS), [Tick(TICKS)], [At(TickTime(TICKS))], net', TickTime(TICKS))
  {
    net' := StalledSent(net, TICKS - 1);
    OneStep(net, Tick(TICKS), TickTime(TICKS));
    assert NodeInv(net.macs, 1, net.nodes[1], net.hist[1]);
    WaitingTick(net.nodes[1], TICKS - 1);
    PassChanges(net, 1, ClockOf(At(TickTime(TICKS))));
    RelayPass(net.nodes[1], net.hist[1], ClockOf(At(TickTime(TICKS))));
  }

  lemma DrainedAgain() returns (net: Net, steps: seq<Step>, times: seq<Times>)
    ensures Leads(Start(), 0, steps, times, net, TickTime(TICKS))
    ensures exists localTicks :: Draining(net, localTicks) && |localTicks| == 9 && localTicks[8] == 8
    ensures net.nodes[1].phase == Idle && net.nodes[1].queue == [] && net.links[1] == Link([], [])
  {
    var net1, a, ta := FirstTick();
    var b, tb, net2 := KeepStalling(net1, 1, TICKS - 2);
    LeadsOn(Start(), 0, a, ta, net1, TickTime(1), b, tb, net2, TickTime(TICKS - 1));
    var net3 := Unstalled(net2);
    var c, tc := [Tick(TICKS)], [At(TickTime(TICKS))];
    TimedEarlier(c, tc, TickTime(TICKS - 1), TickTime(TICKS), TickTime(TICKS));
    LeadsOn(Start(), 0, a + b, ta + tb, net2, TickTime(TICKS - 1), c, tc, net3, TickTime(TICKS));
    var localTicks := net3.hist[1].localTicks;
    var d, td;
    d, td, net := Drain(net3, localTicks);
    LeadsOn(Start(), 0, (a + b) + c, (ta + tb) + tc, net3, TickTime(TICKS), d, td, net, TickTime(TICKS));
    steps, times := ((a + b) + c) + d, ((ta + tb) + tc) + td;
  }

  /** The tick after that repeats the key of the last reading that found room. */
  lemma RepeatAfterDrain(net: Net, localTicks: seq<nat>)
    requires Draining(net, localTicks) && |localTicks| == 9 && localTicks[8] == 8
    requires net.nodes[1].phase == Idle && net.nodes[1].queue == []
    ensures var net' := Apply(net, Tick(TICKS + 1));
      Inv(net') && !NoRepeats(net')
  {
    var s, clock := net.nodes[1], ClockOf(At(TickTime(TICKS + 1)));
    assert NodeInv(net.macs, 1, s, net.hist[1]);
    IdleTick(s, TICKS);
    OwnReadingsOnly(net);
    PassLogs(net, clock);
    RepeatSeen(Apply(net, Tick(TICKS + 1)));
  }

  lemma RepeatSeen(net: Net)
    requires Inv(net) && |net.macs| == 2 && |net.hist[1].started| == |net.hist[1].localTicks| == 10
    requires net.hist[1].localTicks[8] == 8 && net.hist[1].localTicks[9] == TICKS
    ensures !NoRepeats(net)
  {
    var h := net.hist[1];
    assert NodeInv(net.macs, 1, net.nodes[1], h);
    OwnReadingsOnly(net);
    assert h.started == h.queued[..10];
    SameKey(h.local[8], h.local[9]);
    assert KeyOf(h.started[8]) == KeyOf(h.started[8 + 1]);
  }

  /** Sixteen bits do not tell reading 65544 from reading 8. */
  lemma SameKey(p: Packet, q: Packet)
    requires Numbered(p, 8) && Numbered(q, TICKS) && p.origin == q.origin
    ensures KeyOf(p) == KeyOf(q)
  {
    Remainder(TICKS, 1, TWO_TO_THE_16);
    Remainder(8, 0, TWO_TO_THE_16);
  }

  /**
   There is a run from boot in true time after which a queued reading is neither
   at the Gateway nor held anywhere: a day and a half in which no frame of relay 1
   comes through, 65535 dropped readings, then a moment of good reception.
   */
  lemma ReadingSwallowed() returns (steps: seq<Step>, times: seq<Times>)
    ensures JustBooted(Start()) && IsRun(Start(), steps) && Timed(steps, times, 0, TickTime(TICKS + 1))
    ensures !ExactlyOnce(Exec(Start(), steps))
  {
    StartIsBoot();
    var net, a, ta := DrainedAgain();
    var localTicks :| Draining(net, localTicks) && |localTicks| == 9 && localTicks[8] == 8;
    var t := TickTime(TICKS + 1);
    RepeatAfterDrain(net, localTicks);
    OneStep(net, Tick(TICKS + 1), t);
    TimedEarlier([Tick(TICKS + 1)], [At(t)], TickTime(TICKS), t, t);
    LeadsOn(Start(), 0, a, ta, net, TickTime(TICKS), [Tick(TICKS + 1)], [At(t)], Apply(net, Tick(TICKS + 1)), t);
    ExactlyOnceIff(Apply(net, Tick(TICKS + 1)));
    steps, times := a + [Tick(TICKS + 1)], ta + [At(t)];
  }
}
