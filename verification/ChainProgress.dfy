/**
 Backpressure never deadlocks. Over a round, in which nothing is lost, every relay
 that waits polls an expired deadline and everything on the air is received, the
 chain does at least one unit of the work that readings bring, or it is empty at
 the end; new readings may come in all the time, and schedule and clocks are any.
 */
module ChainProgress {
  import opened ChainSpec
  import opened HopProtocol
  import opened Subsequence
  import opened ChainNet
  import opened NodeInvariant
  import opened ChainInvariant
  import opened ChainDelivery
  import opened ChainFacts
  import opened ChainPotential
  import opened ChainWork

  // Rounds.

  /** In the course of the run node i makes a pass, at which its deadline, if it waits for an ACK, is over. */
  ghost predicate Polls(net: Net, steps: seq<Step>, i: nat)
    requires WellFormed(net) && IsRun(net, steps) && i < |net.macs|
    decreases |steps|
  {
    steps != [] &&
    ((steps[0].Pass? && steps[0].at == i
      && (net.nodes[i].phase == Forwarding ==> RetransmitDue(net.nodes[i], steps[0].clock)))
     || Polls(Apply(net, steps[0]), steps[1..], i))
  }

  /** Nothing is lost, every relay polls, and at the end everything on the air was received. */
  ghost predicate IsRound(net: Net, steps: seq<Step>)
    requires WellFormed(net)
  {
    && IsRun(net, steps) && AreLossFree(steps)
    && (forall i {:trigger Polls(net, steps, i)} :: 1 <= i < |net.macs| ==> Polls(net, steps, i))
    && AirEmpty(Exec(net, steps))
  }

  /** A waiting node whose packet, or the ACK for it, is on the air. */
  ghost predicate Promised(net: Net, at: nat)
    requires WellFormed(net) && at < |net.macs|
  {
    && net.nodes[at].phase == Forwarding
    && (net.nodes[at].pending in net.links[at].data || KeyOf(net.nodes[at].pending) in net.links[at].acks)
  }

  /** The next node has room, and keeps it while the balance stays: it is the Gateway, or it has nothing at all. */
  ghost predicate ClearAhead(net: Net, at: nat)
    requires WellFormed(net) && at < |net.macs|
  {
    var r := NextOf(at, |net.macs|);
    net.nodes[r].role.isGateway || (net.nodes[r].phase == Idle && net.nodes[r].queue == [])
  }

  lemma StaysClear(net: Net, net': Net, at: nat)
    requires WellFormed(net) && WellFormed(net') && net'.macs == net.macs && GrownCore(net, net') && at < |net.macs|
    ensures ClearAhead(net, at) ==> ClearAhead(net', at)
    ensures net'.nodes[at].phase == net.nodes[at].phase && net'.nodes[at].pending == net.nodes[at].pending
    ensures net.nodes[at].phase != Forwarding ==> net'.nodes[at].queue == net.nodes[at].queue
  {
    assert GrownNode(net.nodes[at], net'.nodes[at]);
    assert GrownNode(net.nodes[NextOf(at, |net.macs|)], net'.nodes[NextOf(at, |net.macs|)]);
  }

  lemma StillIn<T>(s: seq<T>, x: T)
    requires s != [] && x in s && s[0] != x
    ensures x in s[1..]
  {
    var k :| 0 <= k < |s| && s[k] == x;
    assert s[1..][k - 1] == x;
  }

  lemma LinkAfterStatusOf(net: Net, hop: nat)
    requires Inv(net) && 1 <= hop < |net.macs| && net.links[hop].data != []
    ensures Apply(net, TakeStatus(hop)).links == net.links[hop := LinkAfterStatus(net, hop)]
  {
    StatusEffect(net, hop);
  }

  /** The packet arrives: it is taken, which pays, or its ACK is sent. */
  lemma PromiseArrives(net: Net, at: nat)
    requires Inv(net) && AllUp(net) && 1 <= at < |net.macs| && Promised(net, at) && ClearAhead(net, at)
    requires net.links[at].data != [] && Balance(Apply(net, TakeStatus(at))) == Balance(net)
    ensures Promised(Apply(net, TakeStatus(at)), at)
  {
    var h, s, pkt := HopOf(net, at), net.nodes[at], net.links[at].data[0];
    StatusCases(net, at);
    LinkAfterStatusOf(net, at);
    StepPays(net, TakeStatus(at));
    StaysClear(net, Apply(net, TakeStatus(at)), at);
    if !Known(h, pkt) {
      AcceptedPays(net, at);
      OthersChargeNothing(net, TakeStatus(at));
    } else if s.pending in net.links[at].data && KeyOf(pkt) != KeyOf(s.pending) {
      StillIn(net.links[at].data, s.pending);
    }
  }

  /** The ACK for it arrives and frees the slot, which pays. */
  lemma PromiseAcked(net: Net, at: nat)
    requires Inv(net) && AllUp(net) && 1 <= at < |net.macs| && Promised(net, at) && net.links[at].acks != []
    requires Balance(Apply(net, TakeAck(at))) == Balance(net)
    ensures Promised(Apply(net, TakeAck(at)), at)
  {
    var s, acks := net.nodes[at], net.links[at].acks;
    StepPays(net, TakeAck(at));
    StaysClear(net, Apply(net, TakeAck(at)), at);
    assert NodeInv(net.macs, at, s, net.hist[at]);
    if acks[0] == KeyOf(s.pending) {
      FreedPays(net, at);
      OthersChargeNothing(net, TakeAck(at));
    } else if KeyOf(s.pending) in acks {
      StillIn(acks, KeyOf(s.pending));
    }
  }

  /** The links after any other step but a loss: at most a frame more. */
  lemma LinksGrow(net: Net, step: Step, at: nat)
    requires Inv(net) && AllUp(net) && Enabled(net, step) && IsLossFree(step) && 1 <= at < |net.macs|
    requires step != TakeStatus(at) && step != TakeAck(at)
    ensures var link, link' := net.links[at], Apply(net, step).links[at];
      link.data <= link'.data && link.acks <= link'.acks
  {
    match step {
      case TakeStatus(hop) => LinkAfterStatusOf(net, hop);
      case Pass(i, clock) => PassLinks(net, i, clock);
      case HearForeignStatus(i, mac, pkt) => ForeignIgnored(net, i, mac, pkt, KeyOf(pkt));
      case HearForeignAck(i, mac, key) => ForeignIgnored(net, i, mac, NO_PACKET, key);
      case _ =>
    }
  }

  lemma PassLinks(net: Net, i: nat, clock: Clock)
    requires Inv(net) && i < |net.macs|
    ensures Apply(net, Pass(i, clock)).links ==
      if i == 0 then net.links else net.links[i := LinkAfterPass(net, i, clock)]
  {
    if i == 0 {
      GatewayPassEffect(net, clock);
    } else {
      PassEffect(net, i, clock);
    }
  }

  lemma PromiseStep(net: Net, step: Step, at: nat)
    requires Inv(net) && AllUp(net) && Enabled(net, step) && IsLossFree(step)
    requires 1 <= at < |net.macs| && Promised(net, at) && ClearAhead(net, at)
    requires Balance(Apply(net, step)) == Balance(net)
    ensures Promised(Apply(net, step), at) && ClearAhead(Apply(net, step), at)
  {
    StepPays(net, step);
    StaysClear(net, Apply(net, step), at);
    if step == TakeStatus(at) {
      PromiseArrives(net, at);
    } else if step == TakeAck(at) {
      PromiseAcked(net, at);
    } else {
      LinksGrow(net, step, at);
    }
  }

  /** A promise that is not paid is still open. */
  lemma {:induction false} PromiseKept(net: Net, steps: seq<Step>, at: nat)
    requires Inv(net) && AllUp(net) && IsRun(net, steps) && AreLossFree(steps)
    requires 1 <= at < |net.macs| && Promised(net, at) && ClearAhead(net, at)
    requires Balance(Exec(net, steps)) == Balance(net)
    ensures Promised(Exec(net, steps), at)
    decreases |steps|
  {
    if steps != [] {
      var net1 := Apply(net, steps[0]);
      FirstPays(net, steps);
      PromiseStep(net, steps[0], at);
      PromiseKept(net1, steps[1..], at);
    }
  }

  /** The first step of a run that keeps the balance keeps it. */
  lemma FirstPays(net: Net, steps: seq<Step>)
    requires Inv(net) && AllUp(net) && IsRun(net, steps) && AreLossFree(steps) && steps != []
    ensures var net1 := Apply(net, steps[0]);
      && Inv(net1) && AllUp(net1) && IsRun(net1, steps[1..]) && AreLossFree(steps[1..]) && IsLossFree(steps[0])
      && Balance(Exec(net, steps)) <= Balance(net1) <= Balance(net)
      && (Balance(net1) == Balance(net) ==> GrownCore(net, net1))
  {
    assert IsLossFree(steps[0]);
    StepPays(net, steps[0]);
    RunPays(Apply(net, steps[0]), steps[1..]);
  }

  /** A relay with a free slot that polls starts the head of its queue. */
  lemma {:induction false} PollStarts(net: Net, steps: seq<Step>, i: nat)
    requires Inv(net) && AllUp(net) && IsRun(net, steps) && AreLossFree(steps)
    requires 1 <= i < |net.macs| && net.nodes[i].phase == Idle && net.nodes[i].queue != [] && Polls(net, steps, i)
    ensures Balance(Exec(net, steps)) < Balance(net)
    decreases |steps|
  {
    var net1 := Apply(net, steps[0]);
    FirstPays(net, steps);
    if steps[0].Pass? && steps[0].at == i {
      IdlePassPays(net, i, steps[0].clock);
    } else if Balance(net1) == Balance(net) {
      StaysClear(net, net1, i);
      PollStarts(net1, steps[1..], i);
    }
  }

  lemma ResendPromises(net: Net, at: nat, clock: Clock)
    requires Inv(net) && AllUp(net) && 1 <= at < |net.macs|
    requires net.nodes[at].phase == Forwarding && RetransmitDue(net.nodes[at], clock)
    ensures Promised(Apply(net, Pass(at, clock)), at)
  {
    var s := net.nodes[at];
    assert NodeInv(net.macs, at, s, net.hist[at]);
    PassLinks(net, at, clock);
    PassChanges(net, at, clock);
    WaitingPass(net, at, clock);
    StaysClear(net, Apply(net, Pass(at, clock)), at);
    TickShape(s, clock);
    var data := Apply(net, Pass(at, clock)).links[at].data;
    assert data[|data| - 1] == s.pending;
  }

  /** A waiting relay that polls an expired deadline gets its packet through, if nothing is ahead. */
  lemma {:induction false} PollResends(net: Net, steps: seq<Step>, at: nat)
    requires Inv(net) && AllUp(net) && IsRun(net, steps) && AreLossFree(steps)
    requires 1 <= at < |net.macs| && net.nodes[at].phase == Forwarding && ClearAhead(net, at) && Polls(net, steps, at)
    requires AirEmpty(Exec(net, steps))
    ensures Balance(Exec(net, steps)) < Balance(net)
    decreases |steps|
  {
    var net1 := Apply(net, steps[0]);
    FirstPays(net, steps);
    if Balance(Exec(net, steps)) == Balance(net) {
      StaysClear(net, net1, at);
      if steps[0].Pass? && steps[0].at == at && RetransmitDue(net.nodes[at], steps[0].clock) {
        ResendPromises(net, at, steps[0].clock);
        PromiseKept(net1, steps[1..], at);
      } else {
        PollResends(net1, steps[1..], at);
      }
    }
  }

  /** The waiting relay closest to the Gateway, among nodes 1 to `top`. */
  lemma {:induction false} LastForwarding(net: Net, top: nat) returns (at: nat)
    requires WellFormed(net) && top < |net.macs|
    requires exists i :: 1 <= i <= top && net.nodes[i].phase == Forwarding
    ensures 1 <= at <= top && net.nodes[at].phase == Forwarding
    ensures forall i :: at < i <= top ==> net.nodes[i].phase != Forwarding
  {
    at := top;
    if net.nodes[top].phase != Forwarding {
      at := LastForwarding(net, top - 1);
    }
  }

  lemma ClearBehind(net: Net, at: nat)
    requires Inv(net) && AllUp(net) && 1 <= at < |net.macs|
    requires forall i :: at < i < |net.macs| ==> net.nodes[i].phase != Forwarding
    requires forall i :: 1 <= i < |net.macs| ==> !(net.nodes[i].phase == Idle && net.nodes[i].queue != [])
    ensures ClearAhead(net, at)
  {
    var r := NextOf(at, |net.macs|);
    assert NodeInv(net.macs, r, net.nodes[r], net.hist[r]);
  }

  /**
   Progress while readings go on: every round pays, that is, does at least one unit
   more of work than the readings made in it bring, unless it leaves the chain empty.
   */
  lemma RoundPays(net: Net, steps: seq<Step>)
    requires Inv(net) && AllUp(net) && IsRound(net, steps)
    ensures Inv(Exec(net, steps)) && AllUp(Exec(net, steps))
    ensures Balance(Exec(net, steps)) < Balance(net) || Drained(Exec(net, steps))
  {
    var net' := Exec(net, steps);
    RunPays(net, steps);
    if Balance(net') == Balance(net) && !Drained(net') {
      var i :| 1 <= i < |net.macs| && !(net'.nodes[i].queue == [] && net'.nodes[i].phase != Forwarding);
      StaysClear(net, net', i);
      if net.nodes[i].phase == Idle {
        PollStarts(net, steps, i);
      } else {
        var at := LastForwarding(net, |net.macs| - 1);
        NothingIdle(net, steps);
        ClearBehind(net, at);
        PollResends(net, steps, at);
      }
    }
  }

  lemma NothingIdle(net: Net, steps: seq<Step>)
    requires Inv(net) && AllUp(net) && IsRound(net, steps) && Balance(Exec(net, steps)) == Balance(net)
    ensures forall i :: 1 <= i < |net.macs| ==> !(net.nodes[i].phase == Idle && net.nodes[i].queue != [])
  {
    forall i | 1 <= i < |net.macs|
      ensures !(net.nodes[i].phase == Idle && net.nodes[i].queue != [])
    {
      if net.nodes[i].phase == Idle && net.nodes[i].queue != [] {
        PollStarts(net, steps, i);
      }
    }
  }

  // Rounds are possible from everywhere.

  /** One pass of each relay from i on. */
  lemma {:induction false} PassEach(net: Net, clocks: seq<Clock>, i: nat) returns (steps: seq<Step>)
    requires Inv(net) && AllUp(net) && |clocks| == |net.macs| && 1 <= i <= |net.macs|
    requires forall k :: i <= k < |net.macs| ==> ReadyToPoll(net.nodes[k], clocks[k])
    ensures IsQuietRun(net, steps) && IsRun(net, steps)
    ensures forall k {:trigger Polls(net, steps, k)} :: i <= k < |net.macs| ==> Polls(net, steps, k)
    decreases |net.macs| - i
  {
    steps := [];
    if i < |net.macs| {
      var pass := Pass(i, clocks[i]);
      var net1 := Apply(net, pass);
      assert ReadyToPoll(net.nodes[i], clocks[i]);
      QuietStepPays(net, pass);
      PassChanges(net, i, clocks[i]);
      var rest := PassEach(net1, clocks, i + 1);
      steps := [pass] + rest;
      assert steps[1..] == rest;
      forall k | i <= k < |net.macs| ensures Polls(net, steps, k) {
        assert k > i ==> Polls(net1, rest, k);
      }
    }
  }

  predicate ReadyToPoll(s: Node, clock: Clock) {
    !LocalDue(s, clock) && (s.phase == Forwarding ==> RetransmitDue(s, clock))
  }

  function AirSizes(net: Net): seq<nat> {
    seq(|net.links|, i requires 0 <= i < |net.links| => 2 * |net.links[i].data| + |net.links[i].acks|)
  }

  lemma ReceptionShrinksAir(net: Net, step: Step)
    requires Inv(net) && Enabled(net, step) && (step.TakeStatus? || step.TakeAck?)
    ensures Sum(AirSizes(Apply(net, step))) < Sum(AirSizes(net))
  {
    var hop := step.hop;
    if step.TakeStatus? {
      LinkAfterStatusOf(net, hop);
    }
    var link := Apply(net, step).links[hop];
    SumUpdate(AirSizes(net), hop, 2 * |link.data| + |link.acks|);
    assert AirSizes(Apply(net, step)) == AirSizes(net)[hop := 2 * |link.data| + |link.acks|];
  }

  /** Receptions come to an end, whatever their order; here is one. */
  lemma {:induction false} ReceiveAll(net: Net) returns (steps: seq<Step>)
    requires Inv(net) && AllUp(net)
    ensures IsQuietRun(net, steps) && IsRun(net, steps) && AirEmpty(Exec(net, steps))
    decreases Sum(AirSizes(net))
  {
    steps := [];
    if !AirEmpty(net) {
      var hop :| 1 <= hop < |net.macs| && net.links[hop] != Link([], []);
      var step := if net.links[hop].data != [] then TakeStatus(hop) else TakeAck(hop);
      ReceptionShrinksAir(net, step);
      QuietStepPays(net, step);
      var rest := ReceiveAll(Apply(net, step));
      steps := [step] + rest;
      assert steps[1..] == rest;
    }
  }

  lemma {:induction false} PollsAppend(net: Net, a: seq<Step>, b: seq<Step>, i: nat)
    requires WellFormed(net) && IsRun(net, a) && IsRun(net, a + b) && i < |net.macs| && Polls(net, a, i)
    ensures Polls(net, a + b, i)
    decreases |a|
  {
    assert (a + b)[0] == a[0] && (a + b)[1..] == a[1..] + b;
    if Polls(Apply(net, a[0]), a[1..], i) {
      PollsAppend(Apply(net, a[0]), a[1..], b, i);
    }
  }

  lemma {:induction false} QuietIsLossFree(net: Net, steps: seq<Step>)
    requires WellFormed(net) && IsQuietRun(net, steps)
    ensures AreLossFree(steps)
    decreases |steps|
  {
    if steps != [] {
      QuietIsLossFree(Apply(net, steps[0]), steps[1..]);
      assert forall k :: 1 <= k < |steps| ==> steps[k] == steps[1..][k - 1];
    }
  }

  /** Whenever the deadlines are over before the next readings are due, there is a round without readings. */
  lemma RoundExists(net: Net, clocks: seq<Clock>) returns (steps: seq<Step>)
    requires Inv(net) && AllUp(net) && |clocks| == |net.macs|
    requires forall k :: 1 <= k < |net.macs| ==> ReadyToPoll(net.nodes[k], clocks[k])
    ensures IsRound(net, steps) && IsQuietRun(net, steps)
  {
    KnowsNeighbours(net, 0);
    var passes := PassEach(net, clocks, 1);
    QuietRunPays(net, passes);
    var receptions := ReceiveAll(Exec(net, passes));
    steps := passes + receptions;
    QuietRunAppend(net, passes, receptions);
    QuietIsLossFree(net, steps);
    forall k | 1 <= k < |net.macs| ensures Polls(net, steps, k) {
      PollsAppend(net, passes, receptions, k);
    }
  }

  // Running empty.

  lemma DrainedPass(net: Net, at: nat, clock: Clock)
    requires Inv(net) && AllUp(net) && Drained(net) && at < |net.macs| && !LocalDue(net.nodes[at], clock)
    ensures Apply(net, Pass(at, clock)).links == net.links
    ensures SameCore(net, Apply(net, Pass(at, clock)))
  {
    var s := net.nodes[at];
    assert NodeInv(net.macs, at, s, net.hist[at]);
    RestingPass(s, clock);
    PassChanges(net, at, clock);
    OneNodeChanged(net, Apply(net, Pass(at, clock)), at);
    PassLinks(net, at, clock);
    QuietPassShapeAtRest(s, clock);
  }

  lemma SameDrained(net: Net, net': Net)
    requires WellFormed(net) && WellFormed(net') && net'.macs == net.macs && Drained(net)
    requires SameCore(net, net') && net'.links == net.links
    ensures Drained(net')
  {
    forall i | 1 <= i < |net.macs| ensures net'.nodes[i].queue == [] && net'.nodes[i].phase != Forwarding {
      assert SameNode(net.nodes[i], net'.nodes[i]);
    }
  }

  /** An empty chain stays empty: a quiet step finds nothing to do. */
  lemma DrainedStep(net: Net, step: Step)
    requires Inv(net) && AllUp(net) && Enabled(net, step) && IsQuiet(net, step) && Drained(net)
    ensures Drained(Apply(net, step))
  {
    match step
    case Pass(at, clock) =>
      DrainedPass(net, at, clock);
      SameDrained(net, Apply(net, step));
    case HearForeignStatus(at, mac, pkt) => ForeignIgnored(net, at, mac, pkt, KeyOf(pkt));
    case HearForeignAck(at, mac, key) => ForeignIgnored(net, at, mac, NO_PACKET, key);
    case HearHello(_, _, _) =>
      OtherStep(net, step);
      SameDrained(net, Apply(net, step));
    case SetLane(_, _, _, _) =>
      OtherStep(net, step);
      SameDrained(net, Apply(net, step));
    case _ =>
  }

  lemma QuietPassShapeAtRest(s: Node, clock: Clock)
    requires s.phase != Discovering && !LocalDue(s, clock) && s.phase != Forwarding && s.queue == []
    ensures Loop(s, clock).radio == Quiet
  {
    var s1 := AfterHello(s, clock);
    assert Originate(s1, clock) == s1;
  }

  lemma {:induction false} DrainedRun(net: Net, steps: seq<Step>)
    requires Inv(net) && AllUp(net) && IsQuietRun(net, steps) && IsRun(net, steps) && Drained(net)
    ensures Drained(Exec(net, steps))
    decreases |steps|
  {
    if steps != [] {
      DrainedStep(net, steps[0]);
      QuietStepPays(net, steps[0]);
      DrainedRun(Apply(net, steps[0]), steps[1..]);
    }
  }

  /** One round after the other. */
  ghost predicate AreRounds(net: Net, rounds: seq<seq<Step>>)
    requires WellFormed(net)
    decreases |rounds|
  {
    rounds == [] || (IsRound(net, rounds[0]) && AreRounds(Exec(net, rounds[0]), rounds[1..]))
  }

  lemma {:induction false} QuietRunAppend(net: Net, a: seq<Step>, b: seq<Step>)
    requires WellFormed(net) && IsQuietRun(net, a) && IsRun(net, a)
    requires IsQuietRun(Exec(net, a), b) && IsRun(Exec(net, a), b)
    ensures IsQuietRun(net, a + b) && IsRun(net, a + b) && Exec(net, a + b) == Exec(Exec(net, a), b)
    decreases |a|
  {
    if a == [] {
      assert a + b == b;
    } else {
      assert (a + b)[1..] == a[1..] + b && (a + b)[0] == a[0];
      QuietRunAppend(Apply(net, a[0]), a[1..], b);
    }
  }

  ghost predicate AreQuietRounds(net: Net, rounds: seq<seq<Step>>)
    requires WellFormed(net)
    decreases |rounds|
  {
    rounds == []
    || (IsRound(net, rounds[0]) && IsQuietRun(net, rounds[0]) && AreQuietRounds(Exec(net, rounds[0]), rounds[1..]))
  }

  /**
   Without new readings, as many rounds as the potential at the start, with the
   steps of each in any order and at any clock values, empty every queue, slot and
   channel, and so they stay.
   */
  lemma {:induction false} RoundsDrain(net: Net, rounds: seq<seq<Step>>)
    requires Inv(net) && AllUp(net) && AreQuietRounds(net, rounds)
    requires |rounds| >= Total(net) || Drained(net)
    ensures IsQuietRun(net, Flat(rounds)) && IsRun(net, Flat(rounds)) && Drained(Exec(net, Flat(rounds)))
    decreases |rounds|
  {
    if rounds != [] {
      var net1 := Exec(net, rounds[0]);
      QuietRunPays(net, rounds[0]);
      if Drained(net) {
        DrainedRun(net, rounds[0]);
      } else {
        RoundPays(net, rounds[0]);
        QuietKeepsReadings(net, rounds[0]);
        SameCharges(net, net1);
      }
      RoundsDrain(net1, rounds[1..]);
      QuietRunAppend(net, rounds[0], Flat(rounds[1..]));
    } else {
      TotalPositive(net);
    }
  }

  lemma {:induction false} RoundsRun(net: Net, rounds: seq<seq<Step>>)
    requires Inv(net) && AllUp(net) && AreRounds(net, rounds)
    ensures IsRun(net, Flat(rounds))
    decreases |rounds|
  {
    if rounds != [] {
      RoundPays(net, rounds[0]);
      RoundsRun(Exec(net, rounds[0]), rounds[1..]);
      ExecAppend(net, rounds[0], Flat(rounds[1..]));
    }
  }

  /** The state after the first r rounds. */
  ghost predicate EmptyAfter(net: Net, rounds: seq<seq<Step>>, r: nat)
    requires WellFormed(net)
  {
    r <= |rounds| && IsRun(net, Flat(rounds[..r])) && Drained(Exec(net, Flat(rounds[..r])))
  }

  lemma FirstRounds(net: Net, rounds: seq<seq<Step>>, r: nat)
    requires WellFormed(net) && rounds != [] && IsRun(net, rounds[0])
    requires EmptyAfter(Exec(net, rounds[0]), rounds[1..], r)
    ensures EmptyAfter(net, rounds, r + 1)
  {
    assert rounds[..r + 1][1..] == rounds[1..][..r] && rounds[..r + 1][0] == rounds[0];
    ExecAppend(net, rounds[0], Flat(rounds[1..][..r]));
  }

  /** With readings going on, either some round leaves the chain empty, or each has done a unit of work. */
  lemma {:induction false} EmptyOrPaid(net: Net, rounds: seq<seq<Step>>) returns (r: nat)
    requires Inv(net) && AllUp(net) && AreRounds(net, rounds)
    ensures IsRun(net, Flat(rounds))
    ensures EmptyAfter(net, rounds, r) || Balance(Exec(net, Flat(rounds))) + |rounds| <= Balance(net)
    decreases |rounds|
  {
    r := 0;
    if rounds != [] {
      var net1 := Exec(net, rounds[0]);
      RoundPays(net, rounds[0]);
      r := EmptyOrPaid(net1, rounds[1..]);
      ExecAppend(net, rounds[0], Flat(rounds[1..]));
      if EmptyAfter(net1, rounds[1..], r) {
        FirstRounds(net, rounds, r);
        r := r + 1;
      } else if Drained(net1) {
        assert rounds[1..][..0] == [];
        FirstRounds(net, rounds, 0);
        r := 1;
      }
    }
  }

  /**
   Progress while readings go on: more rounds than the potential at the start and
   the work of the readings made meanwhile leave the chain empty after one of them.
   */
  lemma RoundsEmpty(net: Net, rounds: seq<seq<Step>>) returns (r: nat)
    requires Inv(net) && AllUp(net) && AreRounds(net, rounds) && IsRun(net, Flat(rounds))
    requires |rounds| > Total(net) + Charged(Exec(net, Flat(rounds))) - Charged(net)
    ensures EmptyAfter(net, rounds, r)
  {
    r := EmptyOrPaid(net, rounds);
  }

  lemma {:induction false} SumAtLeast(s: seq<nat>, i: nat)
    requires i < |s|
    ensures Sum(s) >= s[i]
  {
    if i > 0 {
      SumAtLeast(s[1..], i - 1);
    }
  }

  lemma TotalPositive(net: Net)
    requires Inv(net) && AllUp(net)
    ensures Total(net) > 0
  {
    KnowsNeighbours(net, 0);
    SumAtLeast(Terms(net), 1);
  }

  lemma {:induction false} SumAtMost(s: seq<nat>, b: nat)
    requires forall i :: 0 <= i < |s| ==> s[i] <= b
    ensures Sum(s) <= b * |s|
  {
    if s != [] {
      SumAtMost(s[1..], b);
      assert b * |s| == b + b * (|s| - 1);
    }
  }

  /** The potential of N nodes is at most 29 N^2, so that many rounds are always enough. */
  lemma PotentialBound(net: Net)
    requires Inv(net)
    ensures Total(net) <= 29 * |net.macs| * |net.macs|
  {
    var n := |net.macs|;
    forall i | 0 <= i < n ensures Terms(net)[i] <= 29 * n {
      if i > 0 {
        RelayAccounting(net, i);
        var held := |net.nodes[i].queue| + if Outstanding(HopOf(net, i)) then 1 else 0;
        assert (n - i) * held <= n * 9 by {
          MulBound(n - i, n, held, 9);
        }
      }
    }
    SumAtMost(Terms(net), 29 * n);
  }

  lemma MulBound(a: nat, b: nat, c: nat, d: nat)
    requires a <= b && c <= d
    ensures a * c <= b * d
  {
    assert a * c <= b * c <= b * d;
  }

  /** Quiet runs read nothing new. */
  lemma {:induction false} QuietKeepsReadings(net: Net, steps: seq<Step>)
    requires WellFormed(net) && IsQuietRun(net, steps) && IsRun(net, steps)
    ensures forall i :: 0 <= i < |net.macs| ==>
      && Exec(net, steps).hist[i].local == net.hist[i].local
      && Exec(net, steps).hist[i].localTicks == net.hist[i].localTicks
      && Exec(net, steps).hist[i].ticks == net.hist[i].ticks
    decreases |steps|
  {
    if steps != [] {
      var net1 := Apply(net, steps[0]);
      assert forall i :: 0 <= i < |net.macs| ==>
        && net1.hist[i].local == net.hist[i].local && net1.hist[i].localTicks == net.hist[i].localTicks
        && net1.hist[i].ticks == net.hist[i].ticks;
      QuietKeepsReadings(net1, steps[1..]);
    }
  }

  lemma {:induction false} DrainedTrace(net: Net, i: nat, j: nat)
    requires WellFormed(net) && Drained(net) && 1 <= i <= |net.macs|
    ensures Trace(net, i, j) == FromOrigin(net.flushed, j)
    decreases |net.macs| - i
  {
    if i < |net.macs| {
      DrainedTrace(net, i + 1, j);
      assert Held(net, i) == [];
    }
  }

  /** The Gateway has handed over every reading that found room at its relay, once, in order. */
  ghost predicate Arrived(net: Net)
    requires WellFormed(net)
  {
    forall j :: 1 <= j < |net.macs| ==> FromOrigin(net.flushed, j) == net.hist[j].local
  }

  /** In an empty chain that is so exactly if no key was repeated. */
  lemma ArrivedExactly(boot: Net, steps: seq<Step>)
    requires JustBooted(boot) && IsRun(boot, steps) && Drained(Exec(boot, steps))
    ensures Arrived(Exec(boot, steps)) <==> NoWrapAround(Exec(boot, steps))
  {
    var net := Exec(boot, steps);
    DeliveredUnlessWrapped(boot, steps);
    forall j | 1 <= j < |net.macs|
      ensures Trace(net, j, j) == FromOrigin(net.flushed, j)
    {
      DrainedTrace(net, j, j);
    }
  }

  /**
   From boot: after any run that has left no node in discovery, more rounds than
   29 N^2 and the work of the readings made meanwhile, whatever their schedule and
   clocks, leave the chain empty after one of them. Everything read by then is at
   the Gateway, once and in order, if and only if no relay sent two own readings
   back to back that lie a multiple of 65536 ticks apart.
   */
  lemma NoDeadlock(boot: Net, before: seq<Step>, rounds: seq<seq<Step>>) returns (r: nat)
    requires JustBooted(boot) && IsRun(boot, before) && AllUp(Exec(boot, before))
    requires AreRounds(Exec(boot, before), rounds) && IsRun(Exec(boot, before), Flat(rounds))
    requires var net := Exec(boot, before);
      |rounds| > 29 * |boot.macs| * |boot.macs| + Charged(Exec(net, Flat(rounds))) - Charged(net)
    ensures EmptyAfter(Exec(boot, before), rounds, r)
    ensures var net := Exec(Exec(boot, before), Flat(rounds[..r])); Arrived(net) <==> NoWrapAround(net)
  {
    var net := Exec(boot, before);
    Reachable(boot, before);
    PotentialBound(net);
    r := RoundsEmpty(net, rounds);
    ExecAppend(boot, before, Flat(rounds[..r]));
    ArrivedExactly(boot, before + Flat(rounds[..r]));
  }
}
