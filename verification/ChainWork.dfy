/**
 The potential against the readings made. Each reading that finds room at a relay
 adds three units for each hop it has to go; with these deducted the potential
 never rises while nothing is lost, and a step that does not lower the balance
 changes no slot and no filter, and no queue but that of a waiting node.
 */
module ChainWork {
  import opened Config
  import opened ChainSpec
  import opened ChainNet
  import opened NodeInvariant
  import opened ChainInvariant
  import opened ChainFacts
  import opened ChainPotential

  ghost predicate IsLossFree(step: Step) { !step.LoseStatus? && !step.LoseAck? }

  ghost predicate AreLossFree(steps: seq<Step>) {
    forall k :: 0 <= k < |steps| ==> IsLossFree(steps[k])
  }

  /** The work that the readings of node i have brought. */
  function Charge(net: Net, i: nat): nat
    requires |net.hist| == |net.macs| && i < |net.macs|
  {
    if i == GATEWAY_NODE_ID then 0 else 3 * ((|net.macs| - i) * |net.hist[i].local|)
  }

  function Charges(net: Net): seq<nat>
    requires |net.hist| == |net.macs|
  {
    seq(|net.macs|, i requires 0 <= i < |net.macs| => Charge(net, i))
  }

  /** The work that all readings so far have brought. */
  function Charged(net: Net): nat
    requires |net.hist| == |net.macs|
  {
    Sum(Charges(net))
  }

  /** The work left, but for what readings have brought. */
  function Balance(net: Net): int
    requires |net.nodes| == |net.links| == |net.hist| == |net.macs|
  {
    Total(net) - Charged(net)
  }

  lemma SameCharges(net: Net, net': Net)
    requires |net.hist| == |net.macs| == |net'.hist| && net'.macs == net.macs
    requires forall i :: 1 <= i < |net.macs| ==> |net'.hist[i].local| == |net.hist[i].local|
    ensures Charged(net') == Charged(net)
  {
    assert Charges(net') == Charges(net);
  }

  lemma OneMoreReading(net: Net, net': Net, at: nat)
    requires |net.hist| == |net.macs| == |net'.hist| && net'.macs == net.macs && 1 <= at < |net.macs|
    requires |net'.hist[at].local| == |net.hist[at].local| + 1
    requires forall i :: 0 <= i < |net.macs| && i != at ==> net'.hist[i].local == net.hist[i].local
    ensures Charged(net') == Charged(net) + 3 * (|net.macs| - at)
  {
    var w, k := |net.macs| - at, |net.hist[at].local|;
    assert w * (k + 1) == w * k + w;
    assert Charges(net') == Charges(net)[at := 3 * (w * (k + 1))];
    SumUpdate(Charges(net), at, 3 * (w * (k + 1)));
  }

  // What a balanced step may change.

  predicate GrownNode(s: Node, s': Node) {
    && s'.role == s.role && s'.phase == s.phase && s'.pending == s.pending && s'.lastAccepted == s.lastAccepted
    && (s.phase != Forwarding ==> s'.queue == s.queue)
  }

  /** The same slots and duplicate filters, and the same queues but those of waiting nodes. */
  ghost predicate GrownCore(net: Net, net': Net) {
    && |net'.nodes| == |net.nodes|
    && forall i {:trigger GrownNode(net.nodes[i], net'.nodes[i])} ::
         0 <= i < |net.nodes| ==> GrownNode(net.nodes[i], net'.nodes[i])
  }

  lemma SameIsGrown(net: Net, net': Net)
    requires SameCore(net, net')
    ensures GrownCore(net, net')
  {
    forall i | 0 <= i < |net.nodes| ensures GrownNode(net.nodes[i], net'.nodes[i]) {
      assert SameNode(net.nodes[i], net'.nodes[i]);
    }
  }

  lemma GrownTrans(a: Net, b: Net, c: Net)
    requires GrownCore(a, b) && GrownCore(b, c)
    ensures GrownCore(a, c)
  {
    forall i | 0 <= i < |a.nodes| ensures GrownNode(a.nodes[i], c.nodes[i]) {
      assert GrownNode(a.nodes[i], b.nodes[i]) && GrownNode(b.nodes[i], c.nodes[i]);
    }
  }

  lemma GrownAt(net: Net, net': Net, at: nat)
    requires |net'.nodes| == |net.nodes| && at < |net.nodes| && GrownNode(net.nodes[at], net'.nodes[at])
    requires forall i :: 0 <= i < |net.nodes| && i != at ==> net'.nodes[i] == net.nodes[i]
    ensures GrownCore(net, net')
  {
    forall i | 0 <= i < |net.nodes| ensures GrownNode(net.nodes[i], net'.nodes[i]) {
    }
  }

  // A pass that makes a reading.

  /** The queue that the forwarding part of a pass finds. */
  function QueueAtTick(s: Node, clock: Clock): seq<Packet> {
    if LocalDue(s, clock) && HasRoom(s) then s.queue + [Reading(s)] else s.queue
  }

  lemma TickShape(s: Node, clock: Clock)
    requires s.phase != Discovering && !s.role.isGateway
    ensures var o, q := Loop(s, clock), QueueAtTick(s, clock);
      && o.node.role == s.role
      && o.node.queue == (if s.phase == Forwarding || q == [] then q else q[1..])
      && (s.phase != Forwarding && q != [] ==> o.radio == SendStatus(s.peers.nextMac, q[0]))
      && (s.phase != Forwarding && q == [] ==> o.radio == Quiet)
      && (RetransmitDue(s, clock) ==> o.radio == SendStatus(s.peers.nextMac, s.pending))
  {
    var s1 := AfterHello(s, clock);
    assert Reading(s1) == Reading(s) && HasRoom(s1) == HasRoom(s) && LocalDue(s1, clock) == LocalDue(s, clock);
    assert Originate(s1, clock).queue == QueueAtTick(s, clock);
  }

  lemma LocalAfterPass(s: Node, h: History, clock: Clock)
    requires s.phase != Discovering && !s.role.isGateway
    ensures |AfterPass(h, s, clock).local| - |h.local| == |QueueAtTick(s, clock)| - |s.queue|
  {
  }

  lemma OtherHistories(net: Net, at: nat, clock: Clock)
    requires Inv(net) && 1 <= at < |net.macs|
    ensures var net' := Apply(net, Pass(at, clock));
      && net'.hist[at] == AfterPass(net.hist[at], net.nodes[at], clock)
      && forall i :: 0 <= i < |net.macs| && i != at ==> net'.hist[i] == net.hist[i]
  {
    PassEffect(net, at, clock);
  }

  /** A pass of a relay charges for the reading that it queues. */
  lemma PassCharged(net: Net, at: nat, clock: Clock)
    requires Inv(net) && AllUp(net) && 1 <= at < |net.macs|
    ensures var net', grown := Apply(net, Pass(at, clock)), |QueueAtTick(net.nodes[at], clock)| - |net.nodes[at].queue|;
      Charged(net') == Charged(net) + if grown == 0 then 0 else 3 * (|net.macs| - at)
  {
    var net' := Apply(net, Pass(at, clock));
    assert NodeInv(net.macs, at, net.nodes[at], net.hist[at]);
    LocalAfterPass(net.nodes[at], net.hist[at], clock);
    OtherHistories(net, at, clock);
    if |QueueAtTick(net.nodes[at], clock)| == |net.nodes[at].queue| {
      SameCharges(net, net');
    } else {
      OneMoreReading(net, net', at);
    }
  }

  /** The potential with the queue as the forwarding part finds it. */
  lemma TickPotential(net: Net, at: nat, clock: Clock)
    requires Inv(net) && AllUp(net) && 1 <= at < |net.macs|
    ensures var w, q := |net.macs| - at, |QueueAtTick(net.nodes[at], clock)|;
      Potential(w, HopOf(net, at), q)
      == Term(net, at) + Charged(Apply(net, Pass(at, clock))) - Charged(net)
  {
    PassCharged(net, at, clock);
    QueueCosts(HopOf(net, at), |net.macs| - at, |net.nodes[at].queue|);
  }

  /** A waiting node resends or rests. */
  lemma WaitingPass(net: Net, at: nat, clock: Clock)
    requires Inv(net) && AllUp(net) && 1 <= at < |net.macs| && net.nodes[at].phase == Forwarding
    ensures var net' := Apply(net, Pass(at, clock)); Balance(net') == Balance(net) && GrownCore(net, net')
  {
    WaitingHop(net, at, clock);
    PassTotal(net, at, clock);
    TickPotential(net, at, clock);
    PassChanges(net, at, clock);
    GrownAt(net, Apply(net, Pass(at, clock)), at);
  }

  lemma WaitingHop(net: Net, at: nat, clock: Clock)
    requires Inv(net) && AllUp(net) && 1 <= at < |net.macs| && net.nodes[at].phase == Forwarding
    ensures var o, q := Loop(net.nodes[at], clock), QueueAtTick(net.nodes[at], clock);
      && o.node.queue == q && GrownNode(net.nodes[at], o.node)
      && forall w, n: nat :: Potential(w, HopAfterPass(net, at, clock), n) == Potential(w, HopOf(net, at), n)
  {
    assert NodeInv(net.macs, at, net.nodes[at], net.hist[at]);
    TickShape(net.nodes[at], clock);
    PassEffect(net, at, clock);
  }

  /** A free node that has something to send, be it a new reading, starts it, which pays. */
  lemma IdlePassPays(net: Net, at: nat, clock: Clock)
    requires Inv(net) && AllUp(net) && 1 <= at < |net.macs|
    requires net.nodes[at].phase == Idle && QueueAtTick(net.nodes[at], clock) != []
    ensures Balance(Apply(net, Pass(at, clock))) < Balance(net)
  {
    var h, q := HopOf(net, at), QueueAtTick(net.nodes[at], clock);
    PassTotal(net, at, clock);
    TickPotential(net, at, clock);
    StartPays(h, q[0], |net.macs| - at, |q|);
    IdleHop(net, at, clock);
  }

  lemma IdleHop(net: Net, at: nat, clock: Clock)
    requires Inv(net) && AllUp(net) && 1 <= at < |net.macs|
    requires net.nodes[at].phase == Idle && QueueAtTick(net.nodes[at], clock) != []
    ensures var h, q := HopOf(net, at), QueueAtTick(net.nodes[at], clock);
      && |Loop(net.nodes[at], clock).node.queue| == |q| - 1
      && HopAfterPass(net, at, clock)
         == h.(forwarding := true, pending := q[0], started := h.started + [q[0]], data := h.data + [q[0]])
  {
    assert NodeInv(net.macs, at, net.nodes[at], net.hist[at]);
    TickShape(net.nodes[at], clock);
    RelayPass(net.nodes[at], net.hist[at], clock);
  }

  /** A free node with nothing to send rests. */
  lemma RestingBalance(net: Net, at: nat, clock: Clock)
    requires Inv(net) && AllUp(net) && 1 <= at < |net.macs|
    requires net.nodes[at].phase == Idle && QueueAtTick(net.nodes[at], clock) == []
    ensures var net' := Apply(net, Pass(at, clock)); Balance(net') == Balance(net) && GrownCore(net, net')
  {
    assert NodeInv(net.macs, at, net.nodes[at], net.hist[at]);
    TickShape(net.nodes[at], clock);
    PassEffect(net, at, clock);
    PassTotal(net, at, clock);
    TickPotential(net, at, clock);
    PassChanges(net, at, clock);
    GrownAt(net, Apply(net, Pass(at, clock)), at);
  }

  /** Readings of the Gateway are sunk at once. */
  lemma GatewayBalance(net: Net, clock: Clock)
    requires Inv(net) && AllUp(net)
    ensures var net' := Apply(net, Pass(0, clock)); Balance(net') == Balance(net) && GrownCore(net, net')
  {
    var net' := Apply(net, Pass(0, clock));
    assert NodeInv(net.macs, 0, net.nodes[0], net.hist[0]);
    GatewayPassEffect(net, clock);
    PassChanges(net, 0, clock);
    GatewayRests(net.nodes[0], net.hist[0], clock);
    SameTerms(net, net');
    SameCharges(net, net');
    GrownAt(net, net', 0);
  }

  lemma GatewayRests(s: Node, h: History, clock: Clock)
    requires s.role.isGateway && s.phase == Idle
    ensures var s' := Loop(s, clock).node;
      GrownNode(s, s') && s'.queue == s.queue && AfterPass(h, s, clock).accepted == h.accepted
  {
  }

  lemma SameTerms(net: Net, net': Net)
    requires WellFormed(net) && WellFormed(net') && net'.macs == net.macs
    requires forall i :: 1 <= i < |net.macs| ==>
      net'.nodes[i] == net.nodes[i] && net'.hist[i].started == net.hist[i].started
    requires net'.nodes[0].lastAccepted == net.nodes[0].lastAccepted
    ensures Total(net') == Total(net)
  {
    forall i | 0 <= i < |net.macs| ensures Term(net', i) == Term(net, i) {
    }
    assert Terms(net') == Terms(net);
  }

  lemma PassBalance(net: Net, at: nat, clock: Clock)
    requires Inv(net) && AllUp(net) && at < |net.macs|
    ensures var net' := Apply(net, Pass(at, clock));
      Balance(net') <= Balance(net) && (Balance(net') == Balance(net) ==> GrownCore(net, net'))
  {
    if at == 0 {
      GatewayBalance(net, clock);
    } else if net.nodes[at].phase == Forwarding {
      WaitingPass(net, at, clock);
    } else if QueueAtTick(net.nodes[at], clock) == [] {
      RestingBalance(net, at, clock);
    } else {
      IdlePassPays(net, at, clock);
    }
  }

  lemma OthersChargeNothing(net: Net, step: Step)
    requires Inv(net) && Enabled(net, step) && !step.Pass?
    ensures Charged(Apply(net, step)) == Charged(net)
  {
    SameCharges(net, Apply(net, step));
  }

  /** In every step but a loss the balance falls, or only the queues of waiting nodes change. */
  lemma StepPays(net: Net, step: Step)
    requires Inv(net) && AllUp(net) && Enabled(net, step) && IsLossFree(step)
    ensures Inv(Apply(net, step)) && AllUp(Apply(net, step))
    ensures Balance(Apply(net, step)) <= Balance(net)
    ensures Balance(Apply(net, step)) == Balance(net) ==> GrownCore(net, Apply(net, step))
  {
    StepKeepsInv(net, step);
    StepRemembers(net, step);
    if step.Pass? {
      PassBalance(net, step.at, step.clock);
    } else {
      QuietStepPays(net, step);
      OthersChargeNothing(net, step);
      if SameCore(net, Apply(net, step)) {
        SameIsGrown(net, Apply(net, step));
      }
    }
  }

  lemma {:induction false} RunPays(net: Net, steps: seq<Step>)
    requires Inv(net) && AllUp(net) && IsRun(net, steps) && AreLossFree(steps)
    ensures Inv(Exec(net, steps)) && AllUp(Exec(net, steps))
    ensures Balance(Exec(net, steps)) <= Balance(net)
    ensures Balance(Exec(net, steps)) == Balance(net) ==> GrownCore(net, Exec(net, steps))
    decreases |steps|
  {
    if steps == [] {
      GrownAt(net, net, 0);
    } else {
      var net1 := Apply(net, steps[0]);
      assert IsLossFree(steps[0]);
      StepPays(net, steps[0]);
      RunPays(net1, steps[1..]);
      if Balance(Exec(net, steps)) == Balance(net) {
        GrownTrans(net, net1, Exec(net, steps));
      }
    }
  }
}
