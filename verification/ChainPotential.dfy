/**
 A potential of the whole chain, over hop distance and slot state, and what every
 step does to it: while nothing is lost and nothing new is read it never rises,
 and a step that does not lower it changes no queue, no slot and no filter.
 */
module ChainPotential {
  import opened ChainSpec
  import opened HopProtocol
  import opened ChainNet
  import opened NodeInvariant
  import opened ChainInvariant
  import opened ChainFacts

  ghost predicate AllUp(net: Net) {
    forall i :: 0 <= i < |net.nodes| ==> net.nodes[i].phase != Discovering
  }

  /** Any step but the loss of a frame and a pass that makes a reading. */
  ghost predicate IsQuiet(net: Net, step: Step)
    requires WellFormed(net) && Enabled(net, step)
  {
    !step.LoseStatus? && !step.LoseAck? && (step.Pass? ==> !LocalDue(net.nodes[step.at], step.clock))
  }

  ghost predicate IsQuietRun(net: Net, steps: seq<Step>)
    requires WellFormed(net)
    decreases |steps|
  {
    steps == [] ||
    (Enabled(net, steps[0]) && IsQuiet(net, steps[0]) && IsQuietRun(Apply(net, steps[0]), steps[1..]))
  }

  /** Nothing is on the air between relays, or from a relay to the Gateway. */
  ghost predicate AirEmpty(net: Net)
    requires WellFormed(net)
  {
    forall i :: 1 <= i < |net.macs| ==> net.links[i] == Link([], [])
  }

  ghost predicate Drained(net: Net)
    requires WellFormed(net)
  {
    AirEmpty(net) && forall i :: 1 <= i < |net.macs| ==> net.nodes[i].queue == [] && net.nodes[i].phase != Forwarding
  }

  // The potential.

  function SlotWeight(h: Hop): nat {
    if !h.forwarding then 1 else if Outstanding(h) then 0 else 2
  }

  /** `w` hops to go for everything held here, then the slot's state. */
  function Potential(w: nat, h: Hop, queue: nat): nat {
    3 * (w * (queue + if Outstanding(h) then 1 else 0)) + SlotWeight(h)
  }

  function Term(net: Net, i: nat): nat
    requires |net.nodes| == |net.links| == |net.hist| == |net.macs| && i < |net.macs|
  {
    if i == 0 then 0 else Potential(|net.macs| - i, HopOf(net, i), |net.nodes[i].queue|)
  }

  function Terms(net: Net): seq<nat>
    requires |net.nodes| == |net.links| == |net.hist| == |net.macs|
  {
    seq(|net.macs|, i requires 0 <= i < |net.macs| => Term(net, i))
  }

  function Sum(s: seq<nat>): nat {
    if s == [] then 0 else s[0] + Sum(s[1..])
  }

  lemma {:induction false} SumUpdate(s: seq<nat>, i: nat, v: nat)
    requires i < |s|
    ensures Sum(s[i := v]) == Sum(s) - s[i] + v
  {
    if i > 0 {
      assert s[i := v][1..] == s[1..][i - 1 := v];
      SumUpdate(s[1..], i - 1, v);
    } else {
      assert s[i := v][1..] == s[1..];
    }
  }

  function Total(net: Net): nat
    requires |net.nodes| == |net.links| == |net.hist| == |net.macs|
  {
    Sum(Terms(net))
  }

  // What one action does to the potential of the hop it belongs to.

  lemma StartPays(h: Hop, p: Packet, w: nat, queue: nat)
    requires !h.forwarding && 1 <= w && 1 <= queue
    ensures var h' := h.(forwarding := true, pending := p, started := h.started + [p], data := h.data + [p]);
      Potential(w, h', queue - 1) < Potential(w, h, queue)
  {
    assert w * queue == w * (queue - 1) + w;
  }

  /** Acceptance moves a packet one hop further. */
  lemma AcceptPays(h: Hop, w: nat, queue: nat)
    requires h.data != [] && Outstanding(h) && h.data[0] == h.pending
    ensures Potential(w, Accepted(h), queue) == Potential(w, h, queue) - 3 * w + 2
  {
    assert w * (queue + 1) == w * queue + w;
  }

  lemma QueueCosts(h: Hop, w: nat, queue: nat)
    ensures Potential(w, h, queue + 1) == Potential(w, h, queue) + 3 * w
  {
    var o := if Outstanding(h) then 1 else 0;
    assert w * (queue + 1 + o) == w * (queue + o) + w;
  }

  // The same for the whole chain.

  lemma ReceiverTerms(net: Net, hop: nat, s: Node, h: History, link: Link, flushed: seq<Packet>)
    requires WellFormed(net) && 1 <= hop < |net.macs|
    requires var r := NextOf(hop, |net.macs|);
      && s.phase == net.nodes[r].phase && s.pending == net.nodes[r].pending
      && h.started == net.hist[r].started
    ensures var n := |net.macs|;
      var r := NextOf(hop, n);
      var net' := PutLink(Put(net, r, s, h), hop, link).(flushed := flushed);
      Terms(net') == Terms(net)
        [hop := Potential(n - hop, ReceivedHop(net, hop, s, h, link), |net.nodes[hop].queue|)]
        [r := if r == 0 then 0 else Potential(n - r, HopOf(net, r), |s.queue|)]
  {
    var n := |net.macs|;
    var r := NextOf(hop, n);
    var net' := PutLink(Put(net, r, s, h), hop, link).(flushed := flushed);
    assert r != hop;
    assert HopOf(net', hop) == ReceivedHop(net, hop, s, h, link);
    forall i | 1 <= i < n && i != hop
      ensures HopOf(net', i) == HopOf(net, i)
    {
    }
  }

  lemma SenderTerms(net: Net, hop: nat, s: Node, h: History, link: Link)
    requires WellFormed(net) && 1 <= hop < |net.macs|
    requires s.lastAccepted == net.nodes[hop].lastAccepted && h.accepted == net.hist[hop].accepted
    ensures var n := |net.macs|;
      Terms(PutLink(Put(net, hop, s, h), hop, link))
        == Terms(net)[hop := Potential(n - hop, SentHop(net, hop, s, h, link), |s.queue|)]
  {
    var n := |net.macs|;
    var net' := PutLink(Put(net, hop, s, h), hop, link);
    assert NextOf(hop, n) != hop;
    assert HopOf(net', hop) == SentHop(net, hop, s, h, link);
    forall i | 1 <= i < n && i != hop
      ensures HopOf(net', i) == HopOf(net, i)
    {
    }
  }

  /** The hop after a status frame has arrived. */
  function HopAfterStatus(net: Net, hop: nat): Hop
    requires |net.nodes| == |net.links| == |net.hist| == |net.macs| && hop < |net.macs|
    requires net.links[hop].data != []
  {
    var r, pkt := NextOf(hop, |net.macs|), net.links[hop].data[0];
    var o := HandleStatus(net.nodes[r], net.macs[hop], pkt);
    ReceivedHop(net, hop, o.node, AfterStatus(net.hist[r], net.nodes[r], net.macs[hop], pkt),
      Link(net.links[hop].data[1..],
           if o.radio.SendAck? then net.links[hop].acks + [KeyOf(pkt)] else net.links[hop].acks))
  }

  lemma TotalAfterOne(net: Net, net': Net, i: nat, a: nat)
    requires |net.nodes| == |net.links| == |net.hist| == |net.macs| && i < |net.macs|
    requires |net'.nodes| == |net'.links| == |net'.hist| == |net'.macs|
    requires Terms(net') == Terms(net)[i := a]
    ensures Total(net') == Total(net) - Term(net, i) + a
  {
    SumUpdate(Terms(net), i, a);
  }

  lemma TotalAfterTwo(net: Net, net': Net, i: nat, a: nat, j: nat, b: nat)
    requires |net.nodes| == |net.links| == |net.hist| == |net.macs| && i < |net.macs| && j < |net.macs| && i != j
    requires |net'.nodes| == |net'.links| == |net'.hist| == |net'.macs|
    requires Terms(net') == Terms(net)[i := a][j := b]
    ensures Total(net') == Total(net) - Term(net, i) + a - Term(net, j) + b
  {
    SumUpdate(Terms(net), i, a);
    SumUpdate(Terms(net)[i := a], j, b);
  }

  /** The term of the receiver's own hop after a status frame has arrived. */
  function ReceiverTerm(net: Net, hop: nat): nat
    requires |net.nodes| == |net.links| == |net.hist| == |net.macs| && hop < |net.macs|
    requires net.links[hop].data != []
  {
    var r := NextOf(hop, |net.macs|);
    var o := HandleStatus(net.nodes[r], net.macs[hop], net.links[hop].data[0]);
    if r == 0 then 0 else Potential(|net.macs| - r, HopOf(net, r), |o.node.queue|)
  }

  /** The link after a status frame has arrived. */
  function LinkAfterStatus(net: Net, hop: nat): Link
    requires |net.nodes| == |net.links| == |net.macs| && hop < |net.macs| && net.links[hop].data != []
  {
    var link, pkt := net.links[hop], net.links[hop].data[0];
    Link(link.data[1..],
         if HandleStatus(net.nodes[NextOf(hop, |net.macs|)], net.macs[hop], pkt).radio.SendAck?
         then link.acks + [KeyOf(pkt)] else link.acks)
  }

  lemma ReceivedTerms(net: Net, hop: nat, flushed: seq<Packet>)
    requires WellFormed(net) && 1 <= hop < |net.macs| && net.links[hop].data != []
    ensures var r, pkt := NextOf(hop, |net.macs|), net.links[hop].data[0];
      var o := HandleStatus(net.nodes[r], net.macs[hop], pkt);
      var hist := AfterStatus(net.hist[r], net.nodes[r], net.macs[hop], pkt);
      Terms(PutLink(Put(net, r, o.node, hist), hop, LinkAfterStatus(net, hop)).(flushed := flushed)) == Terms(net)
        [hop := Potential(|net.macs| - hop, HopAfterStatus(net, hop), |net.nodes[hop].queue|)]
        [r := ReceiverTerm(net, hop)]
  {
    var r, pkt := NextOf(hop, |net.macs|), net.links[hop].data[0];
    var o := HandleStatus(net.nodes[r], net.macs[hop], pkt);
    var hist := AfterStatus(net.hist[r], net.nodes[r], net.macs[hop], pkt);
    ReceiverTerms(net, hop, o.node, hist, LinkAfterStatus(net, hop), flushed);
  }

  lemma TakeStatusTerms(net: Net, hop: nat)
    requires Inv(net) && 1 <= hop < |net.macs| && net.links[hop].data != []
    ensures Terms(Apply(net, TakeStatus(hop))) == Terms(net)
      [hop := Potential(|net.macs| - hop, HopAfterStatus(net, hop), |net.nodes[hop].queue|)]
      [NextOf(hop, |net.macs|) := ReceiverTerm(net, hop)]
  {
    var r := NextOf(hop, |net.macs|);
    var hist := AfterStatus(net.hist[r], net.nodes[r], net.macs[hop], net.links[hop].data[0]);
    StatusEffect(net, hop);
    ReceivedTerms(net, hop, if r == 0 then hist.queued else net.flushed);
  }

  lemma StatusCases(net: Net, hop: nat)
    requires Inv(net) && AllUp(net) && 1 <= hop < |net.macs| && net.links[hop].data != []
    ensures var r, h, pkt := NextOf(hop, |net.macs|), HopOf(net, hop), net.links[hop].data[0];
      var s := net.nodes[r];
      var o := HandleStatus(s, net.macs[hop], pkt);
      && (Takes(s, net.macs[hop], pkt) <==> !Known(h, pkt) && HasRoom(s))
      && (if Takes(s, net.macs[hop], pkt) then
            HopAfterStatus(net, hop) == Accepted(h) && |o.node.queue| == |s.queue| + (if r == 0 then 0 else 1)
          else
            && |o.node.queue| == |s.queue|
            && HopAfterStatus(net, hop) == h.(data := h.data[1..],
                 acks := if Known(h, pkt) then h.acks + [KeyOf(pkt)] else h.acks))
  {
    var n := |net.macs|;
    var r := NextOf(hop, n);
    assert PrevOf(r, n) == hop;
    assert PeersOk(net.macs, r, net.nodes[r]) by {
      assert NodeInv(net.macs, r, net.nodes[r], net.hist[r]);
    }
  }

  /** The change of the potential of both hops that a status frame touches. */
  function StatusDelta(net: Net, hop: nat): int
    requires |net.nodes| == |net.links| == |net.hist| == |net.macs| && hop < |net.macs|
    requires net.links[hop].data != []
  {
    Potential(|net.macs| - hop, HopAfterStatus(net, hop), |net.nodes[hop].queue|) - Term(net, hop)
    + ReceiverTerm(net, hop) - Term(net, NextOf(hop, |net.macs|))
  }

  lemma TakeStatusTotal(net: Net, hop: nat)
    requires Inv(net) && 1 <= hop < |net.macs| && net.links[hop].data != []
    ensures Total(Apply(net, TakeStatus(hop))) == Total(net) + StatusDelta(net, hop)
  {
    TakeStatusTerms(net, hop);
    TotalAfterTwo(net, Apply(net, TakeStatus(hop)),
                  hop, Potential(|net.macs| - hop, HopAfterStatus(net, hop), |net.nodes[hop].queue|),
                  NextOf(hop, |net.macs|), ReceiverTerm(net, hop));
  }

  /** A packet that moves on pays. */
  lemma AcceptedPays(net: Net, hop: nat)
    requires Inv(net) && AllUp(net) && 1 <= hop < |net.macs| && net.links[hop].data != []
    requires !Known(HopOf(net, hop), net.links[hop].data[0]) && HasRoom(net.nodes[NextOf(hop, |net.macs|)])
    ensures Total(Apply(net, TakeStatus(hop))) < Total(net)
  {
    TakeStatusTotal(net, hop);
    StatusCases(net, hop);
    Accept(HopOf(net, hop));
    AcceptedDelta(net, hop);
  }

  lemma AcceptedDelta(net: Net, hop: nat)
    requires |net.nodes| == |net.links| == |net.hist| == |net.macs| && 1 <= hop < |net.macs|
    requires net.links[hop].data != []
    requires var h := HopOf(net, hop);
      Outstanding(h) && h.data[0] == h.pending && HopAfterStatus(net, hop) == Accepted(h)
    requires var r := NextOf(hop, |net.macs|);
      |HandleStatus(net.nodes[r], net.macs[hop], net.links[hop].data[0]).node.queue|
        == |net.nodes[r].queue| + (if r == 0 then 0 else 1)
    ensures StatusDelta(net, hop) < 0
  {
    var n, r := |net.macs|, NextOf(hop, |net.macs|);
    AcceptPays(HopOf(net, hop), n - hop, |net.nodes[hop].queue|);
    if r != 0 {
      QueueCosts(HopOf(net, r), n - r, |net.nodes[r].queue|);
    }
  }

  /** The hop after an ACK has arrived. */
  function HopAfterAck(net: Net, hop: nat): Hop
    requires |net.nodes| == |net.links| == |net.hist| == |net.macs| && hop < |net.macs|
    requires net.links[hop].acks != []
  {
    var h := HopOf(net, hop);
    var freed := AckMatches(net.nodes[hop], net.macs[NextOf(hop, |net.macs|)], h.acks[0]);
    h.(forwarding := h.forwarding && !freed, acks := h.acks[1..])
  }

  lemma TakeAckTerms(net: Net, hop: nat)
    requires Inv(net) && 1 <= hop < |net.macs| && net.links[hop].acks != []
    ensures Terms(Apply(net, TakeAck(hop))) == Terms(net)
      [hop := Potential(|net.macs| - hop, HopAfterAck(net, hop), |net.nodes[hop].queue|)]
  {
    var r, link, s := NextOf(hop, |net.macs|), net.links[hop], net.nodes[hop];
    var s' := HandleAck(s, net.macs[r], link.acks[0]);
    var link' := link.(acks := link.acks[1..]);
    SenderTerms(net, hop, s', net.hist[hop], link');
    assert Apply(net, TakeAck(hop)) == PutLink(Put(net, hop, s', net.hist[hop]), hop, link');
  }

  lemma TakeAckTotal(net: Net, hop: nat)
    requires Inv(net) && 1 <= hop < |net.macs| && net.links[hop].acks != []
    ensures Total(Apply(net, TakeAck(hop))) == Total(net) - Term(net, hop)
      + Potential(|net.macs| - hop, HopAfterAck(net, hop), |net.nodes[hop].queue|)
  {
    TakeAckTerms(net, hop);
    TotalAfterOne(net, Apply(net, TakeAck(hop)), hop,
                  Potential(|net.macs| - hop, HopAfterAck(net, hop), |net.nodes[hop].queue|));
  }

  /** An ACK that frees the slot pays. */
  lemma FreedPays(net: Net, hop: nat)
    requires Inv(net) && 1 <= hop < |net.macs| && net.links[hop].acks != []
    requires AckMatches(net.nodes[hop], net.macs[NextOf(hop, |net.macs|)], net.links[hop].acks[0])
    ensures Total(Apply(net, TakeAck(hop))) < Total(net)
  {
    TakeAckTotal(net, hop);
    Freed(HopOf(net, hop));
  }

  /** Without a new reading, a pass only moves the head of the queue into a free slot, or resends. */
  lemma QuietPassShape(s: Node, clock: Clock)
    requires s.phase != Discovering && !s.role.isGateway && !LocalDue(s, clock)
    ensures var s' := Loop(s, clock).node;
      && s'.queue == (if s.phase == Forwarding || s.queue == [] then s.queue else s.queue[1..])
      && (s.phase != Forwarding && s.queue != [] ==>
            Loop(s, clock).radio == SendStatus(s.peers.nextMac, s.queue[0]) && s'.pending == s.queue[0])
      && (s.phase != Forwarding && s.queue == [] ==> Loop(s, clock).radio == Quiet)
      && (RetransmitDue(s, clock) ==> Loop(s, clock).radio == SendStatus(s.peers.nextMac, s.pending))
  {
    var s1 := AfterHello(s, clock);
    assert Originate(s1, clock) == s1;
  }

  /** The link, and the hop, after a pass of its sender. */
  function LinkAfterPass(net: Net, at: nat, clock: Clock): Link
    requires |net.nodes| == |net.links| == |net.macs| && at < |net.macs|
  {
    var o, link := Loop(net.nodes[at], clock), net.links[at];
    Link(if o.radio.SendStatus? then link.data + [o.radio.pkt] else link.data, link.acks)
  }

  function HopAfterPass(net: Net, at: nat, clock: Clock): Hop
    requires |net.nodes| == |net.links| == |net.hist| == |net.macs| && at < |net.macs|
  {
    SentHop(net, at, Loop(net.nodes[at], clock).node, AfterPass(net.hist[at], net.nodes[at], clock),
            LinkAfterPass(net, at, clock))
  }

  lemma PassTerms(net: Net, at: nat, clock: Clock)
    requires Inv(net) && 1 <= at < |net.macs|
    ensures Terms(Apply(net, Pass(at, clock))) == Terms(net)
      [at := Potential(|net.macs| - at, HopAfterPass(net, at, clock), |Loop(net.nodes[at], clock).node.queue|)]
  {
    PassEffect(net, at, clock);
    SenderTerms(net, at, Loop(net.nodes[at], clock).node, AfterPass(net.hist[at], net.nodes[at], clock),
                LinkAfterPass(net, at, clock));
  }

  /** The change of the potential of the hop whose sender makes a pass. */
  function PassDelta(net: Net, at: nat, clock: Clock): int
    requires |net.nodes| == |net.links| == |net.hist| == |net.macs| && at < |net.macs|
  {
    Potential(|net.macs| - at, HopAfterPass(net, at, clock), |Loop(net.nodes[at], clock).node.queue|) - Term(net, at)
  }

  lemma PassTotal(net: Net, at: nat, clock: Clock)
    requires Inv(net) && 1 <= at < |net.macs|
    ensures Total(Apply(net, Pass(at, clock))) == Total(net) + PassDelta(net, at, clock)
  {
    PassTerms(net, at, clock);
    TotalAfterOne(net, Apply(net, Pass(at, clock)), at,
                  Potential(|net.macs| - at, HopAfterPass(net, at, clock), |Loop(net.nodes[at], clock).node.queue|));
  }

  lemma StartHop(net: Net, at: nat, clock: Clock)
    requires Inv(net) && AllUp(net) && 1 <= at < |net.macs| && !LocalDue(net.nodes[at], clock)
    requires net.nodes[at].phase == Idle && net.nodes[at].queue != []
    ensures var s, h, h' := net.nodes[at], HopOf(net, at), HopAfterPass(net, at, clock);
      && Loop(s, clock).node.queue == s.queue[1..]
      && h' == h.(forwarding := true, pending := s.queue[0], started := h.started + [s.queue[0]],
                  data := h.data + [s.queue[0]])
  {
    var s := net.nodes[at];
    assert NodeInv(net.macs, at, s, net.hist[at]);
    QuietPassShape(s, clock);
    RelayPass(s, net.hist[at], clock);
  }

  /** The start of a packet pays. */
  lemma StartedPays(net: Net, at: nat, clock: Clock)
    requires Inv(net) && AllUp(net) && 1 <= at < |net.macs| && !LocalDue(net.nodes[at], clock)
    requires net.nodes[at].phase == Idle && net.nodes[at].queue != []
    ensures Total(Apply(net, Pass(at, clock))) < Total(net)
  {
    PassTotal(net, at, clock);
    StartHop(net, at, clock);
    StartPays(HopOf(net, at), net.nodes[at].queue[0], |net.macs| - at, |net.nodes[at].queue|);
  }

  // Steps that do not pay change nothing that matters.

  predicate SameNode(s: Node, s': Node) {
    && s'.role == s.role && s'.phase == s.phase && s'.queue == s.queue
    && s'.pending == s.pending && s'.lastAccepted == s.lastAccepted
  }

  /** The same queues, slots and duplicate filters. */
  ghost predicate SameCore(net: Net, net': Net) {
    && |net'.nodes| == |net.nodes|
    && forall i {:trigger SameNode(net.nodes[i], net'.nodes[i])} ::
         0 <= i < |net.nodes| ==> SameNode(net.nodes[i], net'.nodes[i])
  }

  lemma SameTotal(net: Net, net': Net)
    requires WellFormed(net) && WellFormed(net') && net'.macs == net.macs && SameCore(net, net')
    ensures Total(net') == Total(net)
  {
    forall i | 0 <= i < |net.macs| ensures Term(net', i) == Term(net, i) {
      assert SameNode(net.nodes[i], net'.nodes[i]);
      assert SameNode(net.nodes[NextOf(i, |net.macs|)], net'.nodes[NextOf(i, |net.macs|)]);
    }
    assert Terms(net') == Terms(net);
  }

  lemma OneNodeChanged(net: Net, net': Net, at: nat)
    requires |net'.nodes| == |net.nodes| && at < |net.nodes| && SameNode(net.nodes[at], net'.nodes[at])
    requires forall i :: 0 <= i < |net.nodes| && i != at ==> net'.nodes[i] == net.nodes[i]
    ensures SameCore(net, net')
  {
    forall i | 0 <= i < |net.nodes| ensures SameNode(net.nodes[i], net'.nodes[i]) {
    }
  }

  lemma StatusStep(net: Net, hop: nat)
    requires Inv(net) && AllUp(net) && hop < |net.macs| && net.links[hop].data != []
    ensures SameCore(net, Apply(net, TakeStatus(hop))) || Total(Apply(net, TakeStatus(hop))) < Total(net)
  {
    StatusCases(net, hop);
    var r := NextOf(hop, |net.macs|);
    if Takes(net.nodes[r], net.macs[hop], net.links[hop].data[0]) {
      AcceptedPays(net, hop);
    } else {
      OneNodeChanged(net, Apply(net, TakeStatus(hop)), r);
    }
  }

  lemma AckStep(net: Net, hop: nat)
    requires Inv(net) && hop < |net.macs| && net.links[hop].acks != []
    ensures SameCore(net, Apply(net, TakeAck(hop))) || Total(Apply(net, TakeAck(hop))) < Total(net)
  {
    if AckMatches(net.nodes[hop], net.macs[NextOf(hop, |net.macs|)], net.links[hop].acks[0]) {
      FreedPays(net, hop);
    } else {
      OneNodeChanged(net, Apply(net, TakeAck(hop)), hop);
    }
  }

  lemma PassChanges(net: Net, at: nat, clock: Clock)
    requires WellFormed(net) && at < |net.macs|
    ensures var net' := Apply(net, Pass(at, clock));
      && |net'.nodes| == |net.nodes| && net'.nodes[at] == Loop(net.nodes[at], clock).node
      && forall i :: 0 <= i < |net.nodes| && i != at ==> net'.nodes[i] == net.nodes[i]
  {
  }

  lemma RestingPass(s: Node, clock: Clock)
    requires s.phase != Discovering && !LocalDue(s, clock) && (s.role.isGateway ==> s.phase != Forwarding)
    requires s.role.isGateway || s.phase == Forwarding || s.queue == []
    ensures SameNode(s, Loop(s, clock).node)
  {
    var s1 := AfterHello(s, clock);
    assert Originate(s1, clock) == s1;
  }

  lemma PassStep(net: Net, at: nat, clock: Clock)
    requires Inv(net) && AllUp(net) && at < |net.macs| && !LocalDue(net.nodes[at], clock)
    ensures SameCore(net, Apply(net, Pass(at, clock))) || Total(Apply(net, Pass(at, clock))) < Total(net)
  {
    var s := net.nodes[at];
    assert NodeInv(net.macs, at, s, net.hist[at]);
    if at != 0 && s.phase == Idle && s.queue != [] {
      StartedPays(net, at, clock);
    } else {
      RestingPass(s, clock);
      PassChanges(net, at, clock);
      OneNodeChanged(net, Apply(net, Pass(at, clock)), at);
    }
  }

  lemma OtherStep(net: Net, step: Step)
    requires Inv(net) && AllUp(net) && Enabled(net, step)
    requires step.HearHello? || step.HearForeignStatus? || step.HearForeignAck? || step.SetLane?
    ensures SameCore(net, Apply(net, step))
  {
    match step {
      case HearForeignStatus(at, mac, pkt) => ForeignIgnored(net, at, mac, pkt, KeyOf(pkt));
      case HearForeignAck(at, mac, key) => ForeignIgnored(net, at, mac, NO_PACKET, key);
      case _ =>
    }
    OneNodeChanged(net, Apply(net, step), step.at);
  }

  /** In every quiet step the potential falls, or queues, slots and filters stay as they are. */
  lemma QuietStepPays(net: Net, step: Step)
    requires Inv(net) && AllUp(net) && Enabled(net, step) && IsQuiet(net, step)
    ensures Inv(Apply(net, step)) && AllUp(Apply(net, step))
    ensures Total(Apply(net, step)) <= Total(net)
    ensures Total(Apply(net, step)) == Total(net) ==> SameCore(net, Apply(net, step))
  {
    StepKeepsInv(net, step);
    StepRemembers(net, step);
    match step {
      case TakeStatus(hop) => StatusStep(net, hop);
      case TakeAck(hop) => AckStep(net, hop);
      case Pass(at, clock) => PassStep(net, at, clock);
      case _ => OtherStep(net, step);
    }
    if SameCore(net, Apply(net, step)) {
      SameTotal(net, Apply(net, step));
    }
  }

  lemma SameCoreTrans(a: Net, b: Net, c: Net)
    requires SameCore(a, b) && SameCore(b, c)
    ensures SameCore(a, c)
  {
    forall i | 0 <= i < |a.nodes| ensures SameNode(a.nodes[i], c.nodes[i]) {
      assert SameNode(a.nodes[i], b.nodes[i]) && SameNode(b.nodes[i], c.nodes[i]);
    }
  }

  /** So a quiet run never raises the potential, and one that keeps it changes no queue, slot or filter. */
  lemma {:induction false} QuietRunPays(net: Net, steps: seq<Step>)
    requires Inv(net) && AllUp(net) && IsQuietRun(net, steps)
    ensures IsRun(net, steps) && Inv(Exec(net, steps)) && AllUp(Exec(net, steps))
    ensures Total(Exec(net, steps)) <= Total(net)
    ensures Total(Exec(net, steps)) == Total(net) ==> SameCore(net, Exec(net, steps))
    decreases |steps|
  {
    if steps != [] {
      var net1 := Apply(net, steps[0]);
      QuietStepPays(net, steps[0]);
      QuietRunPays(net1, steps[1..]);
      if Total(Exec(net, steps)) == Total(net) {
        SameCoreTrans(net, net1, Exec(net, steps));
      }
    } else {
      OneNodeChanged(net, net, 0);
    }
  }
}
