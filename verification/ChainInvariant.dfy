/** The invariant of the whole chain, and the proof that every step of every run keeps it. */
module ChainInvariant {
  import opened Words
  import opened ChainSpec
  import opened HopProtocol
  import opened ChainNet
  import opened NodeInvariant

  ghost predicate NodesOk(net: Net)
    requires WellFormed(net)
  {
    forall i {:trigger NodeInv(net.macs, i, net.nodes[i], net.hist[i])} ::
      0 <= i < |net.macs| ==> NodeInv(net.macs, i, net.nodes[i], net.hist[i])
  }

  ghost predicate HopsOk(net: Net)
    requires WellFormed(net)
  {
    forall i :: 1 <= i < |net.macs| ==> HopInv(HopOf(net, i))
  }

  /** The Gateway sends nothing to node 1, and every unicast frame is for the right neighbour. */
  ghost predicate AirOk(net: Net)
    requires WellFormed(net)
  {
    net.links[0] == Link([], []) && net.stray == [] && net.flushed == net.hist[0].queued
  }

  ghost predicate Inv(net: Net) {
    WellFormed(net) && NodesOk(net) && HopsOk(net) && AirOk(net)
  }

  lemma BootInv(net: Net)
    requires JustBooted(net)
    ensures Inv(net)
  {
    forall i | 0 <= i < |net.macs|
      ensures NodeInv(net.macs, i, net.nodes[i], net.hist[i])
    {
      assert FreshNode(net, i);
      InitNode(net.macs, i, net.nodes[i].lastHelloMs);
    }
    forall i | 1 <= i < |net.macs| ensures HopInv(HopOf(net, i)) {
      assert FreshNode(net, i) && FreshNode(net, NextOf(i, |net.macs|));
    }
    assert FreshNode(net, 0);
  }

  lemma PutKeepsNodes(net: Net, at: nat, s: Node, h: History)
    requires WellFormed(net) && NodesOk(net) && at < |net.macs| && NodeInv(net.macs, at, s, h)
    ensures NodesOk(Put(net, at, s, h))
  {
  }

  /** A change of node `at` that no hop can see. */
  ghost predicate Unseen(net: Net, at: nat, s: Node, h: History)
    requires WellFormed(net) && at < |net.macs|
  {
    && (s.phase == Forwarding <==> net.nodes[at].phase == Forwarding)
    && s.pending == net.nodes[at].pending && s.lastAccepted == net.nodes[at].lastAccepted
    && h.started == net.hist[at].started && h.accepted == net.hist[at].accepted
  }

  lemma UnseenKeepsHops(net: Net, at: nat, s: Node, h: History)
    requires WellFormed(net) && at < |net.macs| && Unseen(net, at, s, h)
    ensures forall i :: 0 <= i < |net.macs| ==> HopOf(Put(net, at, s, h), i) == HopOf(net, i)
  {
  }

  lemma UnseenChange(net: Net, at: nat, s: Node, h: History)
    requires Inv(net) && at < |net.macs|
    requires NodeInv(net.macs, at, s, h) && Unseen(net, at, s, h)
    requires at == 0 ==> h.queued == net.hist[0].queued
    ensures Inv(Put(net, at, s, h))
  {
    PutKeepsNodes(net, at, s, h);
    UnseenKeepsHops(net, at, s, h);
  }

  lemma HelloKeepsInv(net: Net, at: nat, mac: Mac, hello: Hello)
    requires Inv(net) && at < |net.macs| && Audible(net, at, mac, hello)
    ensures Inv(Apply(net, HearHello(at, mac, hello)))
  {
    HelloKeepsNode(net.macs, at, net.nodes[at], net.hist[at], mac, hello);
    UnseenChange(net, at, HandleHello(net.nodes[at], mac, hello), net.hist[at]);
  }

  lemma LaneKeepsInv(net: Net, at: nat, stream: uint8, occupied: uint8, plate: string)
    requires Inv(net) && at < |net.macs|
    ensures Inv(Apply(net, SetLane(at, stream, occupied, plate)))
  {
    LaneKeepsNode(net.macs, at, net.nodes[at], net.hist[at], stream, occupied, plate);
    UnseenChange(net, at, SetLaneStatus(net.nodes[at], stream, occupied, plate), net.hist[at]);
  }

  lemma ForeignIgnored(net: Net, at: nat, mac: Mac, pkt: Packet, key: Key)
    requires Inv(net) && at < |net.macs| && mac !in net.macs
    ensures Apply(net, HearForeignStatus(at, mac, pkt)) == net
    ensures Apply(net, HearForeignAck(at, mac, key)) == net
  {
    assert NodeInv(net.macs, at, net.nodes[at], net.hist[at]);
    assert net.nodes == net.nodes[at := net.nodes[at]];
    assert net.hist == net.hist[at := net.hist[at]];
  }

  lemma LinkOnly(net: Net, hop: nat, link: Link)
    requires Inv(net) && 1 <= hop < |net.macs|
    requires HopInv(HopOf(net, hop).(data := link.data, acks := link.acks))
    ensures Inv(PutLink(net, hop, link))
  {
    var net' := PutLink(net, hop, link);
    forall i | 1 <= i < |net.macs| && i != hop
      ensures HopOf(net', i) == HopOf(net, i)
    {
    }
    assert HopOf(net', hop) == HopOf(net, hop).(data := link.data, acks := link.acks);
  }

  lemma LossKeepsInv(net: Net, hop: nat, frame: nat)
    requires Inv(net) && hop < |net.macs|
    ensures frame < |net.links[hop].data| ==> Inv(Apply(net, LoseStatus(hop, frame)))
    ensures frame < |net.links[hop].acks| ==> Inv(Apply(net, LoseAck(hop, frame)))
  {
    var link := net.links[hop];
    if frame < |link.data| {
      LoseData(HopOf(net, hop), frame);
      LinkOnly(net, hop, link.(data := Without(link.data, frame)));
    }
    if frame < |link.acks| {
      HopProtocol.LoseAck(HopOf(net, hop), frame);
      LinkOnly(net, hop, link.(acks := Without(link.acks, frame)));
    }
  }

  /** What arrives from a relay was queued there, so it comes from that relay or from before it. */
  lemma ArrivesFromUpstream(net: Net, hop: nat)
    requires Inv(net) && 1 <= hop < |net.macs| && net.links[hop].data != []
    requires !Known(HopOf(net, hop), net.links[hop].data[0])
    ensures Upstream(|net.macs|, NextOf(hop, |net.macs|), net.links[hop].data[0].origin)
  {
    var pkt, h, hist := net.links[hop].data[0], HopOf(net, hop), net.hist[hop];
    Accept(h);
    assert NodeInv(net.macs, hop, net.nodes[hop], hist);
    assert hist.queued[|hist.started| - 1] == pkt;
  }

  /** Link `hop` once its receiver is in state `s`. */
  function ReceivedHop(net: Net, hop: nat, s: Node, h: History, link: Link): Hop
    requires |net.nodes| == |net.links| == |net.hist| == |net.macs| && hop < |net.macs|
  {
    HopOf(net, hop).(last := s.lastAccepted, accepted := h.accepted, data := link.data, acks := link.acks)
  }

  /** Link `hop` once its sender is in state `s`. */
  function SentHop(net: Net, hop: nat, s: Node, h: History, link: Link): Hop
    requires |net.nodes| == |net.links| == |net.hist| == |net.macs| && hop < |net.macs|
  {
    HopOf(net, hop).(forwarding := s.phase == Forwarding, pending := s.pending, started := h.started,
                     data := link.data, acks := link.acks)
  }

  /** Nothing that a hop's receiver does is seen by any other hop. */
  lemma ReceivedKeepsHops(net: Net, hop: nat, s: Node, h: History, link: Link)
    requires WellFormed(net) && HopsOk(net) && 1 <= hop < |net.macs|
    requires var r := NextOf(hop, |net.macs|);
      && s.phase == net.nodes[r].phase && s.pending == net.nodes[r].pending
      && h.started == net.hist[r].started
    requires HopInv(ReceivedHop(net, hop, s, h, link))
    ensures HopsOk(PutLink(Put(net, NextOf(hop, |net.macs|), s, h), hop, link))
  {
    var r := NextOf(hop, |net.macs|);
    var net' := PutLink(Put(net, r, s, h), hop, link);
    forall i | 1 <= i < |net.macs|
      ensures HopInv(HopOf(net', i))
    {
      if i != hop {
        assert HopOf(net', i) == HopOf(net, i);
      }
    }
  }

  /** The receiver of `hop` and the link have changed, and the rest has not. */
  lemma Received(net: Net, hop: nat, s: Node, h: History, link: Link, flushed: seq<Packet>)
    requires Inv(net) && 1 <= hop < |net.macs|
    requires var r := NextOf(hop, |net.macs|);
      && NodeInv(net.macs, r, s, h)
      && s.phase == net.nodes[r].phase && s.pending == net.nodes[r].pending
      && h.started == net.hist[r].started
      && flushed == if r == 0 then h.queued else net.flushed
    requires HopInv(ReceivedHop(net, hop, s, h, link))
    ensures Inv(PutLink(Put(net, NextOf(hop, |net.macs|), s, h), hop, link).(flushed := flushed))
  {
    var r := NextOf(hop, |net.macs|);
    ReceivedKeepsHops(net, hop, s, h, link);
    PutKeepsNodes(net, r, s, h);
    var net1 := PutLink(Put(net, r, s, h), hop, link);
    assert NodesOk(net1);
    FlushedOnly(net1, flushed);
  }

  /** Neither nodes nor hops depend on the Gateway's log. */
  lemma FlushedOnly(net: Net, flushed: seq<Packet>)
    requires WellFormed(net) && HopsOk(net) && NodesOk(net)
    ensures NodesOk(net.(flushed := flushed)) && HopsOk(net.(flushed := flushed))
  {
    assert forall i :: 0 <= i < |net.macs| ==> HopOf(net.(flushed := flushed), i) == HopOf(net, i);
  }

  /** What a status frame does to the hop it arrives on. */
  lemma StatusOnHop(net: Net, hop: nat, o: Outcome, hist: History)
    requires Inv(net) && 1 <= hop < |net.macs| && net.links[hop].data != []
    requires var r, pkt := NextOf(hop, |net.macs|), net.links[hop].data[0];
      && o == HandleStatus(net.nodes[r], net.macs[hop], pkt)
      && hist == AfterStatus(net.hist[r], net.nodes[r], net.macs[hop], pkt)
    ensures var h, pkt := HopOf(net, hop), net.links[hop].data[0];
      HopInv(h.(last := o.node.lastAccepted, accepted := hist.accepted, data := h.data[1..],
                acks := if o.radio.SendAck? then h.acks + [KeyOf(pkt)] else h.acks))
  {
    var r, pkt, h := NextOf(hop, |net.macs|), net.links[hop].data[0], HopOf(net, hop);
    if Takes(net.nodes[r], net.macs[hop], pkt) {
      Accept(h);
    } else if o.radio.SendAck? {
      Reack(h);
    } else {
      assert Without(h.data, 0) == h.data[1..];
      LoseData(h, 0);
    }
  }

  /** A status frame makes its receiver answer its own prev, or nobody. */
  lemma StatusEffect(net: Net, hop: nat)
    requires Inv(net) && 1 <= hop < |net.macs| && net.links[hop].data != []
    ensures var r, link := NextOf(hop, |net.macs|), net.links[hop];
      var o := HandleStatus(net.nodes[r], net.macs[hop], link.data[0]);
      var hist := AfterStatus(net.hist[r], net.nodes[r], net.macs[hop], link.data[0]);
      var acks := if o.radio.SendAck? then link.acks + [KeyOf(link.data[0])] else link.acks;
      && (o.sunk.Some? ==> r == 0 && hist.queued == net.hist[0].queued + [o.sunk.value])
      && (o.sunk.None? && r == 0 ==> hist.queued == net.hist[0].queued)
      && Apply(net, TakeStatus(hop)) == PutLink(Put(net, r, o.node, hist), hop, Link(link.data[1..], acks))
           .(flushed := if r == 0 then hist.queued else net.flushed)
  {
    var n := |net.macs|;
    var r := NextOf(hop, n);
    assert PrevOf(r, n) == hop;
    assert NodeInv(net.macs, r, net.nodes[r], net.hist[r]);
  }

  lemma TakeStatusKeepsInv(net: Net, hop: nat)
    requires Inv(net) && hop < |net.macs| && net.links[hop].data != []
    ensures Inv(Apply(net, TakeStatus(hop)))
  {
    var r, link := NextOf(hop, |net.macs|), net.links[hop];
    var pkt, mac, s := link.data[0], net.macs[hop], net.nodes[r];
    var o, hist := HandleStatus(s, mac, pkt), AfterStatus(net.hist[r], s, mac, pkt);
    if Takes(s, mac, pkt) {
      ArrivesFromUpstream(net, hop);
    }
    StatusKeepsNode(net.macs, r, s, net.hist[r], mac, pkt);
    StatusOnHop(net, hop, o, hist);
    StatusEffect(net, hop);
    Received(net, hop, o.node, hist,
             Link(link.data[1..], if o.radio.SendAck? then link.acks + [KeyOf(pkt)] else link.acks),
             if r == 0 then hist.queued else net.flushed);
  }

  /** Nothing that a hop's sender does is seen by any other hop. */
  lemma SentKeepsHops(net: Net, hop: nat, s: Node, h: History, link: Link)
    requires WellFormed(net) && HopsOk(net) && 1 <= hop < |net.macs|
    requires s.lastAccepted == net.nodes[hop].lastAccepted && h.accepted == net.hist[hop].accepted
    requires HopInv(SentHop(net, hop, s, h, link))
    ensures HopsOk(PutLink(Put(net, hop, s, h), hop, link))
  {
    var net' := PutLink(Put(net, hop, s, h), hop, link);
    forall i | 1 <= i < |net.macs|
      ensures HopInv(HopOf(net', i))
    {
      if i != hop {
        assert HopOf(net', i) == HopOf(net, i);
      }
    }
  }

  /** The sender of `hop` and the link have changed, and the rest has not. */
  lemma Sent(net: Net, hop: nat, s: Node, h: History, link: Link)
    requires Inv(net) && 1 <= hop < |net.macs|
    requires NodeInv(net.macs, hop, s, h)
    requires s.lastAccepted == net.nodes[hop].lastAccepted && h.accepted == net.hist[hop].accepted
    requires HopInv(SentHop(net, hop, s, h, link))
    ensures Inv(PutLink(Put(net, hop, s, h), hop, link))
  {
    SentKeepsHops(net, hop, s, h, link);
    PutKeepsNodes(net, hop, s, h);
    assert NodesOk(PutLink(Put(net, hop, s, h), hop, link));
  }

  lemma TakeAckKeepsInv(net: Net, hop: nat)
    requires Inv(net) && hop < |net.macs| && net.links[hop].acks != []
    ensures Inv(Apply(net, TakeAck(hop)))
  {
    var r, link, h, s := NextOf(hop, |net.macs|), net.links[hop], HopOf(net, hop), net.nodes[hop];
    var rest := link.(acks := link.acks[1..]);
    assert NodeInv(net.macs, hop, s, net.hist[hop]);
    AckKeepsNode(net.macs, hop, s, net.hist[hop], net.macs[r], link.acks[0]);
    if AckMatches(s, net.macs[r], link.acks[0]) {
      Freed(h);
    } else {
      StaleAck(h);
    }
    Sent(net, hop, HandleAck(s, net.macs[r], link.acks[0]), net.hist[hop], rest);
    assert Apply(net, TakeAck(hop))
        == PutLink(Put(net, hop, HandleAck(s, net.macs[r], link.acks[0]), net.hist[hop]), hop, rest);
  }

  /** What a loop pass of a relay does to the hop it sends on. */
  lemma PassOnHop(h: Hop, s: Node, hist: History, o: Outcome, hist': History)
    requires HopInv(h) && RelayPassSpec(s, hist, o, hist')
    requires h.forwarding == (s.phase == Forwarding) && h.pending == s.pending && h.started == hist.started
    ensures HopInv(h.(forwarding := o.node.phase == Forwarding, pending := o.node.pending, started := hist'.started,
                      data := if o.radio.SendStatus? then h.data + [o.radio.pkt] else h.data))
  {
    if o.radio.SendStatus? {
      if h.forwarding {
        Resend(h);
      } else {
        Start(h, o.radio.pkt);
      }
    }
  }

  lemma RelayEmits(net: Net, at: nat, o: Outcome, hist: History)
    requires Inv(net) && 1 <= at < |net.macs|
    requires o.sunk == None
    requires o.radio == Quiet || o.radio == SendStatus(net.nodes[at].peers.nextMac, o.node.pending)
    requires o.radio.SendStatus? ==> net.nodes[at].peers.nextKnown
    ensures Emit(Put(net, at, o.node, hist), at, o) == PutLink(Put(net, at, o.node, hist), at,
      var link := net.links[at];
      Link(if o.radio.SendStatus? then link.data + [o.radio.pkt] else link.data, link.acks))
  {
    assert NodeInv(net.macs, at, net.nodes[at], net.hist[at]);
    assert net.links == net.links[at := net.links[at]];
  }

  /** A loop pass of a relay sends to its own next, or nothing. */
  lemma PassEffect(net: Net, at: nat, clock: Clock)
    requires Inv(net) && 1 <= at < |net.macs|
    ensures var o, link := Loop(net.nodes[at], clock), net.links[at];
      var hist := AfterPass(net.hist[at], net.nodes[at], clock);
      && RelayPassSpec(net.nodes[at], net.hist[at], o, hist)
      && Apply(net, Pass(at, clock)) == PutLink(Put(net, at, o.node, hist), at,
           Link(if o.radio.SendStatus? then link.data + [o.radio.pkt] else link.data, link.acks))
  {
    var s := net.nodes[at];
    assert NodeInv(net.macs, at, s, net.hist[at]);
    RelayPass(s, net.hist[at], clock);
    var o, hist := Loop(s, clock), AfterPass(net.hist[at], s, clock);
    RelayEmits(net, at, o, hist);
  }

  lemma RelayPassKeepsInv(net: Net, at: nat, clock: Clock)
    requires Inv(net) && 1 <= at < |net.macs|
    ensures Inv(Apply(net, Pass(at, clock)))
  {
    var s, h, link := net.nodes[at], net.hist[at], net.links[at];
    var o, h' := Loop(s, clock), AfterPass(h, s, clock);
    PassKeepsNode(net.macs, at, s, h, clock);
    PassEffect(net, at, clock);
    PassOnHop(HopOf(net, at), s, h, o, h');
    Sent(net, at, o.node, h', Link(if o.radio.SendStatus? then link.data + [o.radio.pkt] else link.data, link.acks));
  }

  lemma GatewayPassEffect(net: Net, clock: Clock)
    requires Inv(net)
    ensures var o, hist := Loop(net.nodes[0], clock), AfterPass(net.hist[0], net.nodes[0], clock);
      && Unseen(net, 0, o.node, hist)
      && Apply(net, Pass(0, clock)) == Put(net, 0, o.node, hist).(flushed := hist.queued)
  {
    assert NodeInv(net.macs, 0, net.nodes[0], net.hist[0]);
  }

  lemma GatewayPassKeepsInv(net: Net, clock: Clock)
    requires Inv(net)
    ensures Inv(Apply(net, Pass(0, clock)))
  {
    var s, h := net.nodes[0], net.hist[0];
    var s', h' := Loop(s, clock).node, AfterPass(h, s, clock);
    PassKeepsNode(net.macs, 0, s, h, clock);
    GatewayPassEffect(net, clock);
    PutKeepsNodes(net, 0, s', h');
    UnseenKeepsHops(net, 0, s', h');
    FlushedOnly(Put(net, 0, s', h'), h'.queued);
  }

  lemma StepKeepsInv(net: Net, step: Step)
    requires Inv(net) && Enabled(net, step)
    ensures Inv(Apply(net, step))
  {
    match step
    case HearHello(at, mac, hello) => HelloKeepsInv(net, at, mac, hello);
    case TakeStatus(hop) => TakeStatusKeepsInv(net, hop);
    case TakeAck(hop) => TakeAckKeepsInv(net, hop);
    case Pass(at, clock) =>
      if at == 0 { GatewayPassKeepsInv(net, clock); } else { RelayPassKeepsInv(net, at, clock); }
    case LoseStatus(hop, frame) => LossKeepsInv(net, hop, frame);
    case LoseAck(hop, frame) => LossKeepsInv(net, hop, frame);
    case HearForeignStatus(at, mac, pkt) => ForeignIgnored(net, at, mac, pkt, KeyOf(pkt));
    case HearForeignAck(at, mac, key) => ForeignIgnored(net, at, mac, NO_PACKET, key);
    case SetLane(at, stream, occupied, plate) => LaneKeepsInv(net, at, stream, occupied, plate);
  }

  /** Every state of every run satisfies the invariant. */
  lemma {:induction false} RunKeepsInv(net: Net, steps: seq<Step>)
    requires Inv(net) && IsRun(net, steps)
    ensures Inv(Exec(net, steps))
    decreases |steps|
  {
    if steps != [] {
      StepKeepsInv(net, steps[0]);
      RunKeepsInv(Apply(net, steps[0]), steps[1..]);
    }
  }

  /** The invariant holds in every state that a booted chain can reach. */
  lemma Reachable(boot: Net, steps: seq<Step>)
    requires JustBooted(boot) && IsRun(boot, steps)
    ensures Inv(Exec(boot, steps))
  {
    BootInv(boot);
    RunKeepsInv(boot, steps);
  }
}
