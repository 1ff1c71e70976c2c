/**
 What every action of a single node keeps, whatever its neighbours do: who its
 peers are, how its queue and slot relate to what happened to it, how its
 readings are numbered, and what its counters count.
 */
module NodeInvariant {
  import opened Words
  import opened Config
  import opened ChainSpec
  import opened HopProtocol
  import opened Subsequence
  import opened ChainNet

  /** The packets of one origin, in order. */
  function OriginOf(p: Packet): nat { p.origin }

  function FromOrigin(s: seq<Packet>, j: nat): seq<Packet> { Of(s, OriginOf, j) }

  lemma FromOriginAppend(s: seq<Packet>, p: Packet, j: nat)
    ensures FromOrigin(s + [p], j) == FromOrigin(s, j) + if p.origin == j then [p] else []
  {
    OfAppend(s, p, OriginOf, j);
  }

  /** Relays are numbered in the direction of the flow; the Gateway is the last stop. */
  predicate Upstream(n: nat, i: nat, origin: nat) {
    1 <= origin < if i == GATEWAY_NODE_ID then n else i
  }

  ghost predicate PeersOk(macs: seq<Mac>, i: nat, s: Node)
    requires i < |macs| <= MAX_CHAIN_NODES
  {
    && s.role == RoleOf(i, |macs|)
    && (s.peers.prevKnown ==> s.peers.prevMac == macs[PrevOf(i, |macs|)])
    && (s.peers.nextKnown ==> s.peers.nextMac == macs[NextOf(i, |macs|)])
    && (s.phase != Discovering ==> s.peers.prevKnown && (i == GATEWAY_NODE_ID || s.peers.nextKnown))
    && (i == GATEWAY_NODE_ID ==> s.phase != Forwarding)
    && (|macs| == 1 ==> !s.peers.prevKnown && !s.peers.nextKnown)
  }

  ghost predicate LogsOk(n: nat, i: nat, s: Node, h: History) {
    && (i == GATEWAY_NODE_ID ==> s.queue == [] && h.started == [])
    && (i != GATEWAY_NODE_ID ==> h.queued == h.started + s.queue && |s.queue| <= STATUS_QUEUE_DEPTH)
    && s.lastAccepted == LastKey(h.accepted)
  }

  ghost predicate OriginsOk(n: nat, i: nat, h: History) {
    && (forall k :: 0 <= k < |h.accepted| ==> Upstream(n, i, h.accepted[k].origin))
    && (forall k :: 0 <= k < |h.queued| ==> h.queued[k].origin == i || Upstream(n, i, h.queued[k].origin))
    && (forall j: nat :: FromOrigin(h.queued, j) == if j == i then h.local else FromOrigin(h.accepted, j))
  }

  predicate BothLocal(i: nat, p: Packet, q: Packet) {
    p.origin == i && q.origin == i
  }

  /** Two consecutive queue entries can share a key only if both are this node's own. */
  ghost predicate KeysOk(i: nat, s: Node, h: History) {
    && (h.queued != [] && h.queued[|h.queued| - 1].origin != i ==> s.lastAccepted == LastKey(h.queued))
    && (forall k :: 0 <= k < |h.queued| - 1 && !BothLocal(i, h.queued[k], h.queued[k + 1]) ==>
          KeyOf(h.queued[k]) != KeyOf(h.queued[k + 1]))
  }

  /** Reading number t carries `(t mod 3, t mod 65536)`. */
  predicate Numbered(p: Packet, tick: nat) {
    p.stream == tick % LANES && p.seqNo == Wrap16(tick)
  }

  ghost predicate TicksOk(s: Node, h: History) {
    && s.localSeq == Wrap16(h.ticks)
    && s.localStream == h.ticks % LANES
    && |h.local| == |h.localTicks|
    && (forall k :: 0 <= k < |h.local| ==> Numbered(h.local[k], h.localTicks[k]) && h.localTicks[k] < h.ticks)
    && (forall k, m :: 0 <= k < m < |h.local| ==> h.localTicks[k] < h.localTicks[m])
  }

  /** Packets that next has acknowledged. */
  function Forwarded(s: Node, h: History): int {
    |h.started| - if s.phase == Forwarding then 1 else 0
  }

  ghost predicate CountersOk(i: nat, s: Node, h: History) {
    && s.stats.accepted == Wrap32(|h.accepted|)
    && s.stats.local == Wrap32(h.ticks)
    && s.stats.forwarded == Wrap32(Forwarded(s, h))
    && s.stats.sunk == Wrap32(if i == GATEWAY_NODE_ID then |h.queued| else 0)
    && |h.queued| == |h.accepted| + |h.local|
    && (i == GATEWAY_NODE_ID ==> |h.local| == h.ticks)
  }

  ghost predicate NodeInv(macs: seq<Mac>, i: nat, s: Node, h: History)
    requires i < |macs| <= MAX_CHAIN_NODES
  {
    && PeersOk(macs, i, s)
    && LogsOk(|macs|, i, s, h)
    && OriginsOk(|macs|, i, h)
    && KeysOk(i, s, h)
    && TicksOk(s, h)
    && CountersOk(i, s, h)
  }

  lemma InitNode(macs: seq<Mac>, i: nat, stamp: uint32)
    requires i < |macs| <= MAX_CHAIN_NODES
    ensures NodeInv(macs, i, Init(i, |macs|, stamp), EMPTY_HISTORY)
  {
  }

  lemma HelloKeepsNode(macs: seq<Mac>, i: nat, s: Node, h: History, mac: Mac, hello: Hello)
    requires i < |macs| <= MAX_CHAIN_NODES
    requires NodeInv(macs, i, s, h)
    requires hello.chainSize != |macs| || hello.nodeId >= |macs| || (hello.nodeId != i && mac == macs[hello.nodeId])
    ensures NodeInv(macs, i, HandleHello(s, mac, hello), h)
  {
    NeighboursAreInverse(i, |macs|);
  }

  lemma QueuePushed(n: nat, i: nat, h: History, p: Packet)
    requires OriginsOk(n, i, h)
    ensures p.origin == i ==> OriginsOk(n, i, h.(queued := h.queued + [p], local := h.local + [p]))
    ensures p.origin != i && Upstream(n, i, p.origin) ==>
      OriginsOk(n, i, h.(queued := h.queued + [p], accepted := h.accepted + [p]))
  {
    forall j: nat
      ensures FromOrigin(h.queued + [p], j) == FromOrigin(h.queued, j) + if p.origin == j then [p] else []
      ensures FromOrigin(h.accepted + [p], j) == FromOrigin(h.accepted, j) + if p.origin == j then [p] else []
    {
      FromOriginAppend(h.queued, p, j);
      FromOriginAppend(h.accepted, p, j);
    }
  }

  lemma StatusKeepsKeys(n: nat, i: nat, s: Node, h: History, mac: Mac, pkt: Packet)
    requires KeysOk(i, s, h) && Takes(s, mac, pkt) && pkt.origin != i
    ensures KeysOk(i, HandleStatus(s, mac, pkt).node, AfterStatus(h, s, mac, pkt))
  {
    var queued := h.queued + [pkt];
    assert forall k :: 0 <= k < |h.queued| ==> queued[k] == h.queued[k];
  }

  lemma StatusKeepsCounters(i: nat, s: Node, h: History, mac: Mac, pkt: Packet)
    requires CountersOk(i, s, h) && Takes(s, mac, pkt) && (s.role.isGateway <==> i == GATEWAY_NODE_ID)
    ensures CountersOk(i, HandleStatus(s, mac, pkt).node, AfterStatus(h, s, mac, pkt))
  {
    Wrap32Succ(|h.accepted|);
    Wrap32Succ(|h.queued|);
  }

  lemma StatusKeepsNode(macs: seq<Mac>, i: nat, s: Node, h: History, mac: Mac, pkt: Packet)
    requires i < |macs| <= MAX_CHAIN_NODES
    requires NodeInv(macs, i, s, h)
    requires Takes(s, mac, pkt) ==> Upstream(|macs|, i, pkt.origin)
    ensures NodeInv(macs, i, HandleStatus(s, mac, pkt).node, AfterStatus(h, s, mac, pkt))
  {
    if Takes(s, mac, pkt) {
      QueuePushed(|macs|, i, h, pkt);
      StatusKeepsKeys(|macs|, i, s, h, mac, pkt);
      StatusKeepsCounters(i, s, h, mac, pkt);
    }
  }

  lemma AckKeepsCounters(i: nat, s: Node, h: History, mac: Mac, key: Key)
    requires CountersOk(i, s, h)
    ensures CountersOk(i, HandleAck(s, mac, key), h)
  {
    Wrap32Succ(|h.started| - 1);
  }

  lemma AckKeepsNode(macs: seq<Mac>, i: nat, s: Node, h: History, mac: Mac, key: Key)
    requires i < |macs| <= MAX_CHAIN_NODES
    requires NodeInv(macs, i, s, h)
    ensures NodeInv(macs, i, HandleAck(s, mac, key), h)
  {
    AckKeepsCounters(i, s, h, mac, key);
  }

  lemma LaneKeepsNode(macs: seq<Mac>, i: nat, s: Node, h: History, stream: uint8, occupied: uint8, plate: string)
    requires i < |macs| <= MAX_CHAIN_NODES
    requires NodeInv(macs, i, s, h)
    ensures NodeInv(macs, i, SetLaneStatus(s, stream, occupied, plate), h)
  {
  }

  lemma TickKeepsKeys(i: nat, s: Node, h: History, clock: Clock)
    requires KeysOk(i, s, h) && LocalDue(s, clock) && HasRoom(s) && s.role.nodeId == i
    ensures KeysOk(i, Originate(s, clock), AfterTick(h, s, clock))
  {
    var queued := h.queued + [Reading(s)];
    assert forall k :: 0 <= k < |h.queued| ==> queued[k] == h.queued[k];
  }

  lemma TickKeepsTicks(s: Node, h: History, clock: Clock)
    requires TicksOk(s, h) && LocalDue(s, clock)
    ensures TicksOk(Originate(s, clock), AfterTick(h, s, clock))
  {
    Wrap16Succ(h.ticks);
    assert Numbered(Reading(s), h.ticks);
    var s', h' := Originate(s, clock), AfterTick(h, s, clock);
    assert s'.localSeq == Wrap16(h'.ticks) && s'.localStream == h'.ticks % LANES;
  }

  lemma TickKeepsCounters(i: nat, s: Node, h: History, clock: Clock)
    requires CountersOk(i, s, h) && LocalDue(s, clock) && (s.role.isGateway <==> i == GATEWAY_NODE_ID)
    ensures CountersOk(i, Originate(s, clock), AfterTick(h, s, clock))
  {
    Wrap32Succ(h.ticks);
    Wrap32Succ(|h.queued|);
  }

  lemma TickKeepsNode(macs: seq<Mac>, i: nat, s: Node, h: History, clock: Clock)
    requires i < |macs| <= MAX_CHAIN_NODES
    requires NodeInv(macs, i, s, h)
    ensures NodeInv(macs, i, Originate(s, clock), AfterTick(h, s, clock))
  {
    if LocalDue(s, clock) {
      TickKeepsTicks(s, h, clock);
      TickKeepsCounters(i, s, h, clock);
      if HasRoom(s) {
        QueuePushed(|macs|, i, h, Reading(s));
        TickKeepsKeys(i, s, h, clock);
      }
    }
  }

  lemma ForwardKeepsNode(macs: seq<Mac>, i: nat, s: Node, h: History, clock: Clock)
    requires i < |macs| <= MAX_CHAIN_NODES && i != GATEWAY_NODE_ID && s.phase != Discovering
    requires NodeInv(macs, i, s, h)
    ensures var s' := Forward(s, clock).node;
      NodeInv(macs, i, s', if s.phase != Forwarding && s'.phase == Forwarding
                           then h.(started := h.started + [s'.pending]) else h)
  {
  }

  /** One pass of `loop` is the HELLO part, then a tick, then the forwarding part. */
  function AfterHello(s: Node, clock: Clock): Node {
    if HelloDue(s, clock) then s.(lastHelloMs := clock.helloStamp) else s
  }

  lemma PassShape(s: Node, h: History, clock: Clock)
    requires s.role.isGateway ==> s.phase != Forwarding
    ensures var s1 := AfterHello(s, clock);
      var s2, h2 := Originate(s1, clock), AfterTick(h, s1, clock);
      var s' := Loop(s, clock).node;
      if s.phase == Discovering then s' == s1 && AfterPass(h, s, clock) == h
      else if s.role.isGateway then s' == s2 && AfterPass(h, s, clock) == h2
      else
        && s' == Forward(s2, clock).node
        && AfterPass(h, s, clock) == if s2.phase != Forwarding && s'.phase == Forwarding
                                     then h2.(started := h2.started + [s'.pending]) else h2
  {
  }

  /** What a loop pass of a relay sends, and what it does to the slot. */
  ghost predicate RelayPassSpec(s: Node, h: History, o: Outcome, h': History) {
    && o.node.lastAccepted == s.lastAccepted && h'.accepted == h.accepted && o.sunk == None
    && (o.radio == Quiet || o.radio == SendStatus(s.peers.nextMac, o.node.pending))
    && (if s.phase == Forwarding then
          o.node.phase == Forwarding && o.node.pending == s.pending && h'.started == h.started
        else if o.radio == Quiet then
          o.node.phase == s.phase && o.node.pending == s.pending && h'.started == h.started
        else
          o.node.phase == Forwarding && h'.started == h.started + [o.node.pending])
  }

  lemma RelayPass(s: Node, h: History, clock: Clock)
    requires !s.role.isGateway
    ensures RelayPassSpec(s, h, Loop(s, clock), AfterPass(h, s, clock))
  {
    PassShape(s, h, clock);
    var s1 := AfterHello(s, clock);
    var s2 := Originate(s1, clock);
    assert s2.phase == s.phase && s2.pending == s.pending && s2.peers == s.peers;
  }

  lemma HelloPartKeepsNode(macs: seq<Mac>, i: nat, s: Node, h: History, clock: Clock)
    requires i < |macs| <= MAX_CHAIN_NODES
    requires NodeInv(macs, i, s, h)
    ensures NodeInv(macs, i, AfterHello(s, clock), h)
  {
  }

  /** The role of a node, and what a Gateway never does. */
  lemma RoleInChain(macs: seq<Mac>, i: nat, s: Node, h: History)
    requires i < |macs| <= MAX_CHAIN_NODES
    requires NodeInv(macs, i, s, h)
    ensures (s.role.isGateway <==> i == GATEWAY_NODE_ID) && (s.role.isGateway ==> s.phase != Forwarding)
  {
  }

  /** The HELLO part and the tick, which is all a Gateway does. */
  lemma TickPartKeepsNode(macs: seq<Mac>, i: nat, s: Node, h: History, clock: Clock)
    requires i < |macs| <= MAX_CHAIN_NODES
    requires NodeInv(macs, i, s, h)
    ensures var s1 := AfterHello(s, clock);
      NodeInv(macs, i, Originate(s1, clock), AfterTick(h, s1, clock))
  {
    HelloPartKeepsNode(macs, i, s, h, clock);
    TickKeepsNode(macs, i, AfterHello(s, clock), h, clock);
  }

  lemma RelayPassKeepsNode(macs: seq<Mac>, i: nat, s: Node, h: History, clock: Clock)
    requires i < |macs| <= MAX_CHAIN_NODES && i != GATEWAY_NODE_ID && s.phase != Discovering
    requires NodeInv(macs, i, s, h)
    ensures NodeInv(macs, i, Loop(s, clock).node, AfterPass(h, s, clock))
  {
    var s1 := AfterHello(s, clock);
    var s2, h2 := Originate(s1, clock), AfterTick(h, s1, clock);
    RoleInChain(macs, i, s, h);
    PassShape(s, h, clock);
    TickPartKeepsNode(macs, i, s, h, clock);
    TickKeepsPhase(s1, clock);
    ForwardKeepsNode(macs, i, s2, h2, clock);
  }

  lemma TickKeepsPhase(s: Node, clock: Clock)
    ensures Originate(s, clock).phase == s.phase
  {
  }

  lemma PassKeepsNode(macs: seq<Mac>, i: nat, s: Node, h: History, clock: Clock)
    requires i < |macs| <= MAX_CHAIN_NODES
    requires NodeInv(macs, i, s, h)
    ensures NodeInv(macs, i, Loop(s, clock).node, AfterPass(h, s, clock))
  {
    RoleInChain(macs, i, s, h);
    PassShape(s, h, clock);
    if s.phase == Discovering {
      HelloPartKeepsNode(macs, i, s, h, clock);
    } else if i == GATEWAY_NODE_ID {
      TickPartKeepsNode(macs, i, s, h, clock);
    } else {
      RelayPassKeepsNode(macs, i, s, h, clock);
    }
  }
}
