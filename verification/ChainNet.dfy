/**
 A chain of N nodes and the radio between them. `links[i]` carries status frames
 from node i to node i + 1 (modulo N) and ACKs back; both directions are FIFO
 and may lose any frame at any time. A run is any sequence of enabled steps: the
 nodes are scheduled, clocked and disturbed in every possible way.
 */
module ChainNet {
  import opened Words
  import opened Config
  import opened ChainSpec
  import opened HopProtocol

  datatype Link = Link(data: seq<Packet>, acks: seq<Key>)

  /**
   What has happened at a node so far: everything it put in its queue (or, at
   the Gateway, handed to the uplink), everything it put in its slot, everything
   it took from prev, its own readings that found room with their tick numbers,
   and the number of ticks.
   */
  datatype History = History(queued: seq<Packet>, started: seq<Packet>, accepted: seq<Packet>,
                             local: seq<Packet>, localTicks: seq<nat>, ticks: nat)

  /** `stray`: unicast frames addressed to anyone but the neighbour they are meant for. */
  datatype Net = Net(macs: seq<Mac>, nodes: seq<Node>, links: seq<Link>, hist: seq<History>,
                     flushed: seq<Packet>, stray: seq<Radio>)

  datatype Step =
    | HearHello(at: nat, mac: Mac, hello: Hello)
    | TakeStatus(hop: nat)
    | TakeAck(hop: nat)
    | Pass(at: nat, clock: Clock)
    | LoseStatus(hop: nat, frame: nat)
    | LoseAck(hop: nat, frame: nat)
    | HearForeignStatus(at: nat, mac: Mac, pkt: Packet)
    | HearForeignAck(at: nat, mac: Mac, key: Key)
    | SetLane(at: nat, stream: uint8, occupied: uint8, plate: string)

  ghost predicate WellFormed(net: Net) {
    && 1 <= |net.macs| <= MAX_CHAIN_NODES
    && |net.nodes| == |net.links| == |net.hist| == |net.macs|
    && (forall i, j :: 0 <= i < j < |net.macs| ==> net.macs[i] != net.macs[j])
  }

  const EMPTY_HISTORY := History([], [], [], [], [], 0)

  /** Node i after `init`, having broadcast its first HELLO at some time; nothing is on the air. */
  ghost predicate FreshNode(net: Net, i: nat)
    requires WellFormed(net) && i < |net.macs|
  {
    && net.nodes[i] == Init(i, |net.macs|, net.nodes[i].lastHelloMs)
    && net.links[i] == Link([], []) && net.hist[i] == EMPTY_HISTORY
  }

  /** All nodes just booted. */
  ghost predicate JustBooted(net: Net) {
    && WellFormed(net)
    && (forall i {:trigger FreshNode(net, i)} :: 0 <= i < |net.macs| ==> FreshNode(net, i))
    && net.flushed == [] && net.stray == []
  }

  /**
   A HELLO that node `at` can receive: one of another node of this chain, from
   that node's MAC, or any from a differently provisioned network.
   */
  predicate Audible(net: Net, at: nat, mac: Mac, hello: Hello) {
    || hello.chainSize != |net.macs|
    || hello.nodeId >= |net.macs|
    || (hello.nodeId != at && mac == net.macs[hello.nodeId])
  }

  predicate Enabled(net: Net, step: Step)
    requires |net.links| == |net.macs|
  {
    match step
    case HearHello(at, mac, hello) => at < |net.macs| && Audible(net, at, mac, hello)
    case TakeStatus(hop) => hop < |net.macs| && net.links[hop].data != []
    case TakeAck(hop) => hop < |net.macs| && net.links[hop].acks != []
    case Pass(at, _) => at < |net.macs|
    case LoseStatus(hop, frame) => hop < |net.macs| && frame < |net.links[hop].data|
    case LoseAck(hop, frame) => hop < |net.macs| && frame < |net.links[hop].acks|
    case HearForeignStatus(at, mac, _) => at < |net.macs| && mac !in net.macs
    case HearForeignAck(at, mac, _) => at < |net.macs| && mac !in net.macs
    case SetLane(at, _, _, _) => at < |net.macs|
  }

  /** Puts what node i sent on the air and records what it handed to the uplink. */
  ghost function Emit(net: Net, i: nat, o: Outcome): (net': Net)
    requires WellFormed(net) && i < |net.macs|
    ensures WellFormed(net') && net'.macs == net.macs && net'.nodes == net.nodes && net'.hist == net.hist
  {
    var n := |net.macs|;
    var net1 := if o.sunk.Some? then net.(flushed := net.flushed + [o.sunk.value]) else net;
    match o.radio
    case Quiet => net1
    case SendStatus(dst, pkt) =>
      if dst == net.macs[NextOf(i, n)]
      then net1.(links := net.links[i := net.links[i].(data := net.links[i].data + [pkt])])
      else net1.(stray := net.stray + [o.radio])
    case SendAck(dst, key) =>
      var p := PrevOf(i, n);
      if dst == net.macs[p]
      then net1.(links := net.links[p := net.links[p].(acks := net.links[p].acks + [key])])
      else net1.(stray := net.stray + [o.radio])
  }

  function AfterStatus(h: History, s: Node, mac: Mac, pkt: Packet): History {
    if Takes(s, mac, pkt) then h.(accepted := h.accepted + [pkt], queued := h.queued + [pkt]) else h
  }

  function AfterTick(h: History, s: Node, clock: Clock): History {
    if !LocalDue(s, clock) then h
    else if HasRoom(s) then
      h.(ticks := h.ticks + 1, queued := h.queued + [Reading(s)],
         local := h.local + [Reading(s)], localTicks := h.localTicks + [h.ticks])
    else h.(ticks := h.ticks + 1)
  }

  function AfterPass(h: History, s: Node, clock: Clock): History {
    var h1 := AfterTick(h, s, clock);
    var s' := Loop(s, clock).node;
    if s.phase != Forwarding && s'.phase == Forwarding then h1.(started := h1.started + [s'.pending]) else h1
  }

  ghost function Put(net: Net, i: nat, s: Node, h: History): Net
    requires WellFormed(net) && i < |net.macs|
    ensures WellFormed(Put(net, i, s, h)) && Put(net, i, s, h).macs == net.macs
  {
    net.(nodes := net.nodes[i := s], hist := net.hist[i := h])
  }

  ghost function PutLink(net: Net, i: nat, link: Link): Net
    requires WellFormed(net) && i < |net.macs|
    ensures WellFormed(PutLink(net, i, link)) && PutLink(net, i, link).macs == net.macs
  {
    net.(links := net.links[i := link])
  }

  ghost function Apply(net: Net, step: Step): (net': Net)
    requires WellFormed(net) && Enabled(net, step)
    ensures WellFormed(net') && net'.macs == net.macs
  {
    var n := |net.macs|;
    match step
    case HearHello(at, mac, hello) =>
      Put(net, at, HandleHello(net.nodes[at], mac, hello), net.hist[at])
    case TakeStatus(hop) =>
      var r, pkt := NextOf(hop, n), net.links[hop].data[0];
      var o := HandleStatus(net.nodes[r], net.macs[hop], pkt);
      var net1 := PutLink(net, hop, net.links[hop].(data := net.links[hop].data[1..]));
      Emit(Put(net1, r, o.node, AfterStatus(net.hist[r], net.nodes[r], net.macs[hop], pkt)), r, o)
    case TakeAck(hop) =>
      var s := HandleAck(net.nodes[hop], net.macs[NextOf(hop, n)], net.links[hop].acks[0]);
      Put(PutLink(net, hop, net.links[hop].(acks := net.links[hop].acks[1..])), hop, s, net.hist[hop])
    case Pass(at, clock) =>
      var o := Loop(net.nodes[at], clock);
      Emit(Put(net, at, o.node, AfterPass(net.hist[at], net.nodes[at], clock)), at, o)
    case LoseStatus(hop, frame) =>
      PutLink(net, hop, net.links[hop].(data := Without(net.links[hop].data, frame)))
    case LoseAck(hop, frame) =>
      PutLink(net, hop, net.links[hop].(acks := Without(net.links[hop].acks, frame)))
    case HearForeignStatus(at, mac, pkt) =>
      var o := HandleStatus(net.nodes[at], mac, pkt);
      Emit(Put(net, at, o.node, AfterStatus(net.hist[at], net.nodes[at], mac, pkt)), at, o)
    case HearForeignAck(at, mac, key) =>
      Put(net, at, HandleAck(net.nodes[at], mac, key), net.hist[at])
    case SetLane(at, stream, occupied, plate) =>
      Put(net, at, SetLaneStatus(net.nodes[at], stream, occupied, plate), net.hist[at])
  }

  /** The steps are enabled one after the other from `net` on. */
  ghost predicate IsRun(net: Net, steps: seq<Step>)
    requires WellFormed(net)
    decreases |steps|
  {
    steps == [] || (Enabled(net, steps[0]) && IsRun(Apply(net, steps[0]), steps[1..]))
  }

  /** The state a run ends in. */
  ghost function Exec(net: Net, steps: seq<Step>): (net': Net)
    requires WellFormed(net) && IsRun(net, steps)
    ensures WellFormed(net') && net'.macs == net.macs
    decreases |steps|
  {
    if steps == [] then net else Exec(Apply(net, steps[0]), steps[1..])
  }

  lemma {:induction false} ExecAppend(net: Net, a: seq<Step>, b: seq<Step>)
    requires WellFormed(net) && IsRun(net, a) && IsRun(Exec(net, a), b)
    ensures IsRun(net, a + b) && Exec(net, a + b) == Exec(Exec(net, a), b)
    decreases |a|
  {
    if a == [] {
      assert a + b == b;
    } else {
      assert (a + b)[1..] == a[1..] + b;
      ExecAppend(Apply(net, a[0]), a[1..], b);
    }
  }

  /** The hop from node i to its next. */
  function HopOf(net: Net, i: nat): Hop
    requires |net.nodes| == |net.links| == |net.hist| == |net.macs| && i < |net.macs|
  {
    var r := NextOf(i, |net.macs|);
    Hop(net.nodes[i].phase == Forwarding, net.nodes[i].pending, net.hist[i].started,
        net.nodes[r].lastAccepted, net.hist[r].accepted, net.links[i].data, net.links[i].acks)
  }
}
