/**
 The node as the firmware holds it: file-scope variables that the handlers and
 `loop` update in place. Every method is proved to do what ChainSpec says.
 */
module ChainNode {
  import opened Words
  import opened Config
  import opened ChainSpec

  class ChainNode {
    const nodeId: uint8
    const chainSize: uint8
    const isGateway: bool
    const nextId: uint8
    const prevId: uint8
    var peers: Peers
    var phase: Phase
    var lastHelloMs: uint32
    var lastLocalMs: uint32
    var localSeq: uint16
    var localStream: LaneId
    var lastAccepted: Option<Key>
    var outQueue: seq<Packet>
    var pending: Packet
    var ackDeadlineMs: uint32
    var retryCount: uint8
    var lastRetryWarnMs: uint32
    const laneOccupied: array<uint8>
    const lanePlate: array<string>
    var stats: Stats

    ghost predicate Valid()
    {
      && laneOccupied.Length == LANES
      && lanePlate.Length == LANES
    }

    static ghost function LanesOf(occupied: array<uint8>, plates: array<string>): LaneTable
      reads occupied, plates
      requires occupied.Length == LANES && plates.Length == LANES
    {
      [Lane(occupied[0], plates[0]), Lane(occupied[1], plates[1]), Lane(occupied[2], plates[2])]
    }

    /** The abstract state. */
    ghost function State(): Node
      reads this, laneOccupied, lanePlate
      requires Valid()
    {
      Node(Role(nodeId, chainSize, isGateway, nextId, prevId),
           peers, phase, lastHelloMs, lastLocalMs, localSeq, localStream,
           lastAccepted,
           outQueue, pending, ackDeadlineMs, retryCount, lastRetryWarnMs,
           LanesOf(laneOccupied, lanePlate), stats)
    }

    constructor (id: uint8, size: uint8, now: uint32)
      requires id < size <= MAX_CHAIN_NODES
      ensures Valid() && fresh(laneOccupied) && fresh(lanePlate)
      ensures State() == Init(id, size, now)
    {
      nodeId, chainSize, isGateway := id, size, id == GATEWAY_NODE_ID;
      nextId, prevId := (id + 1) % size, (id + size - 1) % size;
      peers := Peers(false, 0, false, 0);
      phase, lastHelloMs, lastLocalMs, localSeq, localStream := Discovering, now, 0, 0, 0;
      lastAccepted := None;
      outQueue, pending, ackDeadlineMs, retryCount, lastRetryWarnMs := [], NO_PACKET, 0, 0, 0;
      stats := NO_STATS;
      laneOccupied := new uint8[LANES](_ => 0);
      lanePlate := new string[LANES](_ => "");
      new;
      assert State().lanes == [NO_LANE, NO_LANE, NO_LANE];
    }

    method HandleHello(mac: Mac, hello: Hello)
      requires Valid()
      modifies this
      ensures State() == ChainSpec.HandleHello(old(State()), mac, hello)
    {
      if hello.chainSize != chainSize || hello.nodeId >= chainSize {
        return;
      }
      if hello.nodeId == nextId && !peers.nextKnown {
        peers := peers.(nextMac := mac, nextKnown := true);
      }
      if hello.nodeId == prevId && !peers.prevKnown {
        peers := peers.(prevMac := mac, prevKnown := true);
      }
      if phase == Discovering && peers.prevKnown && (isGateway || peers.nextKnown) {
        phase := Idle;
      }
    }

    method HandleStatus(mac: Mac, pkt: Packet) returns (radio: Radio, sunk: Option<Packet>)
      requires Valid()
      modifies this
      ensures Outcome(State(), radio, false, sunk) == ChainSpec.HandleStatus(old(State()), mac, pkt)
    {
      radio, sunk := Quiet, None;
      if !peers.prevKnown || mac != peers.prevMac {
        return;
      }
      if lastAccepted == Some(KeyOf(pkt)) {
        radio := SendAck(peers.prevMac, KeyOf(pkt));
        return;
      }
      if isGateway {
        lastAccepted := Some(KeyOf(pkt));
        radio := SendAck(peers.prevMac, KeyOf(pkt));
        stats := stats.(accepted := Wrap32(stats.accepted + 1), sunk := Wrap32(stats.sunk + 1));
        sunk := Some(pkt);
        return;
      }
      if |outQueue| >= STATUS_QUEUE_DEPTH {
        stats := stats.(queueDrops := Wrap32(stats.queueDrops + 1));
        return;
      }
      outQueue := outQueue + [pkt];
      stats := stats.(accepted := Wrap32(stats.accepted + 1));
      lastAccepted := Some(KeyOf(pkt));
      radio := SendAck(peers.prevMac, KeyOf(pkt));
    }

    method HandleAck(mac: Mac, key: Key)
      requires Valid()
      modifies this
      ensures State() == ChainSpec.HandleAck(old(State()), mac, key)
    {
      if phase != Forwarding || !peers.nextKnown || mac != peers.nextMac {
        return;
      }
      if key.origin != pending.origin || key.seqNo != pending.seqNo {
        return;
      }
      phase := Idle;
      retryCount := 0;
      stats := stats.(forwarded := Wrap32(stats.forwarded + 1));
    }

    method SetLaneStatus(stream: uint8, occupied: uint8, plate: string)
      requires Valid()
      modifies laneOccupied, lanePlate
      ensures State() == ChainSpec.SetLaneStatus(old(State()), stream, occupied, plate)
    {
      if stream >= LANES {
        return;
      }
      laneOccupied[stream] := occupied;
      lanePlate[stream] := if |plate| <= MAX_PLATE_LEN then plate else plate[..MAX_PLATE_LEN];
    }

    method BeginForwarding(pkt: Packet, now: uint32) returns (radio: Radio)
      requires Valid()
      modifies this
      ensures Outcome(State(), radio, false, None) == ChainSpec.BeginForwarding(old(State()), pkt, now)
    {
      pending := pkt;
      retryCount := 0;
      ackDeadlineMs := Wrap32(now + ACK_TIMEOUT_MS);
      phase := Forwarding;
      radio := SendStatus(peers.nextMac, pending);
    }

    method Retransmit(clock: Clock) returns (radio: Radio)
      requires Valid()
      modifies this
      ensures Outcome(State(), radio, false, None) == ChainSpec.Retransmit(old(State()), clock)
    {
      retryCount := (retryCount + 1) % 0x100;
      stats := stats.(retx := Wrap32(stats.retx + 1));
      if retryCount > MAX_RETRANSMIT && Elapsed(clock.warnCheck, lastRetryWarnMs) >= RETRY_WARN_MS {
        lastRetryWarnMs := clock.warnStamp;
      }
      radio := SendStatus(peers.nextMac, pending);
      ackDeadlineMs := Wrap32(clock.ackStamp + ACK_TIMEOUT_MS);
    }

    /** Makes the reading of the lane whose turn it is; the counter and the lane move on. */
    method TakeReading() returns (pkt: Packet)
      requires Valid()
      modifies this
      ensures pkt == Reading(old(State()))
      ensures State() == old(State()).(localSeq := Wrap16(old(localSeq) + 1),
                                       localStream := (old(localStream) + 1) % LANES)
    {
      pkt := Packet(nodeId, localStream, localSeq, laneOccupied[localStream], lanePlate[localStream]);
      localSeq := Wrap16(localSeq + 1);
      localStream := (localStream + 1) % LANES;
    }

    /** The local-origination block of `loop`. */
    method Originate(clock: Clock) returns (sunk: Option<Packet>)
      requires Valid() && phase != Discovering
      modifies this
      ensures State() == ChainSpec.Originate(old(State()), clock)
      ensures sunk == if isGateway && LocalDue(old(State()), clock) then Some(Reading(old(State()))) else None
    {
      sunk := None;
      if Elapsed(clock.localCheck, lastLocalMs) < STATUS_LOCAL_INTERVAL_MS {
        return;
      }
      var pkt := TakeReading();
      lastLocalMs := clock.localStamp;
      if isGateway {
        stats := stats.(local := Wrap32(stats.local + 1), sunk := Wrap32(stats.sunk + 1));
        sunk := Some(pkt);
      } else if |outQueue| < STATUS_QUEUE_DEPTH {
        stats := stats.(local := Wrap32(stats.local + 1));
        outQueue := outQueue + [pkt];
      } else {
        stats := stats.(local := Wrap32(stats.local + 1), queueDrops := Wrap32(stats.queueDrops + 1));
      }
    }

    method Loop(clock: Clock) returns (radio: Radio, hello: bool, sunk: Option<Packet>)
      requires Valid()
      modifies this
      ensures Outcome(State(), radio, hello, sunk) == ChainSpec.Loop(old(State()), clock)
    {
      radio, hello, sunk := Quiet, false, None;
      var helloInterval := if phase == Discovering then HELLO_INTERVAL_MS else HELLO_IDLE_INTERVAL_MS;
      if Elapsed(clock.helloCheck, lastHelloMs) >= helloInterval {
        hello := true;
        lastHelloMs := clock.helloStamp;
      }
      if phase == Discovering {
        return;
      }
      sunk := Originate(clock);
      if isGateway {
        return;
      }
      if phase == Forwarding {
        if clock.ackCheck >= ackDeadlineMs {
          radio := Retransmit(clock);
        }
        return;
      }
      if outQueue != [] {
        var next := outQueue[0];
        outQueue := outQueue[1..];
        radio := BeginForwarding(next, clock.ackStamp);
      }
    }
  }
}
