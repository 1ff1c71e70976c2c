/**
 The state machine of one chain node (main/chain_node.cpp) as pure functions:
 what each handler and one pass of `loop` do to the node, and what they send.
 */
module ChainSpec {
  import opened Words
  import opened Config

  type Mac = m: nat | m < 0x1_0000_0000_0000

  datatype Hello = Hello(nodeId: uint8, chainSize: uint8)

  datatype Packet = Packet(origin: uint8, stream: uint8, seqNo: uint16, occupied: uint8, plate: string)

  /** What an ACK names, and all that duplicate detection looks at. */
  datatype Key = Key(origin: uint8, seqNo: uint16)

  function KeyOf(p: Packet): Key { Key(p.origin, p.seqNo) }

  datatype Phase = Discovering | Idle | Forwarding

  datatype Lane = Lane(occupied: uint8, plate: string)

  type LaneId = x: int | 0 <= x < LANES

  type LaneTable = s: seq<Lane> | |s| == LANES witness [NO_LANE, NO_LANE, NO_LANE]

  const NO_LANE := Lane(0, "")

  datatype Role = Role(nodeId: uint8, chainSize: uint8, isGateway: bool, nextId: uint8, prevId: uint8)

  datatype Peers = Peers(nextKnown: bool, nextMac: Mac, prevKnown: bool, prevMac: Mac)

  datatype Stats = Stats(local: uint32, accepted: uint32, forwarded: uint32, sunk: uint32,
                         retx: uint32, queueDrops: uint32)

  datatype Node = Node(
    role: Role,
    peers: Peers,
    phase: Phase,
    lastHelloMs: uint32,
    lastLocalMs: uint32,
    localSeq: uint16,
    localStream: LaneId,
    lastAccepted: Option<Key>,
    queue: seq<Packet>,
    pending: Packet,
    ackDeadlineMs: uint32,
    retryCount: uint8,
    lastRetryWarnMs: uint32,
    lanes: LaneTable,
    stats: Stats)

  /** At most one unicast frame leaves a node per handler call or loop pass. */
  datatype Radio = Quiet | SendStatus(statusTo: Mac, pkt: Packet) | SendAck(ackTo: Mac, key: Key)

  /** `hello`: a HELLO was broadcast; `sunk`: a reading was handed to `gateway_uplink::flush`. */
  datatype Outcome = Outcome(node: Node, radio: Radio, hello: bool, sunk: Option<Packet>)

  /** The values that the successive `nowMs()` calls of one loop pass return. */
  datatype Clock = Clock(helloCheck: uint32, helloStamp: uint32, localCheck: uint32, localStamp: uint32,
                         ackCheck: uint32, warnCheck: uint32, warnStamp: uint32, ackStamp: uint32)

  const NO_PACKET := Packet(0, 0, 0, 0, "")
  const NO_STATS := Stats(0, 0, 0, 0, 0, 0)

  function NextOf(i: nat, n: nat): nat
    requires i < n
  {
    if i + 1 == n then 0 else i + 1
  }

  function PrevOf(i: nat, n: nat): nat
    requires i < n
  {
    if i == 0 then n - 1 else i - 1
  }

  /** Next and prev are the inverse rotations that `init` computes modulo the chain size. */
  lemma NeighboursAreInverse(i: nat, n: nat)
    requires i < n
    ensures NextOf(i, n) == (i + 1) % n && PrevOf(i, n) == (i + n - 1) % n
    ensures PrevOf(NextOf(i, n), n) == i && NextOf(PrevOf(i, n), n) == i
  {
    if i + 1 < n {
      Remainder(i + 1, 0, n);
    }
    if i > 0 {
      Remainder(i + n - 1, 1, n);
    } else {
      Remainder(n - 1, 0, n);
    }
  }

  function RoleOf(i: nat, n: nat): Role
    requires i < n <= MAX_CHAIN_NODES
  {
    Role(i, n, i == GATEWAY_NODE_ID, (i + 1) % n, (i + n - 1) % n)
  }

  function Init(i: nat, n: nat, helloStamp: uint32): Node
    requires i < n <= MAX_CHAIN_NODES
  {
    Node(RoleOf(i, n), Peers(false, 0, false, 0), Discovering, helloStamp, 0, 0, 0, None, [], NO_PACKET,
         0, 0, 0, [NO_LANE, NO_LANE, NO_LANE], NO_STATS)
  }

  function Truncated(plate: string): string {
    if |plate| <= MAX_PLATE_LEN then plate else plate[..MAX_PLATE_LEN]
  }

  /** At most eleven characters are kept, the first ones. */
  predicate Abridges(kept: string, plate: string) {
    kept <= plate && |kept| == Min(|plate|, MAX_PLATE_LEN)
  }

  lemma TruncatedAbridges(plate: string)
    ensures Abridges(Truncated(plate), plate)
    ensures |plate| <= MAX_PLATE_LEN ==> Truncated(plate) == plate
  {
  }

  function SetLaneStatus(s: Node, stream: uint8, occupied: uint8, plate: string): Node {
    if stream >= LANES then s
    else s.(lanes := s.lanes[stream := Lane(occupied, Truncated(plate))])
  }

  function HandleHello(s: Node, mac: Mac, hello: Hello): Node {
    if hello.chainSize != s.role.chainSize || hello.nodeId >= s.role.chainSize then s
    else
      var p1 := if hello.nodeId == s.role.nextId && !s.peers.nextKnown
                then s.peers.(nextMac := mac, nextKnown := true) else s.peers;
      var p2 := if hello.nodeId == s.role.prevId && !p1.prevKnown
                then p1.(prevMac := mac, prevKnown := true) else p1;
      var done := s.phase == Discovering && p2.prevKnown && (s.role.isGateway || p2.nextKnown);
      s.(peers := p2, phase := if done then Idle else s.phase)
  }

  /** The sender is the upstream neighbour this node discovered. */
  predicate FromPrev(s: Node, mac: Mac) {
    s.peers.prevKnown && mac == s.peers.prevMac
  }

  predicate IsDuplicate(s: Node, pkt: Packet) {
    s.lastAccepted == Some(KeyOf(pkt))
  }

  predicate HasRoom(s: Node) {
    s.role.isGateway || |s.queue| < STATUS_QUEUE_DEPTH
  }

  /** The packet is new, comes from prev, and there is room for it. */
  predicate Takes(s: Node, mac: Mac, pkt: Packet) {
    FromPrev(s, mac) && !IsDuplicate(s, pkt) && HasRoom(s)
  }

  function HandleStatus(s: Node, mac: Mac, pkt: Packet): Outcome {
    if !FromPrev(s, mac) then Outcome(s, Quiet, false, None)
    else if IsDuplicate(s, pkt) then Outcome(s, SendAck(s.peers.prevMac, KeyOf(pkt)), false, None)
    else if s.role.isGateway then
      Outcome(s.(lastAccepted := Some(KeyOf(pkt)),
                 stats := s.stats.(accepted := Wrap32(s.stats.accepted + 1), sunk := Wrap32(s.stats.sunk + 1))),
              SendAck(s.peers.prevMac, KeyOf(pkt)), false, Some(pkt))
    else if !HasRoom(s) then
      Outcome(s.(stats := s.stats.(queueDrops := Wrap32(s.stats.queueDrops + 1))), Quiet, false, None)
    else
      Outcome(s.(queue := s.queue + [pkt], lastAccepted := Some(KeyOf(pkt)),
                 stats := s.stats.(accepted := Wrap32(s.stats.accepted + 1))),
              SendAck(s.peers.prevMac, KeyOf(pkt)), false, None)
  }

  /** The ACK comes from next and names the packet in the slot. */
  predicate AckMatches(s: Node, mac: Mac, key: Key) {
    s.phase == Forwarding && s.peers.nextKnown && mac == s.peers.nextMac && key == KeyOf(s.pending)
  }

  function HandleAck(s: Node, mac: Mac, key: Key): Node {
    if AckMatches(s, mac, key)
    then s.(phase := Idle, retryCount := 0, stats := s.stats.(forwarded := Wrap32(s.stats.forwarded + 1)))
    else s
  }

  function HelloInterval(s: Node): uint32 {
    if s.phase == Discovering then HELLO_INTERVAL_MS else HELLO_IDLE_INTERVAL_MS
  }

  predicate HelloDue(s: Node, clock: Clock) {
    Elapsed(clock.helloCheck, s.lastHelloMs) >= HelloInterval(s)
  }

  predicate LocalDue(s: Node, clock: Clock) {
    s.phase != Discovering && Elapsed(clock.localCheck, s.lastLocalMs) >= STATUS_LOCAL_INTERVAL_MS
  }

  /** The reading a tick of this node makes: the lane whose turn it is, as last cached. */
  function Reading(s: Node): Packet {
    var lane := s.lanes[s.localStream];
    Packet(s.role.nodeId, s.localStream, s.localSeq, lane.occupied, lane.plate)
  }

  /** The local-origination part of `loop`. */
  function Originate(s: Node, clock: Clock): Node {
    if !LocalDue(s, clock) then s
    else
      var s1 := s.(lastLocalMs := clock.localStamp, localSeq := Wrap16(s.localSeq + 1),
                   localStream := (s.localStream + 1) % LANES);
      var stats := s.stats.(local := Wrap32(s.stats.local + 1));
      if s.role.isGateway then s1.(stats := stats.(sunk := Wrap32(stats.sunk + 1)))
      else if HasRoom(s) then s1.(queue := s.queue + [Reading(s)], stats := stats)
      else s1.(stats := stats.(queueDrops := Wrap32(stats.queueDrops + 1)))
  }

  function BeginForwarding(s: Node, pkt: Packet, now: uint32): Outcome {
    Outcome(s.(pending := pkt, retryCount := 0, ackDeadlineMs := Wrap32(now + ACK_TIMEOUT_MS),
               phase := Forwarding),
            SendStatus(s.peers.nextMac, pkt), false, None)
  }

  predicate RetransmitDue(s: Node, clock: Clock) {
    s.phase == Forwarding && clock.ackCheck >= s.ackDeadlineMs
  }

  function Retransmit(s: Node, clock: Clock): Outcome {
    var retry := (s.retryCount + 1) % 0x100;
    var warn := retry > MAX_RETRANSMIT && Elapsed(clock.warnCheck, s.lastRetryWarnMs) >= RETRY_WARN_MS;
    Outcome(s.(retryCount := retry, ackDeadlineMs := Wrap32(clock.ackStamp + ACK_TIMEOUT_MS),
               lastRetryWarnMs := if warn then clock.warnStamp else s.lastRetryWarnMs,
               stats := s.stats.(retx := Wrap32(s.stats.retx + 1))),
            SendStatus(s.peers.nextMac, s.pending), false, None)
  }

  /** The last part of `loop`, on a relay: retransmit, wait, or start the next queued packet. */
  function Forward(s: Node, clock: Clock): Outcome {
    if s.phase == Forwarding then
      if RetransmitDue(s, clock) then Retransmit(s, clock) else Outcome(s, Quiet, false, None)
    else if s.queue != [] then
      BeginForwarding(s.(queue := s.queue[1..]), s.queue[0], clock.ackStamp)
    else Outcome(s, Quiet, false, None)
  }

  /** One pass of `loop` after `espnow::poll` has drained the received frames. */
  function Loop(s: Node, clock: Clock): Outcome {
    var hello := HelloDue(s, clock);
    var s1 := if hello then s.(lastHelloMs := clock.helloStamp) else s;
    if s1.phase == Discovering then Outcome(s1, Quiet, hello, None)
    else
      var s2 := Originate(s1, clock);
      if s.role.isGateway then
        Outcome(s2, Quiet, hello, if LocalDue(s1, clock) then Some(Reading(s1)) else None)
      else Forward(s2, clock).(hello := hello)
  }
}
