/**
 The video relays of a chain of N nodes (main/video_relay.cpp): bounded queues
 that drop when full, and on every hop any number of connections one after the
 other. Frames travel as the bytes of Framing; a connection may be cut at any
 byte, by either side, at any time, and a receive may fail in the middle of a
 payload that is being drained.
 */
module VideoNet {
  import opened Config
  import opened ChainSpec
  import opened Framing

  /**
   The client of a node: without a connection, writing to one that the server of
   the next node will read, or to one that this server has already closed.
   */
  datatype Client = Offline | Attached | Orphaned

  /**
   A node: its outgoing queue, its client, and for each of the connections to
   the next node that are not closed there, oldest first, the bytes unread by
   the server; and the drop counter. Then what has happened so far.
   */
  datatype Station = Station(queue: seq<Frame>, client: Client, conns: seq<Bytes>, dropped: nat, log: Log)

  /**
   The frames of the node's own LuckFox, the frames its server read into a
   buffer, those that entered the queue (at the Gateway: went to the uplink),
   those its client took off the queue, those `sendAll` accepted whole, and how
   many frames there was no buffer for.
   */
  datatype Log = Log(produced: seq<Frame>, received: seq<Frame>, entered: seq<Frame>,
                     pulled: seq<Frame>, sent: seq<Frame>, refused: nat)

  const FRESH := Station([], Offline, [], 0, Log([], [], [], [], [], 0))

  datatype Step =
    | Produce(at: nat, frame: Frame)
    | Connect(at: nat)
    | SendFrame(at: nat, part: nat)
    | SendHeartbeat(at: nat, part: nat)
    | ReadItem(hop: nat, hasBuffer: bool)
    | CutDrain(hop: nat, part: nat)
    | CloseServer(hop: nat)

  /** `enqueueOrDrop`: the Gateway hands every frame to the uplink, a relay drops when its queue is full. */
  function EnqueueOrDrop(s: Station, f: Frame, gateway: bool): Station {
    if gateway then s.(log := s.log.(entered := s.log.entered + [f]))
    else if |s.queue| >= VIDEO_QUEUE_DEPTH then s.(dropped := s.dropped + 1)
    else s.(queue := s.queue + [f], log := s.log.(entered := s.log.entered + [f]))
  }

  /** `onLuckfoxFrame`. */
  function AfterProduce(s: Station, f: Frame, gateway: bool): Station {
    EnqueueOrDrop(s.(log := s.log.(produced := s.log.produced + [f])), f, gateway)
  }

  /** The server has read a frame off its connection, into a buffer or, for want of one, into nothing. */
  function AfterReceive(s: Station, f: Frame, gateway: bool, hasBuffer: bool): Station {
    if hasBuffer then EnqueueOrDrop(s.(log := s.log.(received := s.log.received + [f])), f, gateway)
    else AfterRefuse(s)
  }

  /** The client takes a frame off its queue, of which `sendAll` will accept all or not. */
  function AfterPull(s: Station, whole: bool): Station
    requires s.queue != []
  {
    var f := s.queue[0];
    s.(queue := s.queue[1..], dropped := if whole then s.dropped else s.dropped + 1,
       log := s.log.(pulled := s.log.pulled + [f], sent := if whole then s.log.sent + [f] else s.log.sent))
  }

  /** The client writes the first `part` bytes of an item; unless that is all of it, the link has failed. */
  function Write(s: Station, bytes: Bytes, part: nat): Station
    requires part <= |bytes| && (s.client == Attached ==> s.conns != [])
  {
    var last := |s.conns| - 1;
    s.(client := if part == |bytes| then s.client else Offline,
       conns := if s.client == Attached then s.conns[..last] + [s.conns[last] + bytes[..part]] else s.conns)
  }

  /** The server closes its oldest connection. */
  function Close(s: Station): Station
    requires s.conns != []
  {
    s.(client := if |s.conns| == 1 && s.client == Attached then Orphaned else s.client, conns := s.conns[1..])
  }

  function Consume(s: Station, rest: Bytes): Station
    requires s.conns != []
  {
    s.(conns := [rest] + s.conns[1..])
  }

  /** The server has dropped a frame for want of a buffer. */
  function AfterRefuse(s: Station): Station {
    s.(dropped := s.dropped + 1, log := s.log.(refused := s.log.refused + 1))
  }

  ghost predicate Enabled(net: seq<Station>, step: Step) {
    match step
    case Produce(at, f) => at < |net| && ValidFrame(f) && f.origin == at
    case Connect(at) => 0 < at < |net| && net[at].client == Offline
    case SendFrame(at, part) =>
      && 0 < at < |net| && net[at].client != Offline && (net[at].client == Attached ==> net[at].conns != [])
      && net[at].queue != [] && ValidFrame(net[at].queue[0]) && part <= |Encode(Video(net[at].queue[0]))|
    case SendHeartbeat(at, part) =>
      && 0 < at < |net| && net[at].client != Offline && (net[at].client == Attached ==> net[at].conns != [])
      && net[at].queue == [] && part <= |Encode(Heartbeat)|
    case ReadItem(hop, _) => hop < |net| && net[hop].conns != [] && !ParseOne(net[hop].conns[0]).NeedMore?
    case CutDrain(hop, part) => hop < |net| && net[hop].conns != [] && CanCut(net[hop].conns[0], part)
    case CloseServer(hop) => hop < |net| && net[hop].conns != []
  }

  /** A frame for which there is no buffer, and a receive that fails when `part` bytes of its payload are drained. */
  predicate CanCut(bytes: Bytes, part: nat) {
    && HEADER_BYTES + part <= |bytes|
    && var h := DecodeHeader(bytes[..HEADER_BYTES]);
       !IsHeartbeat(h) && !IsBad(h) && part < h.dataLen
  }

  ghost function Apply(net: seq<Station>, step: Step): (r: seq<Station>)
    requires Enabled(net, step)
    ensures |r| == |net|
  {
    match step
    case Produce(at, f) => net[at := AfterProduce(net[at], f, at == GATEWAY_NODE_ID)]
    case Connect(at) => net[at := net[at].(client := Attached, conns := net[at].conns + [[]])]
    case SendFrame(at, part) =>
      var bytes := Encode(Video(net[at].queue[0]));
      net[at := Write(AfterPull(net[at], part == |bytes|), bytes, part)]
    case SendHeartbeat(at, part) => net[at := Write(net[at], Encode(Heartbeat), part)]
    case ReadItem(hop, hasBuffer) =>
      (match ParseOne(net[hop].conns[0])
       case Alive(rest) => net[hop := Consume(net[hop], rest)]
       case Got(f, rest) =>
         var next := NextOf(hop, |net|);
         net[hop := Consume(net[hop], rest)][next := AfterReceive(net[next], f, next == GATEWAY_NODE_ID, hasBuffer)]
       case Bad => net[hop := Close(net[hop])]
       case NeedMore => net)
    case CutDrain(hop, part) =>
      var next := NextOf(hop, |net|);
      net[hop := Consume(net[hop], net[hop].conns[0][HEADER_BYTES + part..])][next := AfterRefuse(net[next])]
    case CloseServer(hop) => net[hop := Close(net[hop])]
  }

  ghost predicate IsRun(net: seq<Station>, steps: seq<Step>)
    decreases |steps|
  {
    steps == [] || (Enabled(net, steps[0]) && IsRun(Apply(net, steps[0]), steps[1..]))
  }

  /** The state a run ends in. */
  ghost function Exec(net: seq<Station>, steps: seq<Step>): (r: seq<Station>)
    requires IsRun(net, steps)
    ensures |r| == |net|
    decreases |steps|
  {
    if steps == [] then net else Exec(Apply(net, steps[0]), steps[1..])
  }

  lemma StepThen(net: seq<Station>, step: Step, steps: seq<Step>)
    requires Enabled(net, step) && IsRun(Apply(net, step), steps)
    ensures IsRun(net, [step] + steps) && Exec(net, [step] + steps) == Exec(Apply(net, step), steps)
  {
    assert ([step] + steps)[1..] == steps;
  }

  // Losing the framing.

  /** The hops on which the connection being read has lost its framing, after this step. */
  ghost function TornBy(net: seq<Station>, torn: set<nat>, step: Step): set<nat>
    requires Enabled(net, step)
  {
    match step
    case CutDrain(hop, _) => torn + {hop}
    case ReadItem(hop, _) => if ParseOne(net[hop].conns[0]).Bad? then torn - {hop} else torn
    case CloseServer(hop) => torn - {hop}
    case _ => torn
  }

  ghost function Torn(net: seq<Station>, torn: set<nat>, steps: seq<Step>): set<nat>
    requires IsRun(net, steps)
    decreases |steps|
  {
    if steps == [] then torn else Torn(Apply(net, steps[0]), TornBy(net, torn, steps[0]), steps[1..])
  }

  /** The server hands on what it takes for a frame, from a connection that has lost its framing. */
  ghost predicate Misleads(net: seq<Station>, torn: set<nat>, step: Step)
    requires Enabled(net, step)
  {
    step.ReadItem? && step.hop in torn && step.hasBuffer && ParseOne(net[step.hop].conns[0]).Got?
  }

  /** No frame read from a connection that has lost its framing is handed on. */
  ghost predicate IsOrderly(net: seq<Station>, torn: set<nat>, steps: seq<Step>)
    requires IsRun(net, steps)
    decreases |steps|
  {
    steps == []
    || (!Misleads(net, torn, steps[0])
        && IsOrderly(Apply(net, steps[0]), TornBy(net, torn, steps[0]), steps[1..]))
  }

  function Boot(n: nat): seq<Station> { seq(n, _ => FRESH) }
}
