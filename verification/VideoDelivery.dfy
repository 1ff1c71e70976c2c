/**
 The invariant of the video chain, and the proof that every step keeps it but the
 one that cuts a drain short: what is on a connection are whole items up to a
 cut, and what a server has read or still can read was sent whole, in order.
 */
module VideoDelivery {
  import opened Config
  import opened ChainSpec
  import opened NodeInvariant
  import opened Subsequence
  import opened Framing
  import opened VideoNet

  const ALWAYS: nat -> bool := _ => true

  /** The whole frames that wait in the bytes of a connection. */
  function Waiting(bytes: Bytes): seq<Frame> { Decode(bytes, ALWAYS, 0) }

  lemma {:induction false} DecodeAlways(bytes: Bytes, k: nat)
    ensures Decode(bytes, ALWAYS, k) == Waiting(bytes)
    decreases |bytes|
  {
    match ParseOne(bytes)
    case Alive(rest) => DecodeAlways(rest, k); DecodeAlways(rest, 0);
    case Got(f, rest) => DecodeAlways(rest, k + 1); DecodeAlways(rest, 1);
    case _ =>
  }

  lemma WaitingFirst(bytes: Bytes)
    ensures Waiting(bytes) ==
      match ParseOne(bytes)
      case NeedMore => []
      case Bad => []
      case Alive(rest) => Waiting(rest)
      case Got(f, rest) => [f] + Waiting(rest)
  {
    match ParseOne(bytes)
    case Got(f, rest) => DecodeAlways(rest, 1);
    case _ =>
  }

  /** What is left of the bytes behind the last whole item. */
  function Residue(bytes: Bytes): Bytes
    decreases |bytes|
  {
    match ParseOne(bytes)
    case NeedMore => bytes
    case Bad => bytes
    case Alive(rest) => Residue(rest)
    case Got(_, rest) => Residue(rest)
  }

  /** Items as written, up to a cut: no payload is ever taken for a header. */
  predicate Intact(bytes: Bytes) { ParseOne(Residue(bytes)).NeedMore? }

  lemma ParseExtend(bytes: Bytes, more: Bytes)
    requires ParseOne(bytes).Alive? || ParseOne(bytes).Got?
    ensures ParseOne(bytes + more) == var p := ParseOne(bytes); p.(rest := p.rest + more)
  {
    var header, body := bytes[..HEADER_BYTES], bytes[HEADER_BYTES..];
    var h := DecodeHeader(header);
    assert bytes + more == header + (body + more);
    ParseAfterHeader(header, h, body + more);
    if !IsHeartbeat(h) {
      assert (body + more)[..h.dataLen] == body[..h.dataLen];
      assert (body + more)[h.dataLen..] == body[h.dataLen..] + more;
    }
  }

  function FrameOf(item: Item): seq<Frame> {
    if item.Video? then [item.frame] else []
  }

  /** Writing the first bytes of an item behind whole items. */
  lemma {:induction false} WriteBehind(bytes: Bytes, item: Item, part: nat)
    requires Residue(bytes) == [] && (item.Video? ==> ValidFrame(item.frame)) && part <= |Encode(item)|
    ensures var all := bytes + Encode(item)[..part];
      && Intact(all)
      && (part < |Encode(item)| ==> Waiting(all) == Waiting(bytes))
      && (part == |Encode(item)| ==> Residue(all) == [] && Waiting(all) == Waiting(bytes) + FrameOf(item))
    decreases |bytes|
  {
    var more := Encode(item)[..part];
    WaitingFirst(bytes);
    WaitingFirst(bytes + more);
    if bytes == [] {
      assert bytes + more == more;
      WriteFirst(item, part);
    } else {
      ParseExtend(bytes, more);
      WriteBehind(ParseOne(bytes).rest, item, part);
    }
  }

  lemma WriteFirst(item: Item, part: nat)
    requires (item.Video? ==> ValidFrame(item.frame)) && part <= |Encode(item)|
    ensures var all := Encode(item)[..part];
      && Intact(all)
      && (part < |Encode(item)| ==> Waiting(all) == [])
      && (part == |Encode(item)| ==> Residue(all) == [] && Waiting(all) == FrameOf(item))
  {
    if part < |Encode(item)| {
      ParseCut(item, part);
      NothingYet(Encode(item)[..part]);
    } else {
      WriteWhole(item, Encode(item)[..part]);
    }
  }

  lemma WriteWhole(item: Item, bytes: Bytes)
    requires (item.Video? ==> ValidFrame(item.frame)) && bytes == Encode(item)
    ensures Residue(bytes) == [] && Intact(bytes) && Waiting(bytes) == FrameOf(item)
  {
    var fs := FrameOf(item);
    assert if fs == [] then ParseOne(bytes) == Alive([]) else |fs| == 1 && ParseOne(bytes) == Got(fs[0], []) by {
      ParseEncoded(item, []);
      assert bytes == Encode(item) + [];
    }
    OneItem(bytes, fs);
  }

  lemma NothingYet(bytes: Bytes)
    requires ParseOne(bytes) == NeedMore
    ensures Intact(bytes) && Waiting(bytes) == []
  {
  }

  lemma OneItem(bytes: Bytes, fs: seq<Frame>)
    requires if fs == [] then ParseOne(bytes) == Alive([]) else |fs| == 1 && ParseOne(bytes) == Got(fs[0], [])
    ensures Residue(bytes) == [] && Intact(bytes) && Waiting(bytes) == fs
  {
    WaitingFirst(bytes);
  }

  /** All the whole frames on the connections of a hop, oldest first. */
  function InFlight(conns: seq<Bytes>): seq<Frame> {
    if conns == [] then [] else Waiting(conns[0]) + InFlight(conns[1..])
  }

  lemma {:induction false} InFlightAppend(conns: seq<Bytes>, c: Bytes)
    ensures InFlight(conns + [c]) == InFlight(conns) + Waiting(c)
  {
    if conns == [] {
      assert [c][1..] == [];
    } else {
      assert (conns + [c])[1..] == conns[1..] + [c];
      InFlightAppend(conns[1..], c);
    }
  }

  // What every station and every hop keeps.

  ghost predicate ConnsOk(s: Station) {
    && (forall k :: 0 <= k < |s.conns| ==> Intact(s.conns[k]))
    && (s.client == Attached ==> s.conns != [] && Residue(s.conns[|s.conns| - 1]) == [])
  }

  /** A hop: what was received and what still can be are among the frames sent whole, in order. */
  ghost predicate HopOk(s: Station, received: seq<Frame>) {
    ConnsOk(s) && Sub(received + InFlight(s.conns), s.log.sent)
  }

  function SourceOf(f: Frame): nat { f.origin }

  /** The frames of one origin, in order. */
  function FramesOf(s: seq<Frame>, j: nat): seq<Frame> { Of(s, SourceOf, j) }

  lemma FramesOfAppend(s: seq<Frame>, f: Frame, j: nat)
    ensures FramesOf(s + [f], j) == FramesOf(s, j) + if f.origin == j then [f] else []
  {
    OfAppend(s, f, SourceOf, j);
  }

  /** The frames of origin j that were ever offered to the queue of node i. */
  function Offered(i: nat, log: Log, j: nat): seq<Frame> {
    if j == i then log.produced else FramesOf(log.received, j)
  }

  ghost predicate OriginsOk(n: nat, i: nat, log: Log) {
    && (forall f :: f in log.produced ==> ValidFrame(f) && f.origin == i)
    && (forall f :: f in log.received ==> ValidFrame(f) && Upstream(n, i, f.origin))
    && (forall f :: f in log.entered ==> ValidFrame(f) && (f.origin == i || Upstream(n, i, f.origin)))
  }

  ghost predicate QueueOk(i: nat, s: Station) {
    && |s.queue| <= VIDEO_QUEUE_DEPTH
    && Sub(s.log.sent, s.log.pulled)
    && (if i == GATEWAY_NODE_ID then s.queue == [] && s.conns == [] && s.client == Offline
        else s.log.entered == s.log.pulled + s.queue)
  }

  /** Every frame that reaches a node is sunk, sent whole, in the queue, or counted as dropped, once. */
  predicate CountsOk(i: nat, s: Station) {
    |s.log.produced| + |s.log.received| + s.log.refused ==
    (if i == GATEWAY_NODE_ID then |s.log.entered| else |s.log.sent| + |s.queue|) + s.dropped
  }

  ghost predicate OrderOk(i: nat, log: Log) {
    forall j: nat :: Sub(FramesOf(log.entered, j), Offered(i, log, j))
  }

  ghost predicate StationOk(n: nat, i: nat, s: Station) {
    OriginsOk(n, i, s.log) && QueueOk(i, s) && CountsOk(i, s) && OrderOk(i, s.log)
  }

  // Entering the queue.

  lemma EnterKeepsOrder(entered: seq<Frame>, f: Frame, before: seq<Frame>, after: seq<Frame>, j: nat, enters: bool)
    requires Sub(FramesOf(entered, j), before)
    requires after == if f.origin == j then before + [f] else before
    ensures Sub(FramesOf(if enters then entered + [f] else entered, j), after)
  {
    FramesOfAppend(entered, f, j);
    if f.origin == j {
      if enters {
        SubAppend(FramesOf(entered, j), before, [f]);
      } else {
        SubExtend(FramesOf(entered, j), before, [f]);
      }
    } else {
      assert FramesOf(entered, j) + [] == FramesOf(entered, j);
    }
  }

  lemma OfferKeepsOrder(i: nat, log: Log, log': Log, f: Frame)
    requires OrderOk(i, log)
    requires if f.origin == i then log'.produced == log.produced + [f] && log'.received == log.received
             else log'.received == log.received + [f] && log'.produced == log.produced
    requires log'.entered == log.entered || log'.entered == log.entered + [f]
    ensures OrderOk(i, log')
  {
    forall j: nat ensures Sub(FramesOf(log'.entered, j), Offered(i, log', j)) {
      FramesOfAppend(log.received, f, j);
      assert Offered(i, log', j) == if f.origin == j then Offered(i, log, j) + [f] else Offered(i, log, j) by {
        assert FramesOf(log.received, j) + [] == FramesOf(log.received, j);
      }
      EnterKeepsOrder(log.entered, f, Offered(i, log, j), Offered(i, log', j), j, log'.entered == log.entered + [f]);
    }
  }

  lemma EnqueueKeepsQueue(i: nat, s: Station, f: Frame)
    requires QueueOk(i, s)
    ensures QueueOk(i, EnqueueOrDrop(s, f, i == GATEWAY_NODE_ID))
  {
    assert (s.log.pulled + s.queue) + [f] == s.log.pulled + (s.queue + [f]);
  }

  lemma ProduceKeeps(n: nat, i: nat, s: Station, f: Frame)
    requires StationOk(n, i, s) && ValidFrame(f) && f.origin == i
    ensures StationOk(n, i, AfterProduce(s, f, i == GATEWAY_NODE_ID))
  {
    var s' := AfterProduce(s, f, i == GATEWAY_NODE_ID);
    EnqueueKeepsQueue(i, s.(log := s.log.(produced := s.log.produced + [f])), f);
    OfferKeepsOrder(i, s.log, s'.log, f);
  }

  lemma ReceiveKeeps(n: nat, i: nat, s: Station, f: Frame, hasBuffer: bool)
    requires StationOk(n, i, s) && ValidFrame(f) && f.origin != i && Upstream(n, i, f.origin)
    ensures StationOk(n, i, AfterReceive(s, f, i == GATEWAY_NODE_ID, hasBuffer))
  {
    var s' := AfterReceive(s, f, i == GATEWAY_NODE_ID, hasBuffer);
    if hasBuffer {
      EnqueueKeepsQueue(i, s.(log := s.log.(received := s.log.received + [f])), f);
      OfferKeepsOrder(i, s.log, s'.log, f);
    } else {
      assert OrderOk(i, s'.log) by { SameOrder(i, s.log, s'.log); }
    }
  }

  lemma SameOrder(i: nat, log: Log, log': Log)
    requires OrderOk(i, log)
    requires log'.produced == log.produced && log'.received == log.received && log'.entered == log.entered
    ensures OrderOk(i, log')
  {
    forall j: nat ensures Sub(FramesOf(log'.entered, j), Offered(i, log', j)) {
      assert Offered(i, log', j) == Offered(i, log, j);
    }
  }

  // Leaving it.

  lemma PullKeeps(n: nat, i: nat, s: Station, whole: bool)
    requires StationOk(n, i, s) && s.queue != []
    ensures StationOk(n, i, AfterPull(s, whole))
  {
    var s', f := AfterPull(s, whole), s.queue[0];
    assert s.log.pulled + s.queue == s'.log.pulled + s'.queue;
    if whole {
      SubAppend(s.log.sent, s.log.pulled, [f]);
    } else {
      SubExtend(s.log.sent, s.log.pulled, [f]);
    }
    SameOrder(i, s.log, s'.log);
  }

  /** The connections of a relay may be anything to its queue. */
  lemma LinkKeeps(n: nat, i: nat, s: Station, client: Client, conns: seq<Bytes>)
    requires StationOk(n, i, s) && i != GATEWAY_NODE_ID
    ensures StationOk(n, i, s.(client := client, conns := conns))
  {
  }

  // The two ends of a hop.

  /** Bytes of a frame in a log of frames sent: only those of a whole frame count. */
  function Sent(item: Item, part: nat): seq<Frame>
    requires item.Video? ==> ValidFrame(item.frame)
  {
    if part == |Encode(item)| then FrameOf(item) else []
  }

  lemma WriteKeepsHop(s: Station, before: seq<Frame>, item: Item, part: nat, received: seq<Frame>)
    requires (item.Video? ==> ValidFrame(item.frame)) && part <= |Encode(item)|
    requires ConnsOk(s) && Sub(received + InFlight(s.conns), before) && s.log.sent == before + Sent(item, part)
    ensures HopOk(Write(s, Encode(item), part), received)
  {
    WriteKeepsConns(s, item, part);
    if s.client == Attached {
      SubAppend(received + InFlight(s.conns), before, Sent(item, part));
      Assoc(received, InFlight(s.conns), Sent(item, part));
    } else {
      SubExtend(received + InFlight(s.conns), before, Sent(item, part));
    }
  }

  lemma WriteKeepsConns(s: Station, item: Item, part: nat)
    requires (item.Video? ==> ValidFrame(item.frame)) && part <= |Encode(item)|
    requires ConnsOk(s)
    ensures var s' := Write(s, Encode(item), part);
      && ConnsOk(s')
      && (s.client == Attached ==> InFlight(s'.conns) == InFlight(s.conns) + Sent(item, part))
  {
    if s.client == Attached {
      var last := s.conns[|s.conns| - 1];
      var c := last + Encode(item)[..part];
      LastWritten(last, item, part, c);
      InFlightLast(s.conns, c, Sent(item, part));
      LastConn(s, Write(s, Encode(item), part), c);
    }
  }

  lemma LastWritten(last: Bytes, item: Item, part: nat, c: Bytes)
    requires (item.Video? ==> ValidFrame(item.frame)) && part <= |Encode(item)|
    requires Residue(last) == [] && c == last + Encode(item)[..part]
    ensures Intact(c) && Waiting(c) == Waiting(last) + Sent(item, part) && (part == |Encode(item)| ==> Residue(c) == [])
  {
    WriteBehind(last, item, part);
    assert Waiting(last) + [] == Waiting(last);
  }

  lemma LastConn(s: Station, s': Station, c: Bytes)
    requires ConnsOk(s) && s.conns != [] && s'.conns == s.conns[..|s.conns| - 1] + [c]
    requires Intact(c) && (s'.client == Attached ==> Residue(c) == [])
    ensures ConnsOk(s')
  {
    forall k | 0 <= k < |s'.conns| ensures Intact(s'.conns[k]) {
      assert k < |s.conns| - 1 ==> s'.conns[k] == s.conns[k];
    }
  }

  lemma InFlightLast(conns: seq<Bytes>, c: Bytes, more: seq<Frame>)
    requires conns != [] && Waiting(c) == Waiting(conns[|conns| - 1]) + more
    ensures InFlight(conns[..|conns| - 1] + [c]) == InFlight(conns) + more
  {
    var front, last := conns[..|conns| - 1], conns[|conns| - 1];
    assert conns == front + [last];
    InFlightAppend(front, last);
    InFlightAppend(front, c);
    Assoc(InFlight(front), Waiting(last), more);
  }

  lemma ConsumeFrames(s: Station)
    requires s.conns != [] && (ParseOne(s.conns[0]).Alive? || ParseOne(s.conns[0]).Got?)
    ensures var p := ParseOne(s.conns[0]);
      InFlight(s.conns) == (if p.Got? then [p.frame] else []) + InFlight(Consume(s, p.rest).conns)
  {
    var p := ParseOne(s.conns[0]);
    WaitingFirst(s.conns[0]);
    assert Consume(s, p.rest).conns[1..] == s.conns[1..];
    Assoc(if p.Got? then [p.frame] else [], Waiting(p.rest), InFlight(s.conns[1..]));
  }

  lemma ConsumeKeepsHop(s: Station, received: seq<Frame>, keep: bool)
    requires HopOk(s, received) && s.conns != [] && (ParseOne(s.conns[0]).Alive? || ParseOne(s.conns[0]).Got?)
    ensures var p := ParseOne(s.conns[0]);
      HopOk(Consume(s, p.rest), if keep && p.Got? then received + [p.frame] else received)
  {
    var p := ParseOne(s.conns[0]);
    var rest := InFlight(Consume(s, p.rest).conns);
    assert ConnsOk(Consume(s, p.rest));
    ConsumeFrames(s);
    if p.Got? {
      if keep {
        Assoc(received, [p.frame], rest);
      } else {
        SubDrop(received, [p.frame], rest, s.log.sent);
      }
    } else {
      assert [] + rest == rest;
    }
  }

  lemma CloseKeepsHop(s: Station, received: seq<Frame>)
    requires HopOk(s, received) && s.conns != []
    ensures HopOk(Close(s), received)
  {
    SubDrop(received, Waiting(s.conns[0]), InFlight(s.conns[1..]), s.log.sent);
  }

  /** A frame about to be received was sent whole by the node before. */
  lemma WaitingWasSent(s: Station, received: seq<Frame>)
    requires HopOk(s, received) && s.conns != [] && ParseOne(s.conns[0]).Got?
    ensures ParseOne(s.conns[0]).frame in s.log.sent
  {
    WaitingFirst(s.conns[0]);
    assert (received + InFlight(s.conns))[|received|] == ParseOne(s.conns[0]).frame;
    SubMember(received + InFlight(s.conns), s.log.sent, |received|);
  }

  // The whole chain.

  ghost predicate Inv(net: seq<Station>) {
    && (forall i {:trigger StationOk(|net|, i, net[i])} :: 0 <= i < |net| ==> StationOk(|net|, i, net[i]))
    && (forall i {:trigger HopOk(net[i], net[NextOf(i, |net|)].log.received)} ::
          0 <= i < |net| ==> HopOk(net[i], net[NextOf(i, |net|)].log.received))
  }

  lemma BootInv(n: nat)
    ensures Inv(Boot(n))
  {
    assert FramesOf([], 0) == [];
  }

  lemma OneChanged(net: seq<Station>, at: nat, s: Station)
    requires Inv(net) && at < |net|
    requires StationOk(|net|, at, s) && HopOk(s, net[NextOf(at, |net|)].log.received)
    requires s.log.received == net[at].log.received
    ensures Inv(net[at := s])
  {
  }

  lemma BothChanged(net: seq<Station>, hop: nat, s: Station, t: Station)
    requires Inv(net) && hop < |net| && NextOf(hop, |net|) != hop
    requires StationOk(|net|, hop, s) && s.log.received == net[hop].log.received
    requires StationOk(|net|, NextOf(hop, |net|), t) && HopOk(s, t.log.received)
    requires var was := net[NextOf(hop, |net|)];
      t.client == was.client && t.conns == was.conns && t.log.sent == was.log.sent
    ensures Inv(net[hop := s][NextOf(hop, |net|) := t])
  {
    var n, next := |net|, NextOf(hop, |net|);
    var net' := net[hop := s][next := t];
    forall i | 0 <= i < n
      ensures StationOk(n, i, net'[i]) && HopOk(net'[i], net'[NextOf(i, n)].log.received)
    {
      assert StationOk(n, i, net[i]) && HopOk(net[i], net[NextOf(i, n)].log.received);
      if i == next {
        SameHop(net[i], t, net'[NextOf(i, n)].log.received);
      }
    }
  }

  lemma SameHop(s: Station, t: Station, received: seq<Frame>)
    requires HopOk(s, received) && t.client == s.client && t.conns == s.conns && t.log.sent == s.log.sent
    ensures HopOk(t, received)
  {
  }

  lemma StepKeepsInv(net: seq<Station>, step: Step)
    requires Inv(net) && Enabled(net, step) && !step.CutDrain?
    ensures Inv(Apply(net, step))
  {
    match step
    case Produce(at, f) => ProduceStep(net, at, f);
    case Connect(at) => ConnectStep(net, at);
    case SendFrame(at, part) => SendFrameStep(net, at, part);
    case SendHeartbeat(at, part) => SendHeartbeatStep(net, at, part);
    case ReadItem(hop, hasBuffer) => ReadStep(net, hop, hasBuffer);
    case CloseServer(hop) => CloseStep(net, hop);
  }

  lemma ProduceKeepsLink(s: Station, f: Frame, gateway: bool)
    ensures var s' := AfterProduce(s, f, gateway);
      s'.client == s.client && s'.conns == s.conns && s'.log.sent == s.log.sent && s'.log.received == s.log.received
  {
  }

  lemma ProduceStep(net: seq<Station>, at: nat, f: Frame)
    requires Inv(net) && Enabled(net, Produce(at, f))
    ensures Inv(Apply(net, Produce(at, f)))
  {
    assert StationOk(|net|, at, net[at]) && HopOk(net[at], net[NextOf(at, |net|)].log.received);
    var s' := AfterProduce(net[at], f, at == GATEWAY_NODE_ID);
    ProduceKeeps(|net|, at, net[at], f);
    ProduceKeepsLink(net[at], f, at == GATEWAY_NODE_ID);
    SameHop(net[at], s', net[NextOf(at, |net|)].log.received);
    OneChanged(net, at, s');
  }

  lemma ConnectStep(net: seq<Station>, at: nat)
    requires Inv(net) && Enabled(net, Connect(at))
    ensures Inv(Apply(net, Connect(at)))
  {
    assert StationOk(|net|, at, net[at]) && HopOk(net[at], net[NextOf(at, |net|)].log.received);
    var s := net[at];
    var s' := s.(client := Attached, conns := s.conns + [[]]);
    InFlightAppend(s.conns, []);
    assert InFlight(s'.conns) == InFlight(s.conns);
    LinkKeeps(|net|, at, s, s'.client, s'.conns);
    OneChanged(net, at, s');
  }

  /** The client has taken a frame off its queue and written `part` bytes of it. */
  function AfterSend(s: Station, part: nat): Station
    requires s.queue != [] && ValidFrame(s.queue[0]) && part <= |Encode(Video(s.queue[0]))|
    requires s.client == Attached ==> s.conns != []
  {
    var bytes := Encode(Video(s.queue[0]));
    Write(AfterPull(s, part == |bytes|), bytes, part)
  }

  lemma SendKeepsHop(s: Station, part: nat, received: seq<Frame>)
    requires HopOk(s, received) && s.queue != [] && ValidFrame(s.queue[0]) && part <= |Encode(Video(s.queue[0]))|
    ensures HopOk(AfterSend(s, part), received)
  {
    var f := s.queue[0];
    assert s.log.sent + [] == s.log.sent;
    WriteKeepsHop(AfterPull(s, part == |Encode(Video(f))|), s.log.sent, Video(f), part, received);
  }

  lemma SendFrameStep(net: seq<Station>, at: nat, part: nat)
    requires Inv(net) && Enabled(net, SendFrame(at, part))
    ensures Inv(Apply(net, SendFrame(at, part)))
  {
    assert StationOk(|net|, at, net[at]) && HopOk(net[at], net[NextOf(at, |net|)].log.received);
    var bytes := Encode(Video(net[at].queue[0]));
    var s := AfterPull(net[at], part == |bytes|);
    var s' := AfterSend(net[at], part);
    PullKeeps(|net|, at, net[at], part == |bytes|);
    LinkKeeps(|net|, at, s, s'.client, s'.conns);
    SendKeepsHop(net[at], part, net[NextOf(at, |net|)].log.received);
    OneChanged(net, at, s');
  }

  lemma SendHeartbeatStep(net: seq<Station>, at: nat, part: nat)
    requires Inv(net) && Enabled(net, SendHeartbeat(at, part))
    ensures Inv(Apply(net, SendHeartbeat(at, part)))
  {
    assert StationOk(|net|, at, net[at]) && HopOk(net[at], net[NextOf(at, |net|)].log.received);
    var s := net[at];
    var s' := Write(s, Encode(Heartbeat), part);
    assert s.log.sent + [] == s.log.sent;
    WriteKeepsHop(s, s.log.sent, Heartbeat, part, net[NextOf(at, |net|)].log.received);
    LinkKeeps(|net|, at, s, s'.client, s'.conns);
    OneChanged(net, at, s');
  }

  lemma CloseStep(net: seq<Station>, hop: nat)
    requires Inv(net) && hop < |net| && net[hop].conns != []
    ensures Inv(net[hop := Close(net[hop])])
  {
    assert StationOk(|net|, hop, net[hop]) && HopOk(net[hop], net[NextOf(hop, |net|)].log.received);
    var s' := Close(net[hop]);
    CloseKeepsHop(net[hop], net[NextOf(hop, |net|)].log.received);
    LinkKeeps(|net|, hop, net[hop], s'.client, s'.conns);
    OneChanged(net, hop, s');
  }

  lemma ReadStep(net: seq<Station>, hop: nat, hasBuffer: bool)
    requires Inv(net) && Enabled(net, ReadItem(hop, hasBuffer))
    ensures Inv(Apply(net, ReadItem(hop, hasBuffer)))
  {
    assert StationOk(|net|, hop, net[hop]) && HopOk(net[hop], net[NextOf(hop, |net|)].log.received);
    var s, next := net[hop], NextOf(hop, |net|);
    var p := ParseOne(s.conns[0]);
    NoBadHeader(s, net[next].log.received);
    var s' := Consume(s, p.rest);
    LinkKeeps(|net|, hop, s, s'.client, s'.conns);
    ConsumeKeepsHop(s, net[next].log.received, hasBuffer);
    if p.Got? {
      var t := AfterReceive(net[next], p.frame, next == GATEWAY_NODE_ID, hasBuffer);
      FrameArrives(net, hop, hasBuffer);
      BothChanged(net, hop, s', t);
      assert Apply(net, ReadItem(hop, hasBuffer)) == net[hop := s'][next := t];
    } else {
      OneChanged(net, hop, s');
    }
  }

  lemma FrameArrives(net: seq<Station>, hop: nat, hasBuffer: bool)
    requires Inv(net) && hop < |net| && net[hop].conns != [] && ParseOne(net[hop].conns[0]).Got?
    ensures var next, f := NextOf(hop, |net|), ParseOne(net[hop].conns[0]).frame;
      StationOk(|net|, next, AfterReceive(net[next], f, next == GATEWAY_NODE_ID, hasBuffer))
  {
    var s, next := net[hop], NextOf(hop, |net|);
    var f := ParseOne(s.conns[0]).frame;
    WaitingWasSent(s, net[next].log.received);
    assert StationOk(|net|, hop, s);
    SentEntered(hop, s, f);
    ReceiveKeeps(|net|, next, net[next], f, hasBuffer);
  }

  lemma SentEntered(i: nat, s: Station, f: Frame)
    requires QueueOk(i, s) && i != GATEWAY_NODE_ID && f in s.log.sent
    ensures f in s.log.entered
  {
    var k :| 0 <= k < |s.log.sent| && s.log.sent[k] == f;
    SubMember(s.log.sent, s.log.pulled, k);
  }

  /** No payload is ever read as a header: the server never meets a bad one. */
  lemma NoBadHeader(s: Station, received: seq<Frame>)
    requires HopOk(s, received)
    ensures forall k :: 0 <= k < |s.conns| ==> !ParseOne(s.conns[k]).Bad?
  {
    forall k | 0 <= k < |s.conns| ensures !ParseOne(s.conns[k]).Bad? {
      assert Intact(s.conns[k]);
    }
  }

  // End to end.

  /** One hop and the queue behind it. */
  lemma HopIsSub(net: seq<Station>, i: nat, j: nat)
    requires Inv(net) && 0 < i < |net| && NextOf(i, |net|) != j
    ensures Sub(FramesOf(net[NextOf(i, |net|)].log.entered, j), FramesOf(net[i].log.entered, j))
  {
    var a, b := net[i].log, net[NextOf(i, |net|)].log;
    assert StationOk(|net|, i, net[i]) && StationOk(|net|, NextOf(i, |net|), net[NextOf(i, |net|)]);
    ReceivedIsSub(net[i], b.received);
    SubRefl(a.pulled);
    SubExtend(a.pulled, a.pulled, net[i].queue);
    SubTrans(b.received, a.sent, a.pulled);
    SubTrans(b.received, a.pulled, a.entered);
    SubOf(b.received, a.entered, SourceOf, j);
    SubTrans(FramesOf(b.entered, j), FramesOf(b.received, j), FramesOf(a.entered, j));
  }

  /** Only frames that `sendAll` accepted whole are ever received, in order and at most once. */
  lemma ReceivedIsSub(s: Station, received: seq<Frame>)
    requires HopOk(s, received)
    ensures Sub(received, s.log.sent)
  {
    SubRefl(received);
    SubExtend(received, received, InFlight(s.conns));
    SubTrans(received, received + InFlight(s.conns), s.log.sent);
  }

  lemma OwnFrames(n: nat, j: nat, s: Station)
    requires StationOk(n, j, s)
    ensures Sub(FramesOf(s.log.entered, j), s.log.produced)
  {
    assert Offered(j, s.log, j) == s.log.produced;
  }

  /** The frames of origin j that entered the queue of node i. */
  function Entered(net: seq<Station>, i: nat, j: nat): seq<Frame>
    requires i < |net|
  {
    FramesOf(net[i].log.entered, j)
  }

  lemma {:induction false} UpTo(net: seq<Station>, j: nat, i: nat)
    requires 0 < j <= i < |net|
    requires forall k :: j <= k < i ==> Sub(Entered(net, k + 1, j), Entered(net, k, j))
    ensures Sub(Entered(net, i, j), Entered(net, j, j))
    decreases i
  {
    if i == j {
      SubRefl(Entered(net, i, j));
    } else {
      UpTo(net, j, i - 1);
      SubTrans(Entered(net, i - 1 + 1, j), Entered(net, i - 1, j), Entered(net, j, j));
    }
  }

  lemma ToTheGateway(net: seq<Station>, j: nat)
    requires Inv(net) && 0 < j < |net|
    ensures Sub(Entered(net, GATEWAY_NODE_ID, j), Entered(net, j, j))
  {
    var n := |net|;
    forall k | j <= k < n - 1 ensures Sub(Entered(net, k + 1, j), Entered(net, k, j)) {
      HopIsSub(net, k, j);
    }
    UpTo(net, j, n - 1);
    HopIsSub(net, n - 1, j);
    SubTrans(Entered(net, GATEWAY_NODE_ID, j), Entered(net, n - 1, j), Entered(net, j, j));
  }
}
