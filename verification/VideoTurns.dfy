/**
 The server of VideoNet and the receive loop of VideoStream: every turn of the
 loop is a step of the chain, and a whole connection is a run of such steps.
 */
module VideoTurns {
  import opened Config
  import opened ChainSpec
  import opened Framing
  import opened Subsequence
  import S = VideoStream
  import opened VideoNet

  /** What a turn that does not end the loop finds at the head of the bytes. */
  predicate Finds(bytes: Bytes, hasBuffer: bool, t: S.Turn)
    requires t.read <= |bytes|
  {
    match t
    case Ended(_) => true
    case Beat(n, _) => ParseOne(bytes) == Alive(bytes[n..])
    case Whole(n, _, f) => hasBuffer && ParseOne(bytes) == Got(f, bytes[n..])
    case Dropped(n, _, drained) =>
      && !hasBuffer
      && if drained then ParseOne(bytes).Got? && ParseOne(bytes).rest == bytes[n..]
         else HEADER_BYTES <= n && CanCut(bytes, n - HEADER_BYTES)
  }

  lemma FindsByHeader(bytes: Bytes, hasBuffer: bool, h: FrameHeader, t: S.Turn)
    requires HEADER_BYTES <= |bytes| && h == DecodeHeader(bytes[..HEADER_BYTES])
    requires t.read <= |bytes| && S.Fits(bytes, hasBuffer, h, t)
    requires t.Dropped? ==> HEADER_BYTES <= t.read <= HEADER_BYTES + h.dataLen
    ensures Finds(bytes, hasBuffer, t)
  {
    var header, body := bytes[..HEADER_BYTES], bytes[HEADER_BYTES..];
    assert bytes == header + body;
    ParseAfterHeader(header, h, body);
    if HEADER_BYTES + h.dataLen <= |bytes| {
      assert body[h.dataLen..] == bytes[HEADER_BYTES + h.dataLen..];
    }
  }

  lemma TurnFinds(bytes: Bytes, results: seq<int>, hasBuffer: bool)
    ensures Finds(bytes, hasBuffer, S.ReadItem(bytes, results, hasBuffer))
  {
    if S.Take(|bytes|, results, HEADER_BYTES).ok {
      S.TurnFits(bytes, results, hasBuffer);
      FindsByHeader(bytes, hasBuffer, DecodeHeader(bytes[..HEADER_BYTES]), S.ReadItem(bytes, results, hasBuffer));
    }
  }

  /** The step of the chain that a turn is; after the last turn the connection is closed. */
  function StepOf(hop: nat, t: S.Turn): Step {
    match t
    case Ended(_) => CloseServer(hop)
    case Beat(_, _) => ReadItem(hop, true)
    case Whole(_, _, _) => ReadItem(hop, true)
    case Dropped(n, _, drained) =>
      if drained || n < HEADER_BYTES then ReadItem(hop, false) else CutDrain(hop, n - HEADER_BYTES)
  }

  /** What a turn does to the node that reads. */
  function AfterTurn(s: Station, t: S.Turn, gateway: bool): Station {
    match t
    case Whole(_, _, f) => AfterReceive(s, f, gateway, true)
    case Dropped(_, _, _) => AfterRefuse(s)
    case _ => s
  }

  lemma TurnIsStep(net: seq<Station>, hop: nat, results: seq<int>, hasBuffer: bool)
    requires hop < |net| && net[hop].conns != [] && NextOf(hop, |net|) != hop
    ensures var t, next := S.ReadItem(net[hop].conns[0], results, hasBuffer), NextOf(hop, |net|);
      && Enabled(net, StepOf(hop, t))
      && Apply(net, StepOf(hop, t)) ==
         if t.Ended? then net[hop := Close(net[hop])]
         else net[hop := Consume(net[hop], net[hop].conns[0][t.read..])]
                 [next := AfterTurn(net[next], t, next == GATEWAY_NODE_ID)]
  {
    TurnFinds(net[hop].conns[0], results, hasBuffer);
  }

  /** The steps of a whole connection. */
  function Steps(hop: nat, bytes: Bytes, results: seq<int>, alloc: nat -> bool, k: nat): seq<Step>
    decreases |results|
  {
    var t := S.ReadItem(bytes, results, alloc(k));
    [StepOf(hop, t)]
    + if t.Ended? then [] else Steps(hop, bytes[t.read..], t.results, alloc, if t.Beat? then k else k + 1)
  }

  /** A connection whose bytes have all arrived is read, turn by turn, and closed. */
  ghost predicate ReadsAll(net: seq<Station>, net': seq<Station>, hop: nat, s: S.Served)
    requires hop < |net| == |net'| && net[hop].conns != []
  {
    var next := NextOf(hop, |net|);
    && net'[hop].conns == net[hop].conns[1..]
    && net'[next].log.received == net[next].log.received + s.frames
    && net'[next].log.refused == net[next].log.refused + s.dropped
  }

  /** The receive loop over a connection is a run of the chain, with the same frames handed on and refused. */
  lemma {:induction false} ServeIsRun(net: seq<Station>, hop: nat, results: seq<int>, alloc: nat -> bool, k: nat)
    requires hop < |net| && net[hop].conns != [] && NextOf(hop, |net|) != hop
    ensures var bytes := net[hop].conns[0];
      && IsRun(net, Steps(hop, bytes, results, alloc, k))
      && ReadsAll(net, Exec(net, Steps(hop, bytes, results, alloc, k)), hop, S.Serve(bytes, results, alloc, k))
    decreases |results|
  {
    var bytes, next := net[hop].conns[0], NextOf(hop, |net|);
    var t := S.ReadItem(bytes, results, alloc(k));
    TurnIsStep(net, hop, results, alloc(k));
    var net1 := Apply(net, StepOf(hop, t));
    if t.Ended? {
      StepThen(net, StepOf(hop, t), []);
    } else {
      var k' := if t.Beat? then k else k + 1;
      ServeIsRun(net1, hop, t.results, alloc, k');
      StepThen(net, StepOf(hop, t), Steps(hop, bytes[t.read..], t.results, alloc, k'));
      TurnJoins(net, net1, Exec(net1, Steps(hop, bytes[t.read..], t.results, alloc, k')), hop, t,
                S.Serve(bytes[t.read..], t.results, alloc, k'));
    }
  }

  lemma TurnJoins(net: seq<Station>, net1: seq<Station>, net2: seq<Station>, hop: nat, t: S.Turn, rest: S.Served)
    requires hop < |net| && net[hop].conns != [] && NextOf(hop, |net|) != hop && t.read <= |net[hop].conns[0]|
    requires !t.Ended? && net1 == net[hop := Consume(net[hop], net[hop].conns[0][t.read..])]
      [NextOf(hop, |net|) := AfterTurn(net[NextOf(hop, |net|)], t, NextOf(hop, |net|) == GATEWAY_NODE_ID)]
    requires |net2| == |net| && ReadsAll(net1, net2, hop, rest)
    ensures ReadsAll(net, net2, hop, S.Join(t, rest))
  {
    Assoc(net[NextOf(hop, |net|)].log.received, if t.Whole? then [t.frame] else [], rest.frames);
    assert net1[hop].conns[1..] == net[hop].conns[1..];
  }
}
