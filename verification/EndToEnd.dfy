/**
 From a node to the backend: the chain up to `flush` and `flushVideo`, followed
 by the uplink behind them. A run of the Gateway's tasks with the chain is a run
 of each, in which the uplink is offered what the chain hands over, in order.
 */
module EndToEnd {
  import opened Words
  import opened Config
  import opened ChainSpec
  import opened NodeInvariant
  import opened Subsequence
  import opened Framing
  import C = ChainNet
  import opened ChainDelivery
  import ChainFacts
  import opened VideoDelivery
  import opened VideoRuns
  import opened VideoLosses
  import V = VideoNet
  import opened Uplinks

  /**
   Whatever is lost, refused or dropped on the way: of every relay the backend
   is sent readings in the order they were made, none twice.
   */
  lemma StatusReachesBackend(boot: C.Net, chain: seq<C.Step>,
                             uplink: seq<(Step<Packet>, bool)>, j: nat)
    requires C.JustBooted(boot) && C.IsRun(boot, chain) && 1 <= j < |boot.macs|
    requires Exec(STATUS, Fresh(), uplink).log.offered == C.Exec(boot, chain).flushed
    ensures var net, u := C.Exec(boot, chain), Exec(STATUS, Fresh(), uplink);
      Sub(FromOrigin(u.log.sent, j), net.hist[j].local)
  {
    var net, u := C.Exec(boot, chain), Exec(STATUS, Fresh(), uplink);
    ChainInvariant.BootInv(boot);
    NeverTwice(boot, chain, j);
    EveryCallIsCounted(STATUS, uplink);
    SubOf(u.log.sent, net.flushed, OriginOf, j);
    SubTrans(FromOrigin(u.log.sent, j), FromOrigin(net.flushed, j), net.hist[j].local);
  }

  /**
   The Gateway's counters across both modules, modulo 2^32: local + in = sunk, and
   each of these readings is sent, dropped, queued or in the uplink task's hand.
   */
  lemma StatusConservation(boot: C.Net, chain: seq<C.Step>, uplink: seq<(Step<Packet>, bool)>)
    requires C.JustBooted(boot) && C.IsRun(boot, chain)
    requires Exec(STATUS, Fresh(), uplink).log.offered == C.Exec(boot, chain).flushed
    ensures var stats := C.Exec(boot, chain).nodes[GATEWAY_NODE_ID].stats;
      stats.sunk == Wrap32(stats.local + stats.accepted) == Disposed(Exec(STATUS, Fresh<Packet>(), uplink))
  {
    GatewaySunk(boot, chain);
    UplinkDisposes(uplink);
  }

  lemma UplinkDisposes(uplink: seq<(Step<Packet>, bool)>)
    ensures var u := Exec(STATUS, Fresh<Packet>(), uplink); Disposed(u) == Wrap32(|u.log.offered|)
  {
    EveryCallIsCounted(STATUS, uplink);
  }

  lemma GatewaySunk(boot: C.Net, chain: seq<C.Step>)
    requires C.JustBooted(boot) && C.IsRun(boot, chain)
    ensures var net := C.Exec(boot, chain);
      var stats := net.nodes[GATEWAY_NODE_ID].stats;
      stats.sunk == Wrap32(stats.local + stats.accepted) == Wrap32(|net.flushed|)
  {
    ChainInvariant.Reachable(boot, chain);
    NetSunk(C.Exec(boot, chain));
  }

  lemma NetSunk(net: C.Net)
    requires ChainInvariant.Inv(net)
    ensures var stats := net.nodes[GATEWAY_NODE_ID].stats;
      stats.sunk == Wrap32(stats.local + stats.accepted) == Wrap32(|net.flushed|)
  {
    ChainFacts.GatewayAccounting(net);
  }

  /** The same for video: byte-identical frames of every node, in order, none twice. */
  lemma VideoReachesBackend(n: nat, chain: seq<V.Step>, uplink: seq<(Step<Frame>, bool)>, j: nat)
    requires j < n && V.IsRun(V.Boot(n), chain) && V.IsOrderly(V.Boot(n), {}, chain)
    requires Exec(VIDEO, Fresh(), uplink).log.offered == V.Exec(V.Boot(n), chain)[GATEWAY_NODE_ID].log.entered
    ensures var net, u := V.Exec(V.Boot(n), chain), Exec(VIDEO, Fresh(), uplink);
      Sub(FramesOf(u.log.sent, j), net[j].log.produced)
  {
    var net, u := V.Exec(V.Boot(n), chain), Exec(VIDEO, Fresh(), uplink);
    VideoDelivered(n, chain, j);
    EveryCallIsCounted(VIDEO, uplink);
    SubOf(u.log.sent, net[GATEWAY_NODE_ID].log.entered, SourceOf, j);
    SubTrans(FramesOf(u.log.sent, j), FramesOf(net[GATEWAY_NODE_ID].log.entered, j), net[j].log.produced);
  }

  /**
   And all of them, if no step of the chain loses one, the uplink always has room, a
   link and success, and nothing is left on the way.
   */
  lemma VideoReachesBackendInFull(n: nat, chain: seq<V.Step>, uplink: seq<(Step<Frame>, bool)>, j: nat)
    requires j < n && V.IsRun(V.Boot(n), chain) && V.IsOrderly(V.Boot(n), {}, chain)
    requires Exec(VIDEO, Fresh(), uplink).log.offered == V.Exec(V.Boot(n), chain)[GATEWAY_NODE_ID].log.entered
    ensures var net, u := V.Exec(V.Boot(n), chain), Exec(VIDEO, Fresh(), uplink);
      && UnderWay(View(net, V.Torn(V.Boot(n), {}, chain)), j, n) == 0
      && FramesOf(Lost(V.Boot(n), {}, chain), j) == []
      && Smooth(VIDEO, Fresh(), uplink) && u.hand.Empty? && u.queue == []
      ==> FramesOf(u.log.sent, j) == net[j].log.produced
  {
    var net, u := V.Exec(V.Boot(n), chain), Exec(VIDEO, Fresh<Frame>(), uplink);
    if UnderWay(View(net, V.Torn(V.Boot(n), {}, chain)), j, n) == 0
       && Smooth(VIDEO, Fresh(), uplink) && u.hand.Empty? && u.queue == [] {
      DeliveredInFull(n, chain, j);
      AllSent(uplink);
    }
  }

  lemma AllSent(uplink: seq<(Step<Frame>, bool)>)
    requires Smooth(VIDEO, Fresh(), uplink)
    requires var u := Exec(VIDEO, Fresh<Frame>(), uplink); u.hand.Empty? && u.queue == []
    ensures var u := Exec(VIDEO, Fresh<Frame>(), uplink); u.log.sent == u.log.offered
  {
    SmoothSends(VIDEO, uplink);
    var u := Exec(VIDEO, Fresh<Frame>(), uplink);
    assert u.log.sent + ([] + []) == u.log.sent;
  }
}
