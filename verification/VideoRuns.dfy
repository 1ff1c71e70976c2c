/**
 Whole runs of the video chain. Of every origin the Gateway hands to the uplink
 frames byte-identical to those produced, in the order produced, none twice,
 whatever connections are cut, queues overflow or buffers run out, as long as no
 server hands on a frame that it reads after a receive failed inside a drain. Without
 that condition every frame is still accounted for, but not every one delivered was
 produced.
 */
module VideoRuns {
  import opened Config
  import opened ChainSpec
  import opened Subsequence
  import opened Framing
  import opened VideoNet
  import opened VideoDelivery

  // A connection that has lost its framing counts as closed.

  /** A station as if the connection being read were closed already. */
  function Viewed(s: Station, torn: bool): Station { if torn && s.conns != [] then Close(s) else s }

  function View(net: seq<Station>, torn: set<nat>): (v: seq<Station>)
    ensures |v| == |net|
  {
    seq(|net|, i requires 0 <= i < |net| => Viewed(net[i], i in torn))
  }

  ghost predicate OrderlyInv(net: seq<Station>, torn: set<nat>) {
    && Inv(View(net, torn))
    && forall i :: 0 <= i < |net| && i in torn ==> i != GATEWAY_NODE_ID && net[i].conns != []
  }

  lemma WriteViewed(s: Station, torn: bool, bytes: Bytes, part: nat)
    requires part <= |bytes| && (s.client == Attached ==> s.conns != []) && (torn ==> s.conns != [])
    ensures Viewed(s, torn).client == Attached ==> Viewed(s, torn).conns != []
    ensures Viewed(Write(s, bytes, part), torn) == Write(Viewed(s, torn), bytes, part)
  {
    if torn && s.client == Attached && |s.conns| > 1 {
      var last := |s.conns| - 1;
      var written := [s.conns[last] + bytes[..part]];
      assert (s.conns[..last] + written)[1..] == s.conns[1..][..last - 1] + written;
    }
  }

  lemma ConnectViewed(s: Station, torn: bool)
    requires torn ==> s.conns != []
    ensures Viewed(s.(client := Attached, conns := s.conns + [[]]), torn)
         == var v := Viewed(s, torn); v.(client := Attached, conns := v.conns + [[]])
  {
  }

  lemma ViewUpdated(net: seq<Station>, torn: set<nat>, at: nat, s: Station)
    requires at < |net|
    ensures View(net[at := s], torn) == View(net, torn)[at := Viewed(s, at in torn)]
  {
  }

  lemma ProduceViewed(net: seq<Station>, torn: set<nat>, at: nat, f: Frame)
    requires OrderlyInv(net, torn) && Enabled(net, Produce(at, f))
    ensures OrderlyInv(Apply(net, Produce(at, f)), torn)
  {
    StepKeepsInv(View(net, torn), Produce(at, f));
    Rewritten(net, torn, at, AfterProduce(net[at], f, at == GATEWAY_NODE_ID));
  }

  lemma ConnectedViewed(net: seq<Station>, torn: set<nat>, at: nat)
    requires OrderlyInv(net, torn) && Enabled(net, Connect(at))
    ensures OrderlyInv(Apply(net, Connect(at)), torn)
  {
    ConnectViewed(net[at], at in torn);
    StepKeepsInv(View(net, torn), Connect(at));
    Rewritten(net, torn, at, net[at].(client := Attached, conns := net[at].conns + [[]]));
  }

  lemma SendFrameViewed(net: seq<Station>, torn: set<nat>, at: nat, part: nat)
    requires OrderlyInv(net, torn) && Enabled(net, SendFrame(at, part))
    ensures OrderlyInv(Apply(net, SendFrame(at, part)), torn)
  {
    SendViewed(net[at], at in torn, part);
    StepKeepsInv(View(net, torn), SendFrame(at, part));
    Rewritten(net, torn, at, AfterSend(net[at], part));
  }

  lemma SendViewed(s: Station, torn: bool, part: nat)
    requires s.queue != [] && ValidFrame(s.queue[0]) && part <= |Encode(Video(s.queue[0]))|
    requires (s.client == Attached ==> s.conns != []) && (torn ==> s.conns != [])
    ensures Viewed(s, torn).client == Attached ==> Viewed(s, torn).conns != []
    ensures Viewed(AfterSend(s, part), torn) == AfterSend(Viewed(s, torn), part)
  {
    var bytes := Encode(Video(s.queue[0]));
    WriteViewed(AfterPull(s, part == |bytes|), torn, bytes, part);
  }

  lemma Rewritten(net: seq<Station>, torn: set<nat>, at: nat, s: Station)
    requires OrderlyInv(net, torn) && at < |net| && Inv(View(net, torn)[at := Viewed(s, at in torn)])
    requires net[at].conns != [] ==> s.conns != []
    ensures OrderlyInv(net[at := s], torn)
  {
    ViewUpdated(net, torn, at, s);
  }

  lemma SendHeartbeatViewed(net: seq<Station>, torn: set<nat>, at: nat, part: nat)
    requires OrderlyInv(net, torn) && Enabled(net, SendHeartbeat(at, part))
    ensures OrderlyInv(Apply(net, SendHeartbeat(at, part)), torn)
  {
    WriteViewed(net[at], at in torn, Encode(Heartbeat), part);
    StepKeepsInv(View(net, torn), SendHeartbeat(at, part));
    Rewritten(net, torn, at, Write(net[at], Encode(Heartbeat), part));
  }

  lemma HeadIsGood(net: seq<Station>, torn: set<nat>, hop: nat)
    requires OrderlyInv(net, torn) && hop < |net| && hop !in torn && net[hop].conns != []
    ensures !ParseOne(net[hop].conns[0]).Bad? && NextOf(hop, |net|) != hop
  {
    var v := View(net, torn);
    assert HopOk(v[hop], v[NextOf(hop, |v|)].log.received) && StationOk(|v|, hop, v[hop]);
    NoBadHeader(v[hop], v[NextOf(hop, |v|)].log.received);
  }

  /** What is read is the same in the view. */
  lemma ReadSame(net: seq<Station>, torn: set<nat>, hop: nat, hasBuffer: bool)
    requires Enabled(net, ReadItem(hop, hasBuffer)) && hop !in torn
    requires !ParseOne(net[hop].conns[0]).Bad? && NextOf(hop, |net|) != hop
    ensures Enabled(View(net, torn), ReadItem(hop, hasBuffer))
    ensures View(Apply(net, ReadItem(hop, hasBuffer)), torn) == Apply(View(net, torn), ReadItem(hop, hasBuffer))
  {
    var s, next := net[hop], NextOf(hop, |net|);
    match ParseOne(s.conns[0])
    case Got(f, rest) => GotSame(net, torn, hop, Consume(s, rest), next, f, hasBuffer);
    case Alive(rest) => ViewUpdated(net, torn, hop, Consume(s, rest));
    case NeedMore =>
  }

  lemma GotSame(net: seq<Station>, torn: set<nat>, hop: nat, s: Station, next: nat, f: Frame, hasBuffer: bool)
    requires hop < |net| && hop !in torn && next < |net| && next != hop
    ensures var t, v := View(net, torn)[next], View(net, torn);
      View(net[hop := s][next := AfterReceive(net[next], f, next == GATEWAY_NODE_ID, hasBuffer)], torn)
      == v[hop := s][next := AfterReceive(t, f, next == GATEWAY_NODE_ID, hasBuffer)]
  {
    ViewUpdated(net, torn, hop, s);
    ViewUpdated(net[hop := s], torn, next, AfterReceive(net[next], f, next == GATEWAY_NODE_ID, hasBuffer));
  }

  lemma ReadKeepsConns(net: seq<Station>, hop: nat, hasBuffer: bool, i: nat)
    requires Enabled(net, ReadItem(hop, hasBuffer)) && i < |net| && i != hop
    ensures Apply(net, ReadItem(hop, hasBuffer))[i].conns == net[i].conns
  {
  }

  lemma ReadViewed(net: seq<Station>, torn: set<nat>, hop: nat, hasBuffer: bool)
    requires OrderlyInv(net, torn) && Enabled(net, ReadItem(hop, hasBuffer)) && hop !in torn
    ensures OrderlyInv(Apply(net, ReadItem(hop, hasBuffer)), torn)
  {
    HeadIsGood(net, torn, hop);
    ReadSame(net, torn, hop, hasBuffer);
    StepKeepsInv(View(net, torn), ReadItem(hop, hasBuffer));
    forall i | 0 <= i < |net| && i in torn
      ensures Apply(net, ReadItem(hop, hasBuffer))[i].conns != []
    {
      ReadKeepsConns(net, hop, hasBuffer, i);
    }
  }

  lemma CloseViewed(net: seq<Station>, torn: set<nat>, hop: nat)
    requires OrderlyInv(net, torn) && Enabled(net, CloseServer(hop))
    ensures OrderlyInv(Apply(net, CloseServer(hop)), torn - {hop})
  {
    var v, net' := View(net, torn), Apply(net, CloseServer(hop));
    if hop in torn {
      assert View(net', torn - {hop}) == v;
    } else {
      StepKeepsInv(v, CloseServer(hop));
      assert View(net', torn - {hop}) == Apply(v, CloseServer(hop));
    }
  }

  /** A drain cut short loses the frame and, for the view, the connection. */
  lemma CutViewed(net: seq<Station>, torn: set<nat>, hop: nat, part: nat)
    requires OrderlyInv(net, torn) && Enabled(net, CutDrain(hop, part)) && hop !in torn
    ensures OrderlyInv(Apply(net, CutDrain(hop, part)), torn + {hop})
  {
    var v, next := View(net, torn), NextOf(hop, |net|);
    assert StationOk(|v|, hop, v[hop]);
    var v1 := v[hop := Close(v[hop])];
    CloseStep(v, hop);
    RefuseStep(v1, next);
    CutView(net, torn, hop, part);
    CutKeepsConns(net, torn, hop, part);
  }

  lemma CutKeepsConns(net: seq<Station>, torn: set<nat>, hop: nat, part: nat)
    requires OrderlyInv(net, torn) && Enabled(net, CutDrain(hop, part)) && hop != GATEWAY_NODE_ID
    ensures var net' := Apply(net, CutDrain(hop, part));
      forall i :: 0 <= i < |net| && i in torn + {hop} ==> i != GATEWAY_NODE_ID && net'[i].conns != []
  {
  }

  lemma CutView(net: seq<Station>, torn: set<nat>, hop: nat, part: nat)
    requires Enabled(net, CutDrain(hop, part)) && hop !in torn && NextOf(hop, |net|) != hop
    requires forall i :: 0 <= i < |net| && i in torn ==> net[i].conns != []
    ensures var v, next := View(net, torn), NextOf(hop, |net|);
      var v1 := v[hop := Close(v[hop])];
      View(Apply(net, CutDrain(hop, part)), torn + {hop}) == v1[next := AfterRefuse(v1[next])]
  {
  }

  lemma RefuseStep(net: seq<Station>, at: nat)
    requires Inv(net) && at < |net|
    ensures Inv(net[at := AfterRefuse(net[at])])
  {
    var s, received := net[at], net[NextOf(at, |net|)].log.received;
    var s' := AfterRefuse(s);
    assert StationOk(|net|, at, s) && HopOk(s, received);
    SameOrder(at, s.log, s'.log);
    SameHop(s, s', received);
    OneChanged(net, at, s');
  }

  // Reading on from a connection that has lost its framing.

  /** What is left of such a connection does not matter to the view. */
  lemma TornConsumed(net: seq<Station>, torn: set<nat>, hop: nat, rest: Bytes)
    requires OrderlyInv(net, torn) && hop < |net| && hop in torn
    ensures var net' := net[hop := Consume(net[hop], rest)];
      OrderlyInv(net', torn) && View(net', torn) == View(net, torn)
  {
    var s := net[hop];
    CloseConsumed(s, rest);
    ViewUpdated(net, torn, hop, Consume(s, rest));
    assert View(net, torn)[hop := Viewed(s, true)] == View(net, torn);
  }

  lemma CloseConsumed(s: Station, rest: Bytes)
    requires s.conns != []
    ensures Close(Consume(s, rest)) == Close(s)
  {
    assert ([rest] + s.conns[1..])[1..] == s.conns[1..];
  }

  lemma Refused(net: seq<Station>, torn: set<nat>, at: nat)
    requires OrderlyInv(net, torn) && at < |net|
    ensures OrderlyInv(net[at := AfterRefuse(net[at])], torn)
  {
    RefuseStep(View(net, torn), at);
    ViewUpdated(net, torn, at, AfterRefuse(net[at]));
  }

  lemma TornRead(net: seq<Station>, torn: set<nat>, hop: nat, hasBuffer: bool)
    requires OrderlyInv(net, torn) && Enabled(net, ReadItem(hop, hasBuffer)) && hop in torn
    requires !Misleads(net, torn, ReadItem(hop, hasBuffer))
    ensures OrderlyInv(Apply(net, ReadItem(hop, hasBuffer)), TornBy(net, torn, ReadItem(hop, hasBuffer)))
  {
    match ParseOne(net[hop].conns[0])
    case Alive(rest) => TornConsumed(net, torn, hop, rest);
    case Got(_, rest) => TornDropped(net, torn, hop, rest);
    case Bad => CloseViewed(net, torn, hop);
  }

  lemma TornDropped(net: seq<Station>, torn: set<nat>, hop: nat, rest: Bytes)
    requires OrderlyInv(net, torn) && hop < |net| && hop in torn
    ensures var next := NextOf(hop, |net|);
      OrderlyInv(net[hop := Consume(net[hop], rest)][next := AfterRefuse(net[next])], torn)
  {
    TornConsumed(net, torn, hop, rest);
    Refused(net[hop := Consume(net[hop], rest)], torn, NextOf(hop, |net|));
  }

  lemma TornCut(net: seq<Station>, torn: set<nat>, hop: nat, part: nat)
    requires OrderlyInv(net, torn) && Enabled(net, CutDrain(hop, part)) && hop in torn
    ensures OrderlyInv(Apply(net, CutDrain(hop, part)), torn + {hop})
  {
    assert torn + {hop} == torn;
    TornDropped(net, torn, hop, net[hop].conns[0][HEADER_BYTES + part..]);
  }

  lemma OrderlyStep(net: seq<Station>, torn: set<nat>, step: Step)
    requires OrderlyInv(net, torn) && Enabled(net, step) && !Misleads(net, torn, step)
    ensures OrderlyInv(Apply(net, step), TornBy(net, torn, step))
  {
    match step
    case Produce(at, f) => ProduceViewed(net, torn, at, f);
    case Connect(at) => ConnectedViewed(net, torn, at);
    case SendFrame(at, part) => SendFrameViewed(net, torn, at, part);
    case SendHeartbeat(at, part) => SendHeartbeatViewed(net, torn, at, part);
    case ReadItem(hop, hasBuffer) =>
      if hop in torn {
        TornRead(net, torn, hop, hasBuffer);
      } else {
        HeadIsGood(net, torn, hop);
        ReadViewed(net, torn, hop, hasBuffer);
      }
    case CutDrain(hop, part) =>
      if hop in torn {
        TornCut(net, torn, hop, part);
      } else {
        CutViewed(net, torn, hop, part);
      }
    case CloseServer(hop) => CloseViewed(net, torn, hop);
  }

  lemma {:induction false} OrderlyRun(net: seq<Station>, torn: set<nat>, steps: seq<Step>)
    requires OrderlyInv(net, torn) && IsRun(net, steps) && IsOrderly(net, torn, steps)
    ensures OrderlyInv(Exec(net, steps), Torn(net, torn, steps))
    decreases |steps|
  {
    if steps != [] {
      OrderlyStep(net, torn, steps[0]);
      OrderlyRun(Apply(net, steps[0]), TornBy(net, torn, steps[0]), steps[1..]);
    }
  }

  lemma OrderlyFromBoot(n: nat, steps: seq<Step>)
    requires IsRun(Boot(n), steps) && IsOrderly(Boot(n), {}, steps)
    ensures OrderlyInv(Exec(Boot(n), steps), Torn(Boot(n), {}, steps))
  {
    BootInv(n);
    assert View(Boot(n), {}) == Boot(n);
    OrderlyRun(Boot(n), {}, steps);
  }

  /** As long as there is a buffer for every frame, no drain starts, and every run is orderly. */
  lemma {:induction false} NoDrainsAreOrderly(net: seq<Station>, steps: seq<Step>)
    requires IsRun(net, steps) && forall k :: 0 <= k < |steps| ==> !steps[k].CutDrain?
    ensures IsOrderly(net, {}, steps)
    decreases |steps|
  {
    if steps != [] {
      assert TornBy(net, {}, steps[0]) == {};
      NoDrainsAreOrderly(Apply(net, steps[0]), steps[1..]);
    }
  }

  /** From produced to handed to the uplink, across every hop and any number of reconnects. */
  lemma VideoDelivered(n: nat, steps: seq<Step>, j: nat)
    requires j < n && IsRun(Boot(n), steps) && IsOrderly(Boot(n), {}, steps)
    ensures var net := Exec(Boot(n), steps);
      Sub(FramesOf(net[GATEWAY_NODE_ID].log.entered, j), net[j].log.produced)
  {
    OrderlyFromBoot(n, steps);
    var v := View(Exec(Boot(n), steps), Torn(Boot(n), {}, steps));
    OwnFrames(n, j, v[j]);
    if j != GATEWAY_NODE_ID {
      ToTheGateway(v, j);
      SubTrans(Entered(v, GATEWAY_NODE_ID, j), Entered(v, j, j), v[j].log.produced);
    }
  }

  /**
   On every hop of such a run: what the server received is among what the client
   sent whole, in order, and no bad header is ever read, on any connection that
   has not lost its framing.
   */
  lemma HopsAreSound(n: nat, steps: seq<Step>, i: nat)
    requires i < n && IsRun(Boot(n), steps) && IsOrderly(Boot(n), {}, steps)
    ensures var net, torn := Exec(Boot(n), steps), Torn(Boot(n), {}, steps);
      && Sub(net[NextOf(i, n)].log.received, net[i].log.sent)
      && (forall k :: (if i in torn then 1 else 0) <= k < |net[i].conns| ==> !ParseOne(net[i].conns[k]).Bad?)
      && (forall f :: f in net[i].log.entered ==> ValidFrame(f) && f.origin < n)
  {
    OrderlyFromBoot(n, steps);
    var net, torn := Exec(Boot(n), steps), Torn(Boot(n), {}, steps);
    var v := View(net, torn);
    ReceivedIsSub(v[i], v[NextOf(i, n)].log.received);
    NoBadHeader(v[i], v[NextOf(i, n)].log.received);
    GoodUnlessTorn(net[i], i in torn);
    assert StationOk(n, i, v[i]);
  }

  lemma GoodUnlessTorn(s: Station, torn: bool)
    requires forall k :: 0 <= k < |Viewed(s, torn).conns| ==> !ParseOne(Viewed(s, torn).conns[k]).Bad?
    ensures forall k :: (if torn then 1 else 0) <= k < |s.conns| ==> !ParseOne(s.conns[k]).Bad?
  {
    forall k | (if torn then 1 else 0) <= k < |s.conns|
      ensures !ParseOne(s.conns[k]).Bad?
    {
      assert s.conns[k] == Viewed(s, torn).conns[if torn then k - 1 else k];
    }
  }

  // What holds of every run, orderly or not.

  ghost predicate Sound(i: nat, s: Station) {
    && QueueOk(i, s) && CountsOk(i, s)
    && (forall f :: f in s.queue ==> ValidFrame(f))
    && (s.client == Attached ==> s.conns != [])
  }

  ghost predicate AllSound(net: seq<Station>) {
    forall i {:trigger Sound(i, net[i])} :: 0 <= i < |net| ==> Sound(i, net[i])
  }

  lemma ProduceSound(i: nat, s: Station, f: Frame)
    requires Sound(i, s) && ValidFrame(f)
    ensures Sound(i, AfterProduce(s, f, i == GATEWAY_NODE_ID))
  {
    EnqueueKeepsQueue(i, s.(log := s.log.(produced := s.log.produced + [f])), f);
  }

  lemma ReceiveSound(i: nat, s: Station, f: Frame, hasBuffer: bool)
    requires Sound(i, s) && ValidFrame(f)
    ensures Sound(i, AfterReceive(s, f, i == GATEWAY_NODE_ID, hasBuffer))
  {
    if hasBuffer {
      EnqueueKeepsQueue(i, s.(log := s.log.(received := s.log.received + [f])), f);
    }
  }

  lemma PullSound(i: nat, s: Station, whole: bool)
    requires Sound(i, s) && s.queue != []
    ensures Sound(i, AfterPull(s, whole))
  {
    var f := s.queue[0];
    assert s.log.pulled + s.queue == (s.log.pulled + [f]) + s.queue[1..];
    if whole {
      SubAppend(s.log.sent, s.log.pulled, [f]);
    } else {
      SubExtend(s.log.sent, s.log.pulled, [f]);
    }
  }

  lemma LinkSound(i: nat, s: Station, client: Client, conns: seq<Bytes>)
    requires Sound(i, s) && i != GATEWAY_NODE_ID && (client == Attached ==> conns != [])
    ensures Sound(i, s.(client := client, conns := conns))
  {
  }

  lemma SendSound(i: nat, s: Station, part: nat)
    requires Sound(i, s) && i != GATEWAY_NODE_ID && s.queue != []
    requires ValidFrame(s.queue[0]) && part <= |Encode(Video(s.queue[0]))|
    ensures Sound(i, AfterSend(s, part))
  {
    var s' := AfterSend(s, part);
    PullSound(i, s, part == |Encode(Video(s.queue[0]))|);
    LinkSound(i, AfterPull(s, part == |Encode(Video(s.queue[0]))|), s'.client, s'.conns);
  }

  lemma ReadSound(net: seq<Station>, hop: nat, hasBuffer: bool)
    requires AllSound(net) && Enabled(net, ReadItem(hop, hasBuffer))
    ensures AllSound(Apply(net, ReadItem(hop, hasBuffer)))
  {
    var s, next := net[hop], NextOf(hop, |net|);
    assert Sound(hop, s) && Sound(next, net[next]);
    match ParseOne(s.conns[0])
    case Got(f, rest) =>
      LinkSound(hop, s, s.client, [rest] + s.conns[1..]);
      var net1 := net[hop := Consume(s, rest)];
      assert Sound(next, net1[next]);
      ReceiveSound(next, net1[next], f, hasBuffer);
    case Alive(rest) => LinkSound(hop, s, s.client, [rest] + s.conns[1..]);
    case Bad => LinkSound(hop, s, Close(s).client, Close(s).conns);
  }

  lemma StepKeepsSound(net: seq<Station>, step: Step)
    requires AllSound(net) && Enabled(net, step)
    ensures AllSound(Apply(net, step))
  {
    match step
    case Produce(at, f) =>
      assert Sound(at, net[at]);
      ProduceSound(at, net[at], f);
    case Connect(at) =>
      assert Sound(at, net[at]);
      LinkSound(at, net[at], Attached, net[at].conns + [[]]);
    case SendFrame(at, part) =>
      assert Sound(at, net[at]);
      SendSound(at, net[at], part);
    case SendHeartbeat(at, part) =>
      assert Sound(at, net[at]);
      var s' := Write(net[at], Encode(Heartbeat), part);
      LinkSound(at, net[at], s'.client, s'.conns);
    case ReadItem(hop, hasBuffer) => ReadSound(net, hop, hasBuffer);
    case CutDrain(hop, part) =>
      assert Sound(hop, net[hop]) && Sound(NextOf(hop, |net|), net[NextOf(hop, |net|)]);
      LinkSound(hop, net[hop], net[hop].client, Consume(net[hop], net[hop].conns[0][HEADER_BYTES + part..]).conns);
    case CloseServer(hop) =>
      assert Sound(hop, net[hop]);
      LinkSound(hop, net[hop], Close(net[hop]).client, Close(net[hop]).conns);
  }

  lemma {:induction false} RunKeepsSound(net: seq<Station>, steps: seq<Step>)
    requires AllSound(net) && IsRun(net, steps)
    ensures AllSound(Exec(net, steps))
    decreases |steps|
  {
    if steps != [] {
      StepKeepsSound(net, steps[0]);
      RunKeepsSound(Apply(net, steps[0]), steps[1..]);
    }
  }

  lemma BootSound(n: nat)
    ensures AllSound(Boot(n))
  {
  }

  /**
   Every frame that ever reaches a node is sunk, sent whole, in the queue, or
   counted as dropped, and counted once. The queue is what entered it and was
   not pulled, and what was sent whole is among what was pulled, in order.
   */
  lemma EveryFrameIsAccounted(n: nat, steps: seq<Step>, i: nat)
    requires i < n && IsRun(Boot(n), steps)
    ensures var s := Exec(Boot(n), steps)[i];
      && CountsOk(i, s) && |s.queue| <= VIDEO_QUEUE_DEPTH && Sub(s.log.sent, s.log.pulled)
      && (i != GATEWAY_NODE_ID ==> s.log.entered == s.log.pulled + s.queue)
  {
    BootSound(n);
    RunKeepsSound(Boot(n), steps);
    assert Sound(i, Exec(Boot(n), steps)[i]);
  }

  /** A connected client with a frame in its queue can always send it: the model blocks nothing the code does. */
  lemma ClientIsNeverStuck(n: nat, steps: seq<Step>, i: nat, part: nat)
    requires IsRun(Boot(n), steps) && i < n
    requires var s := Exec(Boot(n), steps)[i]; s.client != Offline && s.queue != []
    requires var f := Exec(Boot(n), steps)[i].queue[0]; part <= HEADER_BYTES + |f.data|
    ensures Enabled(Exec(Boot(n), steps), SendFrame(i, part))
  {
    BootSound(n);
    RunKeepsSound(Boot(n), steps);
    assert Sound(i, Exec(Boot(n), steps)[i]);
  }

  // Reading on.

  /** Node 1 has written the one frame it produced, and the Gateway has read nothing. */
  ghost predicate Written(net: seq<Station>, f: Frame)
    requires ValidFrame(f)
  {
    && |net| == 2 && net[1].client == Attached && net[1].conns == [Encode(Video(f))] && net[1].log.produced == [f]
    && net[0].log.received == [] && net[0].log.entered == []
  }

  /** Frame f is produced, the client connects, and all of f is written. */
  function Writing(f: Frame): seq<Step>
    requires ValidFrame(f)
  {
    [Produce(1, f)] + ([Connect(1)] + [SendFrame(1, |Encode(Video(f))|)])
  }

  lemma WritingWrites(f: Frame) returns (net: seq<Station>)
    requires ValidFrame(f) && f.origin == 1
    ensures IsRun(Boot(2), Writing(f)) && net == Exec(Boot(2), Writing(f)) && Written(net, f)
  {
    var boot := Boot(2);
    var net1 := Apply(boot, Produce(1, f));
    var net2 := Apply(net1, Connect(1));
    var send := SendFrame(1, |Encode(Video(f))|);
    net := Apply(net2, send);
    assert [send][1..] == [];
    StepThen(net1, Connect(1), [send]);
    StepThen(boot, Produce(1, f), [Connect(1)] + [send]);
    var bytes := Encode(Video(f));
    assert net2[1].conns == [[]] && net2[1].conns[..0] == [];
    assert [] + bytes[..|bytes|] == bytes;
  }

  lemma CutShort(net: seq<Station>, f: Frame, junk: Bytes, rest: Bytes)
    requires ValidFrame(f) && Written(net, f) && f.data == junk + rest && rest != []
    ensures Enabled(net, CutDrain(1, |junk|))
    ensures var net' := Apply(net, CutDrain(1, |junk|));
      && |net'| == 2 && net'[1].conns == [rest] && net'[1].log == net[1].log
      && net'[0].log.received == [] && net'[0].log.entered == []
  {
    HeaderAndRest(f, junk, rest);
  }

  lemma StrayRead(net: seq<Station>, stray: Frame, more: Bytes)
    requires ValidFrame(stray) && |net| == 2 && net[1].conns == [Encode(Video(stray)) + more]
    requires net[0].log.entered == []
    ensures Enabled(net, ReadItem(1, true))
    ensures var net' := Apply(net, ReadItem(1, true));
      net'[0].log.entered == [stray] && net'[1].log == net[1].log
  {
    ParseVideo(stray, more);
  }

  /** The Gateway reads on after the first bytes of the payload: it takes the rest for a frame. */
  lemma MisreadTurns(net: seq<Station>, f: Frame, stray: Frame, junk: Bytes, more: Bytes)
    requires ValidFrame(f) && ValidFrame(stray) && Written(net, f)
    requires f.data == junk + (Encode(Video(stray)) + more)
    ensures var steps := [CutDrain(1, |junk|)] + [ReadItem(1, true)];
      && IsRun(net, steps)
      && Exec(net, steps)[0].log.entered == [stray] && Exec(net, steps)[1].log.produced == [f]
  {
    var cut, read := CutDrain(1, |junk|), ReadItem(1, true);
    HeaderRoundTrip(HeaderOf(stray));
    CutShort(net, f, junk, Encode(Video(stray)) + more);
    StrayRead(Apply(net, cut), stray, more);
    assert [read][1..] == [];
    StepThen(net, cut, [read]);
  }

  lemma HeaderAndRest(f: Frame, junk: Bytes, rest: Bytes)
    requires ValidFrame(f) && f.data == junk + rest && rest != []
    ensures var bytes := Encode(Video(f)); CanCut(bytes, |junk|) && bytes[HEADER_BYTES + |junk|..] == rest
  {
    HeaderRoundTrip(HeaderOf(f));
    var bytes := Encode(Video(f));
    assert bytes[..HEADER_BYTES] == EncodeHeader(HeaderOf(f));
    assert bytes[HEADER_BYTES..] == f.data;
    assert bytes[HEADER_BYTES..][|junk|..] == bytes[HEADER_BYTES + |junk|..];
  }

  lemma {:induction false} RunAppend(net: seq<Station>, a: seq<Step>, b: seq<Step>)
    requires IsRun(net, a) && IsRun(Exec(net, a), b)
    ensures IsRun(net, a + b) && Exec(net, a + b) == Exec(Exec(net, a), b)
    decreases |a|
  {
    if a == [] {
      assert a + b == b;
    } else {
      assert (a + b)[1..] == a[1..] + b;
      RunAppend(Apply(net, a[0]), a[1..], b);
    }
  }

  /**
   Without the condition the chain may deliver what nobody produced. Node 1
   produces one frame, of which the payload holds an encoded frame at any
   position; the Gateway has no buffer, fails to drain it beyond that position,
   and reads on: it hands the inner frame to the uplink.
   */
  lemma ReadingOnMisdelivers(f: Frame, stray: Frame, junk: Bytes, more: Bytes) returns (steps: seq<Step>)
    requires ValidFrame(f) && ValidFrame(stray) && f.origin == stray.origin == 1
    requires f.data == junk + (Encode(Video(stray)) + more)
    ensures IsRun(Boot(2), steps)
    ensures var net := Exec(Boot(2), steps);
      && net[GATEWAY_NODE_ID].log.entered == [stray] && net[1].log.produced == [f]
      && !Sub(FramesOf(net[GATEWAY_NODE_ID].log.entered, 1), net[1].log.produced)
  {
    var net := WritingWrites(f);
    var last := [CutDrain(1, |junk|)] + [ReadItem(1, true)];
    MisreadTurns(net, f, stray, junk, more);
    RunAppend(Boot(2), Writing(f), last);
    steps := Writing(f) + last;
    Shorter(f, stray, junk, more);
    FramesOfAppend([], stray, 1);
    assert [] + [stray] == [stray];
    NotSub(stray, f);
  }

  lemma Shorter(f: Frame, stray: Frame, junk: Bytes, more: Bytes)
    requires ValidFrame(stray) && f.data == junk + (Encode(Video(stray)) + more)
    ensures stray != f
  {
    HeaderRoundTrip(HeaderOf(stray));
  }

  lemma NotSub(a: Frame, b: Frame)
    requires a != b
    ensures !Sub([a], [b])
  {
    if Sub([a], [b]) {
      SubMember([a], [b], 0);
    }
  }
}
