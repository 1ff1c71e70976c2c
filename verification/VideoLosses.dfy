/**
 What the video chain loses, to the frame: a frame that is produced reaches the
 uplink, is under way, or was lost by a step that is named here; and what the drop
 counters count. So without such a step everything produced is delivered.
 */
module VideoLosses {
  import opened Config
  import opened ChainSpec
  import opened Subsequence
  import opened Framing
  import opened VideoNet
  import opened VideoDelivery
  import opened VideoRuns

  function Num(s: seq<Frame>, j: nat): nat { |FramesOf(s, j)| }

  lemma NumConcat(a: seq<Frame>, b: seq<Frame>, j: nat)
    ensures Num(a + b, j) == Num(a, j) + Num(b, j)
  {
    OfConcat(a, b, SourceOf, j);
  }

  lemma NumHead(s: seq<Frame>, j: nat)
    requires s != []
    ensures Num(s, j) == Num([s[0]], j) + Num(s[1..], j)
  {
    assert s == [s[0]] + s[1..];
    NumConcat([s[0]], s[1..], j);
  }

  // Losses.

  /** A relay has twelve frames in its queue. */
  predicate IsFull(s: Station, i: nat) { i != GATEWAY_NODE_ID && |s.queue| == VIDEO_QUEUE_DEPTH }

  /**
   The frames that a step loses: one that finds the queue of a relay full, or no
   buffer; one that is not written whole, or to a connection that is closed or has
   lost its framing; and all that wait on a connection when it is closed or loses
   its framing.
   */
  ghost function LostBy(net: seq<Station>, torn: set<nat>, step: Step): seq<Frame>
    requires Enabled(net, step)
  {
    match step
    case Produce(at, f) => if IsFull(net[at], at) then [f] else []
    case SendFrame(at, part) =>
      var f := net[at].queue[0];
      if part < |Encode(Video(f))| || Viewed(net[at], at in torn).client != Attached then [f] else []
    case ReadItem(hop, hasBuffer) =>
      var p, next := ParseOne(net[hop].conns[0]), NextOf(hop, |net|);
      if hop !in torn && p.Got? && (!hasBuffer || IsFull(net[next], next)) then [p.frame] else []
    case CutDrain(hop, _) => if hop in torn then [] else Waiting(net[hop].conns[0])
    case CloseServer(hop) => if hop in torn then [] else Waiting(net[hop].conns[0])
    case _ => []
  }

  /** All the frames that a run loses. */
  ghost function Lost(net: seq<Station>, torn: set<nat>, steps: seq<Step>): seq<Frame>
    requires IsRun(net, steps)
    decreases |steps|
  {
    if steps == [] then []
    else LostBy(net, torn, steps[0]) + Lost(Apply(net, steps[0]), TornBy(net, torn, steps[0]), steps[1..])
  }

  /** How many frames of origin j the first m nodes have in their queues and on the connections they write to. */
  function UnderWay(net: seq<Station>, j: nat, m: nat): nat
    requires m <= |net|
  {
    if m == 0 then 0 else UnderWay(net, j, m - 1) + Here(net[m - 1], j)
  }

  function Here(s: Station, j: nat): nat { Num(s.queue, j) + Num(InFlight(s.conns), j) }

  // Each step loses what it says.

  /** What node `at` adds to the frames of origin j that are missing. */
  function Share(s: Station, at: nat, j: nat): int {
    (if at == j then |s.log.produced| else 0)
    - (if at == GATEWAY_NODE_ID then Num(s.log.entered, j) else 0) - Here(s, j)
  }

  function Missing(net: seq<Station>, j: nat, m: nat): int
    requires m <= |net|
  {
    if m == 0 then 0 else Missing(net, j, m - 1) + Share(net[m - 1], m - 1, j)
  }

  lemma {:induction false} MissingUpdated(net: seq<Station>, j: nat, m: nat, at: nat, s: Station)
    requires m <= |net| && at < |net|
    ensures Missing(net[at := s], j, m)
         == Missing(net, j, m) + if at < m then Share(s, at, j) - Share(net[at], at, j) else 0
  {
    if m > 0 {
      MissingUpdated(net, j, m - 1, at, s);
      assert net[at := s][m - 1] == if at == m - 1 then s else net[m - 1];
    }
  }

  lemma {:induction false} MissingIs(net: seq<Station>, j: nat, m: nat)
    requires m <= |net|
    ensures Missing(net, j, m) == (if j < m then |net[j].log.produced| else 0)
      - (if 0 < m then Num(net[GATEWAY_NODE_ID].log.entered, j) else 0) - UnderWay(net, j, m)
  {
    if m > 0 {
      MissingIs(net, j, m - 1);
    }
  }

  /** One station of the view changes, and with it what is missing. */
  lemma OneLoses(net: seq<Station>, net': seq<Station>, at: nat, s: Station, j: nat, lost: seq<Frame>)
    requires at < |net| && net' == net[at := s] && Share(s, at, j) == Share(net[at], at, j) + Num(lost, j)
    ensures Missing(net', j, |net'|) == Missing(net, j, |net|) + Num(lost, j)
  {
    MissingUpdated(net, j, |net|, at, s);
  }

  lemma TwoLose(net: seq<Station>, net': seq<Station>, a: nat, s: Station, b: nat, t: Station,
                j: nat, lost: seq<Frame>)
    requires a < |net| && b < |net| && a != b && net' == net[a := s][b := t]
    requires Share(s, a, j) + Share(t, b, j) == Share(net[a], a, j) + Share(net[b], b, j) + Num(lost, j)
    ensures Missing(net', j, |net'|) == Missing(net, j, |net|) + Num(lost, j)
  {
    MissingUpdated(net, j, |net|, a, s);
    MissingUpdated(net[a := s], j, |net|, b, t);
  }

  lemma EnterShare(s: Station, at: nat, f: Frame, j: nat)
    requires |s.queue| <= VIDEO_QUEUE_DEPTH
    ensures Share(EnqueueOrDrop(s, f, at == GATEWAY_NODE_ID), at, j) ==
      Share(s, at, j) - if IsFull(s, at) then 0 else Num([f], j)
  {
    NumConcat(s.queue, [f], j);
    NumConcat(s.log.entered, [f], j);
  }

  lemma OwnFrame(f: Frame, j: nat)
    ensures Num([f], j) == if f.origin == j then 1 else 0
  {
    FramesOfAppend([], f, j);
    assert [] + [f] == [f];
  }

  lemma ProduceLoses(net: seq<Station>, torn: set<nat>, at: nat, f: Frame, j: nat)
    requires OrderlyInv(net, torn) && Enabled(net, Produce(at, f))
    ensures Lowers(net, torn, Produce(at, f), j)
  {
    var v, s := View(net, torn), net[at];
    var s1 := v[at].(log := v[at].log.(produced := v[at].log.produced + [f]));
    var s' := AfterProduce(s, f, at == GATEWAY_NODE_ID);
    ViewUpdated(net, torn, at, s');
    assert StationOk(|v|, at, v[at]);
    EnterShare(s1, at, f, j);
    OwnFrame(f, j);
    NoFrames(j);
    OneLoses(v, View(net[at := s'], torn), at, Viewed(s', at in torn), j, LostBy(net, torn, Produce(at, f)));
  }

  lemma NoFrames(j: nat)
    ensures Num([], j) == 0
  {
  }

  /** The step adds to what is missing what it loses. */
  ghost predicate Lowers(net: seq<Station>, torn: set<nat>, step: Step, j: nat)
    requires Enabled(net, step)
  {
    var v, v' := View(net, torn), View(Apply(net, step), TornBy(net, torn, step));
    Missing(v', j, |v'|) == Missing(v, j, |v|) + Num(LostBy(net, torn, step), j)
  }

  lemma ConnectLoses(net: seq<Station>, torn: set<nat>, at: nat, j: nat)
    requires OrderlyInv(net, torn) && Enabled(net, Connect(at))
    ensures Lowers(net, torn, Connect(at), j)
  {
    var v, s := View(net, torn), net[at];
    var s' := s.(client := Attached, conns := s.conns + [[]]);
    ViewUpdated(net, torn, at, s');
    ConnectViewed(s, at in torn);
    InFlightAppend(v[at].conns, []);
    NothingWaits(InFlight(v[at].conns));
    NoFrames(j);
    OneLoses(v, View(net[at := s'], torn), at, Viewed(s', at in torn), j, []);
  }

  lemma NothingWaits(s: seq<Frame>)
    ensures s + Waiting([]) == s
  {
  }

  lemma SendLoses(net: seq<Station>, torn: set<nat>, at: nat, part: nat, j: nat)
    requires OrderlyInv(net, torn) && Enabled(net, SendFrame(at, part))
    ensures Lowers(net, torn, SendFrame(at, part), j)
  {
    var v, s := View(net, torn), net[at];
    ViewUpdated(net, torn, at, AfterSend(s, part));
    SendViewed(s, at in torn, part);
    assert HopOk(v[at], v[NextOf(at, |v|)].log.received);
    SendShare(v[at], at, part, j);
    OneLoses(v, View(net[at := AfterSend(s, part)], torn), at, Viewed(AfterSend(s, part), at in torn), j,
             LostBy(net, torn, SendFrame(at, part)));
  }

  lemma SendShare(s: Station, at: nat, part: nat, j: nat)
    requires s.queue != [] && ValidFrame(s.queue[0]) && part <= |Encode(Video(s.queue[0]))| && ConnsOk(s)
    ensures Share(AfterSend(s, part), at, j) == Share(s, at, j) +
      Num(if part < |Encode(Video(s.queue[0]))| || s.client != Attached then [s.queue[0]] else [], j)
  {
    var f := s.queue[0];
    NumHead(s.queue, j);
    NoFrames(j);
    WriteShare(AfterPull(s, part == |Encode(Video(f))|), Video(f), part, j);
  }

  lemma WriteShare(s: Station, item: Item, part: nat, j: nat)
    requires (item.Video? ==> ValidFrame(item.frame)) && part <= |Encode(item)| && ConnsOk(s)
    ensures Num(InFlight(Write(s, Encode(item), part).conns), j) ==
      Num(InFlight(s.conns), j) + Num(if s.client == Attached then Sent(item, part) else [], j)
  {
    WriteKeepsConns(s, item, part);
    NumConcat(InFlight(s.conns), Sent(item, part), j);
    NoFrames(j);
  }

  lemma HeartbeatLoses(net: seq<Station>, torn: set<nat>, at: nat, part: nat, j: nat)
    requires OrderlyInv(net, torn) && Enabled(net, SendHeartbeat(at, part))
    ensures Lowers(net, torn, SendHeartbeat(at, part), j)
  {
    var v, s := View(net, torn), net[at];
    var s' := Write(s, Encode(Heartbeat), part);
    ViewUpdated(net, torn, at, s');
    WriteViewed(s, at in torn, Encode(Heartbeat), part);
    assert HopOk(v[at], v[NextOf(at, |v|)].log.received);
    HeartbeatShare(v[at], at, part, j);
    NoFrames(j);
    OneLoses(v, View(net[at := s'], torn), at, Viewed(s', at in torn), j, []);
  }

  lemma HeartbeatShare(s: Station, at: nat, part: nat, j: nat)
    requires part <= |Encode(Heartbeat)| && ConnsOk(s)
    ensures Share(Write(s, Encode(Heartbeat), part), at, j) == Share(s, at, j)
  {
    WriteShare(s, Heartbeat, part, j);
    NoFrames(j);
  }

  lemma ConsumeShare(s: Station, at: nat, j: nat)
    requires s.conns != [] && (ParseOne(s.conns[0]).Alive? || ParseOne(s.conns[0]).Got?)
    ensures var p := ParseOne(s.conns[0]);
      Share(Consume(s, p.rest), at, j) == Share(s, at, j) + Num(if p.Got? then [p.frame] else [], j)
  {
    var p := ParseOne(s.conns[0]);
    ConsumeFrames(s);
    NumConcat(if p.Got? then [p.frame] else [], InFlight(Consume(s, p.rest).conns), j);
  }

  /** The head of a sound connection is read. */
  lemma ReadLoses(net: seq<Station>, torn: set<nat>, hop: nat, hasBuffer: bool, j: nat)
    requires OrderlyInv(net, torn) && Enabled(net, ReadItem(hop, hasBuffer)) && hop !in torn
    ensures Lowers(net, torn, ReadItem(hop, hasBuffer), j)
  {
    var v, next := View(net, torn), NextOf(hop, |net|);
    HeadIsGood(net, torn, hop);
    ReadSame(net, torn, hop, hasBuffer);
    assert v[hop] == net[hop] && v[next].queue == net[next].queue;
    assert StationOk(|v|, next, v[next]);
    ConsumeShare(v[hop], hop, j);
    NoFrames(j);
    match ParseOne(net[hop].conns[0])
    case Alive(rest) => OneLoses(v, Apply(v, ReadItem(hop, hasBuffer)), hop, Consume(v[hop], rest), j, []);
    case Got(f, rest) =>
      ReceiveShare(v[next], next, f, hasBuffer, j);
      TwoLose(v, Apply(v, ReadItem(hop, hasBuffer)), hop, Consume(v[hop], rest),
              next, AfterReceive(v[next], f, next == GATEWAY_NODE_ID, hasBuffer), j,
              if !hasBuffer || IsFull(v[next], next) then [f] else []);
  }

  lemma ReceiveShare(s: Station, at: nat, f: Frame, hasBuffer: bool, j: nat)
    requires |s.queue| <= VIDEO_QUEUE_DEPTH
    ensures Share(AfterReceive(s, f, at == GATEWAY_NODE_ID, hasBuffer), at, j) ==
      Share(s, at, j) - if !hasBuffer || IsFull(s, at) then 0 else Num([f], j)
  {
    if hasBuffer {
      EnterShare(s.(log := s.log.(received := s.log.received + [f])), at, f, j);
    }
  }

  lemma CloseShare(s: Station, at: nat, j: nat)
    requires s.conns != []
    ensures Share(Close(s), at, j) == Share(s, at, j) + Num(Waiting(s.conns[0]), j)
  {
    NumConcat(Waiting(s.conns[0]), InFlight(s.conns[1..]), j);
  }

  lemma CloseLoses(net: seq<Station>, torn: set<nat>, hop: nat, j: nat)
    requires OrderlyInv(net, torn) && Enabled(net, CloseServer(hop))
    ensures Lowers(net, torn, CloseServer(hop), j)
  {
    var v, net' := View(net, torn), Apply(net, CloseServer(hop));
    NoFrames(j);
    if hop in torn {
      assert View(net', torn - {hop}) == v;
    } else {
      assert View(net', torn - {hop}) == v[hop := Close(v[hop])];
      CloseShare(v[hop], hop, j);
      OneLoses(v, View(net', torn - {hop}), hop, Close(v[hop]), j, Waiting(v[hop].conns[0]));
    }
  }

  lemma CutLoses(net: seq<Station>, torn: set<nat>, hop: nat, part: nat, j: nat)
    requires OrderlyInv(net, torn) && Enabled(net, CutDrain(hop, part)) && hop !in torn
    ensures Lowers(net, torn, CutDrain(hop, part), j)
  {
    var v, next := View(net, torn), NextOf(hop, |net|);
    assert StationOk(|v|, hop, v[hop]);
    var v1 := v[hop := Close(v[hop])];
    CutView(net, torn, hop, part);
    CloseShare(v[hop], hop, j);
    TwoLose(v, v1[next := AfterRefuse(v1[next])], hop, Close(v[hop]), next, AfterRefuse(v1[next]), j,
            Waiting(v[hop].conns[0]));
  }

  /** A server that drops what it misreads loses nothing: that connection is lost already. */
  lemma TornLosesNothing(net: seq<Station>, torn: set<nat>, hop: nat, rest: Bytes, j: nat)
    requires OrderlyInv(net, torn) && hop < |net| && hop in torn
    ensures var v, next := View(net, torn), NextOf(hop, |net|);
      var v' := View(net[hop := Consume(net[hop], rest)][next := AfterRefuse(net[next])], torn);
      Missing(v', j, |v'|) == Missing(v, j, |v|)
  {
    var v, next, net1 := View(net, torn), NextOf(hop, |net|), net[hop := Consume(net[hop], rest)];
    assert StationOk(|v|, hop, v[hop]);
    TornConsumed(net, torn, hop, rest);
    var t := AfterRefuse(net[next]);
    ViewUpdated(net1, torn, next, t);
    MissingUpdated(v, j, |v|, next, Viewed(t, next in torn));
  }

  lemma TornReadLoses(net: seq<Station>, torn: set<nat>, hop: nat, hasBuffer: bool, j: nat)
    requires OrderlyInv(net, torn) && Enabled(net, ReadItem(hop, hasBuffer)) && hop in torn
    requires !Misleads(net, torn, ReadItem(hop, hasBuffer))
    ensures Lowers(net, torn, ReadItem(hop, hasBuffer), j)
  {
    NoFrames(j);
    match ParseOne(net[hop].conns[0])
    case Alive(rest) => TornConsumed(net, torn, hop, rest);
    case Got(_, rest) => TornLosesNothing(net, torn, hop, rest, j);
    case Bad => CloseLoses(net, torn, hop, j);
  }

  lemma TornCutLoses(net: seq<Station>, torn: set<nat>, hop: nat, part: nat, j: nat)
    requires OrderlyInv(net, torn) && Enabled(net, CutDrain(hop, part)) && hop in torn
    ensures Lowers(net, torn, CutDrain(hop, part), j)
  {
    assert torn + {hop} == torn;
    NoFrames(j);
    TornLosesNothing(net, torn, hop, net[hop].conns[0][HEADER_BYTES + part..], j);
  }

  lemma StepLoses(net: seq<Station>, torn: set<nat>, step: Step, j: nat)
    requires OrderlyInv(net, torn) && Enabled(net, step) && !Misleads(net, torn, step)
    ensures Lowers(net, torn, step, j)
  {
    match step
    case Produce(at, f) => ProduceLoses(net, torn, at, f, j);
    case Connect(at) => ConnectLoses(net, torn, at, j);
    case SendFrame(at, part) => SendLoses(net, torn, at, part, j);
    case SendHeartbeat(at, part) => HeartbeatLoses(net, torn, at, part, j);
    case ReadItem(hop, hasBuffer) =>
      if hop in torn {
        TornReadLoses(net, torn, hop, hasBuffer, j);
      } else {
        ReadLoses(net, torn, hop, hasBuffer, j);
      }
    case CutDrain(hop, part) =>
      if hop in torn {
        TornCutLoses(net, torn, hop, part, j);
      } else {
        CutLoses(net, torn, hop, part, j);
      }
    case CloseServer(hop) => CloseLoses(net, torn, hop, j);
  }

  lemma {:induction false} RunLoses(net: seq<Station>, torn: set<nat>, steps: seq<Step>, j: nat)
    requires OrderlyInv(net, torn) && IsRun(net, steps) && IsOrderly(net, torn, steps)
    ensures var v' := View(Exec(net, steps), Torn(net, torn, steps));
      Missing(v', j, |v'|) == Missing(View(net, torn), j, |net|) + Num(Lost(net, torn, steps), j)
    decreases |steps|
  {
    if steps == [] {
      NoFrames(j);
    } else {
      var torn' := TornBy(net, torn, steps[0]);
      StepLoses(net, torn, steps[0], j);
      OrderlyStep(net, torn, steps[0]);
      RunLoses(Apply(net, steps[0]), torn', steps[1..], j);
      NumConcat(LostBy(net, torn, steps[0]), Lost(Apply(net, steps[0]), torn', steps[1..]), j);
    }
  }

  lemma {:induction false} BootMissing(n: nat, j: nat, m: nat)
    requires m <= n
    ensures Missing(Boot(n), j, m) == 0
  {
    if m > 0 {
      BootMissing(n, j, m - 1);
      NoFrames(j);
      assert InFlight(Boot(n)[m - 1].conns) == [];
    }
  }

  /**
   To the frame, on every orderly run: what node j produced has gone to the uplink,
   is in a queue or on a sound connection, or was lost by one of the named steps.
   */
  lemma LossesExactly(n: nat, steps: seq<Step>, j: nat)
    requires j < n && IsRun(Boot(n), steps) && IsOrderly(Boot(n), {}, steps)
    ensures var net := Exec(Boot(n), steps);
      |net[j].log.produced| == Num(net[GATEWAY_NODE_ID].log.entered, j)
        + UnderWay(View(net, Torn(Boot(n), {}, steps)), j, n) + Num(Lost(Boot(n), {}, steps), j)
  {
    BootInv(n);
    assert View(Boot(n), {}) == Boot(n);
    RunLoses(Boot(n), {}, steps, j);
    BootMissing(n, j, n);
    MissingIs(View(Exec(Boot(n), steps), Torn(Boot(n), {}, steps)), j, n);
  }

  /**
   Once nothing of node j is under way, the Gateway has handed over everything that
   j produced, in order, if and only if no step lost a frame of j.
   */
  lemma DeliveredInFull(n: nat, steps: seq<Step>, j: nat)
    requires j < n && IsRun(Boot(n), steps) && IsOrderly(Boot(n), {}, steps)
    requires UnderWay(View(Exec(Boot(n), steps), Torn(Boot(n), {}, steps)), j, n) == 0
    ensures var net := Exec(Boot(n), steps);
      FramesOf(net[GATEWAY_NODE_ID].log.entered, j) == net[j].log.produced
      <==> FramesOf(Lost(Boot(n), {}, steps), j) == []
  {
    LossesExactly(n, steps, j);
    VideoDelivered(n, steps, j);
    var net := Exec(Boot(n), steps);
    SubLength(FramesOf(net[GATEWAY_NODE_ID].log.entered, j), net[j].log.produced);
  }

  // What the drop counters count.

  /** A frame that node i counts as dropped: it finds the queue full, or no buffer, or is not written whole. */
  ghost predicate Drops(net: seq<Station>, step: Step, i: nat)
    requires Enabled(net, step)
  {
    match step
    case Produce(at, _) => at == i && IsFull(net[i], i)
    case SendFrame(at, part) => at == i && part < |Encode(Video(net[i].queue[0]))|
    case ReadItem(hop, hasBuffer) =>
      i == NextOf(hop, |net|) && ParseOne(net[hop].conns[0]).Got? && (!hasBuffer || IsFull(net[i], i))
    case CutDrain(hop, _) => i == NextOf(hop, |net|)
    case _ => false
  }

  ghost function DropCount(net: seq<Station>, steps: seq<Step>, i: nat): nat
    requires IsRun(net, steps)
    decreases |steps|
  {
    if steps == [] then 0
    else (if Drops(net, steps[0], i) then 1 else 0) + DropCount(Apply(net, steps[0]), steps[1..], i)
  }

  lemma StepDrops(net: seq<Station>, step: Step, i: nat)
    requires AllSound(net) && Enabled(net, step) && i < |net|
    ensures Apply(net, step)[i].dropped == net[i].dropped + if Drops(net, step, i) then 1 else 0
  {
    assert Sound(i, net[i]);
    match step
    case ReadItem(hop, _) => assert Sound(hop, net[hop]);
    case CutDrain(hop, _) => assert Sound(hop, net[hop]);
    case _ =>
  }

  lemma {:induction false} RunDrops(net: seq<Station>, steps: seq<Step>, i: nat)
    requires AllSound(net) && IsRun(net, steps) && i < |net|
    ensures Exec(net, steps)[i].dropped == net[i].dropped + DropCount(net, steps, i)
    decreases |steps|
  {
    if steps != [] {
      StepDrops(net, steps[0], i);
      StepKeepsSound(net, steps[0]);
      RunDrops(Apply(net, steps[0]), steps[1..], i);
    }
  }

  /** On every run: a frame that arrives at a relay is dropped if and only if twelve are queued there at that moment. */
  lemma DropsExactly(n: nat, steps: seq<Step>, i: nat)
    requires i < n && IsRun(Boot(n), steps)
    ensures Exec(Boot(n), steps)[i].dropped == DropCount(Boot(n), steps, i)
  {
    BootSound(n);
    RunDrops(Boot(n), steps, i);
  }
}
