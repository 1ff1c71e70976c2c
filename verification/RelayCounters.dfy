/**
 What the five counters of main/video_relay.cpp count, and which frames go out, in
 every interleaving of the tasks, told by the steps alone.
 */
module RelayCounters {
  import opened Words
  import opened Config
  import opened Uplinks
  import opened BufferOwnership

  /** The server has read a frame whole. */
  predicate Receives(s: Node, step: BufferOwnership.Step) {
    step == Wrap(Server) && s.hands.server.Raw?
  }

  /** The SPI receiver or the self-test has a frame of the node's own. */
  predicate MakesOwn(s: Node, step: BufferOwnership.Step) {
    step.Wrap? && step.task != Server && HandOf(s.hands, step.task).Raw?
  }

  /** A frame arrives at `enqueueOrDrop`. */
  predicate Arrives(s: Node, step: BufferOwnership.Step) {
    step.Enqueue? && HandOf(s.hands, step.task).Framed?
  }

  predicate SinksFrame(s: Node, step: BufferOwnership.Step) { Arrives(s, step) && s.gateway }

  /** It finds twelve others in the queue of a relay. */
  predicate FindsFull(s: Node, step: BufferOwnership.Step) {
    Arrives(s, step) && !s.gateway && |s.outQueue| == VIDEO_QUEUE_DEPTH
  }

  /** The client is done with a frame, which went out or did not. */
  predicate GoesOut(s: Node, step: BufferOwnership.Step) { step == ClientFinish(true) && s.hands.client.Some? }
  predicate FailsToGoOut(s: Node, step: BufferOwnership.Step) { step == ClientFinish(false) && s.hands.client.Some? }

  /** The server or the self-test gets no buffer. */
  predicate GetsNoBuffer(s: Node, step: BufferOwnership.Step) {
    step.Alloc? && !step.ok && step.task != Spi && HandOf(s.hands, step.task).Idle?
  }

  predicate DropsFrame(s: Node, step: BufferOwnership.Step) {
    GetsNoBuffer(s, step) || FindsFull(s, step) || FailsToGoOut(s, step)
  }

  /** How many steps of a run are of a kind. */
  function Count(kind: (Node, BufferOwnership.Step) -> bool, s: Node, steps: seq<BufferOwnership.Step>): nat
    decreases |steps|
  {
    if steps == [] then 0
    else (if kind(s, steps[0]) then 1 else 0) + Count(kind, BufferOwnership.Apply(s, steps[0]), steps[1..])
  }

  function IncIf(x: uint32, b: bool): uint32 { if b then Inc(x) else x }

  ghost predicate Roomy(s: Node) { |s.outQueue| <= VIDEO_QUEUE_DEPTH }

  /** Every step moves the counters as its kind says. */
  lemma StepCounts(s: Node, step: BufferOwnership.Step)
    requires Roomy(s)
    ensures var t, s' := s.tally, BufferOwnership.Apply(s, step);
      && Roomy(s')
      && s'.tally.received == IncIf(t.received, Receives(s, step))
      && s'.tally.local == IncIf(t.local, MakesOwn(s, step))
      && s'.tally.sunk == IncIf(t.sunk, SinksFrame(s, step))
      && s'.tally.out == IncIf(t.out, GoesOut(s, step))
      && s'.tally.dropped == IncIf(t.dropped, DropsFrame(s, step))
  {
  }

  /** A counter that moves with the steps of a kind, and with no others. */
  ghost predicate Tracks(counter: Tally -> uint32, kind: (Node, BufferOwnership.Step) -> bool) {
    forall s: Node, step: BufferOwnership.Step :: Roomy(s) ==>
      counter(BufferOwnership.Apply(s, step).tally) == IncIf(counter(s.tally), kind(s, step))
  }

  lemma {:induction false} RunCounts(counter: Tally -> uint32, kind: (Node, BufferOwnership.Step) -> bool,
                                     s: Node, steps: seq<BufferOwnership.Step>)
    requires Roomy(s) && Tracks(counter, kind)
    ensures counter(BufferOwnership.Exec(s, steps).tally) == Wrap32(counter(s.tally) + Count(kind, s, steps))
    decreases |steps|
  {
    var x := counter(s.tally);
    if steps == [] {
      Remainder(x, 0, TWO_TO_THE_32);
    } else {
      var s' := BufferOwnership.Apply(s, steps[0]);
      StepCounts(s, steps[0]);
      RunCounts(counter, kind, s', steps[1..]);
      IncAdds(x, Count(kind, s', steps[1..]));
    }
  }

  /**
   Each counter counts its events and nothing else, modulo 2^32. What is dropped: a
   frame for which there is no buffer, one that arrives at a relay with twelve
   in its queue, and one that is not sent whole.
   */
  lemma CountersExactly(gateway: bool, steps: seq<BufferOwnership.Step>)
    ensures var boot, t := Boot(gateway), BufferOwnership.Exec(Boot(gateway), steps).tally;
      && t.received == Wrap32(Count(Receives, boot, steps)) && t.local == Wrap32(Count(MakesOwn, boot, steps))
      && t.sunk == Wrap32(Count(SinksFrame, boot, steps)) && t.out == Wrap32(Count(GoesOut, boot, steps))
      && t.dropped == Wrap32(Count(DropsFrame, boot, steps))
  {
    AllTrack();
    RunCounts((t: Tally) => t.received, Receives, Boot(gateway), steps);
    RunCounts((t: Tally) => t.local, MakesOwn, Boot(gateway), steps);
    RunCounts((t: Tally) => t.sunk, SinksFrame, Boot(gateway), steps);
    RunCounts((t: Tally) => t.out, GoesOut, Boot(gateway), steps);
    RunCounts((t: Tally) => t.dropped, DropsFrame, Boot(gateway), steps);
  }

  lemma AllTrack()
    ensures Tracks((t: Tally) => t.received, Receives) && Tracks((t: Tally) => t.local, MakesOwn)
    ensures Tracks((t: Tally) => t.sunk, SinksFrame) && Tracks((t: Tally) => t.out, GoesOut)
    ensures Tracks((t: Tally) => t.dropped, DropsFrame)
  {
    forall s: Node, step: BufferOwnership.Step | Roomy(s)
      ensures var t, t' := s.tally, BufferOwnership.Apply(s, step).tally;
        && t'.received == IncIf(t.received, Receives(s, step)) && t'.local == IncIf(t.local, MakesOwn(s, step))
        && t'.sunk == IncIf(t.sunk, SinksFrame(s, step)) && t'.out == IncIf(t.out, GoesOut(s, step))
        && t'.dropped == IncIf(t.dropped, DropsFrame(s, step))
    {
      StepCounts(s, step);
    }
  }

  // Which frames go out.

  /** The frames that arrive at a node, in order; with `room` only those that find less than twelve in the queue. */
  function Arrivals(s: Node, steps: seq<BufferOwnership.Step>, room: bool): seq<Wrapper>
    decreases |steps|
  {
    if steps == [] then []
    else
      (if Arrives(s, steps[0]) && !(room && FindsFull(s, steps[0])) then [HandOf(s.hands, steps[0].task).frame] else [])
      + Arrivals(BufferOwnership.Apply(s, steps[0]), steps[1..], room)
  }

  /** The frames that the client is done with, in order; with `whole` only those that went out. */
  function Handled(s: Node, steps: seq<BufferOwnership.Step>, whole: bool): seq<Wrapper>
    decreases |steps|
  {
    if steps == [] then []
    else
      (if GoesOut(s, steps[0]) || (FailsToGoOut(s, steps[0]) && !whole) then [s.hands.client.value] else [])
      + Handled(BufferOwnership.Apply(s, steps[0]), steps[1..], whole)
  }

  /** What waits at a relay: the client's frame, then the queue. */
  function Pending(s: Node): seq<Wrapper> {
    (if s.hands.client.Some? then [s.hands.client.value] else []) + s.outQueue
  }

  /** One step: what waited and what enters is what is done and what waits. */
  lemma StepPasses(s: Node, step: BufferOwnership.Step)
    requires Roomy(s) && !s.gateway
    ensures var s' := BufferOwnership.Apply(s, step);
      Pending(s) + (if Arrives(s, step) && !FindsFull(s, step) then [HandOf(s.hands, step.task).frame] else [])
      == (if GoesOut(s, step) || FailsToGoOut(s, step) then [s.hands.client.value] else []) + Pending(s')
  {
  }

  lemma Regroup<T>(a: seq<T>, b: seq<T>, c: seq<T>, d: seq<T>, e: seq<T>, f: seq<T>, g: seq<T>)
    requires a + b == c + d && d + e == f + g
    ensures a + (b + e) == (c + f) + g
  {
    assert a + (b + e) == (a + b) + e == c + (d + e) == (c + f) + g;
  }

  lemma {:induction false} RunPasses(s: Node, steps: seq<BufferOwnership.Step>)
    requires Roomy(s) && !s.gateway
    ensures Pending(s) + Arrivals(s, steps, true) == Handled(s, steps, false) + Pending(BufferOwnership.Exec(s, steps))
    decreases |steps|
  {
    if steps == [] {
      assert Pending(s) + [] == [] + Pending(s);
    } else {
      var s' := BufferOwnership.Apply(s, steps[0]);
      StepCounts(s, steps[0]);
      StepPasses(s, steps[0]);
      RunPasses(s', steps[1..]);
      Regroup(Pending(s),
              if Arrives(s, steps[0]) && !FindsFull(s, steps[0]) then [HandOf(s.hands, steps[0].task).frame] else [],
              if GoesOut(s, steps[0]) || FailsToGoOut(s, steps[0]) then [s.hands.client.value] else [],
              Pending(s'), Arrivals(s', steps[1..], true), Handled(s', steps[1..], false),
              Pending(BufferOwnership.Exec(s, steps)));
    }
  }

  lemma {:induction false} NoneIsDropped(s: Node, steps: seq<BufferOwnership.Step>)
    requires Count(DropsFrame, s, steps) == 0
    ensures Arrivals(s, steps, true) == Arrivals(s, steps, false) && Handled(s, steps, true) == Handled(s, steps, false)
    decreases |steps|
  {
    if steps != [] {
      NoneIsDropped(BufferOwnership.Apply(s, steps[0]), steps[1..]);
    }
  }

  /**
   A relay hands to its client, in the order in which they arrived, exactly the frames
   that found less than twelve in the queue. When nothing is dropped, all that arrived
   have gone out or wait.
   */
  lemma RelayedInOrder(steps: seq<BufferOwnership.Step>)
    ensures var s := BufferOwnership.Exec(Boot(false), steps);
      && Handled(Boot(false), steps, false) + Pending(s) == Arrivals(Boot(false), steps, true)
      && (Count(DropsFrame, Boot(false), steps) == 0 ==>
            Handled(Boot(false), steps, true) + Pending(s) == Arrivals(Boot(false), steps, false))
  {
    RunPasses(Boot(false), steps);
    assert Pending(Boot(false)) + Arrivals(Boot(false), steps, true) == Arrivals(Boot(false), steps, true);
    if Count(DropsFrame, Boot(false), steps) == 0 {
      NoneIsDropped(Boot(false), steps);
    }
  }

  // The Gateway's uplink.

  /** What a step does to the uplink, and the link state that it finds: an arriving frame is offered, buffer and all. */
  function UplinkPart(s: Node, step: BufferOwnership.Step): seq<(Uplinks.Step<Wrapper>, bool)> {
    match step
    case Enqueue(p, linkUp) =>
      if SinksFrame(s, step) then [(DoFlush(NewWrapper(s.heap, HandOf(s.hands, p).frame.data)), linkUp)] else []
    case UplinkTake => [(DoTake, true)]
    case UplinkCheck(linkUp) => [(DoCheck, linkUp)]
    case UplinkFinish(ok) => [(DoFinish(ok), true)]
    case _ => []
  }

  function UplinkSteps(s: Node, steps: seq<BufferOwnership.Step>): seq<(Uplinks.Step<Wrapper>, bool)>
    decreases |steps|
  {
    if steps == [] then []
    else UplinkPart(s, steps[0]) + UplinkSteps(BufferOwnership.Apply(s, steps[0]), steps[1..])
  }

  lemma PartThen(s: Node, step: BufferOwnership.Step, rest: seq<(Uplinks.Step<Wrapper>, bool)>)
    ensures Uplinks.Exec(VIDEO, s.uplink, UplinkPart(s, step) + rest)
         == Uplinks.Exec(VIDEO, BufferOwnership.Apply(s, step).uplink, rest)
  {
    var part := UplinkPart(s, step);
    if part == [] {
      assert part + rest == rest;
    } else {
      assert part + rest == [part[0]] + rest && (part + rest)[1..] == rest;
    }
  }

  lemma {:induction false} UplinkFollows(s: Node, steps: seq<BufferOwnership.Step>)
    ensures BufferOwnership.Exec(s, steps).uplink == Uplinks.Exec(VIDEO, s.uplink, UplinkSteps(s, steps))
    decreases |steps|
  {
    if steps != [] {
      var s' := BufferOwnership.Apply(s, steps[0]);
      PartThen(s, steps[0], UplinkSteps(s', steps[1..]));
      UplinkFollows(s', steps[1..]);
    }
  }

  /**
   At the Gateway, in every interleaving: a frame is turned away if and only if it finds
   the link down or the uplink's queue full, and what went out is what the task took,
   found the link up for and sent, in order.
   */
  lemma GatewayFates(gateway: bool, steps: seq<BufferOwnership.Step>)
    ensures var u := BufferOwnership.Exec(Boot(gateway), steps).uplink;
      var w := SeesAll(VIDEO, Unseen(), UplinkSteps(Boot(gateway), steps));
      && u.log.accepted == w.entered && w.taken <= |w.entered| && u.queue == w.entered[w.taken..]
      && u.log.sent == w.sent && multiset(u.log.dropped) == multiset(w.lost) + multiset(w.turnedAway)
  {
    UplinkFollows(Boot(gateway), steps);
    FatesExactly(VIDEO, UplinkSteps(Boot(gateway), steps));
  }
}
