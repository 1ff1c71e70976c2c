/**
 Who owns what on the heap, in every interleaving of a node's tasks
 (main/video_relay.cpp, main/gateway_uplink.cpp): the server and the SPI receiver
 fill buffers, the self-test makes them up, the client and the uplink task empty
 them. Buffers travel inside `Frame` and `VideoItem` objects, allocated and freed
 like them, and at the Gateway from the one into the other.
 */
module BufferOwnership {
  import opened Words
  import opened Config
  import opened Uplinks

  type Address = nat

  /** A `Frame` or a `VideoItem` as the code holds it: where it is, and its `data` pointer, which may be null. */
  datatype Wrapper = Wrapper(at: Address, data: Option<Address>)

  /** Buffers below `buffers` and wrappers below `wrappers` have been allocated so far; those freed, in order. */
  datatype Heap = Heap(buffers: nat, freedBuffers: seq<Address>, wrappers: nat, freedWrappers: seq<Address>)

  /** The tasks that allocate. */
  datatype Producer = Server | Spi | SelfTest

  /**
   How far such a task is: it fills a buffer, it has a frame for `enqueueOrDrop`,
   it is inside `sinkFrame`, before and after the frame's pointer is set to null.
   */
  datatype Work =
    | Idle
    | Raw(buffer: Address)
    | Framed(frame: Wrapper)
    | Passed(frame: Wrapper)
    | Cleared(frame: Wrapper)

  datatype Hands = Hands(server: Work, spi: Work, selfTest: Work, client: Option<Wrapper>)

  /** `g_vIn`, `g_vLocal`, `g_vSunk`, `g_vOut` and `g_vDrop`. */
  datatype Tally = Tally(received: uint32, local: uint32, sunk: uint32, out: uint32, dropped: uint32)

  /** A node; `refused` counts the failed allocations of the server and the self-test, which count them as drops. */
  datatype Node = Node(gateway: bool, heap: Heap, hands: Hands, outQueue: seq<Wrapper>, uplink: Uplink<Wrapper>,
                       tally: Tally, refused: nat)

  function Boot(gateway: bool): Node {
    Node(gateway, Heap(0, [], 0, []), Hands(Idle, Idle, Idle, None), [], Fresh(), Tally(0, 0, 0, 0, 0), 0)
  }

  function HandOf(h: Hands, p: Producer): Work {
    match p
    case Server => h.server
    case Spi => h.spi
    case SelfTest => h.selfTest
  }

  function SetHand(h: Hands, p: Producer, w: Work): Hands {
    match p
    case Server => h.(server := w)
    case Spi => h.(spi := w)
    case SelfTest => h.(selfTest := w)
  }

  datatype Step =
    | Alloc(task: Producer, ok: bool)
    | Abandon(task: Producer)
    | Wrap(task: Producer)
    | Enqueue(task: Producer, linkUp: bool)
    | Clear(task: Producer)
    | Release(task: Producer)
    | ClientTake
    | ClientFinish(ok: bool)
    | UplinkTake
    | UplinkCheck(linkUp: bool)
    | UplinkFinish(ok: bool)

  // The heap.

  function FreeBuffer(h: Heap, data: Option<Address>): Heap {
    if data.Some? then h.(freedBuffers := h.freedBuffers + [data.value]) else h
  }

  /** `freeFrame` and `freeVideoItem`: the buffer unless the pointer is null, and the object. */
  function FreeFrame(h: Heap, f: Wrapper): Heap {
    var h' := FreeBuffer(h, f.data);
    h'.(freedWrappers := h'.freedWrappers + [f.at])
  }

  /** The object that `new` returns. */
  function NewWrapper(h: Heap, data: Option<Address>): Wrapper { Wrapper(h.wrappers, data) }

  function Issue(h: Heap): Heap { h.(wrappers := h.wrappers + 1) }

  // What a step does.

  /** A task asks the heap for a buffer; the SPI receiver does not count a refusal. */
  function AfterAlloc(s: Node, p: Producer, ok: bool): Node {
    if ok then
      s.(heap := s.heap.(buffers := s.heap.buffers + 1), hands := SetHand(s.hands, p, Raw(s.heap.buffers)))
    else if p == Spi then s
    else s.(tally := s.tally.(dropped := Inc(s.tally.dropped)), refused := s.refused + 1)
  }

  /** The connection or a transaction failed before the frame was complete. */
  function AfterAbandon(s: Node, p: Producer, b: Address): Node {
    s.(hands := SetHand(s.hands, p, Idle), heap := FreeBuffer(s.heap, Some(b)))
  }

  /** The frame is counted as received or local, and becomes an object. */
  function AfterWrap(s: Node, p: Producer, b: Address): Node {
    var tally := if p == Server then s.tally.(received := Inc(s.tally.received))
                 else s.tally.(local := Inc(s.tally.local));
    s.(hands := SetHand(s.hands, p, Framed(NewWrapper(s.heap, Some(b)))), heap := Issue(s.heap), tally := tally)
  }

  /** `flushVideo`: without a link the buffer is freed at once, otherwise it goes into an item of its own. */
  function FlushVideo(s: Node, data: Option<Address>, linkUp: bool): Node {
    var item := NewWrapper(s.heap, data);
    var heap := if !linkUp then FreeBuffer(s.heap, data)
                else if |s.uplink.queue| >= VIDEO.depth then FreeFrame(Issue(s.heap), item)
                else Issue(s.heap);
    s.(heap := heap, uplink := Flush(VIDEO, s.uplink, item, linkUp))
  }

  /** `enqueueOrDrop`, at the Gateway up to the return of `flushVideo`: the frame still points to the buffer. */
  function AfterEnqueue(s: Node, p: Producer, f: Wrapper, linkUp: bool): Node {
    if s.gateway then
      var sinking := s.(tally := s.tally.(sunk := Inc(s.tally.sunk)), hands := SetHand(s.hands, p, Passed(f)));
      FlushVideo(sinking, f.data, linkUp)
    else if |s.outQueue| >= VIDEO_QUEUE_DEPTH then
      s.(tally := s.tally.(dropped := Inc(s.tally.dropped)), heap := FreeFrame(s.heap, f),
         hands := SetHand(s.hands, p, Idle))
    else s.(outQueue := s.outQueue + [f], hands := SetHand(s.hands, p, Idle))
  }

  /** `frame->data = nullptr`. */
  function AfterClear(s: Node, p: Producer, f: Wrapper): Node {
    s.(hands := SetHand(s.hands, p, Cleared(f.(data := None))))
  }

  /** `freeFrame(frame)` at the end of `sinkFrame`. */
  function AfterRelease(s: Node, p: Producer, f: Wrapper): Node {
    s.(hands := SetHand(s.hands, p, Idle), heap := FreeFrame(s.heap, f))
  }

  function AfterClientTake(s: Node): Node
    requires s.outQueue != []
  {
    s.(outQueue := s.outQueue[1..], hands := s.hands.(client := Some(s.outQueue[0])))
  }

  /** Sent or not, the client frees the frame. */
  function AfterClientFinish(s: Node, f: Wrapper, ok: bool): Node {
    s.(hands := s.hands.(client := None), heap := FreeFrame(s.heap, f),
       tally := if ok then s.tally.(out := Inc(s.tally.out)) else s.tally.(dropped := Inc(s.tally.dropped)))
  }

  /** The uplink task frees an item that it drops for want of a link. */
  function AfterUplinkCheck(s: Node, linkUp: bool): Node {
    s.(uplink := Check(s.uplink, linkUp),
       heap := if s.uplink.hand.Taken? && !linkUp then FreeFrame(s.heap, s.uplink.hand.item) else s.heap)
  }

  /** Sent or not, the uplink task frees the item. */
  function AfterUplinkFinish(s: Node, ok: bool): Node {
    s.(uplink := Finish(s.uplink, ok),
       heap := if s.uplink.hand.Sending? then FreeFrame(s.heap, s.uplink.hand.item) else s.heap)
  }

  /** A step of a task that is not there changes nothing; the client runs on relays, the uplink at the Gateway. */
  function Apply(s: Node, step: Step): Node {
    match step
    case Alloc(p, ok) => if HandOf(s.hands, p).Idle? then AfterAlloc(s, p, ok) else s
    case Abandon(p) =>
      if HandOf(s.hands, p).Raw? && p != SelfTest then AfterAbandon(s, p, HandOf(s.hands, p).buffer) else s
    case Wrap(p) => if HandOf(s.hands, p).Raw? then AfterWrap(s, p, HandOf(s.hands, p).buffer) else s
    case Enqueue(p, linkUp) =>
      if HandOf(s.hands, p).Framed? then AfterEnqueue(s, p, HandOf(s.hands, p).frame, linkUp) else s
    case Clear(p) => if HandOf(s.hands, p).Passed? then AfterClear(s, p, HandOf(s.hands, p).frame) else s
    case Release(p) => if HandOf(s.hands, p).Cleared? then AfterRelease(s, p, HandOf(s.hands, p).frame) else s
    case ClientTake => if !s.gateway && s.hands.client.None? && s.outQueue != [] then AfterClientTake(s) else s
    case ClientFinish(ok) => if s.hands.client.Some? then AfterClientFinish(s, s.hands.client.value, ok) else s
    case UplinkTake => s.(uplink := Take(s.uplink))
    case UplinkCheck(linkUp) => AfterUplinkCheck(s, linkUp)
    case UplinkFinish(ok) => AfterUplinkFinish(s, ok)
  }

  function Exec(s: Node, steps: seq<Step>): Node
    decreases |steps|
  {
    if steps == [] then s else Exec(Apply(s, steps[0]), steps[1..])
  }

  // One owner, then freed once.

  /** What can be allocated: a buffer or a wrapper. */
  datatype Thing = ABuffer(at: Address) | AWrapper(at: Address)

  function Times(q: seq<Address>, a: Address): nat { multiset(q)[a] }

  lemma TimesAppend(q: seq<Address>, x: Address, a: Address)
    ensures Times(q + [x], a) == Times(q, a) + if x == a then 1 else 0
  {
  }

  function Points(data: Option<Address>, t: Thing): nat { if t.ABuffer? && data == Some(t.at) then 1 else 0 }

  /** Whoever holds a wrapper owns it and the buffer it points to. */
  function Owns(f: Wrapper, t: Thing): nat { if t == AWrapper(f.at) then 1 else Points(f.data, t) }

  function Among(q: seq<Wrapper>, t: Thing): nat {
    if q == [] then 0 else Owns(q[0], t) + Among(q[1..], t)
  }

  lemma {:induction false} AmongAppend(q: seq<Wrapper>, f: Wrapper, t: Thing)
    ensures Among(q + [f], t) == Among(q, t) + Owns(f, t)
  {
    if q == [] {
      assert [f][1..] == [];
    } else {
      assert (q + [f])[1..] == q[1..] + [f];
      AmongAppend(q[1..], f, t);
    }
  }

  /** What a task owns: once it has passed the buffer on, the wrapper alone, though the pointer is still there. */
  function OwnedBy(w: Work, t: Thing): nat {
    match w
    case Idle => 0
    case Raw(b) => Points(Some(b), t)
    case Framed(f) => Owns(f, t)
    case Passed(f) => Owns(f.(data := None), t)
    case Cleared(f) => Owns(f, t)
  }

  function InHands(h: Hands, t: Thing): nat {
    OwnedBy(h.server, t) + OwnedBy(h.spi, t) + OwnedBy(h.selfTest, t)
    + (if h.client.Some? then Owns(h.client.value, t) else 0)
  }

  function AtUplink(u: Uplink<Wrapper>, t: Thing): nat {
    Among(u.queue, t) + if u.hand.Empty? then 0 else Owns(u.hand.item, t)
  }

  /** In how many hands and queue slots it is. */
  function Owners(s: Node, t: Thing): nat { InHands(s.hands, t) + Among(s.outQueue, t) + AtUplink(s.uplink, t) }

  /** How often it has been freed. */
  function Freed(h: Heap, t: Thing): nat {
    match t
    case ABuffer(a) => Times(h.freedBuffers, a)
    case AWrapper(a) => Times(h.freedWrappers, a)
  }

  /** One for what has been allocated, zero for what has not. */
  function Issued(h: Heap, t: Thing): nat {
    match t
    case ABuffer(a) => if a < h.buffers then 1 else 0
    case AWrapper(a) => if a < h.wrappers then 1 else 0
  }

  /** The places of a thing beyond the one that it should have. */
  function Excess(s: Node, t: Thing): int { Owners(s, t) + Freed(s.heap, t) - Issued(s.heap, t) }

  lemma FreeBufferMoves(h: Heap, data: Option<Address>, t: Thing)
    ensures Freed(FreeBuffer(h, data), t) == Freed(h, t) + Points(data, t)
    ensures Issued(FreeBuffer(h, data), t) == Issued(h, t)
  {
    if data.Some? {
      TimesAppend(h.freedBuffers, data.value, t.at);
    }
  }

  lemma FreeFrameMoves(h: Heap, f: Wrapper, t: Thing)
    ensures Freed(FreeFrame(h, f), t) == Freed(h, t) + Owns(f, t)
    ensures Issued(FreeFrame(h, f), t) == Issued(h, t)
  {
    FreeBufferMoves(h, f.data, t);
    TimesAppend(FreeBuffer(h, f.data).freedWrappers, f.at, t.at);
  }

  lemma HandsMove(h: Hands, p: Producer, w: Work, t: Thing)
    ensures InHands(SetHand(h, p, w), t) + OwnedBy(HandOf(h, p), t) == InHands(h, t) + OwnedBy(w, t)
  {
  }

  /** `flushVideo` takes the buffer over: with what happens to it there, it has one place more. */
  lemma FlushMoves(s: Node, data: Option<Address>, linkUp: bool, t: Thing)
    ensures Excess(FlushVideo(s, data, linkUp), t) == Excess(s, t) + Points(data, t)
  {
    var item := NewWrapper(s.heap, data);
    FreeBufferMoves(s.heap, data, t);
    FreeFrameMoves(Issue(s.heap), item, t);
    AmongAppend(s.uplink.queue, item, t);
  }

  lemma AllocMoves(s: Node, p: Producer, ok: bool, t: Thing)
    requires HandOf(s.hands, p).Idle?
    ensures Excess(AfterAlloc(s, p, ok), t) == Excess(s, t)
  {
    HandsMove(s.hands, p, Raw(s.heap.buffers), t);
  }

  lemma AbandonMoves(s: Node, p: Producer, b: Address, t: Thing)
    requires HandOf(s.hands, p) == Raw(b)
    ensures Excess(AfterAbandon(s, p, b), t) == Excess(s, t)
  {
    HandsMove(s.hands, p, Idle, t);
    FreeBufferMoves(s.heap, Some(b), t);
  }

  lemma WrapMoves(s: Node, p: Producer, b: Address, t: Thing)
    requires HandOf(s.hands, p) == Raw(b)
    ensures Excess(AfterWrap(s, p, b), t) == Excess(s, t)
  {
    HandsMove(s.hands, p, Framed(NewWrapper(s.heap, Some(b))), t);
  }

  lemma SinkMoves(s: Node, p: Producer, f: Wrapper, linkUp: bool, t: Thing)
    requires s.gateway && HandOf(s.hands, p) == Framed(f)
    ensures Excess(AfterEnqueue(s, p, f, linkUp), t) == Excess(s, t)
  {
    var s' := s.(tally := s.tally.(sunk := Inc(s.tally.sunk)), hands := SetHand(s.hands, p, Passed(f)));
    HandsMove(s.hands, p, Passed(f), t);
    FlushMoves(s', f.data, linkUp, t);
    assert Owns(f, t) == Owns(f.(data := None), t) + Points(f.data, t);
  }

  lemma RelayMoves(s: Node, p: Producer, f: Wrapper, linkUp: bool, t: Thing)
    requires !s.gateway && HandOf(s.hands, p) == Framed(f)
    ensures Excess(AfterEnqueue(s, p, f, linkUp), t) == Excess(s, t)
  {
    HandsMove(s.hands, p, Idle, t);
    if |s.outQueue| >= VIDEO_QUEUE_DEPTH {
      FreeFrameMoves(s.heap, f, t);
    } else {
      AmongAppend(s.outQueue, f, t);
    }
  }

  lemma EnqueueMoves(s: Node, p: Producer, f: Wrapper, linkUp: bool, t: Thing)
    requires HandOf(s.hands, p) == Framed(f)
    ensures Excess(AfterEnqueue(s, p, f, linkUp), t) == Excess(s, t)
  {
    if s.gateway {
      SinkMoves(s, p, f, linkUp, t);
    } else {
      RelayMoves(s, p, f, linkUp, t);
    }
  }

  /** Setting the pointer to null changes nobody's ownership, and what `freeFrame` then frees is the wrapper. */
  lemma SinkEndMoves(s: Node, p: Producer, f: Wrapper, t: Thing)
    ensures HandOf(s.hands, p) == Passed(f) ==> Excess(AfterClear(s, p, f), t) == Excess(s, t)
    ensures HandOf(s.hands, p) == Cleared(f) ==> Excess(AfterRelease(s, p, f), t) == Excess(s, t)
  {
    HandsMove(s.hands, p, Cleared(f.(data := None)), t);
    HandsMove(s.hands, p, Idle, t);
    FreeFrameMoves(s.heap, f, t);
  }

  lemma ClientMoves(s: Node, ok: bool, t: Thing)
    ensures s.hands.client.Some? ==> Excess(AfterClientFinish(s, s.hands.client.value, ok), t) == Excess(s, t)
    ensures s.hands.client.None? && s.outQueue != [] ==> Excess(AfterClientTake(s), t) == Excess(s, t)
  {
    if s.hands.client.Some? {
      FreeFrameMoves(s.heap, s.hands.client.value, t);
    }
  }

  lemma CheckMoves(s: Node, linkUp: bool, t: Thing)
    ensures Excess(AfterUplinkCheck(s, linkUp), t) == Excess(s, t)
  {
    if s.uplink.hand.Taken? && !linkUp {
      FreeFrameMoves(s.heap, s.uplink.hand.item, t);
    }
  }

  lemma FinishMoves(s: Node, ok: bool, t: Thing)
    ensures Excess(AfterUplinkFinish(s, ok), t) == Excess(s, t)
  {
    if s.uplink.hand.Sending? {
      FreeFrameMoves(s.heap, s.uplink.hand.item, t);
    }
  }

  lemma StepKeepsPlaces(s: Node, step: Step, t: Thing)
    ensures Excess(Apply(s, step), t) == Excess(s, t)
  {
    match step
    case Alloc(p, ok) =>
      if HandOf(s.hands, p).Idle? {
        AllocMoves(s, p, ok, t);
      }
    case Abandon(p) =>
      if HandOf(s.hands, p).Raw? {
        AbandonMoves(s, p, HandOf(s.hands, p).buffer, t);
      }
    case Wrap(p) =>
      if HandOf(s.hands, p).Raw? {
        WrapMoves(s, p, HandOf(s.hands, p).buffer, t);
      }
    case Enqueue(p, linkUp) =>
      if HandOf(s.hands, p).Framed? {
        EnqueueMoves(s, p, HandOf(s.hands, p).frame, linkUp, t);
      }
    case Clear(p) =>
      if HandOf(s.hands, p).Passed? {
        SinkEndMoves(s, p, HandOf(s.hands, p).frame, t);
      }
    case Release(p) =>
      if HandOf(s.hands, p).Cleared? {
        SinkEndMoves(s, p, HandOf(s.hands, p).frame, t);
      }
    case ClientTake => ClientMoves(s, true, t);
    case ClientFinish(ok) => ClientMoves(s, ok, t);
    case UplinkTake => assert AtUplink(Take(s.uplink), t) == AtUplink(s.uplink, t);
    case UplinkCheck(linkUp) => CheckMoves(s, linkUp, t);
    case UplinkFinish(ok) => FinishMoves(s, ok, t);
  }

  lemma {:induction false} RunKeepsPlaces(s: Node, steps: seq<Step>, t: Thing)
    ensures Excess(Exec(s, steps), t) == Excess(s, t)
    decreases |steps|
  {
    if steps != [] {
      StepKeepsPlaces(s, steps[0], t);
      RunKeepsPlaces(Apply(s, steps[0]), steps[1..], t);
    }
  }

  /**
   In every interleaving each allocated buffer, each `Frame` and each `VideoItem`
   has exactly one owner until it is freed, exactly once: nothing leaks, nothing
   is freed twice, nothing freed is still owned.
   */
  lemma OneOwnerThenFreedOnce(gateway: bool, steps: seq<Step>, t: Thing)
    ensures var s := Exec(Boot(gateway), steps);
      Owners(s, t) + Freed(s.heap, t) == Issued(s.heap, t)
  {
    RunKeepsPlaces(Boot(gateway), steps, t);
  }

  /**
   The two statements at the end of `sinkFrame`, whatever the other tasks do in
   between: the buffer that the uplink was given is not freed by them, the wrapper is.
   */
  lemma SinkFreesTheWrapper(s: Node, between: seq<Step>, p: Producer, t: Thing)
    requires HandOf(s.hands, p).Passed?
    requires forall k :: 0 <= k < |between| ==> between[k] != Release(p)
    ensures var f := HandOf(s.hands, p).frame;
      var s1 := Exec(Apply(s, Clear(p)), between);
      var s2 := Apply(s1, Release(p));
      && HandOf(s1.hands, p) == Cleared(f.(data := None)) && HandOf(s2.hands, p) == Idle
      && Freed(s2.heap, t) == Freed(s1.heap, t) + if t == AWrapper(f.at) then 1 else 0
  {
    var f := HandOf(s.hands, p).frame.(data := None);
    var s0 := Apply(s, Clear(p));
    assert HandOf(s0.hands, p) == Cleared(f);
    StaysCleared(s0, between, p, f);
    Released(Exec(s0, between), p, f, t);
  }

  lemma Released(s: Node, p: Producer, f: Wrapper, t: Thing)
    requires HandOf(s.hands, p) == Cleared(f) && f.data == None
    ensures var s' := Apply(s, Release(p));
      HandOf(s'.hands, p) == Idle && Freed(s'.heap, t) == Freed(s.heap, t) + if t == AWrapper(f.at) then 1 else 0
  {
    FreeFrameMoves(s.heap, f, t);
  }

  lemma {:induction false} StaysCleared(s: Node, steps: seq<Step>, p: Producer, f: Wrapper)
    requires HandOf(s.hands, p) == Cleared(f) && forall k :: 0 <= k < |steps| ==> steps[k] != Release(p)
    ensures HandOf(Exec(s, steps).hands, p) == Cleared(f)
    decreases |steps|
  {
    if steps != [] {
      StaysClearedOnce(s, steps[0], p, f);
      StaysCleared(Apply(s, steps[0]), steps[1..], p, f);
    }
  }

  lemma StaysClearedOnce(s: Node, step: Step, p: Producer, f: Wrapper)
    requires HandOf(s.hands, p) == Cleared(f) && step != Release(p)
    ensures HandOf(Apply(s, step).hands, p) == Cleared(f)
  {
  }

  /** Why the pointer is set to null: without that, `freeFrame` would free a buffer that is no longer the frame's. */
  lemma NotClearedFreesTwice(s: Node, p: Producer, f: Wrapper, b: Address, linkUp: bool)
    requires s.gateway && HandOf(s.hands, p) == Framed(f) && f.data == Some(b) && Excess(s, ABuffer(b)) == 0
    requires Issued(s.heap, ABuffer(b)) == 1
    ensures var s1 := Apply(s, Enqueue(p, linkUp));
      Owners(s1, ABuffer(b)) + Freed(FreeFrame(s1.heap, f), ABuffer(b)) == 2
  {
    EnqueueMoves(s, p, f, linkUp, ABuffer(b));
    FreeFrameMoves(Apply(s, Enqueue(p, linkUp)).heap, f, ABuffer(b));
  }

  // Conservation across the two modules.

  /** A relay never uses the uplink, the Gateway never its outgoing queue. */
  predicate Sided(s: Node) {
    && |s.outQueue| <= VIDEO_QUEUE_DEPTH
    && (s.gateway ==> s.outQueue == [] && s.hands.client.None?)
  }

  /** The frames that are on their way into `enqueueOrDrop`, and on a relay in the client's hand. */
  function Waiting(h: Hands): nat {
    (if h.server.Framed? then 1 else 0) + (if h.spi.Framed? then 1 else 0) + (if h.selfTest.Framed? then 1 else 0)
    + (if h.client.Some? then 1 else 0)
  }

  /** `g_vSunk` counts the calls of `flushVideo`, and they are all that is received or local. */
  predicate Sunk(s: Node) {
    s.gateway ==>
      && Wrap32(s.tally.received + s.tally.local) == Wrap32(s.tally.sunk + Waiting(s.hands))
      && s.tally.sunk == Wrap32(|s.uplink.log.offered|)
  }

  /** On a relay every frame received or local is sent, dropped, queued or in a hand. */
  predicate Relayed(s: Node) {
    !s.gateway ==>
      Wrap32(s.tally.received + s.tally.local + s.refused) ==
      Wrap32(s.tally.out + s.tally.dropped + |s.outQueue| + Waiting(s.hands))
  }

  ghost predicate Balanced(s: Node) { Sided(s) && Sunk(s) && Relayed(s) && Inv(VIDEO, s.uplink) }

  lemma IncAdds(x: uint32, y: int)
    ensures Wrap32(Inc(x) + y) == Wrap32(x + y + 1)
  {
    if x + 1 == TWO_TO_THE_32 {
      SameRemainder(y, x + y + 1, TWO_TO_THE_32);
      Remainder(-TWO_TO_THE_32, -1, TWO_TO_THE_32);
    }
  }

  lemma WaitingMoves(h: Hands, p: Producer, w: Work)
    ensures Waiting(SetHand(h, p, w)) + (if HandOf(h, p).Framed? then 1 else 0)
         == Waiting(h) + if w.Framed? then 1 else 0
  {
  }

  lemma WrapSunk(s: Node, p: Producer, b: Address)
    requires Sided(s) && Sunk(s) && s.gateway && HandOf(s.hands, p) == Raw(b)
    ensures var s' := AfterWrap(s, p, b); Sunk(s') && Sided(s')
  {
    var t := s.tally;
    WaitingMoves(s.hands, p, Framed(NewWrapper(s.heap, Some(b))));
    IncAdds(t.received, t.local);
    IncAdds(t.local, t.received);
    Wrap32Succ(t.received + t.local);
    Wrap32Succ(t.sunk + Waiting(s.hands));
  }

  lemma EnqueueSunk(s: Node, p: Producer, f: Wrapper, linkUp: bool)
    requires Sided(s) && Sunk(s) && s.gateway && HandOf(s.hands, p) == Framed(f)
    ensures var s' := AfterEnqueue(s, p, f, linkUp); Sunk(s') && Sided(s')
  {
    WaitingMoves(s.hands, p, Passed(f));
    IncAdds(s.tally.sunk, Waiting(s.hands) - 1);
    Wrap32Succ(|s.uplink.log.offered|);
  }

  lemma StepKeepsSunk(s: Node, step: Step)
    requires Sided(s) && Sunk(s) && s.gateway
    ensures Sunk(Apply(s, step)) && Sided(Apply(s, step))
  {
    match step
    case Wrap(p) =>
      if HandOf(s.hands, p).Raw? {
        WrapSunk(s, p, HandOf(s.hands, p).buffer);
      }
    case Enqueue(p, linkUp) =>
      if HandOf(s.hands, p).Framed? {
        EnqueueSunk(s, p, HandOf(s.hands, p).frame, linkUp);
      }
    case _ =>
  }

  lemma WrapRelayed(s: Node, p: Producer, b: Address)
    requires Sided(s) && Relayed(s) && !s.gateway && HandOf(s.hands, p) == Raw(b)
    ensures var s' := AfterWrap(s, p, b); Relayed(s') && Sided(s')
  {
    var t := s.tally;
    WaitingMoves(s.hands, p, Framed(NewWrapper(s.heap, Some(b))));
    Wrap32Succ(t.received + t.local + s.refused);
    Wrap32Succ(t.out + t.dropped + |s.outQueue| + Waiting(s.hands));
    IncAdds(t.received, t.local + s.refused);
    IncAdds(t.local, t.received + s.refused);
  }

  lemma EnqueueRelayed(s: Node, p: Producer, f: Wrapper, linkUp: bool)
    requires Sided(s) && Relayed(s) && !s.gateway && HandOf(s.hands, p) == Framed(f)
    ensures var s' := AfterEnqueue(s, p, f, linkUp); Relayed(s') && Sided(s')
  {
    WaitingMoves(s.hands, p, Idle);
    IncAdds(s.tally.dropped, s.tally.out + |s.outQueue| + Waiting(s.hands) - 1);
  }

  lemma ClientRelayed(s: Node, f: Wrapper, ok: bool)
    requires Sided(s) && Relayed(s) && !s.gateway && s.hands.client == Some(f)
    ensures var s' := AfterClientFinish(s, f, ok); Relayed(s') && Sided(s')
  {
    var rest := |s.outQueue| + Waiting(s.hands) - 1;
    if ok {
      IncAdds(s.tally.out, s.tally.dropped + rest);
    } else {
      IncAdds(s.tally.dropped, s.tally.out + rest);
    }
  }

  lemma AllocRelayed(s: Node, p: Producer, ok: bool)
    requires Sided(s) && Relayed(s) && !s.gateway && HandOf(s.hands, p).Idle?
    ensures var s' := AfterAlloc(s, p, ok); Relayed(s') && Sided(s')
  {
    var t := s.tally;
    WaitingMoves(s.hands, p, Raw(s.heap.buffers));
    Wrap32Succ(t.received + t.local + s.refused);
    Wrap32Succ(t.out + t.dropped + |s.outQueue| + Waiting(s.hands));
    IncAdds(t.dropped, t.out + |s.outQueue| + Waiting(s.hands));
  }

  lemma StepKeepsRelayed(s: Node, step: Step)
    requires Sided(s) && Relayed(s) && !s.gateway
    ensures Relayed(Apply(s, step)) && Sided(Apply(s, step))
  {
    match step
    case Alloc(p, ok) =>
      if HandOf(s.hands, p).Idle? {
        AllocRelayed(s, p, ok);
      }
    case Wrap(p) =>
      if HandOf(s.hands, p).Raw? {
        WrapRelayed(s, p, HandOf(s.hands, p).buffer);
      }
    case Enqueue(p, linkUp) =>
      if HandOf(s.hands, p).Framed? {
        EnqueueRelayed(s, p, HandOf(s.hands, p).frame, linkUp);
      }
    case ClientFinish(ok) =>
      if s.hands.client.Some? {
        ClientRelayed(s, s.hands.client.value, ok);
      }
    case _ =>
  }

  lemma StepKeepsUplink(s: Node, step: Step)
    requires Inv(VIDEO, s.uplink)
    ensures Inv(VIDEO, Apply(s, step).uplink)
  {
    match step
    case Enqueue(p, linkUp) =>
      if HandOf(s.hands, p).Framed? {
        FlushKeeps(VIDEO, s.uplink, NewWrapper(s.heap, HandOf(s.hands, p).frame.data), linkUp);
      }
    case UplinkTake => TakeKeeps(VIDEO, s.uplink);
    case UplinkCheck(linkUp) => CheckKeeps(VIDEO, s.uplink, linkUp);
    case UplinkFinish(ok) => FinishKeeps(VIDEO, s.uplink, ok);
    case _ =>
  }

  lemma {:induction false} RunKeepsBalance(s: Node, steps: seq<Step>)
    requires Balanced(s)
    ensures Balanced(Exec(s, steps)) && Exec(s, steps).gateway == s.gateway
    decreases |steps|
  {
    if steps != [] {
      StepKeepsUplink(s, steps[0]);
      if s.gateway {
        StepKeepsSunk(s, steps[0]);
      } else {
        StepKeepsRelayed(s, steps[0]);
      }
      RunKeepsBalance(Apply(s, steps[0]), steps[1..]);
    }
  }

  /**
   Modulo 2^32 and in every interleaving with link flaps: at the Gateway local + in
   is what was sunk and what is about to be, and each frame sunk is counted once
   as sent or dropped or is still queued or in the uplink task's hand; on a relay
   each frame is sent, dropped, queued, in the client's hand or about to be queued.
   */
  lemma VideoConservation(gateway: bool, steps: seq<Step>)
    ensures var s := Exec(Boot(gateway), steps);
      var t, u := s.tally, s.uplink;
      if gateway then
        && Wrap32(t.received + t.local) == Wrap32(t.sunk + Waiting(s.hands))
        && t.sunk == Disposed(u)
      else
        Wrap32(t.received + t.local + s.refused) == Wrap32(t.out + t.dropped + |s.outQueue| + Waiting(s.hands))
  {
    FreshInv<Wrapper>(VIDEO);
    RunKeepsBalance(Boot(gateway), steps);
    Conserved(Exec(Boot(gateway), steps).uplink);
  }
}
