/**
 The frame handling of main/video_relay.cpp with its real fields: `freeFrame`,
 `sinkFrame`, `enqueueOrDrop`, `onLuckfoxFrame` and the turns of the tasks, with
 `flushVideo` and `freeVideoItem` of main/gateway_uplink.cpp behind them, proved
 to take the steps of BufferOwnership.
 */
module RelayTasks {
  import opened Words
  import opened Config
  import opened Uplinks
  import opened UplinkTasks
  import opened BufferOwnership

  class VideoRelay {
    const gateway: bool
    const uplink: UplinkQueue<Wrapper>
    var heap: Heap
    var hands: Hands
    var outQueue: seq<Wrapper>
    var tally: Tally
    var refused: nat

    ghost predicate Valid() { uplink.config == VIDEO }

    ghost function State(): Node
      reads this, uplink
    {
      Node(gateway, heap, hands, outQueue, uplink.State(), tally, refused)
    }

    constructor (gateway: bool)
      ensures Valid() && fresh(uplink) && State() == Boot(gateway)
    {
      this.gateway := gateway;
      heap, hands, outQueue := Heap(0, [], 0, []), Hands(Idle, Idle, Idle, None), [];
      tally, refused := Tally(0, 0, 0, 0, 0), 0;
      uplink := new UplinkQueue(VIDEO);
    }

    /** `allocFrameBuffer`, as each of the tasks calls it. */
    method AllocFrameBuffer(p: Producer, ok: bool)
      requires Valid() && HandOf(hands, p).Idle?
      modifies this
      ensures State() == AfterAlloc(old(State()), p, ok)
    {
      if ok {
        hands := SetHand(hands, p, Raw(heap.buffers));
        heap := heap.(buffers := heap.buffers + 1);
      } else if p != Spi {
        tally := tally.(dropped := Inc(tally.dropped));
        refused := refused + 1;
      }
    }

    /** `heap_caps_free`. */
    method Free(buffer: Address)
      modifies `heap
      ensures heap == FreeBuffer(old(heap), Some(buffer))
    {
      heap := heap.(freedBuffers := heap.freedBuffers + [buffer]);
    }

    /** `new Frame` and `new VideoItem`. */
    method NewFrame(data: Option<Address>) returns (f: Wrapper)
      modifies `heap
      ensures f == NewWrapper(old(heap), data) && heap == Issue(old(heap))
    {
      f := Wrapper(heap.wrappers, data);
      heap := heap.(wrappers := heap.wrappers + 1);
    }

    /** `freeFrame` and `freeVideoItem`. */
    method Delete(f: Wrapper)
      modifies `heap
      ensures heap == FreeFrame(old(heap), f)
    {
      if f.data.Some? {
        Free(f.data.value);
      }
      heap := heap.(freedWrappers := heap.freedWrappers + [f.at]);
    }

    /** `flushVideo`. */
    method Flush(data: Option<Address>)
      requires Valid()
      modifies `heap, uplink
      ensures State() == FlushVideo(old(State()), data, old(uplink.linkUp)) && uplink.linkUp == old(uplink.linkUp)
    {
      if !uplink.linkUp {
        uplink.Offer(Wrapper(heap.wrappers, data));
        if data.Some? {
          Free(data.value);
        }
        return;
      }
      var full := |uplink.queue| >= VIDEO.depth;
      var item := NewFrame(data);
      uplink.Offer(item);
      if full {
        Delete(item);
      }
    }

    /** The frame's buffer goes to the uplink, its pointer is set to null, and the frame is freed. */
    method SinkFrame(p: Producer, frame: Wrapper)
      requires Valid() && gateway && HandOf(hands, p) == Framed(frame)
      modifies `tally, `heap, `hands, uplink
      ensures State() == AfterRelease(AfterClear(AfterEnqueue(old(State()), p, frame, old(uplink.linkUp)), p, frame),
                                      p, frame.(data := None))
    {
      var f := frame;
      tally := tally.(sunk := Inc(tally.sunk));
      hands := SetHand(hands, p, Passed(f));
      Flush(f.data);
      f := f.(data := None);
      hands := SetHand(hands, p, Cleared(f));
      Delete(f);
      hands := SetHand(hands, p, Idle);
    }

    method EnqueueOrDrop(p: Producer, frame: Wrapper)
      requires Valid() && HandOf(hands, p) == Framed(frame)
      modifies this, uplink
      ensures State() == Enqueued(old(State()), p, frame, old(uplink.linkUp))
    {
      if gateway {
        SinkFrame(p, frame);
      } else {
        if |outQueue| >= VIDEO_QUEUE_DEPTH {
          tally := tally.(dropped := Inc(tally.dropped));
          Delete(frame);
        } else {
          outQueue := outQueue + [frame];
        }
        hands := SetHand(hands, p, Idle);
      }
    }

    /** The server has received a frame. */
    method OnServerFrame()
      requires Valid() && hands.server.Raw?
      modifies this, uplink
      ensures State() == Delivered(old(State()), Server, old(hands.server.buffer), old(uplink.linkUp))
    {
      var b := hands.server.buffer;
      tally := tally.(received := Inc(tally.received));
      var frame := NewFrame(Some(b));
      hands := hands.(server := Framed(frame));
      EnqueueOrDrop(Server, frame);
    }

    /** A frame from the LuckFox or the self-test. */
    method OnLuckfoxFrame(p: Producer)
      requires Valid() && p != Server && HandOf(hands, p).Raw?
      modifies this, uplink
      ensures State() == Delivered(old(State()), p, HandOf(old(hands), p).buffer, old(uplink.linkUp))
    {
      var b := HandOf(hands, p).buffer;
      tally := tally.(local := Inc(tally.local));
      var frame := NewFrame(Some(b));
      hands := SetHand(hands, p, Framed(frame));
      EnqueueOrDrop(p, frame);
    }

    /** The connection or the transaction failed inside a frame. */
    method AbandonFrame(p: Producer)
      requires Valid() && p != SelfTest && HandOf(hands, p).Raw?
      modifies this
      ensures State() == AfterAbandon(old(State()), p, HandOf(old(hands), p).buffer)
    {
      Free(HandOf(hands, p).buffer);
      hands := SetHand(hands, p, Idle);
    }

    /** One round of `clientTask` with a connection: the next frame is sent or not, and freed. */
    method ClientTurn(linkOk: bool)
      requires Valid() && !gateway && hands.client.None? && outQueue != []
      modifies this
      ensures State() == AfterClientFinish(AfterClientTake(old(State())), old(outQueue)[0], linkOk)
    {
      var frame := outQueue[0];
      outQueue := outQueue[1..];
      if linkOk {
        tally := tally.(out := Inc(tally.out));
      } else {
        tally := tally.(dropped := Inc(tally.dropped));
      }
      Delete(frame);
    }

    /** One round of `videoUplinkTask`: the next item is dropped, sent or not, and freed. */
    method UplinkTurn(ok: bool)
      requires Valid() && uplink.hand.Empty? && uplink.queue != []
      modifies `heap, uplink
      ensures var taken := BufferOwnership.Apply(old(State()), UplinkTake);
        State() == AfterUplinkFinish(AfterUplinkCheck(taken, old(uplink.linkUp)), ok)
    {
      var item := uplink.queue[0];
      var ready := uplink.Next();
      if ready {
        uplink.Done(ok);
      }
      Delete(item);
    }
  }

  /** `enqueueOrDrop` to its end. */
  function Enqueued(s: Node, p: Producer, f: Wrapper, linkUp: bool): Node {
    var s' := AfterEnqueue(s, p, f, linkUp);
    if s.gateway then AfterRelease(AfterClear(s', p, f), p, f.(data := None)) else s'
  }

  /** A finished buffer on its way to the queue or the uplink. */
  function Delivered(s: Node, p: Producer, b: Address, linkUp: bool): Node {
    Enqueued(AfterWrap(s, p, b), p, NewWrapper(s.heap, Some(b)), linkUp)
  }

  /** The calls that make up a delivery, as steps between which the other tasks may run. */
  function DeliverySteps(gateway: bool, p: Producer, linkUp: bool): seq<BufferOwnership.Step> {
    [Wrap(p)] + ([Enqueue(p, linkUp)] + if gateway then [Clear(p)] + [Release(p)] else [])
  }

  lemma DeliveredInSteps(s: Node, p: Producer, b: Address, linkUp: bool)
    requires HandOf(s.hands, p) == Raw(b)
    ensures Delivered(s, p, b, linkUp) == BufferOwnership.Exec(s, DeliverySteps(s.gateway, p, linkUp))
  {
    var f := NewWrapper(s.heap, Some(b));
    var s1 := AfterWrap(s, p, b);
    var s2 := AfterEnqueue(s1, p, f, linkUp);
    var last := if s.gateway then [Clear(p)] + [Release(p)] else [];
    assert HandOf(s1.hands, p) == Framed(f);
    StepThen(s, Wrap(p), [Enqueue(p, linkUp)] + last);
    StepThen(s1, Enqueue(p, linkUp), last);
    if s.gateway {
      assert HandOf(s2.hands, p) == Passed(f);
      StepThen(s2, Clear(p), [Release(p)]);
      StepThen(AfterClear(s2, p, f), Release(p), []);
      assert [Release(p)] + [] == [Release(p)];
    }
  }

  lemma StepThen(s: Node, step: BufferOwnership.Step, steps: seq<BufferOwnership.Step>)
    ensures BufferOwnership.Exec(s, [step] + steps) == BufferOwnership.Exec(BufferOwnership.Apply(s, step), steps)
  {
    assert ([step] + steps)[1..] == steps;
  }
}
