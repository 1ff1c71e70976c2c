/**
 The uplink queues of main/gateway_uplink.cpp with their real fields, their
 callers and their tasks, one loop iteration at a time, proved to take the steps
 of Uplinks.
 */
module UplinkTasks {
  import opened Words
  import opened Config
  import opened ChainSpec
  import opened Uplinks
  import opened UdpChunks

  /** A reading queued for the backend. */
  datatype StatusItem = StatusItem(nodeId: uint8, stream: uint8, occupied: uint8, plate: string)

  class UplinkQueue<T> {
    const config: Settings
    var linkUp: bool
    var queue: seq<T>
    var hand: Hand<T>
    var counters: Counters
    ghost var log: Log<T>

    ghost function State(): Uplink<T>
      reads this
    {
      Uplink(queue, hand, counters, log)
    }

    constructor (config: Settings)
      ensures this.config == config && State() == Fresh() && !linkUp
    {
      this.config := config;
      linkUp, queue, hand, counters := false, [], Empty, Counters(0, 0, 0);
      log := Log([], [], [], []);
    }

    /** `flush` and `flushVideo`: never waits, drops what it cannot queue. */
    method Offer(x: T)
      modifies `queue, `counters, `log
      ensures State() == Flush(config, old(State()), x, linkUp)
    {
      log := log.(offered := log.offered + [x]);
      if (config.needsLink && !linkUp) || |queue| >= config.depth {
        counters := counters.(dropped := Inc(counters.dropped));
        log := log.(dropped := log.dropped + [x]);
      } else {
        queue := queue + [x];
        counters := counters.(queued := Inc(counters.queued));
        log := log.(accepted := log.accepted + [x]);
      }
    }

    /** The task's `xQueueReceive` and its look at the link; false if there is nothing to send. */
    method Next() returns (ready: bool)
      requires hand.Empty?
      modifies `queue, `hand, `counters, `log
      ensures State() == Check(Take(old(State())), linkUp)
      ensures ready <==> hand.Sending?
      ensures ready ==> old(queue) != [] && hand.item == old(queue)[0]
    {
      if queue == [] {
        return false;
      }
      var x := queue[0];
      queue, hand := queue[1..], Sending(x);
      ready := linkUp;
      if !linkUp {
        Discard();
      }
    }

    method Discard()
      requires !hand.Empty?
      modifies `hand, `counters, `log
      ensures State() == Drop(old(State()))
    {
      counters := counters.(dropped := Inc(counters.dropped));
      log := log.(dropped := log.dropped + [hand.item]);
      hand := Empty;
    }

    method Done(ok: bool)
      requires hand.Sending?
      modifies `hand, `counters, `log
      ensures State() == Finish(old(State()), ok)
    {
      if !ok {
        Discard();
        return;
      }
      counters := counters.(sent := Inc(counters.sent));
      log := log.(sent := log.sent + [hand.item]);
      hand := Empty;
    }
  }

  /**
   Before `init` there is no queue, and `flush` does nothing at all. Afterwards it
   offers the reading as it was read, the plate unchanged up to eleven characters.
   */
  method FlushStatus(uplink: UplinkQueue?<StatusItem>, nodeId: uint8, stream: uint8, occupied: uint8, plate: string)
    returns (ghost item: StatusItem)
    requires uplink != null ==> uplink.config == STATUS
    modifies if uplink == null then {} else {uplink}
    ensures uplink != null ==>
      && item.nodeId == nodeId && item.stream == stream && item.occupied == occupied
      && Abridges(item.plate, plate) && (|plate| <= MAX_PLATE_LEN ==> item.plate == plate)
      && uplink.State() == Flush(STATUS, old(uplink.State()), item, old(uplink.linkUp))
  {
    var queued := StatusItem(nodeId, stream, occupied, Truncated(plate));
    item := queued;
    TruncatedAbridges(plate);
    if uplink != null {
      uplink.Offer(queued);
    }
  }

  /**
   One round of `videoUplinkTask`: with a link, the first n chunks of the next
   frame go out, and the frame is counted as sent if that is all of them.
   */
  method VideoUplinkTurn(uplink: UplinkQueue<VideoItem>, sender: ChunkSender) returns (ok: bool, ghost n: nat)
    requires uplink.hand.Empty? && sender.Valid()
    requires forall x :: x in uplink.queue ==> ValidItem(x)
    modifies uplink, sender`results, sender`sent, sender.chunkBuf
    ensures uplink.State() == Finish(Check(Take(old(uplink.State())), old(uplink.linkUp)), ok)
    ensures if old(uplink.linkUp) && old(uplink.queue) != [] then
              && ValidItem(old(uplink.queue)[0]) && n <= ChunkCount(|old(uplink.queue)[0].data|)
              && (ok <==> n == ChunkCount(|old(uplink.queue)[0].data|))
              && sender.sent == old(sender.sent) + Wire(old(uplink.queue)[0], n)
              && (!ok ==> n == |old(sender.results)| || (n < |old(sender.results)| && !old(sender.results)[n]))
            else !ok && sender.sent == old(sender.sent)
  {
    var ready := uplink.Next();
    if !ready {
      return false, 0;
    }
    var item := uplink.hand.item;
    var sent, failed := sender.SendFrame(item);
    ok, n := !failed, sent;
    uplink.Done(ok);
  }
}
