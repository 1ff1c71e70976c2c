/**
 The periodic and the counting part of a node, over whole lives on a forward
 clock: when it broadcasts, when it makes a reading, when it warns, and what its
 counters of retransmissions and drops count.
 */
module NodeLife {
  import opened Words
  import opened Config
  import opened ChainSpec
  import opened Timers

  // Broadcasts.

  /** A HELLO leaves the node. */
  predicate Broadcasts(s: Node, e: Event) { e.Poll? && React(s, e).hello }

  lemma HelloStamps(s: Node, e: Event)
    ensures React(s, e).node.lastHelloMs == if Broadcasts(s, e) then NowMs(e.times.helloStamp) else s.lastHelloMs
  {
  }

  /**
   The last HELLO before event m was broadcast at true time `last`: by a pass, or,
   if no pass has broadcast any, before the first event.
   */
  ghost predicate LastHello(states: seq<Node>, events: seq<Event>, m: nat, last: nat)
    requires m <= |events| < |states|
    decreases m
  {
    if m == 0 then states[0].lastHelloMs == NowMs(last)
    else if Broadcasts(states[m - 1], events[m - 1]) then events[m - 1].times.helloStamp == last
    else LastHello(states, events, m - 1, last)
  }

  lemma {:induction false} HelloRemembered(states: seq<Node>, events: seq<Event>, m: nat, last: nat)
    requires IsLife(states, events) && m <= |events| && LastHello(states, events, m, last)
    ensures states[m].lastHelloMs == NowMs(last)
    decreases m
  {
    if m > 0 {
      assert Moves(states, events, m - 1);
      HelloStamps(states[m - 1], events[m - 1]);
      if !Broadcasts(states[m - 1], events[m - 1]) {
        HelloRemembered(states, events, m - 1, last);
      }
    }
  }

  /**
   A pass broadcasts if and only if 500 ms of true time in discovery, or 5000 ms
   after it, have passed since the last HELLO, for every gap below 2^32 ms.
   */
  lemma HellosExactly(states: seq<Node>, events: seq<Event>, m: nat, last: nat)
    requires IsLife(states, events) && m < |events| && events[m].Poll? && LastHello(states, events, m, last)
    requires last <= events[m].times.helloCheck < last + TWO_TO_THE_32
    ensures Broadcasts(states[m], events[m]) <==>
      events[m].times.helloCheck - last
        >= if states[m].phase == Discovering then HELLO_INTERVAL_MS else HELLO_IDLE_INTERVAL_MS
  {
    HelloRemembered(states, events, m, last);
    IntervalTest(last, events[m].times.helloCheck, HELLO_INTERVAL_MS);
    IntervalTest(last, events[m].times.helloCheck, HELLO_IDLE_INTERVAL_MS);
  }

  // Readings.

  /** A sequence number is used up: the node makes a reading. */
  predicate Reads(s: Node, e: Event) { React(s, e).node.localSeq != s.localSeq }

  lemma ReadingStamps(s: Node, e: Event)
    ensures Reads(s, e) ==> e.Poll?
    ensures React(s, e).node.lastLocalMs == if Reads(s, e) then NowMs(e.times.localStamp) else s.lastLocalMs
    ensures Reads(s, e) <==> e.Poll? && LocalDue(s, ClockOf(e.times))
  {
    SeqMoves(s.localSeq);
  }

  lemma SeqMoves(x: uint16)
    ensures Wrap16(x + 1) != x
  {
  }

  /** The last reading before event m was made at true time `last`; before the first the clock counts from power-up. */
  ghost predicate LastReading(states: seq<Node>, events: seq<Event>, m: nat, last: nat)
    requires m <= |events| < |states|
    decreases m
  {
    if m == 0 then states[0].lastLocalMs == NowMs(last)
    else if Reads(states[m - 1], events[m - 1]) && events[m - 1].Poll? then events[m - 1].times.localStamp == last
    else LastReading(states, events, m - 1, last)
  }

  lemma {:induction false} ReadingRemembered(states: seq<Node>, events: seq<Event>, m: nat, last: nat)
    requires IsLife(states, events) && m <= |events| && LastReading(states, events, m, last)
    ensures states[m].lastLocalMs == NowMs(last)
    decreases m
  {
    if m > 0 {
      assert Moves(states, events, m - 1);
      ReadingStamps(states[m - 1], events[m - 1]);
      if !Reads(states[m - 1], events[m - 1]) {
        ReadingRemembered(states, events, m - 1, last);
      }
    }
  }

  /**
   A pass of a node past discovery, Gateway or relay, makes a reading if and only if
   2000 ms of true time have passed since the last one, for every gap below 2^32 ms;
   in discovery it makes none.
   */
  lemma ReadingsExactly(states: seq<Node>, events: seq<Event>, m: nat, last: nat)
    requires IsLife(states, events) && m < |events| && events[m].Poll? && LastReading(states, events, m, last)
    requires last <= events[m].times.localCheck < last + TWO_TO_THE_32
    ensures Reads(states[m], events[m]) <==>
      states[m].phase != Discovering && events[m].times.localCheck - last >= STATUS_LOCAL_INTERVAL_MS
  {
    ReadingRemembered(states, events, m, last);
    ReadingStamps(states[m], events[m]);
    IntervalTest(last, events[m].times.localCheck, STATUS_LOCAL_INTERVAL_MS);
  }

  /** At boot: a HELLO has just gone out, and nothing else has happened since power-up. */
  lemma {:induction false} FromBoot(states: seq<Node>, events: seq<Event>, i: nat, n: nat, boot: nat)
    requires i < n <= MAX_CHAIN_NODES && |states| == |events| + 1 && states[0] == Init(i, n, NowMs(boot))
    ensures LastHello(states, events, 0, boot) && LastReading(states, events, 0, 0)
    ensures states[0].lastRetryWarnMs == NowMs(0) && states[0].phase == Discovering
    ensures states[0].stats.retx == 0 && states[0].stats.queueDrops == 0
  {
    Remainder(0, 0, TWO_TO_THE_32);
  }

  // Retransmissions.

  /** A copy of the packet in the slot is sent. */
  predicate Resends(s: Node, e: Event) { Sends(s, e) && s.phase == Forwarding }

  /** How many of the first m events are of a kind. */
  function Count(states: seq<Node>, events: seq<Event>, kind: (Node, Event) -> bool, m: nat): nat
    requires m <= |events| < |states|
  {
    if m == 0 then 0
    else Count(states, events, kind, m - 1) + if kind(states[m - 1], events[m - 1]) then 1 else 0
  }

  /** How often the packet in the slot has been sent again so far. */
  function Copies(states: seq<Node>, events: seq<Event>, m: nat): nat
    requires m <= |events| < |states|
  {
    if m == 0 || !(states[m - 1].phase == Forwarding) then 0
    else Copies(states, events, m - 1) + if Sends(states[m - 1], events[m - 1]) then 1 else 0
  }

  lemma RetxStep(s: Node, e: Event)
    ensures React(s, e).node.stats.retx == if Resends(s, e) then Wrap32(s.stats.retx + 1) else s.stats.retx
  {
  }

  lemma CopyStep(s: Node, e: Event)
    requires React(s, e).node.phase == Forwarding
    ensures React(s, e).node.retryCount ==
      if Resends(s, e) then (s.retryCount + 1) % 0x100 else if s.phase == Forwarding then s.retryCount else 0
  {
  }

  /** What a counter that moves with a kind of event counts. */
  lemma Counted(states: seq<Node>, events: seq<Event>, kind: (Node, Event) -> bool, m: nat,
                before: uint32, after: uint32)
    requires 0 < m <= |events| < |states| && before == Wrap32(Count(states, events, kind, m - 1))
    requires after == if kind(states[m - 1], events[m - 1]) then Wrap32(before + 1) else before
    ensures after == Wrap32(Count(states, events, kind, m))
  {
    Wrap32Succ(Count(states, events, kind, m - 1));
  }

  /** The counter of retransmissions counts them all. */
  lemma {:induction false} RetriesCounted(states: seq<Node>, events: seq<Event>, m: nat)
    requires IsLife(states, events) && m <= |events| && states[0].stats.retx == 0
    ensures states[m].stats.retx == Wrap32(Count(states, events, Resends, m))
    decreases m
  {
    if m > 0 {
      assert Moves(states, events, m - 1);
      RetriesCounted(states, events, m - 1);
      RetxStep(states[m - 1], events[m - 1]);
      Counted(states, events, Resends, m, states[m - 1].stats.retx, states[m].stats.retx);
    } else {
      Remainder(0, 0, TWO_TO_THE_32);
    }
  }

  /** The retry count is that of the packet in the slot. */
  lemma {:induction false} CopiesCounted(states: seq<Node>, events: seq<Event>, m: nat)
    requires IsLife(states, events) && m <= |events| && states[0].phase != Forwarding
    ensures states[m].phase == Forwarding ==> states[m].retryCount == Copies(states, events, m) % 0x100
    decreases m
  {
    if m > 0 && states[m].phase == Forwarding {
      assert Moves(states, events, m - 1);
      CopiesCounted(states, events, m - 1);
      CopyStep(states[m - 1], events[m - 1]);
      Succ256(Copies(states, events, m - 1));
    }
  }

  lemma Succ256(n: nat)
    ensures (n % 0x100 + 1) % 0x100 == (n + 1) % 0x100
  {
  }

  // Warnings about them.

  /** The sixth copy of a packet or a later one goes out, and the last warning is 5000 ms ago. */
  predicate Warns(states: seq<Node>, events: seq<Event>, m: nat, last: nat)
    requires m < |events| < |states|
  {
    && events[m].Poll? && Resends(states[m], events[m])
    && (Copies(states, events, m) + 1) % 0x100 > MAX_RETRANSMIT
    && events[m].times.warnCheck - last >= RETRY_WARN_MS
  }

  /**
   Warnings: the stamp of the last one moves exactly when the sixth or a later copy
   of a packet goes out (counting modulo 256) and the last is 5000 ms ago.
   */
  lemma WarningsExactly(states: seq<Node>, events: seq<Event>, m: nat, last: nat)
    requires IsLife(states, events) && m < |events| && states[m].lastRetryWarnMs == NowMs(last)
    requires states[0].phase != Forwarding
    requires events[m].Poll? ==> last <= events[m].times.warnCheck < last + TWO_TO_THE_32
    ensures states[m + 1].lastRetryWarnMs ==
      if Warns(states, events, m, last) then NowMs(events[m].times.warnStamp) else NowMs(last)
  {
    assert Moves(states, events, m);
    CopiesCounted(states, events, m);
    WarnStep(states[m], events[m], Copies(states, events, m), last);
  }

  lemma WarnStep(s: Node, e: Event, copies: nat, last: nat)
    requires s.lastRetryWarnMs == NowMs(last) && (s.phase == Forwarding ==> s.retryCount == copies % 0x100)
    requires e.Poll? ==> last <= e.times.warnCheck < last + TWO_TO_THE_32
    ensures React(s, e).node.lastRetryWarnMs ==
      if e.Poll? && Resends(s, e) && (copies + 1) % 0x100 > MAX_RETRANSMIT && e.times.warnCheck - last >= RETRY_WARN_MS
      then NowMs(e.times.warnStamp) else NowMs(last)
  {
    Succ256(copies);
    if e.Poll? {
      LoopWarns(s, ClockOf(e.times));
      IntervalTest(last, e.times.warnCheck, RETRY_WARN_MS);
    } else {
      OthersDoNotWarn(s, e);
    }
  }

  lemma LoopWarns(s: Node, clock: Clock)
    ensures var o := Loop(s, clock);
      var warns := s.phase == Forwarding && o.radio.SendStatus? && (s.retryCount + 1) % 0x100 > MAX_RETRANSMIT
        && Elapsed(clock.warnCheck, s.lastRetryWarnMs) >= RETRY_WARN_MS;
      o.node.lastRetryWarnMs == if warns then clock.warnStamp else s.lastRetryWarnMs
  {
  }

  lemma OthersDoNotWarn(s: Node, e: Event)
    requires !e.Poll?
    ensures React(s, e).node.lastRetryWarnMs == s.lastRetryWarnMs
  {
  }

  // Drops.

  /** A new packet of prev that finds eight in the queue of a relay. */
  predicate Refuses(s: Node, e: Event) {
    && e.HearStatus? && s.peers.prevKnown && e.mac == s.peers.prevMac
    && s.lastAccepted != Some(KeyOf(e.pkt)) && !s.role.isGateway && |s.queue| >= STATUS_QUEUE_DEPTH
  }

  /** A reading of a relay that finds eight in its queue. */
  predicate DropsReading(s: Node, e: Event) {
    Reads(s, e) && !s.role.isGateway && |s.queue| >= STATUS_QUEUE_DEPTH
  }

  predicate Drops(s: Node, e: Event) { Refuses(s, e) || DropsReading(s, e) }

  /** A new packet of prev that finds room, and a reading that does, are queued last; nothing else is. */
  lemma QueuedExactly(s: Node, e: Event)
    requires !s.role.isGateway && s.phase != Discovering
    ensures e.HearStatus? ==>
      React(s, e).node.queue ==
        if s.peers.prevKnown && e.mac == s.peers.prevMac && s.lastAccepted != Some(KeyOf(e.pkt))
           && |s.queue| < STATUS_QUEUE_DEPTH
        then s.queue + [e.pkt] else s.queue
    ensures e.Poll? ==>
      var q := if Reads(s, e) && |s.queue| < STATUS_QUEUE_DEPTH then s.queue + [Reading(s)] else s.queue;
      React(s, e).node.queue == if Sends(s, e) && s.phase != Forwarding then q[1..] else q
    ensures !e.HearStatus? && !e.Poll? ==> React(s, e).node.queue == s.queue
  {
    ReadingStamps(s, e);
  }

  lemma DropStep(s: Node, e: Event)
    ensures React(s, e).node.stats.queueDrops ==
      if Drops(s, e) then Wrap32(s.stats.queueDrops + 1) else s.stats.queueDrops
  {
    ReadingStamps(s, e);
  }

  /** The drop counter counts refused packets, which will be sent again, and dropped readings. */
  lemma {:induction false} DropsCounted(states: seq<Node>, events: seq<Event>, m: nat)
    requires IsLife(states, events) && m <= |events| && states[0].stats.queueDrops == 0
    ensures states[m].stats.queueDrops == Wrap32(Count(states, events, Drops, m))
    decreases m
  {
    if m > 0 {
      assert Moves(states, events, m - 1);
      DropsCounted(states, events, m - 1);
      DropStep(states[m - 1], events[m - 1]);
      Counted(states, events, Drops, m, states[m - 1].stats.queueDrops, states[m].stats.queueDrops);
    } else {
      Remainder(0, 0, TWO_TO_THE_32);
    }
  }
}
