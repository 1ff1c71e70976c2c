/**
 The node's 32-bit millisecond clock against true time. The interval tests
 subtract and are good for gaps below 2^32 ms; the ACK deadline is compared
 directly and is good exactly within one turn of the clock.
 */
module Timers {
  import opened Words
  import opened Config
  import opened ChainSpec

  /** What `nowMs` returns at true time t. */
  function NowMs(t: nat): uint32 { Wrap32(t) }

  lemma ElapsedIsGapModulo(last: nat, now: nat)
    requires last <= now
    ensures Elapsed(NowMs(now), NowMs(last)) == Wrap32(now - last)
  {
    SameRemainder(NowMs(now) - NowMs(last), now - last, TWO_TO_THE_32);
    var q := now / TWO_TO_THE_32 - last / TWO_TO_THE_32;
    assert (NowMs(now) - NowMs(last)) - (now - last) == -q * TWO_TO_THE_32;
    Remainder(-q * TWO_TO_THE_32, -q, TWO_TO_THE_32);
  }

  /**
   `now - last >= interval` on 32 bits says what it says in true time for every
   gap below 2^32 ms, and for longer gaps exactly when the remainder does too.
   */
  lemma IntervalTest(last: nat, now: nat, interval: uint32)
    requires last <= now
    ensures now - last < TWO_TO_THE_32 ==>
      (Elapsed(NowMs(now), NowMs(last)) >= interval <==> now - last >= interval)
    ensures now - last >= TWO_TO_THE_32 ==>
      (Elapsed(NowMs(now), NowMs(last)) >= interval <==> (now - last) % TWO_TO_THE_32 >= interval)
  {
    ElapsedIsGapModulo(last, now);
    if now - last < TWO_TO_THE_32 {
      Remainder(now - last, 0, TWO_TO_THE_32);
    }
  }

  /** The turn of the 32-bit clock that t lies in. */
  function Epoch(t: nat): nat { t / TWO_TO_THE_32 }

  /**
   `nowMs() >= g_ackDeadlineMs`, polled at `now` after the deadline was set at
   `armed`, is right if and only if poll and deadline lie in the same epoch. Else
   it fires at once before the clock turns over, or not for another 49 days after.
   */
  lemma DeadlineTest(armed: nat, now: nat)
    requires armed <= now < armed + ACK_TIMEOUT_MS + TWO_TO_THE_32
    ensures var deadline := armed + ACK_TIMEOUT_MS;
      (NowMs(now) >= Wrap32(NowMs(armed) + ACK_TIMEOUT_MS) <==> now >= deadline)
        <==> Epoch(now) == Epoch(deadline)
  {
    var deadline := armed + ACK_TIMEOUT_MS;
    assert Wrap32(NowMs(armed) + ACK_TIMEOUT_MS) == Wrap32(deadline) by {
      SameRemainder(NowMs(armed) + ACK_TIMEOUT_MS, deadline, TWO_TO_THE_32);
      var e: int := Epoch(armed);
      Remainder(-e * TWO_TO_THE_32, -e, TWO_TO_THE_32);
    }
    assert now == Epoch(now) * TWO_TO_THE_32 + Wrap32(now);
    assert deadline == Epoch(deadline) * TWO_TO_THE_32 + Wrap32(deadline);
  }

  /** The true times at which one pass of `loop` reads the clock, in the order of the readings. */
  datatype Times = Times(helloCheck: nat, helloStamp: nat, localCheck: nat, localStamp: nat,
                         ackCheck: nat, warnCheck: nat, warnStamp: nat, ackStamp: nat)

  predicate InOrder(t: Times) {
    t.helloCheck <= t.helloStamp <= t.localCheck <= t.localStamp
      <= t.ackCheck <= t.warnCheck <= t.warnStamp <= t.ackStamp
  }

  function ClockOf(t: Times): Clock {
    Clock(NowMs(t.helloCheck), NowMs(t.helloStamp), NowMs(t.localCheck), NowMs(t.localStamp),
          NowMs(t.ackCheck), NowMs(t.warnCheck), NowMs(t.warnStamp), NowMs(t.ackStamp))
  }

  /** The deadline of a node is the one set at true time `armed`. */
  predicate ArmedAt(s: Node, armed: nat) { s.ackDeadlineMs == Wrap32(NowMs(armed) + ACK_TIMEOUT_MS) }

  /**
   Once a waiting node's deadline is over in true time, a poll within the next
   2^32 ms sees it if and only if it lies in the epoch of the deadline. So a clock
   that turns over first silences the node for the rest of these 49 days.
   */
  lemma ExpiresExactly(s: Node, t: Times, armed: nat)
    requires s.phase == Forwarding && ArmedAt(s, armed)
    requires armed + ACK_TIMEOUT_MS <= t.ackCheck < armed + ACK_TIMEOUT_MS + TWO_TO_THE_32
    ensures RetransmitDue(s, ClockOf(t)) <==> Epoch(t.ackCheck) == Epoch(armed + ACK_TIMEOUT_MS)
  {
    DeadlineTest(armed, t.ackCheck);
  }

  /** The two tests of the node model are these. */
  lemma NodeTests(s: Node, t: Times, last: nat, armed: nat)
    requires s.lastLocalMs == NowMs(last) && ArmedAt(s, armed)
    requires last <= t.localCheck < last + TWO_TO_THE_32
    requires armed <= t.ackCheck < armed + ACK_TIMEOUT_MS + TWO_TO_THE_32
    ensures s.phase != Discovering ==> (LocalDue(s, ClockOf(t)) <==> t.localCheck - last >= STATUS_LOCAL_INTERVAL_MS)
    ensures s.phase == Forwarding && Epoch(t.ackCheck) == Epoch(armed + ACK_TIMEOUT_MS) ==>
      (RetransmitDue(s, ClockOf(t)) <==> t.ackCheck - armed >= ACK_TIMEOUT_MS)
  {
    IntervalTest(last, t.localCheck, STATUS_LOCAL_INTERVAL_MS);
    DeadlineTest(armed, t.ackCheck);
  }

  // The life of one node on a forward clock.

  /** What happens to a node: a pass of its loop, a frame received, a lane cached. */
  datatype Event =
    | Poll(times: Times)
    | HearHello(mac: Mac, hello: Hello)
    | HearStatus(mac: Mac, pkt: Packet)
    | HearAck(mac: Mac, key: Key)
    | CacheLane(stream: uint8, occupied: uint8, plate: string)

  function React(s: Node, e: Event): Outcome {
    match e
    case Poll(t) => Loop(s, ClockOf(t))
    case HearHello(mac, hello) => Outcome(HandleHello(s, mac, hello), Quiet, false, None)
    case HearStatus(mac, pkt) => HandleStatus(s, mac, pkt)
    case HearAck(mac, key) => Outcome(HandleAck(s, mac, key), Quiet, false, None)
    case CacheLane(stream, occupied, plate) => Outcome(SetLaneStatus(s, stream, occupied, plate), Quiet, false, None)
  }

  /** The states of a node: before each event, and after the last. */
  ghost predicate IsLife(states: seq<Node>, events: seq<Event>) {
    && |states| == |events| + 1
    && forall k {:trigger Moves(states, events, k)} :: 0 <= k < |events| ==> Moves(states, events, k)
  }

  predicate Moves(states: seq<Node>, events: seq<Event>, k: nat)
    requires k < |events| < |states|
  {
    states[k + 1] == React(states[k], events[k]).node
  }

  /** Every pass reads the clock in order, and after the passes before it. */
  ghost predicate Forward(events: seq<Event>) {
    && (forall k :: 0 <= k < |events| && events[k].Poll? ==> InOrder(events[k].times))
    && (forall k, m :: 0 <= k < m < |events| && events[k].Poll? && events[m].Poll? ==>
          events[k].times.ackStamp <= events[m].times.helloCheck)
  }

  /** The packet in the slot is sent. */
  predicate Sends(s: Node, e: Event) { e.Poll? && React(s, e).radio.SendStatus? }

  lemma OriginateKeepsSlot(s: Node, clock: Clock)
    ensures var s' := Originate(s, clock);
      s'.phase == s.phase && s'.ackDeadlineMs == s.ackDeadlineMs && s'.pending == s.pending
  {
  }

  /** Transmitting arms the deadline at the last clock reading of the pass. */
  lemma SendingArms(s: Node, e: Event)
    requires Sends(s, e)
    ensures ArmedAt(React(s, e).node, e.times.ackStamp)
    ensures React(s, e).radio.pkt == React(s, e).node.pending
    ensures s.phase == Forwarding ==> RetransmitDue(s, ClockOf(e.times)) && React(s, e).node.pending == s.pending
  {
    var clock := ClockOf(e.times);
    var s1 := if HelloDue(s, clock) then s.(lastHelloMs := clock.helloStamp) else s;
    OriginateKeepsSlot(s1, clock);
  }

  /** Nothing else moves it. */
  lemma SilentKeepsDeadline(s: Node, e: Event)
    requires !Sends(s, e)
    ensures React(s, e).node.ackDeadlineMs == s.ackDeadlineMs && React(s, e).node.pending == s.pending
  {
    if e.Poll? {
      var clock := ClockOf(e.times);
      var s1 := if HelloDue(s, clock) then s.(lastHelloMs := clock.helloStamp) else s;
      OriginateKeepsSlot(s1, clock);
    }
  }

  /** Events k and m send, and none between them. */
  ghost predicate Consecutive(states: seq<Node>, events: seq<Event>, k: nat, m: nat)
    requires k < m < |events| < |states|
  {
    && Sends(states[k], events[k]) && Sends(states[m], events[m])
    && forall i {:trigger Sends(states[i], events[i])} :: k < i < m ==> !Sends(states[i], events[i])
  }

  lemma {:induction false} StaysArmed(states: seq<Node>, events: seq<Event>, k: nat, m: nat)
    requires IsLife(states, events) && k < m <= |events| && Sends(states[k], events[k])
    requires forall i {:trigger Sends(states[i], events[i])} :: k < i < m ==> !Sends(states[i], events[i])
    ensures ArmedAt(states[m], events[k].times.ackStamp)
    ensures states[m].pending == React(states[k], events[k]).radio.pkt
    decreases m
  {
    assert Moves(states, events, m - 1);
    if m == k + 1 {
      SendingArms(states[k], events[k]);
    } else {
      StaysArmed(states, events, k, m - 1);
      assert !Sends(states[m - 1], events[m - 1]);
      SilentKeepsDeadline(states[m - 1], events[m - 1]);
    }
  }

  /**
   On every run of a node with a forward clock: two consecutive transmissions of
   a packet, from the reading that arms the deadline with the first to the one
   that finds it over for the second, are at least 300 ms apart if and only if
   that poll lies in the epoch of the deadline, or a whole epoch later.
   */
  lemma RetransmissionsAreSpaced(states: seq<Node>, events: seq<Event>, k: nat, m: nat)
    requires IsLife(states, events) && Forward(events) && k < m < |events|
    requires Consecutive(states, events, k, m) && states[m].phase == Forwarding
    ensures React(states[m], events[m]).radio.pkt == React(states[k], events[k]).radio.pkt
    ensures var armed, poll := events[k].times.ackStamp, events[m].times.ackCheck;
      armed <= poll &&
      (poll >= armed + ACK_TIMEOUT_MS <==>
        Epoch(poll) == Epoch(armed + ACK_TIMEOUT_MS) || poll >= armed + ACK_TIMEOUT_MS + TWO_TO_THE_32)
  {
    var armed, t := events[k].times.ackStamp, events[m].times;
    StaysArmed(states, events, k, m);
    SendingArms(states[m], events[m]);
    assert InOrder(events[m].times);
    if t.ackCheck < armed + ACK_TIMEOUT_MS + TWO_TO_THE_32 {
      DeadlineTest(armed, t.ackCheck);
    }
  }

  // When a pass tests the deadline, and when it arms it.

  function TestTime(e: Event): nat { if e.Poll? then e.times.ackCheck else 0 }

  function ArmTime(e: Event): nat { if e.Poll? then e.times.ackStamp else 0 }

  /** Event train[n] repeats the packet that event train[n - 1] has sent. */
  ghost predicate IsRepeat(states: seq<Node>, events: seq<Event>, train: seq<nat>, n: nat)
    requires 0 < n < |train|
  {
    && train[n - 1] < train[n] < |events| < |states|
    && Consecutive(states, events, train[n - 1], train[n])
    && states[train[n]].phase == Forwarding
  }

  /** And the poll lies in the epoch of the deadline. */
  ghost predicate IsTimely(events: seq<Event>, train: seq<nat>, n: nat)
    requires 0 < n < |train|
  {
    && train[n - 1] < |events| && train[n] < |events|
    && Epoch(TestTime(events[train[n]])) == Epoch(ArmTime(events[train[n - 1]]) + ACK_TIMEOUT_MS)
  }

  /** So retransmission n of a packet happens at least 300 n ms after its first transmission. */
  lemma {:induction false} SpacesAddUp(states: seq<Node>, events: seq<Event>, train: seq<nat>, n: nat)
    requires IsLife(states, events) && Forward(events) && 0 < n < |train|
    requires forall i {:trigger IsRepeat(states, events, train, i)} :: 0 < i <= n ==> IsRepeat(states, events, train, i)
    requires forall i {:trigger IsTimely(events, train, i)} :: 0 < i <= n ==> IsTimely(events, train, i)
    ensures train[0] < |events| && train[n] < |events|
    ensures TestTime(events[train[n]]) >= ArmTime(events[train[0]]) + ACK_TIMEOUT_MS * n
    decreases n
  {
    assert IsRepeat(states, events, train, n) && IsTimely(events, train, n);
    RetransmissionsAreSpaced(states, events, train[n - 1], train[n]);
    if n > 1 {
      SpacesAddUp(states, events, train, n - 1);
      ArmedAfterTest(events, train[n - 1]);
    }
  }

  lemma ArmedAfterTest(events: seq<Event>, k: nat)
    requires Forward(events) && k < |events|
    ensures TestTime(events[k]) <= ArmTime(events[k])
  {
    if events[k].Poll? {
      assert InOrder(events[k].times);
    }
  }
}
