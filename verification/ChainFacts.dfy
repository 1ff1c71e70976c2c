/**
 What the invariant says about single nodes in every reachable state: when a key
 can repeat at all, what the counters amount to, how much a node and the chain
 can hold, and whom a node takes for its neighbours.
 */
module ChainFacts {
  import opened Words
  import opened Config
  import opened ChainSpec
  import opened HopProtocol
  import opened ChainNet
  import opened NodeInvariant
  import opened ChainInvariant
  import opened ChainDelivery

  // Repeated keys.

  lemma {:induction false} FromOriginAt(s: seq<Packet>, j: nat, k: nat)
    requires k < |s| && s[k].origin == j
    ensures |FromOrigin(s[..k], j)| < |FromOrigin(s, j)|
    ensures FromOrigin(s, j)[|FromOrigin(s[..k], j)|] == s[k]
  {
    if k < |s| - 1 {
      assert s[..|s| - 1][..k] == s[..k];
      FromOriginAt(s[..|s| - 1], j, k);
    }
  }

  /** Where in node i's own readings the queue entry k is. */
  function LocalIndex(h: History, i: nat, k: nat): nat
    requires k < |h.queued|
  {
    |FromOrigin(h.queued[..k], i)|
  }

  /** Queue entries k and k + 1 are own readings, a multiple of 65536 ticks apart. */
  predicate WrapsAround(i: nat, h: History, k: nat)
    requires k < |h.queued| - 1
  {
    var m := LocalIndex(h, i, k);
    && BothLocal(i, h.queued[k], h.queued[k + 1]) && m + 1 < |h.localTicks|
    && (h.localTicks[m + 1] - h.localTicks[m]) % TWO_TO_THE_16 == 0
  }

  lemma LocalPair(net: Net, i: nat, k: nat)
    requires Inv(net) && 1 <= i < |net.macs|
    requires var q := net.hist[i].queued; k < |q| - 1 && BothLocal(i, q[k], q[k + 1])
    ensures var h, m := net.hist[i], LocalIndex(net.hist[i], i, k);
      m + 1 < |h.local| && h.local[m] == h.queued[k] && h.local[m + 1] == h.queued[k + 1]
  {
    var h := net.hist[i];
    assert NodeInv(net.macs, i, net.nodes[i], h);
    assert FromOrigin(h.queued, i) == h.local;
    FromOriginAt(h.queued, i, k);
    FromOriginAt(h.queued, i, k + 1);
    assert h.queued[..k + 1] == h.queued[..k] + [h.queued[k]];
    FromOriginAppend(h.queued[..k], h.queued[k], i);
  }

  /**
   The only keys that ever repeat back to back in a node's queue are those of two
   of its own readings with nothing relayed in between and a multiple of 65536
   ticks apart, that is, with 65535, or 131071, ... dropped readings between them.
   */
  lemma RepeatIff(net: Net, i: nat, k: nat)
    requires Inv(net) && 1 <= i < |net.macs| && k < |net.hist[i].queued| - 1
    ensures var q := net.hist[i].queued;
      KeyOf(q[k]) == KeyOf(q[k + 1]) <==> WrapsAround(i, net.hist[i], k)
  {
    var h, m := net.hist[i], LocalIndex(net.hist[i], i, k);
    assert NodeInv(net.macs, i, net.nodes[i], h);
    if BothLocal(i, h.queued[k], h.queued[k + 1]) {
      LocalPair(net, i, k);
      assert h.localTicks[m] < h.localTicks[m + 1];
      SameRemainder(h.localTicks[m + 1], h.localTicks[m], TWO_TO_THE_16);
    }
  }

  /** No relay has started two such readings one right after the other. */
  ghost predicate NoWrapAround(net: Net)
    requires WellFormed(net)
  {
    forall i :: 1 <= i < |net.macs| ==> NeverWraps(i, net.hist[i])
  }

  ghost predicate NeverWraps(i: nat, h: History) {
    forall k :: 0 <= k < |h.started| - 1 && k < |h.queued| - 1 ==> !WrapsAround(i, h, k)
  }

  lemma StartedWraps(net: Net, i: nat, k: nat)
    requires Inv(net) && 1 <= i < |net.macs| && k < |net.hist[i].started| - 1
    ensures k < |net.hist[i].queued| - 1
    ensures KeyOf(net.hist[i].started[k]) == KeyOf(net.hist[i].started[k + 1]) <==> WrapsAround(i, net.hist[i], k)
  {
    var h := net.hist[i];
    assert LogsOk(|net.macs|, i, net.nodes[i], h) by {
      assert NodeInv(net.macs, i, net.nodes[i], h);
    }
    assert h.started[k] == h.queued[k] && h.started[k + 1] == h.queued[k + 1];
    RepeatIff(net, i, k);
  }

  lemma RepeatsAreWraps(net: Net, i: nat)
    requires Inv(net) && 1 <= i < |net.macs|
    ensures AdjacentDiffer(net.hist[i].started) <==> NeverWraps(i, net.hist[i])
  {
    var h := net.hist[i];
    if NeverWraps(i, h) {
      forall k | 0 <= k < |h.started| - 1 ensures KeyOf(h.started[k]) != KeyOf(h.started[k + 1]) {
        StartedWraps(net, i, k);
      }
    } else {
      var k :| 0 <= k < |h.started| - 1 && k < |h.queued| - 1 && WrapsAround(i, h, k);
      StartedWraps(net, i, k);
    }
  }

  /**
   Exactly-once, in-order delivery in terms of what a relay read and when: for
   every run from boot it holds if and only if no relay sent two of its own
   readings back to back between which it had dropped 65535, or 131071, ... .
   */
  lemma DeliveredUnlessWrapped(boot: Net, steps: seq<Step>)
    requires JustBooted(boot) && IsRun(boot, steps)
    ensures var net := Exec(boot, steps);
      ExactlyOnce(net) <==> NoWrapAround(net)
  {
    Reachable(boot, steps);
    var net := Exec(boot, steps);
    ExactlyOnceIff(net);
    forall i | 1 <= i < |net.macs|
      ensures AdjacentDiffer(net.hist[i].started) <==> NeverWraps(i, net.hist[i])
    {
      RepeatsAreWraps(net, i);
    }
  }

  /** Between two readings that found room, fewer than 65535 in a row did not. */
  ghost predicate FewDropsInARow(net: Net)
    requires WellFormed(net)
  {
    forall i, m :: 1 <= i < |net.macs| && 0 <= m < |net.hist[i].localTicks| - 1 ==>
      net.hist[i].localTicks[m + 1] <= net.hist[i].localTicks[m] + 0xFFFF
  }

  /** Exactly-once delivery for every run without 65535 dropped readings in a row. */
  lemma FewDropsExactlyOnce(net: Net, steps: seq<Step>)
    requires Inv(net) && IsRun(net, steps) && FewDropsInARow(Exec(net, steps))
    ensures NoRepeats(Exec(net, steps)) && ExactlyOnce(Exec(net, steps))
  {
    RunKeepsInv(net, steps);
    var net' := Exec(net, steps);
    forall i | 1 <= i < |net'.macs|
      ensures AdjacentDiffer(net'.hist[i].started)
    {
      StartedDiffer(net', i);
    }
    ExactlyOnceIff(net');
  }

  lemma QueuedDiffer(net: Net, i: nat, k: nat)
    requires Inv(net) && FewDropsInARow(net) && 1 <= i < |net.macs| && k < |net.hist[i].queued| - 1
    ensures KeyOf(net.hist[i].queued[k]) != KeyOf(net.hist[i].queued[k + 1])
  {
    var h, m := net.hist[i], LocalIndex(net.hist[i], i, k);
    RepeatIff(net, i, k);
    if m + 1 < |h.localTicks| {
      assert NodeInv(net.macs, i, net.nodes[i], h);
      assert h.localTicks[m] < h.localTicks[m + 1];
      SmallGap(h.localTicks[m + 1] - h.localTicks[m]);
    }
  }

  lemma SmallGap(d: int)
    requires 0 < d <= 0xFFFF
    ensures d % TWO_TO_THE_16 != 0
  {
    Remainder(d, 0, TWO_TO_THE_16);
  }

  lemma StartedDiffer(net: Net, i: nat)
    requires Inv(net) && FewDropsInARow(net) && 1 <= i < |net.macs|
    ensures AdjacentDiffer(net.hist[i].started)
  {
    var h := net.hist[i];
    assert LogsOk(|net.macs|, i, net.nodes[i], h) by {
      assert NodeInv(net.macs, i, net.nodes[i], h);
    }
    forall k | 0 <= k < |h.started| - 1
      ensures KeyOf(h.started[k]) != KeyOf(h.started[k + 1])
    {
      QueuedDiffer(net, i, k);
      assert h.started[k] == h.queued[k] && h.started[k + 1] == h.queued[k + 1];
    }
  }

  // Numbering.

  /** The lane and the sequence number of a reading identify it among 196608 consecutive ones. */
  lemma TagIdentifies(p: Packet, q: Packet, m: nat, n: nat)
    requires Numbered(p, m) && Numbered(q, n)
    ensures (p.stream == q.stream && p.seqNo == q.seqNo) <==> (m - n) % 196608 == 0
  {
    SameRemainder(m, n, 3);
    SameRemainder(m, n, 65536);
    Coprime(m - n);
  }

  /** 3 and 65536 have no common factor. */
  lemma Coprime(d: int)
    ensures d % 3 == 0 && d % 65536 == 0 <==> d % 196608 == 0
  {
    if d % 196608 == 0 {
      var q := d / 196608;
      Remainder(d, 65536 * q, 3);
      Remainder(d, 3 * q, 65536);
    } else if d % 3 == 0 && d % 65536 == 0 {
      var a := d / 65536;
      ThirdOf(a);
      Remainder(d, a / 3, 196608);
    }
  }

  lemma ThirdOf(a: int)
    ensures (65536 * a) % 3 == a % 3
  {
    Remainder(65536 * a, 21845 * a + a / 3, 3);
  }

  /** Any three consecutive ticks read every lane exactly once. */
  lemma LanesRotate(p: Packet, q: Packet, r: Packet, t: nat)
    requires Numbered(p, t) && Numbered(q, t + 1) && Numbered(r, t + 2)
    ensures {p.stream, q.stream, r.stream} == {0, 1, 2}
  {
    assert t % 3 in {0, 1, 2};
  }

  // Accounting.

  function SlotSize(s: Node): nat {
    if s.phase == Forwarding then 1 else 0
  }

  /**
   What a relay has queued or accepted and next has not acknowledged is in its
   queue and slot, never more than nine packets; the counters agree modulo 2^32.
   */
  lemma RelayAccounting(net: Net, i: nat)
    requires Inv(net) && 1 <= i < |net.macs|
    ensures var s, h := net.nodes[i], net.hist[i];
      && |h.local| + |h.accepted| - Forwarded(s, h) == |s.queue| + SlotSize(s) <= STATUS_QUEUE_DEPTH + 1
      && Wrap32(|h.local| + s.stats.accepted - s.stats.forwarded) == |s.queue| + SlotSize(s)
  {
    var s, h := net.nodes[i], net.hist[i];
    assert NodeInv(net.macs, i, s, h);
    WrapBalance(|h.local|, |h.accepted|, Forwarded(s, h));
  }

  lemma WrapBalance(a: int, b: int, c: int)
    requires 0 <= a + b - c < TWO_TO_THE_32
    ensures Wrap32(a + Wrap32(b) - Wrap32(c)) == a + b - c
  {
    var q := b / TWO_TO_THE_32 - c / TWO_TO_THE_32;
    assert a + Wrap32(b) - Wrap32(c) == (a + b - c) - q * TWO_TO_THE_32;
    Remainder(a + Wrap32(b) - Wrap32(c), -q, TWO_TO_THE_32);
  }

  /** Everything the relays from node i on hold, acknowledged onward or not. */
  function Load(net: Net, i: nat): nat
    requires |net.nodes| == |net.macs| && 1 <= i <= |net.macs|
    decreases |net.macs| - i
  {
    if i == |net.macs| then 0 else |net.nodes[i].queue| + SlotSize(net.nodes[i]) + Load(net, i + 1)
  }

  lemma {:induction false} ChainCapacity(net: Net, i: nat)
    requires Inv(net) && 1 <= i <= |net.macs|
    ensures Load(net, i) <= (STATUS_QUEUE_DEPTH + 1) * (|net.macs| - i)
    decreases |net.macs| - i
  {
    if i < |net.macs| {
      RelayAccounting(net, i);
      ChainCapacity(net, i + 1);
    }
  }

  /** The Gateway hands over its own readings and what it accepts, and nothing else. */
  lemma GatewayAccounting(net: Net)
    requires Inv(net)
    ensures var s, h := net.nodes[0], net.hist[0];
      && |net.flushed| == h.ticks + |h.accepted|
      && s.stats.sunk == Wrap32(s.stats.local + s.stats.accepted) == Wrap32(|net.flushed|)
  {
    var s, h := net.nodes[0], net.hist[0];
    assert NodeInv(net.macs, 0, s, h);
    WrapSum(h.ticks, |h.accepted|, 0);
  }

  // Discovery.

  /** A node outside discovery knows its true neighbours, which know it in turn. */
  lemma KnowsNeighbours(net: Net, i: nat)
    requires Inv(net) && i < |net.macs| && net.nodes[i].phase != Discovering
    ensures var n, p := |net.macs|, net.nodes[i].peers;
      && 2 <= n
      && p.prevKnown && p.prevMac == net.macs[PrevOf(i, n)]
      && (i != 0 ==> p.nextKnown && p.nextMac == net.macs[NextOf(i, n)])
      && NextOf(PrevOf(i, n), n) == i && PrevOf(NextOf(i, n), n) == i
  {
    NeighboursAreInverse(i, |net.macs|);
    assert NodeInv(net.macs, i, net.nodes[i], net.hist[i]);
  }

  ghost predicate Remembers(net: Net, net': Net)
    requires |net.nodes| == |net'.nodes|
  {
    forall i :: 0 <= i < |net.nodes| ==>
      var p, p' := net.nodes[i].peers, net'.nodes[i].peers;
      && (p.nextKnown ==> p'.nextKnown && p'.nextMac == p.nextMac)
      && (p.prevKnown ==> p'.prevKnown && p'.prevMac == p.prevMac)
      && (net.nodes[i].phase != Discovering ==> net'.nodes[i].phase != Discovering)
  }

  lemma StepRemembers(net: Net, step: Step)
    requires WellFormed(net) && Enabled(net, step)
    ensures Remembers(net, Apply(net, step))
  {
    if step.Pass? {
      LoopRemembers(net.nodes[step.at], step.clock);
    }
  }

  lemma LoopRemembers(s: Node, clock: Clock)
    ensures var s' := Loop(s, clock).node;
      s'.peers == s.peers && (s.phase != Discovering ==> s'.phase != Discovering)
  {
  }

  /** A MAC once learned is never replaced, and discovery is never entered again. */
  lemma {:induction false} NeverForgets(net: Net, steps: seq<Step>)
    requires WellFormed(net) && IsRun(net, steps)
    ensures Remembers(net, Exec(net, steps))
    decreases |steps|
  {
    if steps != [] {
      StepRemembers(net, steps[0]);
      NeverForgets(Apply(net, steps[0]), steps[1..]);
    }
  }

  /** The Gateway sends no status frame to node 1, and no unicast frame goes astray. */
  lemma NothingAstray(net: Net, steps: seq<Step>)
    requires Inv(net) && IsRun(net, steps)
    ensures Exec(net, steps).links[0] == Link([], []) && Exec(net, steps).stray == []
  {
    RunKeepsInv(net, steps);
  }

  /** A chain of one node stays in discovery for ever. */
  lemma LoneNode(net: Net, steps: seq<Step>)
    requires Inv(net) && IsRun(net, steps) && |net.macs| == 1
    ensures Exec(net, steps).nodes[0].phase == Discovering
  {
    RunKeepsInv(net, steps);
    var net' := Exec(net, steps);
    assert NodeInv(net'.macs, 0, net'.nodes[0], net'.hist[0]);
  }
}
