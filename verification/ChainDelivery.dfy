/**
 What the chain delivers. For every run: the Gateway hands over the readings of
 each relay in order and never twice; each reading is at the Gateway, in a
 queue or slot, or was swallowed by a duplicate filter, and the last happens
 exactly when a key was started twice in a row.
 */
module ChainDelivery {
  import opened Words
  import opened ChainSpec
  import opened HopProtocol
  import opened ChainNet
  import opened NodeInvariant
  import opened ChainInvariant
  import opened Subsequence

  /** What node i holds that its next has not taken: the slot, then the queue. */
  function Held(net: Net, i: nat): seq<Packet>
    requires |net.nodes| == |net.links| == |net.hist| == |net.macs| && i < |net.macs|
  {
    (if Outstanding(HopOf(net, i)) then [net.nodes[i].pending] else []) + net.nodes[i].queue
  }

  /** The readings of origin j at the Gateway, then those held at node N-1, N-2, ..., i. */
  function Trace(net: Net, i: nat, j: nat): seq<Packet>
    requires |net.nodes| == |net.links| == |net.hist| == |net.macs| && 1 <= i <= |net.macs|
    decreases |net.macs| - i
  {
    if i == |net.macs| then FromOrigin(net.flushed, j)
    else Trace(net, i + 1, j) + FromOrigin(Held(net, i), j)
  }

  /** No node has ever started two packets with the same key in a row. */
  ghost predicate NoRepeats(net: Net)
    requires WellFormed(net)
  {
    forall i :: 1 <= i < |net.macs| ==> AdjacentDiffer(net.hist[i].started)
  }

  /** Every reading of every relay is at the Gateway or still held, once, in order. */
  ghost predicate ExactlyOnce(net: Net)
    requires WellFormed(net)
  {
    forall j :: 1 <= j < |net.macs| ==> Trace(net, j, j) == net.hist[j].local
  }

  lemma SlotExact(h: Hop)
    requires HopInv(h)
    ensures h.accepted + (if Outstanding(h) then [h.pending] else []) == DropRepeats(h.started)
  {
    if Outstanding(h) {
      var front := h.started[..|h.started| - 1];
      assert h.started == front + [h.pending];
      DropRepeatsLast(front);
      DropRepeatsAppend(front, h.pending);
    }
  }

  /** What next has taken plus what is held is what was queued, without the repeats. */
  lemma HopExact(net: Net, i: nat)
    requires Inv(net) && 1 <= i < |net.macs|
    ensures net.hist[NextOf(i, |net.macs|)].accepted + Held(net, i)
         == DropRepeats(net.hist[i].started) + net.nodes[i].queue
  {
    SlotThenQueue(HopOf(net, i), net.nodes[i].queue, Held(net, i));
  }

  lemma SlotThenQueue(h: Hop, queue: seq<Packet>, held: seq<Packet>)
    requires HopInv(h) && held == (if Outstanding(h) then [h.pending] else []) + queue
    ensures h.accepted + held == DropRepeats(h.started) + queue
  {
    SlotExact(h);
    var slot := if Outstanding(h) then [h.pending] else [];
    assert h.accepted + (slot + queue) == (h.accepted + slot) + queue;
  }

  /** What DropRepeats leaves out: every packet with the key of the one before it. */
  function Repeats(s: seq<Packet>): seq<Packet> {
    if |s| <= 1 then []
    else
      var p := s[|s| - 1];
      Repeats(s[..|s| - 1]) + if KeyOf(p) == KeyOf(s[|s| - 2]) then [p] else []
  }

  lemma {:induction false} RepeatsAreTheRest(s: seq<Packet>, j: nat)
    ensures multiset(FromOrigin(DropRepeats(s), j)) + multiset(FromOrigin(Repeats(s), j)) == multiset(FromOrigin(s, j))
  {
    if |s| <= 1 {
      assert FromOrigin(Repeats(s), j) == [];
    } else {
      var front, p := s[..|s| - 1], s[|s| - 1];
      RepeatsAreTheRest(front, j);
      RepeatsAppend(s);
      FromOriginAppend(DropRepeats(front), p, j);
      FromOriginAppend(Repeats(front), p, j);
      Distribute(FromOrigin(DropRepeats(front), j), FromOrigin(Repeats(front), j), FromOrigin(front, j),
                 if p.origin == j then [p] else []);
    }
  }

  lemma RepeatsAppend(s: seq<Packet>)
    requires |s| > 1
    ensures var front, p := s[..|s| - 1], s[|s| - 1];
      if KeyOf(p) == KeyOf(s[|s| - 2]) then DropRepeats(s) == DropRepeats(front) && Repeats(s) == Repeats(front) + [p]
      else DropRepeats(s) == DropRepeats(front) + [p] && Repeats(s) == Repeats(front)
  {
  }

  lemma Distribute(kept: seq<Packet>, rest: seq<Packet>, all: seq<Packet>, more: seq<Packet>)
    requires multiset(kept) + multiset(rest) == multiset(all)
    ensures multiset(kept + more) + multiset(rest) == multiset(all + more)
    ensures multiset(kept) + multiset(rest + more) == multiset(all + more)
  {
  }

  /** Readings of origin j that the node after i swallowed as repeats. */
  function Swallowed(net: Net, i: nat, j: nat): seq<Packet>
    requires i < |net.hist|
  {
    FromOrigin(Repeats(net.hist[i].started), j)
  }

  /** Those that any node after i, i + 1, ..., N - 1 swallowed. */
  function SwallowedFrom(net: Net, i: nat, j: nat): seq<Packet>
    requires |net.hist| == |net.macs| && 1 <= i <= |net.macs|
    decreases |net.macs| - i
  {
    if i == |net.macs| then [] else Swallowed(net, i, j) + SwallowedFrom(net, i + 1, j)
  }

  /** The queue log of the node after i holds, of any origin but its own, what it accepted. */
  lemma PassedOn(net: Net, i: nat, j: nat)
    requires Inv(net) && 1 <= j <= i < |net.macs|
    ensures var r := NextOf(i, |net.macs|);
      FromOrigin(net.hist[r].queued, j) == FromOrigin(net.hist[r].accepted, j)
  {
    var r := NextOf(i, |net.macs|);
    assert NodeInv(net.macs, r, net.nodes[r], net.hist[r]);
  }

  /** One hop, seen by origin: what the next node queued and what is held here. */
  ghost predicate Ledger(net: Net, i: nat, j: nat)
    requires |net.nodes| == |net.links| == |net.hist| == |net.macs| && 1 <= i < |net.macs|
  {
    && FromOrigin(net.hist[NextOf(i, |net.macs|)].queued, j) + FromOrigin(Held(net, i), j)
       == FromOrigin(DropRepeats(net.hist[i].started), j) + FromOrigin(net.nodes[i].queue, j)
    && FromOrigin(net.hist[i].queued, j)
       == FromOrigin(net.hist[i].started, j) + FromOrigin(net.nodes[i].queue, j)
  }

  lemma HopLedger(net: Net, i: nat, j: nat)
    requires Inv(net) && 1 <= j <= i < |net.macs|
    ensures Ledger(net, i, j)
  {
    var h, r := net.hist[i], NextOf(i, |net.macs|);
    assert NodeInv(net.macs, i, net.nodes[i], h);
    PassedOn(net, i, j);
    HopExact(net, i);
    OfConcat(net.hist[r].accepted, Held(net, i), OriginOf, j);
    OfConcat(DropRepeats(h.started), net.nodes[i].queue, OriginOf, j);
    OfConcat(h.started, net.nodes[i].queue, OriginOf, j);
  }

  /** The ledgers of all hops from node i on, and the Gateway's log. */
  ghost predicate Ledgers(net: Net, i: nat, j: nat)
    requires |net.nodes| == |net.links| == |net.hist| == |net.macs| && 1 <= i <= |net.macs|
  {
    net.flushed == net.hist[0].queued && forall k :: i <= k < |net.macs| ==> Ledger(net, k, j)
  }

  lemma AllLedgers(net: Net, j: nat)
    requires Inv(net) && 1 <= j <= |net.macs|
    ensures Ledgers(net, j, j)
  {
    forall k | j <= k < |net.macs|
      ensures Ledger(net, k, j)
    {
      HopLedger(net, k, j);
    }
  }

  ghost function Copies(s: seq<Packet>, p: Packet): nat { multiset(s)[p] }

  /** The copies of a reading that the node before i passed on: all are at the Gateway, held, or swallowed. */
  ghost predicate Balances(net: Net, i: nat, j: nat)
    requires |net.nodes| == |net.links| == |net.hist| == |net.macs| && 1 <= i <= |net.macs|
  {
    forall p :: Copies(Trace(net, i, j), p) + Copies(SwallowedFrom(net, i, j), p)
             == Copies(FromOrigin(net.hist[NextOf(i - 1, |net.macs|)].queued, j), p)
  }

  lemma {:induction false} AllBalances(net: Net, i: nat, j: nat)
    requires Inv(net) && 1 <= j <= i <= |net.macs|
    ensures Balances(net, i, j)
    decreases |net.macs| - i
  {
    if i == |net.macs| {
      NothingAfterGateway(net, i, j);
    } else {
      AllBalances(net, i + 1, j);
      HopBalances(net, i, j);
    }
  }

  lemma NothingAfterGateway(net: Net, i: nat, j: nat)
    requires Inv(net) && 1 <= j <= i == |net.macs|
    ensures Balances(net, i, j)
  {
    AllLedgers(net, j);
    assert NextOf(i - 1, i) == 0;
  }

  lemma HopBalances(net: Net, i: nat, j: nat)
    requires Inv(net) && 1 <= j <= i < |net.macs| && Balances(net, i + 1, j)
    ensures Balances(net, i, j)
  {
    HopLedger(net, i, j);
    forall p
      ensures Copies(Trace(net, i, j), p) + Copies(SwallowedFrom(net, i, j), p)
           == Copies(FromOrigin(net.hist[NextOf(i - 1, |net.macs|)].queued, j), p)
    {
      assert Copies(Trace(net, i + 1, j), p) + Copies(SwallowedFrom(net, i + 1, j), p)
          == Copies(FromOrigin(net.hist[NextOf(i, |net.macs|)].queued, j), p);
      LedgerBalances(net, i, j, p);
    }
  }

  lemma LedgerBalances(net: Net, i: nat, j: nat, p: Packet)
    requires |net.nodes| == |net.links| == |net.hist| == |net.macs| && 1 <= i < |net.macs|
    requires Ledger(net, i, j)
    requires Copies(Trace(net, i + 1, j), p) + Copies(SwallowedFrom(net, i + 1, j), p)
          == Copies(FromOrigin(net.hist[NextOf(i, |net.macs|)].queued, j), p)
    ensures Copies(Trace(net, i, j), p) + Copies(SwallowedFrom(net, i, j), p)
         == Copies(FromOrigin(net.hist[i].queued, j), p)
  {
    RepeatsAreTheRest(net.hist[i].started, j);
    var passed, held := FromOrigin(net.hist[NextOf(i, |net.macs|)].queued, j), FromOrigin(Held(net, i), j);
    var kept, queue := FromOrigin(DropRepeats(net.hist[i].started), j), FromOrigin(net.nodes[i].queue, j);
    assert multiset(passed + held)[p] == multiset(kept + queue)[p];
  }

  /**
   Conservation, with no assumption on the run: of the readings that found room
   at their origin each one is at the Gateway, held on the way, or swallowed by
   the node after one that started its key twice in a row, and in one place only.
   */
  lemma Conservation(boot: Net, steps: seq<Step>, j: nat)
    requires JustBooted(boot) && IsRun(boot, steps) && 1 <= j < |boot.macs|
    ensures var net := Exec(boot, steps);
      multiset(Trace(net, j, j)) + multiset(SwallowedFrom(net, j, j)) == multiset(net.hist[j].local)
  {
    Reachable(boot, steps);
    TraceBalances(Exec(boot, steps), j);
  }

  lemma TraceBalances(net: Net, j: nat)
    requires Inv(net) && 1 <= j < |net.macs|
    ensures multiset(Trace(net, j, j)) + multiset(SwallowedFrom(net, j, j)) == multiset(net.hist[j].local)
  {
    AllBalances(net, j, j);
    QueuedOwn(net, j);
    SameCopies(Trace(net, j, j), SwallowedFrom(net, j, j), net.hist[j].local);
  }

  lemma QueuedOwn(net: Net, j: nat)
    requires Inv(net) && 1 <= j < |net.macs|
    ensures FromOrigin(net.hist[NextOf(j - 1, |net.macs|)].queued, j) == net.hist[j].local
  {
    assert NextOf(j - 1, |net.macs|) == j;
    assert NodeInv(net.macs, j, net.nodes[j], net.hist[j]);
  }

  lemma SameCopies(a: seq<Packet>, b: seq<Packet>, c: seq<Packet>)
    requires forall p :: Copies(a, p) + Copies(b, p) == Copies(c, p)
    ensures multiset(a) + multiset(b) == multiset(c)
  {
    forall p: Packet
      ensures (multiset(a) + multiset(b))[p] == multiset(c)[p]
    {
      assert Copies(a, p) + Copies(b, p) == Copies(c, p);
    }
  }

  /** A repeat is a loss for the origin that repeats. */
  lemma {:induction false} RepeatIsLost(s: seq<Packet>, k: nat)
    requires k < |s| - 1 && KeyOf(s[k]) == KeyOf(s[k + 1])
    ensures FromOrigin(Repeats(s), s[k + 1].origin) != []
  {
    var front, p := s[..|s| - 1], s[|s| - 1];
    var j := s[k + 1].origin;
    if k + 1 < |s| - 1 {
      RepeatIsLost(front, k);
    }
    RepeatsAppend(s);
    FromOriginAppend(Repeats(front), p, j);
  }

  lemma {:induction false} SwallowedSomewhere(net: Net, i: nat, j: nat, at: nat)
    requires WellFormed(net) && 1 <= i <= at < |net.macs| && Swallowed(net, at, j) != []
    ensures SwallowedFrom(net, i, j) != []
    decreases |net.macs| - i
  {
    if i < at {
      SwallowedSomewhere(net, i + 1, j, at);
    }
  }

  /** With no repeats, the trace from node i on is exactly what node i queued. */
  lemma {:induction false} TraceExact(net: Net, i: nat, j: nat)
    requires |net.nodes| == |net.links| == |net.hist| == |net.macs| && 1 <= i < |net.macs|
    requires Ledgers(net, i, j)
    requires forall k :: i <= k < |net.macs| ==> AdjacentDiffer(net.hist[k].started)
    ensures Trace(net, i, j) == FromOrigin(net.hist[i].queued, j)
    decreases |net.macs| - i
  {
    if i + 1 < |net.macs| {
      TraceExact(net, i + 1, j);
    }
    assert Ledger(net, i, j);
    DropRepeatsExact(net.hist[i].started);
  }

  /**
   Exactly-once, in-order delivery, and exactly when it holds: for every run
   from boot, whatever is lost, resent, refused or delayed, every reading that
   found room at its origin is at the Gateway or held on the way, once and in
   order, if and only if no node started the same key twice in a row.
   */
  lemma DeliveredExactlyOnce(boot: Net, steps: seq<Step>)
    requires JustBooted(boot) && IsRun(boot, steps)
    ensures var net := Exec(boot, steps);
      ExactlyOnce(net) <==> NoRepeats(net)
  {
    var net := Exec(boot, steps);
    Reachable(boot, steps);
    ExactlyOnceIff(net);
  }

  lemma ExactlyOnceIff(net: Net)
    requires Inv(net)
    ensures ExactlyOnce(net) <==> NoRepeats(net)
  {
    if NoRepeats(net) {
      forall j | 1 <= j < |net.macs|
        ensures Trace(net, j, j) == net.hist[j].local
      {
        assert NodeInv(net.macs, j, net.nodes[j], net.hist[j]);
        AllLedgers(net, j);
        TraceExact(net, j, j);
      }
    } else {
      var i, k := FindRepeat(net);
      var j := net.hist[i].started[k + 1].origin;
      assert NodeInv(net.macs, i, net.nodes[i], net.hist[i]);
      assert net.hist[i].queued[k + 1] == net.hist[i].started[k + 1];
      RepeatIsLost(net.hist[i].started, k);
      SwallowedSomewhere(net, j, j, i);
      TraceBalances(net, j);
    }
  }

  lemma FindRepeat(net: Net) returns (i: nat, k: nat)
    requires WellFormed(net) && !NoRepeats(net)
    ensures 1 <= i < |net.macs| && k < |net.hist[i].started| - 1
    ensures KeyOf(net.hist[i].started[k]) == KeyOf(net.hist[i].started[k + 1])
  {
    i :| 1 <= i < |net.macs| && !AdjacentDiffer(net.hist[i].started);
    var s := net.hist[i].started;
    k :| 0 <= k < |s| - 1 && KeyOf(s[k]) == KeyOf(s[k + 1]);
  }

  // Never twice, never out of order, in every run.

  lemma {:induction false} DropRepeatsSub(s: seq<Packet>)
    ensures Sub(DropRepeats(s), s)
  {
    if |s| <= 1 {
      SubRefl(s);
    } else {
      var front, p := s[..|s| - 1], s[|s| - 1];
      DropRepeatsSub(front);
      assert s == front + [p];
      DropRepeatsAppend(front, p);
      if LastKey(front) == Some(KeyOf(p)) {
        SubExtend(DropRepeats(front), front, [p]);
      } else {
        SubAppend(DropRepeats(front), front, [p]);
      }
    }
  }

  lemma AcceptedSub(net: Net, i: nat)
    requires Inv(net) && 1 <= i < |net.macs|
    ensures Sub(net.hist[NextOf(i, |net.macs|)].accepted, net.hist[i].queued)
  {
    var h := HopOf(net, i);
    var s := if Outstanding(h) then h.started[..|h.started| - 1] else h.started;
    assert HopInv(h) && NodeInv(net.macs, i, net.nodes[i], net.hist[i]);
    DropRepeatsSub(s);
    assert net.hist[i].queued == s + net.hist[i].queued[|s|..];
    SubExtend(h.accepted, s, net.hist[i].queued[|s|..]);
  }

  lemma QueuedSub(net: Net, i: nat, j: nat)
    requires Inv(net) && 1 <= j <= i < |net.macs|
    ensures Sub(FromOrigin(net.hist[NextOf(i, |net.macs|)].queued, j), FromOrigin(net.hist[i].queued, j))
  {
    AcceptedSub(net, i);
    PassedOn(net, i, j);
    SubOf(net.hist[NextOf(i, |net.macs|)].accepted, net.hist[i].queued, OriginOf, j);
  }

  ghost predicate SubHop(net: Net, i: nat, j: nat)
    requires |net.hist| == |net.macs| && 1 <= i < |net.macs|
  {
    Sub(FromOrigin(net.hist[NextOf(i, |net.macs|)].queued, j), FromOrigin(net.hist[i].queued, j))
  }

  lemma {:induction false} FlushedSub(net: Net, i: nat, j: nat)
    requires |net.hist| == |net.macs| && 1 <= i < |net.macs| && net.flushed == net.hist[0].queued
    requires forall k :: i <= k < |net.macs| ==> SubHop(net, k, j)
    ensures Sub(FromOrigin(net.flushed, j), FromOrigin(net.hist[i].queued, j))
    decreases |net.macs| - i
  {
    assert SubHop(net, i, j);
    if i + 1 < |net.macs| {
      FlushedSub(net, i + 1, j);
      SubTrans(FromOrigin(net.flushed, j), FromOrigin(net.hist[i + 1].queued, j), FromOrigin(net.hist[i].queued, j));
    }
  }

  /** In every run the Gateway hands over a subsequence of what each relay read: no copy, no swap. */
  lemma NeverTwice(net: Net, steps: seq<Step>, j: nat)
    requires Inv(net) && IsRun(net, steps) && 1 <= j < |net.macs|
    ensures var net' := Exec(net, steps);
      Sub(FromOrigin(net'.flushed, j), net'.hist[j].local)
  {
    RunKeepsInv(net, steps);
    var net' := Exec(net, steps);
    assert NodeInv(net'.macs, j, net'.nodes[j], net'.hist[j]);
    forall k | j <= k < |net'.macs|
      ensures SubHop(net', k, j)
    {
      QueuedSub(net', k, j);
    }
    FlushedSub(net', j, j);
  }
}
