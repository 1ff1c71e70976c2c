/**
 One hop of the chain seen on its own: the sender's slot, the receiver's
 duplicate filter, and the two lossy FIFO channels between them. Everything a
 node can do to a hop is one of the actions below, and each keeps `HopInv`,
 which says that the receiver has accepted exactly what the sender started,
 up to the packet in the slot and up to repeated keys.
 */
module HopProtocol {
  import opened Words
  import opened ChainSpec

  /** Keeps the first packet of every run of consecutive packets with the same key. */
  function DropRepeats(s: seq<Packet>): seq<Packet> {
    if |s| <= 1 then s
    else
      var front := DropRepeats(s[..|s| - 1]);
      if KeyOf(s[|s| - 1]) == KeyOf(s[|s| - 2]) then front else front + [s[|s| - 1]]
  }

  /** No two consecutive packets share a key. */
  ghost predicate AdjacentDiffer(s: seq<Packet>) {
    forall k :: 0 <= k < |s| - 1 ==> KeyOf(s[k]) != KeyOf(s[k + 1])
  }

  function LastKey(s: seq<Packet>): Option<Key> {
    if s == [] then None else Some(KeyOf(s[|s| - 1]))
  }

  function PreviousKey(s: seq<Packet>): Option<Key> {
    if |s| < 2 then None else Some(KeyOf(s[|s| - 2]))
  }

  lemma {:induction false} DropRepeatsLast(s: seq<Packet>)
    ensures LastKey(DropRepeats(s)) == LastKey(s)
    ensures |DropRepeats(s)| <= |s|
  {
    if |s| > 1 {
      DropRepeatsLast(s[..|s| - 1]);
    }
  }

  lemma DropRepeatsAppend(s: seq<Packet>, p: Packet)
    ensures DropRepeats(s + [p]) == if LastKey(s) == Some(KeyOf(p)) then DropRepeats(s) else DropRepeats(s) + [p]
  {
    assert (s + [p])[..|s|] == s;
  }

  /** Nothing is dropped exactly when no key is repeated back to back. */
  lemma {:induction false} DropRepeatsExact(s: seq<Packet>)
    ensures DropRepeats(s) == s <==> AdjacentDiffer(s)
    ensures |DropRepeats(s)| == |s| <==> AdjacentDiffer(s)
  {
    if |s| > 1 {
      var front := s[..|s| - 1];
      DropRepeatsExact(front);
      DropRepeatsLast(front);
      assert s == front + [s[|s| - 1]];
      assert AdjacentDiffer(s) <==> AdjacentDiffer(front) && KeyOf(s[|s| - 1]) != KeyOf(s[|s| - 2]) by {
        assert forall k :: 0 <= k < |front| ==> front[k] == s[k];
        if AdjacentDiffer(s) {
          assert KeyOf(s[|s| - 2]) != KeyOf(s[|s| - 2 + 1]);
        }
      }
    }
  }

  /**
   `forwarding`, `pending`, `started`: the sender's slot and the log of packets
   ever put in it. `last`, `accepted`: the receiver's filter and the log of
   packets it took. `data`, `acks`: what is in flight, head received first.
   */
  datatype Hop = Hop(forwarding: bool, pending: Packet, started: seq<Packet>,
                     last: Option<Key>, accepted: seq<Packet>,
                     data: seq<Packet>, acks: seq<Key>)

  /** The receiver would take `p` for a retransmission. */
  predicate Known(h: Hop, p: Packet) {
    h.last == Some(KeyOf(p))
  }

  /** The packet in the slot is still to be accepted downstream. */
  predicate Outstanding(h: Hop) {
    h.forwarding && !Known(h, h.pending)
  }

  /** What the receiver must have taken by now. */
  function Delivered(h: Hop): seq<Packet>
    requires h.forwarding ==> h.started != []
  {
    DropRepeats(if Outstanding(h) then h.started[..|h.started| - 1] else h.started)
  }

  ghost predicate LogsAgree(h: Hop) {
    && (h.forwarding ==> h.started != [] && h.started[|h.started| - 1] == h.pending)
    && h.last == LastKey(h.accepted)
    && h.accepted == Delivered(h)
  }

  /** Copies of packets already taken come first, then copies of the outstanding one. */
  ghost predicate DataInOrder(h: Hop) {
    && (forall x :: 0 <= x < |h.data| ==> Known(h, h.data[x]) || (h.forwarding && h.data[x] == h.pending))
    && (forall x, y :: 0 <= x < y < |h.data| && !Known(h, h.data[x]) ==> !Known(h, h.data[y]))
  }

  /** Stale ACKs come first; an ACK for the slot exists only if the packet was taken. */
  ghost predicate AcksInOrder(h: Hop) {
    if h.forwarding && Known(h, h.pending) then
      && (forall x :: 0 <= x < |h.acks| ==> Some(h.acks[x]) == h.last || Some(h.acks[x]) == PreviousKey(h.accepted))
      && (forall x, y :: 0 <= x < y < |h.acks| && Some(h.acks[x]) == h.last ==> Some(h.acks[y]) == h.last)
    else
      forall x :: 0 <= x < |h.acks| ==> Some(h.acks[x]) == h.last
  }

  ghost predicate HopInv(h: Hop) {
    LogsAgree(h) && DataInOrder(h) && AcksInOrder(h)
  }

  function Without<T>(s: seq<T>, k: nat): seq<T>
    requires k < |s|
  {
    s[..k] + s[k + 1..]
  }

  // The sender's actions.

  lemma Start(h: Hop, p: Packet)
    requires HopInv(h) && !h.forwarding
    ensures HopInv(h.(forwarding := true, pending := p, started := h.started + [p], data := h.data + [p]))
  {
    var h' := h.(forwarding := true, pending := p, started := h.started + [p], data := h.data + [p]);
    DropRepeatsLast(h.started);
    DropRepeatsAppend(h.started, p);
    assert h'.started[..|h'.started| - 1] == h.started;
  }

  lemma Resend(h: Hop)
    requires HopInv(h) && h.forwarding
    ensures HopInv(h.(data := h.data + [h.pending]))
  {
  }

  /**
   An ACK frees the slot only if the receiver has taken a packet with its key last,
   and that is the packet in the slot unless a key was started twice in a row.
   */
  lemma Freed(h: Hop)
    requires HopInv(h) && h.forwarding && h.acks != [] && h.acks[0] == KeyOf(h.pending)
    ensures !Outstanding(h) && h.accepted == DropRepeats(h.started) && LastKey(h.accepted) == Some(KeyOf(h.pending))
    ensures AdjacentDiffer(h.started) ==> h.accepted != [] && h.accepted[|h.accepted| - 1] == h.pending
    ensures HopInv(h.(forwarding := false, acks := h.acks[1..]))
  {
    DropRepeatsExact(h.started);
  }

  lemma StaleAck(h: Hop)
    requires HopInv(h) && h.acks != []
    ensures HopInv(h.(acks := h.acks[1..]))
  {
  }

  // The receiver's actions on the frame at the head of the channel.

  function Accepted(h: Hop): Hop
    requires h.data != []
  {
    h.(data := h.data[1..], last := Some(KeyOf(h.data[0])),
       accepted := h.accepted + [h.data[0]], acks := h.acks + [KeyOf(h.data[0])])
  }

  lemma AcceptLogs(h: Hop)
    requires LogsAgree(h) && h.data != [] && h.forwarding && h.data[0] == h.pending && !Known(h, h.pending)
    ensures LogsAgree(Accepted(h))
  {
    var p := h.data[0];
    var front := h.started[..|h.started| - 1];
    assert h.started == front + [p];
    DropRepeatsLast(front);
    DropRepeatsAppend(front, p);
  }

  lemma AcceptAcks(h: Hop)
    requires HopInv(h) && h.data != [] && h.forwarding && h.data[0] == h.pending && !Known(h, h.pending)
    ensures AcksInOrder(Accepted(h))
  {
    var h' := Accepted(h);
    assert h.last == PreviousKey(h'.accepted);
  }

  lemma Accept(h: Hop)
    requires HopInv(h) && h.data != [] && !Known(h, h.data[0])
    ensures h.forwarding && h.data[0] == h.pending
    ensures HopInv(Accepted(h))
  {
    AcceptLogs(h);
    AcceptAcks(h);
  }

  lemma Reack(h: Hop)
    requires HopInv(h) && h.data != [] && Known(h, h.data[0])
    ensures HopInv(h.(data := h.data[1..], acks := h.acks + [KeyOf(h.data[0])]))
  {
  }

  lemma LoseData(h: Hop, k: nat)
    requires HopInv(h) && k < |h.data|
    ensures HopInv(h.(data := Without(h.data, k)))
  {
  }

  lemma LoseAck(h: Hop, k: nat)
    requires HopInv(h) && k < |h.acks|
    ensures HopInv(h.(acks := Without(h.acks, k)))
  {
  }

  /**
   The hop as a reliable FIFO: the receiver's log is the sender's log, without its
   last entry while that is outstanding, exactly if no key is started twice in a row.
   */
  lemma ReliableFifo(h: Hop)
    requires HopInv(h)
    ensures (h.accepted == if Outstanding(h) then h.started[..|h.started| - 1] else h.started)
      <==> AdjacentDiffer(h.started)
    ensures AdjacentDiffer(h.accepted)
  {
    DropRepeatsExact(h.started);
    var s := if Outstanding(h) then h.started[..|h.started| - 1] else h.started;
    DropRepeatsExact(s);
    DropRepeatsNoRepeats(s);
    DropRepeatsLast(s);
    if Outstanding(h) {
      assert h.started == s + [h.pending];
      OneMoreDiffers(s, h.pending);
    }
  }

  lemma OneMoreDiffers(s: seq<Packet>, p: Packet)
    requires LastKey(s) != Some(KeyOf(p))
    ensures AdjacentDiffer(s + [p]) <==> AdjacentDiffer(s)
  {
    var t := s + [p];
    assert forall k :: 0 <= k < |s| ==> t[k] == s[k];
    if AdjacentDiffer(t) {
      forall k | 0 <= k < |s| - 1
        ensures KeyOf(s[k]) != KeyOf(s[k + 1])
      {
        assert KeyOf(t[k]) != KeyOf(t[k + 1]);
      }
    }
  }

  lemma {:induction false} DropRepeatsNoRepeats(s: seq<Packet>)
    ensures AdjacentDiffer(DropRepeats(s))
  {
    if |s| > 1 {
      DropRepeatsNoRepeats(s[..|s| - 1]);
      DropRepeatsLast(s[..|s| - 1]);
    }
  }

  /**
   At most two keys are alive on a hop: data frames are copies of the packet
   in the slot or repeat the key taken last; ACKs name one of the last two
   packets taken, and the older of the two only while the slot holds the newer.
   */
  lemma TwoAlive(h: Hop)
    requires HopInv(h)
    ensures forall x :: 0 <= x < |h.data| ==> Some(KeyOf(h.data[x])) == h.last || h.data[x] == h.pending
    ensures forall x :: 0 <= x < |h.acks| ==>
      Some(h.acks[x]) == LastKey(h.accepted) || Some(h.acks[x]) == PreviousKey(h.accepted)
    ensures forall x :: 0 <= x < |h.acks| && Some(h.acks[x]) != LastKey(h.accepted) ==>
      h.forwarding && Known(h, h.pending) && h.acks[x] != KeyOf(h.pending)
  {
  }
}
