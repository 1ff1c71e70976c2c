/**
 What the receive loop of the video server (main/video_relay.cpp) makes of the
 bytes of one connection, for every way the stack may split them over `recv`
 calls and for failures at any call: exactly what Framing makes of them, as long
 as nothing comes through after a call that failed.
 */
module VideoStream {
  import opened Words
  import opened Framing

  const DRAIN_SCRATCH_BYTES := 256

  /** What a run of calls takes: how many bytes, which results are left, and whether it completed. */
  datatype Taken = Taken(count: nat, results: seq<int>, ok: bool)

  /**
   What one `recv` for up to `len` bytes returns when `avail` bytes are still to
   come, or one `send` of as many: a positive result is the most that it returns,
   any other is a failure.
   */
  function CallResult(results: seq<int>, len: nat, avail: nat): (n: nat)
    ensures n <= len && n <= avail && (n > 0 ==> results != [])
  {
    if results == [] || results[0] <= 0 then 0 else Min(results[0], Min(len, avail))
  }

  function Later(results: seq<int>): seq<int> { if results == [] then [] else results[1..] }

  /** Some bytes taken, and then what further calls take. */
  function Plus(n: nat, t: Taken): Taken { Taken(n + t.count, t.results, t.ok) }

  /** `recvAll`, call by call. */
  function Take(avail: nat, results: seq<int>, len: nat): (t: Taken)
    ensures t.count <= len && t.count <= avail
    ensures t.ok <==> t.count == len
    ensures |t.results| <= |results|
    ensures t.ok && len > 0 ==> |t.results| < |results|
    decreases |results|
  {
    if len == 0 then Taken(0, results, true)
    else if results == [] then Taken(0, results, false)
    else if results[0] <= 0 || avail == 0 then Taken(0, results[1..], false)
    else
      var n := Min(results[0], Min(len, avail));
      var t := Take(avail - n, results[1..], len - n);
      Taken(n + t.count, t.results, t.ok)
  }

  /** The payload of a frame without a buffer, read off the socket in pieces of 256 bytes. */
  function Drain(avail: nat, results: seq<int>, remaining: nat): (t: Taken)
    ensures t.count <= remaining && t.count <= avail
    ensures t.ok <==> t.count == remaining
    ensures |t.results| <= |results|
    decreases remaining
  {
    if remaining == 0 then Taken(0, results, true)
    else
      var chunk := Min(remaining, DRAIN_SCRATCH_BYTES);
      var t := Take(avail, results, chunk);
      if !t.ok then t
      else
        var u := Drain(avail - chunk, t.results, remaining - chunk);
        Taken(chunk + u.count, u.results, u.ok)
  }

  /** What one turn of the receive loop does: it ends, skips a heartbeat, drops a frame, or has one. */
  datatype Turn =
    | Ended(read: nat)
    | Beat(read: nat, results: seq<int>)
    | Dropped(read: nat, results: seq<int>, drained: bool)
    | Whole(read: nat, results: seq<int>, frame: Frame)

  function ReadItem(bytes: Bytes, results: seq<int>, hasBuffer: bool): (t: Turn)
    ensures t.read <= |bytes|
    ensures !t.Ended? ==> |t.results| < |results|
  {
    var t := Take(|bytes|, results, HEADER_BYTES);
    if !t.ok then Ended(t.count)
    else
      var h, rest := DecodeHeader(bytes[..HEADER_BYTES]), bytes[HEADER_BYTES..];
      if IsHeartbeat(h) then Beat(HEADER_BYTES, t.results)
      else if IsBad(h) then Ended(HEADER_BYTES)
      else if !hasBuffer then
        var d := Drain(|rest|, t.results, h.dataLen);
        Dropped(HEADER_BYTES + d.count, d.results, d.ok)
      else
        var p := Take(|rest|, t.results, h.dataLen);
        if !p.ok then Ended(HEADER_BYTES + p.count)
        else Whole(HEADER_BYTES + h.dataLen, p.results, Frame(h.origin, h.stream, h.seqNo, rest[..h.dataLen]))
  }

  /** What the receive loop of one connection yields, reads and drops, and whether a drain was cut short. */
  datatype Served = Served(frames: seq<Frame>, read: nat, dropped: nat, drainFailed: bool)

  /** A turn, and what the connection yields after it. */
  function Join(t: Turn, rest: Served): Served {
    Served((if t.Whole? then [t.frame] else []) + rest.frames, t.read + rest.read,
           (if t.Dropped? then 1 else 0) + rest.dropped, (t.Dropped? && !t.drained) || rest.drainFailed)
  }

  function Serve(bytes: Bytes, results: seq<int>, alloc: nat -> bool, k: nat): (s: Served)
    ensures s.read <= |bytes|
    decreases |results|
  {
    var t := ReadItem(bytes, results, alloc(k));
    if t.Ended? then Served([], t.read, 0, false)
    else Join(t, Serve(bytes[t.read..], t.results, alloc, if t.Beat? then k else k + 1))
  }

  /** A turn that fits the header it read. */
  predicate Fits(bytes: Bytes, hasBuffer: bool, h: FrameHeader, t: Turn)
    requires HEADER_BYTES <= |bytes| && t.read <= |bytes|
  {
    if IsHeartbeat(h) then t.Beat? && t.read == HEADER_BYTES
    else if IsBad(h) then t == Ended(HEADER_BYTES)
    else if t.Ended? then hasBuffer && t.read < HEADER_BYTES + h.dataLen
    else if t.Whole? then
      && hasBuffer && t.read == HEADER_BYTES + h.dataLen
      && t.frame == Frame(h.origin, h.stream, h.seqNo, bytes[HEADER_BYTES..][..h.dataLen])
    else t.Dropped? && !hasBuffer && (t.drained <==> t.read == HEADER_BYTES + h.dataLen)
  }

  lemma TurnFits(bytes: Bytes, results: seq<int>, hasBuffer: bool)
    requires Take(|bytes|, results, HEADER_BYTES).ok
    ensures Fits(bytes, hasBuffer, DecodeHeader(bytes[..HEADER_BYTES]), ReadItem(bytes, results, hasBuffer))
  {
  }

  /** What e bytes decode to, by their header, given what they decode to after a heartbeat and after a frame. */
  function ByHeader(bytes: Bytes, e: nat, h: FrameHeader, hasBuffer: bool, afterBeat: seq<Frame>,
                    afterFrame: seq<Frame>): seq<Frame>
    requires HEADER_BYTES <= e <= |bytes|
  {
    if IsHeartbeat(h) then afterBeat
    else if IsBad(h) || e < HEADER_BYTES + h.dataLen then []
    else (if hasBuffer then [Frame(h.origin, h.stream, h.seqNo, bytes[HEADER_BYTES..][..h.dataLen])] else [])
         + afterFrame
  }

  lemma FitByHeader(bytes: Bytes, e: nat, h: FrameHeader, hasBuffer: bool, t: Turn,
                    afterBeat: seq<Frame>, afterFrame: seq<Frame>)
    requires HEADER_BYTES <= e <= |bytes| && t.read <= e && Fits(bytes, hasBuffer, h, t)
    requires (t.Ended? ==> e == t.read) && (t.Dropped? ==> t.drained)
    ensures ByHeader(bytes, e, h, hasBuffer, afterBeat, afterFrame) ==
      if t.Ended? then []
      else (if t.Whole? then [t.frame] else []) + (if t.Beat? then afterBeat else afterFrame)
    ensures !t.Ended? ==> t.read == if t.Beat? then HEADER_BYTES else HEADER_BYTES + h.dataLen
  {
  }

  /** The first e bytes decode to what their header announces, if it is all there. */
  lemma DecodeByHeader(bytes: Bytes, e: nat, h: FrameHeader, alloc: nat -> bool, k: nat)
    requires HEADER_BYTES <= e <= |bytes| && h == DecodeHeader(bytes[..HEADER_BYTES])
    ensures Decode(bytes[..e], alloc, k) ==
      ByHeader(bytes, e, h, alloc(k), Decode(bytes[HEADER_BYTES..e], alloc, k),
               if HEADER_BYTES + h.dataLen <= e then Decode(bytes[HEADER_BYTES + h.dataLen..e], alloc, k + 1) else [])
  {
    var header, body := bytes[..HEADER_BYTES], bytes[HEADER_BYTES..e];
    assert bytes[..e] == header + body;
    ParseAfterHeader(header, h, body);
    if h.dataLen <= |body| {
      assert body[..h.dataLen] == bytes[HEADER_BYTES..][..h.dataLen];
      assert body[h.dataLen..] == bytes[HEADER_BYTES + h.dataLen..e];
    }
  }

  /** One turn against the format: with e bytes in sight, at least what the turn has read. */
  lemma TurnDecodes(bytes: Bytes, results: seq<int>, alloc: nat -> bool, k: nat, e: nat)
    requires var t := ReadItem(bytes, results, alloc(k));
      t.read <= e <= |bytes| && (t.Ended? ==> e == t.read) && (t.Dropped? ==> t.drained)
    ensures var t := ReadItem(bytes, results, alloc(k));
      Decode(bytes[..e], alloc, k) ==
        if t.Ended? then []
        else (if t.Whole? then [t.frame] else [])
             + Decode(bytes[t.read..e], alloc, if t.Beat? then k else k + 1)
  {
    if Take(|bytes|, results, HEADER_BYTES).ok {
      TurnFits(bytes, results, alloc(k));
      var h, t := DecodeHeader(bytes[..HEADER_BYTES]), ReadItem(bytes, results, alloc(k));
      DecodeByHeader(bytes, e, h, alloc, k);
      var end := HEADER_BYTES + h.dataLen;
      FitByHeader(bytes, e, h, alloc(k), t, Decode(bytes[HEADER_BYTES..e], alloc, k),
                  if end <= e then Decode(bytes[end..e], alloc, k + 1) else []);
    }
  }

  /** The frames are what the bytes read so far decode to. */
  ghost predicate ServesDecoded(bytes: Bytes, results: seq<int>, alloc: nat -> bool, k: nat) {
    var s := Serve(bytes, results, alloc, k);
    s.frames == Decode(bytes[..s.read], alloc, k)
  }

  /** If they are after a turn that did not cut a drain short, they are before it. */
  lemma TurnServes(bytes: Bytes, results: seq<int>, alloc: nat -> bool, k: nat)
    requires var t := ReadItem(bytes, results, alloc(k));
      && !t.Ended? && (t.Dropped? ==> t.drained)
      && ServesDecoded(bytes[t.read..], t.results, alloc, if t.Beat? then k else k + 1)
    ensures ServesDecoded(bytes, results, alloc, k)
  {
    var s, t := Serve(bytes, results, alloc, k), ReadItem(bytes, results, alloc(k));
    TurnDecodes(bytes, results, alloc, k, s.read);
    Slice(bytes, t.read, s.read);
  }

  lemma Slice(s: Bytes, m: nat, n: nat)
    requires m <= n <= |s|
    ensures s[m..][..n - m] == s[m..n]
  {
  }

  lemma LastTurnServes(bytes: Bytes, results: seq<int>, alloc: nat -> bool, k: nat)
    requires ReadItem(bytes, results, alloc(k)).Ended?
    ensures ServesDecoded(bytes, results, alloc, k)
  {
    TurnDecodes(bytes, results, alloc, k, ReadItem(bytes, results, alloc(k)).read);
  }

  lemma {:induction false} UncutIsDecode(bytes: Bytes, results: seq<int>, alloc: nat -> bool, k: nat)
    requires !Serve(bytes, results, alloc, k).drainFailed
    ensures ServesDecoded(bytes, results, alloc, k)
    decreases |results|
  {
    var t := ReadItem(bytes, results, alloc(k));
    if t.Ended? {
      LastTurnServes(bytes, results, alloc, k);
    } else {
      UncutIsDecode(bytes[t.read..], t.results, alloc, if t.Beat? then k else k + 1);
      TurnServes(bytes, results, alloc, k);
    }
  }

  /** No call succeeds after a failed one: what a socket does once its connection is lost. */
  ghost predicate FailsForGood(results: seq<int>) {
    forall i, j :: 0 <= i < j < |results| && results[i] <= 0 ==> results[j] <= 0
  }

  /** Nothing more can be taken. */
  ghost predicate Spent(avail: nat, results: seq<int>) {
    avail == 0 || forall j :: 0 <= j < |results| ==> results[j] <= 0
  }

  lemma {:induction false} TakeLeaves(avail: nat, results: seq<int>, len: nat)
    requires FailsForGood(results)
    ensures var t := Take(avail, results, len);
      FailsForGood(t.results) && (!t.ok ==> Spent(avail - t.count, t.results))
    decreases |results|
  {
    if len > 0 && results != [] && results[0] > 0 && avail > 0 {
      var n := Min(results[0], Min(len, avail));
      TakeLeaves(avail - n, results[1..], len - n);
    }
  }

  lemma {:induction false} DrainLeaves(avail: nat, results: seq<int>, remaining: nat)
    requires FailsForGood(results)
    ensures var t := Drain(avail, results, remaining);
      FailsForGood(t.results) && (!t.ok ==> Spent(avail - t.count, t.results))
    decreases remaining
  {
    if remaining > 0 {
      var chunk := Min(remaining, DRAIN_SCRATCH_BYTES);
      TakeLeaves(avail, results, chunk);
      var t := Take(avail, results, chunk);
      if t.ok {
        DrainLeaves(avail - chunk, t.results, remaining - chunk);
      }
    }
  }

  /** When no call succeeds after a failed one, nothing is read after a drain that was cut short. */
  lemma TurnLeaves(bytes: Bytes, results: seq<int>, hasBuffer: bool)
    requires FailsForGood(results)
    ensures var t := ReadItem(bytes, results, hasBuffer);
      && (!t.Ended? ==> FailsForGood(t.results))
      && (t.Dropped? && !t.drained ==> Spent(|bytes| - t.read, t.results))
  {
    TakeLeaves(|bytes|, results, HEADER_BYTES);
    var t := Take(|bytes|, results, HEADER_BYTES);
    if t.ok {
      var h := DecodeHeader(bytes[..HEADER_BYTES]);
      TakeLeaves(|bytes| - HEADER_BYTES, t.results, h.dataLen);
      DrainLeaves(|bytes| - HEADER_BYTES, t.results, h.dataLen);
    }
  }

  lemma SpentServesNothing(bytes: Bytes, results: seq<int>, alloc: nat -> bool, k: nat)
    requires Spent(|bytes|, results)
    ensures var s := Serve(bytes, results, alloc, k); s.frames == [] && s.read == 0
  {
    assert Take(|bytes|, results, HEADER_BYTES).count == 0;
  }

  /** A frame of which the drain has read only a part decodes to nothing. */
  lemma CutTurnDecodes(bytes: Bytes, results: seq<int>, alloc: nat -> bool, k: nat)
    requires var t := ReadItem(bytes, results, alloc(k)); t.Dropped? && !t.drained
    ensures Decode(bytes[..ReadItem(bytes, results, alloc(k)).read], alloc, k) == []
  {
    TurnFits(bytes, results, alloc(k));
    var h, t := DecodeHeader(bytes[..HEADER_BYTES]), ReadItem(bytes, results, alloc(k));
    assert bytes[..t.read] == bytes[..HEADER_BYTES] + bytes[HEADER_BYTES..t.read];
    ParseAfterHeader(bytes[..HEADER_BYTES], h, bytes[HEADER_BYTES..t.read]);
  }

  lemma CutTurnServes(bytes: Bytes, results: seq<int>, alloc: nat -> bool, k: nat)
    requires FailsForGood(results)
    requires var t := ReadItem(bytes, results, alloc(k)); t.Dropped? && !t.drained
    ensures ServesDecoded(bytes, results, alloc, k)
  {
    var t := ReadItem(bytes, results, alloc(k));
    TurnLeaves(bytes, results, alloc(k));
    SpentServesNothing(bytes[t.read..], t.results, alloc, k + 1);
    CutTurnDecodes(bytes, results, alloc, k);
  }

  lemma {:induction false} LostIsDecode(bytes: Bytes, results: seq<int>, alloc: nat -> bool, k: nat)
    requires FailsForGood(results)
    ensures ServesDecoded(bytes, results, alloc, k)
    decreases |results|
  {
    var t := ReadItem(bytes, results, alloc(k));
    TurnLeaves(bytes, results, alloc(k));
    if t.Ended? {
      LastTurnServes(bytes, results, alloc, k);
    } else if t.Dropped? && !t.drained {
      CutTurnServes(bytes, results, alloc, k);
    } else {
      LostIsDecode(bytes[t.read..], t.results, alloc, if t.Beat? then k else k + 1);
      TurnServes(bytes, results, alloc, k);
    }
  }

  lemma {:induction false} NeverDrains(bytes: Bytes, results: seq<int>, alloc: nat -> bool, k: nat)
    requires forall i :: alloc(i)
    ensures !Serve(bytes, results, alloc, k).drainFailed
    decreases |results|
  {
    var t := ReadItem(bytes, results, alloc(k));
    if !t.Ended? {
      NeverDrains(bytes[t.read..], t.results, alloc, if t.Beat? then k else k + 1);
    }
  }

  /** The receive loop cannot lose the framing: each frame gets a buffer, or no call succeeds after a failed one. */
  ghost predicate StaysFramed(results: seq<int>, alloc: nat -> bool) {
    (forall i :: alloc(i)) || FailsForGood(results)
  }

  /**
   Fragmentation does not matter: the frames are what the bytes read so far
   decode to, however they came in and wherever the connection was lost.
   */
  lemma ServeIsDecode(bytes: Bytes, results: seq<int>, alloc: nat -> bool, k: nat)
    requires StaysFramed(results, alloc)
    ensures var s := Serve(bytes, results, alloc, k);
      s.frames == Decode(bytes[..s.read], alloc, k)
  {
    if FailsForGood(results) {
      LostIsDecode(bytes, results, alloc, k);
    } else {
      NeverDrains(bytes, results, alloc, k);
      UncutIsDecode(bytes, results, alloc, k);
    }
  }

  /**
   One connection end to end: the client wrote the first `sent` items whole and
   `part` bytes of the next, `n` of these bytes arrive, and the server reads them
   in pieces. It hands on a prefix of what it could hold of the items sent whole.
   */
  lemma ConnectionDelivers(items: seq<Item>, sent: nat, part: nat, n: nat, results: seq<int>, alloc: nat -> bool)
    requires ValidItems(items) && sent <= |items| && StaysFramed(results, alloc)
    requires part == 0 || (sent < |items| && part < |Encode(items[sent])|)
    requires n <= |EncodeAll(items[..sent]) + (if part == 0 then [] else Encode(items[sent])[..part])|
    ensures var written := EncodeAll(items[..sent]) + (if part == 0 then [] else Encode(items[sent])[..part]);
      Serve(written[..n], results, alloc, 0).frames <= Kept(items[..sent], alloc, 0)
  {
    var tail := if part == 0 then [] else Encode(items[sent])[..part];
    var written := EncodeAll(items[..sent]) + tail;
    var s := Serve(written[..n], results, alloc, 0);
    ServeIsDecode(written[..n], results, alloc, 0);
    assert written[..n][..s.read] == written[..s.read];
    PrefixDecodes(items[..sent], tail, if part == 0 then Heartbeat else items[sent], s.read, alloc);
  }

  /** Any prefix of whole items and a piece of another decodes to a prefix of the frames. */
  lemma PrefixDecodes(items: seq<Item>, tail: Bytes, next: Item, n: nat, alloc: nat -> bool)
    requires ValidItems(items) && (next.Video? ==> ValidFrame(next.frame))
    requires |tail| < |Encode(next)| && tail == Encode(next)[..|tail|]
    requires n <= |EncodeAll(items) + tail|
    ensures Decode((EncodeAll(items) + tail)[..n], alloc, 0) <= Kept(items, alloc, 0)
  {
    var whole := EncodeAll(items);
    if n <= |whole| {
      assert (whole + tail)[..n] == whole[..n];
      CutConnection(items, n, alloc);
    } else {
      var cut := n - |whole|;
      assert tail[..cut] == Encode(next)[..cut];
      assert (whole + tail)[..n] == whole + Encode(next)[..cut];
      ParseCut(next, cut);
      DecodeEncoded(items, Encode(next)[..cut], alloc, 0);
    }
  }
}
