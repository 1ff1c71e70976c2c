/**
 Only a failing call stops a connection of main/video_relay.cpp: as long as the
 calls bring or take at least a byte each, the client writes on and the server
 reads on, to the last byte.
 */
module VideoCalls {
  import opened Words
  import opened Framing
  import opened VideoStream
  import opened VideoConnection
  import opened VideoDelivery

  /** How many calls succeed before the first that fails. */
  function Good(results: seq<int>): nat {
    if results == [] || results[0] <= 0 then 0 else 1 + Good(results[1..])
  }

  lemma {:induction false} TakeGood(avail: nat, results: seq<int>, len: nat)
    ensures var t := Take(avail, results, len);
      if t.ok then Good(t.results) + t.count >= Good(results) else t.count >= Min(avail, Good(results))
    decreases |results|
  {
    if len > 0 && results != [] && results[0] > 0 && avail > 0 {
      var n := Min(results[0], Min(len, avail));
      TakeGood(avail - n, results[1..], len - n);
    }
  }

  lemma {:induction false} DrainGood(avail: nat, results: seq<int>, remaining: nat)
    ensures var t := Drain(avail, results, remaining);
      if t.ok then Good(t.results) + t.count >= Good(results) else t.count >= Min(avail, Good(results))
    decreases remaining
  {
    if remaining > 0 {
      var chunk := Min(remaining, DRAIN_SCRATCH_BYTES);
      var t := Take(avail, results, chunk);
      TakeGood(avail, results, chunk);
      if t.ok {
        DrainGood(avail - chunk, t.results, remaining - chunk);
      }
    }
  }

  // Writing.

  lemma ItemGood(item: Item, results: seq<int>)
    requires item.Video? ==> ValidFrame(item.frame)
    ensures var t := WriteItem(item, results);
      if t.ok then Good(t.results) + t.count >= Good(results) else t.count >= Good(results)
  {
    var t := Take(HEADER_BYTES, results, HEADER_BYTES);
    TakeGood(HEADER_BYTES, results, HEADER_BYTES);
    if t.ok && item.Video? {
      TakeGood(|item.frame.data|, t.results, |item.frame.data|);
    }
  }

  /** The bytes that went out. */
  function Out(items: seq<Item>, w: Written): nat
    requires ValidItems(items) && w.sent <= |items|
  {
    |EncodeAll(items[..w.sent])| + w.part
  }

  lemma OutFirst(items: seq<Item>, first: nat, rest: seq<Item>, w: Written, w': Written)
    requires ValidItems(items) && items != [] && rest == items[1..] && first == |Encode(items[0])|
    requires w'.sent <= |rest| && w.sent == 1 + w'.sent && w.part == w'.part
    ensures Out(items, w) == first + Out(rest, w') && |EncodeAll(items)| == first + |EncodeAll(rest)|
  {
    assert items[..w.sent][1..] == rest[..w'.sent];
    EncodeAllFirst(items[..w.sent]);
    EncodeAllFirst(items);
  }

  /** The send loop gives up at a failing call and nowhere else: every good call has put out a byte or more. */
  lemma {:induction false} WritesOn(items: seq<Item>, results: seq<int>)
    requires ValidItems(items)
    ensures var w := WriteItems(items, results);
      Out(items, w) >= if w.ok then |EncodeAll(items)| else Good(results)
  {
    if items != [] {
      var t := WriteItem(items[0], results);
      ItemGood(items[0], results);
      if t.ok {
        WritesOn(items[1..], t.results);
        OutFirst(items, t.count, items[1..], WriteItems(items, results), WriteItems(items[1..], t.results));
      }
    }
  }

  lemma WritesAll(items: seq<Item>, results: seq<int>)
    requires ValidItems(items) && Good(results) >= |EncodeAll(items)|
    ensures WriteItems(items, results).sent == |items|
  {
    WritesOn(items, results);
    var w := WriteItems(items, results);
    if !w.ok {
      StrictlyLess(items, w);
    }
  }

  lemma {:induction false} StrictlyLess(items: seq<Item>, w: Written)
    requires ValidItems(items) && w.sent < |items| && w.part < |Encode(items[w.sent])|
    ensures Out(items, w) < |EncodeAll(items)|
  {
    var front, back := items[..w.sent], items[w.sent..];
    assert items == front + back;
    EncodedLength(front, back);
    EncodeAllFirst(back);
  }

  lemma {:induction false} EncodedLength(a: seq<Item>, b: seq<Item>)
    requires ValidItems(a + b) && ValidItems(a) && ValidItems(b)
    ensures |EncodeAll(a + b)| == |EncodeAll(a)| + |EncodeAll(b)|
  {
    if a == [] {
      assert a + b == b;
    } else {
      assert (a + b)[1..] == a[1..] + b;
      EncodedLength(a[1..], b);
      EncodeAllFirst(a);
      EncodeAllFirst(a + b);
    }
  }

  // Reading.

  /** How far a turn gets: it ends at a bad header, or where the calls or the bytes do. */
  ghost predicate Gets(bytes: Bytes, results: seq<int>, t: Turn) {
    if t.Ended? || (t.Dropped? && !t.drained) then t.read >= Min(|bytes|, Good(results))
    else Good(t.results) + t.read >= Good(results)
  }

  lemma TurnGood(bytes: Bytes, results: seq<int>, hasBuffer: bool)
    ensures var t := ReadItem(bytes, results, hasBuffer);
      Gets(bytes, results, t) || (t.Ended? && |bytes| >= HEADER_BYTES && IsBad(DecodeHeader(bytes[..HEADER_BYTES])))
  {
    TakeGood(|bytes|, results, HEADER_BYTES);
    var t := Take(|bytes|, results, HEADER_BYTES);
    if t.ok && !IsBad(DecodeHeader(bytes[..HEADER_BYTES])) {
      BodyGood(bytes, results, hasBuffer, t, DecodeHeader(bytes[..HEADER_BYTES]));
    }
  }

  lemma BodyGood(bytes: Bytes, results: seq<int>, hasBuffer: bool, t: Taken, h: FrameHeader)
    requires t == Take(|bytes|, results, HEADER_BYTES) && t.ok && h == DecodeHeader(bytes[..HEADER_BYTES]) && !IsBad(h)
    requires Good(t.results) + HEADER_BYTES >= Good(results)
    ensures Gets(bytes, results, ReadItem(bytes, results, hasBuffer))
  {
    if hasBuffer {
      TakeGood(|bytes| - HEADER_BYTES, t.results, h.dataLen);
    } else {
      DrainGood(|bytes| - HEADER_BYTES, t.results, h.dataLen);
    }
  }

  /** On a sound connection no turn ends at a bad header, and what follows a whole item is sound. */
  lemma SoundTurn(bytes: Bytes, results: seq<int>, hasBuffer: bool)
    requires Intact(bytes)
    ensures var t := ReadItem(bytes, results, hasBuffer);
      Gets(bytes, results, t) && (!t.Ended? && (t.Dropped? ==> t.drained) ==> Intact(bytes[t.read..]))
  {
    TurnGood(bytes, results, hasBuffer);
    if Take(|bytes|, results, HEADER_BYTES).ok {
      TurnFits(bytes, results, hasBuffer);
      ParseWhole(bytes, DecodeHeader(bytes[..HEADER_BYTES]));
    }
  }

  lemma ParseWhole(bytes: Bytes, h: FrameHeader)
    requires HEADER_BYTES <= |bytes| && h == DecodeHeader(bytes[..HEADER_BYTES]) && Intact(bytes)
    ensures IsHeartbeat(h) ==> Intact(bytes[HEADER_BYTES..])
    ensures !IsHeartbeat(h) ==> !IsBad(h)
    ensures !IsHeartbeat(h) && HEADER_BYTES + h.dataLen <= |bytes| ==> Intact(bytes[HEADER_BYTES + h.dataLen..])
  {
    if !IsHeartbeat(h) && HEADER_BYTES + h.dataLen <= |bytes| {
      assert bytes[HEADER_BYTES..][h.dataLen..] == bytes[HEADER_BYTES + h.dataLen..];
    }
  }

  /**
   The receive loop gives up at a failing call or at the end of the bytes and nowhere
   else: of a sound connection it reads at least the byte that each good call brings.
   */
  lemma {:induction false} ReadsOn(bytes: Bytes, results: seq<int>, alloc: nat -> bool, k: nat)
    requires Intact(bytes)
    ensures Serve(bytes, results, alloc, k).read >= Min(|bytes|, Good(results))
    decreases |results|
  {
    var t := ReadItem(bytes, results, alloc(k));
    SoundTurn(bytes, results, alloc(k));
    if !t.Ended? && (t.Dropped? ==> t.drained) {
      ReadsOn(bytes[t.read..], t.results, alloc, if t.Beat? then k else k + 1);
    }
  }

  /**
   One connection without a failing call: everything written arrives, and the server
   hands on every frame that it has a buffer for.
   */
  lemma NothingIsLost(items: seq<Item>, sends: seq<int>, recvs: seq<int>, alloc: nat -> bool)
    requires ValidItems(items) && StaysFramed(recvs, alloc)
    requires Good(sends) >= |EncodeAll(items)| && Good(recvs) >= |EncodeAll(items)|
    ensures WriteItems(items, sends).sent == |items|
    ensures Serve(EncodeAll(items), recvs, alloc, 0).frames == Kept(items, alloc, 0)
  {
    WritesAll(items, sends);
    ReadsAll(items, EncodeAll(items), recvs, alloc);
  }

  lemma ReadsAll(items: seq<Item>, bytes: Bytes, results: seq<int>, alloc: nat -> bool)
    requires ValidItems(items) && bytes == EncodeAll(items)
    requires StaysFramed(results, alloc) && Good(results) >= |bytes|
    ensures Serve(bytes, results, alloc, 0).frames == Kept(items, alloc, 0)
  {
    EncodedIsSound(items);
    ReadsOn(bytes, results, alloc, 0);
    ServeIsDecode(bytes, results, alloc, 0);
    assert bytes[..|bytes|] == bytes && bytes + [] == bytes;
    DecodeEncoded(items, [], alloc, 0);
  }

  lemma {:induction false} EncodedIsSound(items: seq<Item>)
    requires ValidItems(items)
    ensures Residue(EncodeAll(items)) == [] && Intact(EncodeAll(items))
    decreases |items|
  {
    if items != [] {
      var front, last := items[..|items| - 1], items[|items| - 1];
      assert items == front + [last];
      EncodedIsSound(front);
      EncodeAllAppend(front, last);
      WriteBehind(EncodeAll(front), last, |Encode(last)|);
      assert Encode(last)[..|Encode(last)|] == Encode(last);
    }
  }
}
