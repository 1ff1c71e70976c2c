/**
 The limit of the video framing: a receive that fails while the payload of a
 frame without a buffer is drained, on a connection that lives on. The loop goes
 on as if the frame had been drained, and takes the next bytes for a header.
 */
module DrainCut {
  import opened Words
  import opened Config
  import opened Framing
  import opened Subsequence
  import opened VideoStream
  import opened Alignment

  /** Where the drain of a payload of `len` bytes ends. */
  function CutAt(len: nat, results: seq<int>): (d: Taken)
    ensures d.count <= len && (d.ok <==> d.count == len)
  {
    Drain(len, Take(HEADER_BYTES + len, results, HEADER_BYTES).results, len)
  }

  /** The drain is cut short, after which the calls bring a header and a byte behind it out of the same payload. */
  ghost predicate ReadsOn(len: nat, results: seq<int>) {
    && Take(HEADER_BYTES + len, results, HEADER_BYTES).ok
    && !CutAt(len, results).ok && Reads(len - CutAt(len, results).count, CutAt(len, results).results)
  }

  /** A header and a byte behind it can be taken. */
  ghost predicate Reads(avail: nat, results: seq<int>) {
    && avail > HEADER_BYTES
    && Take(avail, results, HEADER_BYTES).ok
    && Brings(avail - HEADER_BYTES, Take(avail, results, HEADER_BYTES).results)
  }

  /** As long as there are enough bytes, it does not matter how many. */
  lemma {:induction false} TakeEnough(a: nat, b: nat, results: seq<int>, len: nat)
    requires len <= a && len <= b
    ensures Take(a, results, len) == Take(b, results, len)
    decreases |results|
  {
    if len > 0 && results != [] && results[0] > 0 {
      assert Min(len, a) == len == Min(len, b);
      var n := Min(results[0], len);
      TakeEnough(a - n, b - n, results[1..], len - n);
    }
  }

  lemma {:induction false} DrainEnough(a: nat, b: nat, results: seq<int>, remaining: nat)
    requires remaining <= a && remaining <= b
    ensures Drain(a, results, remaining) == Drain(b, results, remaining)
    decreases remaining
  {
    if remaining > 0 {
      var chunk := Min(remaining, DRAIN_SCRATCH_BYTES);
      TakeEnough(a, b, results, chunk);
      var t := Take(a, results, chunk);
      if t.ok {
        DrainEnough(a - chunk, b - chunk, t.results, remaining - chunk);
      }
    }
  }

  lemma RefusedByHeader(bytes: Bytes, results: seq<int>, h: FrameHeader)
    requires HEADER_BYTES <= |bytes| && DecodeHeader(bytes[..HEADER_BYTES]) == h && !IsHeartbeat(h) && !IsBad(h)
    requires Take(|bytes|, results, HEADER_BYTES).ok
    ensures var d := Drain(|bytes| - HEADER_BYTES, Take(|bytes|, results, HEADER_BYTES).results, h.dataLen);
      ReadItem(bytes, results, false) == Dropped(HEADER_BYTES + d.count, d.results, d.ok)
  {
  }

  lemma KeptByHeader(bytes: Bytes, results: seq<int>, h: FrameHeader)
    requires HEADER_BYTES <= |bytes| && DecodeHeader(bytes[..HEADER_BYTES]) == h && !IsHeartbeat(h) && !IsBad(h)
    requires var t := Take(|bytes|, results, HEADER_BYTES);
      t.ok && Take(|bytes| - HEADER_BYTES, t.results, h.dataLen).ok
    ensures var t := ReadItem(bytes, results, true);
      t.Whole? && t.frame == Frame(h.origin, h.stream, h.seqNo, bytes[HEADER_BYTES..][..h.dataLen])
  {
  }

  lemma HeaderFirst(h: FrameHeader, body: Bytes)
    ensures var bytes := EncodeHeader(h) + body;
      HEADER_BYTES <= |bytes| && DecodeHeader(bytes[..HEADER_BYTES]) == h && bytes[HEADER_BYTES..] == body
  {
    HeaderRoundTrip(h);
    assert (EncodeHeader(h) + body)[..HEADER_BYTES] == EncodeHeader(h);
  }

  lemma FrameFirst(f: Frame, more: Bytes)
    requires ValidFrame(f)
    ensures var bytes := Encode(Video(f)) + more;
      && |bytes| == HEADER_BYTES + |f.data| + |more|
      && DecodeHeader(bytes[..HEADER_BYTES]) == HeaderOf(f) && bytes[HEADER_BYTES..] == f.data + more
  {
    Assoc(EncodeHeader(HeaderOf(f)), f.data, more);
    HeaderFirst(HeaderOf(f), f.data + more);
  }

  lemma CutAtLength(all: nat, len: nat, results: seq<int>)
    requires HEADER_BYTES + len <= all && Take(HEADER_BYTES + len, results, HEADER_BYTES).ok
    ensures var t := Take(all, results, HEADER_BYTES);
      t.ok && Drain(all - HEADER_BYTES, t.results, len) == CutAt(len, results)
  {
    TakeEnough(all, HEADER_BYTES + len, results, HEADER_BYTES);
    DrainEnough(all - HEADER_BYTES, len, Take(all, results, HEADER_BYTES).results, len);
  }

  /** The turn that finds no buffer for a frame. */
  lemma RefusedTurn(f: Frame, more: Bytes, results: seq<int>)
    requires ValidFrame(f) && Take(HEADER_BYTES + |f.data|, results, HEADER_BYTES).ok
    ensures var d := CutAt(|f.data|, results);
      ReadItem(Encode(Video(f)) + more, results, false) == Dropped(HEADER_BYTES + d.count, d.results, d.ok)
  {
    FrameFirst(f, more);
    CutAtLength(|Encode(Video(f)) + more|, |f.data|, results);
    RefusedByHeader(Encode(Video(f)) + more, results, HeaderOf(f));
  }

  lemma RestOf(f: Frame, more: Bytes, n: nat)
    requires ValidFrame(f) && n <= |f.data|
    ensures HEADER_BYTES + n <= |Encode(Video(f)) + more|
    ensures (Encode(Video(f)) + more)[HEADER_BYTES + n..] == f.data[n..] + more
  {
    FrameFirst(f, more);
    var bytes := Encode(Video(f)) + more;
    assert bytes[HEADER_BYTES..][n..] == bytes[HEADER_BYTES + n..];
    assert (f.data + more)[n..] == f.data[n..] + more;
  }

  function Zeros(n: nat): (data: Bytes)
    ensures |data| == n
  {
    seq(n, _ => 0)
  }

  /** A payload of `len` bytes that spells a frame of one byte from position `at` on. */
  function Trap(len: nat, at: nat, stray: Frame): (data: Bytes)
    requires ValidFrame(stray) && |stray.data| == 1 && at + HEADER_BYTES < len
    ensures |data| == len
  {
    Zeros(at) + (EncodeHeader(HeaderOf(stray)) + (stray.data + Zeros(len - at - HEADER_BYTES - 1)))
  }

  lemma TrapTail(len: nat, at: nat, stray: Frame, more: Bytes) returns (body: Bytes)
    requires ValidFrame(stray) && |stray.data| == 1 && at + HEADER_BYTES < len
    ensures Trap(len, at, stray)[at..] + more == EncodeHeader(HeaderOf(stray)) + body
    ensures |body| == len - at - HEADER_BYTES + |more| && body[..1] == stray.data
  {
    var header, rest := EncodeHeader(HeaderOf(stray)), stray.data + Zeros(len - at - HEADER_BYTES - 1);
    assert (Zeros(at) + (header + rest))[at..] == header + rest;
    Assoc(header, rest, more);
    body := rest + more;
  }

  lemma OneByte(avail: nat, results: seq<int>)
    requires avail > 0 && results != [] && results[0] > 0
    ensures Take(avail, results, 1).ok
  {
    assert Take(avail - 1, results[1..], 0).ok;
  }

  lemma ReadsAnyway(avail: nat, more: nat, results: seq<int>)
    requires Reads(avail, results) && avail <= more
    ensures var t := Take(more, results, HEADER_BYTES);
      t.ok && Take(more - HEADER_BYTES, t.results, 1).ok
  {
    TakeEnough(avail, more, results, HEADER_BYTES);
    OneByte(more - HEADER_BYTES, Take(avail, results, HEADER_BYTES).results);
  }

  /** The turn that takes the rest of a trap for a frame. */
  lemma StrayTurn(len: nat, at: nat, stray: Frame, more: Bytes, results: seq<int>)
    requires ValidFrame(stray) && |stray.data| == 1 && at + HEADER_BYTES < len && Reads(len - at, results)
    ensures var t := ReadItem(Trap(len, at, stray)[at..] + more, results, true);
      t.Whole? && t.frame == stray
  {
    var h := HeaderOf(stray);
    var body := TrapTail(len, at, stray, more);
    HeaderFirst(h, body);
    ReadsAnyway(len - at, |EncodeHeader(h) + body|, results);
    KeptByHeader(EncodeHeader(h) + body, results, h);
  }

  /** The first thing that the server hands on. */
  ghost predicate HandsOn(bytes: Bytes, results: seq<int>, alloc: nat -> bool, k: nat, f: Frame) {
    var s := Serve(bytes, results, alloc, k); s.frames != [] && s.frames[0] == f
  }

  lemma ServeTwoTurns(bytes: Bytes, results: seq<int>, alloc: nat -> bool, k: nat, t: Turn, f: Frame)
    requires t.Dropped? && t.read <= |bytes| && t == ReadItem(bytes, results, alloc(k))
    requires var u := ReadItem(bytes[t.read..], t.results, alloc(k + 1)); u.Whole? && u.frame == f
    ensures HandsOn(bytes, results, alloc, k, f)
  {
    assert HandsOn(bytes[t.read..], t.results, alloc, k + 1, f);
  }

  lemma StrayFirst(f: Frame, stray: Frame, more: Bytes, results: seq<int>, alloc: nat -> bool, k: nat)
    requires ValidFrame(f) && ValidFrame(stray) && |stray.data| == 1
    requires ReadsOn(|f.data|, results) && !alloc(k) && alloc(k + 1)
    requires f.data == Trap(|f.data|, CutAt(|f.data|, results).count, stray)
    ensures HandsOn(Encode(Video(f)) + more, results, alloc, k, stray)
  {
    var d := CutAt(|f.data|, results);
    RefusedTurn(f, more, results);
    RestOf(f, more, d.count);
    StrayTurn(|f.data|, d.count, stray, more, d.results);
    ServeTwoTurns(Encode(Video(f)) + more, results, alloc, k, Dropped(HEADER_BYTES + d.count, d.results, d.ok), stray);
  }

  /**
   A frame for which there is no buffer: with the right payload the server hands
   on, in its place, any frame of one byte, which nobody sent.
   */
  lemma CutDrainMisframes(len: nat, results: seq<int>, alloc: nat -> bool, k: nat, stray: Frame) returns (f: Frame)
    requires len <= VIDEO_MAX_FRAME_BYTES && ReadsOn(len, results) && !alloc(k) && alloc(k + 1)
    requires ValidFrame(stray) && |stray.data| == 1
    ensures ValidFrame(f) && |f.data| == len > |stray.data|
    ensures forall more :: HandsOn(Encode(Video(f)) + more, results, alloc, k, stray)
  {
    f := stray.(data := Trap(len, CutAt(len, results).count, stray));
    forall more
      ensures HandsOn(Encode(Video(f)) + more, results, alloc, k, stray)
    {
      StrayFirst(f, stray, more, results, alloc, k);
    }
  }

  // With anything behind the frame.

  /**
   The payload bytes of the shortest frame that the last m bytes of a payload and
   the item behind it can spell: with one byte left, the length of that item makes
   up the three upper bytes of the length that is read.
   */
  function Shortest(m: nat): nat { if m == 1 then 0x100 else 1 }

  /** The calls bring a header and a payload of n bytes, if there are as many. */
  ghost predicate Brought(results: seq<int>, n: nat) {
    && Take(HEADER_BYTES, results, HEADER_BYTES).ok
    && Take(n, Take(HEADER_BYTES, results, HEADER_BYTES).results, n).ok
  }

  /** The drain of a payload of `len` bytes is cut short, and the calls after that bring enough for a frame. */
  ghost predicate Misframes(len: nat, results: seq<int>) {
    && Take(HEADER_BYTES + len, results, HEADER_BYTES).ok
    && !CutAt(len, results).ok
    && Brought(CutAt(len, results).results, Shortest(len - CutAt(len, results).count))
  }

  // It can happen.

  /** The header that is read, of the shortest frame, naming any node as its origin. */
  function StrayHeader(o: uint8, m: nat): FrameHeader { FrameHeader(o, 0, 0, Shortest(m)) }

  /** The frame behind: its header ends that of the stray. */
  function Behind(m: nat): (f: Frame)
    ensures ValidFrame(f) && |f.data| != Shortest(m)
  {
    Frame(if m == 4 then 1 else 0, if m == 3 then 1 else 0, if m == 2 then 1 else 0,
          Zeros(if m == 1 then 1 else if m == 2 then 0x1_0000 else if m == 3 then 0x100 else 2))
  }

  /** The last m bytes of the payload: they begin that header. */
  function LastBytes(o: uint8, m: nat): (data: Bytes)
    ensures |data| == m
  {
    if m <= HEADER_BYTES then EncodeHeader(StrayHeader(o, m))[..m]
    else EncodeHeader(StrayHeader(o, m)) + Zeros(m - HEADER_BYTES)
  }

  lemma BehindSpells(o: uint8, m: nat, i: nat)
    requires 1 <= m && m + i < HEADER_BYTES
    ensures HeaderByte(HeaderOf(Behind(m)), i) == HeaderByte(StrayHeader(o, m), m + i)
  {
  }

  /** Bytes that go on with that header. */
  ghost predicate Continues(o: uint8, m: nat, more: Bytes) {
    && |more| > 2 * 0x100
    && forall i :: 0 <= i < |more| && m + i < HEADER_BYTES ==> more[i] == HeaderByte(StrayHeader(o, m), m + i)
  }

  lemma Spelled(o: uint8, m: nat, more: Bytes)
    requires Continues(o, m, more)
    ensures (LastBytes(o, m) + more)[..HEADER_BYTES] == EncodeHeader(StrayHeader(o, m))
  {
    var bytes, header := LastBytes(o, m) + more, EncodeHeader(StrayHeader(o, m));
    forall i | 0 <= i < HEADER_BYTES
      ensures bytes[i] == header[i]
    {
      if m <= i {
        assert bytes[i] == more[i - m];
      }
    }
  }

  /** The stream: a frame that ends in the trap, the frame behind it, and enough of a third. */
  function Snare(o: uint8, len: nat, m: nat): (items: seq<Item>)
    requires 1 <= m <= len <= VIDEO_MAX_FRAME_BYTES
    ensures ValidItems(items)
  {
    [Video(Snared(o, len, m))] + Trail(o, m)
  }

  function Snared(o: uint8, len: nat, m: nat): (f: Frame)
    requires 1 <= m <= len <= VIDEO_MAX_FRAME_BYTES
    ensures ValidFrame(f) && |f.data| == len
  {
    Frame(o, 0, 0, Zeros(len - m) + LastBytes(o, m))
  }

  function Trail(o: uint8, m: nat): (items: seq<Item>)
    ensures ValidItems(items)
  {
    [Video(Behind(m))] + [Video(Frame(o, 0, 0, Zeros(VIDEO_MAX_FRAME_BYTES)))]
  }

  lemma TrailContinues(o: uint8, m: nat)
    requires 1 <= m
    ensures Continues(o, m, EncodeAll(Trail(o, m)))
  {
    var third := [Video(Frame(o, 0, 0, Zeros(VIDEO_MAX_FRAME_BYTES)))];
    var header, more := HeaderBytes(Video(Behind(m))), EncodeAll(Trail(o, m));
    assert Trail(o, m)[1..] == third;
    EncodeAllFirst(Trail(o, m));
    EncodeAllFirst(third);
    assert header == more[..HEADER_BYTES];
    forall i | 0 <= i && m + i < HEADER_BYTES
      ensures more[i] == HeaderByte(StrayHeader(o, m), m + i)
    {
      BehindSpells(o, m, i);
      assert more[i] == header[i];
    }
  }

  lemma BroughtAnyway(results: seq<int>, n: nat, avail: nat)
    requires Brought(results, n) && HEADER_BYTES + n <= avail
    ensures var u := Take(avail, results, HEADER_BYTES); u.ok && Take(avail - HEADER_BYTES, u.results, n).ok
  {
    TakeEnough(HEADER_BYTES, avail, results, HEADER_BYTES);
    TakeEnough(n, avail - HEADER_BYTES, Take(avail, results, HEADER_BYTES).results, n);
  }

  /** The turn that finds such a header. */
  lemma SpelledTurn(bytes: Bytes, results: seq<int>, h: FrameHeader, n: nat)
    requires h.dataLen == n && !IsHeartbeat(h) && !IsBad(h) && HEADER_BYTES + n <= |bytes|
    requires bytes[..HEADER_BYTES] == EncodeHeader(h) && Brought(results, n)
    ensures var t := ReadItem(bytes, results, true); t.Whole? && |t.frame.data| == n
  {
    HeaderRoundTrip(h);
    BroughtAnyway(results, n, |bytes|);
    KeptByHeader(bytes, results, h);
  }

  /** The turn that takes the end of the payload and what is behind it for a frame. */
  lemma SnareTurn(o: uint8, m: nat, more: Bytes, results: seq<int>)
    requires 1 <= m && Continues(o, m, more) && Brought(results, Shortest(m))
    ensures var t := ReadItem(LastBytes(o, m) + more, results, true);
      t.Whole? && |t.frame.data| == Shortest(m)
  {
    Spelled(o, m, more);
    SpelledTurn(LastBytes(o, m) + more, results, StrayHeader(o, m), Shortest(m));
  }

  lemma TrailTurn(o: uint8, m: nat, results: seq<int>)
    requires 1 <= m && Brought(results, Shortest(m))
    ensures var t := ReadItem(LastBytes(o, m) + EncodeAll(Trail(o, m)), results, true);
      t.Whole? && |t.frame.data| == Shortest(m)
  {
    TrailContinues(o, m);
    SnareTurn(o, m, EncodeAll(Trail(o, m)), results);
  }

  /** What is handed on begins with a frame of the length n. */
  ghost predicate BeginsWithLength(bytes: Bytes, results: seq<int>, alloc: nat -> bool, k: nat, n: nat) {
    var s := Serve(bytes, results, alloc, k); s.frames != [] && |s.frames[0].data| == n
  }

  lemma SnareFor(o: uint8, len: nat, m: nat, results: seq<int>) returns (items: seq<Item>, last: Bytes, more: Bytes)
    requires 1 <= m <= len <= VIDEO_MAX_FRAME_BYTES && Brought(results, Shortest(m))
    ensures Leads(items, len) && items[0].frame.data[len - m..] == last && EncodeAll(items) == Encode(items[0]) + more
    ensures |items| > 1 && items[1].Video? && |items[1].frame.data| != Shortest(m)
    ensures var t := ReadItem(last + more, results, true); t.Whole? && |t.frame.data| == Shortest(m)
  {
    items, last, more := Snare(o, len, m), LastBytes(o, m), EncodeAll(Trail(o, m));
    SnareBytes(o, len, m);
    TrailTurn(o, m, results);
  }

  lemma SnareBytes(o: uint8, len: nat, m: nat)
    requires 1 <= m <= len <= VIDEO_MAX_FRAME_BYTES
    ensures EncodeAll(Snare(o, len, m)) == Encode(Video(Snared(o, len, m))) + EncodeAll(Trail(o, m))
    ensures Snared(o, len, m).data[len - m..] == LastBytes(o, m)
  {
    assert Snare(o, len, m)[1..] == Trail(o, m);
    EncodeAllFirst(Snare(o, len, m));
  }

  lemma CutThenTurn(f: Frame, more: Bytes, last: Bytes, results: seq<int>, alloc: nat -> bool, k: nat, d: Taken, n: nat)
    requires ValidFrame(f) && Take(HEADER_BYTES + |f.data|, results, HEADER_BYTES).ok && !alloc(k) && alloc(k + 1)
    requires d == CutAt(|f.data|, results) && f.data[d.count..] == last
    requires var u := ReadItem(last + more, d.results, true); u.Whole? && |u.frame.data| == n
    ensures BeginsWithLength(Encode(Video(f)) + more, results, alloc, k, n)
  {
    RefusedTurn(f, more, results);
    RestOf(f, more, d.count);
    TwoTurnsLength(Encode(Video(f)) + more, results, alloc, k, Dropped(HEADER_BYTES + d.count, d.results, d.ok), n);
  }

  lemma TwoTurnsLength(bytes: Bytes, results: seq<int>, alloc: nat -> bool, k: nat, t: Turn, n: nat)
    requires t.Dropped? && t.read <= |bytes| && t == ReadItem(bytes, results, alloc(k))
    requires var u := ReadItem(bytes[t.read..], t.results, alloc(k + 1)); u.Whole? && |u.frame.data| == n
    ensures BeginsWithLength(bytes, results, alloc, k, n)
  {
    assert BeginsWithLength(bytes[t.read..], t.results, alloc, k + 1, n);
  }

  /** What may be handed on begins with the frame behind. */
  lemma SecondKept(items: seq<Item>, alloc: nat -> bool, k: nat)
    requires |items| > 1 && items[0].Video? && items[1].Video? && !alloc(k) && alloc(k + 1)
    ensures var kept := Kept(items, alloc, k); kept != [] && kept[0] == items[1].frame
  {
    assert items[1..][0] == items[1];
    assert Kept(items[1..], alloc, k + 1)[0] == items[1].frame;
  }

  // And only then.

  /** If more can be taken, so can less. */
  lemma {:induction false} TakeLess(avail: nat, results: seq<int>, len: nat, less: nat)
    requires Take(avail, results, len).ok && less <= len
    ensures Take(less, results, less).ok
    decreases |results|
  {
    if less > 0 {
      var n := Min(results[0], Min(len, avail));
      if n < less {
        TakeLess(avail - n, results[1..], len - n, less - n);
        assert Take(less, results, less) == Plus(n, Take(less - n, results[1..], less - n));
      }
    }
  }

  /** With one byte left, what is read as a header is bad or announces 256 bytes or more. */
  lemma OneByteLeft(bytes: Bytes, item: Item)
    requires (item.Video? ==> ValidFrame(item.frame)) && HEADER_BYTES <= |bytes|
    requires bytes[1..HEADER_BYTES] == HeaderBytes(item)[..HEADER_BYTES - 1]
    ensures var h := DecodeHeader(bytes[..HEADER_BYTES]); !IsHeartbeat(h) && (IsBad(h) || h.dataLen >= 0x100)
  {
    var header := HeaderBytes(item);
    assert forall i :: 1 <= i < HEADER_BYTES ==>
      bytes[..HEADER_BYTES][i] == bytes[1..HEADER_BYTES][i - 1] == header[i - 1];
    if item.Video? {
      HeaderRoundTrip(HeaderOf(item.frame));
    }
  }

  /** The first bytes behind one byte of a payload are those of the next item. */
  lemma BehindOneByte(p: Bytes, items: seq<Item>)
    requires |p| == 1 && ValidItems(items) && HEADER_BYTES <= |p + EncodeAll(items)|
    ensures items != [] && (p + EncodeAll(items))[1..HEADER_BYTES] == HeaderBytes(items[0])[..HEADER_BYTES - 1]
  {
    if items != [] {
      EncodeAllFirst(items);
      assert EncodeAll(items)[..HEADER_BYTES - 1] == HeaderBytes(items[0])[..HEADER_BYTES - 1];
      assert (p + EncodeAll(items))[1..HEADER_BYTES] == EncodeAll(items)[..HEADER_BYTES - 1];
    }
  }

  /** What a header found behind the last bytes of a payload may announce. */
  lemma AnnouncedBehind(last: Bytes, items: seq<Item>)
    requires ValidItems(items) && last != [] && HEADER_BYTES <= |last + EncodeAll(items)|
    ensures var h := DecodeHeader((last + EncodeAll(items))[..HEADER_BYTES]);
      && (IsHeartbeat(h) ==> |last| > 1)
      && (!IsHeartbeat(h) && !IsBad(h) ==> h.dataLen >= Shortest(|last|))
  {
    if |last| == 1 {
      BehindOneByte(last, items);
      OneByteLeft(last + EncodeAll(items), items[0]);
    }
  }

  /** A connection that yields a frame has brought a header and the payload of a frame, or a heartbeat and a byte. */
  lemma FrameBrought(bytes: Bytes, results: seq<int>, alloc: nat -> bool, k: nat, n: nat)
    requires alloc(k) && Serve(bytes, results, alloc, k).frames != [] && n > 0
    requires HEADER_BYTES <= |bytes| ==> var h := DecodeHeader(bytes[..HEADER_BYTES]);
      (IsHeartbeat(h) ==> n == 1) && (!IsHeartbeat(h) && !IsBad(h) ==> h.dataLen >= n)
    ensures Brought(results, n)
  {
    var u := Take(|bytes|, results, HEADER_BYTES);
    TakeLess(|bytes|, results, HEADER_BYTES, HEADER_BYTES);
    TakeEnough(HEADER_BYTES, |bytes|, results, HEADER_BYTES);
    var h := DecodeHeader(bytes[..HEADER_BYTES]);
    if IsHeartbeat(h) {
      SomethingBrought(bytes[HEADER_BYTES..], u.results, alloc, k);
    } else {
      TakeLess(|bytes| - HEADER_BYTES, u.results, h.dataLen, n);
    }
  }

  lemma SomethingBrought(bytes: Bytes, results: seq<int>, alloc: nat -> bool, k: nat)
    requires Serve(bytes, results, alloc, k).frames != []
    ensures Take(1, results, 1).ok
  {
    TakeLess(|bytes|, results, HEADER_BYTES, 1);
  }

  lemma {:induction false} QuietWithBuffers(items: seq<Item>, avail: nat, results: seq<int>, alloc: nat -> bool, k: nat)
    requires ValidItems(items) && forall i :: i >= k ==> alloc(i)
    ensures QuietAfterCut(items, avail, results, alloc, k)
    decreases |items|
  {
    if items != [] {
      var t := ItemTurn(items[0], avail, results, alloc(k));
      if !t.Ended? {
        QuietWithBuffers(items[1..], avail - t.read, t.results, alloc, if t.Beat? then k else k + 1);
      }
    }
  }

  /** A stream that begins with a frame of `len` bytes. */
  ghost predicate Leads(items: seq<Item>, len: nat) {
    ValidItems(items) && items != [] && items[0].Video? && |items[0].frame.data| == len
  }

  /** The server hands on something else than a prefix of the frames sent for which there is a buffer. */
  ghost predicate Lost(items: seq<Item>, results: seq<int>, alloc: nat -> bool, k: nat)
    requires ValidItems(items)
  {
    !(Serve(EncodeAll(items), results, alloc, k).frames <= Kept(items, alloc, k))
  }

  /** If the stream is lost, the drain of its first frame was cut short. */
  lemma LostIsCut(items: seq<Item>, results: seq<int>, alloc: nat -> bool, k: nat, len: nat)
    requires Leads(items, len) && !alloc(k) && (forall i :: i > k ==> alloc(i)) && Lost(items, results, alloc, k)
    ensures Take(HEADER_BYTES + len, results, HEADER_BYTES).ok && !CutAt(len, results).ok
  {
    var all := EncodeAll(items);
    assert all[..|all|] == all;
    if QuietAfterCut(items, |all|, results, alloc, k) {
      AlignedDelivers(items, |all|, results, alloc, k);
      assert false;
    }
    EncodeAllFirst(items);
    NotQuietIsCut(items, |all|, results, alloc, k, len);
  }

  lemma NotQuietIsCut(items: seq<Item>, avail: nat, results: seq<int>, alloc: nat -> bool, k: nat, len: nat)
    requires Leads(items, len) && !alloc(k) && (forall i :: i > k ==> alloc(i)) && HEADER_BYTES + len <= avail
    requires !QuietAfterCut(items, avail, results, alloc, k)
    ensures Take(HEADER_BYTES + len, results, HEADER_BYTES).ok && !CutAt(len, results).ok
  {
    TakeEnough(avail, HEADER_BYTES + len, results, HEADER_BYTES);
    var t := ItemTurn(items[0], avail, results, alloc(k));
    if !t.Ended? {
      QuietWithBuffers(items[1..], avail - t.read, t.results, alloc, k + 1);
      CutAtLength(avail, len, results);
    }
  }

  lemma RestServed(f: Frame, more: Bytes, results: seq<int>, alloc: nat -> bool, k: nat, d: Taken)
    requires ValidFrame(f) && !alloc(k) && Take(HEADER_BYTES + |f.data|, results, HEADER_BYTES).ok
    requires d == CutAt(|f.data|, results)
    ensures Serve(Encode(Video(f)) + more, results, alloc, k).frames
         == Serve(f.data[d.count..] + more, d.results, alloc, k + 1).frames
  {
    RefusedTurn(f, more, results);
    RestOf(f, more, d.count);
    ServeDropped(Encode(Video(f)) + more, results, alloc, k, Dropped(HEADER_BYTES + d.count, d.results, d.ok));
  }

  lemma ServeDropped(bytes: Bytes, results: seq<int>, alloc: nat -> bool, k: nat, t: Turn)
    requires t.Dropped? && t.read <= |bytes| && t == ReadItem(bytes, results, alloc(k))
    ensures Serve(bytes, results, alloc, k).frames == Serve(bytes[t.read..], t.results, alloc, k + 1).frames
  {
  }

  lemma BroughtBehind(last: Bytes, items: seq<Item>, results: seq<int>, alloc: nat -> bool, k: nat, m: nat)
    requires ValidItems(items) && alloc(k) && m == |last| > 0
    requires Serve(last + EncodeAll(items), results, alloc, k).frames != []
    ensures Brought(results, Shortest(m))
  {
    if HEADER_BYTES <= |last + EncodeAll(items)| {
      AnnouncedBehind(last, items);
    }
    FrameBrought(last + EncodeAll(items), results, alloc, k, Shortest(m));
  }

  lemma OnlyMisframed(items: seq<Item>, results: seq<int>, alloc: nat -> bool, k: nat, len: nat)
    requires Leads(items, len) && !alloc(k) && (forall i :: i > k ==> alloc(i)) && Lost(items, results, alloc, k)
    ensures Misframes(len, results)
  {
    var f, d := items[0].frame, CutAt(len, results);
    var m: nat := len - d.count;
    LostIsCut(items, results, alloc, k, len);
    EncodeAllFirst(items);
    RestServed(f, EncodeAll(items[1..]), results, alloc, k, d);
    BroughtBehind(f.data[d.count..], items[1..], d.results, alloc, k + 1, m);
    IsMisframed(len, results, d, m);
  }

  lemma IsMisframed(len: nat, results: seq<int>, d: Taken, m: nat)
    requires Take(HEADER_BYTES + len, results, HEADER_BYTES).ok && d == CutAt(len, results) && !d.ok
    requires m == len - d.count && Brought(d.results, Shortest(m))
    ensures Misframes(len, results)
  {
  }

  /**
   Exactly when the framing can be lost, when there is no buffer for a frame of
   `len` bytes and one for each that follows: some items behind it and some payload
   make the server hand on what was not sent if and only if, after a receive that
   failed inside the drain, the calls bring a header and the payload of the shortest
   frame that the rest of the payload and the next item can spell.
   */
  lemma FramingLostExactly(len: nat, results: seq<int>, alloc: nat -> bool, k: nat)
    requires 1 <= len <= VIDEO_MAX_FRAME_BYTES && !alloc(k) && forall i :: i > k ==> alloc(i)
    ensures Misframes(len, results) <==> exists items :: Leads(items, len) && Lost(items, results, alloc, k)
  {
    if Misframes(len, results) {
      var items := MisframedItems(0, len, results, alloc, k);
    }
    forall items | Leads(items, len) && Lost(items, results, alloc, k)
      ensures Misframes(len, results)
    {
      OnlyMisframed(items, results, alloc, k, len);
    }
  }

  lemma MisframedItems(o: uint8, len: nat, results: seq<int>, alloc: nat -> bool, k: nat) returns (items: seq<Item>)
    requires 1 <= len <= VIDEO_MAX_FRAME_BYTES && !alloc(k) && alloc(k + 1) && Misframes(len, results)
    ensures Leads(items, len) && Lost(items, results, alloc, k)
  {
    var d := CutAt(len, results);
    var m: nat := len - d.count;
    var last, more;
    items, last, more := SnareFor(o, len, m, d.results);
    CutThenTurn(items[0].frame, more, last, results, alloc, k, d, Shortest(m));
    SecondKept(items, alloc, k);
  }
}
