/**
 The byte format of one video hop (main/video_relay.cpp): frames are an 8-byte
 header followed by the image bytes, heartbeats are headers alone. `Decode` is
 what a server makes of the bytes of one connection.
 */
module Framing {
  import opened Words
  import opened Config
  import opened Subsequence

  type Bytes = seq<uint8>

  datatype FrameHeader = FrameHeader(origin: uint8, stream: uint8, seqNo: uint16, dataLen: uint32)

  datatype Frame = Frame(origin: uint8, stream: uint8, seqNo: uint16, data: Bytes)

  /** What a client puts on a connection. */
  datatype Item = Heartbeat | Video(frame: Frame)

  const HEADER_BYTES := 8

  // Packed little-endian structs.

  function Low(x: uint16): uint8 { x % 0x100 }

  function High(x: uint16): uint8 { x / 0x100 }

  function Join16(low: uint8, high: uint8): uint16 { low + 0x100 * high }

  /** Byte i of the packed header. */
  function HeaderByte(h: FrameHeader, i: nat): uint8
    requires i < HEADER_BYTES
  {
    if i == 0 then h.origin
    else if i == 1 then h.stream
    else if i == 2 then Low(h.seqNo)
    else if i == 3 then High(h.seqNo)
    else if i == 4 then Low(h.dataLen % 0x1_0000)
    else if i == 5 then High(h.dataLen % 0x1_0000)
    else if i == 6 then Low(h.dataLen / 0x1_0000)
    else High(h.dataLen / 0x1_0000)
  }

  function EncodeHeader(h: FrameHeader): Bytes {
    seq(HEADER_BYTES, i requires 0 <= i < HEADER_BYTES => HeaderByte(h, i))
  }

  function DecodeHeader(b: Bytes): FrameHeader
    requires |b| == HEADER_BYTES
  {
    FrameHeader(b[0], b[1], b[2] as int + 0x100 * b[3] as int,
                b[4] as int + 0x100 * b[5] as int + 0x1_0000 * b[6] as int + 0x100_0000 * b[7] as int)
  }

  lemma HeaderRoundTrip(h: FrameHeader)
    ensures |EncodeHeader(h)| == HEADER_BYTES && DecodeHeader(EncodeHeader(h)) == h
  {
  }

  predicate ValidFrame(f: Frame) {
    1 <= |f.data| <= VIDEO_MAX_FRAME_BYTES
  }

  function HeaderOf(f: Frame): FrameHeader
    requires ValidFrame(f)
  {
    FrameHeader(f.origin, f.stream, f.seqNo, |f.data|)
  }

  /** The packed header of a keepalive, all of it zero but the stream. */
  function HeartbeatBytes(): (b: Bytes)
    ensures |b| == HEADER_BYTES
  {
    seq(HEADER_BYTES, i => if i == 1 then VIDEO_HEARTBEAT_STREAM else 0)
  }

  lemma HeartbeatIsPacked()
    ensures HeartbeatBytes() == EncodeHeader(FrameHeader(0, VIDEO_HEARTBEAT_STREAM, 0, 0))
    ensures IsHeartbeat(DecodeHeader(HeartbeatBytes()))
  {
  }

  function HeaderBytes(item: Item): (b: Bytes)
    requires item.Video? ==> ValidFrame(item.frame)
    ensures |b| == HEADER_BYTES
  {
    match item
    case Heartbeat => HeartbeatBytes()
    case Video(f) => EncodeHeader(HeaderOf(f))
  }

  function Encode(item: Item): (b: Bytes)
    requires item.Video? ==> ValidFrame(item.frame)
    ensures |b| == HEADER_BYTES + if item.Video? then |item.frame.data| else 0
  {
    match item
    case Heartbeat => HeartbeatBytes()
    case Video(f) => EncodeHeader(HeaderOf(f)) + f.data
  }

  ghost predicate ValidItems(items: seq<Item>) {
    forall k :: 0 <= k < |items| ==> items[k].Video? ==> ValidFrame(items[k].frame)
  }

  function EncodeEach(items: seq<Item>): seq<Bytes>
    requires ValidItems(items)
  {
    seq(|items|, i requires 0 <= i < |items| => Encode(items[i]))
  }

  /** All the bytes that the items put on a connection. */
  function EncodeAll(items: seq<Item>): Bytes
    requires ValidItems(items)
  {
    Flat(EncodeEach(items))
  }

  lemma EncodeAllFirst(items: seq<Item>)
    requires ValidItems(items) && items != []
    ensures EncodeAll(items) == Encode(items[0]) + EncodeAll(items[1..])
  {
    assert EncodeEach(items)[1..] == EncodeEach(items[1..]);
  }

  lemma EncodeAllAppend(items: seq<Item>, item: Item)
    requires ValidItems(items) && (item.Video? ==> ValidFrame(item.frame))
    ensures ValidItems(items + [item])
    ensures EncodeAll(items + [item]) == EncodeAll(items) + Encode(item)
  {
    assert EncodeEach(items + [item]) == EncodeEach(items) + [Encode(item)];
    FlatAppend(EncodeEach(items), Encode(item));
  }

  predicate IsHeartbeat(h: FrameHeader) {
    h.stream == VIDEO_HEARTBEAT_STREAM && h.dataLen == 0
  }

  predicate IsBad(h: FrameHeader) {
    !IsHeartbeat(h) && (h.dataLen == 0 || h.dataLen > VIDEO_MAX_FRAME_BYTES)
  }

  /** The three kinds of header: a keepalive by two fields alone, that of some frame, and all others are bad. */
  lemma HeadersExactly(b: Bytes)
    requires |b| == HEADER_BYTES
    ensures var h := DecodeHeader(b);
      && (IsHeartbeat(h) <==> b[1] == VIDEO_HEARTBEAT_STREAM && b[4] == b[5] == b[6] == b[7] == 0)
      && (!IsHeartbeat(h) && !IsBad(h) <==> exists f :: ValidFrame(f) && b == EncodeHeader(HeaderOf(f)))
  {
    var h := DecodeHeader(b);
    if 1 <= h.dataLen <= VIDEO_MAX_FRAME_BYTES {
      var f := Frame(h.origin, h.stream, h.seqNo, seq(h.dataLen, _ => 0));
      HeaderBack(b);
      assert ValidFrame(f) && b == EncodeHeader(HeaderOf(f));
    }
    if f :| ValidFrame(f) && b == EncodeHeader(HeaderOf(f)) {
      HeaderRoundTrip(HeaderOf(f));
    }
  }

  lemma HeaderBack(b: Bytes)
    requires |b| == HEADER_BYTES
    ensures EncodeHeader(DecodeHeader(b)) == b
  {
    forall i | 0 <= i < HEADER_BYTES ensures EncodeHeader(DecodeHeader(b))[i] == b[i] {
      LengthBytes(b[4], b[5], b[6], b[7]);
    }
  }

  lemma LengthBytes(b0: uint8, b1: uint8, b2: uint8, b3: uint8)
    ensures var n := b0 + 0x100 * b1 + 0x1_0000 * b2 + 0x100_0000 * b3;
      Low(n % 0x1_0000) == b0 && High(n % 0x1_0000) == b1 && Low(n / 0x1_0000) == b2 && High(n / 0x1_0000) == b3
  {
  }

  /** What the server finds at the head of its unread bytes. */
  datatype Parsed = NeedMore | Bad | Alive(rest: Bytes) | Got(frame: Frame, rest: Bytes)

  function ParseOne(bytes: Bytes): (p: Parsed)
    ensures p.Alive? || p.Got? ==> |p.rest| < |bytes|
  {
    if |bytes| < HEADER_BYTES then NeedMore
    else
      var h := DecodeHeader(bytes[..HEADER_BYTES]);
      var rest := bytes[HEADER_BYTES..];
      if IsHeartbeat(h) then Alive(rest)
      else if IsBad(h) then Bad
      else if |rest| < h.dataLen then NeedMore
      else Got(Frame(h.origin, h.stream, h.seqNo, rest[..h.dataLen]), rest[h.dataLen..])
  }

  /** The frames that the bytes of a connection yield when frame k gets a buffer iff `alloc(k)`. */
  function Decode(bytes: Bytes, alloc: nat -> bool, k: nat): seq<Frame>
    decreases |bytes|
  {
    match ParseOne(bytes)
    case NeedMore => []
    case Bad => []
    case Alive(rest) => Decode(rest, alloc, k)
    case Got(frame, rest) => (if alloc(k) then [frame] else []) + Decode(rest, alloc, k + 1)
  }

  /** The frames among the items, minus those that get no buffer. */
  function Kept(items: seq<Item>, alloc: nat -> bool, k: nat): seq<Frame> {
    if items == [] then []
    else
      match items[0]
      case Heartbeat => Kept(items[1..], alloc, k)
      case Video(f) => (if alloc(k) then [f] else []) + Kept(items[1..], alloc, k + 1)
  }

  lemma ParseAfterHeader(header: Bytes, h: FrameHeader, body: Bytes)
    requires |header| == HEADER_BYTES && DecodeHeader(header) == h
    ensures ParseOne(header + body) ==
      if IsHeartbeat(h) then Alive(body)
      else if IsBad(h) then Bad
      else if |body| < h.dataLen then NeedMore
      else Got(Frame(h.origin, h.stream, h.seqNo, body[..h.dataLen]), body[h.dataLen..])
  {
    var bytes := header + body;
    assert bytes[..HEADER_BYTES] == header && bytes[HEADER_BYTES..] == body;
  }

  lemma ParseFrame(header: Bytes, f: Frame, rest: Bytes)
    requires |header| == HEADER_BYTES && ValidFrame(f)
    requires DecodeHeader(header) == FrameHeader(f.origin, f.stream, f.seqNo, |f.data|)
    ensures ParseOne((header + f.data) + rest) == Got(f, rest)
  {
    var body := f.data + rest;
    ParseAfterHeader(header, DecodeHeader(header), body);
    assert (header + f.data) + rest == header + body;
    assert body[..|f.data|] == f.data && body[|f.data|..] == rest;
  }

  lemma ParseVideo(f: Frame, rest: Bytes)
    requires ValidFrame(f)
    ensures ParseOne(Encode(Video(f)) + rest) == Got(f, rest)
  {
    var h := HeaderOf(f);
    HeaderRoundTrip(h);
    ParseFrame(EncodeHeader(h), f, rest);
  }

  lemma ParseHeartbeat(rest: Bytes)
    ensures ParseOne(HeartbeatBytes() + rest) == Alive(rest)
  {
    HeartbeatIsPacked();
    ParseAfterHeader(HeartbeatBytes(), DecodeHeader(HeartbeatBytes()), rest);
  }

  /** An item is read back whole, whatever follows it. */
  lemma ParseEncoded(item: Item, rest: Bytes)
    requires item.Video? ==> ValidFrame(item.frame)
    ensures ParseOne(Encode(item) + rest) == if item.Video? then Got(item.frame, rest) else Alive(rest)
  {
    match item
    case Heartbeat => ParseHeartbeat(rest);
    case Video(f) => ParseVideo(f, rest);
  }

  /** Of a strict prefix of an item nothing is seen: neither a frame nor a bad header. */
  lemma ParseCut(item: Item, n: nat)
    requires item.Video? ==> ValidFrame(item.frame)
    requires n < |Encode(item)|
    ensures ParseOne(Encode(item)[..n]) == NeedMore
  {
    if HEADER_BYTES <= n {
      HeaderRoundTrip(HeaderOf(item.frame));
      assert Encode(item)[..n][..HEADER_BYTES] == EncodeHeader(HeaderOf(item.frame));
    }
  }

  lemma TakeOfConcat(a: Bytes, b: Bytes, n: nat)
    requires |a| <= n <= |a| + |b|
    ensures (a + b)[..n] == a + b[..n - |a|]
  {
  }

  lemma DecodeItem(item: Item, rest: Bytes, alloc: nat -> bool, k: nat)
    requires item.Video? ==> ValidFrame(item.frame)
    ensures Decode(Encode(item) + rest, alloc, k) ==
      match item
      case Heartbeat => Decode(rest, alloc, k)
      case Video(f) => (if alloc(k) then [f] else []) + Decode(rest, alloc, k + 1)
  {
    ParseEncoded(item, rest);
  }

  /**
   Round trip: the server recovers exactly the frames sent, in order, minus
   those it had no buffer for; heartbeats vanish, no payload is read as a header.
   */
  lemma {:induction false} DecodeEncoded(items: seq<Item>, tail: Bytes, alloc: nat -> bool, k: nat)
    requires ValidItems(items)
    requires ParseOne(tail) == NeedMore
    ensures Decode(EncodeAll(items) + tail, alloc, k) == Kept(items, alloc, k)
    decreases |items|
  {
    if items == [] {
      assert EncodeAll(items) + tail == tail;
    } else {
      EncodeAllFirst(items);
      Assoc(Encode(items[0]), EncodeAll(items[1..]), tail);
      DecodeItem(items[0], EncodeAll(items[1..]) + tail, alloc, k);
      DecodeEncoded(items[1..], tail, alloc, if items[0].Video? then k + 1 else k);
    }
  }

  /** A connection cut anywhere: what arrives is whole items and a piece of the next. */
  lemma {:induction false} CutAnywhere(items: seq<Item>, n: nat) returns (whole: nat, part: nat)
    requires ValidItems(items) && n < |EncodeAll(items)|
    ensures whole < |items| && part < |Encode(items[whole])|
    ensures EncodeAll(items)[..n] == EncodeAll(items[..whole]) + Encode(items[whole])[..part]
    decreases |items|
  {
    var first, rest := Encode(items[0]), EncodeAll(items[1..]);
    EncodeAllFirst(items);
    if n < |first| {
      whole, part := 0, n;
      assert (first + rest)[..n] == [] + first[..n];
    } else {
      var w, p := CutAnywhere(items[1..], n - |first|);
      whole, part := w + 1, p;
      CutFurther(items, w, p);
      TakeOfConcat(first, rest, n);
    }
  }

  lemma CutFurther(items: seq<Item>, w: nat, p: nat)
    requires ValidItems(items) && w + 1 < |items| && p < |Encode(items[w + 1])|
    ensures Encode(items[0]) + (EncodeAll(items[1..][..w]) + Encode(items[w + 1])[..p])
         == EncodeAll(items[..w + 1]) + Encode(items[w + 1])[..p]
  {
    assert items[..w + 1][1..] == items[1..][..w];
    EncodeAllFirst(items[..w + 1]);
    Assoc(Encode(items[0]), EncodeAll(items[1..][..w]), Encode(items[w + 1])[..p]);
  }

  lemma {:induction false} KeptPrefix(items: seq<Item>, whole: nat, alloc: nat -> bool, k: nat)
    requires whole <= |items|
    ensures Kept(items[..whole], alloc, k) <= Kept(items, alloc, k)
    decreases |items|
  {
    if whole > 0 {
      assert items[..whole][1..] == items[1..][..whole - 1];
      KeptPrefix(items[1..], whole - 1, alloc, if items[0].Video? then k + 1 else k);
    }
  }

  /**
   Whatever prefix of the bytes arrives, it yields a prefix of the frames sent:
   a frame that was not written completely is never seen.
   */
  lemma CutConnection(items: seq<Item>, n: nat, alloc: nat -> bool)
    requires ValidItems(items) && n <= |EncodeAll(items)|
    ensures Decode(EncodeAll(items)[..n], alloc, 0) <= Kept(items, alloc, 0)
  {
    var bytes := EncodeAll(items);
    if n == |bytes| {
      assert bytes[..n] == bytes + [];
      DecodeEncoded(items, [], alloc, 0);
    } else {
      var whole, part := CutAnywhere(items, n);
      ParseCut(items[whole], part);
      DecodeEncoded(items[..whole], Encode(items[whole])[..part], alloc, 0);
      KeptPrefix(items, whole, alloc, 0);
    }
  }
}
