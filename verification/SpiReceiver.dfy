/**
 The LuckFox-to-ESP32 link (main/luckfox_spi.cpp): messages cut into SPI
 transactions of a fixed size, received by a decoder that waits for a header,
 then reads a status, or collects or drains a frame.
 */
module SpiReceiver {
  import opened Words
  import opened Config
  import opened Framing
  import opened Subsequence

  const MAGIC: uint32 := 0x5241_5046
  const MSG_STATUS: uint8 := 1
  const WIRE_HEADER_BYTES := 12
  const STATUS_BYTES := 2 + MAX_PLATE_LEN

  type Chunk = b: Bytes | |b| == SPI_CHUNK_BYTES witness seq(SPI_CHUNK_BYTES, _ => 0)

  /**
   `transactOnce`: one chunk is clocked in, while the heap has a large enough buffer
   or not; or it fails, and the chunk that the sender clocked out meanwhile, if any,
   is lost.
   */
  datatype Transaction = Failed(lost: bool) | Clocked(chunk: Chunk, hasBuffer: bool)

  datatype WireHeader = WireHeader(magic: uint32, msgType: uint8, stream: uint8, seqNo: uint16, dataLen: uint32)

  /** What the callbacks get. */
  datatype Delivery =
    | Image(stream: uint8, seqNo: uint16, data: Bytes)
    | Reading(stream: uint8, occupied: uint8, plate: Bytes)

  /** Where the receiver task stands between two transactions. */
  datatype Place =
    | Header
    | Status(header: WireHeader)
    | Collect(header: WireHeader, data: Bytes)
    | Drain(remaining: nat)

  function Join32(b: Bytes): uint32
    requires |b| == 4
  {
    Join16(b[0], b[1]) + 0x1_0000 * Join16(b[2], b[3])
  }

  function Byte32(x: uint32, i: nat): uint8
    requires i < 4
  {
    var half := if i < 2 then x % 0x1_0000 else x / 0x1_0000;
    if i % 2 == 0 then Low(half) else High(half)
  }

  function WireByte(h: WireHeader, i: nat): uint8
    requires i < WIRE_HEADER_BYTES
  {
    if i < 4 then Byte32(h.magic, i)
    else if i == 4 then h.msgType
    else if i == 5 then h.stream
    else if i == 6 then Low(h.seqNo)
    else if i == 7 then High(h.seqNo)
    else Byte32(h.dataLen, i - 8)
  }

  function EncodeWire(h: WireHeader): Bytes {
    seq(WIRE_HEADER_BYTES, i requires 0 <= i < WIRE_HEADER_BYTES => WireByte(h, i))
  }

  function DecodeWire(b: Bytes): WireHeader
    requires |b| >= WIRE_HEADER_BYTES
  {
    WireHeader(Join32(b[..4]), b[4], b[5], Join16(b[6], b[7]), Join32(b[8..12]))
  }

  lemma WireRoundTrip(h: WireHeader, b: Bytes)
    requires |b| >= WIRE_HEADER_BYTES && b[..WIRE_HEADER_BYTES] == EncodeWire(h)
    ensures DecodeWire(b) == h
  {
    assert forall i :: 0 <= i < WIRE_HEADER_BYTES ==> b[i] == b[..WIRE_HEADER_BYTES][i] == WireByte(h, i);
  }

  /** The header checks: a status has one length, everything else is taken for an image of any valid length. */
  predicate Announces(h: WireHeader) {
    && h.magic == MAGIC
    && (if h.msgType == MSG_STATUS then h.dataLen == STATUS_BYTES else 1 <= h.dataLen <= VIDEO_MAX_FRAME_BYTES)
  }

  predicate ValidPlace(s: Place) {
    match s
    case Header => true
    case Status(h) => Announces(h) && h.msgType == MSG_STATUS
    case Collect(h, data) => Announces(h) && h.msgType != MSG_STATUS && |data| < h.dataLen
    case Drain(remaining) => 1 <= remaining <= VIDEO_MAX_FRAME_BYTES
  }

  type State = s: Place | ValidPlace(s) witness Header

  /** A packed LaneStatusWire, its last plate byte overwritten by the terminator. */
  function ReadingOf(stream: uint8, b: Bytes): Delivery
    requires |b| >= STATUS_BYTES
  {
    Reading(stream, b[0], b[1..STATUS_BYTES - 1] + [0])
  }

  function AfterHeader(h: WireHeader, hasBuffer: bool): State {
    if !Announces(h) then Header
    else if h.msgType == MSG_STATUS then Status(h)
    else if hasBuffer then Collect(h, [])
    else Drain(h.dataLen)
  }

  datatype Received = Received(state: State, out: seq<Delivery>)

  /** One transaction. */
  function Step(s: State, t: Transaction): (r: Received)
  {
    if t.Failed? then Received(Header, [])
    else
      match s
      case Header => Received(AfterHeader(DecodeWire(t.chunk), t.hasBuffer), [])
      case Status(h) => Received(Header, [ReadingOf(h.stream, t.chunk)])
      case Drain(remaining) =>
        var left := remaining - Min(remaining, SPI_CHUNK_BYTES);
        Received(if left == 0 then Header else Drain(left), [])
      case Collect(h, data) =>
        var data' := data + t.chunk[..Min(h.dataLen - |data|, SPI_CHUNK_BYTES)];
        if |data'| == h.dataLen then Received(Header, [Image(h.stream, h.seqNo, data')])
        else Received(Collect(h, data'), [])
  }

  function Prepend(out: seq<Delivery>, r: Received): Received { Received(r.state, out + r.out) }

  /** A run of transactions. */
  function Receive(s: State, ts: seq<Transaction>): (r: Received)
    decreases |ts|
  {
    if ts == [] then Received(s, [])
    else
      var first := Step(s, ts[0]);
      Prepend(first.out, Receive(first.state, ts[1..]))
  }

  lemma {:induction false} ReceiveConcat(s: State, a: seq<Transaction>, b: seq<Transaction>)
    ensures Receive(s, a + b) == Prepend(Receive(s, a).out, Receive(Receive(s, a).state, b))
    decreases |a|
  {
    if a == [] {
      assert a + b == b;
    } else {
      assert (a + b)[1..] == a[1..] + b;
      var first := Step(s, a[0]);
      ReceiveConcat(first.state, a[1..], b);
      var r := Receive(first.state, a[1..]);
      PrependPrepend(first.out, r.out, Receive(r.state, b));
    }
  }

  lemma PrependPrepend(a: seq<Delivery>, b: seq<Delivery>, r: Received)
    ensures Prepend(a, Prepend(b, r)) == Prepend(a + b, r)
  {
  }

  // The sender.

  datatype Message =
    | SendImage(msgType: uint8, stream: uint8, seqNo: uint16, data: Bytes)
    | SendStatus(stream: uint8, seqNo: uint16, occupied: uint8, plate: Bytes)

  predicate ValidMessage(m: Message) {
    match m
    case SendImage(msgType, _, _, data) => msgType != MSG_STATUS && 1 <= |data| <= VIDEO_MAX_FRAME_BYTES
    case SendStatus(_, _, _, plate) => |plate| == MAX_PLATE_LEN + 1
  }

  function Payload(m: Message): Bytes {
    match m
    case SendImage(_, _, _, data) => data
    case SendStatus(_, _, occupied, plate) => [occupied] + plate
  }

  function HeaderFor(m: Message): WireHeader
    requires ValidMessage(m)
  {
    match m
    case SendImage(msgType, stream, seqNo, data) => WireHeader(MAGIC, msgType, stream, seqNo, |data|)
    case SendStatus(stream, seqNo, _, _) => WireHeader(MAGIC, MSG_STATUS, stream, seqNo, STATUS_BYTES)
  }

  lemma WireByteBack(b: Bytes, i: nat)
    requires |b| >= WIRE_HEADER_BYTES && i < WIRE_HEADER_BYTES
    ensures WireByte(DecodeWire(b), i) == b[i]
  {
    if i < 4 {
      Byte32Back(b[..4], i);
    } else if i >= 8 {
      Byte32Back(b[8..12], i - 8);
    }
  }

  lemma Byte32Back(b: Bytes, i: nat)
    requires |b| == 4 && i < 4
    ensures Byte32(Join32(b), i) == b[i]
  {
    assert Join32(b) == b[0] as int + 0x100 * b[1] as int + 0x1_0000 * b[2] as int + 0x100_0000 * b[3] as int;
    LengthBytes(b[0], b[1], b[2], b[3]);
  }

  /** The receiver takes for a header exactly what is the header of some message. */
  lemma AnnouncesExactly(b: Bytes)
    requires |b| >= WIRE_HEADER_BYTES
    ensures Announces(DecodeWire(b)) <==>
      exists m :: ValidMessage(m) && b[..WIRE_HEADER_BYTES] == EncodeWire(HeaderFor(m))
  {
    var h := DecodeWire(b);
    if Announces(h) {
      var m := SampleOf(h);
      forall i | 0 <= i < WIRE_HEADER_BYTES ensures b[i] == WireByte(h, i) {
        WireByteBack(b, i);
      }
      assert b[..WIRE_HEADER_BYTES] == EncodeWire(HeaderFor(m));
    }
    if m :| ValidMessage(m) && b[..WIRE_HEADER_BYTES] == EncodeWire(HeaderFor(m)) {
      WireRoundTrip(HeaderFor(m), b);
    }
  }

  /** A message with this header. */
  function SampleOf(h: WireHeader): (m: Message)
    requires Announces(h)
    ensures ValidMessage(m) && HeaderFor(m) == h
  {
    if h.msgType == MSG_STATUS then SendStatus(h.stream, h.seqNo, 0, seq(MAX_PLATE_LEN + 1, _ => 0))
    else SendImage(h.msgType, h.stream, h.seqNo, seq(h.dataLen, _ => 0))
  }

  /** The chunks hold the payload, the last of them padded with anything. */
  ghost predicate Holds(chunks: seq<Chunk>, payload: Bytes)
    decreases |chunks|
  {
    if payload == [] then chunks == []
    else
      var want := Min(|payload|, SPI_CHUNK_BYTES);
      chunks != [] && chunks[0][..want] == payload[..want] && Holds(chunks[1..], payload[want..])
  }

  /** The chunks of one message: a header, padded with anything, and the payload. */
  ghost predicate Carries(chunks: seq<Chunk>, m: Message)
    requires ValidMessage(m)
  {
    && chunks != []
    && chunks[0][..WIRE_HEADER_BYTES] == EncodeWire(HeaderFor(m))
    && Holds(chunks[1..], Payload(m))
  }

  function Padded(b: Bytes): Chunk
    requires |b| <= SPI_CHUNK_BYTES
  {
    b + seq(SPI_CHUNK_BYTES - |b|, _ => 0)
  }

  function Cut(payload: Bytes): seq<Chunk> {
    if payload == [] then []
    else
      var want := Min(|payload|, SPI_CHUNK_BYTES);
      [Padded(payload[..want])] + Cut(payload[want..])
  }

  lemma {:induction false} CutHolds(payload: Bytes)
    ensures Holds(Cut(payload), payload)
    decreases |payload|
  {
    if payload != [] {
      var want := Min(|payload|, SPI_CHUNK_BYTES);
      CutHolds(payload[want..]);
      assert Cut(payload)[1..] == Cut(payload[want..]);
    }
  }

  /** What the receiver is to deliver for a message. */
  function Delivered(m: Message): Delivery
    requires ValidMessage(m)
  {
    match m
    case SendImage(_, stream, seqNo, data) => Image(stream, seqNo, data)
    case SendStatus(stream, _, occupied, plate) => Reading(stream, occupied, plate[..MAX_PLATE_LEN] + [0])
  }

  /** All of these chunks arrive, whatever the heap does meanwhile. */
  ghost predicate Arrive(ts: seq<Transaction>, chunks: seq<Chunk>) {
    |ts| == |chunks| && forall k :: 0 <= k < |ts| ==> ts[k].Clocked? && ts[k].chunk == chunks[k]
  }

  lemma {:induction false} CollectPayload(h: WireHeader, done: Bytes, ts: seq<Transaction>, chunks: seq<Chunk>,
                                          payload: Bytes)
    requires Announces(h) && h.msgType != MSG_STATUS && payload != []
    requires |done| + |payload| == h.dataLen && Arrive(ts, chunks) && Holds(chunks, payload)
    ensures Receive(Collect(h, done), ts) == Received(Header, [Image(h.stream, h.seqNo, done + payload)])
    decreases |ts|
  {
    var want := Min(|payload|, SPI_CHUNK_BYTES);
    var done' := done + ts[0].chunk[..want];
    assert done + payload == done' + payload[want..];
    if payload[want..] == [] {
      assert ts[1..] == [];
      assert done' == done + payload;
    } else {
      CollectPayload(h, done', ts[1..], chunks[1..], payload[want..]);
    }
  }

  lemma {:induction false} DrainPayload(ts: seq<Transaction>, chunks: seq<Chunk>, payload: Bytes)
    requires 1 <= |payload| <= VIDEO_MAX_FRAME_BYTES && Arrive(ts, chunks) && Holds(chunks, payload)
    ensures Receive(Drain(|payload|), ts) == Received(Header, [])
    decreases |ts|
  {
    var want := Min(|payload|, SPI_CHUNK_BYTES);
    if payload[want..] == [] {
      assert ts[1..] == [];
    } else {
      DrainPayload(ts[1..], chunks[1..], payload[want..]);
    }
  }

  lemma ReadStatus(h: WireHeader, ts: seq<Transaction>, chunks: seq<Chunk>, m: Message)
    requires ValidMessage(m) && m.SendStatus? && h == HeaderFor(m)
    requires Arrive(ts, chunks) && Holds(chunks, Payload(m))
    ensures Receive(Status(h), ts) == Received(Header, [Delivered(m)])
  {
    var b, p := ts[0].chunk, Payload(m);
    assert b[..STATUS_BYTES] == p[..STATUS_BYTES] == p;
    assert b[0] == b[..STATUS_BYTES][0] == m.occupied;
    assert b[1..STATUS_BYTES - 1] == b[..STATUS_BYTES][1..STATUS_BYTES - 1] == m.plate[..MAX_PLATE_LEN];
    assert p[STATUS_BYTES..] == [] && chunks[1..] == [] && ts[1..] == [];
  }

  /** One message, from header-wait to header-wait. */
  lemma MessageArrives(ts: seq<Transaction>, chunks: seq<Chunk>, m: Message)
    requires ValidMessage(m) && Carries(chunks, m) && Arrive(ts, chunks)
    ensures Receive(Header, ts) ==
      Received(Header, if m.SendImage? && !ts[0].hasBuffer then [] else [Delivered(m)])
  {
    var h := HeaderFor(m);
    WireRoundTrip(h, ts[0].chunk);
    var s := Step(Header, ts[0]).state;
    assert s == AfterHeader(h, ts[0].hasBuffer);
    match s
    case Status(_) => ReadStatus(h, ts[1..], chunks[1..], m);
    case Collect(_, _) => CollectPayload(h, [], ts[1..], chunks[1..], m.data); assert [] + m.data == m.data;
    case Drain(_) => DrainPayload(ts[1..], chunks[1..], m.data);
  }

  // Streams of messages.

  ghost predicate CarriesAll(chunks: seq<seq<Chunk>>, ms: seq<Message>) {
    |chunks| == |ms| && forall k :: 0 <= k < |ms| ==> ValidMessage(ms[k]) && Carries(chunks[k], ms[k])
  }

  lemma SplitArrive(ts: seq<Transaction>, a: seq<Chunk>, b: seq<Chunk>)
    requires Arrive(ts, a + b)
    ensures Arrive(ts[..|a|], a) && Arrive(ts[|a|..], b) && ts == ts[..|a|] + ts[|a|..]
  {
    assert forall k :: 0 <= k < |a| ==> (a + b)[k] == a[k];
    assert forall k :: 0 <= k < |b| ==> (a + b)[k + |a|] == b[k] && ts[|a|..][k] == ts[k + |a|];
  }

  /** The messages, minus the images for which there was no buffer when the header came. */
  ghost function Expected(ms: seq<Message>, chunks: seq<seq<Chunk>>, ts: seq<Transaction>): seq<Delivery>
    requires CarriesAll(chunks, ms) && Arrive(ts, Flat(chunks))
    decreases |ms|
  {
    if ms == [] then []
    else
      var n := |chunks[0]|;
      SplitArrive(ts, chunks[0], Flat(chunks[1..]));
      (if ms[0].SendImage? && !ts[0].hasBuffer then [] else [Delivered(ms[0])])
      + Expected(ms[1..], chunks[1..], ts[n..])
  }

  /** Round trip: every message is delivered, unchanged and in order. */
  lemma {:induction false} StreamArrives(ms: seq<Message>, chunks: seq<seq<Chunk>>, ts: seq<Transaction>)
    requires CarriesAll(chunks, ms) && Arrive(ts, Flat(chunks))
    ensures Receive(Header, ts) == Received(Header, Expected(ms, chunks, ts))
    decreases |ms|
  {
    if ms != [] {
      var n := |chunks[0]|;
      SplitArrive(ts, chunks[0], Flat(chunks[1..]));
      MessageArrives(ts[..n], chunks[0], ms[0]);
      StreamArrives(ms[1..], chunks[1..], ts[n..]);
      ReceiveConcat(Header, ts[..n], ts[n..]);
    }
  }
}
