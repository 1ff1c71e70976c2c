/**
 How the Gateway sends a frame to the backend: as UDP datagrams that each carry
 their place (the chunk loop of `videoUplinkTask`, main/gateway_uplink.cpp).
 The backend is not part of this repository; `Reassemble` is the least it can do.
 */
module UdpChunks {
  import opened Words
  import opened Config
  import opened Framing

  const SIZE := VIDEO_UDP_CHUNK_BYTES
  const CHUNK_HEADER_BYTES := 8
  const MAX_CHUNKS := 0xFFFF

  datatype VideoItem = VideoItem(origin: uint8, stream: uint8, seqNo: uint16, data: Bytes)

  datatype Datagram =
    Datagram(origin: uint8, stream: uint8, seqNo: uint16, index: uint16, count: uint16, payload: Bytes)

  /** `data_len` is a `uint32_t`. */
  predicate ValidItem(item: VideoItem) { |item.data| < 0x1_0000_0000 }

  /** In 32-bit arithmetic, truncated to 16 bits; a frame has at least one chunk. */
  function ChunkCount(len: uint32): uint16 {
    var count := Wrap16(Wrap32(len + SIZE - 1) / SIZE);
    if count == 0 then 1 else count
  }

  /** The bytes of chunk i, the difference again in 32-bit arithmetic. */
  function ChunkLen(len: uint32, i: uint16): nat {
    Min(SIZE, Wrap32(len - i * SIZE))
  }

  lemma CountIsCeiling(len: uint32)
    requires len <= SIZE * MAX_CHUNKS
    ensures var n := ChunkCount(len);
      (n - 1) * SIZE <= len <= n * SIZE && (len > 0 ==> (n - 1) * SIZE < len)
  {
    Remainder(len + SIZE - 1, 0, 0x1_0000_0000);
    var c := (len + SIZE - 1) / SIZE;
    Remainder(c, 0, 0x1_0000);
  }

  /** For every length whatever, no offset passes the end of the frame: `remaining` never underflows. */
  lemma NeverUnderflows(len: uint32, i: uint16)
    requires i < ChunkCount(len)
    ensures i * SIZE <= len && ChunkLen(len, i) == Min(SIZE, len - i * SIZE)
  {
    if i > 0 {
      var w := Wrap32(len + SIZE - 1);
      if len + SIZE - 1 >= 0x1_0000_0000 {
        Remainder(len + SIZE - 1, 1, 0x1_0000_0000);
      } else {
        Remainder(len + SIZE - 1, 0, 0x1_0000_0000);
      }
      WrapBelow(w / SIZE);
      assert i * SIZE <= (w / SIZE - 1) * SIZE <= len;
    }
    Remainder(len - i * SIZE, 0, 0x1_0000_0000);
  }

  lemma WrapBelow(x: nat)
    ensures Wrap16(x) <= x
  {
  }

  /** Chunk i of a frame. */
  function ChunkOf(item: VideoItem, i: uint16): Datagram
    requires ValidItem(item) && i < ChunkCount(|item.data|)
  {
    NeverUnderflows(|item.data|, i);
    Datagram(item.origin, item.stream, item.seqNo, i, ChunkCount(|item.data|),
             item.data[i * SIZE..i * SIZE + ChunkLen(|item.data|, i)])
  }

  /** All chunks but the last are full, and the last of a non-empty frame is not empty. */
  lemma ChunksAreFull(item: VideoItem, i: uint16)
    requires 1 <= |item.data| <= SIZE * MAX_CHUNKS && i < ChunkCount(|item.data|)
    ensures 1 <= |ChunkOf(item, i).payload| <= SIZE
    ensures i + 1 < ChunkCount(|item.data|) ==> |ChunkOf(item, i).payload| == SIZE
  {
    NeverUnderflows(|item.data|, i);
    CountIsCeiling(|item.data|);
  }

  // The backend.

  /** The payload of the first datagram received with this index. */
  function PayloadAt(received: seq<Datagram>, i: nat): Bytes {
    if received == [] then []
    else if received[0].index == i then received[0].payload
    else PayloadAt(received[1..], i)
  }

  function Join(received: seq<Datagram>, n: nat): Bytes {
    if n == 0 then [] else Join(received, n - 1) + PayloadAt(received, n - 1)
  }

  /** A set of datagrams says how many they are, and whose. */
  function Reassemble(received: seq<Datagram>): VideoItem
    requires received != []
  {
    var d := received[0];
    VideoItem(d.origin, d.stream, d.seqNo, Join(received, d.count))
  }

  /** Only chunks of this frame, and each of them at least once: any order, any duplicates. */
  ghost predicate Complete(received: seq<Datagram>, item: VideoItem)
    requires ValidItem(item)
  {
    && (forall d :: d in received ==> d.index < ChunkCount(|item.data|) && d == ChunkOf(item, d.index))
    && (forall i: uint16 :: i < ChunkCount(|item.data|) ==> ChunkOf(item, i) in received)
  }

  lemma {:induction false} FoundPayload(received: seq<Datagram>, item: VideoItem, i: uint16)
    requires ValidItem(item) && i < ChunkCount(|item.data|) && ChunkOf(item, i) in received
    requires forall d :: d in received ==> d.index < ChunkCount(|item.data|) && d == ChunkOf(item, d.index)
    ensures PayloadAt(received, i) == ChunkOf(item, i).payload
  {
    assert received[0] in received;
    if received[0].index != i {
      FoundPayload(received[1..], item, i);
    }
  }

  lemma NextChunk(item: VideoItem, i: uint16)
    requires ValidItem(item) && i < ChunkCount(|item.data|)
    ensures item.data[..Min(|item.data|, i * SIZE)] + ChunkOf(item, i).payload
         == item.data[..Min(|item.data|, (i + 1) * SIZE)]
  {
    NeverUnderflows(|item.data|, i);
    Slices(item.data, i * SIZE, ChunkLen(|item.data|, i));
  }

  lemma Slices(data: Bytes, at: nat, len: nat)
    requires at + len <= |data|
    ensures data[..at] + data[at..at + len] == data[..at + len]
  {
  }

  /** The first n chunks hold the first n * SIZE bytes. */
  lemma {:induction false} JoinIsPrefix(received: seq<Datagram>, item: VideoItem, n: nat)
    requires ValidItem(item) && Complete(received, item) && n <= ChunkCount(|item.data|)
    ensures Join(received, n) == item.data[..Min(|item.data|, n * SIZE)]
  {
    if n > 0 {
      JoinIsPrefix(received, item, n - 1);
      FoundPayload(received, item, n - 1);
      NextChunk(item, n - 1);
    }
  }

  /**
   Lossless exactly up to 1400 * 65535 bytes, hence for every frame the chain
   carries: from all chunks in any order, with any repeats, the backend gets the
   frame back, with its origin, stream and number. Of a longer one, whose chunk
   count has lost its upper bits, it gets a part.
   */
  lemma Lossless(received: seq<Datagram>, item: VideoItem)
    requires ValidItem(item) && Complete(received, item)
    ensures received != [] && (Reassemble(received) == item <==> |item.data| <= SIZE * MAX_CHUNKS)
    ensures var r := Reassemble(received);
      r.origin == item.origin && r.stream == item.stream && r.seqNo == item.seqNo && r.data <= item.data
    ensures ValidFrame(Frame(item.origin, item.stream, item.seqNo, item.data)) ==> Reassemble(received) == item
  {
    var n := ChunkCount(|item.data|);
    assert ChunkOf(item, 0) in received;
    assert received[0] in received;
    JoinIsPrefix(received, item, n);
    if |item.data| <= SIZE * MAX_CHUNKS {
      CountIsCeiling(|item.data|);
      assert item.data[..|item.data|] == item.data;
    } else {
      assert n * SIZE <= MAX_CHUNKS * SIZE;
    }
  }

  /** The same datagrams cannot be all the chunks of two different frames. */
  lemma ChunksDetermineTheFrame(received: seq<Datagram>, a: VideoItem, b: VideoItem)
    requires |a.data| <= SIZE * MAX_CHUNKS && |b.data| <= SIZE * MAX_CHUNKS
    requires Complete(received, a) && Complete(received, b)
    ensures a == b
  {
    Lossless(received, a);
    Lossless(received, b);
    assert ChunkOf(a, 0) in received;
  }

  // On the wire.

  function DatagramByte(d: Datagram, k: nat): uint8
    requires k < CHUNK_HEADER_BYTES + |d.payload|
  {
    if k == 0 then d.origin
    else if k == 1 then d.stream
    else if k == 2 then Low(d.seqNo)
    else if k == 3 then High(d.seqNo)
    else if k == 4 then Low(d.index)
    else if k == 5 then High(d.index)
    else if k == 6 then Low(d.count)
    else if k == 7 then High(d.count)
    else d.payload[k - CHUNK_HEADER_BYTES]
  }

  function EncodeDatagram(d: Datagram): (b: Bytes)
    ensures |b| == CHUNK_HEADER_BYTES + |d.payload|
  {
    var n := CHUNK_HEADER_BYTES + |d.payload|;
    seq(n, k requires 0 <= k < n => DatagramByte(d, k))
  }

  function DecodeDatagram(b: Bytes): Datagram
    requires |b| >= CHUNK_HEADER_BYTES
  {
    Datagram(b[0], b[1], Join16(b[2], b[3]), Join16(b[4], b[5]), Join16(b[6], b[7]), b[CHUNK_HEADER_BYTES..])
  }

  lemma DatagramRoundTrip(d: Datagram)
    ensures DecodeDatagram(EncodeDatagram(d)) == d
  {
    assert EncodeDatagram(d)[CHUNK_HEADER_BYTES..] == d.payload;
  }

  /** The first n chunks of a frame as they go out. */
  function Wire(item: VideoItem, n: nat): seq<Bytes>
    requires ValidItem(item) && n <= ChunkCount(|item.data|)
  {
    seq(n, i requires 0 <= i < n => EncodeDatagram(ChunkOf(item, i)))
  }

  function AllChunks(item: VideoItem): seq<Bytes>
    requires ValidItem(item)
  {
    Wire(item, ChunkCount(|item.data|))
  }

  ghost predicate AreDatagrams(wire: seq<Bytes>) { forall k :: 0 <= k < |wire| ==> |wire[k]| >= CHUNK_HEADER_BYTES }

  ghost function DecodeAll(wire: seq<Bytes>): seq<Datagram>
    requires AreDatagrams(wire)
  {
    seq(|wire|, k requires 0 <= k < |wire| => DecodeDatagram(wire[k]))
  }

  lemma WhichChunk(item: VideoItem, b: Bytes) returns (i: uint16)
    requires ValidItem(item) && b in AllChunks(item)
    ensures i < ChunkCount(|item.data|) && |b| >= CHUNK_HEADER_BYTES && DecodeDatagram(b) == ChunkOf(item, i)
  {
    var all := AllChunks(item);
    i :| 0 <= i < |all| && all[i] == b;
    DatagramRoundTrip(ChunkOf(item, i));
  }

  lemma ChunkOnTheWire(item: VideoItem, i: uint16)
    requires ValidItem(item) && i < ChunkCount(|item.data|)
    ensures EncodeDatagram(ChunkOf(item, i)) in AllChunks(item)
  {
    assert AllChunks(item)[i] == EncodeDatagram(ChunkOf(item, i));
  }

  lemma DecodedComplete(item: VideoItem, wire: seq<Bytes>)
    requires ValidItem(item)
    requires forall b :: b in wire <==> b in AllChunks(item)
    ensures AreDatagrams(wire) && Complete(DecodeAll(wire), item)
  {
    forall k | 0 <= k < |wire|
      ensures |wire[k]| >= CHUNK_HEADER_BYTES
      ensures var d := DecodeDatagram(wire[k]);
        d.index < ChunkCount(|item.data|) && d == ChunkOf(item, d.index)
    {
      assert wire[k] in wire;
      var i := WhichChunk(item, wire[k]);
    }
    forall i: uint16 | i < ChunkCount(|item.data|) ensures ChunkOf(item, i) in DecodeAll(wire) {
      var d := ChunkOf(item, i);
      ChunkOnTheWire(item, i);
      var k :| 0 <= k < |wire| && wire[k] == EncodeDatagram(d);
      DatagramRoundTrip(d);
      assert DecodeAll(wire)[k] == d;
    }
  }

  /** End to end: whatever arrives, in any order and any number, if it is all of it, is the frame. */
  lemma FrameRecovered(item: VideoItem, wire: seq<Bytes>)
    requires |item.data| <= SIZE * MAX_CHUNKS
    requires forall b :: b in wire <==> b in AllChunks(item)
    ensures AreDatagrams(wire) && wire != [] && Reassemble(DecodeAll(wire)) == item
  {
    DecodedComplete(item, wire);
    Lossless(DecodeAll(wire), item);
  }

  /** The task's one chunk buffer and its connected socket; each `send` succeeds or not. */
  class ChunkSender {
    const chunkBuf: array<uint8>
    var results: seq<bool>
    var sent: seq<Bytes>

    ghost predicate Valid() { chunkBuf.Length == CHUNK_HEADER_BYTES + SIZE }

    constructor (results: seq<bool>)
      ensures Valid() && fresh(chunkBuf) && this.results == results && sent == []
    {
      chunkBuf := new uint8[CHUNK_HEADER_BYTES + SIZE];
      this.results := results;
      sent := [];
    }

    method Send(len: nat) returns (ok: bool)
      requires Valid() && len <= chunkBuf.Length
      modifies `results, `sent
      ensures ok == (old(results) != [] && old(results)[0])
      ensures results == if old(results) == [] then [] else old(results)[1..]
      ensures sent == if ok then old(sent) + [chunkBuf[..len]] else old(sent)
    {
      ok := results != [] && results[0];
      results := if results == [] then [] else results[1..];
      if ok {
        sent := sent + [chunkBuf[..len]];
      }
    }

    /** The header fields that do not change from chunk to chunk are in place. */
    ghost predicate HasHeader(item: VideoItem)
      requires ValidItem(item)
      reads chunkBuf
    {
      && Valid()
      && chunkBuf[0] == item.origin && chunkBuf[1] == item.stream
      && chunkBuf[2] == Low(item.seqNo) && chunkBuf[3] == High(item.seqNo)
      && chunkBuf[6] == Low(ChunkCount(|item.data|)) && chunkBuf[7] == High(ChunkCount(|item.data|))
    }

    method FillHeader(item: VideoItem, count: uint16)
      requires Valid() && ValidItem(item) && count == ChunkCount(|item.data|)
      modifies chunkBuf
      ensures HasHeader(item)
    {
      chunkBuf[0], chunkBuf[1] := item.origin, item.stream;
      chunkBuf[2], chunkBuf[3] := Low(item.seqNo), High(item.seqNo);
      chunkBuf[6], chunkBuf[7] := Low(count), High(count);
    }

    method FillChunk(item: VideoItem, i: uint16) returns (len: nat)
      requires ValidItem(item) && HasHeader(item) && i < ChunkCount(|item.data|)
      modifies chunkBuf
      ensures len <= SIZE && chunkBuf[..CHUNK_HEADER_BYTES + len] == EncodeDatagram(ChunkOf(item, i))
      ensures HasHeader(item)
    {
      NeverUnderflows(|item.data|, i);
      var offset := i * SIZE;
      len := ChunkLen(|item.data|, i);
      chunkBuf[4], chunkBuf[5] := Low(i), High(i);
      forall k | 0 <= k < len {
        chunkBuf[CHUNK_HEADER_BYTES + k] := item.data[offset + k];
      }
      var d := ChunkOf(item, i);
      forall k | 0 <= k < CHUNK_HEADER_BYTES + len ensures chunkBuf[k] == DatagramByte(d, k) {
      }
    }

    /** One chunk is written into the buffer and sent from it. */
    method SendChunk(item: VideoItem, i: uint16) returns (ok: bool)
      requires ValidItem(item) && HasHeader(item) && i < ChunkCount(|item.data|)
      modifies `results, `sent, chunkBuf
      ensures HasHeader(item)
      ensures ok == (old(results) != [] && old(results)[0])
      ensures results == if old(results) == [] then [] else old(results)[1..]
      ensures sent == if ok then old(sent) + [EncodeDatagram(ChunkOf(item, i))] else old(sent)
    {
      var len := FillChunk(item, i);
      ok := Send(CHUNK_HEADER_BYTES + len);
    }

    /** All chunks of a frame in order, up to the first that cannot be sent. */
    method SendFrame(item: VideoItem) returns (n: nat, sendFailed: bool)
      requires Valid() && ValidItem(item)
      modifies `results, `sent, chunkBuf
      ensures n <= ChunkCount(|item.data|) && (sendFailed <==> n < ChunkCount(|item.data|))
      ensures n <= |old(results)| && (forall i :: 0 <= i < n ==> old(results)[i])
      ensures sendFailed ==> n == |old(results)| || !old(results)[n]
      ensures sent == old(sent) + Wire(item, n)
    {
      var count := ChunkCount(|item.data|);
      FillHeader(item, count);
      n, sendFailed := 0, false;
      while n < count
        invariant n <= count && HasHeader(item)
        invariant n <= |old(results)| && results == old(results)[n..]
        invariant forall i :: 0 <= i < n ==> old(results)[i]
        invariant sent == old(sent) + Wire(item, n)
      {
        var ok := SendChunk(item, n);
        if !ok {
          sendFailed := true;
          return;
        }
        WireNext(item, n);
        n := n + 1;
      }
    }
  }

  lemma WireNext(item: VideoItem, n: nat)
    requires ValidItem(item) && n < ChunkCount(|item.data|)
    ensures Wire(item, n + 1) == Wire(item, n) + [EncodeDatagram(ChunkOf(item, n))]
  {
  }
}
