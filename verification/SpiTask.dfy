/**
 `receiverTask` of main/luckfox_spi.cpp as the loops that it is, over one shared
 scratch buffer, proved to do what SpiReceiver says. The task blocks forever in
 `spi_slave_transmit`; here it returns when no transaction is left, with the
 place where it is blocked.
 */
module SpiTask {
  import opened Words
  import opened Config
  import opened Framing
  import opened Subsequence
  import opened SpiReceiver

  datatype Outcome = Done | Fault | Blocked

  lemma OneChunk(h: WireHeader, before: Bytes, ts: seq<Transaction>, after: Bytes)
    requires Announces(h) && h.msgType != MSG_STATUS && |before| < h.dataLen
    requires ts != [] && ts[0].Clocked?
    requires after == before + ts[0].chunk[..Min(h.dataLen - |before|, SPI_CHUNK_BYTES)]
    ensures Receive(Collect(h, before), ts) ==
      if |after| < h.dataLen then Receive(Collect(h, after), ts[1..])
      else Prepend([Image(h.stream, h.seqNo, after)], Receive(Header, ts[1..]))
  {
    var first := Step(Collect(h, before), ts[0]);
    assert first == if |after| < h.dataLen then Received(Collect(h, after), [])
                    else Received(Header, [Image(h.stream, h.seqNo, after)]);
    FirstStep(Collect(h, before), ts, first);
    PrependNothing(Receive(first.state, ts[1..]));
  }

  lemma FirstStep(s: State, ts: seq<Transaction>, first: Received)
    requires ts != [] && first == Step(s, ts[0])
    ensures Receive(s, ts) == Prepend(first.out, Receive(first.state, ts[1..]))
  {
  }

  lemma PrependNothing(r: Received)
    ensures Prepend([], r) == r
  {
  }

  class Slave {
    const scratch: array<uint8>
    var incoming: seq<Transaction>
    var heapOk: bool
    var delivered: seq<Delivery>

    ghost predicate Valid() { scratch.Length == SPI_CHUNK_BYTES }

    constructor (incoming: seq<Transaction>)
      ensures Valid() && fresh(scratch) && this.incoming == incoming && delivered == []
    {
      scratch := new uint8[SPI_CHUNK_BYTES];
      this.incoming := incoming;
      heapOk := false;
      delivered := [];
    }

    method TransactOnce() returns (r: Outcome)
      requires Valid()
      modifies `incoming, `heapOk, scratch
      ensures r == Blocked <==> old(incoming) == []
      ensures incoming == if r == Blocked then [] else old(incoming)[1..]
      ensures r != Blocked ==> (r == Fault <==> old(incoming)[0].Failed?)
      ensures r == Done ==> old(incoming)[0] == Clocked(scratch[..], heapOk)
    {
      if incoming == [] {
        return Blocked;
      }
      var t := incoming[0];
      incoming := incoming[1..];
      match t
      case Failed(_) =>
        return Fault;
      case Clocked(chunk, hasBuffer) =>
        heapOk := hasBuffer;
        forall i | 0 <= i < SPI_CHUNK_BYTES {
          scratch[i] := chunk[i];
        }
        assert scratch[..] == chunk;
        return Done;
    }

    method AwaitHeader() returns (h: Option<WireHeader>)
      requires Valid()
      modifies `incoming, `heapOk, scratch
      ensures h.Some? ==> h.value.magic == MAGIC && |incoming| < |old(incoming)|
      ensures Receive(Header, old(incoming)) ==
        if h.None? then Received(Header, []) else Receive(AfterHeader(h.value, heapOk), incoming)
    {
      while true
        invariant Receive(Header, old(incoming)) == Receive(Header, incoming)
        invariant |incoming| <= |old(incoming)|
        decreases |incoming|
      {
        var r := TransactOnce();
        if r == Blocked {
          return None;
        }
        if r == Done {
          var header := DecodeWire(scratch[..]);
          if header.magic == MAGIC {
            return Some(header);
          }
        }
      }
    }

    /** The status that follows its header. */
    method ReadStatus(h: WireHeader) returns (r: Outcome, ghost out: seq<Delivery>)
      requires Valid() && Announces(h) && h.msgType == MSG_STATUS
      modifies `incoming, `heapOk, `delivered, scratch
      ensures |incoming| <= |old(incoming)|
      ensures delivered == old(delivered) + out
      ensures Receive(Status(h), old(incoming)) ==
        if r == Blocked then Received(Status(h), out) else Prepend(out, Receive(Header, incoming))
    {
      r := TransactOnce();
      out := [];
      if r == Done {
        out := [ReadingOf(h.stream, scratch[..])];
        delivered := delivered + [ReadingOf(h.stream, scratch[..])];
      }
    }

    /** The chunks of a frame for which there is no buffer. */
    method DrainFrame(len: nat) returns (r: Outcome, remaining: nat)
      requires Valid() && 1 <= len <= VIDEO_MAX_FRAME_BYTES
      modifies `incoming, `heapOk, scratch
      ensures |incoming| <= |old(incoming)|
      ensures r == Blocked ==> 1 <= remaining <= VIDEO_MAX_FRAME_BYTES
      ensures Receive(Drain(len), old(incoming)) ==
        if r == Blocked then Received(Drain(remaining), []) else Receive(Header, incoming)
    {
      r, remaining := Done, len;
      while remaining > 0
        invariant remaining <= len && r == Done && |incoming| <= |old(incoming)|
        invariant Receive(Drain(len), old(incoming)) ==
          Receive(if remaining == 0 then Header else Drain(remaining), incoming)
      {
        r := TransactOnce();
        if r != Done {
          return;
        }
        remaining := remaining - Min(remaining, SPI_CHUNK_BYTES);
      }
    }

    /** The next chunk of a frame, copied into its buffer. */
    method CollectChunk(h: WireHeader, data: array<uint8>, received: nat) returns (r: Outcome, now: nat)
      requires Valid() && Announces(h) && h.msgType != MSG_STATUS && data.Length == h.dataLen && data != scratch
      requires received < h.dataLen
      modifies `incoming, `heapOk, scratch, data
      ensures |incoming| <= |old(incoming)| && (r == Done ==> received < now <= h.dataLen)
      ensures r != Done ==> now == received && data[..] == old(data[..])
      ensures Receive(Collect(h, old(data[..received])), old(incoming)) ==
        match r
        case Done =>
          if now < h.dataLen then Receive(Collect(h, data[..now]), incoming)
          else Prepend([Image(h.stream, h.seqNo, data[..])], Receive(Header, incoming))
        case Fault => Receive(Header, incoming)
        case Blocked => Received(Collect(h, data[..received]), [])
    {
      ghost var ts, before := incoming, data[..received];
      now := received;
      r := TransactOnce();
      if r != Done {
        return;
      }
      var want := Min(h.dataLen - received, SPI_CHUNK_BYTES);
      forall i | 0 <= i < want {
        data[received + i] := scratch[i];
      }
      now := received + want;
      assert data[..now] == before + scratch[..][..want];
      assert now == h.dataLen ==> data[..now] == data[..];
      OneChunk(h, before, ts, data[..now]);
    }

    /** The chunks of a frame, copied into its buffer. */
    method CollectFrame(h: WireHeader, data: array<uint8>) returns (r: Outcome, received: nat)
      requires Valid() && Announces(h) && h.msgType != MSG_STATUS && data.Length == h.dataLen && data != scratch
      modifies `incoming, `heapOk, scratch, data
      ensures |incoming| <= |old(incoming)|
      ensures r == Blocked ==> received < data.Length
      ensures Receive(Collect(h, []), old(incoming)) ==
        match r
        case Done => Prepend([Image(h.stream, h.seqNo, data[..])], Receive(Header, incoming))
        case Fault => Receive(Header, incoming)
        case Blocked => Received(Collect(h, data[..received]), [])
    {
      r, received := Done, 0;
      assert data[..0] == [];
      while received < h.dataLen
        invariant received <= h.dataLen && r == Done && |incoming| <= |old(incoming)|
        invariant Receive(Collect(h, []), old(incoming)) ==
          if received < h.dataLen then Receive(Collect(h, data[..received]), incoming)
          else Prepend([Image(h.stream, h.seqNo, data[..])], Receive(Header, incoming))
      {
        r, received := CollectChunk(h, data, received);
        if r != Done {
          return;
        }
      }
    }

    /** What follows a header with the magic word. */
    method TakeMessage(h: WireHeader) returns (blocked: Option<State>, ghost out: seq<Delivery>)
      requires Valid() && h.magic == MAGIC
      modifies this, scratch
      ensures |incoming| <= |old(incoming)| && delivered == old(delivered) + out
      ensures Receive(old(AfterHeader(h, heapOk)), old(incoming)) ==
        if blocked.Some? then Received(blocked.value, out) else Prepend(out, Receive(Header, incoming))
    {
      blocked, out := None, [];
      if !Announces(h) {
        PrependNothing(Receive(Header, incoming));
        return;
      }
      if h.msgType == MSG_STATUS {
        var r;
        r, out := ReadStatus(h);
        if r == Blocked {
          blocked := Some(Status(h));
        }
      } else if !heapOk {
        var r, remaining := DrainFrame(h.dataLen);
        PrependNothing(Receive(Header, incoming));
        if r == Blocked {
          blocked := Some(Drain(remaining));
        }
      } else {
        blocked, out := TakeFrame(h);
      }
    }

    method TakeFrame(h: WireHeader) returns (blocked: Option<State>, ghost out: seq<Delivery>)
      requires Valid() && Announces(h) && h.msgType != MSG_STATUS
      modifies this, scratch
      ensures |incoming| <= |old(incoming)| && delivered == old(delivered) + out
      ensures Receive(Collect(h, []), old(incoming)) ==
        if blocked.Some? then Received(blocked.value, out) else Prepend(out, Receive(Header, incoming))
    {
      blocked, out := None, [];
      var data := new uint8[h.dataLen];
      var r, received := CollectFrame(h, data);
      match r
      case Blocked =>
        blocked := Some(Collect(h, data[..received]));
      case Done =>
        out := [Image(h.stream, h.seqNo, data[..])];
        delivered := delivered + [Image(h.stream, h.seqNo, data[..])];
      case Fault =>
    }

    method ReceiverTask() returns (at: State)
      requires Valid()
      modifies this, scratch
      ensures at == Receive(Header, old(incoming)).state
      ensures delivered == old(delivered) + Receive(Header, old(incoming)).out
    {
      ghost var done: seq<Delivery> := [];
      while true
        invariant delivered == old(delivered) + done
        invariant Receive(Header, old(incoming)) == Prepend(done, Receive(Header, incoming))
        decreases |incoming|
      {
        var h := AwaitHeader();
        if h.None? {
          return Header;
        }
        ghost var ts := incoming;
        var blocked, out := TakeMessage(h.value);
        PrependPrepend(done, out, Receive(Header, incoming));
        Assoc(old(delivered), done, out);
        done := done + out;
        if blocked.Some? {
          return blocked.value;
        }
      }
    }
  }
}
