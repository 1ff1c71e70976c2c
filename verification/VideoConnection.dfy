/**
 One TCP connection of the video relay (main/video_relay.cpp): `recvAll`,
 `sendAll`, the server's receive loop and the client's send loop, for every way
 the stack may split the bytes over `recv` and `send` calls and for failures at
 any call.
 */
module VideoConnection {
  import opened Words
  import opened Framing
  import opened Subsequence
  import opened VideoStream

  /** A connected socket: the bytes the peer will deliver, and what the coming calls return. */
  class Socket {
    const inbound: Bytes
    var pos: nat
    var outbound: Bytes
    var results: seq<int>

    ghost predicate Valid()
      reads this
    {
      pos <= |inbound|
    }

    ghost function Unread(): Bytes
      reads this
      requires Valid()
    {
      inbound[pos..]
    }

    method Recv(buf: array<uint8>, at: nat, len: nat) returns (n: nat)
      requires Valid() && 0 < len && at + len <= buf.Length
      modifies `pos, `results, buf
      ensures Valid() && results == Later(old(results))
      ensures n == CallResult(old(results), len, |old(Unread())|)
      ensures pos == old(pos) + n
      ensures buf[..at] == old(buf[..at]) && buf[at..at + n] == old(Unread()[..n])
    {
      n := CallResult(results, len, |inbound| - pos);
      results := Later(results);
      forall i | 0 <= i < n {
        buf[at + i] := inbound[pos + i];
      }
      pos := pos + n;
    }

    method Send(data: Bytes) returns (n: nat)
      requires data != []
      modifies `outbound, `results
      ensures results == Later(old(results))
      ensures n == CallResult(old(results), |data|, |data|)
      ensures outbound == old(outbound) + data[..n]
    {
      n := CallResult(results, |data|, |data|);
      results := Later(results);
      outbound := outbound + data[..n];
    }
  }

  lemma PlusPlus(a: nat, b: nat, t: Taken)
    ensures Plus(a, Plus(b, t)) == Plus(a + b, t)
  {
  }

  lemma NextSlice(bytes: Bytes, got: nat, n: nat)
    requires got + n <= |bytes|
    ensures bytes[..got] + bytes[got..][..n] == bytes[..got + n]
    ensures bytes[got..][n..] == bytes[got + n..]
  {
  }

  /** One `recv` into the rest of the buffer, as the next of the calls that `recvAll` makes. */
  method RecvMore(sock: Socket, buf: array<uint8>, got: nat, len: nat, ghost bytes: Bytes) returns (n: nat)
    requires sock.Valid() && got < len <= buf.Length
    requires got <= |bytes| && buf[..got] == bytes[..got] && sock.Unread() == bytes[got..]
    modifies sock`pos, sock`results, buf
    ensures sock.Valid() && n <= len - got && n <= |bytes| - got && sock.pos == old(sock.pos) + n
    ensures buf[..got + n] == bytes[..got + n] && sock.Unread() == bytes[got + n..]
    ensures Plus(got, Take(|bytes| - got, old(sock.results), len - got)) ==
      if n == 0 then Taken(got, sock.results, false)
      else Plus(got + n, Take(|bytes| - (got + n), sock.results, len - (got + n)))
  {
    n := sock.Recv(buf, got, len - got);
    NextSlice(bytes, got, n);
    assert buf[..got + n] == buf[..got] + buf[got..got + n];
    PlusPlus(got, n, Take(|bytes| - (got + n), sock.results, len - (got + n)));
  }

  method RecvAll(sock: Socket, buf: array<uint8>, len: nat) returns (ok: bool)
    requires sock.Valid() && len <= buf.Length
    modifies sock`pos, sock`results, buf
    ensures sock.Valid()
    ensures var t := Take(|old(sock.Unread())|, old(sock.results), len);
      ok == t.ok && sock.results == t.results && sock.pos == old(sock.pos) + t.count
    ensures ok ==> buf[..len] == old(sock.Unread())[..len]
  {
    var got := 0;
    ghost var bytes := sock.Unread();
    ghost var all := Plus(0, Take(|bytes| - 0, sock.results, len - 0));
    while got < len
      invariant got <= len && sock.Valid() && sock.pos == old(sock.pos) + got
      invariant got <= |bytes| && buf[..got] == bytes[..got] && sock.Unread() == bytes[got..]
      invariant all == Plus(got, Take(|bytes| - got, sock.results, len - got))
    {
      var n := RecvMore(sock, buf, got, len, bytes);
      if n <= 0 {
        return false;
      }
      got := got + n;
    }
    return true;
  }

  /** `sendAll`: all of the data, or what went out before the first failing call. */
  method SendAll(sock: Socket, data: Bytes) returns (ok: bool, ghost sent: nat)
    modifies sock`outbound, sock`results
    ensures Take(|data|, old(sock.results), |data|) == Taken(sent, sock.results, ok)
    ensures sent <= |data| && sock.outbound == old(sock.outbound) + data[..sent]
  {
    var done := 0;
    sent := 0;
    ghost var all := Take(|data|, sock.results, |data|);
    while done < |data|
      invariant done == sent <= |data|
      invariant sock.outbound == old(sock.outbound) + data[..sent]
      invariant all == Plus(done, Take(|data| - done, sock.results, |data| - done))
    {
      var n := SendMore(sock, data, done);
      if n <= 0 {
        return false, sent;
      }
      PlusPlus(done, n, Take(|data| - done - n, sock.results, |data| - done - n));
      Assoc(old(sock.outbound), data[..done], data[done..][..n]);
      NextSlice(data, done, n);
      done := done + n;
      sent := done;
    }
    return true, sent;
  }

  /** One `send` of the rest of the data. */
  method SendMore(sock: Socket, data: Bytes, done: nat) returns (n: nat)
    requires done < |data|
    modifies sock`outbound, sock`results
    ensures done + n <= |data| && sock.outbound == old(sock.outbound) + data[done..][..n]
    ensures Take(|data| - done, old(sock.results), |data| - done) ==
      if n == 0 then Taken(0, sock.results, false)
      else Plus(n, Take(|data| - done - n, sock.results, |data| - done - n))
  {
    n := sock.Send(data[done..]);
  }

  /** The drain loop of `serverTask`. */
  method DrainPayload(sock: Socket, len: nat) returns (ok: bool)
    requires sock.Valid()
    modifies sock`pos, sock`results
    ensures sock.Valid()
    ensures var t := Drain(|old(sock.Unread())|, old(sock.results), len);
      ok == t.ok && sock.results == t.results && sock.pos == old(sock.pos) + t.count
  {
    var scratch := new uint8[DRAIN_SCRATCH_BYTES];
    var remaining := len;
    while remaining > 0
      invariant 0 <= remaining <= len && sock.Valid() && sock.pos == old(sock.pos) + (len - remaining)
      invariant var t := Drain(|old(sock.Unread())|, old(sock.results), len);
        var u := Drain(|sock.Unread()|, sock.results, remaining);
        t == Taken(len - remaining + u.count, u.results, u.ok)
    {
      var chunk := Min(remaining, DRAIN_SCRATCH_BYTES);
      var got := RecvAll(sock, scratch, chunk);
      if !got {
        return false;
      }
      remaining := remaining - chunk;
    }
    return true;
  }

  /** One turn of the receive loop of `serverTask`. */
  method ReadOne(sock: Socket, header: array<uint8>, hasBuffer: bool) returns (turn: Turn)
    requires sock.Valid() && header.Length == HEADER_BYTES
    modifies sock`pos, sock`results, header
    ensures sock.Valid()
    ensures turn == ReadItem(old(sock.Unread()), old(sock.results), hasBuffer)
    ensures sock.pos == old(sock.pos) + turn.read && (!turn.Ended? ==> sock.results == turn.results)
  {
    ghost var bytes := sock.Unread();
    var start := sock.pos;
    var ok := RecvAll(sock, header, HEADER_BYTES);
    if !ok {
      return Ended(sock.pos - start);
    }
    assert header[..] == header[..HEADER_BYTES] == bytes[..HEADER_BYTES];
    var h := DecodeHeader(header[..]);
    ghost var rest := bytes[HEADER_BYTES..];
    assert sock.Unread() == rest;
    if IsHeartbeat(h) {
      return Beat(HEADER_BYTES, sock.results);
    }
    if IsBad(h) {
      return Ended(HEADER_BYTES);
    }
    if !hasBuffer {
      ok := DrainPayload(sock, h.dataLen);
      return Dropped(sock.pos - start, sock.results, ok);
    }
    var data := new uint8[h.dataLen];
    ok := RecvAll(sock, data, h.dataLen);
    if !ok {
      return Ended(sock.pos - start);
    }
    assert data[..] == data[..h.dataLen] == rest[..h.dataLen];
    return Whole(HEADER_BYTES + h.dataLen, sock.results, Frame(h.origin, h.stream, h.seqNo, data[..]));
  }

  /** A connection that has yielded this so far, and what the rest of it yields. */
  function After(frames: seq<Frame>, read: nat, dropped: nat, drainFailed: bool, rest: Served): Served {
    Served(frames + rest.frames, read + rest.read, dropped + rest.dropped, drainFailed || rest.drainFailed)
  }

  /** The frames handed on before a turn, and the one of the turn. */
  function Gathered(frames: seq<Frame>, turn: Turn): seq<Frame> {
    if turn.Whole? then frames + [turn.frame] else frames
  }

  lemma GatheredFirst(frames: seq<Frame>, turn: Turn, rest: seq<Frame>)
    ensures Gathered(frames, turn) + rest == frames + ((if turn.Whole? then [turn.frame] else []) + rest)
  {
  }

  /** The whole of what a connection yields, at a point where it has yielded this much. */
  ghost predicate Leaves(all: Served, frames: seq<Frame>, read: nat, dropped: nat, failed: bool,
                         bytes: Bytes, results: seq<int>, alloc: nat -> bool, k: nat)
  {
    forall rest {:trigger After(frames, read, dropped, failed, rest)} ::
      rest == Serve(bytes, results, alloc, k) ==> all == After(frames, read, dropped, failed, rest)
  }

  lemma AtFirst(bytes: Bytes, results: seq<int>, alloc: nat -> bool, frames: seq<Frame>, read: nat, dropped: nat,
                failed: bool)
    requires frames == [] && read == 0 && dropped == 0 && !failed
    ensures Leaves(Serve(bytes, results, alloc, 0), frames, read, dropped, failed, bytes, results, alloc, 0)
  {
  }

  /** One more turn, `rest` being what comes after it. */
  lemma ServeStep(all: Served, frames: seq<Frame>, read: nat, dropped: nat, failed: bool,
                  bytes: Bytes, results: seq<int>, alloc: nat -> bool, k: nat, rest: Served)
    requires var t := ReadItem(bytes, results, alloc(k));
      !t.Ended? && rest == Serve(bytes[t.read..], t.results, alloc, if t.Beat? then k else k + 1)
    requires Leaves(all, frames, read, dropped, failed, bytes, results, alloc, k)
    ensures var t := ReadItem(bytes, results, alloc(k));
      all == After(Gathered(frames, t), read + t.read, if t.Dropped? then dropped + 1 else dropped,
                   failed || (t.Dropped? && !t.drained), rest)
  {
    var t := ReadItem(bytes, results, alloc(k));
    assert all == After(frames, read, dropped, failed, Serve(bytes, results, alloc, k));
    GatheredFirst(frames, t, rest.frames);
  }

  lemma LeavesAfter(all: Served, frames: seq<Frame>, read: nat, dropped: nat, failed: bool,
                    bytes: Bytes, results: seq<int>, alloc: nat -> bool, k: nat)
    requires !ReadItem(bytes, results, alloc(k)).Ended?
    requires Leaves(all, frames, read, dropped, failed, bytes, results, alloc, k)
    ensures var t := ReadItem(bytes, results, alloc(k));
      Leaves(all, Gathered(frames, t), read + t.read, if t.Dropped? then dropped + 1 else dropped,
             failed || (t.Dropped? && !t.drained), bytes[t.read..], t.results, alloc, if t.Beat? then k else k + 1)
  {
    var t := ReadItem(bytes, results, alloc(k));
    ServeStep(all, frames, read, dropped, failed, bytes, results, alloc, k,
              Serve(bytes[t.read..], t.results, alloc, if t.Beat? then k else k + 1));
  }

  lemma AtLast(all: Served, frames: seq<Frame>, read: nat, dropped: nat, failed: bool,
               bytes: Bytes, results: seq<int>, alloc: nat -> bool, k: nat)
    requires ReadItem(bytes, results, alloc(k)).Ended?
    requires Leaves(all, frames, read, dropped, failed, bytes, results, alloc, k)
    ensures all == Served(frames, read + ReadItem(bytes, results, alloc(k)).read, dropped, failed)
  {
    assert all == After(frames, read, dropped, failed, Serve(bytes, results, alloc, k));
  }

  lemma DropAgain(s: Bytes, m: nat, n: nat)
    requires m + n <= |s|
    ensures s[m..][n..] == s[m + n..]
  {
  }

  /** One turn of the receive loop, as part of what the connection yields. */
  method ServeTurn(sock: Socket, header: array<uint8>, alloc: nat -> bool, k: nat, ghost all: Served,
                   ghost frames: seq<Frame>, ghost read: nat, ghost dropped: nat, ghost failed: bool)
    returns (turn: Turn)
    requires sock.Valid() && header.Length == HEADER_BYTES
    requires Leaves(all, frames, read, dropped, failed, sock.Unread(), sock.results, alloc, k)
    modifies sock`pos, sock`results, header
    ensures sock.Valid() && sock.pos == old(sock.pos) + turn.read
    ensures !turn.Ended? ==> |sock.results| < |old(sock.results)|
    ensures if turn.Ended? then all == Served(frames, read + turn.read, dropped, failed)
      else Leaves(all, Gathered(frames, turn), read + turn.read, if turn.Dropped? then dropped + 1 else dropped,
                  failed || (turn.Dropped? && !turn.drained),
                  sock.Unread(), sock.results, alloc, if turn.Beat? then k else k + 1)
  {
    ghost var bytes, results := sock.Unread(), sock.results;
    turn := ReadOne(sock, header, alloc(k));
    DropAgain(sock.inbound, old(sock.pos), turn.read);
    if turn.Ended? {
      AtLast(all, frames, read, dropped, failed, bytes, results, alloc, k);
    } else {
      LeavesAfter(all, frames, read, dropped, failed, bytes, results, alloc, k);
    }
  }

  /** The receive loop of `serverTask` for one accepted connection, with its counters. */
  method ServeConnection(sock: Socket, alloc: nat -> bool)
    returns (frames: seq<Frame>, accepted: nat, dropped: nat, drainFailed: bool)
    requires sock.Valid()
    modifies sock`pos, sock`results
    ensures sock.Valid() && sock.pos >= old(sock.pos)
    ensures Served(frames, sock.pos - old(sock.pos), dropped, drainFailed) ==
      Serve(old(sock.Unread()), old(sock.results), alloc, 0)
    ensures accepted == |frames|
  {
    frames, accepted, dropped, drainFailed := [], 0, 0, false;
    var header := new uint8[HEADER_BYTES];
    var k: nat, read: nat := 0, 0;
    ghost var all := Serve(sock.Unread(), sock.results, alloc, 0);
    AtFirst(sock.Unread(), sock.results, alloc, frames, read, dropped, drainFailed);
    while true
      invariant sock.Valid() && sock.pos == old(sock.pos) + read && accepted == |frames|
      invariant Leaves(all, frames, read, dropped, drainFailed, sock.Unread(), sock.results, alloc, k)
      decreases |sock.results|
    {
      var turn := ServeTurn(sock, header, alloc, k, all, frames, read, dropped, drainFailed);
      read := read + turn.read;
      if turn.Ended? {
        break;
      }
      k := if turn.Beat? then k else k + 1;
      frames, accepted := Gathered(frames, turn), if turn.Whole? then accepted + 1 else accepted;
      dropped := if turn.Dropped? then dropped + 1 else dropped;
      drainFailed := drainFailed || (turn.Dropped? && !turn.drained);
    }
  }

  /** What the calls let out of an item: the header, then the image bytes. */
  function WriteItem(item: Item, results: seq<int>): (t: Taken)
    requires item.Video? ==> ValidFrame(item.frame)
    ensures t.count <= |Encode(item)| && (t.ok <==> t.count == |Encode(item)|)
  {
    var t := Take(HEADER_BYTES, results, HEADER_BYTES);
    if !t.ok || item.Heartbeat? then t
    else Plus(HEADER_BYTES, Take(|item.frame.data|, t.results, |item.frame.data|))
  }

  /** How many items went out whole, and how much of the next. */
  datatype Written = Written(sent: nat, part: nat, results: seq<int>, ok: bool)

  function WriteItems(items: seq<Item>, results: seq<int>): (w: Written)
    requires ValidItems(items)
    ensures w.sent <= |items| && (w.ok <==> w.sent == |items|)
    ensures if w.ok then w.part == 0 else w.part < |Encode(items[w.sent])|
  {
    if items == [] then Written(0, 0, results, true)
    else
      var t := WriteItem(items[0], results);
      if !t.ok then Written(0, t.count, t.results, false)
      else
        var w := WriteItems(items[1..], t.results);
        Written(1 + w.sent, w.part, w.results, w.ok)
  }

  /** One item: the header, then the image bytes if the link still stands. */
  method SendItem(sock: Socket, item: Item) returns (ok: bool, ghost part: nat)
    requires item.Video? ==> ValidFrame(item.frame)
    modifies sock`outbound, sock`results
    ensures WriteItem(item, old(sock.results)) == Taken(part, sock.results, ok)
    ensures part <= |Encode(item)| && sock.outbound == old(sock.outbound) + Encode(item)[..part]
  {
    ghost var before := sock.outbound;
    var header := HeaderBytes(item);
    ok, part := SendAll(sock, header);
    assert Encode(item)[..part] == header[..part];
    if ok && item.Video? {
      ghost var n;
      ok, n := SendAll(sock, item.frame.data);
      TakeOfConcat(header, item.frame.data, part + n);
      Assoc(before, header, item.frame.data[..n]);
      part := part + n;
    }
  }

  function Shift(n: nat, w: Written): Written { Written(n + w.sent, w.part, w.results, w.ok) }

  lemma WriteNext(items: seq<Item>, sent: nat, results: seq<int>)
    requires ValidItems(items) && sent < |items|
    ensures Shift(sent, WriteItems(items[sent..], results)) ==
      var t := WriteItem(items[sent], results);
      if t.ok then Shift(sent + 1, WriteItems(items[sent + 1..], t.results))
      else Written(sent, t.count, t.results, false)
  {
    assert items[sent..][1..] == items[sent + 1..];
  }

  lemma WholeItem(items: seq<Item>, sent: nat)
    requires ValidItems(items) && sent < |items|
    ensures EncodeAll(items[..sent + 1]) == EncodeAll(items[..sent]) + Encode(items[sent])
  {
    assert items[..sent] + [items[sent]] == items[..sent + 1];
    EncodeAllAppend(items[..sent], items[sent]);
  }

  /** One turn of the send loop. */
  method SendNext(sock: Socket, items: seq<Item>, sent: nat, ghost out: Bytes) returns (ok: bool, ghost part: nat)
    requires ValidItems(items) && sent < |items| && sock.outbound == out + EncodeAll(items[..sent])
    modifies sock`outbound, sock`results
    ensures WriteItem(items[sent], old(sock.results)) == Taken(part, sock.results, ok)
    ensures part <= |Encode(items[sent])|
    ensures ok ==> sock.outbound == out + EncodeAll(items[..sent + 1])
    ensures !ok ==> sock.outbound == out + EncodeAll(items[..sent]) + Encode(items[sent])[..part]
  {
    ok, part := SendItem(sock, items[sent]);
    if ok {
      assert Encode(items[sent])[..part] == Encode(items[sent]);
      WholeItem(items, sent);
      Assoc(out, EncodeAll(items[..sent]), Encode(items[sent]));
    }
  }

  /**
   The send loop of `clientTask` for one connection: the frames it takes off the
   queue, and a heartbeat whenever there is none in time. Only the item at which
   the link fails is written in part, and never completely.
   */
  method SendItems(sock: Socket, items: seq<Item>) returns (sent: nat, linkOk: bool, ghost part: nat)
    requires ValidItems(items)
    modifies sock`outbound, sock`results
    ensures WriteItems(items, old(sock.results)) == Written(sent, part, sock.results, linkOk)
    ensures sock.outbound == old(sock.outbound) + EncodeAll(items[..sent]) +
      if linkOk then [] else Encode(items[sent])[..part]
  {
    sent, linkOk, part := 0, true, 0;
    assert items[0..] == items && EncodeAll(items[..0]) == [];
    ghost var out := sock.outbound;
    ghost var all := Shift(0, WriteItems(items[0..], sock.results));
    while sent < |items|
      invariant sent <= |items| && linkOk && part == 0
      invariant sock.outbound == out + EncodeAll(items[..sent])
      invariant all == Shift(sent, WriteItems(items[sent..], sock.results))
    {
      WriteNext(items, sent, sock.results);
      linkOk, part := SendNext(sock, items, sent, out);
      if !linkOk {
        return;
      }
      sent, part := sent + 1, 0;
    }
  }
}
