/**
 When the video server (main/video_relay.cpp) keeps its place in the stream: for
 every sequence of items on a connection, cut at any byte, exactly when each of
 its headers is a header of the stream.
 */
module Alignment {
  import opened Words
  import opened Framing
  import opened VideoStream

  // One turn at an item.

  /** The turn at an item of which `avail` bytes and more arrive: it does not depend on the bytes of its payload. */
  function ItemTurn(item: Item, avail: nat, results: seq<int>, hasBuffer: bool): (t: Turn)
    requires item.Video? ==> ValidFrame(item.frame)
    ensures t.read <= avail && (!t.Ended? ==> HEADER_BYTES <= t.read && |t.results| < |results|)
    ensures t.Dropped? && !t.drained ==> HEADER_BYTES <= t.read < |Encode(item)|
    ensures !t.Ended? && (t.Dropped? ==> t.drained) ==> t.read == |Encode(item)|
  {
    var t := Take(avail, results, HEADER_BYTES);
    if !t.ok then Ended(t.count)
    else
      match item
      case Heartbeat => Beat(HEADER_BYTES, t.results)
      case Video(f) =>
        if !hasBuffer then
          var d := Drain(avail - HEADER_BYTES, t.results, |f.data|);
          Dropped(HEADER_BYTES + d.count, d.results, d.ok)
        else
          var p := Take(avail - HEADER_BYTES, t.results, |f.data|);
          if !p.ok then Ended(HEADER_BYTES + p.count)
          else Whole(HEADER_BYTES + |f.data|, p.results, f)
  }

  /** The bytes begin with the item, of which the last part may be missing. */
  ghost predicate BeginsWith(bytes: Bytes, item: Item)
    requires item.Video? ==> ValidFrame(item.frame)
  {
    var n := Min(|bytes|, |Encode(item)|);
    bytes[..n] == Encode(item)[..n]
  }

  lemma HeaderAt(bytes: Bytes, item: Item)
    requires (item.Video? ==> ValidFrame(item.frame)) && BeginsWith(bytes, item) && HEADER_BYTES <= |bytes|
    ensures bytes[..HEADER_BYTES] == HeaderBytes(item)
  {
    var n := Min(|bytes|, |Encode(item)|);
    assert Encode(item)[..HEADER_BYTES] == HeaderBytes(item);
    Shorter(bytes, n, HEADER_BYTES);
    Shorter(Encode(item), n, HEADER_BYTES);
  }

  lemma Shorter(s: Bytes, n: nat, m: nat)
    requires m <= n <= |s|
    ensures s[..n][..m] == s[..m]
  {
  }

  lemma PayloadAt(bytes: Bytes, f: Frame)
    requires ValidFrame(f) && BeginsWith(bytes, Video(f)) && HEADER_BYTES + |f.data| <= |bytes|
    ensures bytes[HEADER_BYTES..][..|f.data|] == f.data
  {
    var all := Encode(Video(f));
    assert all == EncodeHeader(HeaderOf(f)) + f.data;
    assert bytes[..|all|] == all;
    assert bytes[..|all|][HEADER_BYTES..] == bytes[HEADER_BYTES..][..|f.data|];
  }

  lemma TurnAtItem(bytes: Bytes, item: Item, results: seq<int>, hasBuffer: bool)
    requires (item.Video? ==> ValidFrame(item.frame)) && BeginsWith(bytes, item)
    ensures ReadItem(bytes, results, hasBuffer) == ItemTurn(item, |bytes|, results, hasBuffer)
  {
    if HEADER_BYTES <= |bytes| {
      HeaderAt(bytes, item);
      HeartbeatIsPacked();
      if item.Video? {
        HeaderRoundTrip(HeaderOf(item.frame));
        if HEADER_BYTES + |item.frame.data| <= |bytes| {
          PayloadAt(bytes, item.frame);
        }
      }
    }
  }

  /** The first bytes of a stream of items begin with the first item, and what follows it is such a stream again. */
  lemma FirstItem(items: seq<Item>, bytes: Bytes)
    requires ValidItems(items) && items != [] && bytes <= EncodeAll(items)
    ensures BeginsWith(bytes, items[0])
    ensures |Encode(items[0])| <= |bytes| ==> bytes[|Encode(items[0])|..] <= EncodeAll(items[1..])
  {
    var first, rest := Encode(items[0]), EncodeAll(items[1..]);
    EncodeAllFirst(items);
    var n := Min(|bytes|, |first|);
    assert bytes[..n] == (first + rest)[..n] == first[..n];
    if |first| <= |bytes| {
      assert bytes[|first|..] == (first + rest)[..|bytes|][|first|..] == rest[..|bytes| - |first|];
    }
  }

  // A whole connection.

  /** Where the items of a stream begin, the first at `from`, and where the last ends. */
  function Starts(items: seq<Item>, from: nat): set<nat>
    requires ValidItems(items)
    decreases |items|
  {
    {from} + if items == [] then {} else Starts(items[1..], from + |Encode(items[0])|)
  }

  lemma {:induction false} StartsBelow(items: seq<Item>, from: nat, p: nat)
    requires ValidItems(items) && p < from
    ensures p !in Starts(items, from)
    decreases |items|
  {
    if items != [] {
      StartsBelow(items[1..], from + |Encode(items[0])|, p);
    }
  }

  /** Every turn that reads anything begins where an item does: no payload is read as a header. */
  ghost predicate StaysAligned(starts: set<nat>, at: nat, bytes: Bytes, results: seq<int>, alloc: nat -> bool, k: nat)
    decreases |results|
  {
    var t := ReadItem(bytes, results, alloc(k));
    && (t.read > 0 ==> at in starts)
    && (!t.Ended? ==>
          StaysAligned(starts, at + t.read, bytes[t.read..], t.results, alloc, if t.Beat? then k else k + 1))
  }

  /** The next call brings something. */
  predicate Brings(avail: nat, results: seq<int>) { avail > 0 && results != [] && results[0] > 0 }

  /**
   Of the first `avail` bytes of these items no call brings any after the first
   receive that failed inside a drain. The payloads do not matter, only their lengths.
   */
  predicate QuietAfterCut(items: seq<Item>, avail: nat, results: seq<int>, alloc: nat -> bool, k: nat)
    requires ValidItems(items)
    decreases |items|
  {
    items == [] ||
    var t := ItemTurn(items[0], avail, results, alloc(k));
    match t
    case Ended(_) => true
    case Dropped(n, rest, drained) =>
      if drained then QuietAfterCut(items[1..], avail - n, rest, alloc, k + 1) else !Brings(avail - n, rest)
    case Beat(n, rest) => QuietAfterCut(items[1..], avail - n, rest, alloc, k)
    case Whole(n, rest, _) => QuietAfterCut(items[1..], avail - n, rest, alloc, k + 1)
  }

  lemma BringsNothing(bytes: Bytes, results: seq<int>, hasBuffer: bool)
    ensures ReadItem(bytes, results, hasBuffer).read > 0 <==> Brings(|bytes|, results)
  {
  }

  /** The set agrees with the items from here on. */
  ghost predicate Marks(starts: set<nat>, items: seq<Item>, at: nat)
    requires ValidItems(items)
  {
    forall p :: at <= p ==> (p in starts <==> p in Starts(items, at))
  }

  lemma MarksHere(starts: set<nat>, items: seq<Item>, at: nat)
    requires ValidItems(items) && Marks(starts, items, at)
    ensures at in starts
  {
    assert at in Starts(items, at);
  }

  lemma MarksNext(starts: set<nat>, items: seq<Item>, at: nat)
    requires ValidItems(items) && items != [] && Marks(starts, items, at)
    ensures Marks(starts, items[1..], at + |Encode(items[0])|)
  {
  }

  lemma NoneInside(starts: set<nat>, items: seq<Item>, at: nat, p: nat)
    requires ValidItems(items) && items != [] && Marks(starts, items, at) && at < p < at + |Encode(items[0])|
    ensures p !in starts
  {
    StartsBelow(items[1..], at + |Encode(items[0])|, p);
  }

  // The two conditions, turn by turn.

  lemma AlignedLast(starts: set<nat>, at: nat, bytes: Bytes, results: seq<int>, alloc: nat -> bool, k: nat)
    requires at in starts && ReadItem(bytes, results, alloc(k)).Ended?
    ensures StaysAligned(starts, at, bytes, results, alloc, k)
  {
  }

  lemma AlignedNext(starts: set<nat>, at: nat, bytes: Bytes, results: seq<int>, alloc: nat -> bool, k: nat, t: Turn)
    requires at in starts && t == ReadItem(bytes, results, alloc(k)) && !t.Ended? && t.read <= |bytes|
    ensures StaysAligned(starts, at, bytes, results, alloc, k)
      <==> StaysAligned(starts, at + t.read, bytes[t.read..], t.results, alloc, if t.Beat? then k else k + 1)
  {
  }

  /** After a drain cut short the next turn begins inside a payload. */
  lemma AlignedCut(starts: set<nat>, at: nat, bytes: Bytes, results: seq<int>, alloc: nat -> bool, k: nat)
    requires at !in starts
    ensures StaysAligned(starts, at, bytes, results, alloc, k) <==> !Brings(|bytes|, results)
  {
    BringsNothing(bytes, results, alloc(k));
  }

  /** The two conditions agree from here on. */
  ghost predicate Agree(items: seq<Item>, starts: set<nat>, at: nat, bytes: Bytes, results: seq<int>,
                        alloc: nat -> bool, k: nat)
    requires ValidItems(items)
  {
    forall i :: i == k ==>
      (StaysAligned(starts, at, bytes, results, alloc, i) <==> QuietAfterCut(items, |bytes|, results, alloc, i))
  }

  lemma AgreeLast(items: seq<Item>, starts: set<nat>, at: nat, bytes: Bytes, results: seq<int>, alloc: nat -> bool,
                  k: nat)
    requires ValidItems(items) && items != [] && at in starts && BeginsWith(bytes, items[0])
    requires ItemTurn(items[0], |bytes|, results, alloc(k)).Ended?
    ensures Agree(items, starts, at, bytes, results, alloc, k)
  {
    TurnAtItem(bytes, items[0], results, alloc(k));
    AlignedLast(starts, at, bytes, results, alloc, k);
  }

  lemma AgreeCut(items: seq<Item>, starts: set<nat>, at: nat, bytes: Bytes, results: seq<int>, alloc: nat -> bool,
                 k: nat, t: Turn)
    requires ValidItems(items) && items != [] && at in starts && BeginsWith(bytes, items[0])
    requires t == ItemTurn(items[0], |bytes|, results, alloc(k)) && t.Dropped? && !t.drained && at + t.read !in starts
    ensures Agree(items, starts, at, bytes, results, alloc, k)
  {
    TurnAtItem(bytes, items[0], results, alloc(k));
    AlignedNext(starts, at, bytes, results, alloc, k, t);
    AlignedCut(starts, at + t.read, bytes[t.read..], t.results, alloc, k + 1);
  }

  lemma AgreeNext(items: seq<Item>, starts: set<nat>, at: nat, bytes: Bytes, results: seq<int>, alloc: nat -> bool,
                  k: nat, t: Turn)
    requires ValidItems(items) && items != [] && at in starts && BeginsWith(bytes, items[0])
    requires t == ItemTurn(items[0], |bytes|, results, alloc(k)) && !t.Ended? && (t.Dropped? ==> t.drained)
    requires t.read <= |bytes|
    requires Agree(items[1..], starts, at + t.read, bytes[t.read..], t.results, alloc, if t.Beat? then k else k + 1)
    ensures Agree(items, starts, at, bytes, results, alloc, k)
  {
    TurnAtItem(bytes, items[0], results, alloc(k));
    AlignedNext(starts, at, bytes, results, alloc, k, t);
    QuietNext(items, |bytes|, results, alloc, k, t, |bytes[t.read..]|);
  }

  lemma QuietNext(items: seq<Item>, avail: nat, results: seq<int>, alloc: nat -> bool, k: nat, t: Turn, rest: nat)
    requires ValidItems(items) && items != [] && rest == avail - t.read
    requires t == ItemTurn(items[0], avail, results, alloc(k)) && !t.Ended? && (t.Dropped? ==> t.drained)
    ensures QuietAfterCut(items, avail, results, alloc, k)
      <==> QuietAfterCut(items[1..], rest, t.results, alloc, if t.Beat? then k else k + 1)
  {
  }

  lemma {:induction false} AlignedFrom(items: seq<Item>, starts: set<nat>, at: nat, bytes: Bytes, results: seq<int>,
                                       alloc: nat -> bool, k: nat)
    requires ValidItems(items) && bytes <= EncodeAll(items) && Marks(starts, items, at)
    ensures Agree(items, starts, at, bytes, results, alloc, k)
    decreases |items|
  {
    MarksHere(starts, items, at);
    if items == [] {
      assert bytes == [];
    } else {
      FirstItem(items, bytes);
      var t := ItemTurn(items[0], |bytes|, results, alloc(k));
      if t.Ended? {
        AgreeLast(items, starts, at, bytes, results, alloc, k);
      } else if t.Dropped? && !t.drained {
        NoneInside(starts, items, at, at + t.read);
        AgreeCut(items, starts, at, bytes, results, alloc, k, t);
      } else {
        MarksNext(starts, items, at);
        AlignedFrom(items[1..], starts, at + t.read, bytes[t.read..], t.results, alloc, if t.Beat? then k else k + 1);
        AgreeNext(items, starts, at, bytes, results, alloc, k, t);
      }
    }
  }

  /**
   Exactly when the framing is kept, for all items, however much of them arrives
   and however it is split: no payload is ever read as a header if and only if no
   call brings a byte after the first receive that fails inside a drain.
   */
  lemma AlignedExactly(items: seq<Item>, n: nat, results: seq<int>, alloc: nat -> bool, k: nat)
    requires ValidItems(items) && n <= |EncodeAll(items)|
    ensures StaysAligned(Starts(items, 0), 0, EncodeAll(items)[..n], results, alloc, k)
      <==> QuietAfterCut(items, n, results, alloc, k)
  {
    AlignedFrom(items, Starts(items, 0), 0, EncodeAll(items)[..n], results, alloc, k);
  }

  /** What is handed on is a prefix of the frames for which there is a buffer. */
  ghost predicate Delivers(items: seq<Item>, bytes: Bytes, results: seq<int>, alloc: nat -> bool, k: nat) {
    forall i :: i == k ==> Serve(bytes, results, alloc, i).frames <= Kept(items, alloc, i)
  }

  lemma DeliversNext(items: seq<Item>, bytes: Bytes, results: seq<int>, alloc: nat -> bool, k: nat, t: Turn)
    requires ValidItems(items) && items != [] && BeginsWith(bytes, items[0]) && t.read <= |bytes|
    requires t == ItemTurn(items[0], |bytes|, results, alloc(k)) && !t.Ended? && (t.Dropped? ==> t.drained)
    requires Delivers(items[1..], bytes[t.read..], t.results, alloc, if t.Beat? then k else k + 1)
    ensures Delivers(items, bytes, results, alloc, k)
  {
    TurnAtItem(bytes, items[0], results, alloc(k));
    ServeNext(bytes, results, alloc, k, t);
    KeptNext(items, |bytes|, results, alloc, k, t);
    var k' := if t.Beat? then k else k + 1;
    PrefixBehind(if t.Whole? then [t.frame] else [], Serve(bytes[t.read..], t.results, alloc, k').frames,
                 Kept(items[1..], alloc, k'));
  }

  lemma KeptNext(items: seq<Item>, avail: nat, results: seq<int>, alloc: nat -> bool, k: nat, t: Turn)
    requires ValidItems(items) && items != []
    requires t == ItemTurn(items[0], avail, results, alloc(k)) && !t.Ended?
    ensures Kept(items, alloc, k) ==
      (if t.Whole? then [t.frame] else []) + Kept(items[1..], alloc, if t.Beat? then k else k + 1)
  {
    assert [] + Kept(items[1..], alloc, k) == Kept(items[1..], alloc, k);
  }

  lemma PrefixBehind(first: seq<Frame>, a: seq<Frame>, b: seq<Frame>)
    requires a <= b
    ensures first + a <= first + b
  {
  }

  lemma ServeNext(bytes: Bytes, results: seq<int>, alloc: nat -> bool, k: nat, t: Turn)
    requires t == ReadItem(bytes, results, alloc(k)) && !t.Ended? && t.read <= |bytes|
    ensures Serve(bytes, results, alloc, k).frames ==
      (if t.Whole? then [t.frame] else [])
      + Serve(bytes[t.read..], t.results, alloc, if t.Beat? then k else k + 1).frames
  {
  }

  lemma DeliversNothing(items: seq<Item>, bytes: Bytes, results: seq<int>, alloc: nat -> bool, k: nat, t: Turn)
    requires ValidItems(items) && items != [] && BeginsWith(bytes, items[0]) && t.read <= |bytes|
    requires t == ItemTurn(items[0], |bytes|, results, alloc(k))
    requires t.Ended? || (t.Dropped? && !t.drained && !Brings(|bytes| - t.read, t.results))
    ensures Delivers(items, bytes, results, alloc, k)
  {
    TurnAtItem(bytes, items[0], results, alloc(k));
    if !t.Ended? {
      ServeNext(bytes, results, alloc, k, t);
      BringsNothing(bytes[t.read..], t.results, alloc(k + 1));
      NothingServed(bytes[t.read..], t.results, alloc, k + 1);
    }
  }

  lemma {:induction false} DeliversFrom(items: seq<Item>, bytes: Bytes, results: seq<int>, alloc: nat -> bool, k: nat)
    requires ValidItems(items) && bytes <= EncodeAll(items) && QuietAfterCut(items, |bytes|, results, alloc, k)
    ensures Delivers(items, bytes, results, alloc, k)
    decreases |items|
  {
    if items == [] {
      assert bytes == [];
    } else {
      FirstItem(items, bytes);
      var t := ItemTurn(items[0], |bytes|, results, alloc(k));
      if t.Ended? || (t.Dropped? && !t.drained) {
        DeliversNothing(items, bytes, results, alloc, k, t);
      } else {
        DeliversFrom(items[1..], bytes[t.read..], t.results, alloc, if t.Beat? then k else k + 1);
        DeliversNext(items, bytes, results, alloc, k, t);
      }
    }
  }

  /** And then a prefix of the frames is handed on, of those for which there is a buffer. */
  lemma AlignedDelivers(items: seq<Item>, n: nat, results: seq<int>, alloc: nat -> bool, k: nat)
    requires ValidItems(items) && n <= |EncodeAll(items)| && QuietAfterCut(items, n, results, alloc, k)
    ensures Serve(EncodeAll(items)[..n], results, alloc, k).frames <= Kept(items, alloc, k)
  {
    DeliversFrom(items, EncodeAll(items)[..n], results, alloc, k);
  }

  lemma NothingServed(bytes: Bytes, results: seq<int>, alloc: nat -> bool, k: nat)
    requires ReadItem(bytes, results, alloc(k)).read == 0
    ensures Serve(bytes, results, alloc, k).frames == []
  {
  }

  /** With a buffer for every frame, or no call that succeeds after a failed one, it is so. */
  lemma {:induction false} FramedIsQuiet(items: seq<Item>, avail: nat, results: seq<int>, alloc: nat -> bool, k: nat)
    requires ValidItems(items) && StaysFramed(results, alloc)
    ensures QuietAfterCut(items, avail, results, alloc, k)
    decreases |items|
  {
    if items != [] {
      var t := ItemTurn(items[0], avail, results, alloc(k));
      if FailsForGood(results) {
        ItemLeaves(items[0], avail, results, alloc(k));
      }
      if !t.Ended? && (t.Dropped? ==> t.drained) {
        FramedIsQuiet(items[1..], avail - t.read, t.results, alloc, if t.Beat? then k else k + 1);
        QuietNext(items, avail, results, alloc, k, t, avail - t.read);
      }
    }
  }

  lemma ItemLeaves(item: Item, avail: nat, results: seq<int>, hasBuffer: bool)
    requires (item.Video? ==> ValidFrame(item.frame)) && FailsForGood(results)
    ensures var t := ItemTurn(item, avail, results, hasBuffer);
      && (!t.Ended? ==> FailsForGood(t.results))
      && (t.Dropped? && !t.drained ==> !Brings(avail - t.read, t.results))
  {
    var t := Take(avail, results, HEADER_BYTES);
    TakeLeaves(avail, results, HEADER_BYTES);
    if t.ok && item.Video? {
      TakeLeaves(avail - HEADER_BYTES, t.results, |item.frame.data|);
      DrainLeaves(avail - HEADER_BYTES, t.results, |item.frame.data|);
    }
  }
}
