/**
 The SPI receiver stabilises by itself: it does not matter in what state it is,
 at what chunk of the sender's stream it wakes up, which transactions fail, or
 what the heap can hold.
 */
module SpiResync {
  import opened Words
  import opened Config
  import opened Framing
  import opened Subsequence
  import opened SpiReceiver

  /** The payload bytes still to be clocked in before the receiver waits for a header again. */
  function Outstanding(s: State): (n: nat)
    ensures n <= VIDEO_MAX_FRAME_BYTES && (n == 0 <==> s == Header)
  {
    match s
    case Header => 0
    case Status(_) => STATUS_BYTES
    case Collect(h, data) => h.dataLen - |data|
    case Drain(remaining) => remaining
  }

  /** The transactions this takes, at most 66. */
  function Turns(s: State): (n: nat)
    ensures n <= 66 && (n == 0 <==> s == Header)
    ensures (n - 1) * SPI_CHUNK_BYTES < Outstanding(s) <= n * SPI_CHUNK_BYTES || s == Header
  {
    (Outstanding(s) + SPI_CHUNK_BYTES - 1) / SPI_CHUNK_BYTES
  }

  lemma StepTurns(s: State, t: Transaction)
    requires s != Header
    ensures Turns(Step(s, t).state) == if t.Failed? then 0 else Turns(s) - 1
  {
  }

  predicate AllClocked(ts: seq<Transaction>) { forall k :: 0 <= k < |ts| ==> ts[k].Clocked? }

  /** Without failures a busy receiver is back in header-wait after exactly that many transactions, not before. */
  lemma {:induction false} BackExactly(s: State, ts: seq<Transaction>)
    requires |ts| <= Turns(s) && AllClocked(ts)
    ensures Receive(s, ts).state == Header <==> |ts| == Turns(s)
    decreases |ts|
  {
    if ts != [] {
      StepTurns(s, ts[0]);
      BackExactly(Step(s, ts[0]).state, ts[1..]);
    }
  }

  /** With failures anywhere it is back by then: at the first that fails, or when the payload is through. */
  lemma {:induction false} BackAtMost(s: State, ts: seq<Transaction>) returns (k: nat)
    requires |ts| >= Turns(s)
    ensures k <= Turns(s) <= 66 && Receive(s, ts[..k]).state == Header
    ensures k == Turns(s) || (k > 0 && ts[k - 1].Failed?)
    ensures forall i :: 0 <= i < k - 1 ==> ts[i].Clocked?
    decreases |ts|
  {
    if s == Header {
      k := 0;
    } else {
      StepTurns(s, ts[0]);
      var j := BackAtMost(Step(s, ts[0]).state, ts[1..]);
      k := j + 1;
      assert ts[..k][1..] == ts[1..][..j];
      assert forall i :: 1 <= i < k ==> ts[i] == ts[1..][i - 1];
    }
  }

  /** Until the payload is through nothing is delivered. */
  lemma {:induction false} SilentBefore(s: State, ts: seq<Transaction>)
    requires |ts| < Turns(s) && AllClocked(ts)
    ensures Receive(s, ts).out == []
    decreases |ts|
  {
    if ts != [] {
      StepTurns(s, ts[0]);
      SilentBefore(Step(s, ts[0]).state, ts[1..]);
    }
  }

  predicate IsHeader(t: Transaction) { t.Clocked? && Announces(DecodeWire(t.chunk)) }

  /** Waiting for a header, the receiver skips silently whatever does not read as one. */
  lemma {:induction false} Skips(ts: seq<Transaction>)
    requires forall k :: 0 <= k < |ts| ==> !IsHeader(ts[k])
    ensures Receive(Header, ts) == Received(Header, [])
    decreases |ts|
  {
    if ts != [] {
      assert forall k :: 0 <= k < |ts[1..]| ==> ts[1..][k] == ts[k + 1];
      Skips(ts[1..]);
    }
  }

  /** A run taken in two parts, whose results are known. */
  lemma InTwoParts(s: State, ts: seq<Transaction>, n: nat, a: Received, b: Received)
    requires n <= |ts| && Receive(s, ts[..n]) == a && Receive(a.state, ts[n..]) == b
    ensures Receive(s, ts) == Received(b.state, a.out + b.out)
  {
    assert ts == ts[..n] + ts[n..];
    ReceiveConcat(s, ts[..n], ts[n..]);
  }

  /** And it locks on to the first that does, be it part of a payload or not. */
  lemma LocksOn(ts: seq<Transaction>, k: nat)
    requires k < |ts| && IsHeader(ts[k]) && forall i :: 0 <= i < k ==> !IsHeader(ts[i])
    ensures var s := AfterHeader(DecodeWire(ts[k].chunk), ts[k].hasBuffer);
      s != Header && Receive(Header, ts) == Receive(s, ts[k + 1..])
  {
    Skips(ts[..k]);
    assert ts[k..][1..] == ts[k + 1..];
    InTwoParts(Header, ts, k, Received(Header, []), Receive(Header, ts[k..]));
  }

  // The heap.

  /** The same transactions, the heap having a buffer at least as often. */
  ghost predicate Richer(ts: seq<Transaction>, us: seq<Transaction>) {
    |ts| == |us| && forall k :: 0 <= k < |ts| ==>
      ts[k] == us[k] || (ts[k].Clocked? && us[k] == Clocked(ts[k].chunk, true))
  }

  /** The same place in the stream, but one of the frames is being drained that the other collects. */
  predicate InStep(s: State, r: State) {
    s == r || (s.Drain? && r.Collect? && Outstanding(s) == Outstanding(r))
  }

  lemma StepInStep(s: State, r: State, t: Transaction, u: Transaction)
    requires InStep(s, r) && (t == u || (t.Clocked? && u == Clocked(t.chunk, true)))
    ensures InStep(Step(s, t).state, Step(r, u).state)
    ensures Sub(Step(s, t).out, Step(r, u).out)
  {
    SubRefl(Step(r, u).out);
  }

  /**
   Running out of memory costs frames but never the place in the stream: the
   deliveries are some of those that a larger heap would give, in order.
   */
  lemma {:induction false} HeapOnlyDropsFrames(s: State, r: State, ts: seq<Transaction>, us: seq<Transaction>)
    requires InStep(s, r) && Richer(ts, us)
    ensures InStep(Receive(s, ts).state, Receive(r, us).state)
    ensures Outstanding(Receive(s, ts).state) == Outstanding(Receive(r, us).state)
    ensures Sub(Receive(s, ts).out, Receive(r, us).out)
    decreases |ts|
  {
    if ts != [] {
      var a, b := Step(s, ts[0]), Step(r, us[0]);
      StepInStep(s, r, ts[0], us[0]);
      HeapOnlyDropsFrames(a.state, b.state, ts[1..], us[1..]);
      SubConcat(a.out, b.out, Receive(a.state, ts[1..]).out, Receive(b.state, us[1..]).out);
    }
  }

  // Waking up inside the sender's stream.

  /** No payload chunk reads as a header; it is enough that none begins with the magic word. */
  ghost predicate Quiet(chunks: seq<seq<Chunk>>) {
    forall m :: 0 <= m < |chunks| ==> QuietMessage(chunks[m])
  }

  ghost predicate QuietMessage(chunks: seq<Chunk>) {
    forall k :: 1 <= k < |chunks| ==> !Announces(DecodeWire(chunks[k]))
  }

  lemma NoMagicIsQuiet(chunks: seq<Chunk>)
    requires forall k :: 1 <= k < |chunks| ==> Join32(chunks[k][..4]) != MAGIC
    ensures QuietMessage(chunks)
  {
  }

  /** How many messages have begun before chunk q of the stream. */
  function Begun(chunks: seq<seq<Chunk>>, q: nat): (m: nat)
    ensures m <= |chunks|
  {
    if q == 0 || chunks == [] then 0
    else 1 + Begun(chunks[1..], if q < |chunks[0]| then 0 else q - |chunks[0]|)
  }

  /** The chunks from q up to the first message that begins there or later. */
  function Rest(chunks: seq<seq<Chunk>>, q: nat): (n: nat)
    requires q <= |Flat(chunks)|
    ensures q + n <= |Flat(chunks)|
  {
    if q == 0 || chunks == [] then 0
    else if q < |chunks[0]| then |chunks[0]| - q
    else Rest(chunks[1..], q - |chunks[0]|)
  }

  lemma {:induction false} RestIsQuiet(chunks: seq<seq<Chunk>>, q: nat)
    requires Quiet(chunks) && q <= |Flat(chunks)|
    ensures var all, n := Flat(chunks), Rest(chunks, q);
      && (forall k :: q <= k < q + n ==> !Announces(DecodeWire(all[k])))
      && all[q + n..] == Flat(chunks[Begun(chunks, q)..])
    decreases |chunks|
  {
    if q == 0 || chunks == [] {
    } else {
      var first, rest := chunks[0], Flat(chunks[1..]);
      assert Flat(chunks) == first + rest;
      assert QuietMessage(first);
      if q < |first| {
        assert (first + rest)[|first|..] == rest;
        assert chunks[Begun(chunks, q)..] == chunks[1..];
      } else {
        var q', n := q - |first|, Rest(chunks, q);
        RestIsQuiet(chunks[1..], q');
        assert forall k :: q <= k < q + n ==> (first + rest)[k] == rest[k - |first|];
        assert (first + rest)[q + n..] == rest[q' + n..];
        assert chunks[Begun(chunks, q)..] == chunks[1..][Begun(chunks[1..], q')..];
      }
    }
  }

  lemma CarriesRest(chunks: seq<seq<Chunk>>, ms: seq<Message>, m: nat)
    requires CarriesAll(chunks, ms) && m <= |ms|
    ensures CarriesAll(chunks[m..], ms[m..])
  {
    assert forall k :: 0 <= k < |ms| - m ==> ms[m..][k] == ms[k + m] && chunks[m..][k] == chunks[k + m];
  }

  // Transactions and chunks.

  /** A transaction that fails may take a chunk with it, or fail before the sender has clocked any out. */
  predicate Takes(t: Transaction) { t.Clocked? || t.lost }

  /** Each chunk arrives in a transaction, or is lost with one that fails; others fail in between. */
  ghost predicate Passes(ts: seq<Transaction>, chunks: seq<Chunk>)
    decreases |ts|
  {
    if ts == [] then chunks == []
    else if !Takes(ts[0]) then Passes(ts[1..], chunks)
    else chunks != [] && (ts[0].Clocked? ==> ts[0].chunk == chunks[0]) && Passes(ts[1..], chunks[1..])
  }

  /** How many chunks these transactions take. */
  function Used(ts: seq<Transaction>): (n: nat)
    ensures n <= |ts|
  {
    if ts == [] then 0 else (if Takes(ts[0]) then 1 else 0) + Used(ts[1..])
  }

  /** The transactions up to the one that takes chunk n. */
  function Upto(ts: seq<Transaction>, n: nat): (k: nat)
    requires n <= Used(ts)
    ensures k <= |ts| && Used(ts[..k]) == n && (n > 0 ==> k > 0 && Takes(ts[k - 1]))
  {
    if n == 0 then 0
    else
      var k := 1 + Upto(ts[1..], if Takes(ts[0]) then n - 1 else n);
      assert ts[..k][1..] == ts[1..][..k - 1];
      k
  }

  lemma {:induction false} PassesAll(ts: seq<Transaction>, chunks: seq<Chunk>)
    requires Passes(ts, chunks)
    ensures Used(ts) == |chunks|
    decreases |ts|
  {
    if ts != [] {
      PassesAll(ts[1..], if Takes(ts[0]) then chunks[1..] else chunks);
    }
  }

  lemma {:induction false} PassesFrom(ts: seq<Transaction>, chunks: seq<Chunk>, k: nat)
    requires Passes(ts, chunks) && k <= |ts|
    ensures Used(ts[..k]) <= |chunks| && Passes(ts[k..], chunks[Used(ts[..k])..])
    decreases |ts|
  {
    if k == 0 {
      assert ts[k..] == ts && chunks[0..] == chunks;
    } else {
      var rest := if Takes(ts[0]) then chunks[1..] else chunks;
      assert ts[..k][1..] == ts[1..][..k - 1] && ts[1..][k - 1..] == ts[k..];
      PassesFrom(ts[1..], rest, k - 1);
      assert rest[Used(ts[1..][..k - 1])..] == chunks[Used(ts[..k])..];
    }
  }

  lemma {:induction false} PassesUpto(ts: seq<Transaction>, chunks: seq<Chunk>, k: nat)
    requires Passes(ts, chunks) && k <= |ts| && Used(ts[..k]) <= |chunks|
    ensures Passes(ts[..k], chunks[..Used(ts[..k])])
    decreases |ts|
  {
    if k > 0 {
      var rest := if Takes(ts[0]) then chunks[1..] else chunks;
      assert ts[..k][1..] == ts[1..][..k - 1];
      PassesUpto(ts[1..], rest, k - 1);
      var n := Used(ts[..k]);
      assert Takes(ts[0]) ==> chunks[..n][1..] == rest[..n - 1];
    }
  }

  /** Where no chunk reads as a header, no transaction does. */
  lemma {:induction false} QuietPasses(ts: seq<Transaction>, chunks: seq<Chunk>)
    requires Passes(ts, chunks) && forall k :: 0 <= k < |chunks| ==> !Announces(DecodeWire(chunks[k]))
    ensures forall k :: 0 <= k < |ts| ==> !IsHeader(ts[k])
    decreases |ts|
  {
    if ts != [] {
      var rest := if Takes(ts[0]) then chunks[1..] else chunks;
      assert forall k :: 0 <= k < |rest| ==> rest[k] == chunks[k + |chunks| - |rest|];
      QuietPasses(ts[1..], rest);
      assert forall k :: 1 <= k < |ts| ==> ts[k] == ts[1..][k - 1];
    }
  }

  /** Where every transaction arrives, so does every chunk. */
  lemma {:induction false} ClockedArrive(ts: seq<Transaction>, chunks: seq<Chunk>)
    requires Passes(ts, chunks) && AllClocked(ts)
    ensures Arrive(ts, chunks)
    decreases |ts|
  {
    if ts != [] {
      ClockedArrive(ts[1..], chunks[1..]);
      assert forall k :: 1 <= k < |ts| ==> ts[k] == ts[1..][k - 1] && chunks[k] == chunks[1..][k - 1];
    }
  }

  lemma {:induction false} ClockedUse(ts: seq<Transaction>)
    requires AllClocked(ts)
    ensures Used(ts) == |ts|
  {
    if ts != [] {
      ClockedUse(ts[1..]);
    }
  }

  // One message, any of its chunks lost.

  lemma {:induction false} HoldsLength(chunks: seq<Chunk>, payload: Bytes)
    requires Holds(chunks, payload)
    ensures |chunks| == (|payload| + SPI_CHUNK_BYTES - 1) / SPI_CHUNK_BYTES
    decreases |chunks|
  {
    if payload != [] {
      HoldsLength(chunks[1..], payload[Min(|payload|, SPI_CHUNK_BYTES)..]);
    }
  }

  /** The header of a message has come: as many transactions are left as it has payload chunks. */
  lemma HeaderTurns(chunks: seq<Chunk>, m: Message, t: Transaction)
    requires ValidMessage(m) && Carries(chunks, m) && t.Clocked? && t.chunk == chunks[0]
    ensures Turns(Step(Header, t).state) == |chunks| - 1
  {
    WireRoundTrip(HeaderFor(m), t.chunk);
    HoldsLength(chunks[1..], Payload(m));
  }

  /** The first transaction that fails. */
  function FirstFailure(ts: seq<Transaction>): (k: nat)
    requires !AllClocked(ts)
    ensures k < |ts| && ts[k].Failed? && AllClocked(ts[..k])
  {
    if ts[0].Failed? then 0 else 1 + FirstFailure(ts[1..])
  }

  /** Behind the header of a quiet message nothing looks like one, whatever is lost. */
  lemma QuietBehind(ts: seq<Transaction>, chunks: seq<Chunk>, k: nat)
    requires Passes(ts, chunks) && QuietMessage(chunks) && k <= |ts| && Used(ts[..k]) >= 1
    ensures forall i :: 0 <= i < |ts[k..]| ==> !IsHeader(ts[k..][i])
  {
    PassesFrom(ts, chunks, k);
    var u := Used(ts[..k]);
    assert forall i :: 0 <= i < |chunks[u..]| ==> chunks[u..][i] == chunks[u + i];
    QuietPasses(ts[k..], chunks[u..]);
  }

  lemma {:induction false} LastUsed(ts: seq<Transaction>)
    requires ts != [] && Takes(ts[|ts| - 1])
    ensures Used(ts) >= 1
    decreases |ts|
  {
    if !Takes(ts[0]) {
      LastUsed(ts[1..]);
    }
  }

  /** The last transaction takes a chunk, and so do all before the failing one k. */
  lemma {:induction false} FailsInside(ts: seq<Transaction>, k: nat)
    requires k < |ts| && AllClocked(ts[..k]) && Takes(ts[|ts| - 1])
    ensures k < Used(ts)
    decreases k
  {
    if k == 0 {
      LastUsed(ts);
    } else {
      assert ts[..k][0] == ts[0];
      var front, rest := ts[..k], ts[1..][..k - 1];
      forall i | 0 <= i < |rest|
        ensures rest[i].Clocked?
      {
        assert front[i + 1].Clocked?;
      }
      FailsInside(ts[1..], k - 1);
    }
  }

  lemma LostMessage(ts: seq<Transaction>, chunks: seq<Chunk>, m: Message)
    requires ValidMessage(m) && Carries(chunks, m) && Passes(ts, chunks) && QuietMessage(chunks) && !AllClocked(ts)
    requires Takes(ts[0]) && Takes(ts[|ts| - 1])
    ensures Receive(Header, ts) == Received(Header, [])
  {
    var k := FirstFailure(ts);
    var front := ts[..k];
    FailsInside(ts, k);
    PassesAll(ts, chunks);
    HeaderUsed(ts, k);
    QuietBehind(ts, chunks, k + 1);
    Skips(ts[k + 1..]);
    BeforeFailure(front, chunks, m);
    var s := Receive(Header, front).state;
    assert ts[k..][1..] == ts[k + 1..];
    assert Receive(s, ts[k..]) == Received(Header, []);
    InTwoParts(Header, ts, k, Receive(Header, front), Received(Header, []));
  }

  lemma HeaderUsed(ts: seq<Transaction>, k: nat)
    requires k < |ts| && Takes(ts[0])
    ensures Used(ts[..k + 1]) >= 1
  {
    assert ts[..k + 1][0] == ts[0];
  }

  lemma BeforeFailure(ts: seq<Transaction>, chunks: seq<Chunk>, m: Message)
    requires ValidMessage(m) && Carries(chunks, m) && AllClocked(ts) && |ts| < |chunks|
    requires ts != [] ==> ts[0].chunk == chunks[0]
    ensures Receive(Header, ts).out == []
  {
    if ts != [] {
      HeaderTurns(chunks, m, ts[0]);
      SilentBefore(Step(Header, ts[0]).state, ts[1..]);
    }
  }

  /**
   A message is delivered if from its header on no transaction fails, with a chunk
   or without, and for an image there is a buffer when the header comes.
   */
  predicate Survives(m: Message, ts: seq<Transaction>)
    decreases |ts|
  {
    && ts != []
    && if Takes(ts[0]) then AllClocked(ts) && (m.SendImage? ==> ts[0].hasBuffer) else Survives(m, ts[1..])
  }

  /** One message, whatever fails: delivered intact or not at all, and the receiver waits for the next header. */
  lemma {:induction false} MessageOrNothing(ts: seq<Transaction>, chunks: seq<Chunk>, m: Message)
    requires ValidMessage(m) && Carries(chunks, m) && Passes(ts, chunks) && QuietMessage(chunks)
    requires ts != [] && Takes(ts[|ts| - 1])
    ensures Receive(Header, ts) == Received(Header, if Survives(m, ts) then [Delivered(m)] else [])
    decreases |ts|
  {
    if !Takes(ts[0]) {
      MessageOrNothing(ts[1..], chunks, m);
    } else if AllClocked(ts) {
      ClockedArrive(ts, chunks);
      MessageArrives(ts, chunks, m);
    } else {
      LostMessage(ts, chunks, m);
    }
  }

  // The stream.

  /** The transactions of the chunks a come first. */
  lemma SplitPasses(ts: seq<Transaction>, a: seq<Chunk>, b: seq<Chunk>)
    requires Passes(ts, a + b)
    ensures |a| <= Used(ts)
    ensures var n := Upto(ts, |a|); Passes(ts[..n], a) && Passes(ts[n..], b) && ts == ts[..n] + ts[n..]
  {
    PassesAll(ts, a + b);
    var n := Upto(ts, |a|);
    PassesFrom(ts, a + b, n);
    PassesUpto(ts, a + b, n);
    assert (a + b)[|a|..] == b && (a + b)[..|a|] == a;
  }

  /** The messages that survive. */
  ghost function Surviving(ms: seq<Message>, chunks: seq<seq<Chunk>>, ts: seq<Transaction>): seq<Delivery>
    requires CarriesAll(chunks, ms) && Passes(ts, Flat(chunks))
    decreases |ms|
  {
    if ms == [] then []
    else
      SplitPasses(ts, chunks[0], Flat(chunks[1..]));
      var n := Upto(ts, |chunks[0]|);
      (if Survives(ms[0], ts[..n]) then [Delivered(ms[0])] else []) + Surviving(ms[1..], chunks[1..], ts[n..])
  }

  /** The whole stream, whatever fails: exactly the messages that survive, in order. */
  lemma {:induction false} StreamSurvives(ms: seq<Message>, chunks: seq<seq<Chunk>>, ts: seq<Transaction>)
    requires CarriesAll(chunks, ms) && Passes(ts, Flat(chunks)) && Quiet(chunks)
    ensures Receive(Header, ts) == Received(Header, Surviving(ms, chunks, ts))
    decreases |ms|
  {
    if ms == [] {
      QuietPasses(ts, Flat(chunks));
      Skips(ts);
    } else {
      SplitPasses(ts, chunks[0], Flat(chunks[1..]));
      var n := Upto(ts, |chunks[0]|);
      assert QuietMessage(chunks[0]);
      QuietRest(chunks, 1);
      MessageOrNothing(ts[..n], chunks[0], ms[0]);
      StreamSurvives(ms[1..], chunks[1..], ts[n..]);
      ReceiveConcat(Header, ts[..n], ts[n..]);
    }
  }

  lemma QuietRest(chunks: seq<seq<Chunk>>, m: nat)
    requires Quiet(chunks) && m <= |chunks|
    ensures Quiet(chunks[m..])
  {
    forall k | 0 <= k < |chunks[m..]|
      ensures QuietMessage(chunks[m..][k])
    {
      assert QuietMessage(chunks[m + k]);
    }
  }

  /** From transaction n on, ts pass the chunks of message m and all later ones. */
  ghost predicate Follows(ms: seq<Message>, chunks: seq<seq<Chunk>>, m: nat, ts: seq<Transaction>, n: nat) {
    m <= |ms| == |chunks| && n <= |ts| && CarriesAll(chunks[m..], ms[m..]) && Passes(ts[n..], Flat(chunks[m..]))
  }

  /** Everything of message m and later that survives. */
  ghost function SurvivingFrom(ms: seq<Message>, chunks: seq<seq<Chunk>>, m: nat, ts: seq<Transaction>, n: nat)
    : seq<Delivery>
    requires Follows(ms, chunks, m, ts, n)
  {
    Surviving(ms[m..], chunks[m..], ts[n..])
  }

  lemma SkipThenStream(ms: seq<Message>, chunks: seq<seq<Chunk>>, m: nat, ts: seq<Transaction>, n: nat)
    requires Follows(ms, chunks, m, ts, n) && Quiet(chunks) && forall k :: 0 <= k < n ==> !IsHeader(ts[k])
    ensures Receive(Header, ts) == Received(Header, SurvivingFrom(ms, chunks, m, ts, n))
  {
    Skips(ts[..n]);
    QuietRest(chunks, m);
    StreamSurvives(ms[m..], chunks[m..], ts[n..]);
    var out := SurvivingFrom(ms, chunks, m, ts, n);
    InTwoParts(Header, ts, n, Received(Header, []), Received(Header, out));
    assert [] + out == out;
  }

  /** The first k transactions take n chunks, the last of them the last. */
  ghost predicate Reaches(ts: seq<Transaction>, k: nat, n: nat) {
    k <= |ts| && Used(ts[..k]) == n && (k > 0 ==> Takes(ts[k - 1]))
  }

  lemma RestPasses(chunks: seq<seq<Chunk>>, q: nat, ts: seq<Transaction>) returns (k: nat)
    requires Quiet(chunks) && q <= |Flat(chunks)| && Passes(ts, Flat(chunks)[q..])
    ensures Reaches(ts, k, Rest(chunks, q)) && Passes(ts[k..], Flat(chunks[Begun(chunks, q)..]))
    ensures forall i :: 0 <= i < k ==> !IsHeader(ts[i])
  {
    var n := Rest(chunks, q);
    RestIsQuiet(chunks, q);
    QuietFront(ts, Flat(chunks), q, n);
    k := Upto(ts, n);
    if k > 0 {
      UptoLast(ts, n);
    }
  }

  lemma UptoLast(ts: seq<Transaction>, n: nat)
    requires n <= Used(ts) && Upto(ts, n) > 0
    ensures Takes(ts[Upto(ts, n) - 1])
  {
  }

  /** The transactions of n quiet chunks do not read as headers, and the others pass what is behind. */
  lemma QuietFront(ts: seq<Transaction>, all: seq<Chunk>, q: nat, n: nat)
    requires q + n <= |all| && Passes(ts, all[q..])
    requires forall i :: q <= i < q + n ==> !Announces(DecodeWire(all[i]))
    ensures n <= Used(ts)
    ensures var k := Upto(ts, n);
      Passes(ts[k..], all[q + n..]) && forall i :: 0 <= i < k ==> !IsHeader(ts[i])
  {
    PassesAll(ts, all[q..]);
    var k := Upto(ts, n);
    PassesFrom(ts, all[q..], k);
    PassesUpto(ts, all[q..], k);
    var quiet := all[q..][..n];
    assert all[q..][n..] == all[q + n..];
    assert forall i :: 0 <= i < n ==> quiet[i] == all[q + i];
    QuietPasses(ts[..k], quiet);
    assert forall i :: 0 <= i < k ==> ts[i] == ts[..k][i];
  }

  /**
   What is received of ts, the stream from chunk q on: after the k transactions
   that take what is left of the message under way, every message that survives.
   */
  ghost predicate Recovers(ms: seq<Message>, chunks: seq<seq<Chunk>>, q: nat, ts: seq<Transaction>)
    requires q <= |Flat(chunks)|
  {
    exists k: nat :: Reaches(ts, k, Rest(chunks, q)) && Follows(ms, chunks, Begun(chunks, q), ts, k)
      && Receive(Header, ts).out == SurvivingFrom(ms, chunks, Begun(chunks, q), ts, k)
  }

  /** From header-wait anywhere in the stream: of the messages that begin from here on exactly those that survive. */
  lemma Resynchronises(ms: seq<Message>, chunks: seq<seq<Chunk>>, q: nat, ts: seq<Transaction>)
    requires CarriesAll(chunks, ms) && Quiet(chunks)
    requires q <= |Flat(chunks)| && Passes(ts, Flat(chunks)[q..])
    ensures Receive(Header, ts).state == Header && Recovers(ms, chunks, q, ts)
  {
    var k := RestPasses(chunks, q, ts);
    CarriesRest(chunks, ms, Begun(chunks, q));
    SkipThenStream(ms, chunks, Begun(chunks, q), ts, k);
  }

  /**
   Self-stabilisation. The receiver is in any state, the sender at any chunk p of
   its stream, and transactions fail anywhere. After k transactions, at most the 66
   that the receiver may believe to be payload, of the messages that begin exactly
   those are delivered of which no transaction fails, intact and in order.
   */
  lemma SelfStabilises(s: State, ms: seq<Message>, chunks: seq<seq<Chunk>>, p: nat, ts: seq<Transaction>)
    returns (k: nat, q: nat)
    requires CarriesAll(chunks, ms) && Quiet(chunks)
    requires p <= |Flat(chunks)| && Passes(ts, Flat(chunks)[p..]) && Turns(s) <= |ts|
    ensures k <= Turns(s) <= 66 && Receive(s, ts[..k]).state == Header
    ensures k == Turns(s) || (k > 0 && ts[k - 1].Failed?)
    ensures Receive(s, ts) == Prepend(Receive(s, ts[..k]).out, Receive(Header, ts[k..]))
    ensures q == p + Used(ts[..k]) <= |Flat(chunks)| && Recovers(ms, chunks, q, ts[k..])
  {
    k := BackThen(s, ts);
    q := FromThere(ms, chunks, p, ts, k);
  }

  lemma FromThere(ms: seq<Message>, chunks: seq<seq<Chunk>>, p: nat, ts: seq<Transaction>, k: nat) returns (q: nat)
    requires CarriesAll(chunks, ms) && Quiet(chunks)
    requires p <= |Flat(chunks)| && Passes(ts, Flat(chunks)[p..]) && k <= |ts|
    ensures q == p + Used(ts[..k]) <= |Flat(chunks)| && Recovers(ms, chunks, q, ts[k..])
  {
    q := p + Used(ts[..k]);
    PassesLater(ts, Flat(chunks), p, k, Used(ts[..k]));
    Resynchronises(ms, chunks, q, ts[k..]);
  }

  lemma BackThen(s: State, ts: seq<Transaction>) returns (k: nat)
    requires Turns(s) <= |ts|
    ensures k <= Turns(s) <= 66 && Receive(s, ts[..k]).state == Header
    ensures k == Turns(s) || (k > 0 && ts[k - 1].Failed?)
    ensures Receive(s, ts) == Prepend(Receive(s, ts[..k]).out, Receive(Header, ts[k..]))
  {
    k := BackAtMost(s, ts);
    InTwoParts(s, ts, k, Receive(s, ts[..k]), Receive(Header, ts[k..]));
  }

  lemma PassesLater(ts: seq<Transaction>, all: seq<Chunk>, p: nat, k: nat, u: nat)
    requires p <= |all| && Passes(ts, all[p..]) && k <= |ts| && u == Used(ts[..k])
    ensures p + u <= |all| && Passes(ts[k..], all[p + u..])
  {
    PassesFrom(ts, all[p..], k);
    assert all[p..][u..] == all[p + u..];
  }
}
