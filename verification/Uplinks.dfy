/**
 The Gateway's two uplinks (main/gateway_uplink.cpp): `flush` and
 `statusUplinkTask`, `flushVideo` and `videoUplinkTask`. A caller puts an item in
 a bounded queue or drops it; a task of its own takes items out, looks at the
 link, and sends or drops. What is dropped or sent is freed.
 */
module Uplinks {
  import opened Words
  import opened Config
  import opened Subsequence

  /** The depth of the queue, and whether the caller looks at the link first. */
  datatype Settings = Settings(depth: nat, needsLink: bool)

  const STATUS := Settings(STATUS_UPLINK_QUEUE_DEPTH, false)
  const VIDEO := Settings(VIDEO_UPLINK_QUEUE_DEPTH, true)

  datatype Counters = Counters(queued: uint32, sent: uint32, dropped: uint32)

  /** The item in the task's hand, before and after it has looked at the link. */
  datatype Hand<T> = Empty | Taken(item: T) | Sending(item: T)

  /** All items offered, those that entered the queue, those sent, and those dropped. */
  datatype Log<T> = Log(offered: seq<T>, accepted: seq<T>, sent: seq<T>, dropped: seq<T>)

  datatype Uplink<T> = Uplink(queue: seq<T>, hand: Hand<T>, counters: Counters, log: Log<T>)

  function Fresh<T>(): Uplink<T> { Uplink([], Empty, Counters(0, 0, 0), Log([], [], [], [])) }

  function Inc(x: uint32): uint32 { Wrap32(x + 1) }

  /** `flush` or `flushVideo`. */
  function Flush<T>(config: Settings, u: Uplink<T>, x: T, linkUp: bool): Uplink<T> {
    var log := u.log.(offered := u.log.offered + [x]);
    if (config.needsLink && !linkUp) || |u.queue| >= config.depth then
      u.(counters := u.counters.(dropped := Inc(u.counters.dropped)), log := log.(dropped := log.dropped + [x]))
    else
      u.(queue := u.queue + [x], counters := u.counters.(queued := Inc(u.counters.queued)),
         log := log.(accepted := log.accepted + [x]))
  }

  /** The task's `xQueueReceive`. */
  function Take<T>(u: Uplink<T>): Uplink<T> {
    if u.hand.Empty? && u.queue != [] then u.(queue := u.queue[1..], hand := Taken(u.queue[0])) else u
  }

  function Drop<T>(u: Uplink<T>): Uplink<T>
    requires !u.hand.Empty?
  {
    u.(hand := Empty, counters := u.counters.(dropped := Inc(u.counters.dropped)),
       log := u.log.(dropped := u.log.dropped + [u.hand.item]))
  }

  /** The task looks at the link. */
  function Check<T>(u: Uplink<T>, linkUp: bool): Uplink<T> {
    if !u.hand.Taken? then u
    else if linkUp then u.(hand := Sending(u.hand.item))
    else Drop(u)
  }

  /** The item went out, or sending failed. */
  function Finish<T>(u: Uplink<T>, ok: bool): Uplink<T> {
    if !u.hand.Sending? then u
    else if ok then
      u.(hand := Empty, counters := u.counters.(sent := Inc(u.counters.sent)),
         log := u.log.(sent := u.log.sent + [u.hand.item]))
    else Drop(u)
  }

  datatype Step<T> = DoFlush(item: T) | DoTake | DoCheck | DoFinish(ok: bool)

  /** Caller, task and link in any interleaving: `linkUp` is what the step finds. */
  function Apply<T>(config: Settings, u: Uplink<T>, step: Step<T>, linkUp: bool): Uplink<T> {
    match step
    case DoFlush(x) => Flush(config, u, x, linkUp)
    case DoTake => Take(u)
    case DoCheck => Check(u, linkUp)
    case DoFinish(ok) => Finish(u, ok)
  }

  function Exec<T>(config: Settings, u: Uplink<T>, steps: seq<(Step<T>, bool)>): Uplink<T>
    decreases |steps|
  {
    if steps == [] then u else Exec(config, Apply(config, u, steps[0].0, steps[0].1), steps[1..])
  }

  // What holds in every interleaving.

  function Held<T>(h: Hand<T>): seq<T> { if h.Empty? then [] else [h.item] }

  /** The items sent, dropped, queued or in the task's hand, in the arithmetic of the counters. */
  function Disposed<T>(u: Uplink<T>): uint32 {
    Wrap32(u.counters.sent + u.counters.dropped + |u.queue| + |Held(u.hand)|)
  }

  /** Every item offered has exactly one place: the queue, the task's hand, sent or dropped. */
  ghost predicate OnePlace<T>(u: Uplink<T>) {
    multiset(u.log.offered) ==
    multiset(u.queue) + multiset(Held(u.hand)) + multiset(u.log.sent) + multiset(u.log.dropped)
  }

  /** First in, first out. */
  ghost predicate InOrder<T>(u: Uplink<T>) {
    Sub(u.log.sent + (Held(u.hand) + u.queue), u.log.accepted) && Sub(u.log.accepted, u.log.offered)
  }

  ghost predicate Counted<T>(u: Uplink<T>) {
    && u.counters.queued == Wrap32(|u.log.accepted|)
    && u.counters.sent == Wrap32(|u.log.sent|)
    && u.counters.dropped == Wrap32(|u.log.dropped|)
  }

  ghost predicate Inv<T>(config: Settings, u: Uplink<T>) {
    |u.queue| <= config.depth && OnePlace(u) && InOrder(u) && Counted(u)
  }

  lemma FlushKeeps<T>(config: Settings, u: Uplink<T>, x: T, linkUp: bool)
    requires Inv(config, u)
    ensures Inv(config, Flush(config, u, x, linkUp))
  {
    FlushKeepsCount(config, u, x, linkUp);
    FlushKeepsPlace(config, u, x, linkUp);
    FlushKeepsOrder(config, u, x, linkUp);
  }

  lemma FlushKeepsCount<T>(config: Settings, u: Uplink<T>, x: T, linkUp: bool)
    requires Counted(u) && |u.queue| <= config.depth
    ensures var u' := Flush(config, u, x, linkUp); Counted(u') && |u'.queue| <= config.depth
  {
    Wrap32Succ(|u.log.accepted|);
    Wrap32Succ(|u.log.dropped|);
  }

  lemma FlushKeepsPlace<T>(config: Settings, u: Uplink<T>, x: T, linkUp: bool)
    requires OnePlace(u)
    ensures OnePlace(Flush(config, u, x, linkUp))
  {
  }

  lemma FlushKeepsOrder<T>(config: Settings, u: Uplink<T>, x: T, linkUp: bool)
    requires InOrder(u)
    ensures InOrder(Flush(config, u, x, linkUp))
  {
    var log := u.log;
    if (config.needsLink && !linkUp) || |u.queue| >= config.depth {
      SubExtend(log.accepted, log.offered, [x]);
    } else {
      SubAppend(log.accepted, log.offered, [x]);
      SubAppend(log.sent + (Held(u.hand) + u.queue), log.accepted, [x]);
      AssocLast(log.sent, Held(u.hand), u.queue, x);
    }
  }

  lemma AssocLast<T>(a: seq<T>, b: seq<T>, c: seq<T>, x: T)
    ensures (a + (b + c)) + [x] == a + (b + (c + [x]))
  {
  }

  lemma TakeKeeps<T>(config: Settings, u: Uplink<T>)
    requires Inv(config, u)
    ensures Inv(config, Take(u))
  {
    if u.hand.Empty? && u.queue != [] {
      assert u.queue == [u.queue[0]] + u.queue[1..];
      assert Held(u.hand) + u.queue == Held(Take(u).hand) + Take(u).queue;
    }
  }

  lemma DropKeeps<T>(config: Settings, u: Uplink<T>)
    requires Inv(config, u) && !u.hand.Empty?
    ensures Inv(config, Drop(u))
  {
    Wrap32Succ(|u.log.dropped|);
    DropKeepsPlace(u);
    DropKeepsOrder(u);
  }

  lemma DropKeepsPlace<T>(u: Uplink<T>)
    requires OnePlace(u) && !u.hand.Empty?
    ensures OnePlace(Drop(u))
  {
  }

  lemma DropKeepsOrder<T>(u: Uplink<T>)
    requires InOrder(u) && !u.hand.Empty?
    ensures InOrder(Drop(u))
  {
    SubRefl(u.log.sent);
    SubRefl(u.queue);
    SubConcat([], [u.hand.item], u.queue, u.queue);
    SubConcat(u.log.sent, u.log.sent, [] + u.queue, [u.hand.item] + u.queue);
    SubTrans(u.log.sent + ([] + u.queue), u.log.sent + ([u.hand.item] + u.queue), u.log.accepted);
  }

  lemma CheckKeeps<T>(config: Settings, u: Uplink<T>, linkUp: bool)
    requires Inv(config, u)
    ensures Inv(config, Check(u, linkUp))
  {
    if u.hand.Taken? && !linkUp {
      DropKeeps(config, u);
    }
  }

  lemma FinishKeeps<T>(config: Settings, u: Uplink<T>, ok: bool)
    requires Inv(config, u)
    ensures Inv(config, Finish(u, ok))
  {
    if u.hand.Sending? {
      if ok {
        Wrap32Succ(|u.log.sent|);
        var x := u.hand.item;
        assert u.log.sent + ([x] + u.queue) == (u.log.sent + [x]) + ([] + u.queue);
      } else {
        DropKeeps(config, u);
      }
    }
  }

  lemma {:induction false} RunKeeps<T>(config: Settings, u: Uplink<T>, steps: seq<(Step<T>, bool)>)
    requires Inv(config, u)
    ensures Inv(config, Exec(config, u, steps))
    decreases |steps|
  {
    if steps != [] {
      var linkUp := steps[0].1;
      match steps[0].0 {
        case DoFlush(x) => FlushKeeps(config, u, x, linkUp);
        case DoTake => TakeKeeps(config, u);
        case DoCheck => CheckKeeps(config, u, linkUp);
        case DoFinish(ok) => FinishKeeps(config, u, ok);
      }
      RunKeeps(config, Apply(config, u, steps[0].0, linkUp), steps[1..]);
    }
  }

  /**
   Conservation, in every interleaving with link flaps and modulo 2^32: each call
   is counted once as sent or dropped, or its item still is in the queue or in
   the task's hand. What is sent goes out in the order of the calls.
   */
  lemma EveryCallIsCounted<T>(config: Settings, steps: seq<(Step<T>, bool)>)
    ensures var u := Exec(config, Fresh(), steps);
      && Wrap32(|u.log.offered|) == Disposed(u)
      && OnePlace(u)
      && Sub(u.log.sent, u.log.offered)
      && |u.queue| <= config.depth
  {
    FreshInv<T>(config);
    RunKeeps(config, Fresh<T>(), steps);
    var u := Exec(config, Fresh<T>(), steps);
    Conserved(u);
    SentInOrder(u);
  }

  lemma FreshInv<T>(config: Settings)
    ensures Inv(config, Fresh<T>())
  {
  }

  lemma Conserved<T>(u: Uplink<T>)
    requires OnePlace(u) && Counted(u)
    ensures Wrap32(|u.log.offered|) == Disposed(u)
  {
    Sizes(u);
    WrapSum(|u.log.sent|, |u.log.dropped|, |u.queue| + |Held(u.hand)|);
  }

  lemma Sizes<T>(u: Uplink<T>)
    requires OnePlace(u)
    ensures |u.log.offered| == |u.queue| + |Held(u.hand)| + |u.log.sent| + |u.log.dropped|
  {
    assert |multiset(u.log.offered)| ==
      |multiset(u.queue) + multiset(Held(u.hand)) + multiset(u.log.sent) + multiset(u.log.dropped)|;
  }

  lemma SentInOrder<T>(u: Uplink<T>)
    requires InOrder(u)
    ensures Sub(u.log.sent, u.log.offered)
  {
    SubRefl(u.log.sent);
    SubExtend(u.log.sent, u.log.sent, Held(u.hand) + u.queue);
    SubTrans(u.log.sent, u.log.sent + (Held(u.hand) + u.queue), u.log.accepted);
    SubTrans(u.log.sent, u.log.accepted, u.log.offered);
  }

  // What happens to each item, told from the steps alone.

  datatype Stage = Free | InHand | Checked

  /**
   An observer who keeps no queue: the items let in, how many of them the task has
   taken, how far it is with the last of these, and what became of all others.
   */
  datatype Witness<T> = Witness(entered: seq<T>, taken: nat, stage: Stage, sent: seq<T>, lost: seq<T>,
                                turnedAway: seq<T>)

  ghost predicate Sane<T>(w: Witness<T>) { w.taken <= |w.entered| && (w.stage != Free ==> w.taken > 0) }

  /**
   A caller is turned away if and only if `depth` items wait or, where it looks, the
   link is down. The task drops an item if and only if it finds the link down or the
   sending fails.
   */
  function Sees<T>(config: Settings, w: Witness<T>, step: Step<T>, linkUp: bool): Witness<T> {
    match step
    case DoFlush(x) =>
      if |w.entered| - w.taken == config.depth || (config.needsLink && !linkUp)
      then w.(turnedAway := w.turnedAway + [x])
      else w.(entered := w.entered + [x])
    case DoTake => if w.stage == Free && w.taken < |w.entered| then w.(taken := w.taken + 1, stage := InHand) else w
    case DoCheck =>
      if w.stage != InHand then w
      else if linkUp then w.(stage := Checked)
      else w.(stage := Free, lost := w.lost + LastTaken(w))
    case DoFinish(ok) =>
      if w.stage != Checked then w
      else if ok then w.(stage := Free, sent := w.sent + LastTaken(w))
      else w.(stage := Free, lost := w.lost + LastTaken(w))
  }

  function LastTaken<T>(w: Witness<T>): seq<T> {
    if 0 < w.taken <= |w.entered| then [w.entered[w.taken - 1]] else []
  }

  function SeesAll<T>(config: Settings, w: Witness<T>, steps: seq<(Step<T>, bool)>): Witness<T>
    decreases |steps|
  {
    if steps == [] then w else SeesAll(config, Sees(config, w, steps[0].0, steps[0].1), steps[1..])
  }

  function Unseen<T>(): Witness<T> { Witness([], 0, Free, [], [], []) }

  /** The uplink does what the witness sees. */
  ghost predicate Agrees<T>(config: Settings, u: Uplink<T>, w: Witness<T>) {
    && Sane(w) && |u.queue| <= config.depth
    && u.log.accepted == w.entered && u.queue == w.entered[w.taken..]
    && u.hand == (if w.stage == Free then Empty
                  else if w.stage == InHand then Taken(w.entered[w.taken - 1])
                  else Sending(w.entered[w.taken - 1]))
    && u.log.sent == w.sent && |u.log.dropped| == |w.lost| + |w.turnedAway|
    && multiset(u.log.dropped) == multiset(w.lost) + multiset(w.turnedAway)
  }

  lemma FlushAgrees<T>(config: Settings, u: Uplink<T>, w: Witness<T>, x: T, linkUp: bool)
    requires Agrees(config, u, w)
    ensures Agrees(config, Flush(config, u, x, linkUp), Sees(config, w, DoFlush(x), linkUp))
  {
    assert |u.queue| == |w.entered| - w.taken;
    if |u.queue| < config.depth && (linkUp || !config.needsLink) {
      assert (w.entered + [x])[w.taken..] == w.entered[w.taken..] + [x];
    }
  }

  lemma DropAgrees<T>(config: Settings, u: Uplink<T>, w: Witness<T>)
    requires Agrees(config, u, w) && w.stage != Free
    ensures Agrees(config, Drop(u), w.(stage := Free, lost := w.lost + LastTaken(w)))
  {
  }

  lemma StepAgrees<T>(config: Settings, u: Uplink<T>, w: Witness<T>, step: Step<T>, linkUp: bool)
    requires Agrees(config, u, w)
    ensures Agrees(config, Apply(config, u, step, linkUp), Sees(config, w, step, linkUp))
  {
    if step.DoFlush? {
      FlushAgrees(config, u, w, step.item, linkUp);
    } else if w.stage != Free {
      DropAgrees(config, u, w);
    }
  }

  lemma {:induction false} RunAgrees<T>(config: Settings, u: Uplink<T>, w: Witness<T>, steps: seq<(Step<T>, bool)>)
    requires Agrees(config, u, w)
    ensures Agrees(config, Exec(config, u, steps), SeesAll(config, w, steps))
    decreases |steps|
  {
    if steps != [] {
      StepAgrees(config, u, w, steps[0].0, steps[0].1);
      RunAgrees(config, Apply(config, u, steps[0].0, steps[0].1), Sees(config, w, steps[0].0, steps[0].1), steps[1..]);
    }
  }

  /**
   The fate of every item in every interleaving: what entered, what waits, what was
   sent and what was dropped are exactly what the steps say, and so the counters.
   */
  lemma FatesExactly<T>(config: Settings, steps: seq<(Step<T>, bool)>)
    ensures var u, w := Exec(config, Fresh(), steps), SeesAll(config, Unseen(), steps);
      && u.log.accepted == w.entered && w.taken <= |w.entered| && u.queue == w.entered[w.taken..]
      && u.log.sent == w.sent && multiset(u.log.dropped) == multiset(w.lost) + multiset(w.turnedAway)
      && u.counters == Counters(Wrap32(|w.entered|), Wrap32(|w.sent|), Wrap32(|w.lost| + |w.turnedAway|))
  {
    RunAgrees(config, Fresh<T>(), Unseen<T>(), steps);
    FreshInv<T>(config);
    RunKeeps(config, Fresh<T>(), steps);
  }

  /** The link is up whenever somebody looks, no sending fails, and every caller finds room. */
  ghost predicate Smooth<T>(config: Settings, u: Uplink<T>, steps: seq<(Step<T>, bool)>)
    decreases |steps|
  {
    steps == [] ||
    (steps[0].1 && steps[0].0 != DoFinish(false)
      && (steps[0].0.DoFlush? ==> |u.queue| < config.depth)
      && Smooth(config, Apply(config, u, steps[0].0, steps[0].1), steps[1..]))
  }

  /** Then nothing is dropped: what was offered is what was sent, is in the task's hand or waits, in order. */
  lemma SmoothSends<T>(config: Settings, steps: seq<(Step<T>, bool)>)
    requires Smooth(config, Fresh(), steps)
    ensures var u := Exec(config, Fresh(), steps);
      && u.log.offered == u.log.sent + (Held(u.hand) + u.queue) && u.log.dropped == []
      && u.counters.dropped == 0
  {
    FreshInv<T>(config);
    RunKeeps(config, Fresh<T>(), steps);
    assert Fresh<T>().log.sent + (Held(Fresh<T>().hand) + Fresh<T>().queue) == [];
    RunSmooth(config, Fresh<T>(), steps);
  }

  lemma {:induction false} RunSmooth<T>(config: Settings, u: Uplink<T>, steps: seq<(Step<T>, bool)>)
    requires Smooth(config, u, steps) && u.log.dropped == []
    requires u.log.sent + (Held(u.hand) + u.queue) == u.log.offered
    ensures var u' := Exec(config, u, steps);
      u'.log.dropped == [] && u'.log.sent + (Held(u'.hand) + u'.queue) == u'.log.offered
    decreases |steps|
  {
    if steps != [] {
      SmoothStep(config, u, steps[0].0);
      RunSmooth(config, Apply(config, u, steps[0].0, steps[0].1), steps[1..]);
    }
  }

  lemma SmoothStep<T>(config: Settings, u: Uplink<T>, step: Step<T>)
    requires step != DoFinish(false) && (step.DoFlush? ==> |u.queue| < config.depth) && u.log.dropped == []
    requires u.log.sent + (Held(u.hand) + u.queue) == u.log.offered
    ensures var u' := Apply(config, u, step, true);
      u'.log.dropped == [] && u'.log.sent + (Held(u'.hand) + u'.queue) == u'.log.offered
  {
    match step
    case DoFlush(x) => AssocLast(u.log.sent, Held(u.hand), u.queue, x);
    case DoTake =>
      if u.hand.Empty? && u.queue != [] {
        assert [] + u.queue == [u.queue[0]] + u.queue[1..];
      }
    case DoCheck =>
    case DoFinish(_) =>
      if u.hand.Sending? {
        var x := u.hand.item;
        assert u.log.sent + ([x] + u.queue) == (u.log.sent + [x]) + ([] + u.queue);
      }
  }
}
