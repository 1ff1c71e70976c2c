/** The uplink watchdog in `logStats` of main/gateway_uplink.cpp, over whole runs. */
module Watchdog {
  import opened Words
  import opened Timers

  const STUCK_INTERVALS := 6
  const RESTART_MIN_INTERVAL_MS := 300000

  /** What one call sees: is the driver there with its link up, the totals, and the clock. */
  datatype Observation = Observation(linkUp: bool, sentTotal: uint32, queuedTotal: uint32, nowMs: uint32)

  datatype Totals = Totals(sent: uint32, queued: uint32)

  datatype Dog = Dog(stuck: uint32, last: Totals, lastRestartMs: uint32)

  const FRESH := Dog(0, Totals(0, 0), 0)

  datatype Verdict = Verdict(dog: Dog, restart: bool)

  function Observe(d: Dog, o: Observation): Verdict {
    if !o.linkUp then Verdict(d.(stuck := 0), false)
    else
      var stuck := if o.queuedTotal != d.last.queued && o.sentTotal == d.last.sent then Wrap32(d.stuck + 1) else 0;
      var last := Totals(o.sentTotal, o.queuedTotal);
      if stuck >= STUCK_INTERVALS
         && (d.lastRestartMs == 0 || Elapsed(o.nowMs, d.lastRestartMs) >= RESTART_MIN_INTERVAL_MS)
      then Verdict(Dog(0, last, o.nowMs), true)
      else Verdict(Dog(stuck, last, d.lastRestartMs), false)
  }

  class EthernetWatchdog {
    var stuckIntervals: uint32
    var lastSentTotal: uint32
    var lastQueuedTotal: uint32
    var lastRestartMs: uint32

    ghost function State(): Dog
      reads this
    {
      Dog(stuckIntervals, Totals(lastSentTotal, lastQueuedTotal), lastRestartMs)
    }

    constructor ()
      ensures State() == FRESH
    {
      stuckIntervals, lastSentTotal, lastQueuedTotal, lastRestartMs := 0, 0, 0, 0;
    }

    method LogStats(o: Observation) returns (restart: bool)
      modifies this
      ensures Verdict(State(), restart) == Observe(old(State()), o)
    {
      restart := false;
      if !o.linkUp {
        stuckIntervals := 0;
        return;
      }
      if o.queuedTotal != lastQueuedTotal && o.sentTotal == lastSentTotal {
        stuckIntervals := Wrap32(stuckIntervals + 1);
      } else {
        stuckIntervals := 0;
      }
      lastSentTotal := o.sentTotal;
      lastQueuedTotal := o.queuedTotal;
      if stuckIntervals >= STUCK_INTERVALS
         && (lastRestartMs == 0 || Elapsed(o.nowMs, lastRestartMs) >= RESTART_MIN_INTERVAL_MS) {
        lastRestartMs := o.nowMs;
        stuckIntervals := 0;
        restart := true;
      }
    }
  }

  // Whole runs, from power-up.

  function Run(obs: seq<Observation>): Dog {
    if obs == [] then FRESH else Observe(Run(obs[..|obs| - 1]), obs[|obs| - 1]).dog
  }

  predicate Restarts(obs: seq<Observation>, k: nat)
    requires k < |obs|
  {
    Observe(Run(obs[..k]), obs[k]).restart
  }

  /** The totals at the last observation with the link up, zero before the first. */
  function Before(obs: seq<Observation>): Totals {
    if obs == [] then Totals(0, 0)
    else
      var o := obs[|obs| - 1];
      if o.linkUp then Totals(o.sentTotal, o.queuedTotal) else Before(obs[..|obs| - 1])
  }

  /** Since that observation something was queued and nothing was sent, and the link is up. */
  predicate IsStuck(obs: seq<Observation>, k: nat)
    requires k < |obs|
  {
    && obs[k].linkUp
    && obs[k].queuedTotal != Before(obs[..k]).queued
    && obs[k].sentTotal == Before(obs[..k]).sent
  }

  /** The stuck observations in a row up to the end, since the last restart. */
  function StuckRun(obs: seq<Observation>): nat {
    if obs == [] then 0
    else
      var k := |obs| - 1;
      if IsStuck(obs, k) && !Restarts(obs, k) then StuckRun(obs[..k]) + 1 else 0
  }

  /** The clock at the last restart, zero if there was none. */
  function LastRestart(obs: seq<Observation>): uint32 {
    if obs == [] then 0
    else
      var k := |obs| - 1;
      if Restarts(obs, k) then obs[k].nowMs else LastRestart(obs[..k])
  }

  /** The fields of the watchdog say what happened. */
  lemma {:induction false} RunRemembers(obs: seq<Observation>)
    ensures Run(obs) == Dog(Wrap32(StuckRun(obs)), Before(obs), LastRestart(obs))
  {
    if obs != [] {
      var k := |obs| - 1;
      RunRemembers(obs[..k]);
      Wrap32Succ(StuckRun(obs[..k]));
    }
  }

  /** Exactly when the driver is restarted. */
  lemma RestartsExactly(obs: seq<Observation>, k: nat)
    requires k < |obs|
    ensures Restarts(obs, k) <==>
      && IsStuck(obs, k)
      && Wrap32(StuckRun(obs[..k]) + 1) >= STUCK_INTERVALS
      && (LastRestart(obs[..k]) == 0
          || Elapsed(obs[k].nowMs, LastRestart(obs[..k])) >= RESTART_MIN_INTERVAL_MS)
  {
    RunRemembers(obs[..k]);
    Wrap32Succ(StuckRun(obs[..k]));
  }

  lemma {:induction false} RunOfStuck(obs: seq<Observation>, i: nat)
    requires |obs| - StuckRun(obs) <= i < |obs|
    ensures IsStuck(obs, i) && !Restarts(obs, i)
    decreases |obs|
  {
    var k := |obs| - 1;
    if i < k {
      RunOfStuck(obs[..k], i);
      assert obs[..k][..i] == obs[..i];
    }
  }

  lemma {:induction false} RunFits(obs: seq<Observation>)
    ensures StuckRun(obs) <= |obs|
  {
    if obs != [] {
      RunFits(obs[..|obs| - 1]);
    }
  }

  /** A restart needs six stuck observations in a row, all of them after the restart before. */
  lemma SixInARow(obs: seq<Observation>, k: nat, i: nat)
    requires k < |obs| && Restarts(obs, k)
    ensures k >= STUCK_INTERVALS - 1
    ensures k - STUCK_INTERVALS < i <= k ==> IsStuck(obs, i)
    ensures k - STUCK_INTERVALS < i < k ==> !Restarts(obs, i)
  {
    RestartsExactly(obs, k);
    RunFits(obs[..k]);
    AtMost(StuckRun(obs[..k]) + 1);
    if k - STUCK_INTERVALS < i < k {
      RunOfStuck(obs[..k], i);
      assert obs[..k][..i] == obs[..i];
    }
  }

  lemma AtMost(n: nat)
    ensures Wrap32(n) <= n
  {
  }

  /** The clock of the last restart before m, which is k unless there was a later one. */
  lemma {:induction false} LastOf(obs: seq<Observation>, k: nat, m: nat) returns (j: nat)
    requires k < m <= |obs| && Restarts(obs, k)
    ensures k <= j < m && Restarts(obs, j) && LastRestart(obs[..m]) == obs[j].nowMs
    decreases m
  {
    assert obs[..m][..m - 1] == obs[..m - 1];
    if Restarts(obs, m - 1) {
      j := m - 1;
    } else {
      j := LastOf(obs, k, m - 1);
    }
  }

  /** The clock of every observation is the true time since power-up, in 32 bits. */
  ghost predicate Timed(obs: seq<Observation>, times: seq<nat>) {
    && |times| == |obs|
    && (forall k :: 0 <= k < |obs| ==> obs[k].nowMs == NowMs(times[k]))
    && (forall k, m :: 0 <= k <= m < |obs| ==> times[k] <= times[m])
  }

  /** However long the run, restarts are five minutes apart, except after one that the clock dates to zero. */
  lemma {:induction false} FiveMinutesApart(obs: seq<Observation>, times: seq<nat>, k: nat, m: nat)
    requires Timed(obs, times) && k < m < |obs|
    requires Restarts(obs, k) && Restarts(obs, m) && obs[k].nowMs != 0
    ensures times[m] - times[k] >= RESTART_MIN_INTERVAL_MS
    decreases m
  {
    var j := LastOf(obs, k, m);
    if obs[j].nowMs == 0 {
      FiveMinutesApart(obs, times, k, j);
    } else {
      RestartsExactly(obs, m);
      ElapsedIsGapModulo(times[j], times[m]);
      AtMost(times[m] - times[j]);
    }
  }

  /**
   The exception is real: a restart dated zero leaves no trace, so that the next
   one comes after six more stuck observations, whatever the time by then.
   */
  lemma ZeroIsForgotten(obs: seq<Observation>, k: nat)
    requires k + STUCK_INTERVALS < |obs| && Restarts(obs, k) && obs[k].nowMs == 0
    requires forall i :: k < i <= k + STUCK_INTERVALS ==> IsStuck(obs, i)
    ensures Restarts(obs, k + STUCK_INTERVALS)
  {
    CountsAgain(obs, k, k + STUCK_INTERVALS);
    RestartsExactly(obs, k + STUCK_INTERVALS);
  }

  lemma {:induction false} CountsAgain(obs: seq<Observation>, k: nat, m: nat)
    requires k < m <= k + STUCK_INTERVALS <= |obs| && Restarts(obs, k) && obs[k].nowMs == 0
    requires forall i :: k < i < m ==> IsStuck(obs, i)
    ensures StuckRun(obs[..m]) == m - 1 - k && LastRestart(obs[..m]) == 0
    decreases m
  {
    LastStep(obs, m);
    if m > k + 1 {
      CountsAgain(obs, k, m - 1);
      NotYet(obs, m - 1);
    }
  }

  lemma NotYet(obs: seq<Observation>, k: nat)
    requires k < |obs| && StuckRun(obs[..k]) + 1 < STUCK_INTERVALS
    ensures !Restarts(obs, k)
  {
    RestartsExactly(obs, k);
    AtMost(StuckRun(obs[..k]) + 1);
  }

  lemma LastStep(obs: seq<Observation>, m: nat)
    requires 1 <= m <= |obs|
    ensures StuckRun(obs[..m]) ==
      if IsStuck(obs, m - 1) && !Restarts(obs, m - 1) then StuckRun(obs[..m - 1]) + 1 else 0
    ensures LastRestart(obs[..m]) == if Restarts(obs, m - 1) then obs[m - 1].nowMs else LastRestart(obs[..m - 1])
  {
    assert obs[..m][..m - 1] == obs[..m - 1];
  }

  // Such a run: the uplink wedges shortly before the clock turns over.

  const WEDGED_FROM := TWO_TO_THE_32 - 50000
  const STATS_INTERVAL_MS := 10000

  /** The link is up, something is queued in every interval, nothing is ever sent. */
  function WedgedTimes(n: nat): (times: seq<nat>)
    ensures |times| == n
  {
    seq(n, k requires 0 <= k < n => WEDGED_FROM + STATS_INTERVAL_MS * k)
  }

  function Wedged(n: nat): (obs: seq<Observation>)
    requires n < TWO_TO_THE_32
    ensures |obs| == n
  {
    seq(n, k requires 0 <= k < n => Observation(true, 0, k + 1, NowMs(WedgedTimes(n)[k])))
  }

  /** The sixth observation is at true time 2^32, where the clock reads zero. */
  lemma ZeroClock()
    ensures NowMs(WEDGED_FROM + STATS_INTERVAL_MS * (STUCK_INTERVALS - 1)) == 0
  {
    Remainder(TWO_TO_THE_32, 1, TWO_TO_THE_32);
  }

  lemma WedgedStep(d: Dog, o: Observation, m: nat)
    requires m < 2 * STUCK_INTERVALS && o == Observation(true, 0, m + 1, o.nowMs)
    requires d == Dog(if m < STUCK_INTERVALS then m else m - STUCK_INTERVALS, Totals(0, m), 0)
    ensures var stuck := (if m < STUCK_INTERVALS then m else m - STUCK_INTERVALS) + 1;
      Observe(d, o) == if stuck < STUCK_INTERVALS then Verdict(Dog(stuck, Totals(0, m + 1), 0), false)
                       else Verdict(Dog(0, Totals(0, m + 1), o.nowMs), true)
  {
  }

  lemma {:induction false} WedgedRun(m: nat)
    requires m <= 2 * STUCK_INTERVALS - 1
    ensures Run(Wedged(2 * STUCK_INTERVALS)[..m])
         == Dog(if m < STUCK_INTERVALS then m else m - STUCK_INTERVALS, Totals(0, m), 0)
  {
    if m > 0 {
      WedgedRun(m - 1);
      var obs := Wedged(2 * STUCK_INTERVALS);
      assert obs[..m][..m - 1] == obs[..m - 1];
      ZeroClock();
      WedgedStep(Run(obs[..m - 1]), obs[m - 1], m - 1);
    }
  }

  /** A restart a minute after the one before, in place of five. */
  lemma RestartedTooSoon() returns (obs: seq<Observation>, times: seq<nat>, k: nat, m: nat)
    ensures Timed(obs, times) && k < m < |obs| && Restarts(obs, k) && Restarts(obs, m)
    ensures obs[k].nowMs == 0 && forall i :: 0 <= i < |obs| ==> IsStuck(obs, i)
    ensures times[m] - times[k] == STUCK_INTERVALS * STATS_INTERVAL_MS < RESTART_MIN_INTERVAL_MS
  {
    k, m := STUCK_INTERVALS - 1, 2 * STUCK_INTERVALS - 1;
    obs, times := Wedged(m + 1), WedgedTimes(m + 1);
    WedgedRun(k);
    ZeroClock();
    WedgedStep(Run(obs[..k]), obs[k], k);
    forall i | 0 <= i < |obs|
      ensures IsStuck(obs, i)
    {
      WedgedRun(i);
      RunRemembers(obs[..i]);
    }
    WedgedRun(m);
    WedgedStep(Run(obs[..m]), obs[m], m);
  }
}
