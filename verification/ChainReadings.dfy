/** What a reading carries: the value last cached for the lane whose turn it is. */
module ChainReadings {
  import opened Words
  import opened ChainSpec
  import opened ChainNet
  import opened NodeInvariant
  import opened ChainInvariant

  /** What a lane was last set to in a run, as the caller gave it. */
  datatype Setting = Setting(occupied: uint8, plate: string)

  function LastSet(steps: seq<Step>, at: nat, lane: LaneId): Option<Setting> {
    if steps == [] then None
    else
      var last := steps[|steps| - 1];
      if last.SetLane? && last.at == at && last.stream == lane then Some(Setting(last.occupied, last.plate))
      else LastSet(steps[..|steps| - 1], at, lane)
  }

  /** What the cache of a lane holds, given what it was last set to: at first a free lane without a plate. */
  predicate Caches(cached: Lane, setting: Option<Setting>) {
    match setting
    case None => cached.occupied == 0 && cached.plate == ""
    case Some(v) => cached.occupied == v.occupied && Abridges(cached.plate, v.plate)
  }

  lemma LoopKeepsLanes(s: Node, clock: Clock)
    ensures Loop(s, clock).node.lanes == s.lanes
  {
  }

  lemma StepSetsLane(net: Net, step: Step, i: nat, lane: LaneId)
    requires WellFormed(net) && Enabled(net, step) && i < |net.macs|
    ensures var cached, cached' := net.nodes[i].lanes[lane], Apply(net, step).nodes[i].lanes[lane];
      if step.SetLane? && step.at == i && step.stream == lane
      then cached'.occupied == step.occupied && Abridges(cached'.plate, step.plate)
      else cached' == cached
  {
    if step.Pass? {
      LoopKeepsLanes(net.nodes[step.at], step.clock);
    } else if step.SetLane? {
      TruncatedAbridges(step.plate);
    }
  }

  lemma {:induction false} LanesAreLatest(boot: Net, steps: seq<Step>, i: nat, lane: LaneId)
    requires JustBooted(boot) && IsRun(boot, steps) && i < |boot.macs|
    ensures Caches(Exec(boot, steps).nodes[i].lanes[lane], LastSet(steps, i, lane))
    decreases |steps|
  {
    if steps == [] {
      assert FreshNode(boot, i);
    } else {
      var front, last := steps[..|steps| - 1], steps[|steps| - 1];
      assert steps == front + [last];
      RunSplit(boot, front, last);
      LanesAreLatest(boot, front, i, lane);
      StepSetsLane(Exec(boot, front), last, i, lane);
    }
  }

  lemma {:induction false} RunSplit(net: Net, front: seq<Step>, last: Step)
    requires WellFormed(net) && IsRun(net, front + [last])
    ensures IsRun(net, front) && Enabled(Exec(net, front), last)
    ensures Exec(net, front + [last]) == Apply(Exec(net, front), last)
    decreases |front|
  {
    var steps := front + [last];
    if front == [] {
      assert steps[1..] == [];
    } else {
      assert steps[1..] == front[1..] + [last];
      RunSplit(Apply(net, front[0]), front[1..], last);
    }
  }

  /**
   The reading of tick t after any run from boot: from its own node, lane t mod 3,
   sequence number t mod 65536, and what that lane was last set to: the same
   occupancy, and the plate itself or the first eleven characters of a longer one.
   */
  lemma ReadingIsLatest(boot: Net, steps: seq<Step>, i: nat)
    requires JustBooted(boot) && IsRun(boot, steps) && i < |boot.macs|
    ensures var net := Exec(boot, steps);
      var p := Reading(net.nodes[i]);
      && p.origin == i && Numbered(p, net.hist[i].ticks)
      && Caches(Lane(p.occupied, p.plate), LastSet(steps, i, p.stream))
  {
    var net := Exec(boot, steps);
    Reachable(boot, steps);
    LanesAreLatest(boot, steps, i, net.nodes[i].localStream);
    assert NodeInv(net.macs, i, net.nodes[i], net.hist[i]);
  }

  /** A tick logs this reading, if there is room, and moves on to the next. */
  lemma TickTakesReading(net: Net, at: nat, clock: Clock)
    requires WellFormed(net) && at < |net.macs| && LocalDue(net.nodes[at], clock)
    ensures var h, h' := net.hist[at], Apply(net, Pass(at, clock)).hist[at];
      && h'.ticks == h.ticks + 1
      && h'.local == (if HasRoom(net.nodes[at]) then h.local + [Reading(net.nodes[at])] else h.local)
  {
  }
}
