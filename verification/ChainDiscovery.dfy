/**
 Discovery over whole runs: a node learns each of its neighbours from the first
 HELLO of it that it hears, and leaves discovery as soon as it knows whom it needs.
 */
module ChainDiscovery {
  import opened Config
  import opened ChainSpec
  import opened ChainNet
  import opened NodeInvariant
  import opened ChainInvariant

  /** In the course of the run node i hears a HELLO of node `id` of its own chain of n. */
  predicate Heard(steps: seq<Step>, i: nat, id: nat, n: nat) {
    exists k :: 0 <= k < |steps| && IsHelloOf(steps[k], i, id, n)
  }

  predicate IsHelloOf(step: Step, i: nat, id: nat, n: nat) {
    step.HearHello? && step.at == i && step.hello.nodeId == id && step.hello.chainSize == n
  }

  lemma HeardLater(steps: seq<Step>, i: nat, id: nat, n: nat)
    requires steps != []
    ensures Heard(steps, i, id, n) <==> IsHelloOf(steps[0], i, id, n) || Heard(steps[1..], i, id, n)
  {
    if IsHelloOf(steps[0], i, id, n) {
      assert Heard(steps, i, id, n);
    }
    if Heard(steps[1..], i, id, n) {
      var k :| 0 <= k < |steps[1..]| && IsHelloOf(steps[1..][k], i, id, n);
      assert IsHelloOf(steps[k + 1], i, id, n);
    }
    if Heard(steps, i, id, n) && !IsHelloOf(steps[0], i, id, n) {
      var k :| 0 <= k < |steps| && IsHelloOf(steps[k], i, id, n);
      assert IsHelloOf(steps[1..][k - 1], i, id, n);
    }
  }

  /** A node is in discovery exactly as long as a neighbour that it needs is unknown. */
  predicate Settled(s: Node, i: nat) {
    s.phase != Discovering <==> s.peers.prevKnown && (i == GATEWAY_NODE_ID || s.peers.nextKnown)
  }

  /** What a HELLO teaches node i of n. */
  lemma HelloTeaches(macs: seq<Mac>, i: nat, s: Node, mac: Mac, hello: Hello)
    requires i < |macs| <= MAX_CHAIN_NODES && PeersOk(macs, i, s) && Settled(s, i)
    ensures var n, s' := |macs|, HandleHello(s, mac, hello);
      var known := hello.chainSize == n;
      && Settled(s', i)
      && (s'.peers.prevKnown <==> s.peers.prevKnown || (known && hello.nodeId == PrevOf(i, n)))
      && (s'.peers.nextKnown <==> s.peers.nextKnown || (known && hello.nodeId == NextOf(i, n)))
  {
    NeighboursAreInverse(i, |macs|);
  }

  /** Nothing else teaches it anything, or ends or starts discovery. */
  lemma OnlyHellosTeach(net: Net, step: Step, i: nat)
    requires WellFormed(net) && Enabled(net, step) && i < |net.macs| && !(step.HearHello? && step.at == i)
    ensures var s, s' := net.nodes[i], Apply(net, step).nodes[i];
      s'.peers == s.peers && (s'.phase == Discovering <==> s.phase == Discovering)
  {
    if step.Pass? {
      PassTeachesNothing(net.nodes[step.at], step.clock);
    }
  }

  lemma PassTeachesNothing(s: Node, clock: Clock)
    ensures var s' := Loop(s, clock).node;
      s'.peers == s.peers && (s'.phase == Discovering <==> s.phase == Discovering)
  {
  }

  /** What a step teaches a node. */
  lemma StepTeaches(net: Net, step: Step, i: nat)
    requires Inv(net) && Enabled(net, step) && i < |net.macs| && Settled(net.nodes[i], i)
    ensures var n, p, p' := |net.macs|, net.nodes[i].peers, Apply(net, step).nodes[i].peers;
      && Settled(Apply(net, step).nodes[i], i)
      && (p'.prevKnown <==> p.prevKnown || IsHelloOf(step, i, PrevOf(i, n), n))
      && (p'.nextKnown <==> p.nextKnown || IsHelloOf(step, i, NextOf(i, n), n))
  {
    assert NodeInv(net.macs, i, net.nodes[i], net.hist[i]);
    if step.HearHello? && step.at == i {
      HelloTeaches(net.macs, i, net.nodes[i], step.mac, step.hello);
    } else {
      OnlyHellosTeach(net, step, i);
    }
  }

  lemma {:induction false} RunTeaches(net: Net, steps: seq<Step>, i: nat)
    requires Inv(net) && IsRun(net, steps) && i < |net.macs| && Settled(net.nodes[i], i)
    ensures var n, s, s' := |net.macs|, net.nodes[i], Exec(net, steps).nodes[i];
      && Settled(s', i)
      && (s'.peers.prevKnown <==> s.peers.prevKnown || Heard(steps, i, PrevOf(i, n), n))
      && (s'.peers.nextKnown <==> s.peers.nextKnown || Heard(steps, i, NextOf(i, n), n))
    decreases |steps|
  {
    if steps != [] {
      var n := |net.macs|;
      StepKeepsInv(net, steps[0]);
      StepTeaches(net, steps[0], i);
      RunTeaches(Apply(net, steps[0]), steps[1..], i);
      HeardLater(steps, i, PrevOf(i, n), n);
      HeardLater(steps, i, NextOf(i, n), n);
    }
  }

  /**
   Over every run from boot: a node is past discovery if and only if it has heard a
   HELLO of its prev and, unless it is the Gateway, one of its next. So discovery
   ends with the first HELLOs that get through, whatever else is heard or lost.
   */
  lemma DiscoveryEnds(boot: Net, steps: seq<Step>, i: nat)
    requires JustBooted(boot) && IsRun(boot, steps) && i < |boot.macs|
    ensures var n := |boot.macs|;
      Exec(boot, steps).nodes[i].phase != Discovering <==>
        Heard(steps, i, PrevOf(i, n), n) && (i == GATEWAY_NODE_ID || Heard(steps, i, NextOf(i, n), n))
  {
    BootInv(boot);
    assert FreshNode(boot, i);
    RunTeaches(boot, steps, i);
  }
}
