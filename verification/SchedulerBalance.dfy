/** Choosing a least loaded node each time keeps the load even (scheduler/src/algorithm/simple.rs). */
module SchedulerBalance {
  import opened Common
  import opened SchedulerSpec

  ghost predicate EligibleSet(c: Cluster, pod: Pod, eligible: set<string>) {
    forall n :: n in eligible <==> Eligible(c, pod, n)
  }

  /** The pod is bound to a best node and counted. */
  ghost predicate Placed(c: Cluster, pod: Pod, c': Cluster) {
    exists n :: Best(c, pod, n) && c' == Bound(c, pod, n)
  }

  /** Every pod of the run is placed, one after the other. */
  ghost predicate Placements(trace: seq<Cluster>, pods: seq<Pod>) {
    |trace| == |pods| + 1 && forall i {:trigger pods[i]} :: 0 <= i < |pods| ==> Placed(trace[i], pods[i], trace[i + 1])
  }

  function Count(c: Cluster, n: string): int {
    if n in c.states then c.states[n].podCount else 0
  }

  /** No two of the nodes differ by more than `d`. */
  ghost predicate SpreadWithin(c: Cluster, nodes: set<string>, d: int) {
    forall a, b :: a in nodes && b in nodes ==> Count(c, a) - Count(c, b) <= d
  }

  lemma PlacementKeepsEligible(c: Cluster, pod: Pod, c': Cluster, other: Pod, eligible: set<string>)
    requires Placed(c, pod, c') && EligibleSet(c, other, eligible)
    ensures EligibleSet(c', other, eligible)
  {
  }

  lemma PlacementKeepsSpread(c: Cluster, pod: Pod, c': Cluster, eligible: set<string>, d: int)
    requires Placed(c, pod, c') && EligibleSet(c, pod, eligible) && SpreadWithin(c, eligible, d) && d >= 1
    ensures SpreadWithin(c', eligible, d)
  {
    var n :| Best(c, pod, n) && c' == Bound(c, pod, n);
    forall a, b | a in eligible && b in eligible ensures Count(c', a) - Count(c', b) <= d {
      assert Eligible(c, pod, a) && Eligible(c, pod, b);
      assert Count(c, n) <= Count(c, b);
      assert Count(c, a) - Count(c, b) <= d;
    }
  }

  lemma {:induction false} EligibleThroughout(trace: seq<Cluster>, pods: seq<Pod>, other: Pod, eligible: set<string>,
      i: nat)
    requires Placements(trace, pods) && i <= |pods| && EligibleSet(trace[0], other, eligible)
    ensures EligibleSet(trace[i], other, eligible)
  {
    if i > 0 {
      hide Placed, EligibleSet;
      var j := i - 1;
      EligibleThroughout(trace, pods, other, eligible, j);
      assert Placed(trace[j], pods[j], trace[j + 1]);
      PlacementKeepsEligible(trace[j], pods[j], trace[j + 1], other, eligible);
    }
  }

  /** Pods that share one fixed set of eligible nodes never spread it by more than before, or by more than one. */
  lemma {:induction false} SpreadStaysWithin(trace: seq<Cluster>, pods: seq<Pod>, eligible: set<string>, d: int, i: nat)
    requires Placements(trace, pods) && i <= |pods|
    requires forall p <- pods :: EligibleSet(trace[0], p, eligible)
    requires SpreadWithin(trace[0], eligible, d)
    ensures SpreadWithin(trace[i], eligible, Max(d, 1))
  {
    hide Placed, EligibleSet;
    if i > 0 {
      var j := i - 1;
      SpreadStaysWithin(trace, pods, eligible, d, j);
      assert pods[j] in pods;
      EligibleThroughout(trace, pods, pods[j], eligible, j);
      assert Placed(trace[j], pods[j], trace[j + 1]);
      PlacementKeepsSpread(trace[j], pods[j], trace[j + 1], eligible, Max(d, 1));
    }
  }

  // ---------- evening out ----------

  /** How far the nodes are below `level`, together. */
  ghost function Deficit(c: Cluster, nodes: set<string>, level: int): nat {
    if nodes == {} then 0
    else var n :| n in nodes; Max(0, level - Count(c, n)) + Deficit(c, nodes - {n}, level)
  }

  lemma {:induction false} DeficitWithout(c: Cluster, nodes: set<string>, level: int, n: string)
    requires n in nodes
    ensures Deficit(c, nodes, level) == Max(0, level - Count(c, n)) + Deficit(c, nodes - {n}, level)
  {
    var m :| m in nodes && Deficit(c, nodes, level) == Max(0, level - Count(c, m)) + Deficit(c, nodes - {m}, level);
    if m != n {
      DeficitWithout(c, nodes - {m}, level, n);
      DeficitWithout(c, nodes - {n}, level, m);
      assert nodes - {m} - {n} == nodes - {n} - {m};
    }
  }

  lemma {:induction false} DeficitFrame(c: Cluster, c': Cluster, nodes: set<string>, level: int)
    requires forall n <- nodes :: Count(c', n) == Count(c, n)
    ensures Deficit(c', nodes, level) == Deficit(c, nodes, level)
  {
    if nodes != {} {
      var n :| n in nodes;
      DeficitWithout(c, nodes, level, n);
      DeficitWithout(c', nodes, level, n);
      DeficitFrame(c, c', nodes - {n}, level);
    }
  }

  lemma {:induction false} NoDeficit(c: Cluster, nodes: set<string>, level: int)
    ensures Deficit(c, nodes, level) == 0 <==> forall n <- nodes :: Count(c, n) >= level
  {
    if nodes != {} {
      var n :| n in nodes;
      DeficitWithout(c, nodes, level, n);
      NoDeficit(c, nodes - {n}, level);
      assert nodes == nodes - {n} + {n};
    }
  }

  lemma {:induction false} DeficitBound(c: Cluster, nodes: set<string>, level: int, d: nat)
    requires forall n <- nodes :: level - Count(c, n) <= d
    ensures Deficit(c, nodes, level) <= |nodes| * d
  {
    if nodes != {} {
      var n :| n in nodes;
      DeficitWithout(c, nodes, level, n);
      DeficitBound(c, nodes - {n}, level, d);
      hide Deficit;
      OneMoreTimes(|nodes - {n}|, d);
      assert |nodes| == |nodes - {n}| + 1;
    }
  }

  lemma OneMoreTimes(n: nat, d: nat)
    ensures (n + 1) * d == n * d + d
  {
  }

  ghost predicate AtMost(c: Cluster, nodes: set<string>, level: int) {
    forall n <- nodes :: Count(c, n) <= level
  }

  /** While some node is below the level, a placement raises one that is. */
  lemma PlacementFills(c: Cluster, pod: Pod, c': Cluster, eligible: set<string>, level: int)
    requires Placed(c, pod, c') && EligibleSet(c, pod, eligible) && AtMost(c, eligible, level)
    requires Deficit(c, eligible, level) > 0
    ensures AtMost(c', eligible, level) && Deficit(c', eligible, level) == Deficit(c, eligible, level) - 1
  {
    var n :| Best(c, pod, n) && c' == Bound(c, pod, n);
    NoDeficit(c, eligible, level);
    var low :| low in eligible && Count(c, low) < level;
    assert Eligible(c, pod, low) && n in eligible;
    assert Count(c, n) < level;
    DeficitWithout(c, eligible, level, n);
    DeficitWithout(c', eligible, level, n);
    DeficitFrame(c, c', eligible - {n}, level);
  }

  /** Either the gap to the level is closing by one a pod, or the nodes already differ by at most one. */
  lemma {:induction false} FillsUp(trace: seq<Cluster>, pods: seq<Pod>, eligible: set<string>, level: int, i: nat)
    requires Placements(trace, pods) && i <= |pods|
    requires forall p <- pods :: EligibleSet(trace[0], p, eligible)
    requires AtMost(trace[0], eligible, level)
    ensures SpreadWithin(trace[i], eligible, 1)
         || (AtMost(trace[i], eligible, level)
           && Deficit(trace[i], eligible, level) == Deficit(trace[0], eligible, level) - i)
  {
    hide Placed, EligibleSet, Deficit;
    if i > 0 {
      var j := i - 1;
      FillsUp(trace, pods, eligible, level, j);
      assert pods[j] in pods;
      EligibleThroughout(trace, pods, pods[j], eligible, j);
      assert Placed(trace[j], pods[j], trace[j + 1]);
      NoDeficit(trace[j], eligible, level);
      if SpreadWithin(trace[j], eligible, 1) || Deficit(trace[j], eligible, level) == 0 {
        assert SpreadWithin(trace[j], eligible, 1);
        PlacementKeepsSpread(trace[j], pods[j], trace[j + 1], eligible, 1);
      } else {
        PlacementFills(trace[j], pods[j], trace[j + 1], eligible, level);
      }
    }
  }

  /** However uneven the nodes were, once as many pods are placed as would level them they differ by at most one. */
  lemma EvensOut(trace: seq<Cluster>, pods: seq<Pod>, eligible: set<string>, d: nat)
    requires Placements(trace, pods) && |pods| >= |eligible| * d
    requires forall p <- pods :: EligibleSet(trace[0], p, eligible)
    requires SpreadWithin(trace[0], eligible, d)
    ensures SpreadWithin(trace[|pods|], eligible, 1)
  {
    hide Placed, EligibleSet;
    if eligible != {} {
      var top := Fullest(trace[0], eligible);
      var level := Count(trace[0], top);
      DeficitBound(trace[0], eligible, level, d);
      FillsUp(trace, pods, eligible, level, |pods|);
      NoDeficit(trace[|pods|], eligible, level);
    }
  }

  lemma {:induction false} Fullest(c: Cluster, nodes: set<string>) returns (top: string)
    requires nodes != {}
    ensures top in nodes && AtMost(c, nodes, Count(c, top))
  {
    var n :| n in nodes;
    if nodes == {n} {
      top := n;
    } else {
      var rest := Fullest(c, nodes - {n});
      top := if Count(c, n) > Count(c, rest) then n else rest;
      assert nodes == nodes - {n} + {n};
    }
  }

  // ---------- runs of the scheduler ----------

  /** Every event of the run brings a new pod without a node, and all of them share one set of eligible nodes. */
  ghost predicate Arrivals(trace: seq<Cluster>, es: seq<Event>, pods: seq<Pod>, eligible: set<string>) {
    && Run(trace, es) && |pods| == |es|
    && (forall i :: 0 <= i < |es| ==>
      es[i] == PodPut(pods[i]) && pods[i].nodeName.None? && pods[i].name !in trace[i].pods)
    && (forall p <- pods :: EligibleSet(trace[0], p, eligible))
  }

  /** Storing a pod does not change which nodes are eligible or best. */
  lemma StoringKeepsNodes(c: Cluster, pods: map<string, Pod>, pod: Pod, n: string)
    ensures Eligible(c.(pods := pods), pod, n) == Eligible(c, pod, n)
    ensures Best(c.(pods := pods), pod, n) == Best(c, pod, n)
  {
  }

  lemma BindingNode(c: Cluster, pod: Pod, c': Cluster, n: string) returns (m: string)
    requires Handles(c, PodPut(pod), c') && pod.name !in c.pods && pod.nodeName.None?
    requires Eligible(c.(pods := c.pods[pod.name := pod]), pod, n)
    ensures var stored := c.(pods := c.pods[pod.name := pod]); Best(stored, pod, m) && c' == Bound(stored, pod, m)
  {
    hide Eligible, Best, Bound;
    var stored := c.(pods := c.pods[pod.name := pod]);
    assert PodAddHandled(stored, pod, c');
    m :| Best(stored, pod, m) && c' == Bound(stored, pod, m);
  }

  /** Handling a new pod places it, if some node is eligible. */
  lemma HandlingPlaces(c: Cluster, pod: Pod, c': Cluster, n: string)
    requires Handles(c, PodPut(pod), c') && pod.name !in c.pods && pod.nodeName.None? && Eligible(c, pod, n)
    ensures Placed(c, pod, c')
  {
    var stored := c.(pods := c.pods[pod.name := pod]);
    hide Eligible, Handles, Best, Counted;
    StoringKeepsNodes(c, stored.pods, pod, n);
    var m := BindingNode(c, pod, c', n);
    StoringKeepsNodes(c, stored.pods, pod, m);
    assert stored.pods[pod.name := pod.(nodeName := Some(m))] == c.pods[pod.name := pod.(nodeName := Some(m))];
    assert c' == Bound(c, pod, m);
  }

  lemma ArrivalsStart(trace: seq<Cluster>, es: seq<Event>, pods: seq<Pod>, eligible: set<string>)
    requires Arrivals(trace, es, pods, eligible)
    ensures |trace| == |es| + 1 && |pods| == |es|
    ensures forall p <- pods :: EligibleSet(trace[0], p, eligible)
  {
    hide EligibleSet, Handles;
  }

  lemma ArrivalAt(trace: seq<Cluster>, es: seq<Event>, pods: seq<Pod>, eligible: set<string>, i: nat)
    requires Arrivals(trace, es, pods, eligible) && i < |es|
    ensures |trace| == |es| + 1 && |pods| == |es|
    ensures Handles(trace[i], PodPut(pods[i]), trace[i + 1]) && pods[i].nodeName.None? && pods[i].name !in trace[i].pods
  {
    hide EligibleSet, Handles;
    assert Handles(trace[i], es[i], trace[i + 1]);
  }

  lemma AnyEligible(c: Cluster, pod: Pod, eligible: set<string>) returns (n: string)
    requires EligibleSet(c, pod, eligible) && eligible != {}
    ensures Eligible(c, pod, n)
  {
    n :| n in eligible;
  }

  lemma {:induction false} EligibleOnArrival(trace: seq<Cluster>, es: seq<Event>, pods: seq<Pod>,
      eligible: set<string>, i: nat, other: Pod)
    requires Arrivals(trace, es, pods, eligible) && eligible != {} && i <= |es| && other in pods
    ensures EligibleSet(trace[i], other, eligible)
    decreases i, 0
  {
    hide Placed, EligibleSet, Arrivals;
    ArrivalsStart(trace, es, pods, eligible);
    if i > 0 {
      var j := i - 1;
      EligibleOnArrival(trace, es, pods, eligible, j, other);
      ArrivalIsPlaced(trace, es, pods, eligible, j);
      PlacementKeepsEligible(trace[j], pods[j], trace[i], other, eligible);
    }
  }

  lemma {:induction false} ArrivalIsPlaced(trace: seq<Cluster>, es: seq<Event>, pods: seq<Pod>, eligible: set<string>,
      i: nat)
    requires Arrivals(trace, es, pods, eligible) && eligible != {} && i < |es|
    ensures Placed(trace[i], pods[i], trace[i + 1])
    decreases i, 1
  {
    hide Placed, EligibleSet, Handles, Eligible, Arrivals;
    ArrivalAt(trace, es, pods, eligible, i);
    EligibleOnArrival(trace, es, pods, eligible, i, pods[i]);
    var n := AnyEligible(trace[i], pods[i], eligible);
    HandlingPlaces(trace[i], pods[i], trace[i + 1], n);
  }

  lemma ArrivalsArePlaced(trace: seq<Cluster>, es: seq<Event>, pods: seq<Pod>, eligible: set<string>)
    requires Arrivals(trace, es, pods, eligible) && eligible != {}
    ensures Placements(trace, pods)
  {
    hide Placed;
    forall i | 0 <= i < |pods| ensures Placed(trace[i], pods[i], trace[i + 1]) {
      ArrivalIsPlaced(trace, es, pods, eligible, i);
    }
  }

  /** In every run in which only pods with one fixed eligible set arrive, the counts of that set never spread
      by more than at the start, or by more than one. */
  lemma {:induction false} RunsStayBalanced(trace: seq<Cluster>, es: seq<Event>, pods: seq<Pod>,
      eligible: set<string>, d: int, i: nat)
    requires Arrivals(trace, es, pods, eligible) && i <= |es| && SpreadWithin(trace[0], eligible, d)
    ensures SpreadWithin(trace[i], eligible, Max(d, 1))
  {
    if eligible != {} {
      ArrivalsArePlaced(trace, es, pods, eligible);
      SpreadStaysWithin(trace, pods, eligible, d, i);
    }
  }

  /** And once as many have arrived as would level the counts, they differ by at most one. */
  lemma {:induction false} RunsEvenOut(trace: seq<Cluster>, es: seq<Event>, pods: seq<Pod>, eligible: set<string>,
      d: nat)
    requires Arrivals(trace, es, pods, eligible) && |es| >= |eligible| * d && SpreadWithin(trace[0], eligible, d)
    ensures SpreadWithin(trace[|es|], eligible, 1)
  {
    if eligible != {} {
      ArrivalsArePlaced(trace, es, pods, eligible);
      EvensOut(trace, pods, eligible, d);
    }
  }
}
