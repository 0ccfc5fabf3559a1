/** The scheduler: the cache of node states (scheduler/src/cache.rs), the algorithm
    (scheduler/src/algorithm/simple.rs) and the event handlers (scheduler/src/scheduler.rs). */
module Scheduler {
  import opened Common
  import opened Labels
  import opened SchedulerSpec

  class Cache {
    var podCache: map<string, Pod>
    var nodeCache: map<string, Node>
    var nodeStates: map<string, NodeState>

    ghost function State(): Cluster
      reads this
    {
      Cluster(podCache, nodeCache, nodeStates)
    }

    /** Node states have to be refreshed before use. */
    constructor (pods: map<string, Pod>, nodes: map<string, Node>)
      ensures State() == Cluster(pods, nodes, map[])
    {
      podCache, nodeCache, nodeStates := pods, nodes, map[];
    }

    method CalculateNodeState(node: Node) returns (state: NodeState)
      ensures state == CalculatedState(podCache, node)
    {
      var count := 0;
      var todo := podCache.Keys;
      ghost var seen: map<string, Pod> := map[];
      while todo != {}
        invariant todo <= podCache.Keys && seen == podCache - todo
        invariant count == |PodsOn(seen, node.name)|
      {
        var k := Next(todo);
        PodsOnWith(seen, podCache[k], k, node.name);
        if podCache[k].nodeName == Some(node.name) {
          count := count + 1;
        }
        seen := seen[k := podCache[k]];
        todo := todo - {k};
      }
      assert podCache - {} == podCache;
      state := NodeState(node.name, node.labels, node.ready, count);
    }

    method Refresh()
      requires Keyed(State())
      modifies this`nodeStates
      ensures nodeStates == Refreshed(old(State())) && Agrees(State())
      ensures old(Agrees(State())) ==> nodeStates == old(nodeStates)
    {
      hide CalculatedState, Refreshed;
      nodeStates := map[];
      var todo := nodeCache.Keys;
      while todo != {}
        invariant todo <= nodeCache.Keys && nodeStates.Keys == nodeCache.Keys - todo
        invariant forall n <- nodeStates :: nodeStates[n] == CalculatedState(podCache, nodeCache[n])
      {
        var n := Next(todo);
        var state := CalculateNodeState(nodeCache[n]);
        nodeStates := nodeStates[nodeCache[n].name := state];
        todo := todo - {n};
      }
      RefreshAgrees(old(State()), nodeStates);
    }

    method HandlePodAdd(nodeName: string)
      modifies this`nodeStates
      ensures nodeStates == Counted(old(nodeStates), nodeName, 1)
    {
      if nodeName in nodeStates {
        var state := nodeStates[nodeName];
        nodeStates := nodeStates[nodeName := state.(podCount := state.podCount + 1)];
      }
    }

    method HandlePodDelete(pod: Pod)
      modifies this`nodeStates
      ensures nodeStates ==
        if pod.nodeName.Some? then Counted(old(nodeStates), pod.nodeName.value, -1) else old(nodeStates)
    {
      if pod.nodeName.Some? && pod.nodeName.value in nodeStates {
        var state := nodeStates[pod.nodeName.value];
        nodeStates := nodeStates[pod.nodeName.value := state.(podCount := state.podCount - 1)];
      }
    }

    method HandleNodeAdd(node: Node)
      modifies this`nodeStates
      ensures nodeStates == old(nodeStates)[node.name := NodeState(node.name, node.labels, node.ready, 0)]
    {
      nodeStates := nodeStates[node.name := NodeState(node.name, node.labels, node.ready, 0)];
    }

    method HandleNodeUpdate(node: Node)
      modifies this`nodeStates
      ensures nodeStates == old(nodeStates)[node.name := CalculatedState(podCache, node)]
    {
      var state := CalculateNodeState(node);
      nodeStates := nodeStates[node.name := state];
    }

    method HandleNodeDelete(node: Node)
      modifies this`nodeStates
      ensures nodeStates == old(nodeStates) - {node.name}
    {
      nodeStates := nodeStates - {node.name};
    }
  }

  predicate IsBetterThan(a: NodeState, b: Option<NodeState>) {
    b.None? || a.podCount < b.value.podCount
  }

  /** The node is ready and carries every entry of the pod's node selector. */
  predicate Fits(state: NodeState, pod: Pod) {
    state.isReady && pod.nodeSelector.Items <= state.labels.Items
  }

  lemma FitsIff(c: Cluster, pod: Pod)
    ensures (forall n :: !Eligible(c, pod, n)) <==> forall n <- c.states :: !Fits(c.states[n], pod)
    ensures forall n :: Best(c, pod, n) ==>
              && n in c.states && Fits(c.states[n], pod)
              && forall m <- c.states :: Fits(c.states[m], pod) ==> c.states[n].podCount <= c.states[m].podCount
  {
    forall n ensures Eligible(c, pod, n) <==> n in c.states && Fits(c.states[n], pod) {
      EligibleIff(c, pod, n);
    }
    if forall n :: !Eligible(c, pod, n) {
      forall n | n in c.states ensures !Fits(c.states[n], pod) { assert !Eligible(c, pod, n); }
    }
    hide Eligible, Fits;
  }

  /** The name of an eligible node with the least count; none exactly if no node is eligible. */
  method Simple(pod: Pod, cache: Cache) returns (node: Option<string>)
    requires Keyed(cache.State())
    ensures node.Some? ==> Best(cache.State(), pod, node.value)
    ensures node.None? <==> forall n :: !Eligible(cache.State(), pod, n)
    ensures node.None? <==> forall n <- cache.nodeStates :: !Fits(cache.nodeStates[n], pod)
    ensures node.Some? ==>
              && node.value in cache.nodeStates && Fits(cache.nodeStates[node.value], pod)
              && forall n <- cache.nodeStates :: Fits(cache.nodeStates[n], pod) ==>
                   cache.nodeStates[node.value].podCount <= cache.nodeStates[n].podCount
  {
    FitsIff(cache.State(), pod);
    var candidate: Option<NodeState> := None;
    var todo := cache.nodeStates.Keys;
    while todo != {}
      invariant todo <= cache.nodeStates.Keys
      invariant candidate.None? ==> forall n <- cache.nodeStates.Keys - todo :: !Eligible(cache.State(), pod, n)
      invariant candidate.Some? ==>
                  && Eligible(cache.State(), pod, candidate.value.name)
                  && cache.nodeStates[candidate.value.name] == candidate.value
                  && forall n <- cache.nodeStates.Keys - todo ::
                       Eligible(cache.State(), pod, n) ==> candidate.value.podCount <= cache.nodeStates[n].podCount
    {
      var n := Next(todo);
      var state := cache.nodeStates[n];
      if state.isReady && Matches(state.labels, pod.nodeSelector) && IsBetterThan(state, candidate) {
        candidate := Some(state);
      }
      todo := todo - {n};
    }
    node := if candidate.Some? then Some(candidate.value.name) else None;
  }

  class Scheduler {
    const cache: Cache

    constructor (cache: Cache)
      ensures this.cache == cache
    {
      this.cache := cache;
    }

    /** Binding writes the node's name into the stored pod. */
    method Bind(pod: Pod, node: string)
      modifies cache`podCache
      ensures cache.podCache == old(cache.podCache)[pod.name := pod.(nodeName := Some(node))]
    {
      cache.podCache := cache.podCache[pod.name := pod.(nodeName := Some(node))];
    }

    method HandlePodAdd(pod: Pod)
      requires Keyed(cache.State())
      modifies cache`podCache, cache`nodeStates
      ensures PodAddHandled(old(cache.State()), pod, cache.State())
    {
      if pod.nodeName.Some? {
        return;
      }
      var node := Simple(pod, cache);
      if node.Some? {
        Bind(pod, node.value);
        cache.HandlePodAdd(node.value);
        assert cache.State() == Bound(old(cache.State()), pod, node.value);
      }
    }

    /** An event reaches a store, and the scheduler handles it. */
    method Deliver(e: Event)
      requires Keyed(cache.State())
      modifies cache
      ensures Keyed(cache.State()) && Handles(old(cache.State()), e, cache.State())
    {
      match e {
        case PodPut(pod) =>
          var known := pod.name in cache.podCache;
          cache.podCache := cache.podCache[pod.name := pod];
          if !known {
            HandlePodAdd(pod);
          }
        case PodGone(k) =>
          if k in cache.podCache {
            var pod := cache.podCache[k];
            cache.podCache := cache.podCache - {k};
            cache.HandlePodDelete(pod);
          }
        case NodePut(node) =>
          var known := node.name in cache.nodeCache;
          cache.nodeCache := cache.nodeCache[node.name := node];
          if known {
            cache.HandleNodeUpdate(node);
          } else {
            cache.HandleNodeAdd(node);
          }
        case NodeGone(n) =>
          if n in cache.nodeCache {
            var node := cache.nodeCache[n];
            cache.nodeCache := cache.nodeCache - {n};
            cache.HandleNodeDelete(node);
          } else {
            assert cache.nodeCache - {n} == cache.nodeCache;
          }
      }
    }

    /** Refresh, then handle events as they come. */
    method Run(es: seq<Event>) returns (ghost trace: seq<Cluster>)
      requires Keyed(cache.State())
      modifies cache
      ensures SchedulerSpec.Run(trace, es) && Agrees(trace[0]) && trace[|es|] == cache.State()
      ensures trace[0].pods == old(cache.podCache) && trace[0].nodes == old(cache.nodeCache)
    {
      cache.Refresh();
      trace := [cache.State()];
      for i := 0 to |es|
        invariant Keyed(cache.State()) && |trace| == i + 1 && trace[i] == cache.State()
        invariant trace[0].pods == old(cache.podCache) && trace[0].nodes == old(cache.nodeCache) && Agrees(trace[0])
        invariant forall j {:trigger es[j]} :: 0 <= j < i ==> Handles(trace[j], es[j], trace[j + 1])
      {
        Deliver(es[i]);
        trace := trace + [cache.State()];
      }
    }
  }
}
