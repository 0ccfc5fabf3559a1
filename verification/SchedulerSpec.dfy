/** The scheduler's cache of node states, and when it agrees with the stores it summarises
    (scheduler/src/cache.rs, scheduler/src/scheduler.rs, scheduler/src/algorithm/simple.rs). */
module SchedulerSpec {
  import opened Common
  import opened Labels

  datatype Node = Node(name: string, labels: LabelMap, ready: bool)

  datatype Pod = Pod(name: string, nodeName: Option<string>, nodeSelector: LabelMap)

  datatype NodeState = NodeState(name: string, labels: LabelMap, isReady: bool, podCount: int)

  /** The pod store, the node store and the node states. */
  datatype Cluster = Cluster(pods: map<string, Pod>, nodes: map<string, Node>, states: map<string, NodeState>)

  /** What reaches the scheduler: pods and nodes written to the stores or removed from them. */
  datatype Event = PodPut(pod: Pod) | PodGone(name: string) | NodePut(node: Node) | NodeGone(name: string)

  // ---------- what the cache should hold ----------

  function PodsOn(pods: map<string, Pod>, node: string): set<string> {
    set k | k in pods && pods[k].nodeName == Some(node)
  }

  function CalculatedState(pods: map<string, Pod>, node: Node): NodeState {
    NodeState(node.name, node.labels, node.ready, |PodsOn(pods, node.name)|)
  }

  /** What a refresh makes of the stores. */
  function Refreshed(c: Cluster): map<string, NodeState> {
    map n | n in c.nodes :: CalculatedState(c.pods, c.nodes[n])
  }

  ghost predicate Keyed(c: Cluster) {
    && (forall k <- c.pods :: c.pods[k].name == k)
    && (forall n <- c.nodes :: c.nodes[n].name == n)
    && (forall n <- c.states :: c.states[n].name == n)
  }

  /** The cache is what a refresh would make it. */
  ghost predicate Agrees(c: Cluster) {
    Keyed(c) && c.states == Refreshed(c)
  }

  lemma RefreshAgrees(c: Cluster, states: map<string, NodeState>)
    requires (forall k <- c.pods :: c.pods[k].name == k) && (forall n <- c.nodes :: c.nodes[n].name == n)
    requires states.Keys == c.nodes.Keys && forall n <- states :: states[n] == CalculatedState(c.pods, c.nodes[n])
    ensures states == Refreshed(c) && Agrees(c.(states := states))
  {
    assert c.(states := states).pods == c.pods;
  }

  lemma PodsOnWith(pods: map<string, Pod>, pod: Pod, k: string, node: string)
    requires k !in pods
    ensures PodsOn(pods[k := pod], node) == PodsOn(pods, node) + if pod.nodeName == Some(node) then {k} else {}
    ensures |PodsOn(pods[k := pod], node)| == |PodsOn(pods, node)| + if pod.nodeName == Some(node) then 1 else 0
  {
    assert PodsOn(pods[k := pod], node) == PodsOn(pods, node) + if pod.nodeName == Some(node) then {k} else {};
  }

  lemma PodsOnWithout(pods: map<string, Pod>, k: string, node: string)
    requires k in pods
    ensures |PodsOn(pods, node)| == |PodsOn(pods - {k}, node)| + if pods[k].nodeName == Some(node) then 1 else 0
  {
    assert (pods - {k})[k := pods[k]] == pods;
    PodsOnWith(pods - {k}, pods[k], k, node);
  }

  lemma PodsOnReplaced(pods: map<string, Pod>, pod: Pod, k: string, node: string)
    requires k in pods
    ensures |PodsOn(pods[k := pod], node)| ==
              |PodsOn(pods, node)| - (if pods[k].nodeName == Some(node) then 1 else 0) +
                if pod.nodeName == Some(node) then 1 else 0
  {
    PodsOnWithout(pods, k, node);
    PodsOnWith(pods - {k}, pod, k, node);
    assert (pods - {k})[k := pod] == pods[k := pod];
  }

  /** An agreeing count is the number of stored pods on the node: never negative, at most all pods, and
      at least one where a stored pod can be deleted. */
  lemma CountsStayInRange(c: Cluster, n: string)
    requires Agrees(c) && n in c.states
    ensures 0 <= c.states[n].podCount <= |c.pods|
    ensures forall k <- c.pods :: c.pods[k].nodeName == Some(n) ==> c.states[n].podCount > 0
  {
    assert PodsOn(c.pods, n) <= c.pods.Keys;
    SubsetSize(PodsOn(c.pods, n), c.pods.Keys);
    forall k | k in c.pods && c.pods[k].nodeName == Some(n) ensures |PodsOn(c.pods, n)| > 0 {
      assert k in PodsOn(c.pods, n);
    }
  }

  // ---------- the algorithm ----------

  predicate Eligible(c: Cluster, pod: Pod, n: string) {
    n in c.states && c.states[n].isReady && Matches(c.states[n].labels, pod.nodeSelector)
  }

  /** A node is eligible if it is ready and carries every entry of the pod's node selector. */
  lemma EligibleIff(c: Cluster, pod: Pod, n: string)
    ensures Eligible(c, pod, n) <==>
      n in c.states && c.states[n].isReady && pod.nodeSelector.Items <= c.states[n].labels.Items
  {
    if n in c.states {
      MatchesIff(c.states[n].labels, pod.nodeSelector);
    }
  }

  /** An eligible node with the least count. */
  ghost predicate Best(c: Cluster, pod: Pod, n: string) {
    Eligible(c, pod, n) && forall m <- c.states :: Eligible(c, pod, m) ==> c.states[n].podCount <= c.states[m].podCount
  }

  function Counted(states: map<string, NodeState>, n: string, d: int): map<string, NodeState> {
    if n in states then states[n := states[n].(podCount := states[n].podCount + d)] else states
  }

  /** The pod is bound to the node, and counted. */
  function Bound(c: Cluster, pod: Pod, n: string): Cluster {
    c.(pods := c.pods[pod.name := pod.(nodeName := Some(n))], states := Counted(c.states, n, 1))
  }

  /** Handling a pod that was added: skip it if it has a node, else bind it to a best node if there is one. */
  ghost predicate PodAddHandled(c: Cluster, pod: Pod, c': Cluster) {
    if pod.nodeName.Some? then c' == c
    else if exists n :: Best(c, pod, n) then exists n :: Best(c, pod, n) && c' == Bound(c, pod, n)
    else c' == c && forall n :: !Eligible(c, pod, n)
  }

  /** What one event does: the store changes first, then the scheduler reacts. */
  ghost predicate Handles(c: Cluster, e: Event, c': Cluster) {
    match e
    case PodPut(pod) =>
      var stored := c.(pods := c.pods[pod.name := pod]);
      if pod.name in c.pods then c' == stored else PodAddHandled(stored, pod, c')
    case PodGone(k) =>
      if k !in c.pods then c' == c
      else
        var on := c.pods[k].nodeName;
        c' == c.(pods := c.pods - {k}, states := if on.Some? then Counted(c.states, on.value, -1) else c.states)
    case NodePut(node) =>
      c' == c.(nodes := c.nodes[node.name := node],
               states := c.states[node.name := if node.name in c.nodes then CalculatedState(c.pods, node)
                                               else NodeState(node.name, node.labels, node.ready, 0)])
    case NodeGone(n) => c' == c.(nodes := c.nodes - {n}, states := if n in c.nodes then c.states - {n} else c.states)
  }

  /** Exactly the events that keep an agreeing cache agreeing: pods come without a node the scheduler
      knows, do not move between known nodes on their own, and a node comes back only without pods. */
  ghost predicate Fine(c: Cluster, e: Event) {
    match e
    case PodPut(pod) =>
      if pod.name in c.pods then pod.nodeName == c.pods[pod.name].nodeName
        || !(Known(c, pod) || Known(c, c.pods[pod.name]))
      else !Known(c, pod)
    case PodGone(_) => true
    case NodePut(node) => node.name in c.nodes || forall k <- c.pods :: c.pods[k].nodeName != Some(node.name)
    case NodeGone(_) => true
  }

  predicate Known(c: Cluster, pod: Pod) {
    pod.nodeName.Some? && pod.nodeName.value in c.nodes
  }

  lemma BoundAgrees(c: Cluster, pod: Pod, n: string)
    requires Agrees(c) && pod.name in c.pods && c.pods[pod.name] == pod && pod.nodeName.None? && n in c.states
    ensures Agrees(Bound(c, pod, n))
  {
    var c' := Bound(c, pod, n);
    forall m | m in c.nodes ensures c'.states[m] == CalculatedState(c'.pods, c'.nodes[m]) {
      PodsOnReplaced(c.pods, pod.(nodeName := Some(n)), pod.name, m);
    }
    assert c'.states.Keys == c'.nodes.Keys;
    assert c'.states == Refreshed(c');
  }

  lemma PodPutIff(c: Cluster, pod: Pod, c': Cluster)
    requires Agrees(c) && Handles(c, PodPut(pod), c')
    ensures Agrees(c') <==> Fine(c, PodPut(pod))
  {
    var stored := c.(pods := c.pods[pod.name := pod]);
    StoredIff(c, pod, stored);
    if pod.name !in c.pods && pod.nodeName.None? && c' != stored {
      var n :| Best(stored, pod, n) && c' == Bound(stored, pod, n);
      BoundAgrees(stored, pod, n);
    }
  }

  lemma PodsOnStored(c: Cluster, pod: Pod, m: string)
    ensures var stored := c.pods[pod.name := pod];
      |PodsOn(stored, m)| == |PodsOn(c.pods, m)|
        - (if pod.name in c.pods && c.pods[pod.name].nodeName == Some(m) then 1 else 0)
        + (if pod.nodeName == Some(m) then 1 else 0)
  {
    hide PodsOn;
    if pod.name in c.pods {
      PodsOnReplaced(c.pods, pod, pod.name, m);
    } else {
      PodsOnWith(c.pods, pod, pod.name, m);
    }
  }

  /** Storing a pod without counting it. */
  lemma StoredIff(c: Cluster, pod: Pod, stored: Cluster)
    requires Agrees(c) && stored == c.(pods := c.pods[pod.name := pod])
    ensures Agrees(stored) <==> Fine(c, PodPut(pod))
  {
    hide PodsOn;
    if Fine(c, PodPut(pod)) {
      forall m | m in c.nodes ensures CalculatedState(stored.pods, c.nodes[m]) == c.states[m] {
        PodsOnStored(c, pod, m);
      }
      assert stored.states == Refreshed(stored);
    } else {
      var m := if Known(c, pod) then pod.nodeName.value else c.pods[pod.name].nodeName.value;
      PodsOnStored(c, pod, m);
      assert Refreshed(stored)[m] != Refreshed(c)[m];
    }
  }

  lemma PodGoneAgrees(c: Cluster, k: string, c': Cluster)
    requires Agrees(c) && Handles(c, PodGone(k), c')
    ensures Agrees(c')
  {
    hide PodsOn;
    if k in c.pods {
      var on := c.pods[k].nodeName;
      assert c'.pods == c.pods - {k};
      assert c'.states == if on.Some? then Counted(c.states, on.value, -1) else c.states;
      forall m | m in c.nodes ensures c'.states[m] == CalculatedState(c'.pods, c'.nodes[m]) {
        PodsOnWithout(c.pods, k, m);
      }
      assert c'.states == Refreshed(c');
    }
  }

  lemma NobodyOn(pods: map<string, Pod>, n: string)
    ensures |PodsOn(pods, n)| == 0 <==> forall k <- pods :: pods[k].nodeName != Some(n)
  {
    if k :| k in pods && pods[k].nodeName == Some(n) {
      assert k in PodsOn(pods, n);
    } else {
      assert PodsOn(pods, n) == {};
    }
  }

  lemma NodePutIff(c: Cluster, node: Node, c': Cluster)
    requires Agrees(c) && Handles(c, NodePut(node), c')
    ensures Agrees(c') <==> Fine(c, NodePut(node))
  {
    NobodyOn(c.pods, node.name);
    hide PodsOn;
    if Fine(c, NodePut(node)) {
      assert c'.states == Refreshed(c');
    } else {
      assert Refreshed(c')[node.name].podCount > 0;
    }
  }

  /** Handling an event keeps the cache equal to its recomputation if and only if the event is fine. */
  lemma StepAgreesIff(c: Cluster, e: Event, c': Cluster)
    requires Agrees(c) && Handles(c, e, c')
    ensures Agrees(c') <==> Fine(c, e)
  {
    match e {
      case PodPut(pod) => PodPutIff(c, pod, c');
      case PodGone(k) => PodGoneAgrees(c, k, c');
      case NodePut(node) => NodePutIff(c, node, c');
      case NodeGone(n) => assert c'.states == Refreshed(c');
    }
  }

  // ---------- runs ----------

  ghost predicate Run(trace: seq<Cluster>, es: seq<Event>) {
    |trace| == |es| + 1 && forall i {:trigger es[i]} :: 0 <= i < |es| ==> Handles(trace[i], es[i], trace[i + 1])
  }

  /** In every run of fine events the cache agrees at every moment, so no decrement underflows and a
      refresh would change nothing. */
  lemma {:induction false} RunsAgree(trace: seq<Cluster>, es: seq<Event>, i: nat)
    requires Run(trace, es) && i <= |es| && Agrees(trace[0])
    requires forall j {:trigger es[j]} :: 0 <= j < i ==> Fine(trace[j], es[j])
    ensures Agrees(trace[i])
    ensures forall n <- trace[i].states :: 0 <= trace[i].states[n].podCount <= |trace[i].pods|
  {
    hide Agrees, Handles, Fine;
    if i > 0 {
      var j := i - 1;
      RunsAgree(trace, es, j);
      assert Handles(trace[j], es[j], trace[j + 1]) && Fine(trace[j], es[j]);
      StepAgreesIff(trace[j], es[j], trace[j + 1]);
    }
    forall n | n in trace[i].states ensures 0 <= trace[i].states[n].podCount <= |trace[i].pods| {
      CountsStayInRange(trace[i], n);
    }
  }

  /** A node that is removed while pods still name it, and then comes back, is counted as empty; when one of
      those pods goes next, its count leaves the `u32` range. */
  lemma ReturningNodeIsUndercounted(c: Cluster, node: Node, k: string, c1: Cluster, c2: Cluster, c3: Cluster)
    requires Agrees(c) && node.name in c.nodes && k in c.pods && c.pods[k].nodeName == Some(node.name)
    requires Handles(c, NodeGone(node.name), c1) && Handles(c1, NodePut(node), c2) && Handles(c2, PodGone(k), c3)
    ensures c2.states[node.name].podCount == 0 < |PodsOn(c2.pods, node.name)| && Agrees(c1) && !Agrees(c2)
    ensures c3.states[node.name].podCount < 0
  {
    assert k in PodsOn(c2.pods, node.name);
    StepAgreesIff(c, NodeGone(node.name), c1);
    StepAgreesIff(c1, NodePut(node), c2);
  }
}
