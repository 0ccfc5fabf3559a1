/** The endpoints controller: endpoint sets maintained pod by pod, and the recomputation they should equal
    (controllers/src/endpoints). */
module Endpoints {
  import opened Common
  import opened Labels

  type Ip = int

  datatype Pod = Pod(labels: LabelMap, ip: Option<Ip>)

  datatype Service = Service(uri: string, selector: LabelMap, endpoints: set<Ip>)

  type Pods = map<string, Pod>

  type Services = map<string, Service>

  datatype Cluster = Cluster(pods: Pods, svcs: Services)

  /** What reaches the controller's two stores: a pod or service written, or removed. */
  datatype Event = PodPut(key: string, pod: Pod) | PodGone(key: string) | SvcPut(svc: Service) | SvcGone(key: string)

  datatype Notification =
    | PodAdd(pod: Pod)
    | PodUpdate(before: Pod, after: Pod)
    | PodDelete(pod: Pod)
    | SvcAdd(svc: Service)

  // ---------- the endpoint sets ----------

  /** Whether the controller counts the pod as a backend: it has an address, and its labels are a subset
      of the selector. */
  predicate Backs(selector: LabelMap, pod: Pod) {
    pod.ip.Some? && Matches(selector, pod.labels)
  }

  /** The addresses a resync computes. */
  function Backends(pods: Pods, selector: LabelMap): set<Ip> {
    set k | k in pods && Backs(selector, pods[k]) :: pods[k].ip.value
  }

  /** A pod backs a service if it has an address and each of its labels is an entry of the selector. */
  lemma BacksIff(selector: LabelMap, pod: Pod)
    ensures Backs(selector, pod) <==> pod.ip.Some? && pod.labels.Items <= selector.Items
  {
    MatchesIff(selector, pod.labels);
  }

  lemma BackendsAre(pods: Pods, selector: LabelMap)
    ensures Backends(pods, selector) ==
      set k | k in pods && pods[k].ip.Some? && pods[k].labels.Items <= selector.Items :: pods[k].ip.value
  {
    forall k | k in pods ensures Backs(selector, pods[k]) <==>
      pods[k].ip.Some? && pods[k].labels.Items <= selector.Items {
      BacksIff(selector, pods[k]);
    }
    hide Backs;
  }

  /** The address a pod gives the services with the selector. */
  function Provided(selector: LabelMap, pod: Pod): set<Ip> {
    if pod.ip.Some? && pod.labels.Items <= selector.Items then {pod.ip.value} else {}
  }

  lemma WithPodIs(svcs: Services, pod: Pod)
    ensures WithPod(svcs, pod) ==
      map k | k in svcs :: svcs[k].(endpoints := svcs[k].endpoints + Provided(svcs[k].selector, pod))
    ensures WithoutPod(svcs, pod) ==
      map k | k in svcs :: svcs[k].(endpoints := svcs[k].endpoints - Provided(svcs[k].selector, pod))
  {
    forall k | k in svcs
      ensures Gains(svcs[k], pod) == svcs[k].(endpoints := svcs[k].endpoints + Provided(svcs[k].selector, pod))
      ensures Loses(svcs[k], pod) == svcs[k].(endpoints := svcs[k].endpoints - Provided(svcs[k].selector, pod))
    {
      BacksIff(svcs[k].selector, pod);
    }
  }

  /** Every service has exactly the endpoints a resync would give it. */
  ghost predicate Exact(c: Cluster) {
    forall k <- c.svcs :: ExactAt(c, k)
  }

  ghost predicate ExactAt(c: Cluster, k: string)
    requires k in c.svcs
  {
    c.svcs[k].endpoints == Backends(c.pods, c.svcs[k].selector)
  }

  function Recomputed(c: Cluster): Services {
    map k | k in c.svcs :: c.svcs[k].(endpoints := Backends(c.pods, c.svcs[k].selector))
  }

  function Gains(svc: Service, pod: Pod): Service {
    if Backs(svc.selector, pod) then svc.(endpoints := svc.endpoints + {pod.ip.value}) else svc
  }

  function Loses(svc: Service, pod: Pod): Service {
    if Backs(svc.selector, pod) then svc.(endpoints := svc.endpoints - {pod.ip.value}) else svc
  }

  function WithPod(svcs: Services, pod: Pod): Services {
    map k | k in svcs :: Gains(svcs[k], pod)
  }

  function WithoutPod(svcs: Services, pod: Pod): Services {
    map k | k in svcs :: Loses(svcs[k], pod)
  }

  /** A pod that keeps its address is left alone. */
  function WithReplaced(svcs: Services, before: Pod, after: Pod): Services {
    if before.ip == after.ip then svcs else WithPod(WithoutPod(svcs, before), after)
  }

  function Filled(svc: Service, pods: Pods): Service {
    svc.(endpoints := svc.endpoints + Backends(pods, svc.selector))
  }

  /** A new service is only written when some pod backs it. */
  function Announced(published: Services, svc: Service, pods: Pods): Services {
    if Backends(pods, svc.selector) == {} then published else published[svc.uri := Filled(svc, pods)]
  }

  /** What handling an event leaves in the stores. */
  function Stepped(c: Cluster, e: Event): Cluster {
    match e
    case PodPut(k, pod) =>
      Cluster(c.pods[k := pod],
              if k !in c.pods then WithPod(c.svcs, pod) else WithReplaced(c.svcs, c.pods[k], pod))
    case PodGone(k) =>
      if k in c.pods then Cluster(c.pods - {k}, WithoutPod(c.svcs, c.pods[k])) else c
    case SvcPut(svc) =>
      c.(svcs := c.svcs[svc.uri := if svc.uri in c.svcs then svc else Filled(svc, c.pods)])
    case SvcGone(k) => c.(svcs := c.svcs - {k})
  }

  // ---------- when a step keeps the sets exact ----------

  /** Another pod than `k` backs the service with the same address. */
  ghost predicate Shared(pods: Pods, k: string, selector: LabelMap, ip: Ip) {
    exists j <- pods :: j != k && Backs(selector, pods[j]) && pods[j].ip.value == ip
  }

  /** No service loses an address that another pod still provides. */
  ghost predicate AloneEverywhere(c: Cluster, k: string)
    requires k in c.pods
  {
    forall s <- c.svcs :: Backs(c.svcs[s].selector, c.pods[k]) ==>
      !Shared(c.pods, k, c.svcs[s].selector, c.pods[k].ip.value)
  }

  /** Pods that keep their address keep backing the same services, unless another pod stands in. */
  ghost predicate BacksTheSame(c: Cluster, k: string, pod: Pod)
    requires k in c.pods
  {
    forall s <- c.svcs ::
      Backs(c.svcs[s].selector, pod) == Backs(c.svcs[s].selector, c.pods[k])
      || (pod.ip.Some? && Shared(c.pods, k, c.svcs[s].selector, pod.ip.value))
  }

  /** Exactly the events that keep exact sets exact. */
  ghost predicate Fine(c: Cluster, e: Event) {
    match e
    case PodPut(k, pod) =>
      k in c.pods ==> if c.pods[k].ip == pod.ip then BacksTheSame(c, k, pod) else AloneEverywhere(c, k)
    case PodGone(k) => k in c.pods ==> AloneEverywhere(c, k)
    case SvcPut(svc) =>
      if svc.uri in c.svcs then svc.endpoints == Backends(c.pods, svc.selector)
      else svc.endpoints <= Backends(c.pods, svc.selector)
    case SvcGone(_) => true
  }

  lemma BackendsWithNew(pods: Pods, k: string, pod: Pod, selector: LabelMap)
    requires k !in pods
    ensures Backends(pods[k := pod], selector) == Backends(pods, selector) +
      if Backs(selector, pod) then {pod.ip.value} else {}
  {
    var pods' := pods[k := pod];
    forall ip | ip in Backends(pods, selector) ensures ip in Backends(pods', selector) {
      var j :| j in pods && Backs(selector, pods[j]) && pods[j].ip.value == ip;
      assert j in pods' && pods'[j] == pods[j];
    }
    if Backs(selector, pod) {
      assert k in pods' && pods'[k] == pod;
    }
  }

  lemma BackendsWithout(pods: Pods, k: string, selector: LabelMap)
    requires k in pods
    ensures Backs(selector, pods[k]) ==>
              Backends(pods, selector) == Backends(pods - {k}, selector) + {pods[k].ip.value}
              && (pods[k].ip.value in Backends(pods - {k}, selector) <==> Shared(pods, k, selector, pods[k].ip.value))
    ensures !Backs(selector, pods[k]) ==> Backends(pods, selector) == Backends(pods - {k}, selector)
  {
    assert (pods - {k})[k := pods[k]] == pods;
    BackendsWithNew(pods - {k}, k, pods[k], selector);
    var rest := pods - {k};
    if Backs(selector, pods[k]) {
      var ip := pods[k].ip.value;
      if ip in Backends(rest, selector) {
        var j :| j in rest && Backs(selector, rest[j]) && rest[j].ip.value == ip;
        assert j in pods && j != k && pods[j] == rest[j];
      }
      if Shared(pods, k, selector, ip) {
        var j :| j in pods && j != k && Backs(selector, pods[j]) && pods[j].ip.value == ip;
        assert j in rest && rest[j] == pods[j];
      }
    }
  }

  lemma SharedIsRest(pods: Pods, k: string, selector: LabelMap, ip: Ip)
    ensures Shared(pods, k, selector, ip) <==> ip in Backends(pods - {k}, selector)
  {
    var rest := pods - {k};
    if ip in Backends(rest, selector) {
      var j :| j in rest && Backs(selector, rest[j]) && rest[j].ip.value == ip;
      assert j in pods && j != k && pods[j] == rest[j];
    }
    if Shared(pods, k, selector, ip) {
      var j :| j in pods && j != k && Backs(selector, pods[j]) && pods[j].ip.value == ip;
      assert j in rest && rest[j] == pods[j];
    }
  }

  /** One service, when a pod is replaced. */
  lemma ReplacedAt(pods: Pods, k: string, pod: Pod, svc: Service)
    requires k in pods && svc.endpoints == Backends(pods, svc.selector)
    ensures pods[k].ip == pod.ip ==>
              (svc.endpoints == Backends(pods[k := pod], svc.selector) <==>
                Backs(svc.selector, pod) == Backs(svc.selector, pods[k])
                || (pod.ip.Some? && Shared(pods, k, svc.selector, pod.ip.value)))
    ensures pods[k].ip != pod.ip ==>
              (Gains(Loses(svc, pods[k]), pod).endpoints == Backends(pods[k := pod], svc.selector) <==>
                (Backs(svc.selector, pods[k]) ==> !Shared(pods, k, svc.selector, pods[k].ip.value)))
  {
    var rest := pods - {k};
    BackendsWithout(pods, k, svc.selector);
    BackendsWithNew(rest, k, pod, svc.selector);
    assert rest[k := pod] == pods[k := pod];
    if pod.ip.Some? {
      SharedIsRest(pods, k, svc.selector, pod.ip.value);
    }
  }

  lemma GoneAt(pods: Pods, k: string, svc: Service)
    requires k in pods && svc.endpoints == Backends(pods, svc.selector)
    ensures Loses(svc, pods[k]).endpoints == Backends(pods - {k}, svc.selector) <==>
              (Backs(svc.selector, pods[k]) ==> !Shared(pods, k, svc.selector, pods[k].ip.value))
  {
    BackendsWithout(pods, k, svc.selector);
  }

  lemma PodPutIff(c: Cluster, k: string, pod: Pod)
    requires Exact(c)
    ensures Exact(Stepped(c, PodPut(k, pod))) <==> Fine(c, PodPut(k, pod))
  {
    var c' := Stepped(c, PodPut(k, pod));
    hide Backends, Backs, Shared;
    if k !in c.pods {
      forall s | s in c.svcs ensures ExactAt(c', s) {
        assert ExactAt(c, s);
        BackendsWithNew(c.pods, k, pod, c.svcs[s].selector);
        GainsAt(c.svcs[s], pod);
      }
    } else {
      forall s | s in c.svcs ensures ExactAt(c', s) <==> FineAt(c, k, pod, s) {
        assert ExactAt(c, s);
        ReplacedAt(c.pods, k, pod, c.svcs[s]);
        KeepSelector(c.svcs[s], c.pods[k], pod);
      }
    }
  }

  lemma GainsAt(svc: Service, pod: Pod)
    ensures Gains(svc, pod).selector == svc.selector
    ensures Gains(svc, pod).endpoints == svc.endpoints + if Backs(svc.selector, pod) then {pod.ip.value} else {}
  {
  }

  lemma KeepSelector(svc: Service, before: Pod, after: Pod)
    ensures Gains(Loses(svc, before), after).selector == svc.selector && Loses(svc, before).selector == svc.selector
  {
  }

  ghost predicate FineAt(c: Cluster, k: string, pod: Pod, s: string)
    requires k in c.pods && s in c.svcs
  {
    var selector := c.svcs[s].selector;
    if c.pods[k].ip == pod.ip then
      Backs(selector, pod) == Backs(selector, c.pods[k]) || (pod.ip.Some? && Shared(c.pods, k, selector, pod.ip.value))
    else Backs(selector, c.pods[k]) ==> !Shared(c.pods, k, selector, c.pods[k].ip.value)
  }

  lemma PodGoneIff(c: Cluster, k: string)
    requires Exact(c)
    ensures Exact(Stepped(c, PodGone(k))) <==> Fine(c, PodGone(k))
  {
    var c' := Stepped(c, PodGone(k));
    if k in c.pods {
      forall s | s in c.svcs
        ensures ExactAt(c', s) <==>
          (Backs(c.svcs[s].selector, c.pods[k]) ==> !Shared(c.pods, k, c.svcs[s].selector, c.pods[k].ip.value))
      {
        assert ExactAt(c, s);
        GoneAt(c.pods, k, c.svcs[s]);
      }
    }
  }

  lemma SvcPutIff(c: Cluster, svc: Service)
    requires Exact(c)
    ensures Exact(Stepped(c, SvcPut(svc))) <==> Fine(c, SvcPut(svc))
  {
    var c' := Stepped(c, SvcPut(svc));
    hide Backends;
    forall s | s in c.svcs && s != svc.uri ensures ExactAt(c', s) {
      assert ExactAt(c, s);
    }
    assert ExactAt(c', svc.uri) <==> Fine(c, SvcPut(svc));
  }

  /** An event keeps the endpoint sets equal to the recomputed ones if and only if it is fine. */
  lemma StepStaysExactIff(c: Cluster, e: Event)
    requires Exact(c)
    ensures Exact(Stepped(c, e)) <==> Fine(c, e)
  {
    match e {
      case PodPut(k, pod) => PodPutIff(c, k, pod);
      case PodGone(k) => PodGoneIff(c, k);
      case SvcPut(svc) => SvcPutIff(c, svc);
      case SvcGone(k) =>
        forall s | s in c.svcs && s != k ensures ExactAt(Stepped(c, e), s) {
          assert ExactAt(c, s);
        }
    }
  }

  // ---------- runs ----------

  function After(c: Cluster, es: seq<Event>): Cluster {
    if es == [] then c else Stepped(After(c, es[..|es| - 1]), es[|es| - 1])
  }

  predicate DistinctIps(pods: Pods) {
    forall j, k :: j in pods && k in pods && j != k && pods[j].ip.Some? ==> pods[j].ip != pods[k].ip
  }

  /** Pods have addresses of their own and keep their labels; new services have no endpoints yet, and
      later writes only carry what the controller itself wrote. */
  predicate Orderly(c: Cluster, e: Event) {
    match e
    case PodPut(k, pod) => DistinctIps(c.pods[k := pod]) && (k in c.pods ==> pod.labels == c.pods[k].labels)
    case PodGone(_) => true
    case SvcPut(svc) => if svc.uri in c.svcs then svc == c.svcs[svc.uri] else svc.endpoints == {}
    case SvcGone(_) => true
  }

  predicate OrderlyRun(c: Cluster, es: seq<Event>) {
    es == [] || (OrderlyRun(c, es[..|es| - 1]) && Orderly(After(c, es[..|es| - 1]), es[|es| - 1]))
  }

  lemma OrderlyIsFine(c: Cluster, e: Event)
    requires Exact(c) && DistinctIps(c.pods) && Orderly(c, e)
    ensures Fine(c, e) && DistinctIps(Stepped(c, e).pods)
  {
    match e {
      case PodPut(k, pod) =>
        if k in c.pods {
          assert c.pods[k].ip == pod.ip ==>
            forall s <- c.svcs :: Backs(c.svcs[s].selector, pod) == Backs(c.svcs[s].selector, c.pods[k]);
        }
      case PodGone(k) =>
      case SvcPut(svc) =>
        if svc.uri in c.svcs { assert ExactAt(c, svc.uri); }
      case SvcGone(k) =>
    }
  }

  /** In every orderly run the incremental endpoint sets are the recomputed ones. */
  lemma {:induction false} RunsStayExact(c: Cluster, es: seq<Event>)
    requires Exact(c) && DistinctIps(c.pods) && OrderlyRun(c, es)
    ensures Exact(After(c, es)) && DistinctIps(After(c, es).pods)
  {
    if es != [] {
      var n := |es| - 1;
      RunsStayExact(c, es[..n]);
      OrderlyIsFine(After(c, es[..n]), es[n]);
      StepStaysExactIff(After(c, es[..n]), es[n]);
    }
  }

  /** Two pods with one address, as pods on the host network have: when one goes, the services they back
      lose the address although the other pod still provides it. */
  lemma SharedAddressIsLost(c: Cluster, a: string, b: string, s: string)
    requires Exact(c) && s in c.svcs && a in c.pods && b in c.pods && a != b
    requires Backs(c.svcs[s].selector, c.pods[a]) && c.pods[b] == c.pods[a]
    ensures var c', ip := Stepped(c, PodGone(a)), c.pods[a].ip.value;
      && ip in Backends(c'.pods, c'.svcs[s].selector) && ip !in c'.svcs[s].endpoints && ip in c.svcs[s].endpoints
  {
    var c' := Stepped(c, PodGone(a));
    assert ExactAt(c, s);
    assert b in c'.pods && c'.pods[b] == c.pods[a];
  }

  /** The subset test is the reverse of the selector tests elsewhere: a pod passes both only if its labels
      are exactly the selector, and a pod without labels backs every service. */
  lemma SelectorTestIsReversed(selector: LabelMap, pod: Pod)
    requires pod.ip.Some?
    ensures Backs(selector, pod) && Matches(pod.labels, selector) <==> pod.labels == selector
    ensures pod.labels == map[] ==> Backs(selector, pod)
  {
    MatchesBothWays(selector, pod.labels);
  }

  // ---------- the controller ----------

  class Controller {
    var podStore: Pods
    var svcStore: Services
    /** The services as last written to the API server. */
    var published: Services

    ghost function State(): Cluster
      reads this
    {
      Cluster(podStore, svcStore)
    }

    /** The service store is what the API server holds, under the services' own addresses. */
    ghost predicate Valid()
      reads this
    {
      published == svcStore && forall k <- svcStore :: svcStore[k].uri == k
    }

    constructor ()
      ensures Valid() && State() == Cluster(map[], map[])
    {
      podStore, svcStore, published := map[], map[], map[];
    }

    method UpdateService(svc: Service)
      modifies this`published
      ensures published == old(published)[svc.uri := svc]
    {
      published := published[svc.uri := svc];
    }

    method AddSvcEndpoint(pod: Pod)
      requires Valid()
      modifies this`svcStore, this`published
      ensures Valid() && svcStore == WithPod(old(svcStore), pod)
      ensures svcStore == map k | k in old(svcStore) ::
        old(svcStore)[k].(endpoints := old(svcStore)[k].endpoints + Provided(old(svcStore)[k].selector, pod))
    {
      WithPodIs(svcStore, pod);
      if pod.ip.None? {
        assert WithPod(svcStore, pod) == svcStore;
        return;
      }
      var todo := svcStore.Keys;
      while todo != {}
        invariant Valid() && todo <= old(svcStore).Keys == svcStore.Keys
        invariant forall k <- old(svcStore) ::
          svcStore[k] == if k in todo then old(svcStore)[k] else Gains(old(svcStore)[k], pod)
      {
        var k := Next(todo);
        var svc := svcStore[k];
        if Matches(svc.selector, pod.labels) && pod.ip.value !in svc.endpoints {
          svc := svc.(endpoints := svc.endpoints + {pod.ip.value});
          svcStore := svcStore[k := svc];
          UpdateService(svc);
        } else if Matches(svc.selector, pod.labels) {
          assert svc.endpoints + {pod.ip.value} == svc.endpoints;
        }
        todo := todo - {k};
      }
      assert svcStore == WithPod(old(svcStore), pod);
    }

    method DelSvcEndpoint(pod: Pod)
      requires Valid()
      modifies this`svcStore, this`published
      ensures Valid() && svcStore == WithoutPod(old(svcStore), pod)
      ensures svcStore == map k | k in old(svcStore) ::
        old(svcStore)[k].(endpoints := old(svcStore)[k].endpoints - Provided(old(svcStore)[k].selector, pod))
    {
      WithPodIs(svcStore, pod);
      if pod.ip.None? {
        assert WithoutPod(svcStore, pod) == svcStore;
        return;
      }
      var todo := svcStore.Keys;
      while todo != {}
        invariant Valid() && todo <= old(svcStore).Keys == svcStore.Keys
        invariant forall k <- old(svcStore) ::
          svcStore[k] == if k in todo then old(svcStore)[k] else Loses(old(svcStore)[k], pod)
      {
        var k := Next(todo);
        var svc := svcStore[k];
        if Matches(svc.selector, pod.labels) && pod.ip.value in svc.endpoints {
          svc := svc.(endpoints := svc.endpoints - {pod.ip.value});
          svcStore := svcStore[k := svc];
          UpdateService(svc);
        } else if Matches(svc.selector, pod.labels) {
          assert svc.endpoints - {pod.ip.value} == svc.endpoints;
        }
        todo := todo - {k};
      }
      assert svcStore == WithoutPod(old(svcStore), pod);
    }

    /** The addresses of the pods that match, added to a set. */
    method Collect(selector: LabelMap, from: set<Ip>) returns (eps: set<Ip>, found: bool)
      ensures eps == from + Backends(podStore, selector)
      ensures found == (Backends(podStore, selector) != {})
    {
      eps, found := from, false;
      var todo := podStore.Keys;
      ghost var seen: Pods := map[];
      while todo != {}
        invariant todo <= podStore.Keys && seen == podStore - todo
        invariant eps == from + Backends(seen, selector) && found == (Backends(seen, selector) != {})
      {
        var k := Next(todo);
        var pod := podStore[k];
        if pod.ip.Some? && Matches(selector, pod.labels) {
          found := true;
          eps := eps + {pod.ip.value};
        }
        BackendsWithNew(seen, k, pod, selector);
        seen := seen[k := pod];
        todo := todo - {k};
      }
      assert podStore - {} == podStore;
    }

    /** Publish a new service with the pods there are; the store sees it when the write is echoed. */
    method AddEndpoints(svc: Service)
      modifies this`published
      ensures published == Announced(old(published), svc, podStore)
      ensures
        var eps := set k | k in podStore && podStore[k].ip.Some? && podStore[k].labels.Items <= svc.selector.Items
                         :: podStore[k].ip.value;
        published ==
          if eps == {} then old(published)
          else old(published)[svc.uri := svc.(endpoints := svc.endpoints + eps)]
    {
      BackendsAre(podStore, svc.selector);
      var eps, changed := Collect(svc.selector, svc.endpoints);
      if changed {
        UpdateService(svc.(endpoints := eps));
      }
    }

    /** Recompute every service's endpoints. */
    method HandleResync()
      requires Valid()
      modifies this`svcStore, this`published
      ensures Valid() && svcStore == Recomputed(old(State()))
      ensures Exact(State()) && (old(Exact(State())) ==> svcStore == old(svcStore))
      ensures forall k <- svcStore :: svcStore[k].endpoints ==
                set j | j in podStore && podStore[j].ip.Some? && podStore[j].labels.Items <= svcStore[k].selector.Items
                      :: podStore[j].ip.value
    {
      var todo := svcStore.Keys;
      while todo != {}
        invariant Valid() && todo <= old(svcStore).Keys == svcStore.Keys
        invariant forall k <- old(svcStore) :: svcStore[k] ==
                    if k in todo then old(svcStore)[k]
                      else old(svcStore)[k].(endpoints := Backends(podStore, old(svcStore)[k].selector))
      {
        var k := Next(todo);
        var svc := svcStore[k];
        var newEps, found := Collect(svc.selector, {});
        if svc.endpoints != newEps {
          svc := svc.(endpoints := newEps);
          svcStore := svcStore[k := svc];
          UpdateService(svc);
        }
        todo := todo - {k};
      }
      assert svcStore == Recomputed(old(State()));
      forall k | k in svcStore ensures svcStore[k].endpoints ==
        set j | j in podStore && podStore[j].ip.Some? && podStore[j].labels.Items <= svcStore[k].selector.Items
              :: podStore[j].ip.value
      {
        BackendsAre(podStore, svcStore[k].selector);
      }
      if old(Exact(State())) {
        forall k | k in svcStore ensures svcStore[k] == old(svcStore)[k] {
          assert ExactAt(old(State()), k);
        }
      }
    }

    method HandleNotification(n: Notification)
      requires Valid()
      modifies this`svcStore, this`published
      ensures n.PodAdd? ==> Valid() && svcStore == WithPod(old(svcStore), n.pod)
      ensures n.PodUpdate? ==> Valid() && svcStore == WithReplaced(old(svcStore), n.before, n.after)
      ensures n.PodDelete? ==> Valid() && svcStore == WithoutPod(old(svcStore), n.pod)
      ensures n.SvcAdd? ==> svcStore == old(svcStore) && published == Announced(old(published), n.svc, podStore)
    {
      match n {
        case PodAdd(pod) =>
          AddSvcEndpoint(pod);
        case PodUpdate(before, after) =>
          if before.ip != after.ip {
            DelSvcEndpoint(before);
            AddSvcEndpoint(after);
          }
        case PodDelete(pod) =>
          DelSvcEndpoint(pod);
        case SvcAdd(svc) =>
          AddEndpoints(svc);
      }
    }

    /** One event reaches a store, is handled, and what the handler wrote comes back. */
    method Deliver(e: Event)
      requires Valid()
      modifies this
      ensures Valid() && State() == Stepped(old(State()), e)
    {
      match e {
        case PodPut(k, pod) =>
          var known := k in podStore;
          var before := if known then podStore[k] else pod;
          podStore := podStore[k := pod];
          if known {
            HandleNotification(PodUpdate(before, pod));
          } else {
            HandleNotification(PodAdd(pod));
          }
        case PodGone(k) =>
          if k in podStore {
            var before := podStore[k];
            podStore := podStore - {k};
            HandleNotification(PodDelete(before));
          }
        case SvcPut(svc) =>
          var known := svc.uri in svcStore;
          published := published[svc.uri := svc];
          svcStore := svcStore[svc.uri := svc];
          if !known {
            HandleNotification(SvcAdd(svc));
            svcStore := svcStore[svc.uri := published[svc.uri]];
            assert svc.endpoints + {} == svc.endpoints;
          }
        case SvcGone(k) =>
          published := published - {k};
          svcStore := svcStore - {k};
      }
    }

    /** A run of events; if it is orderly, the sets end as a resync would leave them. */
    method DeliverAll(es: seq<Event>)
      requires Valid()
      modifies this
      ensures Valid() && State() == After(old(State()), es)
      ensures old(Exact(State())) && DistinctIps(old(podStore)) && OrderlyRun(old(State()), es) ==>
        svcStore == Recomputed(State())
    {
      ghost var st0 := State();
      for i := 0 to |es|
        invariant Valid() && State() == After(st0, es[..i])
      {
        assert es[..i + 1][..i] == es[..i];
        Deliver(es[i]);
      }
      assert es[..|es|] == es;
      if Exact(st0) && DistinctIps(st0.pods) && OrderlyRun(st0, es) {
        RunsStayExact(st0, es);
        forall k | k in svcStore ensures svcStore[k] == Recomputed(State())[k] {
          assert ExactAt(State(), k);
        }
      }
    }
  }
}
