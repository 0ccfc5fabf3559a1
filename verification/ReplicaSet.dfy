/** The replica set controller (controllers/src/replica_set/controller.rs): one pod created or deleted a
    round, until there are as many as desired. */
module ReplicaSet {
  import opened Common
  import opened Labels
  import opened PodOrder

  type Pods = map<string, Pod>

  datatype Status = Status(replicas: nat, readyReplicas: nat)

  datatype Template = Template(labels: LabelMap, owners: seq<Reference>)

  datatype ReplicaSet = ReplicaSet(name: string, selector: LabelMap, replicas: u32, template: Template,
      status: Option<Status>)

  datatype Cluster = Cluster(pods: Pods, sets: map<string, ReplicaSet>)

  const KIND := "ReplicaSet"

  // ---------- pods of a replica set ----------

  function Matching(pods: Pods, selector: LabelMap): set<string> {
    set k | k in pods && Matches(pods[k].labels, selector)
  }

  function IsReady(pod: Pod): bool { pod.status.Some? && pod.status.value.ready }

  function Ready(pods: Pods, selector: LabelMap): set<string> {
    set k | k in pods && Matches(pods[k].labels, selector) && IsReady(pods[k])
  }

  function CalculatedStatus(pods: Pods, selector: LabelMap): Status {
    Status(|Matching(pods, selector)|, |Ready(pods, selector)|)
  }

  function NewPod(rs: ReplicaSet, name: string, now: int): Pod {
    Pod(name, rs.template.labels, rs.template.owners + [Reference(KIND, rs.name)], Some(PodStatus(Pending, false, now)))
  }

  /** After a pod has changed, its owner's status is brought up to date. */
  function Notified(c: Cluster, pod: Pod): Cluster {
    var owner := OwnerOf(pod, KIND);
    if owner.Some? && owner.value in c.sets && c.sets[owner.value].status.Some? then
      var rs := c.sets[owner.value];
      c.(sets := c.sets[owner.value := rs.(status := Some(CalculatedStatus(c.pods, rs.selector)))])
    else c
  }

  /** No matching pod comes before this one in the order of deletion. */
  ghost predicate Victim(pods: Pods, selector: LabelMap, k: string) {
    && k in Matching(pods, selector)
    && forall j <- Matching(pods, selector) :: j != k ==>
         pods[k].status.Some? && pods[j].status.Some? && NotAfter(pods[k].status.value, pods[j].status.value)
  }

  /** A victim can be found: there is a matching pod, and those to be compared have a status. */
  ghost predicate CanPick(pods: Pods, selector: LabelMap) {
    var m := Matching(pods, selector);
    m != {} && (|m| > 1 ==> forall k <- m :: pods[k].status.Some?)
  }

  // ---------- one round ----------

  /** Reconcile with the stored status, then the change of the pod is observed. */
  ghost predicate Round(c: Cluster, name: string, c': Cluster) {
    name in c.sets && c.sets[name].status.Some?
    && var rs, status := c.sets[name], c.sets[name].status.value;
    if status.replicas < rs.replicas then
      exists k, now :: k !in c.pods && c' == Notified(c.(pods := c.pods[k := NewPod(rs, k, now)]), NewPod(rs, k, now))
    else if status.replicas > rs.replicas then
      exists k :: Victim(c.pods, rs.selector, k) && c' == Notified(c.(pods := c.pods - {k}), c.pods[k])
    else c' == c
  }

  /** The set's status is what its selector finds, and its template names no other owner. */
  ghost predicate Current(c: Cluster, name: string) {
    && name in c.sets && c.sets[name].name == name
    && c.sets[name].status == Some(CalculatedStatus(c.pods, c.sets[name].selector))
    && OfKind(c.sets[name].template.owners, KIND) == []
  }

  /** The pods its selector finds are its own, and have a status. */
  ghost predicate Owned(c: Cluster, name: string)
    requires name in c.sets
  {
    forall k <- Matching(c.pods, c.sets[name].selector) ::
      c.pods[k].status.Some? && OwnerOf(c.pods[k], KIND) == Some(name)
  }

  ghost predicate Settled(c: Cluster, name: string) { Current(c, name) && Owned(c, name) }

  ghost predicate TemplateFits(c: Cluster, name: string) {
    name in c.sets && Matches(c.sets[name].template.labels, c.sets[name].selector)
  }

  /** How far the number of matching pods is from the desired one. */
  function Distance(c: Cluster, name: string): nat
    requires name in c.sets
  {
    var n, desired := |Matching(c.pods, c.sets[name].selector)|, c.sets[name].replicas;
    if n < desired then desired - n else n - desired
  }

  /** Pods match by the entries of their labels, and count as ready by their status. */
  lemma MatchingIs(pods: Pods, selector: LabelMap)
    ensures Matching(pods, selector) == set k | k in pods && selector.Items <= pods[k].labels.Items
    ensures Ready(pods, selector) ==
      set k | k in pods && selector.Items <= pods[k].labels.Items && pods[k].status.Some? && pods[k].status.value.ready
  {
    forall k | k in pods ensures Matches(pods[k].labels, selector) <==> selector.Items <= pods[k].labels.Items {
      MatchesIff(pods[k].labels, selector);
    }
    hide Matches;
  }

  /** Who goes: a matching pod that may go before every other matching one. */
  ghost predicate GoesFirst(pods: Pods, selector: LabelMap, v: string) {
    && v in pods && selector.Items <= pods[v].labels.Items
    && forall k <- pods :: k != v && selector.Items <= pods[k].labels.Items ==>
         pods[v].status.Some? && pods[k].status.Some? && MayGoFirst(pods[v].status.value, pods[k].status.value)
  }

  lemma VictimIff(pods: Pods, selector: LabelMap, v: string)
    ensures Victim(pods, selector, v) <==> GoesFirst(pods, selector, v)
  {
    MatchingIs(pods, selector);
    hide Matching, MayGoFirst, NotAfter;
    forall k | k in pods && v in pods && pods[k].status.Some? && pods[v].status.Some?
      ensures NotAfter(pods[v].status.value, pods[k].status.value)
        <==> MayGoFirst(pods[v].status.value, pods[k].status.value)
    {
      NotAfterIff(pods[v].status.value, pods[k].status.value);
    }
  }

  lemma MatchingWith(pods: Pods, k: string, pod: Pod, selector: LabelMap)
    requires k !in pods
    ensures Matching(pods[k := pod], selector) == Matching(pods, selector) +
      if Matches(pod.labels, selector) then {k} else {}
    ensures |Matching(pods[k := pod], selector)| == |Matching(pods, selector)| +
      if Matches(pod.labels, selector) then 1 else 0
  {
    assert Matching(pods[k := pod], selector) == Matching(pods, selector) +
      if Matches(pod.labels, selector) then {k} else {};
  }

  lemma MatchingWithout(pods: Pods, k: string, selector: LabelMap)
    requires k in Matching(pods, selector)
    ensures Matching(pods - {k}, selector) == Matching(pods, selector) - {k}
    ensures |Matching(pods - {k}, selector)| == |Matching(pods, selector)| - 1
  {
    assert Matching(pods - {k}, selector) == Matching(pods, selector) - {k};
  }

  lemma NewPodIsOwned(rs: ReplicaSet, k: string, now: int)
    requires OfKind(rs.template.owners, KIND) == []
    ensures OwnerOf(NewPod(rs, k, now), KIND) == Some(rs.name)
  {
    var owners := rs.template.owners + [Reference(KIND, rs.name)];
    assert owners[..|owners| - 1] == rs.template.owners;
  }

  lemma CreationSettles(c: Cluster, name: string, k: string, now: int)
    requires Current(c, name) && k !in c.pods
    ensures var rs := c.sets[name];
      var c' := Notified(c.(pods := c.pods[k := NewPod(rs, k, now)]), NewPod(rs, k, now));
      && Current(c', name) && (Owned(c, name) ==> Owned(c', name))
      && c'.sets[name] == rs.(status := c'.sets[name].status)
      && |Matching(c'.pods, rs.selector)| == |Matching(c.pods, rs.selector)| + if TemplateFits(c, name) then 1 else 0
  {
    hide Ready, Matches, OfKind;
    var rs := c.sets[name];
    NewPodIsOwned(rs, k, now);
    MatchingWith(c.pods, k, NewPod(rs, k, now), rs.selector);
  }

  /** Deleting a pod refreshes the status exactly if the pod is the set's own. */
  lemma DeletionSettles(c: Cluster, name: string, k: string)
    requires Current(c, name) && k in Matching(c.pods, c.sets[name].selector)
    ensures var rs := c.sets[name];
      var c' := Notified(c.(pods := c.pods - {k}), c.pods[k]);
      && name in c'.sets && (Current(c', name) <==> OwnerOf(c.pods[k], KIND) == Some(name))
      && (Owned(c, name) ==> Owned(c', name)) && c'.sets[name] == rs.(status := c'.sets[name].status)
      && (!Current(c', name) ==> c'.sets[name] == rs)
      && |Matching(c'.pods, rs.selector)| == |Matching(c.pods, rs.selector)| - 1
  {
    hide Ready, Matches, OfKind;
    MatchingWithout(c.pods, k, c.sets[name].selector);
  }

  /** A round brings the number of pods one closer to the desired one if and only if there is a distance
      and, when pods are missing, the template fits the selector; at the desired number it changes nothing.
      It keeps a settled set settled. */
  lemma RoundShrinksIff(c: Cluster, name: string, c': Cluster)
    requires Current(c, name) && Round(c, name, c')
    ensures name in c'.sets && c'.sets[name] == c.sets[name].(status := c'.sets[name].status)
    ensures Settled(c, name) ==> Settled(c', name)
    ensures Distance(c', name) == Distance(c, name) - 1 <==>
              Distance(c, name) > 0
                && (|Matching(c.pods, c.sets[name].selector)| < c.sets[name].replicas ==> TemplateFits(c, name))
    ensures Distance(c, name) == 0 ==> c' == c
  {
    var rs, status := c.sets[name], c.sets[name].status.value;
    if status.replicas < rs.replicas {
      var k, now :| k !in c.pods && c' == Notified(c.(pods := c.pods[k := NewPod(rs, k, now)]), NewPod(rs, k, now));
      CreationSettles(c, name, k, now);
    } else if status.replicas > rs.replicas {
      var k :| Victim(c.pods, rs.selector, k) && c' == Notified(c.(pods := c.pods - {k}), c.pods[k]);
      DeletionSettles(c, name, k);
    }
  }

  /** A pod that the round deleted and that this set does not own. */
  ghost predicate DeletedForeign(c: Cluster, name: string, c': Cluster) {
    exists k <- c.pods :: k !in c'.pods && OwnerOf(c.pods[k], KIND) != Some(name)
  }

  lemma PodOfRound(c: Cluster, name: string, c': Cluster) returns (k: string)
    requires name in c.sets && c.sets[name].status.Some? && Round(c, name, c')
    ensures var rs := c.sets[name];
      if rs.status.value.replicas < rs.replicas then
        k !in c.pods && exists now :: c' == Notified(c.(pods := c.pods[k := NewPod(rs, k, now)]), NewPod(rs, k, now))
      else if rs.status.value.replicas > rs.replicas then
        k in c.pods && k in Matching(c.pods, rs.selector) && c' == Notified(c.(pods := c.pods - {k}), c.pods[k])
      else c' == c
  {
    var rs, status := c.sets[name], c.sets[name].status.value;
    if status.replicas < rs.replicas {
      k :| k !in c.pods && exists now ::
        c' == Notified(c.(pods := c.pods[k := NewPod(rs, k, now)]), NewPod(rs, k, now));
    } else if status.replicas > rs.replicas {
      k :| Victim(c.pods, rs.selector, k) && c' == Notified(c.(pods := c.pods - {k}), c.pods[k]);
    } else {
      k := name;
    }
  }

  lemma NotifiedPods(c: Cluster, pod: Pod)
    ensures Notified(c, pod).pods == c.pods
  {
  }

  /** A round leaves the status stale, one too high, if and only if it deletes a matching pod the set does not own. */
  lemma {:induction false} RoundStaysCurrentIff(c: Cluster, name: string, c': Cluster)
    requires Current(c, name) && Round(c, name, c')
    ensures Current(c', name) <==> !DeletedForeign(c, name, c')
    ensures DeletedForeign(c, name, c') ==>
              && c'.sets[name] == c.sets[name] && Overcounted(c', name)
              && |Matching(c'.pods, c.sets[name].selector)| == |Matching(c.pods, c.sets[name].selector)| - 1
  {
    var rs, status := c.sets[name], c.sets[name].status.value;
    var k := PodOfRound(c, name, c');
    hide Round, Matches, Notified, OwnerOf;
    if status.replicas < rs.replicas {
      var now :| c' == Notified(c.(pods := c.pods[k := NewPod(rs, k, now)]), NewPod(rs, k, now));
      CreationSettles(c, name, k, now);
      NotifiedPods(c.(pods := c.pods[k := NewPod(rs, k, now)]), NewPod(rs, k, now));
    } else if status.replicas > rs.replicas {
      DeletionSettles(c, name, k);
      NotifiedPods(c.(pods := c.pods - {k}), c.pods[k]);
      assert k in c.pods && k !in c'.pods;
    }
  }

  /** The status counts one pod more than the selector finds. */
  ghost predicate Overcounted(c: Cluster, name: string) {
    && name in c.sets && c.sets[name].status.Some?
    && c.sets[name].status.value.replicas == |Matching(c.pods, c.sets[name].selector)| + 1
  }

  /** So one pod above the desired number, the next reconcile on that status goes one below it. */
  lemma ForeignPodOvershoots(c: Cluster, name: string, c1: Cluster, c2: Cluster)
    requires Current(c, name) && |Matching(c.pods, c.sets[name].selector)| == c.sets[name].replicas + 1
    requires Round(c, name, c1) && DeletedForeign(c, name, c1) && Round(c1, name, c2)
    ensures |Matching(c1.pods, c.sets[name].selector)| == c.sets[name].replicas
    ensures |Matching(c2.pods, c.sets[name].selector)| == c.sets[name].replicas - 1
  {
    var rs := c.sets[name];
    hide Round, Current, DeletedForeign, Matching, Notified;
    RoundStaysCurrentIff(c, name, c1);
    var k := PodOfRound(c1, name, c2);
    MatchingWithout(c1.pods, k, rs.selector);
    NotifiedPods(c1.(pods := c1.pods - {k}), c1.pods[k]);
  }

  ghost predicate Rounds(trace: seq<Cluster>, name: string) {
    |trace| > 0 && forall i, j {:trigger trace[i], trace[j]} :: 0 <= i < j < |trace| && j == i + 1 ==>
      Round(trace[i], name, trace[j])
  }

  /** With a fitting template, i rounds bring the set i pods closer, until the desired number is reached and kept. */
  lemma {:induction false} RoundsConverge(trace: seq<Cluster>, name: string, i: nat)
    requires Rounds(trace, name) && Settled(trace[0], name) && TemplateFits(trace[0], name) && i < |trace|
    ensures Settled(trace[i], name) && TemplateFits(trace[i], name)
    ensures Distance(trace[i], name) == Max(0, Distance(trace[0], name) - i)
  {
    hide Settled, Round, Distance;
    if i > 0 {
      var j := i - 1;
      RoundsConverge(trace, name, j);
      assert Round(trace[j], name, trace[i]);
      RoundShrinks(trace[j], name, trace[i]);
    } else {
      assert Distance(trace[0], name) >= 0;
    }
  }

  lemma RoundShrinks(c: Cluster, name: string, c': Cluster)
    requires Settled(c, name) && Round(c, name, c') && TemplateFits(c, name)
    ensures Settled(c', name) && TemplateFits(c', name) && Distance(c', name) == Max(0, Distance(c, name) - 1)
  {
    RoundShrinksIff(c, name, c');
  }

  // ---------- who goes ----------

  /** Every pod that is gone comes no later in the order of deletion than every pod that is left. */
  ghost predicate GoneBeforeKept(pods: Pods, kept: Pods) {
    forall g, k :: g in pods && g !in kept && k in kept ==>
      pods[g].status.Some? && kept[k].status.Some? && NotAfter(pods[g].status.value, kept[k].status.value)
  }

  predicate Within(some: Pods, all: Pods) {
    forall k <- some :: k in all && all[k] == some[k]
  }

  function Restricted(pods: Pods, selector: LabelMap): Pods {
    map k | k in Matching(pods, selector) :: pods[k]
  }

  lemma TakesFirst(pods: Pods, before: Pods, after: Pods, v: string)
    requires Within(before, pods) && GoneBeforeKept(pods, before) && v in before && after == before - {v}
    requires forall j <- before :: j != v ==>
      before[v].status.Some? && before[j].status.Some? && NotAfter(before[v].status.value, before[j].status.value)
    ensures Within(after, pods) && GoneBeforeKept(pods, after)
  {
    hide NotAfter;
  }

  lemma RoundTakesFirst(c: Cluster, name: string, c': Cluster, pods: Pods)
    requires Settled(c, name) && Round(c, name, c') && |Matching(c.pods, c.sets[name].selector)| > c.sets[name].replicas
    requires var mine := Restricted(c.pods, c.sets[name].selector); Within(mine, pods) && GoneBeforeKept(pods, mine)
    ensures var selector := c.sets[name].selector;
      && |Matching(c'.pods, selector)| == |Matching(c.pods, selector)| - 1
      && Within(Restricted(c'.pods, selector), pods) && GoneBeforeKept(pods, Restricted(c'.pods, selector))
  {
    var rs := c.sets[name];
    var v :| Victim(c.pods, rs.selector, v) && c' == Notified(c.(pods := c.pods - {v}), c.pods[v]);
    assert c'.pods == c.pods - {v};
    hide Notified, Matches, NotAfter, Settled, Round, GoneBeforeKept, Within;
    MatchingWithout(c.pods, v, rs.selector);
    VictimIsFirst(c.pods, rs.selector, v);
    hide Restricted, Matching, Victim;
    TakesFirst(pods, Restricted(c.pods, rs.selector), Restricted(c'.pods, rs.selector), v);
  }

  lemma VictimIsFirst(pods: Pods, selector: LabelMap, v: string)
    requires Victim(pods, selector, v)
    ensures Restricted(pods - {v}, selector) == Restricted(pods, selector) - {v}
    ensures var mine := Restricted(pods, selector);
      v in mine && forall j <- mine :: j != v ==>
        mine[v].status.Some? && mine[j].status.Some? && NotAfter(mine[v].status.value, mine[j].status.value)
  {
    hide Matches, NotAfter;
  }

  /** When a set shrinks, the pods it deletes are the first in the order: no pod it keeps comes before one
      it deleted. */
  lemma {:induction false} SurvivorsOutrank(trace: seq<Cluster>, name: string, i: nat)
    requires Rounds(trace, name) && Settled(trace[0], name) && TemplateFits(trace[0], name) && i < |trace|
    requires |Matching(trace[0].pods, trace[0].sets[name].selector)| >= trace[0].sets[name].replicas
    ensures Settled(trace[i], name) && trace[i].sets[name].selector == trace[0].sets[name].selector
    ensures trace[i].sets[name].replicas == trace[0].sets[name].replicas
    ensures |Matching(trace[i].pods, trace[0].sets[name].selector)| >= trace[0].sets[name].replicas
    ensures var selector := trace[0].sets[name].selector;
      && Within(Restricted(trace[i].pods, selector), Restricted(trace[0].pods, selector))
      && GoneBeforeKept(Restricted(trace[0].pods, selector), Restricted(trace[i].pods, selector))
  {
    hide Round, GoneBeforeKept, Restricted, Within;
    if i == 0 {
      NothingGone(Restricted(trace[0].pods, trace[0].sets[name].selector));
    } else {
      var j := i - 1;
      SurvivorsOutrank(trace, name, j);
      assert Round(trace[j], name, trace[i]);
      RoundShrinksIff(trace[j], name, trace[i]);
      if |Matching(trace[j].pods, trace[j].sets[name].selector)| > trace[j].sets[name].replicas {
        RoundTakesFirst(trace[j], name, trace[i], Restricted(trace[0].pods, trace[0].sets[name].selector));
      }
    }
  }

  lemma NothingGone(pods: Pods)
    ensures Within(pods, pods) && GoneBeforeKept(pods, pods)
  {
  }

  // ---------- the controller ----------

  datatype Effect = Nothing | Created(pod: Pod) | Deleted(pod: Pod) | Failure

  class Controller {
    var podStore: Pods
    var rsStore: map<string, ReplicaSet>

    ghost function State(): Cluster
      reads this
    {
      Cluster(podStore, rsStore)
    }

    ghost predicate Valid()
      reads this
    {
      (forall k <- podStore :: podStore[k].name == k) && (forall n <- rsStore :: rsStore[n].name == n)
    }

    constructor (pods: Pods, sets: map<string, ReplicaSet>)
      requires (forall k <- pods :: pods[k].name == k) && (forall n <- sets :: sets[n].name == n)
      ensures Valid() && State() == Cluster(pods, sets)
    {
      podStore, rsStore := pods, sets;
    }

    /** The pods the selector finds, in the order of the store's iterator. */
    method GetPods(selector: LabelMap) returns (pods: seq<Pod>)
      requires Valid()
      ensures forall p :: p in pods <==> p.name in Matching(podStore, selector) && podStore[p.name] == p
      ensures |pods| == |Matching(podStore, selector)|
    {
      hide Matches;
      pods := [];
      var todo := podStore.Keys;
      ghost var seen: Pods := map[];
      while todo != {}
        invariant todo <= podStore.Keys && seen == podStore - todo
        invariant forall p :: p in pods <==> p.name in Matching(seen, selector) && seen[p.name] == p
        invariant |pods| == |Matching(seen, selector)|
      {
        var k := Next(todo);
        MatchingWith(seen, k, podStore[k], selector);
        if Matches(podStore[k].labels, selector) {
          pods := pods + [podStore[k]];
        }
        seen := seen[k := podStore[k]];
        todo := todo - {k};
      }
      assert podStore - {} == podStore;
    }

    method CalculateStatus(rs: ReplicaSet) returns (status: Status)
      requires Valid()
      ensures status == CalculatedStatus(podStore, rs.selector)
      ensures status.replicas == |set k | k in podStore && rs.selector.Items <= podStore[k].labels.Items|
      ensures status.readyReplicas == |set k | k in podStore && rs.selector.Items <= podStore[k].labels.Items
                                               && podStore[k].status.Some? && podStore[k].status.value.ready|
    {
      MatchingIs(podStore, rs.selector);
      hide Matches, IsReady, Matching, Ready;
      NoPods(rs.selector);
      var replicas, ready := 0, 0;
      var todo := podStore.Keys;
      ghost var seen: Pods := map[];
      while todo != {}
        invariant todo <= podStore.Keys && seen == podStore - todo
        invariant replicas == |Matching(seen, rs.selector)| && ready == |Ready(seen, rs.selector)|
      {
        var k := Next(todo);
        var pod := podStore[k];
        MatchingWith(seen, k, pod, rs.selector);
        ReadyWith(seen, k, pod, rs.selector);
        if Matches(pod.labels, rs.selector) {
          replicas := replicas + 1;
          ready := ready + if IsReady(pod) then 1 else 0;
        }
        seen := seen[k := pod];
        todo := todo - {k};
      }
      assert podStore - {} == podStore;
      status := Status(replicas, ready);
    }

    method UpdateReplicaSet(rs: ReplicaSet)
      requires Valid()
      modifies this`rsStore
      ensures rsStore == if rs.status.None? then old(rsStore)
                         else if rs.status == Some(CalculatedStatus(podStore, rs.selector)) then old(rsStore)
                         else old(rsStore)[rs.name := rs.(status := Some(CalculatedStatus(podStore, rs.selector)))]
    {
      var newStatus := CalculateStatus(rs);
      if rs.status.Some? && newStatus != rs.status.value {
        rsStore := rsStore[rs.name := rs.(status := Some(newStatus))];
      }
    }

    method HandlePodChange(pod: Pod)
      requires Valid()
      modifies this`rsStore
      ensures Valid() && State() == Notified(old(State()), pod)
    {
      var owner := OwnerOf(pod, KIND);
      if owner.Some? && owner.value in rsStore {
        var rs := rsStore[owner.value];
        UpdateReplicaSet(rs);
        assert rs.status.Some? ==> rsStore[owner.value] == rs.(status := Some(CalculatedStatus(podStore, rs.selector)));
        assert rs.status.Some? ==>
          rsStore == old(rsStore)[owner.value := rs.(status := Some(CalculatedStatus(podStore, rs.selector)))];
      }
    }

    /** The API server names the pod and gives it its first status. */
    method CreatePod(rs: ReplicaSet, now: int) returns (pod: Pod)
      requires Valid()
      modifies this`podStore
      ensures Valid() && pod.name !in old(podStore) && pod == NewPod(rs, pod.name, now)
      ensures podStore == old(podStore)[pod.name := pod]
    {
      var name := FreshName(podStore.Keys, rs.name);
      pod := NewPod(rs, name, now);
      podStore := podStore[name := pod];
    }

    /** Create or delete at most one pod. */
    method Reconcile(rs: ReplicaSet, now: int) returns (effect: Effect)
      requires Valid()
      modifies this`podStore
      ensures Valid()
      ensures effect.Failure? <==>
        rs.status.None? || (rs.status.value.replicas > rs.replicas && !CanPick(old(podStore), rs.selector))
      ensures effect.Created? ==> rs.status.value.replicas < rs.replicas && effect.pod.name !in old(podStore)
      ensures effect.Created? ==>
        effect.pod == NewPod(rs, effect.pod.name, now) && podStore == old(podStore)[effect.pod.name := effect.pod]
      ensures effect.Deleted? ==>
        rs.status.value.replicas > rs.replicas && Victim(old(podStore), rs.selector, effect.pod.name)
      ensures effect.Deleted? ==>
        effect.pod == old(podStore)[effect.pod.name] && podStore == old(podStore) - {effect.pod.name}
      ensures effect.Deleted? ==> GoesFirst(old(podStore), rs.selector, effect.pod.name)
      ensures effect.Nothing? ==> rs.status.value.replicas == rs.replicas
      ensures effect.Nothing? || effect.Failure? ==> podStore == old(podStore)
    {
      if rs.status.None? {
        return Failure;
      }
      var current := rs.status.value.replicas;
      if current < rs.replicas {
        var pod := CreatePod(rs, now);
        effect := Created(pod);
      } else if current > rs.replicas {
        var pods := GetPods(rs.selector);
        PickFromStore(podStore, rs.selector, pods);
        var name := FirstToDelete(pods);
        if name.None? {
          return Failure;
        }
        VictimIff(podStore, rs.selector, name.value);
        effect := Deleted(podStore[name.value]);
        podStore := podStore - {name.value};
      } else {
        effect := Nothing;
      }
    }

    /** Reconcile a stored set and observe the change it makes. */
    method RunRound(name: string, now: int) returns (ok: bool)
      requires Valid() && name in rsStore
      modifies this
      ensures Valid() && (ok ==> Round(old(State()), name, State()))
      ensures old(Settled(State(), name)) ==> ok
    {
      var rs := rsStore[name];
      SettledCanPick(State(), name);
      var effect := Reconcile(rs, now);
      ok := !effect.Failure?;
      if effect.Created? || effect.Deleted? {
        HandlePodChange(effect.pod);
      }
    }
  }

  lemma NoPods(selector: LabelMap)
    ensures |Matching(map[], selector)| == 0 && |Ready(map[], selector)| == 0
  {
    assert Matching(map[], selector) == {} && Ready(map[], selector) == {};
  }

  lemma ReadyWith(pods: Pods, k: string, pod: Pod, selector: LabelMap)
    requires k !in pods
    ensures |Ready(pods[k := pod], selector)| == |Ready(pods, selector)| +
      if Matches(pod.labels, selector) && IsReady(pod) then 1 else 0
  {
    hide Matches, IsReady;
    if Matches(pod.labels, selector) && IsReady(pod) {
      assert Ready(pods[k := pod], selector) == Ready(pods, selector) + {k};
    } else {
      assert Ready(pods[k := pod], selector) == Ready(pods, selector);
    }
  }

  /** What is least among the listed pods is a victim in the store. */
  lemma PickFromStore(pods: Pods, selector: LabelMap, listed: seq<Pod>)
    requires forall k <- pods :: pods[k].name == k
    requires forall p :: p in listed <==> p.name in Matching(pods, selector) && pods[p.name] == p
    requires |listed| == |Matching(pods, selector)|
    ensures CanPick(pods, selector) <==> listed != [] && (|listed| > 1 ==> AllHaveStatus(listed))
    ensures forall p :: Least(listed, p) ==> Victim(pods, selector, p.name)
  {
    var m := Matching(pods, selector);
    assert AllHaveStatus(listed) <==> forall k <- m :: pods[k].status.Some? by {
      forall k | k in m ensures pods[k] in listed { }
    }
    forall p | Least(listed, p) ensures Victim(pods, selector, p.name) {
      forall j | j in m && j != p.name ensures pods[j] in listed && |listed| > 1 {
        assert {j, p.name} <= m;
        TwoMembers(m, j, p.name);
      }
    }
  }

  lemma TwoMembers(s: set<string>, a: string, b: string)
    requires a in s && b in s && a != b
    ensures |s| > 1
  {
    assert |s - {a}| == |s| - 1 && b in s - {a};
  }

  lemma SettledCanPick(c: Cluster, name: string)
    ensures Settled(c, name) && c.sets[name].status.value.replicas > c.sets[name].replicas ==>
      CanPick(c.pods, c.sets[name].selector)
  {
  }
}
