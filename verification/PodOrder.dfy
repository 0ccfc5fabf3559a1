/** Pods as the replica set and GPU job controllers see them, and the order in which they pick pods to
    delete (controllers/src/replica_set/controller.rs, controllers/src/gpu_job/controller.rs). */
module PodOrder {
  import opened Common
  import opened Labels

  datatype Phase = Failed | Pending | Running | Succeeded

  /** `ready` is false when there is no Ready condition. */
  datatype PodStatus = PodStatus(phase: Phase, ready: bool, startTime: int)

  datatype Reference = Reference(kind: string, name: string)

  datatype Pod = Pod(name: string, labels: LabelMap, owners: seq<Reference>, status: Option<PodStatus>)

  /** The references of a kind. */
  function OfKind(refs: seq<Reference>, kind: string): seq<Reference> {
    if refs == [] then []
    else OfKind(refs[..|refs| - 1], kind) + if refs[|refs| - 1].kind == kind then [refs[|refs| - 1]] else []
  }

  /** The name of the pod's owner, if it has exactly one of the kind. */
  function OwnerOf(pod: Pod, kind: string): Option<string> {
    var owners := OfKind(pod.owners, kind);
    if |owners| == 1 then Some(owners[0].name) else None
  }

  /** The i-th reference is the only one of the kind. */
  predicate OnlyAt(refs: seq<Reference>, kind: string, i: nat) {
    i < |refs| && forall j :: 0 <= j < |refs| ==> (refs[j].kind == kind <==> j == i)
  }

  lemma {:induction false} OfKindIs(refs: seq<Reference>, kind: string)
    ensures |OfKind(refs, kind)| == 0 <==> forall j :: 0 <= j < |refs| ==> refs[j].kind != kind
    ensures |OfKind(refs, kind)| == 1 <==> exists i: nat :: OnlyAt(refs, kind, i)
    ensures forall i: nat :: OnlyAt(refs, kind, i) ==> OfKind(refs, kind) == [refs[i]]
  {
    if refs != [] {
      var n := |refs| - 1;
      var front := refs[..n];
      OfKindIs(front, kind);
      assert forall j :: 0 <= j < n ==> front[j] == refs[j];
      if refs[n].kind == kind {
        assert (exists i: nat :: OnlyAt(refs, kind, i)) ==> OnlyAt(refs, kind, n);
        assert OnlyAt(refs, kind, n) ==> forall j :: 0 <= j < n ==> refs[j].kind != kind;
        if |OfKind(front, kind)| == 0 { assert OnlyAt(refs, kind, n); }
        forall i: nat | OnlyAt(refs, kind, i) ensures i == n { assert refs[n].kind == kind; }
      } else {
        forall i: nat ensures OnlyAt(refs, kind, i) <==> OnlyAt(front, kind, i) {
          if i < n && OnlyAt(front, kind, i) {
            forall j | 0 <= j < |refs| ensures refs[j].kind == kind <==> j == i {
              if j < n { assert front[j] == refs[j]; }
            }
          }
        }
      }
    }
  }

  /** A pod has an owner exactly if one reference, and no second one, is of the kind; it is that one. */
  lemma OwnerIsTheOnlyOne(pod: Pod, kind: string, name: string)
    ensures OwnerOf(pod, kind) == Some(name) <==>
      exists i: nat :: OnlyAt(pod.owners, kind, i) && pod.owners[i].name == name
  {
    OfKindIs(pod.owners, kind);
  }

  datatype Ordering = Less | Equal | Greater

  function PhaseOrder(p: Phase): int {
    match p
    case Failed => 0
    case Pending => 1
    case Running => 2
    case Succeeded => 3
  }

  function CompareInt(a: int, b: int): Ordering {
    if a < b then Less else if a > b then Greater else Equal
  }

  /** Failed before pending before running before succeeded, then not ready before ready, then by start. */
  function Compare(a: PodStatus, b: PodStatus): Ordering {
    if a.phase != b.phase then CompareInt(PhaseOrder(a.phase), PhaseOrder(b.phase))
    else if a.ready != b.ready then if b.ready then Less else Greater
    else CompareInt(a.startTime, b.startTime)
  }

  predicate NotAfter(a: PodStatus, b: PodStatus) {
    Compare(a, b) != Greater
  }

  /** The comparison is a total preorder that only ties statuses it cannot tell apart. */
  lemma CompareIsAnOrder(a: PodStatus, b: PodStatus, c: PodStatus)
    ensures NotAfter(a, b) || NotAfter(b, a)
    ensures NotAfter(a, b) && NotAfter(b, c) ==> NotAfter(a, c)
    ensures NotAfter(a, b) && NotAfter(b, a) <==> a == b
  {
    assert PhaseOrder(a.phase) == PhaseOrder(b.phase) <==> a.phase == b.phase;
  }

  /** Failed pods go first, then pending, running and succeeded ones; in one phase those that are not ready go
      before the ready ones, and else those that started first. */
  predicate MayGoFirst(a: PodStatus, b: PodStatus) {
    if a.phase == b.phase then (!a.ready && b.ready) || (a.ready == b.ready && a.startTime <= b.startTime)
    else a.phase == Failed || b.phase == Succeeded || (a.phase == Pending && b.phase == Running)
  }

  lemma NotAfterIff(a: PodStatus, b: PodStatus)
    ensures NotAfter(a, b) <==> MayGoFirst(a, b)
  {
  }

  predicate AllHaveStatus(pods: seq<Pod>) {
    forall p <- pods :: p.status.Some?
  }

  predicate Ordered(pods: seq<Pod>)
    requires AllHaveStatus(pods)
  {
    forall i, j :: 0 <= i < j < |pods| ==> NotAfter(pods[i].status.value, pods[j].status.value)
  }

  lemma InsertedIsOrdered(s: seq<Pod>, x: Pod, j: nat)
    requires AllHaveStatus(s) && Ordered(s) && x.status.Some? && j <= |s|
    requires j > 0 ==> NotAfter(s[j - 1].status.value, x.status.value)
    requires j < |s| ==> NotAfter(x.status.value, s[j].status.value)
    ensures AllHaveStatus(s[..j] + [x] + s[j..]) && Ordered(s[..j] + [x] + s[j..])
  {
    var t := s[..j] + [x] + s[j..];
    forall i, k | 0 <= i < k < |t| ensures NotAfter(t[i].status.value, t[k].status.value) {
      if k == j && i < j - 1 {
        CompareIsAnOrder(s[i].status.value, s[j - 1].status.value, x.status.value);
      } else if i == j && k > j + 1 {
        CompareIsAnOrder(x.status.value, s[j].status.value, s[k - 1].status.value);
      }
    }
  }

  lemma EmptyIsOrdered()
    ensures Ordered([])
  {
  }

  lemma InsertedIsThere(s: seq<Pod>, x: Pod, j: nat)
    requires j <= |s|
    ensures multiset(s[..j] + [x] + s[j..]) == multiset(s) + multiset{x}
  {
    assert s == s[..j] + s[j..];
  }

  /** Insertion from the back, as a stable sort. */
  method SortBy(pods: seq<Pod>) returns (s: seq<Pod>)
    requires AllHaveStatus(pods)
    ensures multiset(s) == multiset(pods) && AllHaveStatus(s) && Ordered(s)
  {
    hide Ordered, NotAfter;
    s := [];
    EmptyIsOrdered();
    for i := 0 to |pods|
      invariant multiset(s) == multiset(pods[..i]) && AllHaveStatus(s) && Ordered(s)
    {
      var x := pods[i];
      assert x in pods;
      var j := |s|;
      while j > 0 && !NotAfter(s[j - 1].status.value, x.status.value)
        invariant 0 <= j <= |s|
        invariant j < |s| ==> NotAfter(x.status.value, s[j].status.value)
      {
        CompareIsAnOrder(s[j - 1].status.value, x.status.value, x.status.value);
        j := j - 1;
      }
      InsertedIsOrdered(s, x, j);
      InsertedIsThere(s, x, j);
      assert pods[..i + 1] == pods[..i] + [x];
      s := s[..j] + [x] + s[j..];
    }
    assert pods[..|pods|] == pods;
  }

  /** A pod that no other one comes before. */
  ghost predicate Least(pods: seq<Pod>, p: Pod) {
    p in pods && (|pods| > 1 ==> AllHaveStatus(pods) && forall q <- pods :: NotAfter(p.status.value, q.status.value))
  }

  /** The first pod in order; a panic if there is none, or if pods without status are to be compared. */
  method FirstToDelete(pods: seq<Pod>) returns (name: Option<string>)
    ensures name.None? <==> pods == [] || (|pods| > 1 && !AllHaveStatus(pods))
    ensures name.Some? ==> exists p :: Least(pods, p) && p.name == name.value
  {
    if pods == [] {
      return None;
    }
    if |pods| == 1 {
      assert Least(pods, pods[0]);
      return Some(pods[0].name);
    }
    if !AllHaveStatus(pods) {
      return None;
    }
    var s := SortBy(pods);
    assert |s| == |multiset(s)| == |pods|;
    assert s[0] in multiset(s);
    forall q | q in pods ensures NotAfter(s[0].status.value, q.status.value) {
      assert q in multiset(pods);
      assert q in s;
      var k :| 0 <= k < |s| && s[k] == q;
      CompareIsAnOrder(q.status.value, q.status.value, q.status.value);
    }
    assert Least(pods, s[0]);
    name := Some(s[0].name);
  }
}
