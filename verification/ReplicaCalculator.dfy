/** Replica counts from metrics (controllers/src/podautoscaler/replica_calculator.rs). Quotients are
    exact; the values a float can take beyond the reals are kept. */
module ReplicaCalculator {
  import opened Common

  type Metrics = map<string, int>

  datatype Phase = Pending | Running | Succeeded | Failed

  /** `ready` is the status of the Ready condition, if the pod has one. */
  datatype PodStatus = PodStatus(phase: Phase, ready: Option<bool>)

  /** A pod with what its containers request of the resource in question. */
  datatype Pod = Pod(name: string, status: Option<PodStatus>, request: int)

  datatype F64 = Finite(v: real) | PosInf | NegInf | NaN

  // ---------- float operations ----------

  function Div(x: real, y: real): F64 {
    if y != 0.0 then Finite(x / y) else if x > 0.0 then PosInf else if x < 0.0 then NegInf else NaN
  }

  /** A float times the number of entries of a map. */
  function Times(x: F64, n: nat): F64 {
    match x
    case Finite(v) => Finite(v * n as real)
    case NaN => NaN
    case _ => if n == 0 then NaN else x
  }

  predicate Below(x: F64, one: real) { x.NegInf? || (x.Finite? && x.v < one) }

  predicate Above(x: F64, one: real) { x.PosInf? || (x.Finite? && x.v > one) }

  function Ceil(x: real): int { -((-x).Floor) }

  /** `ceil() as u32`: saturating, and zero for NaN. */
  function CeilU32(x: F64): u32 {
    match x
    case Finite(v) => if Ceil(v) < 0 then 0 else if Ceil(v) > U32_MAX then U32_MAX else Ceil(v)
    case PosInf => U32_MAX
    case NegInf => 0
    case NaN => 0
  }

  /** Integer division as the source's: towards zero. */
  function Trunc(x: int, n: int): int
    requires n > 0
  {
    if x >= 0 then x / n else -(-x / n)
  }

  // ---------- sums ----------

  ghost function Total(m: Metrics): int
    decreases |m|
  {
    if m == map[] then 0 else var k :| k in m; m[k] + Total(m - {k})
  }

  lemma {:induction false} TotalWithout(m: Metrics, k: string)
    requires k in m
    ensures Total(m) == m[k] + Total(m - {k})
    decreases |m|
  {
    var x :| x in m && Total(m) == m[x] + Total(m - {x});
    if x != k {
      TotalWithout(m - {x}, k);
      TotalWithout(m - {k}, x);
      assert m - {x} - {k} == m - {k} - {x};
    }
  }

  lemma TotalWith(m: Metrics, k: string, v: int)
    requires k !in m
    ensures Total(m[k := v]) == Total(m) + v
  {
    TotalWithout(m[k := v], k);
    assert m[k := v] - {k} == m;
  }

  /** What the pods with one of these names request together. */
  function Requests(pods: seq<Pod>, names: set<string>): int {
    if pods == [] then 0
    else Requests(pods[..|pods| - 1], names) + if pods[|pods| - 1].name in names then pods[|pods| - 1].request else 0
  }

  method SumValues(metrics: Metrics) returns (total: int)
    ensures total == Total(metrics)
  {
    total := 0;
    var todo := metrics.Keys;
    ghost var left := metrics;
    while todo != {}
      invariant todo == left.Keys && left.Keys <= metrics.Keys && forall k <- left :: left[k] == metrics[k]
      invariant total + Total(left) == Total(metrics)
    {
      var k := Next(todo);
      TotalWithout(left, k);
      total := total + metrics[k];
      todo := todo - {k};
      left := left - {k};
    }
  }

  method SumRequests(pods: seq<Pod>, metrics: Metrics) returns (total: int)
    ensures total == Requests(pods, metrics.Keys)
  {
    total := 0;
    for i := 0 to |pods|
      invariant total == Requests(pods[..i], metrics.Keys)
    {
      assert pods[..i + 1][..i] == pods[..i];
      if pods[i].name in metrics {
        total := total + pods[i].request;
      }
    }
    assert pods[..|pods|] == pods;
  }

  // ---------- which pods count ----------

  function NamesOf(pods: seq<Pod>): set<string> {
    if pods == [] then {} else NamesOf(pods[..|pods| - 1]) + {pods[|pods| - 1].name}
  }

  predicate DistinctNames(pods: seq<Pod>) {
    pods == [] || (DistinctNames(pods[..|pods| - 1]) && pods[|pods| - 1].name !in NamesOf(pods[..|pods| - 1]))
  }

  lemma {:induction false} MemberIsNamed(pods: seq<Pod>, p: Pod)
    requires p in pods
    ensures p.name in NamesOf(pods)
  {
    var n := |pods| - 1;
    if pods[n] != p {
      MemberIsNamed(pods[..n], p);
    }
  }

  predicate Unready(p: PodStatus) { p.phase == Failed || p.ready != Some(true) }

  /** The metrics of usable pods, and the pods without metrics. */
  datatype Filter = Filter(metrics: Metrics, missing: seq<Pod>)

  function Filtered(metrics: Metrics, pods: seq<Pod>): Option<Filter> {
    if pods == [] then Some(Filter(metrics, []))
    else
      var p := pods[|pods| - 1];
      match Filtered(metrics, pods[..|pods| - 1])
      case None => None
      case Some(f) =>
        if p.status.None? then None
        else if p.name !in f.metrics then Some(f.(missing := f.missing + [p]))
        else if Unready(p.status.value) then Some(f.(metrics := f.metrics - {p.name}))
        else Some(f)
  }

  lemma {:induction false} FilteredPrefix(metrics: Metrics, pods: seq<Pod>, i: nat)
    requires i <= |pods| && Filtered(metrics, pods[..i]).None?
    ensures Filtered(metrics, pods).None?
    decreases |pods|
  {
    if i < |pods| {
      assert pods[..|pods| - 1][..i] == pods[..i];
      FilteredPrefix(metrics, pods[..|pods| - 1], i);
    } else {
      assert pods[..i] == pods;
    }
  }

  /** The pods without a metric, in order. */
  function Unmeasured(pods: seq<Pod>, measured: set<string>): seq<Pod> {
    if pods == [] then []
    else
      var last := pods[|pods| - 1];
      Unmeasured(pods[..|pods| - 1], measured) + if last.name in measured then [] else [last]
  }

  /** The metric of this name can be used: every listed pod of that name is ready and has not failed. */
  ghost predicate Usable(pods: seq<Pod>, name: string) {
    forall p <- pods :: p.name == name ==>
      p.status.Some? && p.status.value.phase != Failed && p.status.value.ready == Some(true)
  }

  lemma {:induction false} FilteredIs(metrics: Metrics, pods: seq<Pod>)
    ensures Filtered(metrics, pods).None? <==> exists p <- pods :: p.status.None?
    ensures Filtered(metrics, pods).Some? && DistinctNames(pods) ==>
              var f := Filtered(metrics, pods).value;
              && f.missing == Unmeasured(pods, metrics.Keys)
              && (forall k :: k in f.metrics <==> k in metrics && Usable(pods, k))
              && (forall k <- f.metrics :: f.metrics[k] == metrics[k])
  {
    if pods != [] {
      var n := |pods| - 1;
      var front, last := pods[..n], pods[n];
      assert pods == front + [last];
      FilteredIs(metrics, front);
      if Filtered(metrics, pods).Some? && DistinctNames(pods) {
        forall p | p in front ensures p.name != last.name { MemberIsNamed(front, p); }
        forall k ensures Usable(pods, k) <==>
          Usable(front, k)
            && (last.name == k ==> last.status.value.phase != Failed && last.status.value.ready == Some(true))
        {
          if Usable(pods, k) {
            forall p | p in front && p.name == k
              ensures p.status.Some? && p.status.value.phase != Failed && p.status.value.ready == Some(true)
            {
              assert p in pods;
            }
            assert last in pods;
          }
        }
        assert Usable(front, last.name);
      }
    }
  }

  method FilterPods(metrics: Metrics, pods: seq<Pod>) returns (f: Option<Filter>)
    ensures f == Filtered(metrics, pods)
    ensures f.None? <==> exists p <- pods :: p.status.None?
    ensures f.Some? && DistinctNames(pods) ==>
              && f.value.missing == Unmeasured(pods, metrics.Keys)
              && (forall k :: k in f.value.metrics <==> k in metrics && Usable(pods, k))
              && (forall k <- f.value.metrics :: f.value.metrics[k] == metrics[k])
  {
    FilteredIs(metrics, pods);
    hide Usable;
    var kept := metrics;
    var missing := [];
    for i := 0 to |pods|
      invariant Filtered(metrics, pods[..i]) == Some(Filter(kept, missing))
    {
      assert pods[..i + 1][..i] == pods[..i];
      var pod := pods[i];
      if pod.status.None? {
        FilteredPrefix(metrics, pods, i + 1);
        return None;
      }
      if pod.name !in kept {
        missing := missing + [pod];
      } else if Unready(pod.status.value) {
        kept := kept - {pod.name};
      }
    }
    assert pods[..|pods|] == pods;
    f := Some(Filter(kept, missing));
  }

  // ---------- ratios, filling and the decision ----------

  /** Measured use in percent of what the measured pods request, over the target. */
  ghost function UtilizationRatio(metrics: Metrics, pods: seq<Pod>, target: u32): F64 {
    var requested := Requests(pods, metrics.Keys);
    if requested == 0 then Finite(1.0)
    else Div((Total(metrics) * 100) as real / requested as real, target as real)
  }

  /** The truncated average over the target; no measured pod at all is a division by zero. */
  ghost function ValueRatio(metrics: Metrics, target: u64): Option<F64> {
    if |metrics| == 0 then None
    else if target == 0 then Some(Finite(1.0))
    else Some(Div(Trunc(Total(metrics), |metrics|) as real, target as real))
  }

  method CalcScaleRatioByUtilization(metrics: Metrics, pods: seq<Pod>, target: u32) returns (r: F64)
    ensures r == UtilizationRatio(metrics, pods, target)
  {
    var metricsTotal := SumValues(metrics);
    var requestsTotal := SumRequests(pods, metrics);
    if requestsTotal == 0 {
      return Finite(1.0);
    }
    r := Div((metricsTotal * 100) as real / requestsTotal as real, target as real);
  }

  method CalcScaleRatioByValue(metrics: Metrics, target: u64) returns (r: Option<F64>)
    ensures r == ValueRatio(metrics, target)
  {
    var metricsTotal := SumValues(metrics);
    if |metrics| == 0 {
      return None;
    }
    var current := Trunc(metricsTotal, |metrics|);
    if target == 0 {
      return Some(Finite(1.0));
    }
    r := Some(Div(current as real, target as real));
  }

  /** What a missing pod is taken to use when scaling down: what it requests, or the target cast to `i64`. */
  datatype Fill = AsRequested | AtTarget(value: int)

  function Amount(pod: Pod, ratio: F64, fill: Fill): int {
    if !Below(ratio, 1.0) then 0 else if fill.AsRequested? then pod.request else fill.value
  }

  /** The metrics with an entry for every missing pod; when not scaling down, these use nothing. */
  function Filled(metrics: Metrics, missing: seq<Pod>, ratio: F64, fill: Fill): Metrics {
    if missing == [] then metrics
    else
      var last := missing[|missing| - 1];
      Filled(metrics, missing[..|missing| - 1], ratio, fill)[last.name := Amount(last, ratio, fill)]
  }

  /** The count for a filled ratio over `n` entries, unless it contradicts the direction of either ratio. */
  function Decide(current: u32, ratio: F64, newRatio: F64, n: nat): u32 {
    var new_ := CeilU32(Times(newRatio, n));
    if (Above(newRatio, 1.0) && (Below(ratio, 1.0) || new_ < current))
       || (Below(newRatio, 1.0) && (Above(ratio, 1.0) || new_ > current))
    then current else new_
  }

  ghost function ByUtilization(current: u32, target: u32, metrics: Metrics, pods: seq<Pod>): Calculated {
    if pods == [] then Error
    else match Filtered(metrics, pods)
      case None => Error
      case Some(f) =>
        var ratio := UtilizationRatio(f.metrics, pods, target);
        var filled := Filled(f.metrics, f.missing, ratio, AsRequested);
        Replicas(Decide(current, ratio, UtilizationRatio(filled, pods, target), |filled|))
  }

  ghost function ByValue(current: u32, target: u64, metrics: Metrics, pods: seq<Pod>): Calculated {
    if pods == [] then Error
    else match Filtered(metrics, pods)
      case None => Error
      case Some(f) =>
        match ValueRatio(f.metrics, target)
        case None => Panic
        case Some(ratio) =>
          var filled := Filled(f.metrics, f.missing, ratio, AtTarget(AsI64(target)));
          match ValueRatio(filled, target)
          case None => Panic
          case Some(newRatio) => Replicas(Decide(current, ratio, newRatio, |filled|))
  }

  method CalcReplicasByUtilization(current: u32, target: u32, measured: Metrics, pods: seq<Pod>) returns (r: Calculated)
    ensures r == ByUtilization(current, target, measured, pods)
  {
    if pods == [] {
      return Error;
    }
    var f := FilterPods(measured, pods);
    if f.None? {
      return Error;
    }
    var metrics, missing := f.value.metrics, f.value.missing;
    var ratio := CalcScaleRatioByUtilization(metrics, pods, target);
    for i := 0 to |missing|
      invariant metrics == Filled(f.value.metrics, missing[..i], ratio, AsRequested)
    {
      assert missing[..i + 1][..i] == missing[..i];
      metrics := metrics[missing[i].name := if Below(ratio, 1.0) then missing[i].request else 0];
    }
    assert missing[..|missing|] == missing;
    var newRatio := CalcScaleRatioByUtilization(metrics, pods, target);
    r := Replicas(Decide(current, ratio, newRatio, |metrics|));
  }

  method CalcReplicasByValue(current: u32, target: u64, measured: Metrics, pods: seq<Pod>) returns (r: Calculated)
    ensures r == ByValue(current, target, measured, pods)
  {
    if pods == [] {
      return Error;
    }
    var f := FilterPods(measured, pods);
    if f.None? {
      return Error;
    }
    var metrics, missing := f.value.metrics, f.value.missing;
    var first := CalcScaleRatioByValue(metrics, target);
    if first.None? {
      return Panic;
    }
    var ratio := first.value;
    for i := 0 to |missing|
      invariant metrics == Filled(f.value.metrics, missing[..i], ratio, AtTarget(AsI64(target)))
    {
      assert missing[..i + 1][..i] == missing[..i];
      metrics := metrics[missing[i].name := if Below(ratio, 1.0) then AsI64(target) else 0];
    }
    assert missing[..|missing|] == missing;
    var second := CalcScaleRatioByValue(metrics, target);
    if second.None? {
      return Panic;
    }
    r := Replicas(Decide(current, ratio, second.value, |metrics|));
  }

  /** Queries per second: the truncated share of each replica over the target, times the replicas. */
  function ByFunction(current: u32, target: u64, total: int): Calculated {
    if current == 0 then Panic
    else Replicas(CeilU32(Times(Div(Trunc(total, current) as real, target as real), current)))
  }

  /** With a positive target and non-negative load, the count is the least that brings the load, less
      what truncation drops, down to the target, if any count does. */
  lemma FunctionReplicasFit(current: u32, target: u64, total: int)
    requires current > 0 && target > 0 && total >= 0
    ensures ByFunction(current, target, total).Replicas?
    ensures var served, n := current * (total / current), ByFunction(current, target, total).n;
      && (forall m: u32 :: m * target >= served ==> n <= m)
      && (U32_MAX * target >= served ==> n * target >= served)
  {
    var share := total / current;
    NonNegative(total, current);
    ShareTimes(share, current, target);
    CeilIsLeast(current * share, target);
    var c := Ceil((current * share) as real / target as real);
    assert CeilU32(Finite((current * share) as real / target as real)) == if c > U32_MAX then U32_MAX else c;
    hide Ceil;
    assert ByFunction(current, target, total).n == if c > U32_MAX then U32_MAX else c;
  }

  lemma NonNegative(total: int, n: int)
    requires total >= 0 && n > 0
    ensures total / n >= 0 && n * (total / n) >= 0
  {
  }

  lemma ShareTimes(share: int, n: int, target: int)
    requires target > 0
    ensures share as real / target as real * n as real == (n * share) as real / target as real
  {
    var a, b, c := share as real, n as real, target as real;
    assert (n * share) as real == b * a;
    assert a / c * b == (b * a) / c by { Quotients(a, b, c); }
  }

  lemma Quotients(a: real, b: real, c: real)
    requires c != 0.0
    ensures a / c * b == (b * a) / c
  {
    var q := a / c;
    assert q * c == a;
    assert (q * b) * c == b * a;
  }

  lemma TimesMonotone(x: real, y: real, z: real)
    requires z > 0.0
    ensures x <= y <==> x * z <= y * z
    ensures x < y <==> x * z < y * z
  {
    if x < y {
      assert (y - x) * z > 0.0;
    } else if y < x {
      assert (x - y) * z > 0.0;
    }
  }

  lemma CeilBound(a: int, b: int, m: int)
    requires b > 0
    ensures m * b >= a <==> Ceil(a as real / b as real) <= m
  {
    var x := a as real / b as real;
    TimesMonotone(x, m as real, b as real);
    assert x * b as real == a as real;
    assert (m * b) as real == m as real * b as real;
    CeilBelow(x, m);
  }

  lemma CeilBelow(x: real, m: int)
    ensures Ceil(x) <= m <==> x <= m as real
  {
  }

  /** `Ceil(a / b)` is the least n with n * b >= a. */
  lemma CeilIsLeast(a: int, b: int)
    requires a >= 0 && b > 0
    ensures var n := Ceil(a as real / b as real); n >= 0 && n * b >= a
    ensures forall m: int :: m * b >= a <==> Ceil(a as real / b as real) <= m
  {
    var n := Ceil(a as real / b as real);
    CeilBound(a, b, n);
    hide Ceil;
    forall m: int ensures m * b >= a <==> n <= m {
      CeilBound(a, b, m);
    }
    if n < 0 {
      NegativeTimes(n, b);
      assert false;
    }
  }

  lemma NegativeTimes(n: int, b: int)
    requires n < 0 < b
    ensures n * b < 0
  {
  }
}
