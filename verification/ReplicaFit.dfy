/** How many replicas the calculator asks for, in whole numbers
    (controllers/src/podautoscaler/replica_calculator.rs). */
module ReplicaFit {
  import opened Common
  import opened ReplicaCalculator
  import opened ReplicaDamping
  import opened ValueDamping
  import opened ScaleDirection

  /** The least count c with c * each >= load, or the largest there is if none is enough. */
  ghost predicate Least(c: u32, each: int, load: int) {
    && (c == U32_MAX || Product(c, each) >= load)
    && forall m: u32 :: Product(m, each) >= load ==> c <= m
  }

  lemma CeilIsLeastCount(load: int, each: int)
    requires each > 0
    ensures Least(CeilU32(Finite(load as real / each as real)), each, load)
  {
    var c := CeilU32(Finite(load as real / each as real));
    forall m: u32 ensures Product(m, each) >= load <==> Ceil(load as real / each as real) <= m {
      CeilBound(load, each, m);
    }
    hide Ceil, Product;
  }

  /** a/b/t times n is (a * n)/(b * t). */
  lemma QuotientTimes(a: int, b: int, t: int, n: nat)
    requires b > 0 && t > 0
    ensures Product(b, t) > 0
    ensures a as real / b as real / t as real * n as real == Product(a, n) as real / Product(b, t) as real
  {
    var x, y, z, k := a as real, b as real, t as real, n as real;
    var q := x / y / z;
    assert q * z == x / y;
    assert x / y * y == x;
    assert q * (y * z) == x by { assert q * (y * z) == (q * z) * y; }
    assert (q * k) * (y * z) == x * k by { assert (q * k) * (y * z) == (q * (y * z)) * k; }
    assert Product(b, t) as real == y * z && Product(a, n) as real == x * k;
    SameQuotient(q * k, x * k, y * z);
  }

  lemma SameQuotient(q: real, a: real, b: real)
    requires b != 0.0 && q * b == a
    ensures q == a / b
  {
  }

  /** In utilization mode the count is the least that brings the filled use down to the target, but never
      against the direction of the filled use, and the current one if the measured use lies on the other side
      of the target; without any requests it is the number of pods. */
  lemma UtilizationFits(count: u32, target: u32, metrics: Metrics, pods: seq<Pod>) returns (least: u32)
    requires pods != [] && DistinctNames(pods) && (forall p <- pods :: p.request >= 0)
    requires Filtered(metrics, pods).Some? && target > 0
    ensures
      var f := Filtered(metrics, pods).value;
      var n, used, requested := |f.metrics| + |f.missing|, Total(f.metrics), Requests(pods, f.metrics.Keys);
      var missing := RequestsOf(f.missing);
      ByUtilization(count, target, metrics, pods) ==
        Replicas(Fitting(count, least, used, requested, missing, target, n))
      && (requested + missing > 0 ==>
           Least(least, Product(requested + missing, target),
                 Product(FilledUse(used, requested, missing, target) * 100, n)))
  {
    hide Total, Requests, RequestsOf, Filtered, UtilizationRatio, DistinctNames, Decide, ByUtilization, Over, Least,
      CeilU32;
    var f := Filtered(metrics, pods).value;
    SumsNonNegative(metrics, pods);
    UtilizationIs(count, target, metrics, pods);
    least := FitsOver(count, Total(f.metrics), Requests(pods, f.metrics.Keys), RequestsOf(f.missing), target,
      |f.metrics| + |f.missing|);
  }

  /** What is taken to be used once the missing pods are filled in. */
  function FilledUse(used: int, requested: int, missing: int, target: int): int {
    if requested > 0 && used * 100 < requested * target then used + missing else used
  }

  function Fitting(count: u32, least: u32, used: int, requested: int, missing: int, target: int, n: nat): u32 {
    var use := FilledUse(used, requested, missing, target) * 100;
    if requested + missing == 0 then Min(n, U32_MAX)
    else if use > (requested + missing) * target then
      if requested > 0 && used * 100 < requested * target then count else Max(count, least)
    else if use < (requested + missing) * target then
      if requested > 0 && used * 100 > requested * target then count else Min(count, least)
    else Min(n, U32_MAX)
  }

  lemma OverSide(m: int, r: int, t: int)
    requires r >= 0 && t > 0
    ensures Over(m, r, t).Finite?
    ensures Below(Over(m, r, t), 1.0) <==> r > 0 && m * 100 < r * t
    ensures Above(Over(m, r, t), 1.0) <==> r > 0 && m * 100 > r * t
    ensures r == 0 ==> Over(m, r, t) == Finite(1.0)
  {
    if r > 0 {
      RatioOrder(m * 100, r, t, 1, t);
      RatioOrder(t, 1, m * 100, r, t);
      assert t as real / 1.0 == t as real && t as real / t as real == 1.0;
    }
  }

  lemma FitsOver(count: u32, m: int, r: int, q: int, t: u32, n: nat) returns (least: u32)
    requires r >= 0 && q >= 0 && t > 0
    ensures var ratio := Over(m, r, t);
      Decide(count, ratio, Over(m + if Below(ratio, 1.0) then q else 0, r + q, t), n) ==
        Fitting(count, least, m, r, q, t, n)
    ensures r + q > 0 ==> Least(least, Product(r + q, t), Product(FilledUse(m, r, q, t) * 100, n))
  {
    var use := FilledUse(m, r, q, t);
    least := LeastOver(use, r + q, t, n);
    OverSide(m, r, t);
    OverSide(use, r + q, t);
    hide Over, Decide, CeilU32, Least, Product;
    assert r + q > 0 ==> Least(least, Product(r + q, t), Product(use * 100, n));
    DecisionKeepsDirection(count, Over(m, r, t), Over(use, r + q, t), n);
  }

  lemma LeastOver(m: int, r: int, t: u32, n: nat) returns (least: u32)
    requires r >= 0 && t > 0
    ensures r > 0 ==>
      least == CeilU32(Times(Over(m, r, t), n)) && Least(least, Product(r, t), Product(m * 100, n))
    ensures r == 0 ==> least == 0
  {
    hide Least, CeilU32, Product;
    least := 0;
    if r > 0 {
      QuotientTimes(m * 100, r, t, n);
      CeilIsLeastCount(Product(m * 100, n), Product(r, t));
      assert Over(m, r, t) == Finite((m * 100) as real / r as real / t as real);
      assert Times(Over(m, r, t), n) == Finite(Product(m * 100, n) as real / Product(r, t) as real);
      least := CeilU32(Times(Over(m, r, t), n));
    }
  }

  /** In value mode it is the least that brings the truncated average of the filled values, times the number
      of pods, down to the target, with the same exceptions. */
  lemma ValueFits(count: u32, target: u64, metrics: Metrics, pods: seq<Pod>) returns (least: u32)
    requires pods != [] && DistinctNames(pods) && target > 0
    requires Filtered(metrics, pods).Some? && Filtered(metrics, pods).value.metrics != map[]
    ensures
      var f := Filtered(metrics, pods).value;
      var k, n, used := |f.metrics|, |f.metrics| + |f.missing|, Total(f.metrics);
      k > 0 &&
      var measured := Trunc(used, k);
      var filled := Trunc(used + if measured < target then Product(|f.missing|, AsI64(target)) else 0, n);
      && Least(least, target, Product(filled, n))
      && ByValue(count, target, metrics, pods) == Replicas(
           if filled > target then if measured < target then count else Max(count, least)
           else if filled < target then if measured > target then count else Min(count, least)
           else Min(n, U32_MAX))
  {
    hide Total, Filtered, ValueRatio, DistinctNames, Decide, ByValue, MeanRatio, Product, Trunc, AsI64, Least, CeilU32;
    var f := Filtered(metrics, pods).value;
    NotEmpty(f.metrics);
    ValueIs(count, target, metrics, pods);
    least := FitsMean(count, Total(f.metrics), |f.metrics|, |f.missing|, target);
  }

  lemma FitsMean(count: u32, m: int, k: int, missing: nat, t: u64) returns (least: u32)
    requires k > 0 && t > 0
    ensures
      var ratio, n := MeanRatio(m, k, t), k + missing;
      var measured := Trunc(m, k);
      var filled := Trunc(m + if measured < t then Product(missing, AsI64(t)) else 0, n);
      && Least(least, t, Product(filled, n))
      && Decide(count, ratio, MeanRatio(m + if Below(ratio, 1.0) then Product(missing, AsI64(t)) else 0, n, t), n) ==
           if filled > t then if measured < t then count else Max(count, least)
           else if filled < t then if measured > t then count else Min(count, least)
           else Min(n, U32_MAX)
  {
    hide Decide, Trunc, Product, AsI64, Least, CeilU32;
    var measured, n := Trunc(m, k), k + missing;
    var filled := Trunc(m + if measured < t then Product(missing, AsI64(t)) else 0, n);
    MeanSide(measured, t);
    MeanSide(filled, t);
    least := LeastMean(filled, t, n);
    DecisionKeepsDirection(count, Div(measured as real, t as real), Div(filled as real, t as real), n);
  }

  lemma MeanSide(v: int, t: int)
    requires t > 0
    ensures var x := Div(v as real, t as real);
      && x.Finite? && (Below(x, 1.0) <==> v < t) && (Above(x, 1.0) <==> v > t) && (x == Finite(1.0) <==> v == t)
  {
    OverTarget(v, t);
    IsOne(v, t);
  }

  lemma LeastMean(v: int, t: int, n: nat) returns (least: u32)
    requires t > 0
    ensures least == CeilU32(Times(Div(v as real, t as real), n)) && Least(least, t, Product(v, n))
  {
    Quotients(v as real, n as real, t as real);
    assert Product(v, n) as real == n as real * v as real;
    CeilIsLeastCount(Product(v, n), t);
    least := CeilU32(Times(Div(v as real, t as real), n));
  }
}
