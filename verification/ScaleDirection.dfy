/** The replica count against the direction of the measured ratio
    (controllers/src/podautoscaler/replica_calculator.rs). */
module ScaleDirection {
  import opened Common
  import opened ReplicaCalculator
  import opened ReplicaDamping
  import opened ValueDamping

  /** The count never moves against the direction of either ratio; it is what the filled ratio asks for
      when that is exactly 1, and the current count when the two ratios are strictly opposed. */
  lemma DecisionKeepsDirection(count: u32, ratio: F64, filled: F64, n: nat)
    ensures var r := Decide(count, ratio, filled, n);
      && (Above(filled, 1.0) ==> r == if Below(ratio, 1.0) then count else Max(count, CeilU32(Times(filled, n))))
      && (Below(filled, 1.0) ==> r == if Above(ratio, 1.0) then count else Min(count, CeilU32(Times(filled, n))))
      && (filled == Finite(1.0) ==> r == Min(n, U32_MAX))
      && (filled == NaN ==> r == 0)
  {
  }

  /** Pods whose measured use is below the target are scaled up exactly if the filled ratio is 1 and there are
      more pods than replicas; pods whose measured use is above it are scaled down exactly in the dual case,
      and when the filled ratio is no number. */
  lemma MeasuredDirectionWins(count: u32, ratio: F64, filled: F64, n: nat)
    ensures Below(ratio, 1.0) ==>
      (Decide(count, ratio, filled, n) > count <==> filled == Finite(1.0) && Min(n, U32_MAX) > count)
    ensures Above(ratio, 1.0) ==>
      (Decide(count, ratio, filled, n) < count <==>
        (filled == Finite(1.0) && n < count) || (filled == NaN && 0 < count))
  {
    DecisionKeepsDirection(count, ratio, filled, n);
  }

  // ---------- utilization mode ----------

  /** In utilization mode the count moves against the measured ratio exactly if the filled use meets the
      target to the unit and the number of pods lies beyond the count. */
  lemma UtilizationDirection(count: u32, target: u32, metrics: Metrics, pods: seq<Pod>)
    requires pods != [] && DistinctNames(pods) && (forall p <- pods :: p.request >= 0)
    requires Filtered(metrics, pods).Some?
    ensures ByUtilization(count, target, metrics, pods).Replicas?
    ensures
      var f, count' := Filtered(metrics, pods).value, ByUtilization(count, target, metrics, pods).n;
      var ratio, n := UtilizationRatio(f.metrics, pods, target), |f.metrics| + |f.missing|;
      var used, requested, missing := Total(f.metrics), Requests(pods, f.metrics.Keys), RequestsOf(f.missing);
      && (Below(ratio, 1.0) ==>
           (count' > count <==>
             target > 0 && (used + missing) * 100 == (requested + missing) * target && Min(n, U32_MAX) > count))
      && (Above(ratio, 1.0) ==>
           (count' < count <==> target > 0 && used * 100 == (requested + missing) * target && n < count))
  {
    hide Total, Requests, RequestsOf, Filtered, UtilizationRatio, DistinctNames, Apart, Decide, ByUtilization, Over;
    var f := Filtered(metrics, pods).value;
    SumsNonNegative(metrics, pods);
    UtilizationIs(count, target, metrics, pods);
    OverDirection(count, Total(f.metrics), Requests(pods, f.metrics.Keys), RequestsOf(f.missing), target,
      |f.metrics| + |f.missing|);
  }

  lemma OverDirection(count: u32, m: int, r: int, q: int, t: u32, n: nat)
    requires r >= 0 && q >= 0
    ensures var ratio := Over(m, r, t);
      && (Below(ratio, 1.0) ==>
           (Decide(count, ratio, Over(m + q, r + q, t), n) > count <==>
             t > 0 && (m + q) * 100 == (r + q) * t && Min(n, U32_MAX) > count))
      && (Above(ratio, 1.0) ==>
           (Decide(count, ratio, Over(m, r + q, t), n) < count <==> t > 0 && m * 100 == (r + q) * t && n < count))
  {
    hide Over, Decide;
    var ratio := Over(m, r, t);
    NotOneMeansRequests(m, r, t);
    if r > 0 {
      MeasuredDirectionWins(count, ratio, Over(m + q, r + q, t), n);
      MeasuredDirectionWins(count, ratio, Over(m, r + q, t), n);
      ExactlyOne(m + q, r + q, t);
      ExactlyOne(m, r + q, t);
    }
  }

  lemma NotOneMeansRequests(m: int, r: int, t: u32)
    requires r >= 0
    ensures Below(Over(m, r, t), 1.0) || Above(Over(m, r, t), 1.0) ==> r > 0
    ensures Above(Over(m, r, t), 1.0) ==> m > 0
  {
    if r > 0 && m <= 0 {
      NotAbove(m, r, t);
    }
  }

  lemma NotAbove(m: int, r: int, t: u32)
    requires r > 0 && m <= 0
    ensures !Above(Over(m, r, t), 1.0)
  {
    TimesMonotone(0.0, (m * 100) as real / r as real, r as real);
    assert (m * 100) as real / r as real * r as real == (m * 100) as real;
    if t > 0 {
      RatioOrder(m * 100, r, 0, 1, t);
    }
  }

  lemma ExactlyOne(m: int, r: int, t: u32)
    requires r > 0
    ensures Over(m, r, t) == Finite(1.0) <==> t > 0 && m * 100 == r * t
    ensures Over(m, r, t) == NaN ==> t == 0 && m == 0
  {
    if t > 0 {
      RatioOrder(m * 100, r, t, 1, t);
      RatioOrder(t, 1, m * 100, r, t);
      assert t as real / 1.0 == t as real && t as real / t as real == 1.0;
    } else {
      OverZero(m * 100, r);
    }
  }

  // ---------- value mode ----------

  /** In value mode it does exactly if the truncated average of the filled values is the target. */
  lemma {:induction false} ValueDirection(count: u32, target: u64, metrics: Metrics, pods: seq<Pod>)
    requires pods != [] && DistinctNames(pods)
    requires Filtered(metrics, pods).Some? && Filtered(metrics, pods).value.metrics != map[]
    ensures ByValue(count, target, metrics, pods).Replicas?
    ensures
      var f, count' := Filtered(metrics, pods).value, ByValue(count, target, metrics, pods).n;
      var ratio, n := ValueRatio(f.metrics, target).value, |f.metrics| + |f.missing|;
      && (Below(ratio, 1.0) ==>
           (count' > count <==>
             Trunc(Total(f.metrics) + Product(|f.missing|, AsI64(target)), n) == target && Min(n, U32_MAX) > count))
      && (Above(ratio, 1.0) ==> (count' < count <==> Trunc(Total(f.metrics), n) == target && n < count))
  {
    hide Total, Filtered, ValueRatio, DistinctNames, Decide, ByValue, MeanRatio, Product, Trunc, AsI64;
    var f := Filtered(metrics, pods).value;
    NotEmpty(f.metrics);
    ValueIs(count, target, metrics, pods);
    AverageDirection(count, Total(f.metrics), |f.metrics|, |f.missing|, target);
  }

  lemma {:induction false} ValueIs(count: u32, target: u64, metrics: Metrics, pods: seq<Pod>)
    requires pods != [] && DistinctNames(pods)
    requires Filtered(metrics, pods).Some? && |Filtered(metrics, pods).value.metrics| > 0
    ensures
      var f := Filtered(metrics, pods).value;
      var n, k := |f.metrics|, |f.missing|;
      var ratio := MeanRatio(Total(f.metrics), n, target);
      && ValueRatio(f.metrics, target) == Some(ratio)
      && ByValue(count, target, metrics, pods) == Replicas(
           Decide(count, ratio,
                  MeanRatio(Total(f.metrics) +
                    if Below(ratio, 1.0) then Product(k, AsI64(target)) else 0, n + k, target),
                  n + k))
  {
    hide Total, Filtered, Filled, ValueRatio, DistinctNames, NamesOf, Apart, Decide, Below, Product, AsI64, AmountsOf,
      Average;
    var f := Filtered(metrics, pods).value;
    FilteredApart(metrics, pods);
    ApartNames(f.metrics, f.missing, pods);
    IsAverage(f.metrics, target);
    var ratio := ValueRatio(f.metrics, target).value;
    FilledSums(f.metrics, f.missing, ratio, AtTarget(AsI64(target)));
    AmountsAre(f.missing, ratio, AtTarget(AsI64(target)));
    IsAverage(Filled(f.metrics, f.missing, ratio, AtTarget(AsI64(target))), target);
  }

  lemma NotEmpty(metrics: Metrics)
    requires metrics != map[]
    ensures |metrics| > 0
  {
  }

  lemma AverageDirection(count: u32, m: int, n: int, k: int, t: u64)
    requires n > 0 && k >= 0
    ensures var ratio, filled, cleared := MeanRatio(m, n, t), MeanRatio(m + Product(k, AsI64(t)), n + k, t),
      MeanRatio(m, n + k, t);
      && (Below(ratio, 1.0) ==>
           (Decide(count, ratio, filled, n + k) > count <==>
             Trunc(m + Product(k, AsI64(t)), n + k) == t && Min(n + k, U32_MAX) > count))
      && (Above(ratio, 1.0) ==>
        (Decide(count, ratio, cleared, n + k) < count <==> Trunc(m, n + k) == t && n + k < count))
  {
    hide Decide, Trunc, Product, AsI64;
    if t > 0 {
      var ratio := MeanRatio(m, n, t);
      MeasuredDirectionWins(count, ratio, MeanRatio(m + Product(k, AsI64(t)), n + k, t), n + k);
      MeasuredDirectionWins(count, ratio, MeanRatio(m, n + k, t), n + k);
      IsOne(Trunc(m + Product(k, AsI64(t)), n + k), t);
      IsOne(Trunc(m, n + k), t);
    }
  }

  function MeanRatio(m: int, n: int, t: int): F64
    requires n > 0
  {
    if t == 0 then Finite(1.0) else Average(m, n, t)
  }

  lemma IsOne(v: int, t: int)
    requires t > 0
    ensures Div(v as real, t as real) == Finite(1.0) <==> v == t
    ensures Div(v as real, t as real).Finite?
  {
    OverTargetOrder(v, t, t);
    OverTargetOrder(t, v, t);
    assert t as real / t as real == 1.0;
  }

  // ---------- an input ----------

  /** Pods that do nothing can be scaled up: one uses 0 of 100, another that requests 100 has no metrics yet,
      and the target is 50 percent. The measured ratio is 0, the filled one 1, and one replica becomes two. */
  lemma IdlePodsScaleUp(a: string, b: string, metrics: Metrics, missing: seq<Pod>, pods: seq<Pod>)
    requires a != b && metrics == map[a := 0]
    requires missing == [Pod(b, Some(PodStatus(Pending, None)), 100)]
    requires pods == [Pod(a, Some(PodStatus(Running, Some(true))), 100)] + missing
    ensures UtilizationRatio(metrics, pods, 50) == Finite(0.0)
    ensures ByUtilization(1, 50, metrics, pods) == Replicas(2)
  {
    hide Total, Requests, RequestsOf, Filled, UtilizationRatio, Apart, DistinctNames, Filtered, Decide, Over, NamesOf;
    PairFacts(a, 0, 100, b, 100, metrics, missing, pods);
    var ratio := UtilizationRatio(metrics, pods, 50);
    UtilizationOver(metrics, pods, 50);
    FilledFacts(metrics, missing, pods, ratio);
    UtilizationOver(Filled(metrics, missing, ratio, AsRequested), pods, 50);
    PairSize(a, 0, metrics, missing, ratio);
    FromOneToTwo();
  }

  lemma FromOneToTwo()
    ensures Over(0, 100, 50) == Finite(0.0) && Over(100, 200, 50) == Finite(1.0)
    ensures Decide(1, Finite(0.0), Finite(1.0), 2) == 2
  {
    assert Times(Finite(1.0), 2) == Finite(2.0);
    assert Ceil(2.0) == 2;
  }
}
