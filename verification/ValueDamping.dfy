/** Filling in the pods that have no metrics in value mode
    (controllers/src/podautoscaler/replica_calculator.rs). */
module ValueDamping {
  import opened Common
  import opened ReplicaCalculator
  import opened ReplicaDamping

  lemma TruncOrder(a: int, b: int, n: int, d: int)
    requires n > 0 && d > 0 && a * d <= b * n
    ensures Trunc(a, n) <= Trunc(b, d)
  {
    if a >= 0 {
      FloorOrder(a, n, b, d);
      BothSides(a, b, n, d);
    } else if b < 0 {
      assert -b * n <= -a * d by { assert -b * n == -(b * n) && -a * d == -(a * d); }
      FloorOrder(-b, d, -a, n);
    } else {
      DivNonNegative(b, d);
      DivNonNegative(-a, n);
    }
  }

  lemma BothSides(a: int, b: int, n: int, d: int)
    requires n > 0 && d > 0 && a >= 0 && a * d <= b * n
    ensures b >= 0
  {
    Scale(0, a, d);
    Cancel(0, b, n);
  }

  lemma DivNonNegative(a: int, n: int)
    requires a >= 0 && n > 0
    ensures a / n >= 0
  {
  }

  lemma FloorOrder(a: int, n: int, b: int, d: int)
    requires n > 0 && d > 0 && a * d <= b * n
    ensures a / n <= b / d
  {
    var x := a / n;
    FloorIs(x, a, n);
    Scale(x * n, a, d);
    assert x * n * d == x * d * n;
    Cancel(x * d, b, n);
    FloorIs(x, b, d);
  }

  lemma FloorIs(k: int, a: int, n: int)
    requires n > 0
    ensures k <= a / n <==> k * n <= a
  {
    var q := a / n;
    assert q * n <= a < q * n + n;
    if k <= q {
      Scale(k, q, n);
    } else {
      Scale(q + 1, k, n);
      assert (q + 1) * n == q * n + n;
    }
  }

  lemma Scale(x: int, y: int, z: int)
    requires x <= y && z > 0
    ensures x * z <= y * z
  {
  }

  lemma Cancel(x: int, y: int, z: int)
    requires x * z <= y * z && z > 0
    ensures x <= y
  {
    assert (y + 1) * z == y * z + z;
    if x > y {
      Scale(y + 1, x, z);
      assert false;
    }
  }

  function Average(m: int, n: int, t: int): F64
    requires n > 0
  {
    Div(Trunc(m, n) as real, t as real)
  }

  lemma IsAverage(metrics: Metrics, target: u64)
    requires |metrics| > 0
    ensures ValueRatio(metrics, target) ==
      Some(if target == 0 then Finite(1.0) else Average(Total(metrics), |metrics|, target))
  {
  }

  /** Whether a sum `x` over `d` pods has a truncated average of at least `v`. */
  predicate Reaches(v: int, x: int, d: int) {
    if v > 0 then v * d <= x else (v - 1) * d < x
  }

  lemma TruncReaches(v: int, x: int, d: int)
    requires d > 0
    ensures v <= Trunc(x, d) <==> Reaches(v, x, d)
  {
    if x >= 0 {
      FloorIs(v, x, d);
      DivNonNegative(x, d);
      if v <= 0 { Scale(v - 1, -1, d); }
    } else {
      FloorIs(1 - v, -x, d);
      DivNonNegative(-x, d);
      Negated(v, d);
      if v > 0 { Scale(1, v, d); }
    }
  }

  lemma Negated(v: int, d: int)
    ensures (1 - v) * d == -((v - 1) * d)
  {
  }

  /** In value mode filling damps if and only if the target survives its cast, the ratio is not below 1, or
      the filled sum still reaches the measured average. */
  lemma {:induction false} ValueDampsIff(metrics: Metrics, missing: seq<Pod>, target: u64)
    requires DistinctNames(missing) && NamesOf(missing) !! metrics.Keys && |metrics| > 0
    ensures var ratio := ValueRatio(metrics, target);
      && ratio.Some? && ratio.value.Finite?
      && var filled := ValueRatio(Filled(metrics, missing, ratio.value, AtTarget(AsI64(target))), target);
      && filled.Some? && filled.value.Finite?
      && (Damps(ratio.value, filled.value) <==>
           || target <= I64_MAX || !Below(ratio.value, 1.0)
           || Reaches(Trunc(Total(metrics), |metrics|), Total(metrics) + Product(|missing|, AsI64(target)),
             |metrics| + |missing|))
  {
    hide Total, AmountsOf, Filled, Below, Damps, Average, ValueRatio, DistinctNames, NamesOf, Product, Reaches, Trunc,
      AsI64;
    IsAverage(metrics, target);
    var ratio := ValueRatio(metrics, target).value;
    FilledSums(metrics, missing, ratio, AtTarget(AsI64(target)));
    AmountsAre(missing, ratio, AtTarget(AsI64(target)));
    IsAverage(Filled(metrics, missing, ratio, AtTarget(AsI64(target))), target);
    if target > 0 {
      AverageDampsIff(Total(metrics), |metrics|, |missing|, target);
    } else {
      OneDamps();
    }
  }

  lemma OneDamps()
    ensures Damps(Finite(1.0), Finite(1.0))
  {
  }

  /** m in use by n pods, and another k pods without metrics. */
  lemma AverageDampsIff(m: int, n: int, k: int, t: u64)
    requires n > 0 && k >= 0 && t > 0
    ensures var before := Average(m, n, t);
      var after := Average(m + if Below(before, 1.0) then Product(k, AsI64(t)) else 0, n + k, t);
      && before.Finite? && after.Finite?
      && (Damps(before, after) <==>
           t <= I64_MAX || !Below(before, 1.0) || Reaches(Trunc(m, n), m + Product(k, AsI64(t)), n + k))
  {
    OverTarget(Trunc(m, n), t);
    if Trunc(m, n) < t {
      TruncReaches(Trunc(m, n), m + Product(k, AsI64(t)), n + k);
      if t <= I64_MAX {
        AverageUp(m, n, k, t);
      }
      hide Trunc, Product, AsI64, Reaches;
      OverTargetOrder(Trunc(m, n), Trunc(m + Product(k, AsI64(t)), n + k), t);
    } else {
      AverageDown(m, n, k, t);
      hide Trunc, Product, AsI64, Reaches;
      OverTargetOrder(Trunc(m, n + k), Trunc(m, n), t);
    }
  }

  /** So it damps for every target up to the largest `i64`, whatever the sign of the measurements. */
  lemma {:induction false} ValueDamps(metrics: Metrics, missing: seq<Pod>, target: u64)
    requires DistinctNames(missing) && NamesOf(missing) !! metrics.Keys && |metrics| > 0 && target <= I64_MAX
    ensures var ratio := ValueRatio(metrics, target);
      && ratio.Some? && ratio.value.Finite?
      && var filled := ValueRatio(Filled(metrics, missing, ratio.value, AtTarget(AsI64(target))), target);
      filled.Some? && filled.value.Finite? && Damps(ratio.value, filled.value)
  {
    ValueDampsIff(metrics, missing, target);
    hide Reaches, Damps, ValueRatio, Filled;
  }

  /** A larger target is negative after the cast: with one pod at 10 and another missing, a target of 2^63
      turns a ratio just above 0 into one below 0. */
  lemma HugeTargetAmplifies(a: string, metrics: Metrics, missing: seq<Pod>)
    requires metrics == map[a := 10] && |missing| == 1 && NamesOf(missing) !! metrics.Keys
    ensures var target: u64 := 0x8000_0000_0000_0000;
      var ratio := ValueRatio(metrics, target);
      && ratio.Some? && ratio.value.Finite? && Below(ratio.value, 1.0)
      && var filled := ValueRatio(Filled(metrics, missing, ratio.value, AtTarget(AsI64(target))), target);
      filled.Some? && filled.value.Finite? && !Damps(ratio.value, filled.value)
  {
    var target: u64 := 0x8000_0000_0000_0000;
    assert DistinctNames(missing);
    TotalWith(map[], a, 10);
    assert metrics == map[][a := 10];
    SizeWith(map[], a, 10);
    ValueDampsIff(metrics, missing, target);
    IsAverage(metrics, target);
    OverTarget(10, target);
    hide Damps, ValueRatio, Filled, DistinctNames, NamesOf, Total;
  }

  lemma OverTarget(v: int, t: int)
    requires t > 0
    ensures Div(v as real, t as real).Finite?
    ensures Below(Div(v as real, t as real), 1.0) <==> v < t
  {
    TimesMonotone(1.0, v as real / t as real, t as real);
    TimesMonotone(v as real / t as real, 1.0, t as real);
    assert v as real / t as real * t as real == v as real;
  }

  lemma OverTargetOrder(v: int, w: int, t: int)
    requires t > 0
    ensures v as real / t as real <= w as real / t as real <==> v <= w
  {
    var x, y := v as real / t as real, w as real / t as real;
    TimesMonotone(x, y, t as real);
    assert x * t as real == v as real && y * t as real == w as real;
  }

  /** Joining k pods at the target raises a truncated average below it. */
  lemma AverageUp(m: int, n: int, k: int, t: int)
    requires n > 0 && k >= 0 && t > 0 && Trunc(m, n) < t
    ensures Trunc(m, n) <= Trunc(m + Product(k, t), n + k)
  {
    BelowTarget(m, n, t);
    assert (m + k * t) * n - m * (n + k) == k * (t * n - m);
    assert k * (t * n - m) >= 0;
    TruncOrder(m, m + k * t, n, n + k);
  }

  lemma BelowTarget(m: int, n: int, t: int)
    requires n > 0 && t > 0 && Trunc(m, n) < t
    ensures m <= t * n
  {
    if m > t * n {
      Scale(0, t, n);
      FloorIs(t, m, n);
      assert false;
    }
  }

  /** Joining k pods at zero lowers a truncated average that is at least the target. */
  lemma AverageDown(m: int, n: int, k: int, t: int)
    requires n > 0 && k >= 0 && t > 0 && Trunc(m, n) >= t
    ensures Trunc(m, n + k) <= Trunc(m, n)
  {
    if m < 0 {
      DivNonNegative(-m, n);
      assert false;
    }
    assert m * (n + k) - m * n == m * k;
    assert m * k >= 0;
    TruncOrder(m, m, n + k, n);
  }
}
