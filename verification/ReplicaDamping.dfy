/** Filling in the pods that have no metrics only damps scaling, and the decision never goes against
    the direction of the ratios (controllers/src/podautoscaler/replica_calculator.rs). */
module ReplicaDamping {
  import opened Common
  import opened ReplicaCalculator

  function RequestsOf(pods: seq<Pod>): int {
    if pods == [] then 0 else RequestsOf(pods[..|pods| - 1]) + pods[|pods| - 1].request
  }

  /** Filling never makes the ratio more extreme. */
  predicate Damps(before: F64, after: F64)
    requires before.Finite? && after.Finite?
  {
    if before.v < 1.0 then before.v <= after.v else after.v <= before.v
  }

  // ---------- what filtering leaves ----------

  /** The missing pods are some of the pods, each once, and have no metrics. */
  ghost predicate Apart(metrics: Metrics, missing: seq<Pod>, pods: seq<Pod>) {
    && DistinctNames(missing) && NamesOf(missing) !! metrics.Keys
    && (forall p <- missing :: p in pods)
  }

  lemma {:induction false} FilteredApart(metrics: Metrics, pods: seq<Pod>)
    requires DistinctNames(pods) && Filtered(metrics, pods).Some?
    ensures var f := Filtered(metrics, pods).value;
      Apart(f.metrics, f.missing, pods) && f.metrics.Keys <= metrics.Keys && NamesOf(f.missing) <= NamesOf(pods)
  {
    if pods != [] {
      var n := |pods| - 1;
      FilteredApart(metrics, pods[..n]);
      var f := Filtered(metrics, pods[..n]).value;
      forall p | p in f.missing ensures p in pods { assert p in pods[..n]; }
      assert (f.missing + [pods[n]])[..|f.missing|] == f.missing;
      assert pods[n] in pods;
    }
  }

  // ---------- what filling adds ----------

  lemma SizeWith(m: Metrics, k: string, v: int)
    requires k !in m
    ensures |m[k := v]| == |m| + 1
  {
    assert m[k := v].Keys == m.Keys + {k};
    assert |m[k := v].Keys| == |m[k := v]| && |m.Keys| == |m|;
  }

  lemma Grows(m: Metrics, k: string, v: int)
    requires k !in m
    ensures Total(m[k := v]) == Total(m) + v && |m[k := v]| == |m| + 1
  {
    TotalWith(m, k, v);
    SizeWith(m, k, v);
  }

  function Product(n: int, each: int): int { n * each }

  function AmountsOf(missing: seq<Pod>, ratio: F64, fill: Fill): int {
    if missing == [] then 0
    else AmountsOf(missing[..|missing| - 1], ratio, fill) + Amount(missing[|missing| - 1], ratio, fill)
  }

  lemma {:induction false} FilledKeys(metrics: Metrics, missing: seq<Pod>, ratio: F64, fill: Fill)
    ensures Filled(metrics, missing, ratio, fill).Keys == metrics.Keys + NamesOf(missing)
  {
    if missing != [] {
      FilledKeys(metrics, missing[..|missing| - 1], ratio, fill);
    }
  }

  lemma {:induction false} FilledSums(metrics: Metrics, missing: seq<Pod>, ratio: F64, fill: Fill)
    requires DistinctNames(missing) && NamesOf(missing) !! metrics.Keys
    ensures Total(Filled(metrics, missing, ratio, fill)) == Total(metrics) + AmountsOf(missing, ratio, fill)
    ensures |Filled(metrics, missing, ratio, fill)| == |metrics| + |missing|
  {
    hide Total, Amount;
    if missing != [] {
      var front, last := missing[..|missing| - 1], missing[|missing| - 1];
      FilledSums(metrics, front, ratio, fill);
      FilledKeys(metrics, front, ratio, fill);
      Grows(Filled(metrics, front, ratio, fill), last.name, Amount(last, ratio, fill));
    }
  }

  lemma {:induction false} AmountsAre(missing: seq<Pod>, ratio: F64, fill: Fill)
    ensures !Below(ratio, 1.0) ==> AmountsOf(missing, ratio, fill) == 0
    ensures Below(ratio, 1.0) && fill.AsRequested? ==> AmountsOf(missing, ratio, fill) == RequestsOf(missing)
    ensures Below(ratio, 1.0) && fill.AtTarget? ==> AmountsOf(missing, ratio, fill) == Product(|missing|, fill.value)
  {
    if missing != [] {
      AmountsAre(missing[..|missing| - 1], ratio, fill);
      if fill.AtTarget? {
        assert |missing| * fill.value == (|missing| - 1) * fill.value + fill.value;
      }
    }
  }

  lemma {:induction false} RequestsWith(pods: seq<Pod>, names: set<string>, p: Pod)
    requires DistinctNames(pods) && p in pods && p.name !in names
    ensures Requests(pods, names + {p.name}) == Requests(pods, names) + p.request
  {
    var n := |pods| - 1;
    if pods[n] == p {
      RequestsElsewhere(pods[..n], names, p.name);
    } else {
      assert p in pods[..n];
      MemberIsNamed(pods[..n], p);
      RequestsWith(pods[..n], names, p);
    }
  }

  lemma {:induction false} RequestsElsewhere(pods: seq<Pod>, names: set<string>, name: string)
    requires name !in NamesOf(pods)
    ensures Requests(pods, names + {name}) == Requests(pods, names)
  {
    if pods != [] {
      RequestsElsewhere(pods[..|pods| - 1], names, name);
    }
  }

  /** The missing pods add their requests to the requests of the measured ones. */
  lemma {:induction false} RequestsOfFilled(pods: seq<Pod>, metrics: Metrics, missing: seq<Pod>)
    requires DistinctNames(pods) && Apart(metrics, missing, pods)
    ensures Requests(pods, metrics.Keys + NamesOf(missing)) == Requests(pods, metrics.Keys) + RequestsOf(missing)
  {
    if missing == [] {
      assert metrics.Keys + NamesOf(missing) == metrics.Keys;
    } else {
      var n := |missing| - 1;
      var last := missing[n];
      assert forall p <- missing[..n] :: p in missing;
      RequestsOfFilled(pods, metrics, missing[..n]);
      assert metrics.Keys + NamesOf(missing) == metrics.Keys + NamesOf(missing[..n]) + {last.name};
      RequestsWith(pods, metrics.Keys + NamesOf(missing[..n]), last);
    }
  }

  lemma {:induction false} RequestsAreNonNegative(missing: seq<Pod>)
    requires forall p <- missing :: p.request >= 0
    ensures RequestsOf(missing) >= 0
  {
    if missing != [] {
      RequestsAreNonNegative(missing[..|missing| - 1]);
      assert missing[|missing| - 1] in missing;
    }
  }

  // ---------- comparing ratios ----------

  /** a/b/t <= c/d/t, cross-multiplied. */
  lemma RatioOrder(a: int, b: int, c: int, d: int, t: int)
    requires b > 0 && d > 0 && t > 0
    ensures a as real / b as real / t as real <= c as real / d as real / t as real <==> a * d <= c * b
  {
    var x, y := a as real / b as real, c as real / d as real;
    var u, v := x / t as real, y / t as real;
    TimesMonotone(u, v, t as real);
    assert u * t as real == x && v * t as real == y;
    TimesMonotone(x, y, b as real);
    assert x * b as real == a as real;
    TimesMonotone(x * b as real, y * b as real, d as real);
    assert y * d as real == c as real;
    assert y * b as real * d as real == y * d as real * b as real;
    assert a as real * d as real == (a * d) as real && c as real * b as real == (c * b) as real;
  }

  /** a/b/t < 1, cross-multiplied. */
  lemma RatioBelowOne(a: int, b: int, t: int)
    requires b > 0 && t > 0
    ensures a as real / b as real / t as real < 1.0 <==> a < b * t
  {
    RatioOrder(t, 1, a, b, t);
    assert t as real / 1.0 == t as real && t as real / t as real == 1.0;
  }

  function Quotient(a: int, b: int, t: int): F64
    requires b != 0 && t != 0
  {
    Finite(a as real / b as real / t as real)
  }

  lemma IsQuotient(metrics: Metrics, pods: seq<Pod>, target: u32)
    requires target > 0 && Requests(pods, metrics.Keys) != 0
    ensures UtilizationRatio(metrics, pods, target) ==
      Quotient(Total(metrics) * 100, Requests(pods, metrics.Keys), target)
  {
  }

  /** What filling does to the sums the ratio is made of. */
  lemma FilledFacts(metrics: Metrics, missing: seq<Pod>, pods: seq<Pod>, ratio: F64)
    requires DistinctNames(pods) && Apart(metrics, missing, pods)
    ensures var filled := Filled(metrics, missing, ratio, AsRequested);
      && Total(filled) == Total(metrics) + (if Below(ratio, 1.0) then RequestsOf(missing) else 0)
      && Requests(pods, filled.Keys) == Requests(pods, metrics.Keys) + RequestsOf(missing)
  {
    FilledSums(metrics, missing, ratio, AsRequested);
    FilledKeys(metrics, missing, ratio, AsRequested);
    AmountsAre(missing, ratio, AsRequested);
    RequestsOfFilled(pods, metrics, missing);
  }

  /** m of r in use, and another q requested by missing pods. */
  lemma QuotientDamps(m: int, r: int, q: int, t: int)
    requires r > 0 && q >= 0 && t > 0
    ensures var before := Quotient(m * 100, r, t);
      var after := Quotient((m + if Below(before, 1.0) then q else 0) * 100, r + q, t);
      Damps(before, after) <==> !Below(before, 1.0) || q == 0 || m <= r
  {
    RatioBelowOne(m * 100, r, t);
    if m * 100 < r * t {
      RatioOrder(m * 100, r, (m + q) * 100, r + q, t);
      CrossBelow(m, r, q);
    } else {
      RatioOrder(m * 100, r + q, m * 100, r, t);
      Positive(m, r, t);
      CrossAbove(m, r, q);
    }
  }

  /** What fills the ratio of pods that request nothing, taken for 1: m in use over the q of the missing pods. */
  lemma UnrequestedDamps(m: int, q: int, t: int)
    requires q > 0 && t > 0
    ensures Damps(Finite(1.0), Quotient(m * 100, q, t)) <==> m * 100 <= q * t
  {
    RatioOrder(m * 100, q, t, 1, t);
    assert t as real / 1.0 == t as real && t as real / t as real == 1.0;
  }

  /** Whether filling damps when m is in use by pods that request r, and the missing pods request q. */
  predicate DampingHolds(ratio: F64, m: int, r: int, q: int, target: u32) {
    || q == 0
    || if r == 0 then m * 100 <= q * target else !Below(ratio, 1.0) || m <= r
  }

  /** Filling damps the utilization ratio if and only if no missing pod requests anything, or the ratio is not
      below 1 or the measured pods use at most what they request; where these request nothing, and the ratio
      is taken for 1, their use must be within the target over the missing pods' requests instead. */
  lemma {:induction false} UtilizationDampsIff(metrics: Metrics, missing: seq<Pod>, pods: seq<Pod>, target: u32)
    requires DistinctNames(pods) && Apart(metrics, missing, pods) && (forall p <- pods :: p.request >= 0)
    requires target > 0
    ensures var ratio := UtilizationRatio(metrics, pods, target);
      var filled := UtilizationRatio(Filled(metrics, missing, ratio, AsRequested), pods, target);
      && ratio.Finite? && filled.Finite?
      && (Damps(ratio, filled) <==>
           DampingHolds(ratio, Total(metrics), Requests(pods, metrics.Keys), RequestsOf(missing), target))
  {
    hide Total, Requests, RequestsOf, Filled, UtilizationRatio, Below, Apart, DistinctNames, Damps, Over, DampingHolds;
    RequestsNonNegative(pods, metrics.Keys);
    MissingNonNegative(metrics, missing, pods);
    var ratio := UtilizationRatio(metrics, pods, target);
    var m, r, q := Total(metrics), Requests(pods, metrics.Keys), RequestsOf(missing);
    FilledFacts(metrics, missing, pods, ratio);
    UtilizationOver(metrics, pods, target);
    UtilizationOver(Filled(metrics, missing, ratio, AsRequested), pods, target);
    OverDampsIff(m, r, q, target);
  }

  lemma {:induction false} MissingNonNegative(metrics: Metrics, missing: seq<Pod>, pods: seq<Pod>)
    requires Apart(metrics, missing, pods) && (forall p <- pods :: p.request >= 0)
    ensures RequestsOf(missing) >= 0
  {
    RequestsAreNonNegative(missing);
  }

  /** The utilization ratio of m in use over r requested. */
  function Over(m: int, r: int, t: int): F64 {
    if r == 0 then Finite(1.0) else Div((m * 100) as real / r as real, t as real)
  }

  lemma UtilizationOver(metrics: Metrics, pods: seq<Pod>, target: u32)
    ensures UtilizationRatio(metrics, pods, target) == Over(Total(metrics), Requests(pods, metrics.Keys), target)
  {
  }

  lemma OverDampsIff(m: int, r: int, q: int, t: u32)
    requires r >= 0 && q >= 0 && t > 0
    ensures var before := Over(m, r, t);
      var after := Over(m + if Below(before, 1.0) then q else 0, r + q, t);
      && before.Finite? && after.Finite? && (Damps(before, after) <==> DampingHolds(before, m, r, q, t))
  {
    if r > 0 {
      QuotientDamps(m, r, q, t);
    } else if q > 0 {
      UnrequestedDamps(m, q, t);
    }
  }

  lemma CrossBelow(m: int, r: int, q: int)
    requires q >= 0
    ensures m * 100 * (r + q) <= (m + q) * 100 * r <==> q == 0 || m <= r
  {
    assert (m + q) * 100 * r - m * 100 * (r + q) == 100 * (q * (r - m));
    if q > 0 {
      assert m <= r <==> q * (r - m) >= 0;
    }
  }

  lemma CrossAbove(m: int, r: int, q: int)
    requires q >= 0 && m >= 0
    ensures m * 100 * r <= m * 100 * (r + q)
  {
    assert m * 100 * (r + q) == m * 100 * r + m * 100 * q;
  }

  lemma Positive(m: int, r: int, t: int)
    requires m * 100 >= r * t && r > 0 && t > 0
    ensures m > 0
  {
    assert r * t > 0;
  }

  /** So a target of at most 100 percent always damps, unless measured pods that request nothing use more
      than the target over the missing pods' requests. */
  lemma {:induction false} UtilizationDamps(metrics: Metrics, missing: seq<Pod>, pods: seq<Pod>, target: u32)
    requires DistinctNames(pods) && Apart(metrics, missing, pods) && (forall p <- pods :: p.request >= 0)
    requires 0 < target <= 100
    requires
      || RequestsOf(missing) == 0 || Requests(pods, metrics.Keys) > 0
      || Total(metrics) * 100 <= RequestsOf(missing) * target
    ensures var ratio := UtilizationRatio(metrics, pods, target);
      var filled := UtilizationRatio(Filled(metrics, missing, ratio, AsRequested), pods, target);
      ratio.Finite? && filled.Finite? && Damps(ratio, filled)
  {
    RequestsNonNegative(pods, metrics.Keys);
    hide Total, Requests, RequestsOf, Filled, UtilizationRatio, Below, Apart, DistinctNames, Damps, Quotient;
    UtilizationDampsIff(metrics, missing, pods, target);
    UtilizationOver(metrics, pods, target);
    if Requests(pods, metrics.Keys) > 0 {
      LowTarget(Total(metrics), Requests(pods, metrics.Keys), target);
    }
  }

  lemma LowTarget(m: int, r: int, t: int)
    requires 0 < t <= 100 && r > 0
    ensures Below(Quotient(m * 100, r, t), 1.0) ==> m <= r
  {
    RatioBelowOne(m * 100, r, t);
    assert r * t <= r * 100;
  }

  /** A target of 200 percent does not: one pod uses 150 of the 100 it requests, another that requests
      100 has no metrics yet. */
  lemma HighTargetsAmplify(a: string, b: string, metrics: Metrics, missing: seq<Pod>, pods: seq<Pod>)
    requires a != b && metrics == map[a := 150]
    requires missing == [Pod(b, Some(PodStatus(Pending, None)), 100)]
    requires pods == [Pod(a, Some(PodStatus(Running, Some(true))), 100)] + missing
    ensures var ratio := UtilizationRatio(metrics, pods, 200);
      var filled := UtilizationRatio(Filled(metrics, missing, ratio, AsRequested), pods, 200);
      && Filtered(metrics, pods) == Some(Filter(metrics, missing))
      && ratio.Finite? && filled.Finite? && !Damps(ratio, filled)
  {
    PairFacts(a, 150, 100, b, 100, metrics, missing, pods);
    hide Total, Requests, RequestsOf, Filled, UtilizationRatio, Apart, DistinctNames, Filtered, Damps;
    UtilizationDampsIff(metrics, missing, pods, 200);
    IsQuotient(metrics, pods, 200);
    RatioBelowOne(15000, 100, 200);
  }

  /** A measured pod and one without metrics. */
  lemma PairFacts(a: string, used: int, asked: int, b: string, asks: int, metrics: Metrics, missing: seq<Pod>,
      pods: seq<Pod>)
    requires a != b && metrics == map[a := used]
    requires missing == [Pod(b, Some(PodStatus(Pending, None)), asks)]
    requires pods == [Pod(a, Some(PodStatus(Running, Some(true))), asked)] + missing
    ensures Filtered(metrics, pods) == Some(Filter(metrics, missing))
    ensures DistinctNames(pods) && Apart(metrics, missing, pods)
    ensures Total(metrics) == used && Requests(pods, metrics.Keys) == asked && RequestsOf(missing) == asks
    ensures NamesOf(missing) !! metrics.Keys
  {
    var x, y := pods[0], missing[0];
    assert pods == [x] + [y] && missing == [] + [y] && [x] == [] + [x];
    OneMoreStart(metrics);
    OneMore([], x, metrics);
    OneMore([x], y, metrics);
    OneMore([], y, metrics);
    hide NamesOf, DistinctNames, RequestsOf, Requests, Filtered;
    assert b !in metrics.Keys && a in metrics.Keys;
    TotalWith(map[], a, used);
    assert metrics == map[][a := used];
  }

  /** Nor does any target when the measured pods request nothing: one of them uses 100, and another pod, which
      requests 1, has no metrics yet. The ratio is 1, the filled one 200, and one replica becomes 400. */
  lemma UnrequestedUseAmplifies(a: string, b: string, metrics: Metrics, missing: seq<Pod>, pods: seq<Pod>)
    requires a != b && metrics == map[a := 100]
    requires missing == [Pod(b, Some(PodStatus(Pending, None)), 1)]
    requires pods == [Pod(a, Some(PodStatus(Running, Some(true))), 0)] + missing
    ensures var ratio := UtilizationRatio(metrics, pods, 50);
      var filled := UtilizationRatio(Filled(metrics, missing, ratio, AsRequested), pods, 50);
      && Filtered(metrics, pods) == Some(Filter(metrics, missing))
      && ratio == Finite(1.0) && filled == Finite(200.0) && !Damps(ratio, filled)
      && ByUtilization(1, 50, metrics, pods) == Replicas(400)
  {
    hide Total, Requests, RequestsOf, Filled, UtilizationRatio, Apart, DistinctNames, Filtered, Decide, Over, NamesOf;
    PairFacts(a, 100, 0, b, 1, metrics, missing, pods);
    var ratio := UtilizationRatio(metrics, pods, 50);
    UtilizationOver(metrics, pods, 50);
    FilledFacts(metrics, missing, pods, ratio);
    UtilizationOver(Filled(metrics, missing, ratio, AsRequested), pods, 50);
    PairSize(a, 100, metrics, missing, ratio);
    FourHundred();
  }

  lemma FourHundred()
    ensures Over(100, 0, 50) == Finite(1.0) && Over(100, 1, 50) == Finite(200.0)
    ensures Decide(1, Finite(1.0), Finite(200.0), 2) == 400
  {
    assert Times(Finite(200.0), 2) == Finite(400.0);
    assert Ceil(400.0) == 400;
  }

  lemma PairSize(a: string, used: int, metrics: Metrics, missing: seq<Pod>, ratio: F64)
    requires metrics == map[a := used] && |missing| == 1 && NamesOf(missing) !! metrics.Keys
    ensures |Filled(metrics, missing, ratio, AsRequested)| == 2
  {
    SizeWith(map[], a, used);
    assert metrics == map[][a := used];
    assert DistinctNames(missing);
    FilledSums(metrics, missing, ratio, AsRequested);
  }

  lemma OneMoreStart(metrics: Metrics)
    ensures NamesOf([]) == {} && DistinctNames([]) && RequestsOf([]) == 0
    ensures Requests([], metrics.Keys) == 0 && Filtered(metrics, []) == Some(Filter(metrics, []))
  {
  }

  lemma OneMore(pods: seq<Pod>, p: Pod, metrics: Metrics)
    ensures NamesOf(pods + [p]) == NamesOf(pods) + {p.name}
    ensures DistinctNames(pods + [p]) <==> DistinctNames(pods) && p.name !in NamesOf(pods)
    ensures RequestsOf(pods + [p]) == RequestsOf(pods) + p.request
    ensures Requests(pods + [p], metrics.Keys) == Requests(pods, metrics.Keys) +
      if p.name in metrics.Keys then p.request else 0
    ensures Filtered(metrics, pods) == Some(Filter(metrics, [])) && p.status.Some? && !Unready(p.status.value)
            && p.name in metrics ==>
              Filtered(metrics, pods + [p]) == Some(Filter(metrics, []))
    ensures Filtered(metrics, pods) == Some(Filter(metrics, [])) && p.status.Some? && p.name !in metrics ==>
              Filtered(metrics, pods + [p]) == Some(Filter(metrics, [p]))
  {
    assert (pods + [p])[..|pods|] == pods;
    assert [] + [p] == [p];
  }

  // ---------- the count in terms of the sums ----------

  /** The count utilization mode gives for the sums over the measured and over the missing pods. */
  lemma {:induction false} UtilizationIs(count: u32, target: u32, metrics: Metrics, pods: seq<Pod>)
    requires pods != [] && DistinctNames(pods) && Filtered(metrics, pods).Some?
    ensures
      var f := Filtered(metrics, pods).value;
      var used, requested, missing := Total(f.metrics), Requests(pods, f.metrics.Keys), RequestsOf(f.missing);
      var ratio := Over(used, requested, target);
      && UtilizationRatio(f.metrics, pods, target) == ratio
      && ByUtilization(count, target, metrics, pods) == Replicas(
           Decide(count, ratio, Over(used + if Below(ratio, 1.0) then missing else 0, requested + missing, target),
                  |f.metrics| + |f.missing|))
  {
    hide Total, Requests, RequestsOf, Filtered, Filled, UtilizationRatio, DistinctNames, NamesOf, Apart, Decide,
      Below, Over;
    var f := Filtered(metrics, pods).value;
    var ratio := UtilizationRatio(f.metrics, pods, target);
    FilteredApart(metrics, pods);
    ApartNames(f.metrics, f.missing, pods);
    FilledFacts(f.metrics, f.missing, pods, ratio);
    FilledSums(f.metrics, f.missing, ratio, AsRequested);
    UtilizationOver(f.metrics, pods, target);
    UtilizationOver(Filled(f.metrics, f.missing, ratio, AsRequested), pods, target);
  }

  lemma ApartNames(metrics: Metrics, missing: seq<Pod>, pods: seq<Pod>)
    requires Apart(metrics, missing, pods)
    ensures DistinctNames(missing) && NamesOf(missing) !! metrics.Keys
  {
  }

  // ---------- zero targets and nothing measured ----------

  lemma {:induction false} RequestsNonNegative(pods: seq<Pod>, names: set<string>)
    requires forall p <- pods :: p.request >= 0
    ensures Requests(pods, names) >= 0
  {
    if pods != [] {
      assert pods[|pods| - 1] in pods;
      RequestsNonNegative(pods[..|pods| - 1], names);
    }
  }

  /** A target of zero is a division by zero, whichever pods have metrics: with any use the count is the
      largest there is, without use it is 0, and with negative use it is 0 too unless filling makes the use
      positive. Only if nothing at all is requested the count is the number of pods. */
  lemma {:induction false} ZeroTarget(count: u32, metrics: Metrics, pods: seq<Pod>)
    requires pods != [] && DistinctNames(pods) && (forall p <- pods :: p.request >= 0)
    requires Filtered(metrics, pods).Some?
    ensures var f := Filtered(metrics, pods).value;
      var used, requested, missing := Total(f.metrics), Requests(pods, f.metrics.Keys), RequestsOf(f.missing);
      ByUtilization(count, 0, metrics, pods) == Replicas(
        if requested + missing == 0 then Min(|f.metrics| + |f.missing|, U32_MAX)
        else if used > 0 then U32_MAX
        else if used < 0 && requested > 0 && used + missing > 0 then count
        else 0)
  {
    hide Total, Requests, RequestsOf, Filtered, UtilizationRatio, Apart, DistinctNames, Over, OverZeroRatio, Decide,
      ByUtilization;
    var f := Filtered(metrics, pods).value;
    SumsNonNegative(metrics, pods);
    EmptyTotal(f.metrics);
    UtilizationIs(count, 0, metrics, pods);
    var used, requested, missing := Total(f.metrics), Requests(pods, f.metrics.Keys), RequestsOf(f.missing);
    IsOverZero(used, requested);
    IsOverZero(used + if Below(Over(used, requested, 0), 1.0) then missing else 0, requested + missing);
    ZeroDecision(count, used, requested, missing, |f.metrics| + |f.missing|);
  }

  lemma SumsNonNegative(metrics: Metrics, pods: seq<Pod>)
    requires DistinctNames(pods) && (forall p <- pods :: p.request >= 0) && Filtered(metrics, pods).Some?
    ensures var f := Filtered(metrics, pods).value; Requests(pods, f.metrics.Keys) >= 0 && RequestsOf(f.missing) >= 0
  {
    hide Requests, RequestsOf, Filtered, Apart, DistinctNames;
    var f := Filtered(metrics, pods).value;
    FilteredApart(metrics, pods);
    RequestsNonNegative(pods, f.metrics.Keys);
    MissingNonNegative(f.metrics, f.missing, pods);
  }

  lemma EmptyTotal(metrics: Metrics)
    ensures Total(metrics) != 0 ==> |metrics| > 0
  {
    if |metrics| == 0 {
      assert metrics == map[];
    }
  }

  function OverZeroRatio(used: int, requested: int): F64 {
    if requested == 0 then Finite(1.0) else if used == 0 then NaN else if used > 0 then PosInf else NegInf
  }

  lemma IsOverZero(used: int, requested: int)
    requires requested >= 0
    ensures Over(used, requested, 0) == OverZeroRatio(used, requested)
  {
    if requested != 0 {
      OverZero(used * 100, requested);
    }
  }

  lemma ZeroDecision(count: u32, used: int, requested: int, missing: int, n: nat)
    requires requested >= 0 && missing >= 0 && (used != 0 ==> n > 0)
    ensures var ratio := OverZeroRatio(used, requested);
      var newRatio := OverZeroRatio(used + if Below(ratio, 1.0) then missing else 0, requested + missing);
      Decide(count, ratio, newRatio, n) ==
        if requested + missing == 0 then Min(n, U32_MAX)
        else if used > 0 then U32_MAX
        else if used < 0 && requested > 0 && used + missing > 0 then count
        else 0
  {
    if requested + missing == 0 {
      OneRatio(count, n);
    }
  }

  lemma OverZero(a: int, b: int)
    requires b > 0
    ensures Div(a as real / b as real, 0.0) == if a == 0 then NaN else if a > 0 then PosInf else NegInf
  {
    TimesMonotone(0.0, a as real / b as real, b as real);
    TimesMonotone(a as real / b as real, 0.0, b as real);
    assert a as real / b as real * b as real == a as real;
  }

  /** When filtering leaves no measured pod, utilization mode takes the ratio for 1 and fills in zeros. So it
      asks for no replicas at all, whatever the current count, if the missing pods request anything, and for
      as many as there are missing pods if they do not. */
  lemma {:induction false} NothingMeasured(count: u32, target: u32, metrics: Metrics, pods: seq<Pod>, missing: seq<Pod>)
    requires DistinctNames(pods) && pods != [] && Filtered(metrics, pods) == Some(Filter(map[], missing))
    requires target > 0
    ensures ByUtilization(count, target, metrics, pods) ==
      Replicas(if RequestsOf(missing) != 0 then 0 else Min(|missing|, U32_MAX))
  {
    hide Total, Requests, RequestsOf, Filtered, UtilizationRatio, DistinctNames, Over, Decide, ByUtilization;
    NothingSums(pods);
    UtilizationIs(count, target, metrics, pods);
    NothingOver(RequestsOf(missing), target);
    ZeroRatio(count, |missing|);
    OneRatio(count, |missing|);
  }

  lemma NothingOver(r: int, t: u32)
    requires t > 0
    ensures Over(0, 0, t) == Finite(1.0)
    ensures Over(0, r, t) == Finite(if r == 0 then 1.0 else 0.0)
  {
    if r != 0 { assert 0.0 / r as real == 0.0; }
  }

  lemma OneRatio(count: u32, n: nat)
    ensures Decide(count, Finite(1.0), Finite(1.0), n) == Min(n, U32_MAX)
  {
    assert Times(Finite(1.0), n) == Finite(n as real);
  }

  lemma ZeroRatio(count: u32, n: nat)
    ensures Decide(count, Finite(1.0), Finite(0.0), n) == 0
  {
    assert Times(Finite(0.0), n) == Finite(0.0);
  }

  lemma NothingSums(pods: seq<Pod>)
    ensures var nothing: Metrics := map[]; Total(nothing) == 0 && Requests(pods, nothing.Keys) == 0 && |nothing| == 0
  {
    var nothing: Metrics := map[];
    assert nothing.Keys == {};
    NoRequests(pods);
  }

  lemma {:induction false} NoRequests(pods: seq<Pod>)
    ensures Requests(pods, {}) == 0
  {
    if pods != [] {
      NoRequests(pods[..|pods| - 1]);
    }
  }

  /** In value mode the same situation is a division by zero, and the only way to panic. */
  lemma ValuePanicsIff(count: u32, target: u64, metrics: Metrics, pods: seq<Pod>)
    requires DistinctNames(pods)
    ensures ByValue(count, target, metrics, pods) == Panic <==>
              pods != [] && Filtered(metrics, pods).Some? && Filtered(metrics, pods).value.metrics == map[]
  {
    if pods != [] && Filtered(metrics, pods).Some? && Filtered(metrics, pods).value.metrics != map[] {
      FilteredApart(metrics, pods);
      var f := Filtered(metrics, pods).value;
      assert |f.metrics| > 0;
      hide Filtered, Filled, Total;
      FilledSums(f.metrics, f.missing, ValueRatio(f.metrics, target).value, AtTarget(AsI64(target)));
    }
  }
}
