/** Where one reconcile of the autoscaler lands: how far the wish is followed
    (controllers/src/podautoscaler/horizontal.rs). */
module AutoscalerReach {
  import opened Common
  import opened Hpa
  import opened AutoscalerSpec
  import opened AutoscalerPolicies

  // ---------- when the metric is not evaluated ----------

  /** Without a status nothing happens; scaling is disabled at 0; outside the bounds the count goes to the
      bound it has passed, if the target can be posted; the calculator's error and panic are passed on. */
  lemma ReconcileCases(hpa: HpaSpec, st: HpaState, input: RoundInput, prune: bool)
    ensures var outcome := Round(hpa, st, input, prune).1;
      if input.statusDesired.None? then Round(hpa, st, input, prune) == (st, Failed)
      else if input.current == 0 then outcome == Done(0)
      else if input.current > hpa.maxReplicas then outcome == if input.posted then Done(hpa.maxReplicas) else Failed
      else if input.current < hpa.minReplicas then outcome == if input.posted then Done(hpa.minReplicas) else Failed
      else
        && (input.metric == Error ==> outcome == Failed)
        && (input.metric == Panic ==> outcome == Panicked)
        && (input.metric.Replicas? ==>
          outcome == Done(input.current) || outcome == Panicked || outcome.Done? == input.posted)
  {
    hide Normalize, Noted, Record;
  }

  // ---------- when it is ----------

  /** Nothing remembered is lost on entry, and the count that is found is remembered, at the start of the
      reconcile, exactly if it is the first one or somebody else has changed the target. */
  lemma NotedMeans(st: HpaState, input: RoundInput, rec: Recommendation)
    ensures rec in Noted(st, input) <==>
      || rec in ListOf(st.recommendations)
      || (rec.replicas == input.current && rec.time == input.clock.start
          && (st.recommendations.None? || input.statusDesired != Some(input.current)))
  {
  }

  /** `l` is the least of the wish and the recommendations made at or after `from`. */
  ghost predicate LeastWish(recs: seq<Recommendation>, from: Instant, wish: u32, l: u32) {
    && l <= wish && (forall rec <- recs :: rec.time >= from ==> l <= rec.replicas)
    && (l == wish || exists rec <- recs :: rec.time >= from && rec.replicas == l)
  }

  /** `h` is the greatest of them. */
  ghost predicate GreatestWish(recs: seq<Recommendation>, from: Instant, wish: u32, h: u32) {
    && h >= wish && (forall rec <- recs :: rec.time >= from ==> h >= rec.replicas)
    && (h == wish || exists rec <- recs :: rec.time >= from && rec.replicas == h)
  }

  lemma {:induction false} BoundsMean(recs: seq<Recommendation>, up: Instant, down: Instant, wish: u32, l: u32, h: u32)
    requires LeastWish(recs, up, wish, l) && GreatestWish(recs, down, wish, h)
    ensures UpBound(recs, up, wish) == l && DownBound(recs, down, wish) == h
  {
    UpBoundIsLeast(recs, up, wish);
    DownBoundIsGreatest(recs, down, wish);
    hide UpBound, DownBound;
  }

  /** Pruning does not change the least and the greatest wish. */
  lemma {:induction false} KeptBoundsMean(recs: seq<Recommendation>, up: Instant, down: Instant, wish: u32, l: u32,
      h: u32)
    requires LeastWish(recs, up, wish, l) && GreatestWish(recs, down, wish, h)
    ensures UpBound(Pruned(recs, up, down), up, wish) == l && DownBound(Pruned(recs, up, down), down, wish) == h
  {
    hide UpBound, DownBound, Pruned;
    var dropped := PruningDropsOutdated(recs, up, down);
    BoundsMean(Pruned(recs, up, down), up, down, wish, l, h);
  }

  lemma {:induction false} StabilizedMeans(st: HpaState, recs: seq<Recommendation>, current: u32, wish: u32,
      behavior: Behavior, now: Instant, prune: bool, l: u32, h: u32)
    requires st.recommendations == Some(recs)
    requires LeastWish(recs, now - behavior.scaleUp.stabilizationWindow, wish, l)
    requires GreatestWish(recs, now - behavior.scaleDown.stabilizationWindow, wish, h)
    ensures var (st', s) := Stabilize(st, current, wish, behavior, now, prune);
      && s == (if h < current then h else if l > current then l else current)
      && st'.scaleUps == st.scaleUps && st'.scaleDowns == st.scaleDowns
  {
    var up, down := now - behavior.scaleUp.stabilizationWindow, now - behavior.scaleDown.stabilizationWindow;
    BoundsMean(recs, up, down, wish, l, h);
    KeptBoundsMean(recs, up, down, wish, l, h);
    hide UpBound, DownBound, Pruned, LeastWish, GreatestWish;
  }

  /** What limiting a stabilised count gives. */
  lemma {:induction false} ConformMeans(hpa: HpaSpec, st: HpaState, current: u32, s: u32, now: Instant)
      returns (limit: int)
    requires hpa.minReplicas <= current <= hpa.maxReplicas && Conform(hpa, st, current, s, now).Value?
    ensures var r := Max(hpa.minReplicas, Conform(hpa, st, current, s, now).v);
      && (s == current ==> r == current)
      && (s < current ==>
           && DownLimitIs(current, hpa.behavior.scaleDown, ListOf(st.scaleDowns), now, limit)
           && r == Max(s, Max(hpa.minReplicas, Min(limit, current))))
      && (s > current ==>
           && UpLimitIs(current, hpa.behavior.scaleUp, ListOf(st.scaleUps), now, limit)
           && r == Min(s, Min(hpa.maxReplicas, Max(limit, current))))
  {
    hide ScaleUpLimit, ScaleDownLimit, UpLimitIs, DownLimitIs, ListOf;
    UpLimitMeans(current, hpa.behavior.scaleUp, ListOf(st.scaleUps), now);
    DownLimitMeans(current, hpa.behavior.scaleDown, ListOf(st.scaleDowns), now);
    limit :=
      if s < current then ScaleDownLimit(current, hpa.behavior.scaleDown, ListOf(st.scaleDowns), now).v
      else if s > current then ScaleUpLimit(current, hpa.behavior.scaleUp, ListOf(st.scaleUps), now).v
      else 0;
  }

  lemma {:induction false} EvaluatingRound(hpa: HpaSpec, st: HpaState, input: RoundInput, prune: bool)
    requires Evaluates(hpa, input)
    ensures var (st', s) := Stabilize(st.(recommendations := Some(Noted(st, input))), input.current, input.metric.n,
                                      hpa.behavior, input.clock.stabilize, prune);
      var conformed, outcome := Conform(hpa, st', input.current, s, input.clock.limit), Round(hpa, st, input, prune).1;
      if conformed.Overflow? then outcome == Panicked
      else
        var r := Max(hpa.minReplicas, conformed.v);
        outcome == if r == input.current || input.posted then Done(r) else Failed
  {
    hide Noted, Record, Conform, Stabilize;
  }

  /** Let l and h be the least and the greatest wish inside the scale-up and the scale-down window, the metric's
      own included. A count between them stays. A greater one goes down to h, as far as the minimum and the
      policies let it; a smaller one up to l, as far as the maximum and the policies let it. */
  lemma {:induction false} ReconcileLandsOn(hpa: HpaSpec, st: HpaState, input: RoundInput, prune: bool, l: u32, h: u32)
      returns (limit: int)
    requires Evaluates(hpa, input)
    requires LeastWish(Noted(st, input), input.clock.stabilize - hpa.behavior.scaleUp.stabilizationWindow,
      input.metric.n, l)
    requires GreatestWish(Noted(st, input), input.clock.stabilize - hpa.behavior.scaleDown.stabilizationWindow,
      input.metric.n, h)
    ensures var outcome, current, now := Round(hpa, st, input, prune).1, input.current, input.clock.limit;
      && (l <= current <= h ==> outcome == Done(current))
      && (h < current && outcome.Done? ==>
           && DownLimitIs(current, hpa.behavior.scaleDown, ListOf(st.scaleDowns), now, limit)
           && outcome.desired == Max(h, Max(hpa.minReplicas, Min(limit, current))))
      && (l > current && outcome.Done? ==>
           && UpLimitIs(current, hpa.behavior.scaleUp, ListOf(st.scaleUps), now, limit)
           && outcome.desired == Min(l, Min(hpa.maxReplicas, Max(limit, current))))
  {
    var noted := st.(recommendations := Some(Noted(st, input)));
    var wish, now := input.metric.n, input.clock.stabilize;
    StabilizedMeans(noted, Noted(st, input), input.current, wish, hpa.behavior, now, prune, l, h);
    EvaluatingRound(hpa, st, input, prune);
    hide Round, Conform, Noted, LeastWish, GreatestWish, Stabilize, UpLimitIs, DownLimitIs, ListOf;
    var (st', s) := Stabilize(noted, input.current, wish, hpa.behavior, now, prune);
    limit := 0;
    if Conform(hpa, st', input.current, s, input.clock.limit).Value? {
      limit := ConformMeans(hpa, st', input.current, s, input.clock.limit);
    }
  }

  // ---------- the default rules ----------

  /** With the default rules for scaling down, all pods in one period, a wish that no recommendation in the
      window exceeds is reached in one reconcile, down to the minimum. */
  lemma {:induction false} DefaultRulesReachDown(hpa: HpaSpec, st: HpaState, input: RoundInput, prune: bool,
      period: Ticks)
    requires Evaluates(hpa, input) && input.posted && input.metric.n < input.current
    requires hpa.behavior.scaleDown.selectPolicy == SelectMax
    requires hpa.behavior.scaleDown.policies == [ScalingPolicy(Percent, 100, period)]
    requires forall rec <- Noted(st, input) ::
      rec.time >= input.clock.stabilize - hpa.behavior.scaleDown.stabilizationWindow ==> rec.replicas <= input.metric.n
    requires input.current + SumSince(ListOf(st.scaleDowns), input.clock.limit - period) <= U32_MAX
    ensures Round(hpa, st, input, prune).1 == Done(Max(hpa.minReplicas, input.metric.n))
  {
    var wish, now, events := input.metric.n, input.clock.limit, ListOf(st.scaleDowns);
    var l := LeastOf(Noted(st, input), input.clock.stabilize - hpa.behavior.scaleUp.stabilizationWindow, wish);
    assert GreatestWish(Noted(st, input), input.clock.stabilize - hpa.behavior.scaleDown.stabilizationWindow, wish,
      wish);
    RemovingAllPods(input.current, hpa.behavior.scaleDown, events, now, period);
    StabilizedMeans(st.(recommendations := Some(Noted(st, input))), Noted(st, input), input.current, wish, hpa.behavior,
      input.clock.stabilize, prune, l, wish);
    EvaluatingRound(hpa, st, input, prune);
    hide Round, Noted, LeastWish, GreatestWish, Stabilize, ScaleDownLimit, ListOf, SumSince;
  }

  lemma {:induction false} LeastOf(recs: seq<Recommendation>, from: Instant, wish: u32) returns (l: u32)
    ensures LeastWish(recs, from, wish, l)
  {
    UpBoundIsLeast(recs, from, wish);
    l := UpBound(recs, from, wish);
  }

  lemma {:induction false} GreatestOf(recs: seq<Recommendation>, from: Instant, wish: u32) returns (h: u32)
    ensures GreatestWish(recs, from, wish, h)
  {
    DownBoundIsGreatest(recs, from, wish);
    h := DownBound(recs, from, wish);
  }

  lemma {:induction false} RemovingAllPods(current: u32, rules: ScalingRules, events: seq<ScaleEvent>, now: Instant,
      period: Ticks)
    requires rules.selectPolicy == SelectMax && rules.policies == [ScalingPolicy(Percent, 100, period)]
    requires current + SumSince(events, now - period) <= U32_MAX
    ensures ScaleDownLimit(current, rules, events, now) == Value(0)
  {
    var limits := DownLimits(current, rules, events, now);
    FoldIsExtreme(limits, true);
    PeriodLimitsAre(current, rules.policies[0], events, now);
    FloorMeans(rules.policies[0], current + SumSince(events, now - period));
    hide Fold, SumSince, Floor;
    assert limits[0] == DownPeriodLimit(current, rules.policies[0], events, now);
  }

  /** With the default rules for scaling up, 4 pods or as many again, a wish that no recommendation in the
      window undercuts is reached as far as the maximum and the rules allow. */
  lemma {:induction false} DefaultRulesReachUp(hpa: HpaSpec, st: HpaState, input: RoundInput, prune: bool,
      period: Ticks)
    requires Evaluates(hpa, input) && input.posted && input.metric.n > input.current
    requires hpa.behavior.scaleUp.selectPolicy == SelectMax
    requires hpa.behavior.scaleUp.policies == [ScalingPolicy(Pods, 4, period), ScalingPolicy(Percent, 100, period)]
    requires forall rec <- Noted(st, input) ::
      rec.time >= input.clock.stabilize - hpa.behavior.scaleUp.stabilizationWindow ==> rec.replicas >= input.metric.n
    requires SumSince(ListOf(st.scaleUps), input.clock.limit - period) <= input.current <= U32_MAX - 4
    ensures var start := input.current - SumSince(ListOf(st.scaleUps), input.clock.limit - period);
      Round(hpa, st, input, prune).1 ==
        Done(Max(input.current, Min(input.metric.n, Min(hpa.maxReplicas, Max(start + 4, 2 * start)))))
  {
    var wish, now, events := input.metric.n, input.clock.limit, ListOf(st.scaleUps);
    var h := GreatestOf(Noted(st, input), input.clock.stabilize - hpa.behavior.scaleDown.stabilizationWindow, wish);
    assert LeastWish(Noted(st, input), input.clock.stabilize - hpa.behavior.scaleUp.stabilizationWindow, wish, wish);
    FourOrAsManyAgain(input.current, hpa.behavior.scaleUp, events, now, period);
    StabilizedMeans(st.(recommendations := Some(Noted(st, input))), Noted(st, input), input.current, wish, hpa.behavior,
      input.clock.stabilize, prune, wish, h);
    EvaluatingRound(hpa, st, input, prune);
    hide Round, Noted, LeastWish, GreatestWish, Stabilize, ScaleUpLimit, ListOf, SumSince, Conform;
    var st' := Stabilize(st.(recommendations := Some(Noted(st, input))), input.current, wish, hpa.behavior,
      input.clock.stabilize, prune).0;
    ConformUp(hpa, st', input.current, wish, now);
  }

  lemma ConformUp(hpa: HpaSpec, st: HpaState, current: u32, s: u32, now: Instant)
    requires s > current && ScaleUpLimit(current, hpa.behavior.scaleUp, ListOf(st.scaleUps), now).Value?
    ensures Conform(hpa, st, current, s, now) ==
      Value(Min(s,
        Min(hpa.maxReplicas, Max(ScaleUpLimit(current, hpa.behavior.scaleUp, ListOf(st.scaleUps), now).v, current))))
  {
  }

  lemma {:induction false} FourOrAsManyAgain(current: u32, rules: ScalingRules, events: seq<ScaleEvent>, now: Instant,
      period: Ticks)
    requires rules.selectPolicy == SelectMax
    requires rules.policies == [ScalingPolicy(Pods, 4, period), ScalingPolicy(Percent, 100, period)]
    requires SumSince(events, now - period) <= current <= U32_MAX - 4
    ensures var start := current - SumSince(events, now - period);
      ScaleUpLimit(current, rules, events, now) == Value(Min(U32_MAX, Max(start + 4, 2 * start)))
  {
    FourFits(current, events, now, period);
    var a := UpPeriodLimit(current, rules.policies[0], events, now);
    var b := UpPeriodLimit(current, rules.policies[1], events, now);
    hide Fold, SumSince, UpPeriodLimit;
    assert UpLimits(current, rules, events, now) == [a, b];
    FoldOfTwo(a.v, b.v);
  }

  lemma {:induction false} FoldOfTwo(a: u32, b: u32)
    ensures Fold([Value(a), Value(b)], false) == Value(Max(a, b))
  {
    var limits: seq<Checked<u32>> := [Value(a), Value(b)];
    var one := limits[..1];
    assert one[..0] == [] && one[0] == Value(a);
    assert Fold(one[..0], false) == Value(0);
    assert Fold(one, false) == Value(a);
  }

  lemma {:induction false} FourFits(current: u32, events: seq<ScaleEvent>, now: Instant, period: Ticks)
    requires SumSince(events, now - period) <= current <= U32_MAX - 4
    ensures var start := current - SumSince(events, now - period);
      && UpPeriodLimit(current, ScalingPolicy(Pods, 4, period), events, now) == Value(start + 4)
      && UpPeriodLimit(current, ScalingPolicy(Percent, 100, period), events, now) == Value(Min(2 * start, U32_MAX))
  {
    hide SumSince;
    PeriodLimitsAre(current, ScalingPolicy(Percent, 100, period), events, now);
    CeilingMeans(ScalingPolicy(Percent, 100, period), current - SumSince(events, now - period));
  }
}
