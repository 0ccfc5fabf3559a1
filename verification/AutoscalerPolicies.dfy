/** What the scaling policies allow, in whole numbers (controllers/src/podautoscaler/horizontal.rs). */
module AutoscalerPolicies {
  import opened Common
  import opened Hpa
  import opened AutoscalerSpec

  /** The most replicas a policy allows at the end of a period that began with `start`. */
  function Ceiling(policy: ScalingPolicy, start: int): int {
    match policy.kind
    case Pods => start + policy.value
    case Percent => CeilPercent(start, 100 + policy.value)
  }

  /** The fewest. */
  function Floor(policy: ScalingPolicy, start: int): int {
    match policy.kind
    case Pods => Max(0, start - policy.value)
    case Percent => Max(0, CeilPercent(start, 100 - policy.value))
  }

  /** A Pods policy adds its value; a Percent policy adds its share, rounded up. */
  lemma CeilingMeans(policy: ScalingPolicy, start: int)
    ensures policy.kind == Pods ==> Ceiling(policy, start) == start + policy.value
    ensures policy.kind == Percent ==>
              && 100 * Ceiling(policy, start) >= start * (100 + policy.value)
              && 100 * (Ceiling(policy, start) - 1) < start * (100 + policy.value)
  {
  }

  /** A Pods policy takes its value away, a Percent policy its share, rounded up; neither goes below 0. */
  lemma FloorMeans(policy: ScalingPolicy, start: int)
    requires start >= 0
    ensures policy.kind == Pods ==> Floor(policy, start) == if start >= policy.value then start - policy.value else 0
    ensures policy.kind == Percent && policy.value >= 100 ==> Floor(policy, start) == 0
    ensures policy.kind == Percent && policy.value < 100 ==>
              && 100 * Floor(policy, start) >= start * (100 - policy.value)
              && 100 * (Floor(policy, start) - 1) < start * (100 - policy.value)
  {
    if policy.value >= 100 {
      CeilPercentOfNegative(start, 100 - policy.value);
    } else {
      CeilPercentMonotone(0, start, 100 - policy.value);
    }
  }

  // ---------- one policy's limit ----------

  lemma CeilPercentMonotone(a: int, b: int, n: int)
    requires a <= b && n >= 0
    ensures CeilPercent(a, n) <= CeilPercent(b, n)
  {
    assert a * n <= b * n;
  }

  lemma CeilPercentOfNegative(a: int, n: int)
    requires a >= 0 >= n
    ensures CeilPercent(a, n) <= 0
  {
    assert a * n <= 0;
  }

  lemma CeilingMonotone(policy: ScalingPolicy, a: u32, b: u32)
    requires a <= b
    ensures Ceiling(policy, a) <= Ceiling(policy, b)
  {
    CeilPercentMonotone(a, b, 100 + policy.value);
    hide CeilPercent;
  }

  lemma FloorMonotone(policy: ScalingPolicy, a: u32, b: u32)
    requires a <= b
    ensures Floor(policy, a) <= Floor(policy, b)
  {
    if policy.value <= 100 {
      CeilPercentMonotone(a, b, 100 - policy.value);
    } else {
      CeilPercentOfNegative(a, 100 - policy.value);
    }
    hide CeilPercent;
  }

  lemma {:induction false} PeriodLimitWithinCeiling(current: u32, policy: ScalingPolicy, events: seq<ScaleEvent>,
      now: Instant)
    ensures var added := SumSince(events, now - policy.period);
            UpPeriodLimit(current, policy, events, now).Value? ==>
              added <= current && UpPeriodLimit(current, policy, events, now).v <= Ceiling(policy, current - added)
  {
    var added := SumSince(events, now - policy.period);
    if added <= current {
      HighPercent(current - added, policy.value);
    }
    hide CeilPercent, SumSince;
  }

  lemma HighPercent(start: int, n: int)
    requires start >= 0 && n >= 0
    ensures CeilPercent(start, 100 + n) >= 0
  {
    assert start * (100 + n) >= 0;
  }

  lemma {:induction false} PeriodLimitAboveFloor(current: u32, policy: ScalingPolicy, events: seq<ScaleEvent>,
      now: Instant)
    ensures var deleted := SumSince(events, now - policy.period);
            DownPeriodLimit(current, policy, events, now).Value? ==>
              && current + deleted <= U32_MAX
              && DownPeriodLimit(current, policy, events, now).v >= Floor(policy, current + deleted)
  {
    LowPercent(current + SumSince(events, now - policy.period), policy.value);
    hide CeilPercent, SumSince;
  }

  lemma LowPercent(start: int, n: int)
    requires start >= 0 && n >= 0
    ensures CeilPercent(start, 100 - n) <= start
  {
    assert start * (100 - n) <= start * 100;
  }

  /** An up limit that remembers the climb since a count of `start` is below the ceiling over it. */
  lemma {:induction false} UpLimitWithinCeiling(current: u32, policy: ScalingPolicy, events: seq<ScaleEvent>,
      now: Instant, start: u32)
    requires SumSince(events, now - policy.period) >= current - start
    ensures UpPeriodLimit(current, policy, events, now).Value? ==>
              UpPeriodLimit(current, policy, events, now).v <= Ceiling(policy, start)
  {
    PeriodLimitWithinCeiling(current, policy, events, now);
    hide Ceiling;
    if UpPeriodLimit(current, policy, events, now).Value? {
      CeilingMonotone(policy, current - SumSince(events, now - policy.period), start);
    }
  }

  lemma {:induction false} DownLimitAboveFloor(current: u32, policy: ScalingPolicy, events: seq<ScaleEvent>,
      now: Instant, start: u32)
    requires SumSince(events, now - policy.period) >= start - current
    ensures DownPeriodLimit(current, policy, events, now).Value? ==>
              DownPeriodLimit(current, policy, events, now).v >= Floor(policy, start)
  {
    PeriodLimitAboveFloor(current, policy, events, now);
    hide Floor;
    if DownPeriodLimit(current, policy, events, now).Value? {
      FloorMonotone(policy, start, current + SumSince(events, now - policy.period));
    }
  }

  /** The limits are those numbers, as far as the type holds them. */
  lemma {:induction false} PeriodLimitsAre(current: u32, policy: ScalingPolicy, events: seq<ScaleEvent>, now: Instant)
    ensures var changed := SumSince(events, now - policy.period);
      && (UpPeriodLimit(current, policy, events, now).Value? ==>
           UpPeriodLimit(current, policy, events, now).v == Min(Ceiling(policy, current - changed), U32_MAX))
      && (DownPeriodLimit(current, policy, events, now).Value? ==>
           DownPeriodLimit(current, policy, events, now).v == Floor(policy, current + changed))
  {
    var changed := SumSince(events, now - policy.period);
    if changed <= current {
      HighPercent(current - changed, policy.value);
    }
    LowPercent(current + changed, policy.value);
    hide CeilPercent, SumSince;
  }

  // ---------- the selected limit ----------


  lemma {:induction false} EveryPolicyBoundsUp(current: u32, rules: ScalingRules, events: seq<ScaleEvent>, now: Instant,
      policy: ScalingPolicy)
    requires rules.selectPolicy == SelectMin && policy in rules.policies
    requires ScaleUpLimit(current, rules, events, now).Value?
    ensures UpPeriodLimit(current, policy, events, now).Value?
    ensures ScaleUpLimit(current, rules, events, now).v <= UpPeriodLimit(current, policy, events, now).v
  {
    var limits := UpLimits(current, rules, events, now);
    FoldIsExtreme(limits, true);
    var i :| 0 <= i < |rules.policies| && rules.policies[i] == policy;
    assert limits[i] == UpPeriodLimit(current, policy, events, now);
  }

  lemma EveryPolicyBoundsDown(current: u32, rules: ScalingRules, events: seq<ScaleEvent>, now: Instant,
      policy: ScalingPolicy)
    requires rules.selectPolicy == SelectMin && policy in rules.policies
    requires ScaleDownLimit(current, rules, events, now).Value?
    ensures DownPeriodLimit(current, policy, events, now).Value?
    ensures ScaleDownLimit(current, rules, events, now).v >= DownPeriodLimit(current, policy, events, now).v
  {
    var limits := DownLimits(current, rules, events, now);
    FoldIsExtreme(limits, false);
    var i :| 0 <= i < |rules.policies| && rules.policies[i] == policy;
    assert limits[i] == DownPeriodLimit(current, policy, events, now);
  }

  lemma SomePolicyBoundsUp(current: u32, rules: ScalingRules, events: seq<ScaleEvent>, now: Instant) returns (p: int)
    requires rules.selectPolicy == SelectMax
    requires ScaleUpLimit(current, rules, events, now).Value? && ScaleUpLimit(current, rules, events, now).v > current
    ensures 0 <= p < |rules.policies|
    ensures UpPeriodLimit(current, rules.policies[p], events, now) == ScaleUpLimit(current, rules, events, now)
  {
    var limits := UpLimits(current, rules, events, now);
    FoldIsExtreme(limits, false);
    p :| 0 <= p < |limits| && limits[p].v == Fold(limits, false).v;
  }

  lemma SomePolicyBoundsDown(current: u32, rules: ScalingRules, events: seq<ScaleEvent>, now: Instant) returns (p: int)
    requires rules.selectPolicy == SelectMax
    requires ScaleDownLimit(current, rules, events, now).Value?
    requires ScaleDownLimit(current, rules, events, now).v < current
    ensures 0 <= p < |rules.policies|
    ensures DownPeriodLimit(current, rules.policies[p], events, now) == ScaleDownLimit(current, rules, events, now)
  {
    var limits := DownLimits(current, rules, events, now);
    FoldIsExtreme(limits, true);
    p :| 0 <= p < |limits| && limits[p].v == Fold(limits, true).v;
  }

  /** The limit of the policy that allows least (`Min`) or most (`Max`), over the count its period began with;
      a disabled direction does not move, and without policies nothing limits, or nothing is allowed. */
  ghost predicate UpLimitIs(current: u32, rules: ScalingRules, events: seq<ScaleEvent>, now: Instant, limit: int) {
    match rules.selectPolicy
    case Disabled => limit == current
    case SelectMin =>
      && (forall policy <- rules.policies :: limit <= UpTo(current, policy, events, now))
      && (if rules.policies == [] then limit == U32_MAX
          else exists policy <- rules.policies :: limit == UpTo(current, policy, events, now))
    case SelectMax =>
      && (forall policy <- rules.policies :: limit >= UpTo(current, policy, events, now))
      && (if rules.policies == [] then limit == 0
          else exists policy <- rules.policies :: limit == UpTo(current, policy, events, now))
  }

  function UpTo(current: u32, policy: ScalingPolicy, events: seq<ScaleEvent>, now: Instant): int {
    Min(Ceiling(policy, current - SumSince(events, now - policy.period)), U32_MAX)
  }

  /** The dual, where the policy that changes least leaves most. */
  ghost predicate DownLimitIs(current: u32, rules: ScalingRules, events: seq<ScaleEvent>, now: Instant, limit: int) {
    match rules.selectPolicy
    case Disabled => limit == current
    case SelectMin =>
      && (forall policy <- rules.policies :: limit >= DownTo(current, policy, events, now))
      && (if rules.policies == [] then limit == 0
          else exists policy <- rules.policies :: limit == DownTo(current, policy, events, now))
    case SelectMax =>
      && (forall policy <- rules.policies :: limit <= DownTo(current, policy, events, now))
      && (if rules.policies == [] then limit == U32_MAX
          else exists policy <- rules.policies :: limit == DownTo(current, policy, events, now))
  }

  function DownTo(current: u32, policy: ScalingPolicy, events: seq<ScaleEvent>, now: Instant): int {
    Floor(policy, current + SumSince(events, now - policy.period))
  }

  lemma {:induction false} UpLimitMeans(current: u32, rules: ScalingRules, events: seq<ScaleEvent>, now: Instant)
    ensures ScaleUpLimit(current, rules, events, now).Value? ==>
              UpLimitIs(current, rules, events, now, ScaleUpLimit(current, rules, events, now).v)
  {
    var limits := UpLimits(current, rules, events, now);
    FoldIsExtreme(limits, rules.selectPolicy == SelectMin);
    hide Fold, UpPeriodLimit, Ceiling, SumSince;
    if rules.selectPolicy != Disabled && ScaleUpLimit(current, rules, events, now).Value? {
      forall i | 0 <= i < |limits| ensures limits[i] == Value(UpTo(current, rules.policies[i], events, now)) {
        assert limits[i] == UpPeriodLimit(current, rules.policies[i], events, now);
        PeriodLimitsAre(current, rules.policies[i], events, now);
      }
    }
  }

  lemma {:induction false} DownLimitMeans(current: u32, rules: ScalingRules, events: seq<ScaleEvent>, now: Instant)
    ensures ScaleDownLimit(current, rules, events, now).Value? ==>
              DownLimitIs(current, rules, events, now, ScaleDownLimit(current, rules, events, now).v)
  {
    var limits := DownLimits(current, rules, events, now);
    FoldIsExtreme(limits, rules.selectPolicy == SelectMax);
    hide Fold, DownPeriodLimit, Floor, SumSince;
    if rules.selectPolicy != Disabled && ScaleDownLimit(current, rules, events, now).Value? {
      forall i | 0 <= i < |limits| ensures limits[i] == Value(DownTo(current, rules.policies[i], events, now)) {
        assert limits[i] == DownPeriodLimit(current, rules.policies[i], events, now);
        PeriodLimitsAre(current, rules.policies[i], events, now);
      }
    }
  }
}
