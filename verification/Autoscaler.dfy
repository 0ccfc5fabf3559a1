/** The pod autoscaler's controller object (controllers/src/podautoscaler/horizontal.rs). */
module Autoscaler {
  import opened Common
  import opened Hpa
  import opened AutoscalerSpec
  import opened AutoscalerPolicies

  class PodAutoscaler {
    var recommendations: map<string, seq<Recommendation>>
    var scaleUpEvents: map<string, seq<ScaleEvent>>
    var scaleDownEvents: map<string, seq<ScaleEvent>>

    constructor ()
      ensures forall name :: Entry(name) == EMPTY_STATE
    {
      recommendations, scaleUpEvents, scaleDownEvents := map[], map[], map[];
    }

    /** What the controller remembers about one autoscaler. */
    function Entry(name: string): HpaState
      reads this
    {
      HpaState(Lookup(recommendations, name), Lookup(scaleUpEvents, name), Lookup(scaleDownEvents, name))
    }

    static function Lookup<T>(m: map<string, T>, name: string): Option<T> {
      if name in m then Some(m[name]) else None
    }

    /** The worker's branch for an autoscaler that left the store. */
    method Forget(name: string)
      modifies this
      ensures Entry(name) == EMPTY_STATE
      ensures forall other :: other != name ==> Entry(other) == old(Entry(other))
    {
      recommendations := recommendations - {name};
      scaleUpEvents := scaleUpEvents - {name};
      scaleDownEvents := scaleDownEvents - {name};
    }

    method Reconcile(name: string, hpa: HpaSpec, input: RoundInput) returns (outcome: Outcome)
      modifies this
      ensures (Entry(name), outcome) == Round(hpa, old(Entry(name)), input, true)
      ensures forall other :: other != name ==> Entry(other) == old(Entry(other))
    {
      if input.statusDesired.None? {
        return Failed;
      }
      var entry := Recommendation(input.current, input.clock.start);
      // The first reconcile starts the list with what it finds
      if name !in recommendations {
        recommendations := recommendations[name := [entry]];
      }
      // So does one that finds a count it did not ask for
      if input.statusDesired != Some(input.current) {
        recommendations := recommendations[name := recommendations[name] + [entry]];
      }
      assert Entry(name) == old(Entry(name)).(recommendations := Some(Noted(old(Entry(name)), input)));

      var desired: u32;
      if input.current == 0 {
        desired := 0;
      } else if input.current > hpa.maxReplicas {
        desired := hpa.maxReplicas;
      } else if input.current < hpa.minReplicas {
        desired := hpa.minReplicas;
      } else {
        match input.metric {
          case Error =>
            return Failed;
          case Panic =>
            return Panicked;
          case Replicas(wish) =>
            var normalized := NormalizeDesiredReplicas(name, hpa, input.current, wish, input.clock);
            if normalized.Overflow? {
              return Panicked;
            }
            desired := normalized.v;
        }
      }

      if input.current != desired {
        if !input.posted {
          return Failed;
        }
        RecordScaleEvent(name, hpa.behavior, input.current, desired, input.clock);
      }
      return Done(desired);
    }

    method NormalizeDesiredReplicas(name: string, hpa: HpaSpec, current: u32, desired: u32, clock: Clock)
      returns (r: Checked<u32>)
      modifies this`recommendations
      ensures (Entry(name), r) == Normalize(hpa, old(Entry(name)), current, desired, clock, true)
      ensures forall other :: other != name ==> Entry(other) == old(Entry(other))
    {
      var stabilized := StabilizeRecommendation(name, current, desired, hpa.behavior, clock.stabilize);
      var conformed := ConformWithBehavior(name, hpa, current, stabilized, clock.limit);
      match conformed {
        case Overflow => r := Overflow;
        case Value(d) => r := Value(Max(hpa.minReplicas, d));
      }
    }

    method StabilizeRecommendation(name: string, current: u32, desired: u32, behavior: Behavior, now: Instant)
      returns (recommendation: u32)
      modifies this`recommendations
      ensures (Entry(name), recommendation) == Stabilize(old(Entry(name)), current, desired, behavior, now, true)
      ensures forall other :: other != name ==> Entry(other) == old(Entry(other))
    {
      recommendation := current;
      var upRecommendation, downRecommendation := desired, desired;
      var upCutoff := now - behavior.scaleUp.stabilizationWindow;
      var downCutoff := now - behavior.scaleDown.stabilizationWindow;
      if name in recommendations {
        var recs := recommendations[name];
        // Drop what neither window reaches any more
        while recs != [] && recs[0].time < upCutoff && recs[0].time < downCutoff
          invariant Pruned(recs, upCutoff, downCutoff) == Pruned(recommendations[name], upCutoff, downCutoff)
          decreases |recs|
        {
          recs := recs[1..];
        }
        // The extremes inside each window
        for i := 0 to |recs|
          invariant upRecommendation == UpBound(recs[..i], upCutoff, desired)
          invariant downRecommendation == DownBound(recs[..i], downCutoff, desired)
        {
          assert recs[..i + 1][..i] == recs[..i];
          if recs[i].time >= upCutoff {
            upRecommendation := Min(upRecommendation, recs[i].replicas);
          }
          if recs[i].time >= downCutoff {
            downRecommendation := Max(downRecommendation, recs[i].replicas);
          }
        }
        assert recs[..|recs|] == recs;
        recommendation := Min(Max(recommendation, upRecommendation), downRecommendation);
        // Remember the wish itself, not what became of it
        recommendations := recommendations[name := recs + [Recommendation(desired, now)]];
      }
    }

    method ConformWithBehavior(name: string, hpa: HpaSpec, current: u32, desired: u32, now: Instant)
      returns (r: Checked<u32>)
      ensures r == Conform(hpa, Entry(name), current, desired, now)
    {
      if desired > current {
        var limit := CalcScaleUpLimit(current, Lookup(scaleUpEvents, name), hpa.behavior.scaleUp, now);
        if limit.Overflow? {
          return Overflow;
        }
        var scaleUpLimit := Max(limit.v, current);
        var maxReplicas := hpa.maxReplicas;
        if maxReplicas > scaleUpLimit {
          maxReplicas := scaleUpLimit;
        }
        return Value(Min(desired, maxReplicas));
      } else if desired < current {
        var limit := CalcScaleDownLimit(current, Lookup(scaleDownEvents, name), hpa.behavior.scaleDown, now);
        if limit.Overflow? {
          return Overflow;
        }
        var scaleDownLimit := Min(limit.v, current);
        var minReplicas := hpa.minReplicas;
        if minReplicas < scaleDownLimit {
          minReplicas := scaleDownLimit;
        }
        return Value(Max(desired, minReplicas));
      }
      return Value(desired);
    }

    method CalcScaleUpLimit(current: u32, events: Option<seq<ScaleEvent>>, rules: ScalingRules, now: Instant)
      returns (r: Checked<u32>)
      ensures r == ScaleUpLimit(current, rules, ListOf(events), now)
      ensures r.Value? ==> UpLimitIs(current, rules, ListOf(events), now, r.v)
    {
      UpLimitMeans(current, rules, ListOf(events), now);
      hide UpLimitIs;
      if rules.selectPolicy == Disabled {
        return Value(current);
      }
      var result := if rules.selectPolicy == SelectMin then U32_MAX else 0;
      ghost var limits := UpLimits(current, rules, ListOf(events), now);
      ghost var smallest := rules.selectPolicy == SelectMin;
      hide Fold, SumSince, CeilPercent;
      FoldOfNone(limits, smallest);
      for i := 0 to |rules.policies|
        invariant 0 <= result <= U32_MAX && Fold(limits[..i], smallest) == Value(result)
      {
        var policy := rules.policies[i];
        var added := GetReplicasChangeInPeriod(policy.period, events, now);
        assert limits[i] == UpPeriodLimit(current, policy, ListOf(events), now);
        if added > current || (policy.kind == Pods && current - added + policy.value > U32_MAX) {
          OverflowSpreads(limits, i, smallest);
          return Overflow;
        }
        FoldOfMore(limits, i, smallest);
        var periodStart := current - added;
        var periodLimit := match policy.kind
          case Pods => periodStart + policy.value
          case Percent => Saturate(CeilPercent(periodStart, 100 + policy.value));
        result := if rules.selectPolicy == SelectMin then Min(result, periodLimit) else Max(result, periodLimit);
      }
      assert limits[..|rules.policies|] == limits;
      return Value(result);
    }

    method CalcScaleDownLimit(current: u32, events: Option<seq<ScaleEvent>>, rules: ScalingRules, now: Instant)
      returns (r: Checked<u32>)
      ensures r == ScaleDownLimit(current, rules, ListOf(events), now)
      ensures r.Value? ==> DownLimitIs(current, rules, ListOf(events), now, r.v)
    {
      DownLimitMeans(current, rules, ListOf(events), now);
      hide DownLimitIs;
      if rules.selectPolicy == Disabled {
        return Value(current);
      }
      // The smallest decrease leaves the largest count
      var result := if rules.selectPolicy == SelectMin then 0 else U32_MAX;
      ghost var limits := DownLimits(current, rules, ListOf(events), now);
      ghost var smallest := rules.selectPolicy == SelectMax;
      hide Fold, SumSince, CeilPercent;
      FoldOfNone(limits, smallest);
      for i := 0 to |rules.policies|
        invariant 0 <= result <= U32_MAX && Fold(limits[..i], smallest) == Value(result)
      {
        var policy := rules.policies[i];
        var deleted := GetReplicasChangeInPeriod(policy.period, events, now);
        assert limits[i] == DownPeriodLimit(current, policy, ListOf(events), now);
        if current + deleted > U32_MAX {
          OverflowSpreads(limits, i, smallest);
          return Overflow;
        }
        FoldOfMore(limits, i, smallest);
        var periodStart := current + deleted;
        var periodLimit := match policy.kind
          case Pods => if periodStart >= policy.value then periodStart - policy.value else 0
          case Percent => Saturate(CeilPercent(periodStart, 100 - policy.value));
        result := if rules.selectPolicy == SelectMin then Max(result, periodLimit) else Min(result, periodLimit);
      }
      assert limits[..|rules.policies|] == limits;
      return Value(result);
    }

    static function GetReplicasChangeInPeriod(period: Ticks, events: Option<seq<ScaleEvent>>, now: Instant): nat {
      match events
      case Some(list) => SumSince(list, now - period)
      case None => 0
    }

    method RecordScaleEvent(name: string, behavior: Behavior, prev: u32, next: u32, clock: Clock)
      modifies this`scaleUpEvents, this`scaleDownEvents
      ensures Entry(name) == Record(old(Entry(name)), behavior, prev, next, clock, true)
      ensures forall other :: other != name ==> Entry(other) == old(Entry(other))
    {
      if next > prev {
        var events := [];
        if name in scaleUpEvents {
          events := DiscardOutdatedScaleEvents(scaleUpEvents[name], LongestPeriod(behavior.scaleUp.policies),
            clock.discard);
        }
        scaleUpEvents := scaleUpEvents[name := events + [ScaleEvent(next - prev, clock.record)]];
      } else if next < prev {
        var events := [];
        if name in scaleDownEvents {
          events := DiscardOutdatedScaleEvents(scaleDownEvents[name], LongestPeriod(behavior.scaleDown.policies),
            clock.discard);
        }
        scaleDownEvents := scaleDownEvents[name := events + [ScaleEvent(prev - next, clock.record)]];
      }
    }

    static method DiscardOutdatedScaleEvents(list: seq<ScaleEvent>, period: Ticks, now: Instant)
        returns (events: seq<ScaleEvent>)
      ensures events == Discarded(list, now - period)
    {
      events := list;
      var periodStart := now - period;
      while events != [] && events[0].time < periodStart
        invariant Discarded(events, periodStart) == Discarded(list, periodStart)
        decreases |events|
      {
        events := events[1..];
      }
    }
  }

  lemma FoldOfNone(limits: seq<Checked<u32>>, smallest: bool)
    ensures Fold(limits[..0], smallest) == Value(if smallest then U32_MAX else 0)
  {
  }

  lemma FoldOfMore(limits: seq<Checked<u32>>, i: nat, smallest: bool)
    requires i < |limits| && Fold(limits[..i], smallest).Value? && limits[i].Value?
    ensures var rest := Fold(limits[..i], smallest).v;
      Fold(limits[..i + 1], smallest) == Value(if smallest then Min(rest, limits[i].v) else Max(rest, limits[i].v))
  {
    assert limits[..i + 1][..i] == limits[..i];
  }

  lemma {:induction false} OverflowSpreads(limits: seq<Checked<u32>>, i: nat, smallest: bool)
    requires i < |limits| && limits[i].Overflow?
    ensures Fold(limits, smallest).Overflow?
  {
    FoldIsExtreme(limits, smallest);
  }
}
