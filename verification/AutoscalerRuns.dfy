/** Properties of whole runs of the pod autoscaler: an autoscaler is created, and then reconciled
    any number of times with arbitrary replica counts, metrics and failures in between. */
module AutoscalerRuns {
  import opened Common
  import opened Hpa
  import opened AutoscalerSpec

  /** The controller's memory and the outcomes after reconciling once per input. */
  function Run(hpa: HpaSpec, inputs: seq<RoundInput>, prune: bool): (r: (HpaState, seq<Outcome>))
    ensures |r.1| == |inputs|
  {
    if inputs == [] then (EMPTY_STATE, [])
    else
      var (st, outcomes) := Run(hpa, inputs[..|inputs| - 1], prune);
      var (st', outcome) := Round(hpa, st, inputs[|inputs| - 1], prune);
      (st', outcomes + [outcome])
  }

  /** The clock never goes backwards. */
  ghost predicate ClockRuns(inputs: seq<RoundInput>) {
    && (forall input <- inputs :: input.clock.Ordered())
    && (forall i, j :: 0 <= i < j < |inputs| ==> inputs[i].clock.discard <= inputs[j].clock.start)
  }

  // ---------- pruning is invisible ----------

  /** `kept` is `full` without some leading entries, all of them outside both windows. */
  predicate RecsShadow(kept: seq<Recommendation>, full: seq<Recommendation>, up: Instant, down: Instant) {
    kept == full || (full != [] && Outdated(full[0], up, down) && RecsShadow(kept, full[1..], up, down))
  }

  /** `kept` is `full` without some leading entries, all of them older than `cutoff`. */
  predicate EventsShadow(kept: seq<ScaleEvent>, full: seq<ScaleEvent>, cutoff: Instant) {
    kept == full || (full != [] && full[0].time < cutoff && EventsShadow(kept, full[1..], cutoff))
  }

  /** `kept` is `full` without leading entries that no window reaches any more from `now` on. */
  predicate Shadows(kept: HpaState, full: HpaState, behavior: Behavior, now: Instant) {
    && kept.recommendations.Some? == full.recommendations.Some?
    && RecsShadow(ListOf(kept.recommendations), ListOf(full.recommendations), UpCutoff(behavior, now),
      DownCutoff(behavior, now))
    && EventsShadow(ListOf(kept.scaleUps), ListOf(full.scaleUps), EventCutoff(behavior.scaleUp, now))
    && EventsShadow(ListOf(kept.scaleDowns), ListOf(full.scaleDowns), EventCutoff(behavior.scaleDown, now))
  }

  lemma {:induction false} RecsLater(kept: seq<Recommendation>, full: seq<Recommendation>, up: Instant, down: Instant,
      up': Instant, down': Instant)
    requires RecsShadow(kept, full, up, down) && up <= up' && down <= down'
    ensures RecsShadow(kept, full, up', down')
  {
    if kept != full { RecsLater(kept, full[1..], up, down, up', down'); }
  }

  lemma {:induction false} RecsAppended(kept: seq<Recommendation>, full: seq<Recommendation>, up: Instant,
      down: Instant, rec: Recommendation)
    requires RecsShadow(kept, full, up, down)
    ensures RecsShadow(kept + [rec], full + [rec], up, down)
  {
    if kept != full {
      RecsAppended(kept, full[1..], up, down, rec);
      assert (full + [rec])[1..] == full[1..] + [rec];
    }
  }

  lemma {:induction false} RecsPruned(kept: seq<Recommendation>, full: seq<Recommendation>, up: Instant, down: Instant)
    requires RecsShadow(kept, full, up, down)
    ensures RecsShadow(Pruned(kept, up, down), full, up, down)
  {
    if kept != full {
      RecsPruned(kept, full[1..], up, down);
    } else if full != [] && Outdated(full[0], up, down) {
      RecsPruned(full[1..], full[1..], up, down);
    }
  }

  lemma {:induction false} BoundsSkipFirst(recs: seq<Recommendation>, cutoff: Instant, desired: u32)
    requires recs != [] && recs[0].time < cutoff
    ensures UpBound(recs, cutoff, desired) == UpBound(recs[1..], cutoff, desired)
    ensures DownBound(recs, cutoff, desired) == DownBound(recs[1..], cutoff, desired)
  {
    if |recs| > 1 {
      var front := recs[..|recs| - 1];
      BoundsSkipFirst(front, cutoff, desired);
      assert front[1..] == recs[1..][..|recs| - 2];
    }
  }

  lemma {:induction false} BoundsAgree(kept: seq<Recommendation>, full: seq<Recommendation>, up: Instant,
      down: Instant, desired: u32)
    requires RecsShadow(kept, full, up, down)
    ensures UpBound(kept, up, desired) == UpBound(full, up, desired)
    ensures DownBound(kept, down, desired) == DownBound(full, down, desired)
  {
    if kept != full {
      BoundsAgree(kept, full[1..], up, down, desired);
      BoundsSkipFirst(full, up, desired);
      BoundsSkipFirst(full, down, desired);
    }
  }

  lemma {:induction false} EventsLater(kept: seq<ScaleEvent>, full: seq<ScaleEvent>, cutoff: Instant, cutoff': Instant)
    requires EventsShadow(kept, full, cutoff) && cutoff <= cutoff'
    ensures EventsShadow(kept, full, cutoff')
  {
    if kept != full { EventsLater(kept, full[1..], cutoff, cutoff'); }
  }

  lemma {:induction false} EventsAppended(kept: seq<ScaleEvent>, full: seq<ScaleEvent>, cutoff: Instant,
      event: ScaleEvent)
    requires EventsShadow(kept, full, cutoff)
    ensures EventsShadow(kept + [event], full + [event], cutoff)
  {
    if kept != full {
      EventsAppended(kept, full[1..], cutoff, event);
      assert (full + [event])[1..] == full[1..] + [event];
    }
  }

  lemma {:induction false} EventsDiscarded(kept: seq<ScaleEvent>, full: seq<ScaleEvent>, cutoff: Instant)
    requires EventsShadow(kept, full, cutoff)
    ensures EventsShadow(Discarded(kept, cutoff), full, cutoff)
  {
    if kept != full {
      EventsDiscarded(kept, full[1..], cutoff);
    } else if full != [] && full[0].time < cutoff {
      EventsDiscarded(full[1..], full[1..], cutoff);
    }
  }

  lemma {:induction false} SumAgrees(kept: seq<ScaleEvent>, full: seq<ScaleEvent>, cutoff: Instant, from: Instant)
    requires EventsShadow(kept, full, cutoff) && cutoff <= from
    ensures SumSince(kept, from) == SumSince(full, from)
  {
    if kept != full {
      SumAgrees(kept, full[1..], cutoff, from);
      assert full == [full[0]] + full[1..];
      SumSinceSplits([full[0]], full[1..], from);
      SumSinceOutdated([full[0]], from);
    }
  }

  lemma SumsAgree(kept: seq<ScaleEvent>, full: seq<ScaleEvent>, rules: ScalingRules, t: Instant, now: Instant)
    requires EventsShadow(kept, full, EventCutoff(rules, t)) && t <= now
    ensures forall policy <- rules.policies ::
      SumSince(kept, now - policy.period) == SumSince(full, now - policy.period)
  {
    LongestPeriodIsLongest(rules.policies);
    forall policy | policy in rules.policies
      ensures SumSince(kept, now - policy.period) == SumSince(full, now - policy.period)
    {
      SumAgrees(kept, full, EventCutoff(rules, t), now - policy.period);
    }
  }

  lemma ShadowsLater(kept: HpaState, full: HpaState, behavior: Behavior, t: Instant, now: Instant)
    requires Shadows(kept, full, behavior, t) && t <= now
    ensures Shadows(kept, full, behavior, now)
  {
    RecsLater(ListOf(kept.recommendations), ListOf(full.recommendations), UpCutoff(behavior, t),
      DownCutoff(behavior, t), UpCutoff(behavior, now), DownCutoff(behavior, now));
    EventsLater(ListOf(kept.scaleUps), ListOf(full.scaleUps), EventCutoff(behavior.scaleUp, t),
      EventCutoff(behavior.scaleUp, now));
    EventsLater(ListOf(kept.scaleDowns), ListOf(full.scaleDowns), EventCutoff(behavior.scaleDown, t),
      EventCutoff(behavior.scaleDown, now));
  }

  lemma StabilizeAgrees(kept: HpaState, full: HpaState, current: u32, desired: u32, behavior: Behavior, t: Instant,
      now: Instant)
    requires Shadows(kept, full, behavior, t) && t <= now
    ensures Stabilize(kept, current, desired, behavior, now, true).1 ==
      Stabilize(full, current, desired, behavior, now, false).1
    ensures Shadows(Stabilize(kept, current, desired, behavior, now, true).0,
                    Stabilize(full, current, desired, behavior, now, false).0, behavior, now)
  {
    ShadowsLater(kept, full, behavior, t, now);
    if kept.recommendations.Some? {
      var k, f := kept.recommendations.value, full.recommendations.value;
      var up, down := UpCutoff(behavior, now), DownCutoff(behavior, now);
      RecsPruned(k, f, up, down);
      BoundsAgree(Pruned(k, up, down), f, up, down, desired);
      RecsAppended(Pruned(k, up, down), f, up, down, Recommendation(desired, now));
    }
  }

  lemma {:induction false} ConformAgrees(hpa: HpaSpec, kept: HpaState, full: HpaState, current: u32, desired: u32,
      t: Instant,
      now: Instant)
    requires Shadows(kept, full, hpa.behavior, t) && t <= now
    ensures Conform(hpa, kept, current, desired, now) == Conform(hpa, full, current, desired, now)
  {
    var up, down := hpa.behavior.scaleUp, hpa.behavior.scaleDown;
    SumsAgree(ListOf(kept.scaleUps), ListOf(full.scaleUps), up, t, now);
    SumsAgree(ListOf(kept.scaleDowns), ListOf(full.scaleDowns), down, t, now);
    assert UpLimits(current, up, ListOf(kept.scaleUps), now) == UpLimits(current, up, ListOf(full.scaleUps), now);
    assert DownLimits(current, down, ListOf(kept.scaleDowns), now) ==
      DownLimits(current, down, ListOf(full.scaleDowns), now);
  }

  lemma RecordedAgrees(kept: Option<seq<ScaleEvent>>, full: Option<seq<ScaleEvent>>, rules: ScalingRules, change: u32,
      clock: Clock)
    requires EventsShadow(ListOf(kept), ListOf(full), EventCutoff(rules, clock.discard))
    ensures EventsShadow(ListOf(Recorded(kept, rules, change, clock, true)),
      ListOf(Recorded(full, rules, change, clock, false)), EventCutoff(rules, clock.discard))
  {
    var cutoff := EventCutoff(rules, clock.discard);
    EventsDiscarded(ListOf(kept), ListOf(full), cutoff);
    EventsAppended(Discarded(ListOf(kept), cutoff), ListOf(full), cutoff, ScaleEvent(change, clock.record));
  }

  lemma NormalizeAgrees(hpa: HpaSpec, kept: HpaState, full: HpaState, current: u32, desired: u32, t: Instant,
      clock: Clock)
    requires Shadows(kept, full, hpa.behavior, t) && t <= clock.stabilize <= clock.limit
    ensures Normalize(hpa, kept, current, desired, clock, true).1 ==
      Normalize(hpa, full, current, desired, clock, false).1
    ensures Shadows(Normalize(hpa, kept, current, desired, clock, true).0,
                    Normalize(hpa, full, current, desired, clock, false).0, hpa.behavior, clock.stabilize)
  {
    StabilizeAgrees(kept, full, current, desired, hpa.behavior, t, clock.stabilize);
    var (k, stabilized) := Stabilize(kept, current, desired, hpa.behavior, clock.stabilize, true);
    var (f, _) := Stabilize(full, current, desired, hpa.behavior, clock.stabilize, false);
    ConformAgrees(hpa, k, f, current, stabilized, clock.stabilize, clock.limit);
  }

  lemma DecideAgrees(hpa: HpaSpec, kept: HpaState, full: HpaState, input: RoundInput, t: Instant)
    requires Shadows(kept, full, hpa.behavior, t) && t <= input.clock.start && input.clock.Ordered()
    ensures Decide(hpa, kept, input, true).1 == Decide(hpa, full, input, false).1
    ensures Shadows(Decide(hpa, kept, input, true).0, Decide(hpa, full, input, false).0, hpa.behavior,
      input.clock.stabilize)
  {
    ShadowsLater(kept, full, hpa.behavior, t, input.clock.stabilize);
    if input.metric.Replicas? {
      NormalizeAgrees(hpa, kept, full, input.current, input.metric.n, t, input.clock);
    }
  }

  lemma RecordAgrees(kept: HpaState, full: HpaState, behavior: Behavior, prev: u32, next: u32, clock: Clock)
    requires Shadows(kept, full, behavior, clock.discard)
    ensures Shadows(Record(kept, behavior, prev, next, clock, true), Record(full, behavior, prev, next, clock, false),
      behavior, clock.discard)
  {
    if next > prev {
      RecordedAgrees(kept.scaleUps, full.scaleUps, behavior.scaleUp, next - prev, clock);
    } else if next < prev {
      RecordedAgrees(kept.scaleDowns, full.scaleDowns, behavior.scaleDown, prev - next, clock);
    }
  }

  lemma ApplyAgrees(hpa: HpaSpec, kept: HpaState, full: HpaState, decision: Calculated, input: RoundInput)
    requires Shadows(kept, full, hpa.behavior, input.clock.discard)
    ensures Apply(hpa, kept, decision, input, true).1 == Apply(hpa, full, decision, input, false).1
    ensures Shadows(Apply(hpa, kept, decision, input, true).0, Apply(hpa, full, decision, input, false).0,
      hpa.behavior, input.clock.discard)
  {
    if decision.Replicas? {
      RecordAgrees(kept, full, hpa.behavior, input.current, decision.n, input.clock);
    }
  }

  lemma NotedAgrees(kept: HpaState, full: HpaState, input: RoundInput, behavior: Behavior, t: Instant)
    requires Shadows(kept, full, behavior, t)
    ensures Shadows(kept.(recommendations := Some(Noted(kept, input))),
                    full.(recommendations := Some(Noted(full, input))), behavior, t)
  {
    if kept.recommendations.Some? {
      RecsAppended(kept.recommendations.value, full.recommendations.value, UpCutoff(behavior, t),
        DownCutoff(behavior, t),
                   Recommendation(input.current, input.clock.start));
    }
  }

  lemma RoundAgrees(hpa: HpaSpec, kept: HpaState, full: HpaState, input: RoundInput, t: Instant)
    requires Shadows(kept, full, hpa.behavior, t) && t <= input.clock.start && input.clock.Ordered()
    ensures var (k, a) := Round(hpa, kept, input, true);
            var (f, b) := Round(hpa, full, input, false);
            a == b && Shadows(k, f, hpa.behavior, input.clock.discard)
  {
    var kept1 := kept.(recommendations := Some(Noted(kept, input)));
    var full1 := full.(recommendations := Some(Noted(full, input)));
    NotedAgrees(kept, full, input, hpa.behavior, t);
    if input.statusDesired.None? {
      ShadowsLater(kept, full, hpa.behavior, t, input.clock.discard);
      return;
    }
    DecideAgrees(hpa, kept1, full1, input, t);
    var (k, decision) := Decide(hpa, kept1, input, true);
    var (f, _) := Decide(hpa, full1, input, false);
    ShadowsLater(k, f, hpa.behavior, input.clock.stabilize, input.clock.discard);
    ApplyAgrees(hpa, k, f, decision, input);
  }

  lemma {:induction false} RunsAgree(hpa: HpaSpec, inputs: seq<RoundInput>)
    requires ClockRuns(inputs)
    ensures Run(hpa, inputs, true).1 == Run(hpa, inputs, false).1
    ensures inputs != [] ==>
              Shadows(Run(hpa, inputs, true).0, Run(hpa, inputs, false).0, hpa.behavior,
                inputs[|inputs| - 1].clock.discard)
  {
    if inputs != [] {
      var front, last := inputs[..|inputs| - 1], inputs[|inputs| - 1];
      RunsAgree(hpa, front);
      var t := if front == [] then last.clock.start else front[|front| - 1].clock.discard;
      RoundAgrees(hpa, Run(hpa, front, true).0, Run(hpa, front, false).0, last, t);
    }
  }

  /** Forgetting outdated entries never changes what any reconcile of any run decides. */
  lemma {:induction false} PruningIsInvisible(hpa: HpaSpec, inputs: seq<RoundInput>)
    requires ClockRuns(inputs)
    ensures Run(hpa, inputs, true).1 == Run(hpa, inputs, false).1
  {
    RunsAgree(hpa, inputs);
  }

  // ---------- what every run keeps ----------

  ghost predicate SortedUpTo(recs: seq<Recommendation>, now: Instant) {
    TimeSorted(recs) && forall i :: 0 <= i < |recs| ==> recs[i].time <= now
  }

  lemma SortedAppend(recs: seq<Recommendation>, rec: Recommendation, now: Instant)
    requires SortedUpTo(recs, now) && now <= rec.time
    ensures SortedUpTo(recs + [rec], rec.time)
  {
  }

  lemma {:induction false} SortedPruned(recs: seq<Recommendation>, up: Instant, down: Instant, now: Instant)
    requires SortedUpTo(recs, now)
    ensures SortedUpTo(Pruned(recs, up, down), now)
  {
    if recs != [] && Outdated(recs[0], up, down) {
      SortedPruned(recs[1..], up, down, now);
    }
  }

  lemma RoundRecommendations(hpa: HpaSpec, st: HpaState, input: RoundInput)
    ensures var recs := Round(hpa, st, input, true).0.recommendations;
            var noted := Noted(st, input);
            recs == st.recommendations || recs == Some(noted) ||
            (input.metric.Replicas? &&
             recs == Some(Pruned(noted, UpCutoff(hpa.behavior, input.clock.stabilize),
               DownCutoff(hpa.behavior, input.clock.stabilize))
                          + [Recommendation(input.metric.n, input.clock.stabilize)]))
  {
  }

  lemma RoundKeepsSorted(hpa: HpaSpec, st: HpaState, input: RoundInput, t: Instant)
    requires SortedUpTo(ListOf(st.recommendations), t) && t <= input.clock.start && input.clock.Ordered()
    ensures SortedUpTo(ListOf(Round(hpa, st, input, true).0.recommendations), input.clock.discard)
  {
    var noted := Noted(st, input);
    assert SortedUpTo(noted, input.clock.start);
    RoundRecommendations(hpa, st, input);
    if input.metric.Replicas? {
      var up, down := UpCutoff(hpa.behavior, input.clock.stabilize), DownCutoff(hpa.behavior, input.clock.stabilize);
      SortedPruned(noted, up, down, input.clock.start);
      SortedAppend(Pruned(noted, up, down), Recommendation(input.metric.n, input.clock.stabilize), input.clock.start);
    }
  }

  /** The recommendation list is sorted by time in every run, so pruning keeps exactly the windows' entries. */
  lemma {:induction false} RecommendationsStaySorted(hpa: HpaSpec, inputs: seq<RoundInput>)
    requires ClockRuns(inputs)
    ensures TimeSorted(ListOf(Run(hpa, inputs, true).0.recommendations))
    ensures inputs != [] ==>
              SortedUpTo(ListOf(Run(hpa, inputs, true).0.recommendations), inputs[|inputs| - 1].clock.discard)
  {
    if inputs != [] {
      var n := |inputs| - 1;
      RecommendationsStaySorted(hpa, inputs[..n]);
      RoundKeepsSorted(hpa, Run(hpa, inputs[..n], true).0, inputs[n],
                       if n == 0 then inputs[n].clock.start else inputs[n - 1].clock.discard);
    }
  }

  /** After any completed reconcile of any run the target asks for 0 replicas or a count inside [min, max]. */
  lemma {:induction false} RunsStayInBounds(hpa: HpaSpec, inputs: seq<RoundInput>, i: nat)
    requires hpa.minReplicas <= hpa.maxReplicas && i < |inputs|
    ensures var o := Run(hpa, inputs, true).1[i];
            o.Done? ==> o.desired == 0 || hpa.minReplicas <= o.desired <= hpa.maxReplicas
  {
    var n := |inputs| - 1;
    if i < n {
      RunsStayInBounds(hpa, inputs[..n], i);
    } else {
      RoundStaysInBounds(hpa, Run(hpa, inputs[..n], true).0, inputs[n]);
    }
  }
}
