/** When the autoscaler's arithmetic stays in range. */
module AutoscalerRange {
  import opened Common
  import opened Hpa
  import opened AutoscalerSpec
  import opened AutoscalerRuns
  import opened AutoscalerLimits

  // ---------- the unsigned subtraction ----------

  /** For some policy more was added in its period than is there now, or a Pods policy's sum is too large. */
  ghost predicate UpOutOfRange(current: u32, rules: ScalingRules, events: seq<ScaleEvent>, now: Instant) {
    rules.selectPolicy != Disabled &&
    exists policy <- rules.policies ::
      var added := SumSince(events, now - policy.period);
      added > current || (policy.kind == Pods && current - added + policy.value > U32_MAX)
  }

  /** For some policy the count its period began with is too large. */
  ghost predicate DownOutOfRange(current: u32, rules: ScalingRules, events: seq<ScaleEvent>, now: Instant) {
    rules.selectPolicy != Disabled &&
    exists policy <- rules.policies :: current + SumSince(events, now - policy.period) > U32_MAX
  }

  /** Computing the scale-up limit leaves the range of `u32` exactly in those cases. */
  lemma ScaleUpLimitOverflows(current: u32, rules: ScalingRules, events: seq<ScaleEvent>, now: Instant)
    ensures ScaleUpLimit(current, rules, events, now).Overflow? <==> UpOutOfRange(current, rules, events, now)
  {
    var limits := UpLimits(current, rules, events, now);
    FoldIsExtreme(limits, rules.selectPolicy == SelectMin);
    if i :| 0 <= i < |limits| && limits[i].Overflow? {
      assert rules.policies[i] in rules.policies;
    }
    if policy :| policy in rules.policies && UpPeriodLimit(current, policy, events, now).Overflow? {
      var i :| 0 <= i < |limits| && rules.policies[i] == policy;
      assert limits[i] == UpPeriodLimit(current, policy, events, now);
    }
  }

  /** The dual for the scale-down limit. */
  lemma ScaleDownLimitOverflows(current: u32, rules: ScalingRules, events: seq<ScaleEvent>, now: Instant)
    ensures ScaleDownLimit(current, rules, events, now).Overflow? <==> DownOutOfRange(current, rules, events, now)
  {
    var limits := DownLimits(current, rules, events, now);
    FoldIsExtreme(limits, rules.selectPolicy == SelectMax);
    if i :| 0 <= i < |limits| && limits[i].Overflow? {
      assert rules.policies[i] in rules.policies;
    }
    if policy :| policy in rules.policies && DownPeriodLimit(current, policy, events, now).Overflow? {
      var i :| 0 <= i < |limits| && rules.policies[i] == policy;
      assert limits[i] == DownPeriodLimit(current, policy, events, now);
    }
  }

  /** The stabilised count that an evaluating reconcile hands to the rate limits. */
  function StabilizedWish(hpa: HpaSpec, st: HpaState, input: RoundInput): u32
    requires input.metric.Replicas?
  {
    Stabilize(st.(recommendations := Some(Noted(st, input))), input.current, input.metric.n,
              hpa.behavior, input.clock.stabilize, true).1
  }

  /** The limit of the direction that the stabilised wish asks for leaves the range. */
  ghost predicate LimitOutOfRange(hpa: HpaSpec, st: HpaState, input: RoundInput)
    requires input.metric.Replicas?
  {
    var wish := StabilizedWish(hpa, st, input);
    if wish > input.current then
      UpOutOfRange(input.current, hpa.behavior.scaleUp, ListOf(st.scaleUps), input.clock.limit)
    else
      wish < input.current
      && DownOutOfRange(input.current, hpa.behavior.scaleDown, ListOf(st.scaleDowns), input.clock.limit)
  }

  /** A reconcile panics if and only if it asks the metric, and either the calculator panics or the rate limit
      of the direction that the stabilised wish asks for leaves the range. */
  lemma PanicsIff(hpa: HpaSpec, st: HpaState, input: RoundInput)
    ensures Round(hpa, st, input, true).1 == Panicked <==>
      Asks(hpa, input) && (input.metric.Panic? || (input.metric.Replicas? && LimitOutOfRange(hpa, st, input)))
  {
    ScaleUpLimitOverflows(input.current, hpa.behavior.scaleUp, ListOf(st.scaleUps), input.clock.limit);
    ScaleDownLimitOverflows(input.current, hpa.behavior.scaleDown, ListOf(st.scaleDowns), input.clock.limit);
    hide UpOutOfRange, DownOutOfRange, ScaleUpLimit, ScaleDownLimit, Stabilized, Noted, Record;
  }

  function At(t: Instant): Clock { Clock(t, t + 1, t + 1, t + 1, t + 1) }

  const FOUR_PER_MINUTE := ScalingRules([ScalingPolicy(Pods, 4, 60)], SelectMax, 0)

  const SWINGING := HpaSpec(1, 10, Behavior(FOUR_PER_MINUTE, FOUR_PER_MINUTE))

  function Wish(current: u32, desired: u32, t: Instant): RoundInput {
    RoundInput(current, Some(current), Replicas(desired), true, At(t))
  }

  function Swing(t0: Instant, t1: Instant, t2: Instant): seq<RoundInput> {
    [Wish(1, 5, t0), Wish(5, 1, t1), Wish(1, 3, t2)]
  }

  function SwungUp(t: Instant): HpaState {
    HpaState(Some([Recommendation(5, t + 1)]), Some([ScaleEvent(4, t + 1)]), None)
  }

  function SwungDown(t0: Instant, t: Instant): HpaState {
    HpaState(Some([Recommendation(1, t + 1)]), Some([ScaleEvent(4, t0 + 1)]), Some([ScaleEvent(4, t + 1)]))
  }

  lemma SwingIsOrderly(t0: Instant, t1: Instant, t2: Instant)
    requires t0 < t1 < t2
    ensures ClockRuns(Swing(t0, t1, t2))
    ensures forall input <- Swing(t0, t1, t2) :: !JumpsUp(SWINGING, input) && !JumpsDown(SWINGING, input)
  {
  }

  /** Scaling up, down and up again inside one period: the second increase subtracts more than is there. */
  lemma UpDownUpUnderflows(t0: Instant, t1: Instant, t2: Instant)
    requires t0 < t1 < t2 < t0 + 60
    ensures ClockRuns(Swing(t0, t1, t2))
    ensures forall input <- Swing(t0, t1, t2) :: !JumpsUp(SWINGING, input) && !JumpsDown(SWINGING, input)
    ensures Run(SWINGING, Swing(t0, t1, t2), true).1 == [Done(5), Done(1), Panicked]
  {
    SwingIsOrderly(t0, t1, t2);
    hide Round, Run, ClockRuns, JumpsUp, JumpsDown;
    SwingUp(t0);
    SwingDown(t0, t1);
    SwingUpAgain(t0, t1, t2);
    RunOfThree(SWINGING, Wish(1, 5, t0), SwungUp(t0), Done(5), Wish(5, 1, t1), SwungDown(t0, t1), Done(1),
      Wish(1, 3, t2), Panicked);
  }

  lemma RunOfThree(hpa: HpaSpec, i0: RoundInput, s0: HpaState, o0: Outcome, i1: RoundInput, s1: HpaState, o1: Outcome,
      i2: RoundInput, o2: Outcome)
    requires Round(hpa, EMPTY_STATE, i0, true) == (s0, o0) && Round(hpa, s0, i1, true) == (s1, o1)
    requires Round(hpa, s1, i2, true).1 == o2
    ensures Run(hpa, [i0, i1, i2], true).1 == [o0, o1, o2]
  {
    RunSplits(hpa, [i0, i1, i2], true);
    RunSplits(hpa, [i0, i1], true);
    RunSplits(hpa, [i0], true);
    assert [i0, i1, i2][..2] == [i0, i1] && [i0, i1][..1] == [i0] && [i0][..0] == [];
  }

  /** A round in which every remembered recommendation has left both windows. */
  lemma QuietRound(hpa: HpaSpec, st: HpaState, input: RoundInput, desired: u32)
    requires hpa.minReplicas <= input.current <= hpa.maxReplicas && input.current > 0
    requires input.statusDesired.Some? && input.metric == Replicas(desired) && input.posted
    requires forall rec <- Noted(st, input) ::
      Outdated(rec, UpCutoff(hpa.behavior, input.clock.stabilize), DownCutoff(hpa.behavior, input.clock.stabilize))
    ensures var st' := st.(recommendations := Some([Recommendation(desired, input.clock.stabilize)]));
            var decision := match Conform(hpa, st', input.current, desired, input.clock.limit)
                            case Overflow => Overflow
                            case Value(d) => Value(Max(hpa.minReplicas, d));
            Round(hpa, st, input, true) == Apply(hpa, st', CountOf(decision), input, true)
  {
    var up, down := UpCutoff(hpa.behavior, input.clock.stabilize), DownCutoff(hpa.behavior, input.clock.stabilize);
    AllPruned(Noted(st, input), up, down);
    assert Stabilized([], input.current, desired, hpa.behavior, input.clock.stabilize) == desired;
    var entry := [Recommendation(desired, input.clock.stabilize)];
    assert [] + entry == entry;
    var noted := st.(recommendations := Some(Noted(st, input)));
    assert Stabilize(noted, input.current, desired, hpa.behavior, input.clock.stabilize, true)
        == (st.(recommendations := Some(entry)), desired);
  }

  lemma {:induction false} AllPruned(recs: seq<Recommendation>, up: Instant, down: Instant)
    requires forall rec <- recs :: Outdated(rec, up, down)
    ensures Pruned(recs, up, down) == []
  {
    if recs != [] { AllPruned(recs[1..], up, down); }
  }

  lemma SwingUp(t: Instant)
    ensures Round(SWINGING, EMPTY_STATE, Wish(1, 5, t), true) == (SwungUp(t), Done(5))
  {
    QuietRound(SWINGING, EMPTY_STATE, Wish(1, 5, t), 5);
    SingleUpLimit(1, [], t + 1);
    var st := EMPTY_STATE.(recommendations := Some([Recommendation(5, t + 1)]));
    assert Conform(SWINGING, st, 1, 5, t + 1) == Value(5);
    assert Apply(SWINGING, st, Replicas(5), Wish(1, 5, t), true).0
        == st.(scaleUps := Recorded(None, FOUR_PER_MINUTE, 4, At(t), true));
    assert [] + [ScaleEvent(4, t + 1)] == [ScaleEvent(4, t + 1)];
  }

  lemma SwingDown(t0: Instant, t: Instant)
    requires t0 < t
    ensures Round(SWINGING, SwungUp(t0), Wish(5, 1, t), true) == (SwungDown(t0, t), Done(1))
  {
    QuietRound(SWINGING, SwungUp(t0), Wish(5, 1, t), 1);
    SingleDownLimit(5, [], t + 1);
    var st := SwungUp(t0).(recommendations := Some([Recommendation(1, t + 1)]));
    assert Conform(SWINGING, st, 5, 1, t + 1) == Value(1);
    assert Apply(SWINGING, st, Replicas(1), Wish(5, 1, t), true).0
        == st.(scaleDowns := Recorded(None, FOUR_PER_MINUTE, 4, At(t), true));
    assert [] + [ScaleEvent(4, t + 1)] == [ScaleEvent(4, t + 1)];
  }

  lemma SwingUpAgain(t0: Instant, t: Instant, now: Instant)
    requires t0 < t < now < t0 + 60
    ensures Round(SWINGING, SwungDown(t0, t), Wish(1, 3, now), true).1 == Panicked
  {
    QuietRound(SWINGING, SwungDown(t0, t), Wish(1, 3, now), 3);
    var e := ScaleEvent(4, t0 + 1);
    assert [e][..0] == [];
    assert SumSince([e], now + 1 - 60) == 4;
    assert FOUR_PER_MINUTE.policies[0] in FOUR_PER_MINUTE.policies;
    ScaleUpLimitOverflows(1, FOUR_PER_MINUTE, [e], now + 1);
  }

  lemma SingleUpLimit(current: u32, events: seq<ScaleEvent>, now: Instant)
    ensures ScaleUpLimit(current, FOUR_PER_MINUTE, events, now) ==
      UpPeriodLimit(current, FOUR_PER_MINUTE.policies[0], events, now)
  {
    var limits := UpLimits(current, FOUR_PER_MINUTE, events, now);
    assert limits == [UpPeriodLimit(current, FOUR_PER_MINUTE.policies[0], events, now)];
    assert limits[..0] == [];
    assert Fold(limits[..0], false) == Value(0);
  }

  lemma SingleDownLimit(current: u32, events: seq<ScaleEvent>, now: Instant)
    ensures ScaleDownLimit(current, FOUR_PER_MINUTE, events, now) ==
      DownPeriodLimit(current, FOUR_PER_MINUTE.policies[0], events, now)
  {
    var limits := DownLimits(current, FOUR_PER_MINUTE, events, now);
    assert limits == [DownPeriodLimit(current, FOUR_PER_MINUTE.policies[0], events, now)];
    assert limits[..0] == [];
    assert Fold(limits[..0], true) == Value(U32_MAX);
  }

  // ---------- climbing runs stay in range ----------

  /** The replica count after a reconcile. */
  function Level(input: RoundInput, outcome: Outcome): u32 {
    if outcome.Done? then outcome.desired else input.current
  }

  /** Neither a reconcile nor anybody else ever lowers the replica count. */
  ghost predicate Climbs(inputs: seq<RoundInput>, outcomes: seq<Outcome>)
    requires |inputs| == |outcomes|
  {
    && (forall i :: 0 <= i < |inputs| ==> inputs[i].current <= Level(inputs[i], outcomes[i]))
    && (forall i, j :: 0 <= i < j < |inputs| ==> Level(inputs[i], outcomes[i]) <= inputs[j].current)
  }

  lemma {:induction false} ClimbingSums(inputs: seq<RoundInput>, outcomes: seq<Outcome>, from: Instant)
    requires |inputs| == |outcomes| && inputs != [] && Climbs(inputs, outcomes)
    ensures SumSince(Ups(inputs, outcomes), from) <= Level(inputs[|inputs| - 1], outcomes[|inputs| - 1])
    ensures Downs(inputs, outcomes) == []
  {
    var n := |inputs| - 1;
    if n == 0 {
      assert inputs[..0] == [] && outcomes[..0] == [];
    } else {
      ClimbingSums(inputs[..n], outcomes[..n], from);
    }
    SumSinceSplits(Ups(inputs[..n], outcomes[..n]), UpEvent(inputs[n], outcomes[n]), from);
    SumOfOne(UpEvent(inputs[n], outcomes[n]), from);
  }

  lemma SumOfOne(events: seq<ScaleEvent>, from: Instant)
    requires |events| <= 1
    ensures SumSince(events, from) <= if events == [] then 0 else events[0].change
  {
  }

  /** No Pods policy for scaling up reaches past the `u32` range. */
  predicate PodsValuesFit(hpa: HpaSpec) {
    forall policy <- hpa.behavior.scaleUp.policies ::
      policy.kind == Pods ==> policy.value <= U32_MAX - hpa.maxReplicas
  }

  /** The calculator is asked, and panics. */
  predicate CalculatorPanics(hpa: HpaSpec, input: RoundInput) { Asks(hpa, input) && input.metric == Panic }

  lemma ClimbingRoundStaysInRange(hpa: HpaSpec, st: HpaState, input: RoundInput)
    requires forall from :: SumSince(ListOf(st.scaleUps), from) <= input.current
    requires ListOf(st.scaleDowns) == [] && PodsValuesFit(hpa)
    ensures Round(hpa, st, input, false).1 == Panicked <==> CalculatorPanics(hpa, input)
  {
    var rules := hpa.behavior.scaleDown;
    var limits := DownLimits(input.current, rules, [], input.clock.limit);
    FoldIsExtreme(limits, rules.selectPolicy == SelectMax);
    ScaleUpLimitOverflows(input.current, hpa.behavior.scaleUp, ListOf(st.scaleUps), input.clock.limit);
  }

  /** While replicas only ever grow, and no Pods policy reaches past the `u32` range, the limits stay in range:
      the reconciles that panic are those whose calculator does. */
  lemma {:induction false} ClimbingRunsStayInRange(hpa: HpaSpec, inputs: seq<RoundInput>)
    requires ClockRuns(inputs) && Climbs(inputs, Run(hpa, inputs, true).1) && PodsValuesFit(hpa)
    ensures forall j :: 0 <= j < |inputs| ==>
              (Run(hpa, inputs, true).1[j] == Panicked <==> CalculatorPanics(hpa, inputs[j]))
  {
    PruningIsInvisible(hpa, inputs);
    UnprunedClimbsStayInRange(hpa, inputs);
  }

  lemma {:induction false} UnprunedClimbsStayInRange(hpa: HpaSpec, inputs: seq<RoundInput>)
    requires Climbs(inputs, Run(hpa, inputs, false).1) && PodsValuesFit(hpa)
    ensures forall j :: 0 <= j < |inputs| ==>
              (Run(hpa, inputs, false).1[j] == Panicked <==> CalculatorPanics(hpa, inputs[j]))
  {
    if inputs != [] {
      var n := |inputs| - 1;
      RunSplits(hpa, inputs, false);
      hide Run, Round, SumSince, CalculatorPanics;
      var (st, outcomes) := Run(hpa, inputs[..n], false);
      UnprunedClimbsStayInRange(hpa, inputs[..n]);
      ListsAreTheChanges(hpa, inputs[..n]);
      forall from ensures SumSince(ListOf(st.scaleUps), from) <= inputs[n].current {
        if n > 0 { ClimbingSums(inputs[..n], outcomes, from); }
      }
      if n > 0 { ClimbingSums(inputs[..n], outcomes, 0); }
      ClimbingRoundStaysInRange(hpa, st, inputs[n]);
    }
  }
}
