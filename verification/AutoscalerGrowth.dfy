/** How far replicas can move within the period of a policy, in runs that nobody else disturbs. */
module AutoscalerGrowth {
  import opened Common
  import opened Hpa
  import opened AutoscalerSpec
  import opened AutoscalerPolicies
  import opened AutoscalerRuns
  import opened AutoscalerLimits
  import opened AutoscalerRange

  /** Every reconcile starts from the replica count the previous one left. */
  ghost predicate Undisturbed(inputs: seq<RoundInput>, outcomes: seq<Outcome>)
    requires |inputs| == |outcomes|
  {
    forall i, j :: 0 <= i < j < |inputs| && j == i + 1 ==> Level(inputs[i], outcomes[i]) == inputs[j].current
  }

  /** From the i-th reconcile on, everything is recorded inside the policy's period before the last one. */
  ghost predicate WithinPeriod(inputs: seq<RoundInput>, i: nat, policy: ScalingPolicy)
    requires i < |inputs|
  {
    forall k :: i <= k < |inputs| ==> inputs[k].clock.record >= inputs[|inputs| - 1].clock.limit - policy.period
  }

  // ---------- the recorded changes of a period ----------

  lemma UpsGrow(inputs: seq<RoundInput>, outcomes: seq<Outcome>, from: Instant)
    requires |inputs| == |outcomes| && inputs != [] && inputs[|inputs| - 1].clock.record >= from
    ensures var n := |inputs| - 1;
            SumSince(Ups(inputs, outcomes), from) >=
              SumSince(Ups(inputs[..n], outcomes[..n]), from) + Level(inputs[n], outcomes[n]) - inputs[n].current
  {
    var n := |inputs| - 1;
    var event := UpEvent(inputs[n], outcomes[n]);
    SumSinceSplits(Ups(inputs[..n], outcomes[..n]), event, from);
    if event != [] { assert event[..0] == []; }
  }

  lemma DownsGrow(inputs: seq<RoundInput>, outcomes: seq<Outcome>, from: Instant)
    requires |inputs| == |outcomes| && inputs != [] && inputs[|inputs| - 1].clock.record >= from
    ensures var n := |inputs| - 1;
            SumSince(Downs(inputs, outcomes), from) >=
              SumSince(Downs(inputs[..n], outcomes[..n]), from) + inputs[n].current - Level(inputs[n], outcomes[n])
  {
    var n := |inputs| - 1;
    var event := DownEvent(inputs[n], outcomes[n]);
    SumSinceSplits(Downs(inputs[..n], outcomes[..n]), event, from);
    if event != [] { assert event[..0] == []; }
  }

  /** The increases since the i-th reconcile add up to at least the net climb, and the decreases to at least
      the net descent. */
  lemma {:induction false} ChangesTelescope(inputs: seq<RoundInput>, outcomes: seq<Outcome>, i: nat, from: Instant)
    requires |inputs| == |outcomes| && i < |inputs| && Undisturbed(inputs, outcomes)
    requires forall k :: i <= k < |inputs| ==> inputs[k].clock.record >= from
    ensures var end := Level(inputs[|inputs| - 1], outcomes[|inputs| - 1]);
            && SumSince(Ups(inputs, outcomes), from) >= end - inputs[i].current
            && SumSince(Downs(inputs, outcomes), from) >= inputs[i].current - end
  {
    var n := |inputs| - 1;
    if i < n {
      UndisturbedPrefix(inputs, outcomes);
      ChangesTelescope(inputs[..n], outcomes[..n], i, from);
    }
    hide Level, SumSince;
    UpsGrow(inputs, outcomes, from);
    DownsGrow(inputs, outcomes, from);
  }

  lemma UndisturbedPrefix(inputs: seq<RoundInput>, outcomes: seq<Outcome>)
    requires |inputs| == |outcomes| && |inputs| > 1 && Undisturbed(inputs, outcomes)
    ensures var n := |inputs| - 1;
            && Undisturbed(inputs[..n], outcomes[..n])
            && Level(inputs[..n][n - 1], outcomes[..n][n - 1]) == inputs[n].current
  {
    var n := |inputs| - 1;
    assert 0 <= n - 1 < n < |inputs| && n == (n - 1) + 1;
  }

  lemma PeriodSums(inputs: seq<RoundInput>, outcomes: seq<Outcome>, i: nat, from: Instant)
    requires |inputs| == |outcomes| && i < |inputs| && Undisturbed(inputs, outcomes)
    requires forall k :: i <= k < |inputs| ==> inputs[k].clock.record >= from
    ensures var n := |inputs| - 1;
            && SumSince(Ups(inputs[..n], outcomes[..n]), from) >= inputs[n].current - inputs[i].current
            && SumSince(Downs(inputs[..n], outcomes[..n]), from) >= inputs[i].current - inputs[n].current
  {
    var n := |inputs| - 1;
    if i < n {
      UndisturbedPrefix(inputs, outcomes);
      ChangesTelescope(inputs[..n], outcomes[..n], i, from);
    }
  }

  /** The state the last reconcile of a run starts from, if nothing is ever pruned. */
  function LastState(hpa: HpaSpec, inputs: seq<RoundInput>): HpaState
    requires inputs != []
  {
    Run(hpa, inputs[..|inputs| - 1], false).0
  }

  lemma {:induction false} LastLists(hpa: HpaSpec, inputs: seq<RoundInput>)
    requires ClockRuns(inputs) && inputs != []
    ensures var n, st := |inputs| - 1, LastState(hpa, inputs);
            var outcomes := Run(hpa, inputs, true).1;
            && ListOf(st.scaleUps) == Ups(inputs[..n], outcomes[..n])
            && ListOf(st.scaleDowns) == Downs(inputs[..n], outcomes[..n])
  {
    PruningIsInvisible(hpa, inputs);
    hide Run, Round, ClockRuns, Ups, Downs;
    RunSplits(hpa, inputs, false);
    ListsAreTheChanges(hpa, inputs[..|inputs| - 1]);
  }

  /** It remembers the whole climb and the whole descent since the i-th reconcile. */
  lemma ChangesAreRemembered(hpa: HpaSpec, inputs: seq<RoundInput>, i: nat, policy: ScalingPolicy)
    requires ClockRuns(inputs) && i < |inputs| && WithinPeriod(inputs, i, policy)
    requires Undisturbed(inputs, Run(hpa, inputs, true).1)
    ensures var n, st := |inputs| - 1, LastState(hpa, inputs);
            var from := inputs[n].clock.limit - policy.period;
            && SumSince(ListOf(st.scaleUps), from) >= inputs[n].current - inputs[i].current
            && SumSince(ListOf(st.scaleDowns), from) >= inputs[i].current - inputs[n].current
  {
    hide Run, LastState, SumSince, ClockRuns, Ups, Downs, Undisturbed;
    LastLists(hpa, inputs);
    PeriodSums(inputs, Run(hpa, inputs, true).1, i, inputs[|inputs| - 1].clock.limit - policy.period);
  }

  lemma {:induction false} LastOutcome(hpa: HpaSpec, inputs: seq<RoundInput>)
    requires ClockRuns(inputs) && inputs != []
    ensures var n := |inputs| - 1;
            Run(hpa, inputs, true).1[n] == Round(hpa, LastState(hpa, inputs), inputs[n], false).1
  {
    PruningIsInvisible(hpa, inputs);
    RunSplits(hpa, inputs, false);
  }

  // ---------- increases and decreases ----------

  lemma IncreaseStep(hpa: HpaSpec, st: HpaState, input: RoundInput, policy: ScalingPolicy, start: u32)
    requires !JumpsUp(hpa, input)
    requires hpa.behavior.scaleUp.selectPolicy == SelectMin && policy in hpa.behavior.scaleUp.policies
    requires SumSince(ListOf(st.scaleUps), input.clock.limit - policy.period) >= input.current - start
    ensures var level := Level(input, Round(hpa, st, input, false).1);
            level > input.current ==> level <= Ceiling(policy, start)
  {
    var rules, events, now := hpa.behavior.scaleUp, ListOf(st.scaleUps), input.clock.limit;
    IncreaseIsLimited(hpa, st, input, false);
    hide Round, ScaleUpLimit, UpPeriodLimit, Ceiling, SumSince, JumpsUp;
    if ScaleUpLimit(input.current, rules, events, now).Value? {
      EveryPolicyBoundsUp(input.current, rules, events, now, policy);
      UpLimitWithinCeiling(input.current, policy, events, now, start);
    }
  }

  /** With `Min` selection an increase that is not a jump ends, in any run that nobody else disturbs, below
      every policy's ceiling over the replica count at any reconcile of that policy's period, whatever
      decreases and jumps the run contains. */
  lemma {:induction false} GrowthIsLimited(hpa: HpaSpec, inputs: seq<RoundInput>, policy: ScalingPolicy, i: nat)
    requires ClockRuns(inputs) && i < |inputs| && WithinPeriod(inputs, i, policy) && !JumpsUp(hpa, inputs[|inputs| - 1])
    requires hpa.behavior.scaleUp.selectPolicy == SelectMin && policy in hpa.behavior.scaleUp.policies
    requires Undisturbed(inputs, Run(hpa, inputs, true).1)
    ensures var n := |inputs| - 1;
            var level := Level(inputs[n], Run(hpa, inputs, true).1[n]);
            level > inputs[n].current ==> level <= Ceiling(policy, inputs[i].current)
  {
    hide Run, Round, Ceiling, Level, SumSince, LastState, ClockRuns, Undisturbed, WithinPeriod, JumpsUp;
    ChangesAreRemembered(hpa, inputs, i, policy);
    LastOutcome(hpa, inputs);
    IncreaseStep(hpa, LastState(hpa, inputs), inputs[|inputs| - 1], policy, inputs[i].current);
  }

  lemma {:induction false} DecreaseStep(hpa: HpaSpec, st: HpaState, input: RoundInput, policy: ScalingPolicy,
      start: u32)
    requires !JumpsDown(hpa, input)
    requires hpa.behavior.scaleDown.selectPolicy == SelectMin && policy in hpa.behavior.scaleDown.policies
    requires SumSince(ListOf(st.scaleDowns), input.clock.limit - policy.period) >= start - input.current
    ensures var level := Level(input, Round(hpa, st, input, false).1);
            level < input.current ==> level >= Floor(policy, start)
  {
    var rules, events, now := hpa.behavior.scaleDown, ListOf(st.scaleDowns), input.clock.limit;
    DecreaseIsLimited(hpa, st, input, false);
    hide Round, ScaleDownLimit, DownPeriodLimit, Floor, SumSince, JumpsDown;
    if ScaleDownLimit(input.current, rules, events, now).Value? {
      EveryPolicyBoundsDown(input.current, rules, events, now, policy);
      DownLimitAboveFloor(input.current, policy, events, now, start);
    }
  }

  /** The dual: a decrease that is not a jump ends above every policy's floor. */
  lemma {:induction false} ShrinkageIsLimited(hpa: HpaSpec, inputs: seq<RoundInput>, policy: ScalingPolicy, i: nat)
    requires ClockRuns(inputs) && i < |inputs| && WithinPeriod(inputs, i, policy)
    requires !JumpsDown(hpa, inputs[|inputs| - 1])
    requires hpa.behavior.scaleDown.selectPolicy == SelectMin && policy in hpa.behavior.scaleDown.policies
    requires Undisturbed(inputs, Run(hpa, inputs, true).1)
    ensures var n := |inputs| - 1;
            var level := Level(inputs[n], Run(hpa, inputs, true).1[n]);
            level < inputs[n].current ==> level >= Floor(policy, inputs[i].current)
  {
    hide Run, Round, Floor, Level, SumSince, LastState, ClockRuns, Undisturbed, WithinPeriod, JumpsDown;
    ChangesAreRemembered(hpa, inputs, i, policy);
    LastOutcome(hpa, inputs);
    DecreaseStep(hpa, LastState(hpa, inputs), inputs[|inputs| - 1], policy, inputs[i].current);
  }

  /** One reconcile of each policy's period. */
  ghost predicate Starts(inputs: seq<RoundInput>, rules: ScalingRules, starts: seq<nat>) {
    && |starts| == |rules.policies|
    && forall p :: 0 <= p < |starts| ==> starts[p] < |inputs| && WithinPeriod(inputs, starts[p], rules.policies[p])
  }

  lemma {:induction false} IncreaseUnderMaxStep(hpa: HpaSpec, st: HpaState, input: RoundInput) returns (p: int)
    requires !JumpsUp(hpa, input) && hpa.behavior.scaleUp.selectPolicy == SelectMax
    ensures var level, policies := Level(input, Round(hpa, st, input, false).1), hpa.behavior.scaleUp.policies;
            level > input.current ==>
              && 0 <= p < |policies|
              && UpPeriodLimit(input.current, policies[p], ListOf(st.scaleUps), input.clock.limit).Value?
              && level <= UpPeriodLimit(input.current, policies[p], ListOf(st.scaleUps), input.clock.limit).v
  {
    IncreaseIsLimited(hpa, st, input, false);
    hide Round, ScaleUpLimit, UpPeriodLimit, JumpsUp;
    p := 0;
    var limit := ScaleUpLimit(input.current, hpa.behavior.scaleUp, ListOf(st.scaleUps), input.clock.limit);
    if limit.Value? && limit.v > input.current {
      p := SomePolicyBoundsUp(input.current, hpa.behavior.scaleUp, ListOf(st.scaleUps), input.clock.limit);
    }
  }

  /** With `Max` selection, the default, such an increase ends below the ceiling of one of the policies over
      the replica count at whichever reconcile of its period is chosen for it. */
  lemma {:induction false} GrowthUnderMaxIsLimited(hpa: HpaSpec, inputs: seq<RoundInput>, starts: seq<nat>)
      returns (p: int)
    requires ClockRuns(inputs) && inputs != [] && !JumpsUp(hpa, inputs[|inputs| - 1])
    requires hpa.behavior.scaleUp.selectPolicy == SelectMax && Starts(inputs, hpa.behavior.scaleUp, starts)
    requires Undisturbed(inputs, Run(hpa, inputs, true).1)
    ensures var n, policies := |inputs| - 1, hpa.behavior.scaleUp.policies;
            var level := Level(inputs[n], Run(hpa, inputs, true).1[n]);
            level > inputs[n].current ==>
              0 <= p < |policies| && level <= Ceiling(policies[p], inputs[starts[p]].current)
  {
    var last, st, policies := inputs[|inputs| - 1], LastState(hpa, inputs), hpa.behavior.scaleUp.policies;
    LastOutcome(hpa, inputs);
    hide Run, Round, UpPeriodLimit, Ceiling, Level, SumSince, LastState, ClockRuns, Undisturbed, WithinPeriod, JumpsUp;
    p := IncreaseUnderMaxStep(hpa, st, last);
    if 0 <= p < |policies| {
      ChangesAreRemembered(hpa, inputs, starts[p], policies[p]);
      UpLimitWithinCeiling(last.current, policies[p], ListOf(st.scaleUps), last.clock.limit, inputs[starts[p]].current);
    }
  }

  lemma {:induction false} DecreaseUnderMaxStep(hpa: HpaSpec, st: HpaState, input: RoundInput) returns (p: int)
    requires !JumpsDown(hpa, input) && hpa.behavior.scaleDown.selectPolicy == SelectMax
    ensures var level, policies := Level(input, Round(hpa, st, input, false).1), hpa.behavior.scaleDown.policies;
            level < input.current ==>
              && 0 <= p < |policies|
              && DownPeriodLimit(input.current, policies[p], ListOf(st.scaleDowns), input.clock.limit).Value?
              && level >= DownPeriodLimit(input.current, policies[p], ListOf(st.scaleDowns), input.clock.limit).v
  {
    DecreaseIsLimited(hpa, st, input, false);
    hide Round, ScaleDownLimit, DownPeriodLimit, JumpsDown;
    p := 0;
    var limit := ScaleDownLimit(input.current, hpa.behavior.scaleDown, ListOf(st.scaleDowns), input.clock.limit);
    if limit.Value? && limit.v < input.current {
      p := SomePolicyBoundsDown(input.current, hpa.behavior.scaleDown, ListOf(st.scaleDowns), input.clock.limit);
    }
  }

  /** The dual: a decrease ends above the floor of one of the policies. */
  lemma {:induction false} ShrinkageUnderMaxIsLimited(hpa: HpaSpec, inputs: seq<RoundInput>, starts: seq<nat>)
      returns (p: int)
    requires ClockRuns(inputs) && inputs != [] && !JumpsDown(hpa, inputs[|inputs| - 1])
    requires hpa.behavior.scaleDown.selectPolicy == SelectMax && Starts(inputs, hpa.behavior.scaleDown, starts)
    requires Undisturbed(inputs, Run(hpa, inputs, true).1)
    ensures var n, policies := |inputs| - 1, hpa.behavior.scaleDown.policies;
            var level := Level(inputs[n], Run(hpa, inputs, true).1[n]);
            level < inputs[n].current ==>
              0 <= p < |policies| && level >= Floor(policies[p], inputs[starts[p]].current)
  {
    var last, st, policies := inputs[|inputs| - 1], LastState(hpa, inputs), hpa.behavior.scaleDown.policies;
    LastOutcome(hpa, inputs);
    hide Run, Round, DownPeriodLimit, Floor, Level, SumSince, LastState, ClockRuns, Undisturbed, WithinPeriod,
      JumpsDown;
    p := DecreaseUnderMaxStep(hpa, st, last);
    if 0 <= p < |policies| {
      ChangesAreRemembered(hpa, inputs, starts[p], policies[p]);
      DownLimitAboveFloor(last.current, policies[p], ListOf(st.scaleDowns), last.clock.limit,
        inputs[starts[p]].current);
    }
  }

  /** So the default rules, 4 pods or as many again in one period, keep what they say. */
  lemma {:induction false} DefaultGrowthIsLimited(hpa: HpaSpec, inputs: seq<RoundInput>, i: nat, period: Ticks)
    requires ClockRuns(inputs) && i < |inputs| && WithinPeriod(inputs, i, ScalingPolicy(Pods, 4, period))
    requires !JumpsUp(hpa, inputs[|inputs| - 1]) && Undisturbed(inputs, Run(hpa, inputs, true).1)
    requires hpa.behavior.scaleUp.selectPolicy == SelectMax
    requires hpa.behavior.scaleUp.policies == [ScalingPolicy(Pods, 4, period), ScalingPolicy(Percent, 100, period)]
    ensures var n, start := |inputs| - 1, inputs[i].current;
            var level := Level(inputs[n], Run(hpa, inputs, true).1[n]);
            level > inputs[n].current ==> level <= Max(start + 4, 2 * start)
  {
    hide Run, Level, ClockRuns, Undisturbed, JumpsUp;
    var p := GrowthUnderMaxIsLimited(hpa, inputs, [i, i]);
  }
}
