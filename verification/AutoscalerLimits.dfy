/** Rate limits of the pod autoscaler over whole runs. */
module AutoscalerLimits {
  import opened Common
  import opened Hpa
  import opened AutoscalerSpec
  import opened AutoscalerRuns

  // ---------- the changes a run made ----------

  /** The increases of a run with the instants they were recorded at. */
  function Ups(inputs: seq<RoundInput>, outcomes: seq<Outcome>): seq<ScaleEvent>
    requires |inputs| == |outcomes|
  {
    if inputs == [] then []
    else
      var n := |inputs| - 1;
      Ups(inputs[..n], outcomes[..n]) + UpEvent(inputs[n], outcomes[n])
  }

  lemma UpsSplit(inputs: seq<RoundInput>, outcomes: seq<Outcome>)
    requires |inputs| == |outcomes| && inputs != []
    ensures var n := |inputs| - 1;
            && Ups(inputs, outcomes) == Ups(inputs[..n], outcomes[..n]) + UpEvent(inputs[n], outcomes[n])
            && |UpEvent(inputs[n], outcomes[n])| <= 1
  {
  }

  function UpEvent(input: RoundInput, outcome: Outcome): seq<ScaleEvent> {
    if outcome.Done? && outcome.desired > input.current then
      [ScaleEvent(outcome.desired - input.current, input.clock.record)]
    else []
  }

  /** The decreases of a run with the instants they were recorded at. */
  function Downs(inputs: seq<RoundInput>, outcomes: seq<Outcome>): seq<ScaleEvent>
    requires |inputs| == |outcomes|
  {
    if inputs == [] then []
    else
      var n := |inputs| - 1;
      Downs(inputs[..n], outcomes[..n]) + DownEvent(inputs[n], outcomes[n])
  }

  lemma DownsSplit(inputs: seq<RoundInput>, outcomes: seq<Outcome>)
    requires |inputs| == |outcomes| && inputs != []
    ensures var n := |inputs| - 1;
            && Downs(inputs, outcomes) == Downs(inputs[..n], outcomes[..n]) + DownEvent(inputs[n], outcomes[n])
            && |DownEvent(inputs[n], outcomes[n])| <= 1
  {
  }

  function DownEvent(input: RoundInput, outcome: Outcome): seq<ScaleEvent> {
    if outcome.Done? && outcome.desired < input.current then
      [ScaleEvent(input.current - outcome.desired, input.clock.record)]
    else []
  }

  /** Sum of the changes recorded in the closed window [from, to]. */
  function WindowSum(events: seq<ScaleEvent>, from: Instant, to: Instant): nat {
    if events == [] then 0
    else
      var e := events[|events| - 1];
      WindowSum(events[..|events| - 1], from, to) + if from <= e.time <= to then e.change else 0
  }

  lemma {:induction false} WindowSumAtMostSince(events: seq<ScaleEvent>, from: Instant, to: Instant)
    ensures WindowSum(events, from, to) <= SumSince(events, from)
  {
    if events != [] {
      WindowSumAtMostSince(events[..|events| - 1], from, to);
    }
  }

  lemma RoundRecords(hpa: HpaSpec, st: HpaState, input: RoundInput)
    ensures var (st', outcome) := Round(hpa, st, input, false);
            && ListOf(st'.scaleUps) == ListOf(st.scaleUps) + UpEvent(input, outcome)
            && ListOf(st'.scaleDowns) == ListOf(st.scaleDowns) + DownEvent(input, outcome)
  {
  }

  /** Without pruning the event lists are exactly the changes the run made. */
  lemma {:induction false} ListsAreTheChanges(hpa: HpaSpec, inputs: seq<RoundInput>)
    ensures var (st, outcomes) := Run(hpa, inputs, false);
            && ListOf(st.scaleUps) == Ups(inputs, outcomes)
            && ListOf(st.scaleDowns) == Downs(inputs, outcomes)
  {
    if inputs != [] {
      var n := |inputs| - 1;
      ListsAreTheChanges(hpa, inputs[..n]);
      RoundRecords(hpa, Run(hpa, inputs[..n], false).0, inputs[n]);
      assert Run(hpa, inputs, false).1[..n] == Run(hpa, inputs[..n], false).1;
    }
  }

  // ---------- when a list of changes keeps a rate ----------

  /** Sum of the changes recorded in the closed window of one period from `from` on. */
  function PeriodSum(events: seq<ScaleEvent>, from: Instant, period: Ticks): nat {
    WindowSum(events, from, from + period)
  }

  /** Every closed window of the period sums to at most `value`. */
  ghost predicate KeepsRate(events: seq<ScaleEvent>, period: Ticks, value: nat) {
    forall from :: PeriodSum(events, from, period) <= value
  }

  /** The change together with those recorded in the period before it is at most `value`. */
  predicate Fits(before: seq<ScaleEvent>, change: nat, time: Instant, period: Ticks, value: nat) {
    change + SumSince(before, time - period) <= value
  }

  predicate AllFit(events: seq<ScaleEvent>, period: Ticks, value: nat) {
    events == [] ||
    var n := |events| - 1;
    AllFit(events[..n], period, value) && Fits(events[..n], events[n].change, events[n].time, period, value)
  }

  ghost predicate RecordedBy(events: seq<ScaleEvent>, now: Instant) {
    forall e <- events :: e.time <= now
  }

  predicate InOrder(events: seq<ScaleEvent>) {
    events == [] ||
    var n := |events| - 1;
    InOrder(events[..n]) && (forall e <- events[..n] :: e.time <= events[n].time)
  }

  lemma WindowGrows(events: seq<ScaleEvent>, e: ScaleEvent, period: Ticks, from: Instant, value: nat)
    requires Fits(events, e.change, e.time, period, value)
    requires WindowSum(events, from, from + period) <= value
    ensures WindowSum(events + [e], from, from + period) <= value
  {
    assert (events + [e])[..|events|] == events;
    if from <= e.time <= from + period {
      WindowSumAtMostSince(events, from, from + period);
      SumSinceMonotone(events, e.time - period, from);
    }
  }

  lemma {:induction false} WindowIsSince(events: seq<ScaleEvent>, from: Instant, to: Instant)
    requires RecordedBy(events, to)
    ensures WindowSum(events, from, to) == SumSince(events, from)
  {
    if events != [] {
      var n := |events| - 1;
      assert events[n] in events;
      assert forall e <- events[..n] :: e in events;
      WindowIsSince(events[..n], from, to);
    }
  }

  /** On a time-ordered list every closed window of the period sums to at most `value` exactly if every
      change fits with those of the period before it. */
  lemma {:induction false} KeepsRateIff(events: seq<ScaleEvent>, period: Ticks, value: nat)
    requires InOrder(events)
    ensures KeepsRate(events, period, value) <==> AllFit(events, period, value)
  {
    if events != [] {
      var n := |events| - 1;
      var front, last := events[..n], events[n];
      KeepsRateIff(front, period, value);
      assert events == front + [last];
      if AllFit(events, period, value) {
        forall from ensures PeriodSum(events, from, period) <= value {
          assert PeriodSum(front, from, period) <= value;
          WindowGrows(front, last, period, from, value);
        }
      }
      if KeepsRate(events, period, value) {
        forall from ensures PeriodSum(front, from, period) <= value {
          assert PeriodSum(events, from, period) <= value;
        }
        assert PeriodSum(events, last.time - period, period) <= value;
        WindowIsSince(front, last.time - period, last.time);
      }
    }
  }

  lemma {:induction false} UpsInOrder(inputs: seq<RoundInput>, outcomes: seq<Outcome>)
    requires |inputs| == |outcomes| && ClockRuns(inputs)
    ensures InOrder(Ups(inputs, outcomes))
    ensures inputs != [] ==> RecordedBy(Ups(inputs, outcomes), inputs[|inputs| - 1].clock.record)
  {
    if inputs != [] {
      var n := |inputs| - 1;
      UpsInOrder(inputs[..n], outcomes[..n]);
      AppendInOrder(Ups(inputs[..n], outcomes[..n]), UpEvent(inputs[n], outcomes[n]),
        if n == 0 then inputs[n].clock.record else inputs[n - 1].clock.record, inputs[n].clock.record);
    }
  }

  lemma {:induction false} DownsInOrder(inputs: seq<RoundInput>, outcomes: seq<Outcome>)
    requires |inputs| == |outcomes| && ClockRuns(inputs)
    ensures InOrder(Downs(inputs, outcomes))
    ensures inputs != [] ==> RecordedBy(Downs(inputs, outcomes), inputs[|inputs| - 1].clock.record)
  {
    if inputs != [] {
      var n := |inputs| - 1;
      DownsInOrder(inputs[..n], outcomes[..n]);
      AppendInOrder(Downs(inputs[..n], outcomes[..n]), DownEvent(inputs[n], outcomes[n]),
        if n == 0 then inputs[n].clock.record else inputs[n - 1].clock.record, inputs[n].clock.record);
    }
  }

  lemma {:induction false} AppendInOrder(events: seq<ScaleEvent>, more: seq<ScaleEvent>, before: Instant, now: Instant)
    requires InOrder(events) && RecordedBy(events, before) && before <= now
    requires |more| <= 1 && forall e <- more :: e.time == now
    ensures InOrder(events + more) && RecordedBy(events + more, now)
  {
    if more == [] {
      assert events + more == events;
    } else {
      var all := events + more;
      assert all[..|all| - 1] == events && all[|events|] == more[0] && more[0] in more;
    }
  }

  // ---------- what is remembered of the changes ----------

  lemma {:induction false} DiscardedSplits(events: seq<ScaleEvent>, from: Instant) returns (dropped: seq<ScaleEvent>)
    ensures events == dropped + Discarded(events, from) && forall e <- dropped :: e.time < from
    ensures Discarded(events, from) != [] ==> Discarded(events, from)[0].time >= from
  {
    dropped := [];
    if events != [] && events[0].time < from {
      dropped := DiscardedSplits(events[1..], from);
      dropped := [events[0]] + dropped;
    }
  }

  lemma {:induction false} InOrderPairs(events: seq<ScaleEvent>, i: nat, j: nat)
    requires InOrder(events) && i <= j < |events|
    ensures events[i].time <= events[j].time
  {
    var n := |events| - 1;
    if j < n {
      InOrderPairs(events[..n], i, j);
    } else if i < n {
      assert events[i] in events[..n];
    }
  }

  /** Recording a change forgets exactly the changes that the longest policy period has passed. */
  lemma {:induction false} RecordingForgetsThePast(list: seq<ScaleEvent>, rules: ScalingRules, change: u32,
      clock: Clock)
      returns (dropped: seq<ScaleEvent>, kept: seq<ScaleEvent>)
    requires InOrder(list)
    ensures Recorded(Some(list), rules, change, clock, true) == Some(kept + [ScaleEvent(change, clock.record)])
    ensures list == dropped + kept
    ensures forall e <- dropped :: e.time < clock.discard - LongestPeriod(rules.policies)
    ensures forall e <- kept :: e.time >= clock.discard - LongestPeriod(rules.policies)
  {
    var from := clock.discard - LongestPeriod(rules.policies);
    dropped := DiscardedSplits(list, from);
    kept := Discarded(list, from);
    forall e | e in kept ensures e.time >= from {
      var j :| 0 <= j < |kept| && kept[j] == e;
      assert kept[0] == list[|dropped|] && kept[j] == list[|dropped| + j];
      InOrderPairs(list, |dropped|, |dropped| + j);
    }
  }

  // ---------- the rate limit ----------

  /** A reconcile that bypasses the policies by jumping up to the minimum. */
  predicate JumpsUp(hpa: HpaSpec, input: RoundInput) {
    input.statusDesired.Some? && 0 < input.current < hpa.minReplicas && input.current <= hpa.maxReplicas && input.posted
  }

  /** A reconcile that bypasses the policies by jumping down to the maximum. */
  predicate JumpsDown(hpa: HpaSpec, input: RoundInput) {
    input.statusDesired.Some? && input.current > hpa.maxReplicas && input.posted
  }

  /** If the i-th reconcile jumps up, the jump fits with the increases of the period before it. */
  predicate JumpUpFits(hpa: HpaSpec, inputs: seq<RoundInput>, outcomes: seq<Outcome>, policy: ScalingPolicy, i: int)
    requires |inputs| == |outcomes| && 0 <= i < |inputs|
  {
    JumpsUp(hpa, inputs[i]) ==>
      Fits(Ups(inputs[..i], outcomes[..i]), hpa.minReplicas - inputs[i].current, inputs[i].clock.record,
        policy.period, policy.value)
  }

  predicate JumpDownFits(hpa: HpaSpec, inputs: seq<RoundInput>, outcomes: seq<Outcome>, policy: ScalingPolicy, i: int)
    requires |inputs| == |outcomes| && 0 <= i < |inputs|
  {
    JumpsDown(hpa, inputs[i]) ==>
      Fits(Downs(inputs[..i], outcomes[..i]), inputs[i].current - hpa.maxReplicas, inputs[i].clock.record,
        policy.period, policy.value)
  }

  lemma LimitRespectsUpPolicy(current: u32, rules: ScalingRules, events: seq<ScaleEvent>, now: Instant,
      policy: ScalingPolicy)
    requires rules.selectPolicy == SelectMin && policy in rules.policies && policy.kind == Pods
    ensures var limit := ScaleUpLimit(current, rules, events, now);
            limit.Value? ==> limit.v - current + SumSince(events, now - policy.period) <= policy.value
  {
    var limits := UpLimits(current, rules, events, now);
    FoldIsExtreme(limits, true);
    var i :| 0 <= i < |rules.policies| && rules.policies[i] == policy;
    assert limits[i] == UpPeriodLimit(current, policy, events, now);
  }

  lemma LimitRespectsDownPolicy(current: u32, rules: ScalingRules, events: seq<ScaleEvent>, now: Instant,
      policy: ScalingPolicy)
    requires rules.selectPolicy == SelectMin && policy in rules.policies && policy.kind == Pods
    ensures var limit := ScaleDownLimit(current, rules, events, now);
            limit.Value? && limit.v < current ==>
              current - limit.v + SumSince(events, now - policy.period) <= policy.value
  {
    var limits := DownLimits(current, rules, events, now);
    FoldIsExtreme(limits, false);
    var i :| 0 <= i < |rules.policies| && rules.policies[i] == policy;
    assert limits[i] == DownPeriodLimit(current, policy, events, now);
  }

  /** An increase is a jump to the minimum, or stays below the limit computed from the policies. */
  lemma IncreaseIsLimited(hpa: HpaSpec, st: HpaState, input: RoundInput, prune: bool)
    ensures var outcome := Round(hpa, st, input, prune).1;
      if JumpsUp(hpa, input) then outcome == Done(hpa.minReplicas)
      else outcome.Done? && outcome.desired > input.current ==>
        var limit := ScaleUpLimit(input.current, hpa.behavior.scaleUp, ListOf(st.scaleUps), input.clock.limit);
        limit.Value? && outcome.desired <= limit.v
  {
  }

  /** A decrease is a jump to the maximum, or stays above the limit computed from the policies. */
  lemma DecreaseIsLimited(hpa: HpaSpec, st: HpaState, input: RoundInput, prune: bool)
    ensures var outcome := Round(hpa, st, input, prune).1;
      if JumpsDown(hpa, input) then outcome == Done(hpa.maxReplicas)
      else outcome.Done? && outcome.desired < input.current ==>
        var limit := ScaleDownLimit(input.current, hpa.behavior.scaleDown, ListOf(st.scaleDowns), input.clock.limit);
        limit.Value? && limit.v <= outcome.desired
  {
  }

  lemma RunSplits(hpa: HpaSpec, inputs: seq<RoundInput>, prune: bool)
    requires inputs != []
    ensures var n := |inputs| - 1;
            var (st, outcomes) := Run(hpa, inputs[..n], prune);
            && Run(hpa, inputs, prune).1 == outcomes + [Round(hpa, st, inputs[n], prune).1]
            && Run(hpa, inputs, prune).1[..n] == outcomes
            && Run(hpa, inputs, prune).0 == Round(hpa, st, inputs[n], prune).0
  {
  }

  /** What one reconcile records fits unless it is a jump; a jump up is recorded in full. */
  lemma UpEventFits(hpa: HpaSpec, st: HpaState, input: RoundInput, policy: ScalingPolicy)
    requires input.clock.Ordered() && hpa.behavior.scaleUp.selectPolicy == SelectMin
    requires policy in hpa.behavior.scaleUp.policies && policy.kind == Pods
    ensures var event := UpEvent(input, Round(hpa, st, input, false).1);
      if JumpsUp(hpa, input) then event == [ScaleEvent(hpa.minReplicas - input.current, input.clock.record)]
      else event != [] ==> Fits(ListOf(st.scaleUps), event[0].change, event[0].time, policy.period, policy.value)
  {
    hide Round, ScaleUpLimit, SumSince;
    IncreaseIsLimited(hpa, st, input, false);
    LimitRespectsUpPolicy(input.current, hpa.behavior.scaleUp, ListOf(st.scaleUps), input.clock.limit, policy);
    SumSinceMonotone(ListOf(st.scaleUps), input.clock.limit - policy.period, input.clock.record - policy.period);
  }

  lemma {:induction false} DownEventFits(hpa: HpaSpec, st: HpaState, input: RoundInput, policy: ScalingPolicy)
    requires input.clock.Ordered() && hpa.behavior.scaleDown.selectPolicy == SelectMin
    requires policy in hpa.behavior.scaleDown.policies && policy.kind == Pods
    ensures var event := DownEvent(input, Round(hpa, st, input, false).1);
      if JumpsDown(hpa, input) then event == [ScaleEvent(input.current - hpa.maxReplicas, input.clock.record)]
      else event != [] ==> Fits(ListOf(st.scaleDowns), event[0].change, event[0].time, policy.period, policy.value)
  {
    hide Round, ScaleDownLimit, SumSince;
    DecreaseIsLimited(hpa, st, input, false);
    LimitRespectsDownPolicy(input.current, hpa.behavior.scaleDown, ListOf(st.scaleDowns), input.clock.limit, policy);
    SumSinceMonotone(ListOf(st.scaleDowns), input.clock.limit - policy.period, input.clock.record - policy.period);
  }

  lemma AllFitAppend(events: seq<ScaleEvent>, more: seq<ScaleEvent>, period: Ticks, value: nat)
    requires |more| <= 1
    ensures AllFit(events + more, period, value) <==>
              AllFit(events, period, value)
                && (more != [] ==> Fits(events, more[0].change, more[0].time, period, value))
  {
    if more == [] {
      assert events + more == events;
    } else {
      assert (events + more)[..|events|] == events;
    }
  }

  ghost predicate JumpsUpFit(hpa: HpaSpec, inputs: seq<RoundInput>, outcomes: seq<Outcome>, policy: ScalingPolicy) {
    |inputs| == |outcomes| && forall i :: 0 <= i < |inputs| ==> JumpUpFits(hpa, inputs, outcomes, policy, i)
  }

  ghost predicate JumpsDownFit(hpa: HpaSpec, inputs: seq<RoundInput>, outcomes: seq<Outcome>, policy: ScalingPolicy) {
    |inputs| == |outcomes| && forall i :: 0 <= i < |inputs| ==> JumpDownFits(hpa, inputs, outcomes, policy, i)
  }

  lemma JumpsUpFitSplits(hpa: HpaSpec, inputs: seq<RoundInput>, outcomes: seq<Outcome>, policy: ScalingPolicy)
    requires |inputs| == |outcomes| && inputs != []
    ensures var n := |inputs| - 1;
      JumpsUpFit(hpa, inputs, outcomes, policy) <==>
        JumpsUpFit(hpa, inputs[..n], outcomes[..n], policy) && JumpUpFits(hpa, inputs, outcomes, policy, n)
  {
    var n := |inputs| - 1;
    forall i | 0 <= i < n
      ensures JumpUpFits(hpa, inputs[..n], outcomes[..n], policy, i) == JumpUpFits(hpa, inputs, outcomes, policy, i)
    {
      assert inputs[..n][..i] == inputs[..i] && outcomes[..n][..i] == outcomes[..i];
    }
  }

  lemma JumpsDownFitSplits(hpa: HpaSpec, inputs: seq<RoundInput>, outcomes: seq<Outcome>, policy: ScalingPolicy)
    requires |inputs| == |outcomes| && inputs != []
    ensures var n := |inputs| - 1;
      JumpsDownFit(hpa, inputs, outcomes, policy) <==>
        JumpsDownFit(hpa, inputs[..n], outcomes[..n], policy) && JumpDownFits(hpa, inputs, outcomes, policy, n)
  {
    var n := |inputs| - 1;
    forall i | 0 <= i < n
      ensures JumpDownFits(hpa, inputs[..n], outcomes[..n], policy, i) == JumpDownFits(hpa, inputs, outcomes, policy, i)
    {
      assert inputs[..n][..i] == inputs[..i] && outcomes[..n][..i] == outcomes[..i];
    }
  }

  lemma PrefixClockRuns(inputs: seq<RoundInput>)
    requires ClockRuns(inputs) && inputs != []
    ensures ClockRuns(inputs[..|inputs| - 1]) && inputs[|inputs| - 1].clock.Ordered()
  {
  }

  lemma {:induction false} OnlyJumpsUpStep(hpa: HpaSpec, st: HpaState, inputs: seq<RoundInput>,
      outcomes: seq<Outcome>, policy: ScalingPolicy, n: nat)
    requires |inputs| == |outcomes| == n + 1 && inputs[n].clock.Ordered()
    requires hpa.behavior.scaleUp.selectPolicy == SelectMin
    requires policy in hpa.behavior.scaleUp.policies && policy.kind == Pods
    requires ListOf(st.scaleUps) == Ups(inputs[..n], outcomes[..n])
    requires outcomes[n] == Round(hpa, st, inputs[n], false).1
    requires AllFit(Ups(inputs[..n], outcomes[..n]), policy.period, policy.value) <==>
      JumpsUpFit(hpa, inputs[..n], outcomes[..n], policy)
    ensures AllFit(Ups(inputs, outcomes), policy.period, policy.value) <==> JumpsUpFit(hpa, inputs, outcomes, policy)
  {
    hide Round, Fits, AllFit, JumpsUpFit, UpEvent, JumpsUp, Ups, ListOf;
    JumpsUpFitSplits(hpa, inputs, outcomes, policy);
    UpEventFits(hpa, st, inputs[n], policy);
    UpsSplit(inputs, outcomes);
    AllFitAppend(Ups(inputs[..n], outcomes[..n]), UpEvent(inputs[n], outcomes[n]), policy.period, policy.value);
  }

  lemma {:induction false} OnlyJumpsUpMatter(hpa: HpaSpec, inputs: seq<RoundInput>, policy: ScalingPolicy)
    requires ClockRuns(inputs) && hpa.behavior.scaleUp.selectPolicy == SelectMin
    requires policy in hpa.behavior.scaleUp.policies && policy.kind == Pods
    ensures var outcomes := Run(hpa, inputs, false).1;
      AllFit(Ups(inputs, outcomes), policy.period, policy.value) <==> JumpsUpFit(hpa, inputs, outcomes, policy)
  {
    if inputs != [] {
      var n := |inputs| - 1;
      PrefixClockRuns(inputs);
      hide Run, Round, Fits, AllFit, JumpsUpFit, Ups, ClockRuns, ListOf;
      OnlyJumpsUpMatter(hpa, inputs[..n], policy);
      ListsAreTheChanges(hpa, inputs[..n]);
      RunSplits(hpa, inputs, false);
      OnlyJumpsUpStep(hpa, Run(hpa, inputs[..n], false).0, inputs, Run(hpa, inputs, false).1, policy, n);
    }
  }

  lemma {:induction false} OnlyJumpsDownStep(hpa: HpaSpec, st: HpaState, inputs: seq<RoundInput>,
      outcomes: seq<Outcome>, policy: ScalingPolicy, n: nat)
    requires |inputs| == |outcomes| == n + 1 && inputs[n].clock.Ordered()
    requires hpa.behavior.scaleDown.selectPolicy == SelectMin
    requires policy in hpa.behavior.scaleDown.policies && policy.kind == Pods
    requires ListOf(st.scaleDowns) == Downs(inputs[..n], outcomes[..n])
    requires outcomes[n] == Round(hpa, st, inputs[n], false).1
    requires AllFit(Downs(inputs[..n], outcomes[..n]), policy.period, policy.value) <==>
      JumpsDownFit(hpa, inputs[..n], outcomes[..n], policy)
    ensures AllFit(Downs(inputs, outcomes), policy.period, policy.value) <==>
      JumpsDownFit(hpa, inputs, outcomes, policy)
  {
    hide Round, Fits, AllFit, JumpsDownFit, DownEvent, JumpsDown, Downs, ListOf;
    JumpsDownFitSplits(hpa, inputs, outcomes, policy);
    DownEventFits(hpa, st, inputs[n], policy);
    DownsSplit(inputs, outcomes);
    AllFitAppend(Downs(inputs[..n], outcomes[..n]), DownEvent(inputs[n], outcomes[n]), policy.period, policy.value);
  }

  lemma {:induction false} OnlyJumpsDownMatter(hpa: HpaSpec, inputs: seq<RoundInput>, policy: ScalingPolicy)
    requires ClockRuns(inputs) && hpa.behavior.scaleDown.selectPolicy == SelectMin
    requires policy in hpa.behavior.scaleDown.policies && policy.kind == Pods
    ensures var outcomes := Run(hpa, inputs, false).1;
      AllFit(Downs(inputs, outcomes), policy.period, policy.value) <==> JumpsDownFit(hpa, inputs, outcomes, policy)
  {
    if inputs != [] {
      var n := |inputs| - 1;
      PrefixClockRuns(inputs);
      hide Run, Round, Fits, AllFit, JumpsDownFit, Downs, ClockRuns, ListOf;
      OnlyJumpsDownMatter(hpa, inputs[..n], policy);
      ListsAreTheChanges(hpa, inputs[..n]);
      RunSplits(hpa, inputs, false);
      OnlyJumpsDownStep(hpa, Run(hpa, inputs[..n], false).0, inputs, Run(hpa, inputs, false).1, policy, n);
    }
  }

  /** With `Min` selection and a Pods policy, the increases of a run in every closed window of the policy's
      period sum to at most its value if and only if every jump to the minimum fits with the increases of
      the period before it. Increases that are not jumps never break the rate. */
  lemma UpRateIff(hpa: HpaSpec, inputs: seq<RoundInput>, policy: ScalingPolicy)
    requires ClockRuns(inputs) && hpa.behavior.scaleUp.selectPolicy == SelectMin
    requires policy in hpa.behavior.scaleUp.policies && policy.kind == Pods
    ensures var outcomes := Run(hpa, inputs, true).1;
      KeepsRate(Ups(inputs, outcomes), policy.period, policy.value) <==> JumpsUpFit(hpa, inputs, outcomes, policy)
  {
    PruningIsInvisible(hpa, inputs);
    hide AllFit, KeepsRate, JumpsUpFit, InOrder, Run;
    UpsInOrder(inputs, Run(hpa, inputs, true).1);
    KeepsRateIff(Ups(inputs, Run(hpa, inputs, true).1), policy.period, policy.value);
    OnlyJumpsUpMatter(hpa, inputs, policy);
  }

  /** The dual for decreases and jumps down to the maximum. */
  lemma DownRateIff(hpa: HpaSpec, inputs: seq<RoundInput>, policy: ScalingPolicy)
    requires ClockRuns(inputs) && hpa.behavior.scaleDown.selectPolicy == SelectMin
    requires policy in hpa.behavior.scaleDown.policies && policy.kind == Pods
    ensures var outcomes := Run(hpa, inputs, true).1;
      KeepsRate(Downs(inputs, outcomes), policy.period, policy.value) <==> JumpsDownFit(hpa, inputs, outcomes, policy)
  {
    PruningIsInvisible(hpa, inputs);
    hide AllFit, KeepsRate, JumpsDownFit, InOrder, Run;
    DownsInOrder(inputs, Run(hpa, inputs, true).1);
    KeepsRateIff(Downs(inputs, Run(hpa, inputs, true).1), policy.period, policy.value);
    OnlyJumpsDownMatter(hpa, inputs, policy);
  }

  /** In particular the rate is kept by every run that never jumps up. */
  lemma UpRateIsLimited(hpa: HpaSpec, inputs: seq<RoundInput>, policy: ScalingPolicy, from: Instant)
    requires ClockRuns(inputs) && forall input <- inputs :: !JumpsUp(hpa, input)
    requires hpa.behavior.scaleUp.selectPolicy == SelectMin
    requires policy in hpa.behavior.scaleUp.policies && policy.kind == Pods
    ensures PeriodSum(Ups(inputs, Run(hpa, inputs, true).1), from, policy.period) <= policy.value
  {
    UpRateIff(hpa, inputs, policy);
    hide PeriodSum, Run, Ups;
    assert JumpsUpFit(hpa, inputs, Run(hpa, inputs, true).1, policy);
    assert KeepsRate(Ups(inputs, Run(hpa, inputs, true).1), policy.period, policy.value);
  }

  /** The dual for decreases. */
  lemma DownRateIsLimited(hpa: HpaSpec, inputs: seq<RoundInput>, policy: ScalingPolicy, from: Instant)
    requires ClockRuns(inputs) && forall input <- inputs :: !JumpsDown(hpa, input)
    requires hpa.behavior.scaleDown.selectPolicy == SelectMin
    requires policy in hpa.behavior.scaleDown.policies && policy.kind == Pods
    ensures PeriodSum(Downs(inputs, Run(hpa, inputs, true).1), from, policy.period) <= policy.value
  {
    DownRateIff(hpa, inputs, policy);
    hide PeriodSum, Run, Downs;
    assert JumpsDownFit(hpa, inputs, Run(hpa, inputs, true).1, policy);
    assert KeepsRate(Downs(inputs, Run(hpa, inputs, true).1), policy.period, policy.value);
  }

  /** The jump to the minimum is outside the policies: every jump of more than a policy's value breaks its rate. */
  lemma JumpUpBreaksTheRate(hpa: HpaSpec, input: RoundInput, policy: ScalingPolicy)
    requires ClockRuns([input]) && hpa.behavior.scaleUp.selectPolicy == SelectMin
    requires policy in hpa.behavior.scaleUp.policies && policy.kind == Pods
    requires JumpsUp(hpa, input) && hpa.minReplicas - input.current > policy.value
    ensures !KeepsRate(Ups([input], Run(hpa, [input], true).1), policy.period, policy.value)
  {
    UpRateIff(hpa, [input], policy);
    hide KeepsRate, Run;
    assert !JumpUpFits(hpa, [input], Run(hpa, [input], true).1, policy, 0);
  }

  /** So does every jump down to the maximum of more than a policy's value. */
  lemma JumpDownBreaksTheRate(hpa: HpaSpec, input: RoundInput, policy: ScalingPolicy)
    requires ClockRuns([input]) && hpa.behavior.scaleDown.selectPolicy == SelectMin
    requires policy in hpa.behavior.scaleDown.policies && policy.kind == Pods
    requires JumpsDown(hpa, input) && input.current - hpa.maxReplicas > policy.value
    ensures !KeepsRate(Downs([input], Run(hpa, [input], true).1), policy.period, policy.value)
  {
    DownRateIff(hpa, [input], policy);
    hide KeepsRate, Run;
    assert !JumpDownFits(hpa, [input], Run(hpa, [input], true).1, policy, 0);
  }

  /** Two such inputs: 2 replicas below a minimum of 5, and 20 above a maximum of 10, with one pod a minute allowed. */
  lemma JumpsBreakTheRate(hpa: HpaSpec, policy: ScalingPolicy, low: RoundInput, high: RoundInput)
    requires policy == ScalingPolicy(Pods, 1, 60)
    requires hpa == HpaSpec(5, 10, Behavior(ScalingRules([policy], SelectMin, 0), ScalingRules([policy], SelectMin, 0)))
    requires low == RoundInput(2, Some(2), Error, true, Clock(0, 0, 0, 0, 0)) && high == low.(current := 20)
    ensures !KeepsRate(Ups([low], Run(hpa, [low], true).1), policy.period, policy.value)
    ensures !KeepsRate(Downs([high], Run(hpa, [high], true).1), policy.period, policy.value)
  {
    hide Run, Ups, Downs, KeepsRate;
    JumpUpBreaksTheRate(hpa, low, policy);
    JumpDownBreaksTheRate(hpa, high, policy);
  }
}
