/** What stabilisation means over whole runs: a decision respects the wishes of earlier reconciles. */
module AutoscalerStability {
  import opened Common
  import opened Hpa
  import opened AutoscalerSpec
  import opened AutoscalerRuns
  import opened AutoscalerLimits

  /** What one reconcile adds to the recommendation list: what it finds when it is the first one, or when
      somebody else has changed the target, and the metric's wish. */
  function RecEntries(hpa: HpaSpec, input: RoundInput, first: bool): seq<Recommendation> {
    var entry := Recommendation(input.current, input.clock.start);
    if input.statusDesired.None? then []
    else
      (if first then [entry] else [])
      + (if input.statusDesired != Some(input.current) then [entry] else [])
      + (if Evaluates(hpa, input) then [Recommendation(input.metric.n, input.clock.stabilize)] else [])
  }

  function Recs(hpa: HpaSpec, inputs: seq<RoundInput>): seq<Recommendation> {
    if inputs == [] then []
    else
      var n := |inputs| - 1;
      Recs(hpa, inputs[..n]) + RecEntries(hpa, inputs[n], Recs(hpa, inputs[..n]) == [])
  }

  lemma RoundRemembers(hpa: HpaSpec, st: HpaState, input: RoundInput)
    ensures Round(hpa, st, input, false).0.recommendations ==
      if input.statusDesired.None? then st.recommendations
      else Some(ListOf(st.recommendations) + RecEntries(hpa, input, st.recommendations.None?))
  {
    hide Stabilized, Conform;
    var entry := Recommendation(input.current, input.clock.start);
    var recs := ListOf(st.recommendations);
    assert recs + [] == recs && [] + [entry] == [entry];
    var a := if st.recommendations.None? then [entry] else [];
    var b := if input.statusDesired != Some(input.current) then [entry] else [];
    assert Noted(st, input) == recs + (a + b);
    if Evaluates(hpa, input) {
      var c := [Recommendation(input.metric.n, input.clock.stabilize)];
      assert recs + (a + b) + c == recs + (a + b + c);
    } else {
      assert a + b + [] == a + b;
    }
  }

  /** Without pruning the recommendation list is exactly what the reconciles of the run found and wished. */
  lemma {:induction false} ListIsTheWishes(hpa: HpaSpec, inputs: seq<RoundInput>)
    ensures ListOf(Run(hpa, inputs, false).0.recommendations) == Recs(hpa, inputs)
    ensures Run(hpa, inputs, false).0.recommendations.None? <==> Recs(hpa, inputs) == []
  {
    if inputs != [] {
      var n := |inputs| - 1;
      ListIsTheWishes(hpa, inputs[..n]);
      RunSplits(hpa, inputs, false);
      RoundRemembers(hpa, Run(hpa, inputs[..n], false).0, inputs[n]);
      hide Round, Run;
      assert Recs(hpa, inputs[..n]) + [] == Recs(hpa, inputs[..n]);
    }
  }

  lemma {:induction false} WishIsRemembered(hpa: HpaSpec, inputs: seq<RoundInput>, i: nat)
    requires i < |inputs| && Evaluates(hpa, inputs[i])
    ensures Recommendation(inputs[i].metric.n, inputs[i].clock.stabilize) in Recs(hpa, inputs)
  {
    var n := |inputs| - 1;
    if i < n {
      WishIsRemembered(hpa, inputs[..n], i);
    }
  }

  /** One evaluating reconcile respects every recommendation in the list it is given. */
  lemma RoundRespects(hpa: HpaSpec, st: HpaState, input: RoundInput, rec: Recommendation, prune: bool)
    requires Evaluates(hpa, input) && rec in ListOf(st.recommendations)
    ensures var o, wish, age := Round(hpa, st, input, prune).1, rec.replicas, input.clock.stabilize - rec.time;
      o.Done? ==>
        && (o.desired < input.current && age <= hpa.behavior.scaleDown.stabilizationWindow ==> wish <= o.desired)
        && (o.desired > input.current && age <= hpa.behavior.scaleUp.stabilizationWindow ==> o.desired <= wish)
        && Min(input.current, input.metric.n) <= o.desired <= Max(input.current, input.metric.n)
  {
    var noted := st.(recommendations := Some(Noted(st, input)));
    assert rec in Noted(st, input);
    if Normalize(hpa, noted, input.current, input.metric.n, input.clock, prune).1.Value? {
      NormalizeEnvelope(hpa, noted, input.current, input.metric.n, input.clock, prune);
    }
    hide Normalize, Record, Noted;
  }

  /** In every run, a reconcile that evaluates the metric lowers the count only to a value that is not below
      the wish of any reconcile inside the scale-down window, itself included, and raises it only to one that
      is not above the wish of any inside the scale-up window. */
  lemma {:induction false} DecisionsAreStable(hpa: HpaSpec, inputs: seq<RoundInput>, i: nat, j: nat)
    requires ClockRuns(inputs) && i <= j < |inputs|
    requires Evaluates(hpa, inputs[i]) && Evaluates(hpa, inputs[j])
    ensures var o, wish := Run(hpa, inputs, true).1[j], inputs[i].metric.n;
      var age := inputs[j].clock.stabilize - inputs[i].clock.stabilize;
      o.Done? ==>
        && (o.desired < inputs[j].current && age <= hpa.behavior.scaleDown.stabilizationWindow ==> wish <= o.desired)
        && (o.desired > inputs[j].current && age <= hpa.behavior.scaleUp.stabilizationWindow ==> o.desired <= wish)
  {
    hide Run, Round;
    var st := Run(hpa, inputs[..j], false).0;
    OutcomeAt(hpa, inputs, j);
    ListIsTheWishes(hpa, inputs[..j]);
    if i < j {
      WishIsRemembered(hpa, inputs[..j], i);
      RoundRespects(hpa, st, inputs[j], Recommendation(inputs[i].metric.n, inputs[i].clock.stabilize), false);
    } else {
      RoundIsBounded(hpa, st, inputs[j]);
    }
  }

  lemma {:induction false} OutcomeAt(hpa: HpaSpec, inputs: seq<RoundInput>, j: nat)
    requires ClockRuns(inputs) && j < |inputs|
    ensures Run(hpa, inputs, true).1[j] == Round(hpa, Run(hpa, inputs[..j], false).0, inputs[j], false).1
  {
    PruningIsInvisible(hpa, inputs);
    var prefix := inputs[..j + 1];
    OutcomesOfPrefix(hpa, inputs, j + 1);
    RunSplits(hpa, prefix, false);
    hide Run, Round;
    assert prefix[..j] == inputs[..j] && prefix[j] == inputs[j];
    assert Run(hpa, inputs, false).1[j] == Run(hpa, inputs, false).1[..j + 1][j];
  }

  lemma RoundIsBounded(hpa: HpaSpec, st: HpaState, input: RoundInput)
    requires Evaluates(hpa, input)
    ensures var o := Round(hpa, st, input, false).1;
      o.Done? ==> Min(input.current, input.metric.n) <= o.desired <= Max(input.current, input.metric.n)
  {
    var noted := st.(recommendations := Some(Noted(st, input)));
    if Normalize(hpa, noted, input.current, input.metric.n, input.clock, false).1.Value? {
      NormalizeEnvelope(hpa, noted, input.current, input.metric.n, input.clock, false);
    }
    hide Normalize, Record, Noted;
  }

  lemma {:induction false} OutcomesOfPrefix(hpa: HpaSpec, inputs: seq<RoundInput>, k: nat)
    requires k <= |inputs|
    ensures Run(hpa, inputs, false).1[..k] == Run(hpa, inputs[..k], false).1
  {
    if k < |inputs| {
      var n := |inputs| - 1;
      RunSplits(hpa, inputs, false);
      OutcomesOfPrefix(hpa, inputs[..n], k);
      assert inputs[..n][..k] == inputs[..k];
      assert Run(hpa, inputs, false).1[..n][..k] == Run(hpa, inputs, false).1[..k];
    } else {
      assert inputs[..k] == inputs;
    }
  }
}
