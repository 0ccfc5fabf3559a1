/** What the autoscaler asks its calculator (controllers/src/podautoscaler/horizontal.rs), and when a whole
    reconcile, calculator included, panics. */
module AutoscalerMetrics {
  import opened Common
  import opened Hpa
  import opened AutoscalerSpec
  import opened AutoscalerRuns
  import opened AutoscalerRange
  import ReplicaCalculator
  import ReplicaDamping

  type Metrics = ReplicaCalculator.Metrics
  type Pod = ReplicaCalculator.Pod

  /** The target of an autoscaler: a utilization in percent, an average value, or queries per second. */
  datatype MetricTarget = AverageUtilization(percent: u32) | AverageValue(value: u64) | FunctionRate(rate: u64)

  /** What the metrics server and the pod store answer: measurements of pods or of a function, unless a request
      fails, and the selected pods. */
  datatype Reading = Reading(pods: seq<Pod>, metrics: Option<Metrics>, queries: Option<int>)

  ghost function Computed(target: MetricTarget, current: u32, reading: Reading): Calculated {
    match target
    case AverageUtilization(percent) =>
      (match reading.metrics
       case None => Error
       case Some(metrics) => ReplicaCalculator.ByUtilization(current, percent, metrics, reading.pods))
    case AverageValue(value) =>
      (match reading.metrics
       case None => Error
       case Some(metrics) => ReplicaCalculator.ByValue(current, value, metrics, reading.pods))
    case FunctionRate(rate) =>
      (match reading.queries
       case None => Error
       case Some(total) => ReplicaCalculator.ByFunction(current, rate, total))
  }

  /** There are pods with metrics asked for, but filtering drops every metric. */
  predicate NothingLeft(reading: Reading) {
    && reading.metrics.Some? && reading.pods != []
    && var f := ReplicaCalculator.Filtered(reading.metrics.value, reading.pods);
       f.Some? && f.value.metrics == map[]
  }

  /** The calculator panics only for an average value when no metric is left, and for a function without replicas. */
  lemma CalculatorPanicsIff(target: MetricTarget, current: u32, reading: Reading)
    requires ReplicaCalculator.DistinctNames(reading.pods)
    ensures Computed(target, current, reading) == Panic <==>
      || (target.AverageValue? && NothingLeft(reading))
      || (target.FunctionRate? && reading.queries.Some? && current == 0)
  {
    if target.AverageValue? && reading.metrics.Some? {
      ReplicaDamping.ValuePanicsIff(current, target.value, reading.metrics.value, reading.pods);
    }
  }

  /** A reconcile whose metric the calculator computes from what is there panics if and only if it asks the
      metric, and an average value is wanted but no metric is left, or the limit of the direction that the
      stabilised wish asks for leaves the range. A function without replicas never gets that far. */
  lemma {:induction false} ReconcilePanicsIff(hpa: HpaSpec, st: HpaState, input: RoundInput, target: MetricTarget,
      reading: Reading)
    requires input.metric == Computed(target, input.current, reading)
    requires ReplicaCalculator.DistinctNames(reading.pods)
    ensures Round(hpa, st, input, true).1 == Panicked <==>
      && Asks(hpa, input)
      && ((target.AverageValue? && NothingLeft(reading))
          || (input.metric.Replicas? && LimitOutOfRange(hpa, st, input)))
  {
    hide Round, Computed, LimitOutOfRange, NothingLeft;
    PanicsIff(hpa, st, input);
    CalculatorPanicsIff(target, input.current, reading);
  }

  /** In particular, while replicas only ever grow, the reconciles of an autoscaler on utilization or on queries
      never panic, whatever is measured. */
  lemma {:induction false} ClimbingReconcilesStayInRange(hpa: HpaSpec, inputs: seq<RoundInput>, target: MetricTarget,
      readings: seq<Reading>)
    requires ClockRuns(inputs) && Climbs(inputs, Run(hpa, inputs, true).1) && PodsValuesFit(hpa)
    requires |readings| == |inputs| && !target.AverageValue?
    requires forall i :: 0 <= i < |inputs| ==>
      inputs[i].metric == Computed(target, inputs[i].current, readings[i])
      && ReplicaCalculator.DistinctNames(readings[i].pods)
    ensures Panicked !in Run(hpa, inputs, true).1
  {
    hide Run, Computed, Climbs, ClockRuns, PodsValuesFit;
    ClimbingRunsStayInRange(hpa, inputs);
    forall j | 0 <= j < |inputs| ensures Run(hpa, inputs, true).1[j] != Panicked {
      CalculatorPanicsIff(target, inputs[j].current, readings[j]);
    }
  }
}
