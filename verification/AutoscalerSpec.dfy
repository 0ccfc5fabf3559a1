/** What one reconcile of a horizontal pod autoscaler does to its three time-stamped lists,
    on values (controllers/src/podautoscaler/horizontal.rs). */
module AutoscalerSpec {
  import opened Common
  import opened Hpa

  datatype Recommendation = Recommendation(replicas: u32, time: Instant)

  datatype ScaleEvent = ScaleEvent(change: u32, time: Instant)

  /** The controller's memory of one autoscaler; `None` is an absent map entry. */
  datatype HpaState = HpaState(
    recommendations: Option<seq<Recommendation>>,
    scaleUps: Option<seq<ScaleEvent>>,
    scaleDowns: Option<seq<ScaleEvent>>)

  const EMPTY_STATE := HpaState(None, None, None)

  /** The instants at which one reconcile reads the clock, in program order. */
  datatype Clock = Clock(start: Instant, stabilize: Instant, limit: Instant, record: Instant, discard: Instant)
  {
    predicate Ordered() { start <= stabilize <= limit <= record <= discard }
  }

  /** What the cluster answers during one reconcile: the replica count of the target, the desired count in
      the autoscaler's own status (`None`: there is no status, or the target cannot be fetched), what the
      calculator makes of the metric, and whether posting the scaled target succeeds. */
  datatype RoundInput = RoundInput(
    current: u32, statusDesired: Option<u32>, metric: Calculated, posted: bool, clock: Clock)

  datatype Outcome =
    | Done(desired: u32)    // the reconcile succeeded; the target now asks for `desired`
    | Failed                // an error was returned before anything was scaled
    | Panicked              // a `u32` computation left its range, or the calculator panicked

  function ListOf<T>(o: Option<seq<T>>): seq<T> {
    match o case Some(s) => s case None => []
  }

  // ---------- sliding windows ----------

  /** Sum of the changes recorded at or after `from`. */
  function SumSince(events: seq<ScaleEvent>, from: Instant): nat {
    if events == [] then 0
    else SumSince(events[..|events| - 1], from) + ChangeSince(events[|events| - 1], from)
  }

  function ChangeSince(e: ScaleEvent, from: Instant): nat {
    if e.time >= from then e.change else 0
  }

  /** `events` without its leading entries that are older than `periodStart`. */
  function Discarded(events: seq<ScaleEvent>, periodStart: Instant): seq<ScaleEvent> {
    if events != [] && events[0].time < periodStart then Discarded(events[1..], periodStart) else events
  }

  predicate Outdated(rec: Recommendation, upCutoff: Instant, downCutoff: Instant) {
    rec.time < upCutoff && rec.time < downCutoff
  }

  /** `recs` without its leading entries that are outside both windows. */
  function Pruned(recs: seq<Recommendation>, upCutoff: Instant, downCutoff: Instant): seq<Recommendation> {
    if recs != [] && Outdated(recs[0], upCutoff, downCutoff) then Pruned(recs[1..], upCutoff, downCutoff) else recs
  }

  /** The least of `desired` and the recommendations made at or after `cutoff`. */
  function UpBound(recs: seq<Recommendation>, cutoff: Instant, desired: u32): u32 {
    if recs == [] then desired
    else
      var rest := UpBound(recs[..|recs| - 1], cutoff, desired);
      var rec := recs[|recs| - 1];
      if rec.time >= cutoff then Min(rest, rec.replicas) else rest
  }

  /** The greatest of `desired` and the recommendations made at or after `cutoff`. */
  function DownBound(recs: seq<Recommendation>, cutoff: Instant, desired: u32): u32 {
    if recs == [] then desired
    else
      var rest := DownBound(recs[..|recs| - 1], cutoff, desired);
      var rec := recs[|recs| - 1];
      if rec.time >= cutoff then Max(rest, rec.replicas) else rest
  }

  function UpCutoff(behavior: Behavior, now: Instant): Instant {
    now - behavior.scaleUp.stabilizationWindow
  }

  function DownCutoff(behavior: Behavior, now: Instant): Instant {
    now - behavior.scaleDown.stabilizationWindow
  }

  /** Events older than this are outside every policy's period. */
  function EventCutoff(rules: ScalingRules, now: Instant): Instant {
    now - LongestPeriod(rules.policies)
  }

  function Stabilized(recs: seq<Recommendation>, current: u32, desired: u32, behavior: Behavior, now: Instant): u32 {
    Min(Max(current, UpBound(recs, UpCutoff(behavior, now), desired)),
        DownBound(recs, DownCutoff(behavior, now), desired))
  }

  // ---------- rate limits ----------

  /** Least integer not below n / d. */
  function CeilDiv(n: int, d: int): (r: int)
    requires d > 0
    ensures d * (r - 1) < n <= d * r
  {
    (n + d - 1) / d
  }

  /** n percent points of `start`, rounded up. */
  function CeilPercent(start: int, n: int): int { CeilDiv(start * n, 100) }

  /** The cast of a real to `u32`: it saturates at both ends. */
  function Saturate(x: int): u32 {
    if x < 0 then 0 else if x > U32_MAX then U32_MAX else x
  }

  function UpPeriodLimit(current: u32, policy: ScalingPolicy, events: seq<ScaleEvent>, now: Instant): Checked<u32> {
    var added := SumSince(events, now - policy.period);
    if added > current then Overflow
    else
      var periodStart := current - added;
      match policy.kind
      case Pods => if periodStart + policy.value > U32_MAX then Overflow else Value(periodStart + policy.value)
      case Percent => Value(Saturate(CeilPercent(periodStart, 100 + policy.value)))
  }

  function DownPeriodLimit(current: u32, policy: ScalingPolicy, events: seq<ScaleEvent>, now: Instant): Checked<u32> {
    var deleted := SumSince(events, now - policy.period);
    if current + deleted > U32_MAX then Overflow
    else
      var periodStart := current + deleted;
      match policy.kind
      case Pods => Value(if periodStart >= policy.value then periodStart - policy.value else 0)
      case Percent => Value(Saturate(CeilPercent(periodStart, 100 - policy.value)))
  }

  /** The policies' limits combined in order, with `min` when `smallest`, else with `max`. */
  function Fold(limits: seq<Checked<u32>>, smallest: bool): Checked<u32> {
    if limits == [] then Value(if smallest then U32_MAX else 0)
    else
      var rest, last := Fold(limits[..|limits| - 1], smallest), limits[|limits| - 1];
      if rest.Overflow? || last.Overflow? then Overflow
      else Value(if smallest then Min(rest.v, last.v) else Max(rest.v, last.v))
  }

  function UpLimits(current: u32, rules: ScalingRules, events: seq<ScaleEvent>, now: Instant): (r: seq<Checked<u32>>)
    ensures |r| == |rules.policies|
  {
    seq(|rules.policies|,
      i requires 0 <= i < |rules.policies| => UpPeriodLimit(current, rules.policies[i], events, now))
  }

  function DownLimits(current: u32, rules: ScalingRules, events: seq<ScaleEvent>, now: Instant): (r: seq<Checked<u32>>)
    ensures |r| == |rules.policies|
  {
    seq(|rules.policies|,
      i requires 0 <= i < |rules.policies| => DownPeriodLimit(current, rules.policies[i], events, now))
  }

  function ScaleUpLimit(current: u32, rules: ScalingRules, events: seq<ScaleEvent>, now: Instant): Checked<u32> {
    if rules.selectPolicy == Disabled then Value(current)
    else Fold(UpLimits(current, rules, events, now), rules.selectPolicy == SelectMin)
  }

  function ScaleDownLimit(current: u32, rules: ScalingRules, events: seq<ScaleEvent>, now: Instant): Checked<u32> {
    if rules.selectPolicy == Disabled then Value(current)
    else Fold(DownLimits(current, rules, events, now), rules.selectPolicy == SelectMax)
  }

  function Conform(hpa: HpaSpec, st: HpaState, current: u32, desired: u32, now: Instant): Checked<u32> {
    if desired > current then
      match ScaleUpLimit(current, hpa.behavior.scaleUp, ListOf(st.scaleUps), now)
      case Overflow => Overflow
      case Value(limit) => Value(Min(desired, Min(hpa.maxReplicas, Max(limit, current))))
    else if desired < current then
      match ScaleDownLimit(current, hpa.behavior.scaleDown, ListOf(st.scaleDowns), now)
      case Overflow => Overflow
      case Value(limit) => Value(Max(desired, Max(hpa.minReplicas, Min(limit, current))))
    else Value(desired)
  }

  // ---------- one reconcile ----------

  /** The recommendation list on entry to the metric computation. */
  function Noted(st: HpaState, input: RoundInput): seq<Recommendation> {
    var entry := Recommendation(input.current, input.clock.start);
    var first := if st.recommendations.None? then [entry] else st.recommendations.value;
    if input.statusDesired != Some(input.current) then first + [entry] else first
  }

  function Stabilize(st: HpaState, current: u32, desired: u32, behavior: Behavior, now: Instant,
      prune: bool): (r: (HpaState, u32)) {
    match st.recommendations
    case None => (st, current)
    case Some(recs) =>
      var kept := if prune then Pruned(recs, UpCutoff(behavior, now), DownCutoff(behavior, now)) else recs;
      (st.(recommendations := Some(kept + [Recommendation(desired, now)])),
       Stabilized(kept, current, desired, behavior, now))
  }

  function Normalize(hpa: HpaSpec, st: HpaState, current: u32, desired: u32, clock: Clock,
      prune: bool): (HpaState, Checked<u32>) {
    var (st', stabilized) := Stabilize(st, current, desired, hpa.behavior, clock.stabilize, prune);
    match Conform(hpa, st', current, stabilized, clock.limit)
    case Overflow => (st', Overflow)
    case Value(d) => (st', Value(Max(hpa.minReplicas, d)))
  }

  /** A reconcile that asks the metric, and neither jumps nor leaves a disabled target alone. */
  predicate Asks(hpa: HpaSpec, input: RoundInput) {
    input.statusDesired.Some? && 0 < input.current && hpa.minReplicas <= input.current <= hpa.maxReplicas
  }

  /** A reconcile that asks the metric and gets a count. */
  predicate Evaluates(hpa: HpaSpec, input: RoundInput) {
    Asks(hpa, input) && input.metric.Replicas?
  }

  /** The event list after one more change; `prune` drops what the longest policy period has passed. */
  function Recorded(list: Option<seq<ScaleEvent>>, rules: ScalingRules, change: u32, clock: Clock,
      prune: bool): Option<seq<ScaleEvent>> {
    var kept := if prune then Discarded(ListOf(list), EventCutoff(rules, clock.discard)) else ListOf(list);
    Some(kept + [ScaleEvent(change, clock.record)])
  }

  function Record(st: HpaState, behavior: Behavior, prev: u32, next: u32, clock: Clock, prune: bool): HpaState {
    if next > prev then st.(scaleUps := Recorded(st.scaleUps, behavior.scaleUp, next - prev, clock, prune))
    else if next < prev then st.(scaleDowns := Recorded(st.scaleDowns, behavior.scaleDown, prev - next, clock, prune))
    else st
  }

  function CountOf(c: Checked<u32>): Calculated {
    match c case Value(n) => Replicas(n) case Overflow => Panic
  }

  /** The replica count the reconcile decides on, with the state after deciding. */
  function Decide(hpa: HpaSpec, st: HpaState, input: RoundInput, prune: bool): (HpaState, Calculated) {
    if input.current == 0 then (st, Replicas(0))
    else if input.current > hpa.maxReplicas then (st, Replicas(hpa.maxReplicas))
    else if input.current < hpa.minReplicas then (st, Replicas(hpa.minReplicas))
    else
      match input.metric
      case Error => (st, Error)
      case Panic => (st, Panic)
      case Replicas(desired) =>
        var (st', d) := Normalize(hpa, st, input.current, desired, input.clock, prune);
        (st', CountOf(d))
  }

  /** Scaling the target to the decided count and recording the event. */
  function Apply(hpa: HpaSpec, st: HpaState, decision: Calculated, input: RoundInput,
      prune: bool): (HpaState, Outcome) {
    match decision
    case Error => (st, Failed)
    case Panic => (st, Panicked)
    case Replicas(desired) =>
      if input.current == desired then (st, Done(desired))
      else if !input.posted then (st, Failed)
      else (Record(st, hpa.behavior, input.current, desired, input.clock, prune), Done(desired))
  }

  /** One reconcile. The controller runs it with `prune`; without, no list ever forgets an entry. */
  function Round(hpa: HpaSpec, st: HpaState, input: RoundInput, prune: bool): (HpaState, Outcome) {
    if input.statusDesired.None? then (st, Failed)
    else
      var (st', decision) := Decide(hpa, st.(recommendations := Some(Noted(st, input))), input, prune);
      Apply(hpa, st', decision, input, prune)
  }

  // ---------- what the folds mean ----------

  lemma {:induction false} SumSinceSplits(a: seq<ScaleEvent>, b: seq<ScaleEvent>, from: Instant)
    ensures SumSince(a + b, from) == SumSince(a, from) + SumSince(b, from)
  {
    if b == [] {
      assert a + b == a;
    } else {
      SumSinceSplits(a, b[..|b| - 1], from);
      assert (a + b)[..|a + b| - 1] == a + b[..|b| - 1];
    }
  }

  lemma {:induction false} SumSinceOutdated(events: seq<ScaleEvent>, from: Instant)
    requires forall e <- events :: e.time < from
    ensures SumSince(events, from) == 0
  {
    if events != [] {
      SumSinceOutdated(events[..|events| - 1], from);
    }
  }

  lemma {:induction false} SumSinceMonotone(events: seq<ScaleEvent>, from: Instant, later: Instant)
    requires from <= later
    ensures SumSince(events, later) <= SumSince(events, from)
  {
    if events != [] {
      SumSinceMonotone(events[..|events| - 1], from, later);
    }
  }

  /** The folded limit is the extreme one: it bounds every policy's limit and one policy attains it;
      it overflows exactly when some policy's limit does. */
  lemma {:induction false} FoldIsExtreme(limits: seq<Checked<u32>>, smallest: bool)
    ensures Fold(limits, smallest).Overflow? <==> exists i :: 0 <= i < |limits| && limits[i].Overflow?
    ensures Fold(limits, smallest).Value? ==>
              var r := Fold(limits, smallest).v;
              && (forall i :: 0 <= i < |limits| ==> if smallest then r <= limits[i].v else limits[i].v <= r)
              && (limits == [] ==> r == if smallest then U32_MAX else 0)
              && (limits != [] ==> exists i :: 0 <= i < |limits| && limits[i].v == r)
  {
    if limits != [] {
      var n := |limits| - 1;
      FoldIsExtreme(limits[..n], smallest);
      assert forall i :: 0 <= i < n ==> limits[..n][i] == limits[i];
      if n > 0 && Fold(limits, smallest).Value? && Fold(limits, smallest) != limits[n] {
        var i :| 0 <= i < n && limits[..n][i].v == Fold(limits[..n], smallest).v;
        assert limits[i].v == Fold(limits, smallest).v;
      }
    }
  }

  /** `UpBound` is the least of `desired` and the recommendations inside the window. */
  lemma {:induction false} UpBoundIsLeast(recs: seq<Recommendation>, cutoff: Instant, desired: u32)
    ensures var r := UpBound(recs, cutoff, desired);
            && r <= desired
            && (forall rec <- recs :: rec.time >= cutoff ==> r <= rec.replicas)
            && (r == desired || exists rec <- recs :: rec.time >= cutoff && rec.replicas == r)
  {
    if recs != [] {
      var front, last := recs[..|recs| - 1], recs[|recs| - 1];
      assert recs == front + [last];
      UpBoundIsLeast(front, cutoff, desired);
    }
  }

  /** `DownBound` is the greatest of `desired` and the recommendations inside the window. */
  lemma {:induction false} DownBoundIsGreatest(recs: seq<Recommendation>, cutoff: Instant, desired: u32)
    ensures var r := DownBound(recs, cutoff, desired);
            && desired <= r
            && (forall rec <- recs :: rec.time >= cutoff ==> rec.replicas <= r)
            && (r == desired || exists rec <- recs :: rec.time >= cutoff && rec.replicas == r)
  {
    if recs != [] {
      var front, last := recs[..|recs| - 1], recs[|recs| - 1];
      assert recs == front + [last];
      DownBoundIsGreatest(front, cutoff, desired);
    }
  }

  predicate Inside(rec: Recommendation, upCutoff: Instant, downCutoff: Instant) {
    rec.time >= upCutoff || rec.time >= downCutoff
  }

  function KeepInside(recs: seq<Recommendation>, upCutoff: Instant, downCutoff: Instant): seq<Recommendation> {
    if recs == [] then []
    else (if Inside(recs[0], upCutoff, downCutoff) then [recs[0]] else []) + KeepInside(recs[1..], upCutoff, downCutoff)
  }

  predicate TimeSorted(recs: seq<Recommendation>) {
    forall i, j :: 0 <= i < j < |recs| ==> recs[i].time <= recs[j].time
  }

  /** On a time-sorted list, pruning keeps exactly the entries inside at least one window. */
  lemma {:induction false} PruningKeepsTheWindows(recs: seq<Recommendation>, upCutoff: Instant, downCutoff: Instant)
    requires TimeSorted(recs)
    ensures Pruned(recs, upCutoff, downCutoff) == KeepInside(recs, upCutoff, downCutoff)
  {
    if recs == [] {
    } else if Outdated(recs[0], upCutoff, downCutoff) {
      PruningKeepsTheWindows(recs[1..], upCutoff, downCutoff);
    } else {
      assert forall rec <- recs :: Inside(rec, upCutoff, downCutoff) by {
        forall rec | rec in recs ensures Inside(rec, upCutoff, downCutoff) {
          var i :| 0 <= i < |recs| && recs[i] == rec;
          if i > 0 { assert recs[0].time <= recs[i].time; }
        }
      }
      AllInside(recs, upCutoff, downCutoff);
    }
  }

  lemma {:induction false} AllInside(recs: seq<Recommendation>, upCutoff: Instant, downCutoff: Instant)
    requires forall rec <- recs :: Inside(rec, upCutoff, downCutoff)
    ensures KeepInside(recs, upCutoff, downCutoff) == recs
  {
    if recs != [] {
      AllInside(recs[1..], upCutoff, downCutoff);
    }
  }

  // ---------- the envelope of one normalisation ----------

  /** Pruning only drops entries that are outside both windows. */
  lemma {:induction false} PruningDropsOutdated(recs: seq<Recommendation>, upCutoff: Instant, downCutoff: Instant)
    returns (dropped: seq<Recommendation>)
    ensures recs == dropped + Pruned(recs, upCutoff, downCutoff)
    ensures forall rec <- dropped :: Outdated(rec, upCutoff, downCutoff)
  {
    if recs != [] && Outdated(recs[0], upCutoff, downCutoff) {
      var rest := PruningDropsOutdated(recs[1..], upCutoff, downCutoff);
      dropped := [recs[0]] + rest;
    } else {
      dropped := [];
    }
  }

  /** For min <= current <= max the normalised count lies between the current one and the metric's wish
      and inside [min, max]; it never goes below a recommendation in the scale-down window
      when lowering, nor above one in the scale-up window when raising; `Disabled` freezes a direction. */
  lemma {:induction false} NormalizeEnvelope(hpa: HpaSpec, st: HpaState, current: u32, desired: u32, clock: Clock,
      prune: bool)
    requires hpa.minReplicas <= current <= hpa.maxReplicas
    requires st.recommendations.Some?
    requires Normalize(hpa, st, current, desired, clock, prune).1.Value?
    ensures var r := Normalize(hpa, st, current, desired, clock, prune).1.v;
            var recs := st.recommendations.value;
            && Min(current, desired) <= r <= Max(current, desired)
            && hpa.minReplicas <= r <= hpa.maxReplicas
            && (r < current ==>
              forall rec <- recs :: rec.time >= clock.stabilize - hpa.behavior.scaleDown.stabilizationWindow ==>
              rec.replicas <= r)
            && (r > current ==>
              forall rec <- recs :: rec.time >= clock.stabilize - hpa.behavior.scaleUp.stabilizationWindow ==>
              r <= rec.replicas)
            && (hpa.behavior.scaleUp.selectPolicy == Disabled ==> r <= current)
            && (hpa.behavior.scaleDown.selectPolicy == Disabled ==> r >= current)
  {
    var recs := st.recommendations.value;
    var (st', stabilized) := Stabilize(st, current, desired, hpa.behavior, clock.stabilize, prune);
    StabilizedEnvelope(recs, current, desired, hpa.behavior, clock.stabilize, prune);
    ConformEnvelope(hpa, st', current, stabilized, clock.limit);
    hide Stabilized, Conform, Pruned;
  }

  /** The stabilised count lies between the current one and the wish, and respects both windows. */
  lemma StabilizedEnvelope(recs: seq<Recommendation>, current: u32, desired: u32, behavior: Behavior, now: Instant,
      prune: bool)
    ensures var kept := if prune then Pruned(recs, UpCutoff(behavior, now), DownCutoff(behavior, now)) else recs;
            var s := Stabilized(kept, current, desired, behavior, now);
            && Min(current, desired) <= s <= Max(current, desired)
            && (s < current ==> forall rec <- recs :: rec.time >= DownCutoff(behavior, now) ==> rec.replicas <= s)
            && (s > current ==> forall rec <- recs :: rec.time >= UpCutoff(behavior, now) ==> s <= rec.replicas)
  {
    var up, down := UpCutoff(behavior, now), DownCutoff(behavior, now);
    var dropped := PruningDropsOutdated(recs, up, down);
    var kept := if prune then Pruned(recs, up, down) else recs;
    UpBoundIsLeast(kept, up, desired);
    DownBoundIsGreatest(kept, down, desired);
    hide UpBound, DownBound, Pruned;
  }

  /** Rate limits and bounds only move a count towards the current one. */
  lemma ConformEnvelope(hpa: HpaSpec, st: HpaState, current: u32, desired: u32, now: Instant)
    requires hpa.minReplicas <= current <= hpa.maxReplicas && Conform(hpa, st, current, desired, now).Value?
    ensures var r := Max(hpa.minReplicas, Conform(hpa, st, current, desired, now).v);
            && Min(current, desired) <= r <= Max(current, desired)
            && hpa.minReplicas <= r <= hpa.maxReplicas
            && (hpa.behavior.scaleUp.selectPolicy == Disabled ==> r <= current)
            && (hpa.behavior.scaleDown.selectPolicy == Disabled ==> r >= current)
  {
  }

  /** A reconcile that completes leaves the target at 0 or inside [min, max]. */
  lemma RoundStaysInBounds(hpa: HpaSpec, st: HpaState, input: RoundInput)
    requires hpa.minReplicas <= hpa.maxReplicas
    ensures var o := Round(hpa, st, input, true).1;
            o.Done? ==> o.desired == 0 || hpa.minReplicas <= o.desired <= hpa.maxReplicas
  {
    if 0 < input.current && hpa.minReplicas <= input.current <= hpa.maxReplicas && input.metric.Replicas? {
      var noted := Noted(st, input);
      var b := hpa.behavior;
      var kept := Pruned(noted, UpCutoff(b, input.clock.stabilize), DownCutoff(b, input.clock.stabilize));
      UpBoundIsLeast(kept, UpCutoff(b, input.clock.stabilize), input.metric.n);
      DownBoundIsGreatest(kept, DownCutoff(b, input.clock.stabilize), input.metric.n);
    }
  }
}
