/** The autoscaler's rule and policy types (resources/src/objects/hpa.rs). */
module Hpa {
  import opened Common

  /** Instants and durations count ticks of one clock of any resolution; the second is some number of them. */
  type Instant = int
  type Ticks = nat

  datatype PolicySelection = SelectMin | SelectMax | Disabled

  datatype ScalingPolicyType = Pods | Percent

  datatype ScalingPolicy = ScalingPolicy(kind: ScalingPolicyType, value: u32, period: Ticks)

  datatype ScalingRules = ScalingRules(
    policies: seq<ScalingPolicy>, selectPolicy: PolicySelection, stabilizationWindow: Ticks)

  datatype Behavior = Behavior(scaleDown: ScalingRules, scaleUp: ScalingRules)

  datatype HpaSpec = HpaSpec(minReplicas: u32, maxReplicas: u32, behavior: Behavior)

  function LongestPeriod(policies: seq<ScalingPolicy>): Ticks {
    if policies == [] then 0 else Max(policies[0].period, LongestPeriod(policies[1..]))
  }

  /** It is the longest period of any policy, and 0 when there is none. */
  lemma {:induction false} LongestPeriodIsLongest(policies: seq<ScalingPolicy>)
    ensures forall p <- policies :: p.period <= LongestPeriod(policies)
    ensures if policies == [] then LongestPeriod(policies) == 0
            else exists p <- policies :: p.period == LongestPeriod(policies)
  {
    if policies != [] {
      LongestPeriodIsLongest(policies[1..]);
      assert policies == [policies[0]] + policies[1..];
    }
  }
}
