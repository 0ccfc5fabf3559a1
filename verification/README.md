# rMiniK8s: a verified model of the control loops

rMiniK8s is a small container orchestrator written in Rust. Its behaviour lives in control loops that keep
memory between events: the pod autoscaler and its sliding windows, the service proxy that programs the
kernel's nat table, the list/watch cache every controller reads from, the incremental endpoints controller,
the scheduler's cache of node states, the replica set and GPU job controllers, the label syntax and the
workflow walker. This project models those loops in Dafny and proves what they promise: over whole runs, for
every iteration order of a hash map, and with the exact condition wherever a promise holds only sometimes.

## How the model is built

Objects that the source changes in place are classes with the source's fields and methods; each method is
proved against a function or relation on values (its new state in terms of the old one), and the theorems are
about those functions and the runs made of them. Loops are loops; a hash collection is iterated in an arbitrary
order (`Common.Next`). Files follow the source:

| files | source |
|---|---|
| `Hpa`, `AutoscalerSpec`, `AutoscalerPolicies`, `Autoscaler`, `AutoscalerRuns`, `AutoscalerLimits`, `AutoscalerRange`, `AutoscalerGrowth`, `AutoscalerReach`, `AutoscalerStability`, `AutoscalerMetrics` | `controllers/src/podautoscaler/horizontal.rs`, `resources/src/objects/hpa.rs` |
| `ReplicaCalculator`, `ReplicaDamping`, `ValueDamping`, `ScaleDirection`, `ReplicaFit` | `controllers/src/podautoscaler/replica_calculator.rs` |
| `NatTable`, `ServiceTables`, `ServiceSteps`, `ServiceChanges`, `ServiceCleanup`, `ServiceProxy`, `ServiceRuns`, `ServiceRoundTrip`, `ServiceMap`, `LoadBalance` | `rkube_proxy/src/k8s_iptables.rs`, `rkube_proxy/src/main.rs` |
| `Reflector` | `resources/src/informer/reflector.rs` |
| `Endpoints` | `controllers/src/endpoints/main.rs`, `controllers/src/endpoints/utils.rs` |
| `SchedulerSpec`, `SchedulerBalance`, `Scheduler` | `scheduler/src/cache.rs`, `scheduler/src/algorithm/simple.rs`, `scheduler/src/scheduler.rs` |
| `PodOrder`, `ReplicaSet`, `GpuJob` | `controllers/src/replica_set/controller.rs`, `controllers/src/gpu_job/controller.rs` |
| `Labels` | `resources/src/objects/mod.rs` |
| `Workflow` | `serverless/src/router/workflow.rs`, `resources/src/objects/workflow.rs` |
| `Common` | optional values, checked 32-bit arithmetic, hash iteration, fresh names |

Assumptions, all of them parameters or stated preconditions of the theorems that use them:

- The autoscaler's clock does not go backwards (`ClockRuns`) and its rules are fixed during a run.
- Metrics, the objects the API server returns, replies of functions and the clock are inputs and may be
  anything. Where a failed request changes what follows inside the model (fetching the autoscaler's target or
  posting it, the metric, a function lookup or call, opening a watch) its failure is an input too; the writes of
  the endpoints controller, the scheduler, the replica set and the GPU job always succeed.
- The proxy's random chain names and the API server's random pod names do not collide.
- Besides the portal, the kernel's built-in chains hold only rules that do not apply to packets for services.
- For the endpoints controller, the scheduler, the replica set and the GPU job an event is handled atomically:
  what a handler writes is visible before the next event. `GpuJob.StaleStatusOvershoots` shows what goes
  wrong otherwise.
- The watch delivers events in order, and objects are stored under their own addresses, so the pods the calculator
  reads have distinct names.
- Pods request non-negative amounts, where a theorem of the calculator says so.

## Where the code does not keep a promise

Each of these is proved, with the exact condition where there is one.

- The jumps to the minimum and maximum are outside the rate policies. A run keeps a policy's rate if and only if
  each of its jumps fits into it (`AutoscalerLimits.UpRateIff`, `DownRateIff`; two inputs that break it:
  `JumpsBreakTheRate`).
- Scaling up, down and up again inside one period makes the unsigned subtraction at horizontal.rs:454 leave its
  range (`AutoscalerRange.UpDownUpUnderflows`), and the calculator divides by zero in value mode when filtering
  leaves no measured pod (`ReplicaDamping.ValuePanicsIff`). Exactly when a reconcile panics:
  `AutoscalerMetrics.ReconcilePanicsIff`; while replicas only grow and no Pods policy reaches past the 32-bit range,
  only where the calculator does (`AutoscalerRange.ClimbingRunsStayInRange`).
- Filling in missing pods is meant to be conservative. In utilization mode it can amplify with a target above 100
  percent (`ReplicaDamping.HighTargetsAmplify`) and, with any target, when the measured pods request nothing
  (`UnrequestedUseAmplifies`; the exact condition: `UtilizationDampsIff`). In value mode it can with a target from
  2^63 on, which its cast makes negative (`ValueDamping.ValueDampsIff`, `HugeTargetAmplifies`).
- The filled ratio is meant not to change the direction of the measured one. It does when it is exactly 1, since the
  guard at replica_calculator.rs:69 then lets the number of pods through: idle pods are scaled up
  (`ScaleDirection.IdlePodsScaleUp`; exactly when: `MeasuredDirectionWins`, `UtilizationDirection`, `ValueDirection`).
- When filtering leaves no measured pod, utilization mode asks for no replicas if the missing pods request anything
  (`ReplicaDamping.NothingMeasured`); a zero utilization target asks for none or for as many as the type holds
  (`ZeroTarget`).
- Adding a port that a service already has leaks its load-balancing chain, and adding an endpoint that a
  balancer already has leaks its endpoint chain (`ServiceRuns.PortAddedExactIff`, `EpAddedExactIff`).
- The watch has no start revision: a key changed between the listing and the watch, and not since, stays wrong
  (`Reflector.ListWatchAgreement`, `GapLosesADeletion`).
- `resources/src/objects/service.rs:31` says that a service selects pods whose labels match its selector, but the
  controller tests the reverse inclusion: a pod qualifies when its labels are a subset of the selector. The model
  follows the code; `Endpoints.SelectorTestIsReversed` says when the two tests agree.
- Two pods with one address lose it together (`Endpoints.SharedAddressIsLost`).
- A node that is removed and comes back is counted as empty even if pods still name it, and the next deletion of
  such a pod takes the unsigned count below 0 (`SchedulerSpec.ReturningNodeIsUndercounted`).
- A replica set counts and deletes every pod its selector finds, but only its own pods refresh its status. Deleting a
  pod it does not own leaves the status one too high, and the next reconcile can delete a pod too many
  (`ReplicaSet.RoundStaysCurrentIff`, `ForeignPodOvershoots`).
- A workflow whose path of task successors and defaults does not end can run for ever
  (`Workflow.HaltingNeedsDefaultsToEnd`; without rules exactly those: `RulelessHaltsIff`), a function that cannot
  be found and a missing state are reported as success (`WalksEndWell`), and after a choice the response text
  names the first state (`ReportedName`).

## Model

| member | source | states |
|---|---|---|
| Hpa.LongestPeriodIsLongest | resources/src/objects/hpa.rs:187-193 | The longest period is at least every policy's and one policy's, and 0 without policies |
| Autoscaler.PodAutoscaler.Reconcile | controllers/src/podautoscaler/horizontal.rs:153-236 | One reconcile gives the decision, the panic or the error of the round, with the three lists it leaves, and touches no other autoscaler's lists; without a status it touches none |
| Autoscaler.PodAutoscaler.Forget | controllers/src/podautoscaler/horizontal.rs:133-138 | A deleted autoscaler is forgotten entirely, the others not at all |
| Autoscaler.PodAutoscaler.NormalizeDesiredReplicas | controllers/src/podautoscaler/horizontal.rs:298-329 | Stabilising, limiting and raising to the minimum, in that order, on the state each step leaves |
| Autoscaler.PodAutoscaler.StabilizeRecommendation | controllers/src/podautoscaler/horizontal.rs:332-386 | The in-place loops compute both window bounds on the pruned list and append the unstabilised wish |
| Autoscaler.PodAutoscaler.ConformWithBehavior | controllers/src/podautoscaler/horizontal.rs:389-431 | The limited count in both directions, or the overflow of the limit |
| Autoscaler.PodAutoscaler.CalcScaleUpLimit | controllers/src/podautoscaler/horizontal.rs:433-464 | The loop gives the policies' combined limit, and an overflow if any policy's limit leaves the range; the limit is the least (`Min`) or greatest (`Max`) of the policies' ceilings over the count their period began with |
| Autoscaler.PodAutoscaler.CalcScaleDownLimit | controllers/src/podautoscaler/horizontal.rs:466-505 | The dual: the greatest (`Min`, the smallest change) or least (`Max`) of the policies' floors |
| Autoscaler.PodAutoscaler.RecordScaleEvent | controllers/src/podautoscaler/horizontal.rs:523-568 | The change is recorded in the list of its direction, after pruning that list, and nowhere else |
| Autoscaler.PodAutoscaler.DiscardOutdatedScaleEvents | controllers/src/podautoscaler/horizontal.rs:571-580 | Popping from the front drops exactly the leading entries older than the period |
| AutoscalerSpec.FoldIsExtreme | controllers/src/podautoscaler/horizontal.rs:442-463 | The selected limit bounds every policy's and is one policy's; it overflows exactly if one of them does |
| AutoscalerPolicies.CeilingMeans | controllers/src/podautoscaler/horizontal.rs:455-460 | A Pods policy allows its value more than the period's start; a Percent policy the least r with 100 r >= start (100 + value) |
| AutoscalerPolicies.FloorMeans | controllers/src/podautoscaler/horizontal.rs:489-500 | A Pods policy allows its value less, down to 0; a Percent policy the least r with 100 r >= start (100 - value), and 0 from 100 percent on |
| AutoscalerPolicies.PeriodLimitsAre | controllers/src/podautoscaler/horizontal.rs:454-460 | A policy's limit is exactly that number over current less added, or current plus deleted, as far as the type holds it |
| AutoscalerPolicies.UpLimitMeans | controllers/src/podautoscaler/horizontal.rs:433-464 | The scale-up limit is one policy's and bounds the others on the selected side; disabled it is the current count |
| AutoscalerPolicies.DownLimitMeans | controllers/src/podautoscaler/horizontal.rs:466-505 | The dual |
| AutoscalerSpec.UpBoundIsLeast | controllers/src/podautoscaler/horizontal.rs:361-369 | The scale-up bound is the least of the wish and the recommendations inside the window |
| AutoscalerSpec.DownBoundIsGreatest | controllers/src/podautoscaler/horizontal.rs:361-369 | The scale-down bound is the greatest of the wish and the recommendations inside the window |
| AutoscalerSpec.PruningKeepsTheWindows | controllers/src/podautoscaler/horizontal.rs:350-360 | On a time-sorted list pruning keeps exactly the entries inside at least one window |
| AutoscalerSpec.PruningDropsOutdated | controllers/src/podautoscaler/horizontal.rs:350-360 | On any list it only drops leading entries that are outside both windows |
| AutoscalerSpec.NormalizeEnvelope | controllers/src/podautoscaler/horizontal.rs:298-431 | For min <= current <= max the result lies between current and wish and inside [min, max], respects every recommendation in its window, and a disabled direction is frozen; with or without pruning |
| AutoscalerSpec.RoundStaysInBounds | controllers/src/podautoscaler/horizontal.rs:187-217 | A completed reconcile leaves 0 or a count inside [min, max] |
| AutoscalerRuns.PruningIsInvisible | controllers/src/podautoscaler/horizontal.rs:343-580 | In every run the outcomes with pruning equal those of a controller that never forgets an entry |
| AutoscalerRuns.SumsAgree | controllers/src/podautoscaler/horizontal.rs:507-580 | Every policy's period sum is the same on the pruned and on the full list |
| AutoscalerRuns.BoundsAgree | controllers/src/podautoscaler/horizontal.rs:343-383 | Both stabilisation bounds are the same on the pruned and on the full list |
| AutoscalerRuns.RecommendationsStaySorted | controllers/src/podautoscaler/horizontal.rs:164-185 | In every run the recommendation list is sorted by time |
| AutoscalerRuns.RunsStayInBounds | controllers/src/podautoscaler/horizontal.rs:187-217 | After every completed reconcile of every run the count is 0 or inside [min, max] |
| AutoscalerLimits.UpRateIff | controllers/src/podautoscaler/horizontal.rs:187-236 | With `Min` selection and a Pods policy of value V, the recorded increases of any run sum to at most V in every closed window of the policy's period if and only if every jump to the minimum fits with the increases of the period before it |
| AutoscalerLimits.UpRateIsLimited | controllers/src/podautoscaler/horizontal.rs:396-568 | So every run without a jump up keeps the rate, in every window |
| AutoscalerLimits.DownRateIff | controllers/src/podautoscaler/horizontal.rs:187-236 | The dual for decreases and jumps to the maximum |
| AutoscalerLimits.DownRateIsLimited | controllers/src/podautoscaler/horizontal.rs:396-568 | So every run without a jump down keeps the rate, in every window |
| AutoscalerLimits.KeepsRateIff | controllers/src/podautoscaler/horizontal.rs:507-521 | A time-ordered list of changes keeps a rate in all windows exactly if every change fits with those of the period before it |
| AutoscalerLimits.ListsAreTheChanges | controllers/src/podautoscaler/horizontal.rs:219-236 | The unpruned event lists are exactly the changes of the completed reconciles, in order |
| AutoscalerLimits.RecordingForgetsThePast | controllers/src/podautoscaler/horizontal.rs:523-580 | Recording a change drops exactly the changes that the longest policy period has passed |
| AutoscalerLimits.JumpUpBreaksTheRate | controllers/src/podautoscaler/horizontal.rs:193-194 | Every first jump to the minimum of more than a policy's value breaks its rate |
| AutoscalerLimits.JumpDownBreaksTheRate | controllers/src/podautoscaler/horizontal.rs:191-192 | Every first jump to the maximum of more than a policy's value breaks its rate |
| AutoscalerLimits.JumpsBreakTheRate | controllers/src/podautoscaler/horizontal.rs:191-194 | Two such inputs: 2 replicas below a minimum of 5, 20 above a maximum of 10, with one pod a minute allowed |
| AutoscalerRange.ScaleUpLimitOverflows | controllers/src/podautoscaler/horizontal.rs:454-456 | The limit leaves the unsigned range if and only if some policy's period added more than is there now or a Pods policy's sum is too large |
| AutoscalerRange.ScaleDownLimitOverflows | controllers/src/podautoscaler/horizontal.rs:488 | The scale-down limit leaves it if and only if for some policy the count its period began with is too large |
| AutoscalerRange.PanicsIff | controllers/src/podautoscaler/horizontal.rs:187-217 | A reconcile panics if and only if it asks the metric and either the calculator panics, or it gives a count and the limit of the direction the stabilised wish asks for leaves the range |
| AutoscalerRange.UpDownUpUnderflows | controllers/src/podautoscaler/horizontal.rs:454 | Up by 4, down by 4 and up again inside one period makes the third reconcile panic |
| AutoscalerRange.ClimbingRunsStayInRange | controllers/src/podautoscaler/horizontal.rs:454-456 | While replicas only grow and every Pods policy value fits between the maximum and the largest 32-bit number, the reconciles of a run that panic are exactly those whose calculator is asked and panics |
| AutoscalerGrowth.GrowthIsLimited | controllers/src/podautoscaler/horizontal.rs:447-463 | In every undisturbed run, whatever its decreases and earlier jumps, an increase under `Min` selection that is not a jump ends below every policy's ceiling over the count at any reconcile of that policy's period, for Pods and Percent policies |
| AutoscalerGrowth.ShrinkageIsLimited | controllers/src/podautoscaler/horizontal.rs:481-502 | The dual: a decrease that is not a jump ends above every policy's floor over the count at any reconcile of its period |
| AutoscalerGrowth.GrowthUnderMaxIsLimited | controllers/src/podautoscaler/horizontal.rs:442-463 | Under `Max` selection, the default, such an increase ends below the ceiling of at least one policy, whichever reconcile of each policy's period is taken as its start |
| AutoscalerGrowth.ShrinkageUnderMaxIsLimited | controllers/src/podautoscaler/horizontal.rs:475-502 | The dual: such a decrease ends above the floor of at least one policy |
| AutoscalerGrowth.DefaultGrowthIsLimited | resources/src/objects/hpa.rs:131-148 | With the default rules an undisturbed increase ends at no more than 4 pods above, or twice, the count at any reconcile of the period |
| AutoscalerMetrics.CalculatorPanicsIff | controllers/src/podautoscaler/horizontal.rs:263-296 | Of the three kinds of target only an average value without a metric left, and a function without replicas, make the calculator panic |
| AutoscalerMetrics.ReconcilePanicsIff | controllers/src/podautoscaler/horizontal.rs:187-217 | With the calculator's answer for what the metrics server and the pod store say, a reconcile panics if and only if it asks the metric and either an average value has no metric left or the limit of the wanted direction leaves the range; a function without replicas never gets there |
| AutoscalerMetrics.ClimbingReconcilesStayInRange | controllers/src/podautoscaler/horizontal.rs:187-217 | Under the same bound on Pods policies, an autoscaler on utilization or queries never panics while replicas only grow, whatever is measured |
| AutoscalerStability.ListIsTheWishes | controllers/src/podautoscaler/horizontal.rs:164-185 | The unpruned recommendation list is exactly what the reconciles of the run found and wished, in order |
| AutoscalerStability.DecisionsAreStable | controllers/src/podautoscaler/horizontal.rs:331-386 | In every run an evaluating reconcile lowers the count only to a value not below the wish of any reconcile inside the scale-down window, and raises it only to one not above any inside the scale-up window |
| AutoscalerReach.ReconcileCases | controllers/src/podautoscaler/horizontal.rs:187-236 | The outcome without a status, at 0, above the maximum, below the minimum, and for a failing or panicking calculator, with posting that succeeds or not |
| AutoscalerReach.NotedMeans | controllers/src/podautoscaler/horizontal.rs:164-185 | The count that is found is remembered exactly if it is the first or somebody else has changed the target, and nothing is forgotten |
| AutoscalerReach.ReconcileLandsOn | controllers/src/podautoscaler/horizontal.rs:298-431 | With l and h the least and greatest wish in the windows: a count between them stays; a greater one ends exactly at the largest of h, the minimum and the selected policy's floor; a smaller one exactly at the smallest of l, the maximum and the selected ceiling |
| AutoscalerReach.DefaultRulesReachDown | resources/src/objects/hpa.rs:119-129 | Under the default rules, without a greater wish in the window, one reconcile goes down to the wish, or the minimum |
| AutoscalerReach.DefaultRulesReachUp | resources/src/objects/hpa.rs:131-148 | Under the default rules, without a smaller wish in the window, one reconcile goes up to the wish, the maximum, or 4 more or twice the count the period began with |
| ReplicaCalculator.FilterPods | controllers/src/podautoscaler/replica_calculator.rs:149-177 | It is an error exactly if some pod has no status; otherwise a metric survives, unchanged, exactly if no listed pod of its name has failed or lacks Ready = true, and the missing pods are exactly those without a metric, in order |
| ReplicaCalculator.CalcScaleRatioByUtilization | controllers/src/podautoscaler/replica_calculator.rs:179-204 | Total use in percent of the measured pods' total requests over the target, 1 without requests, with the float's values for a zero target |
| ReplicaCalculator.CalcScaleRatioByValue | controllers/src/podautoscaler/replica_calculator.rs:206-222 | The truncated average over the target, 1 for a zero target, and a division by zero without metrics |
| ReplicaCalculator.CalcReplicasByUtilization | controllers/src/podautoscaler/replica_calculator.rs:30-78 | The outcome of filtering, filling the missing pods and deciding in utilization mode |
| ReplicaCalculator.CalcReplicasByValue | controllers/src/podautoscaler/replica_calculator.rs:81-128 | The same in value mode, with its panic |
| ReplicaCalculator.FunctionReplicasFit | controllers/src/podautoscaler/replica_calculator.rs:131-146 | The function count is the least that brings the truncated load down to the target |
| ReplicaFit.UtilizationFits | controllers/src/podautoscaler/replica_calculator.rs:46-77 | In utilization mode the count is the least c with c * requests * target >= filled use * 100 * pods, but never against the filled use's side of the target, and the current count if the measured use is on the other side |
| ReplicaFit.ValueFits | controllers/src/podautoscaler/replica_calculator.rs:96-127 | In value mode it is the least c with c * target >= truncated average of the filled values * pods, with the same exceptions |
| ReplicaDamping.FilteredApart | controllers/src/podautoscaler/replica_calculator.rs:149-177 | The missing pods are some of the pods, each once, and none of them has a metric left |
| ReplicaDamping.FilledSums | controllers/src/podautoscaler/replica_calculator.rs:50-65 | Filling adds exactly the missing pods' amounts to the total and their number to the count |
| ReplicaDamping.UtilizationDampsIff | controllers/src/podautoscaler/replica_calculator.rs:46-77 | For every positive target filling damps the utilization ratio if and only if the missing pods request nothing, or the ratio is not below 1 or the measured pods use at most what they request; where the measured pods request nothing, if and only if their use is within the target over the missing pods' requests |
| ReplicaDamping.UtilizationDamps | controllers/src/podautoscaler/replica_calculator.rs:46-77 | So it always damps for targets of at most 100 percent, unless measured pods that request nothing use more than that |
| ReplicaDamping.HighTargetsAmplify | controllers/src/podautoscaler/replica_calculator.rs:56-58 | At 200 percent it makes a ratio below 1 still smaller |
| ReplicaDamping.UnrequestedUseAmplifies | controllers/src/podautoscaler/replica_calculator.rs:192-194 | One measured pod that requests nothing and one missing pod turn a ratio of 1 into 200 at a target of 50 percent, and one replica into 400 |
| ValueDamping.ValueDampsIff | controllers/src/podautoscaler/replica_calculator.rs:97-117 | In value mode filling damps if and only if the target survives its cast to `i64`, the ratio is not below 1, or the filled sum still reaches the measured average |
| ValueDamping.ValueDamps | controllers/src/podautoscaler/replica_calculator.rs:97-117 | So it damps for every target up to 2^63 - 1 and every sign of the measurements |
| ValueDamping.HugeTargetAmplifies | controllers/src/podautoscaler/replica_calculator.rs:110 | A target of 2^63 turns a ratio just above 0 into one below 0 |
| ScaleDirection.DecisionKeepsDirection | controllers/src/podautoscaler/replica_calculator.rs:68-77 | Above 1 never below the current count, below 1 never above it, exactly the current count for strictly opposed ratios, the number of pods at exactly 1, and 0 for a NaN |
| ScaleDirection.MeasuredDirectionWins | controllers/src/podautoscaler/replica_calculator.rs:69-73 | The count rises against a measured ratio below 1 if and only if the filled ratio is exactly 1 and there are more pods than replicas; it falls against one above 1 if and only if the dual holds or the filled ratio is a NaN |
| ScaleDirection.UtilizationDirection | controllers/src/podautoscaler/replica_calculator.rs:46-77 | In utilization mode that is so if and only if the filled use meets the target of the filled requests to the unit and the number of pods lies beyond the count |
| ScaleDirection.ValueDirection | controllers/src/podautoscaler/replica_calculator.rs:96-127 | In value mode if and only if the truncated average of the filled values is the target and the number of pods lies beyond the count |
| ScaleDirection.IdlePodsScaleUp | controllers/src/podautoscaler/replica_calculator.rs:68-76 | A pod that uses none of its 100 and a missing pod that requests 100 turn one replica into two at a target of 50 percent |
| ReplicaDamping.ZeroTarget | controllers/src/podautoscaler/replica_calculator.rs:186-203 | For a zero utilization target, whichever pods have metrics: the largest count with use, 0 without, the remaining cases of negative use, and the number of pods if nothing is requested |
| ReplicaDamping.NothingMeasured | controllers/src/podautoscaler/replica_calculator.rs:192-194 | Without a measured pod utilization mode asks for 0 replicas if the missing pods request anything, and for as many as are missing if not |
| ReplicaDamping.ValuePanicsIff | controllers/src/podautoscaler/replica_calculator.rs:213 | Value mode panics if and only if filtering leaves no metric |
| Nat.NatTable.DeleteChain | rkube_proxy/src/k8s_iptables.rs:167-173 | iptables deletes a chain only if it is empty and no rule jumps to it, and counts the rejection otherwise |
| ServiceCleanup.Cleanup | rkube_proxy/src/k8s_iptables.rs:199-255 | The start-up sweep is accepted throughout; PREROUTING and OUTPUT jump to the service chain, first if they did not before, and keep their other rules; the service chain is empty, the chains with our prefixes are gone, and all others are as they were |
| ServiceCleanup.RestartRecovers | rkube_proxy/src/k8s_iptables.rs:185-255 | What an exact proxy leaves can be swept, and the next proxy starts from the same table as if none had run before |
| ServiceProxy.K8sIpTables.constructor | rkube_proxy/src/k8s_iptables.rs:185-197 | A new proxy's table is exact for its empty service map, on the swept base, and both built-in chains lead into the service chain |
| ServiceProxy.K8sIpTables.NewSvc | rkube_proxy/src/k8s_iptables.rs:257-265 | An absent name is entered without ports, a present one is left alone |
| ServiceProxy.K8sIpTables.AddSvcPort | rkube_proxy/src/k8s_iptables.rs:53-69 | A fresh load-balancing chain, an entry rule at the end of the service chain, no rejected operation |
| ServiceProxy.K8sIpTables.RewriteLbRules | rkube_proxy/src/k8s_iptables.rs:142-152 | After the counting loop the chain holds one rule per endpoint with falling divisors, in some order of the endpoints |
| ServiceProxy.K8sIpTables.AddLbEp | rkube_proxy/src/k8s_iptables.rs:125-140 | A fresh single-rule endpoint chain, and the rebuilt load balancer |
| ServiceProxy.K8sIpTables.AddSvcEp | rkube_proxy/src/k8s_iptables.rs:278-287 | Every load balancer of the service, in any order, gets exactly that endpoint more |
| ServiceProxy.K8sIpTables.AddSvc | rkube_proxy/src/k8s_iptables.rs:301-319 | No operation is rejected for any service; an absent one with distinct ports is added exactly |
| ServiceProxy.K8sIpTables.DelSvc | rkube_proxy/src/k8s_iptables.rs:321-332 | No operation is rejected; the service's chains, entry rules and record are gone and nothing else changes |
| ServiceProxy.K8sIpTables.HandleNotification | rkube_proxy/src/main.rs:90-106 | Each kind of notification does its step, an update as deletion and addition |
| ServiceProxy.K8sIpTables.HandleAll | rkube_proxy/src/main.rs:60-72 | Any sequence of notifications is handled without a rejected operation; if they are clean the table ends exact and the service map ends with what was notified last under each name |
| ServiceTables.LbReferences | rkube_proxy/src/k8s_iptables.rs:40-51 | In a valid state only the entry rule jumps to a load-balancing chain, so deleting the rule frees it |
| ServiceTables.EpReferences | rkube_proxy/src/k8s_iptables.rs:166-175 | Only the service port's own load balancer jumps to an endpoint chain |
| ServiceSteps.PortAddedKeepsInv | rkube_proxy/src/k8s_iptables.rs:53-69 | Adding a port keeps the invariant, even for a port that is already there |
| ServiceSteps.EpAddedKeepsInv | rkube_proxy/src/k8s_iptables.rs:125-152 | Adding an endpoint keeps it, even for one that is already there |
| ServiceSteps.PortDroppedKeepsInv | rkube_proxy/src/k8s_iptables.rs:44-50 | Dropping the entry rule and the load-balancing chain keeps it |
| ServiceSteps.LbUnreferenced | rkube_proxy/src/k8s_iptables.rs:44-50 | Once the entry rule is gone no rule refers to the load-balancing chain |
| ServiceSteps.EpsUnreferenced | rkube_proxy/src/k8s_iptables.rs:166-175 | Once the load balancer is gone no rule refers to its endpoint chains |
| ServiceRuns.RunsStayExact | rkube_proxy/src/k8s_iptables.rs:40-332 | In every run of clean notifications the table is at every moment exactly the one the service map determines: one entry rule per port, one balancing chain per port, one single-rule chain per endpoint and port, no dangling jump, foreign chains untouched |
| ServiceRuns.PortAddedExactIff | rkube_proxy/src/k8s_iptables.rs:53-69 | Adding a port keeps the table exact if and only if the service does not have it yet |
| ServiceRuns.EpAddedExactIff | rkube_proxy/src/k8s_iptables.rs:125-140 | Adding an endpoint keeps it exact if and only if the balancer does not have it yet |
| ServiceRoundTrip.AdditionIsUndone | rkube_proxy/src/k8s_iptables.rs:301-332 | Add a service, let any run happen to others, delete it: the result is that of the same run without the service, rule order included |
| ServiceRoundTrip.AddDeleteRestores | rkube_proxy/src/k8s_iptables.rs:301-332 | Adding an absent service and deleting it restores the table and the record |
| ServiceRoundTrip.StrippedRun | rkube_proxy/src/k8s_iptables.rs:301-332 | A run that does not touch a service is, seen without it, a run of the same notifications |
| LoadBalance.LbWalk | rkube_proxy/src/k8s_iptables.rs:142-164 | Rules 1..n inserted at the top with probability 1/i reach each endpoint with probability exactly 1/n and let nothing pass, for every n and every order |
| LoadBalance.TrafficIsBalanced | rkube_proxy/src/k8s_iptables.rs:71-81 | In an exact table a packet that enters through PREROUTING or OUTPUT is rewritten to each endpoint of the first serving entry with probability 1/n, to nothing else, and passes exactly when no port serves its address |
| LoadBalance.ServiceIsBalanced | rkube_proxy/src/k8s_iptables.rs:142-164 | At every moment of every run, packets that enter there for an address that one service has alone are spread evenly over that port's endpoints |
| ServiceMap.MapIsLatest | rkube_proxy/src/k8s_iptables.rs:257-332 | After any clean run the service map holds exactly the services added or updated last and not deleted since, with their cluster address, ports, target ports and endpoints |
| ServiceMap.PacketsReachEndpoints | rkube_proxy/src/k8s_iptables.rs:142-332 | From the sweep through any clean run to the packet: what enters for a port of a service as last notified reaches each of its endpoints, at the target port, with probability 1/n |
| Reflector.Reflector.Relist | resources/src/informer/reflector.rs:35-62 | The listing replaces the store and asks for a resync exactly if the two differ |
| Reflector.Reflector.HandleEvent | resources/src/informer/reflector.rs:97-123 | One event's new store and notification, in all five cases |
| Reflector.Reflector.HandleWatcher | resources/src/informer/reflector.rs:80-128 | The store after the events up to a close, an unparsable text or the end, other messages skipped |
| Reflector.Reflector.Run | resources/src/informer/reflector.rs:29-78 | After any sessions the store agrees with etcd on exactly the keys that the last session's listing, watch and events determine, whatever came before, and with the listing if the last watch did not open; without a resync the notifications only grow on the same base |
| Reflector.ListWatchAgreement | resources/src/informer/reflector.rs:34-128 | After a listing at L, a watch from W and events up to r, the store agrees with etcd at r on a key if and only if the key was touched since W or L and W agree on it |
| Reflector.SessionIsCurrent | resources/src/informer/reflector.rs:34-77 | A session brings any store up to date in that sense |
| Reflector.EventsAre | resources/src/informer/reflector.rs:85-125 | The events are those of the texts before the first close or unparsable text, in order, other messages skipped |
| Reflector.ListingHolds | resources/src/informer/reflector.rs:49-52 | The listing holds, for every key of its objects, the last object with it |
| Reflector.MissedKeysAreInTheGap | resources/src/informer/reflector.rs:34-128 | A key that differs was changed between L and W and not since; with W = L the whole store agrees |
| Reflector.WatchAgrees | resources/src/informer/reflector.rs:85-128 | Consuming events makes the touched keys agree and leaves the agreement of the others as it was |
| Reflector.GapLosesADeletion | resources/src/informer/reflector.rs:66-71 | A deletion between the listing and the watch leaves the object in the store |
| Reflector.NotificationsReplay | resources/src/informer/reflector.rs:98-123 | Folding the notifications of any events over the store before them gives the store after them; additions are of absent keys, updates carry the stored value and a different one, deletions the stored one |
| Reflector.EventReplays | resources/src/informer/reflector.rs:98-123 | One more event keeps the replay since the last resync in step with the store |
| Endpoints.Controller.AddSvcEndpoint | controllers/src/endpoints/utils.rs:134-151 | Every service gains the pod's address exactly if each label of the pod is an entry of its selector, in the store and in what is published |
| Endpoints.Controller.DelSvcEndpoint | controllers/src/endpoints/utils.rs:153-173 | Exactly those services lose it |
| Endpoints.Controller.AddEndpoints | controllers/src/endpoints/utils.rs:189-210 | A new service is published with the addresses of all pods that back it, if there are any |
| Endpoints.Controller.HandleResync | controllers/src/endpoints/main.rs:98-123 | Every service ends with the addresses of the pods whose labels are entries of its selector, and nothing changes if it had them |
| Endpoints.Controller.HandleNotification | controllers/src/endpoints/main.rs:125-151 | Each notification's effect on the stores; a pod that keeps its address is left alone |
| Endpoints.Controller.DeliverAll | controllers/src/endpoints/main.rs:78-89 | Any events; if they are orderly the store ends as a resync would leave it |
| Endpoints.StepStaysExactIff | controllers/src/endpoints/utils.rs:134-210 | An event keeps the incremental sets equal to the recomputed ones if and only if it takes no address another backing pod provides, changes no backing of a pod that keeps its address, and brings no foreign endpoints |
| Endpoints.RunsStayExact | controllers/src/endpoints/main.rs:98-151 | With distinct addresses, fixed labels and selectors and new services empty, every run keeps them equal |
| Endpoints.SharedAddressIsLost | controllers/src/endpoints/utils.rs:163 | When one of two pods with one address goes, the services lose the address |
| Endpoints.SelectorTestIsReversed | controllers/src/endpoints/utils.rs:143 | A pod passes both this test and the one used elsewhere only if its labels are the selector; a pod without labels backs every service |
| Endpoints.BacksIff | controllers/src/endpoints/utils.rs:143 | A pod backs a service exactly if it has an address and its label entries are a subset of the selector's |
| Scheduler.Cache.CalculateNodeState | scheduler/src/cache.rs:98-112 | The counting loop gives the number of stored pods on the node |
| Scheduler.Cache.Refresh | scheduler/src/cache.rs:34-42 | The states become the recomputed ones, and do not change if they agreed |
| Scheduler.Cache.HandlePodDelete | scheduler/src/cache.rs:59-74 | The pod's node, if it is known, counts one less |
| Scheduler.Simple | scheduler/src/algorithm/simple.rs:5-32 | A ready node that carries every entry of the pod's node selector and has the least count of all such nodes, for every order of the map; none exactly if there is no such node |
| Scheduler.Scheduler.HandlePodAdd | scheduler/src/scheduler.rs:116-143 | A pod with a node is skipped; otherwise it is bound to a best node and counted, if any is eligible |
| Scheduler.Scheduler.Deliver | scheduler/src/scheduler.rs:100-114 | What each pod and node event does to the stores and the states |
| Scheduler.Scheduler.Run | scheduler/src/scheduler.rs:43-76 | A refresh and then any events make a run that starts in agreement |
| SchedulerSpec.StepAgreesIff | scheduler/src/cache.rs:34-112 | An event keeps the states equal to the recomputed ones if and only if no pod appears on or moves between known nodes on its own and no returning node is still named by a pod |
| SchedulerSpec.EligibleIff | scheduler/src/algorithm/simple.rs:11-22 | Eligible are the ready nodes whose label entries include the selector's |
| SchedulerSpec.RunsAgree | scheduler/src/cache.rs:34-112 | In every run of such events the states agree at every moment and every count lies between 0 and the number of pods |
| SchedulerSpec.CountsStayInRange | scheduler/src/cache.rs:63 | An agreeing count is positive wherever a stored pod can be deleted, so the decrement never underflows |
| SchedulerSpec.ReturningNodeIsUndercounted | scheduler/src/cache.rs:59-87 | A removed node that comes back while pods name it counts 0, and deleting one of those pods next takes its count below 0 |
| SchedulerBalance.RunsStayBalanced | scheduler/src/algorithm/simple.rs:5-32 | In every run in which pods with one fixed eligible set arrive, its counts never spread by more than at the start, or by more than 1 |
| SchedulerBalance.RunsEvenOut | scheduler/src/algorithm/simple.rs:5-32 | However uneven the counts were, once as many pods have arrived as would level them they differ by at most 1 |
| SchedulerBalance.HandlingPlaces | scheduler/src/scheduler.rs:116-143 | Handling a new pod binds it to a best node if any node is eligible |
| SchedulerBalance.SpreadStaysWithin | scheduler/src/algorithm/simple.rs:5-32 | Placements on one fixed eligible set never spread its counts by more than before, or by more than 1 |
| SchedulerBalance.EvensOut | scheduler/src/algorithm/simple.rs:5-32 | After as many placements as would level the counts they differ by at most 1 |
| PodOrder.CompareIsAnOrder | controllers/src/replica_set/controller.rs:271-294 | The comparison is a total preorder that only ties equal keys |
| PodOrder.NotAfterIff | controllers/src/replica_set/controller.rs:271-294 | Failed before pending before running before succeeded; in one phase not ready before ready; else by start time |
| PodOrder.OwnerIsTheOnlyOne | controllers/src/replica_set/controller.rs:234-248 | A pod has an owner exactly if one reference and no second one is of the kind, and it is that one |
| PodOrder.SortBy | controllers/src/gpu_job/controller.rs:456-479 | Sorting gives an ordered permutation |
| PodOrder.FirstToDelete | controllers/src/replica_set/controller.rs:269-296 | The first pod comes before no other; a panic exactly if there is none or a compared pod has no status |
| ReplicaSet.Controller.CalculateStatus | controllers/src/replica_set/controller.rs:259-267 | The number of pods whose label entries include the selector's, and of those among them that are ready |
| ReplicaSet.Controller.Reconcile | controllers/src/replica_set/controller.rs:143-171 | One pod created below the desired count, one matching pod deleted above it that by phase, readiness and start time may go before every other matching one, nothing at it, and every failure |
| ReplicaSet.Controller.HandlePodChange | controllers/src/replica_set/controller.rs:109-141 | The pod's only owner gets its recomputed status |
| ReplicaSet.Controller.RunRound | controllers/src/replica_set/controller.rs:69-99 | Reconciling a stored set and observing the change is one round, and it cannot fail on a settled set |
| ReplicaSet.RoundShrinksIff | controllers/src/replica_set/controller.rs:143-171 | On a current status a round brings the set one pod closer to the desired count if and only if there is a distance and, when pods are missing, the template fits the selector; at the desired count it changes nothing; a set that owns every pod its selector finds stays settled |
| ReplicaSet.RoundStaysCurrentIff | controllers/src/replica_set/controller.rs:109-141 | A round leaves the status stale, one too high, if and only if it deletes a matching pod the set does not own |
| ReplicaSet.ForeignPodOvershoots | controllers/src/replica_set/controller.rs:109-171 | If that happens one pod above the desired count, the next reconcile on that status goes one below it |
| ReplicaSet.RoundsConverge | controllers/src/replica_set/controller.rs:121-171 | For a set that owns every pod its selector finds, i rounds shrink the distance by i, down to 0, where it stays |
| ReplicaSet.SurvivorsOutrank | controllers/src/replica_set/controller.rs:269-296 | When such a set shrinks, no pod it keeps comes before one it deleted |
| GpuJob.Controller.CalculateStatus | controllers/src/gpu_job/controller.rs:425-452 | The numbers of pods that name the job as an owner and are pending or running, failed, and succeeded |
| GpuJob.Controller.Reconcile | controllers/src/gpu_job/controller.rs:292-318 | One pod created below the wanted number, above it an active one deleted that by phase, readiness and start time may go before every other active one, and every failure including the underflow |
| GpuJob.Controller.HandleJobUpdate | controllers/src/gpu_job/controller.rs:76-92 | A job event is a reconcile step; on a safe job it deletes nothing and fails only without a template |
| GpuJob.Controller.HandlePodChange | controllers/src/gpu_job/controller.rs:114-150 | A pod event brings its only owner's status up to date and touches no other job |
| GpuJob.CountsAddUp | controllers/src/gpu_job/controller.rs:425-452 | Active, failed and succeeded together are the owned pods that have a status |
| GpuJob.StartsSafe | controllers/src/gpu_job/controller.rs:425-452 | A job without pods and with zero counts is safe, settled or not |
| GpuJob.StepIsSafe | controllers/src/gpu_job/controller.rs:292-318 | Every step of atomic rounds keeps the job safe; the subtraction never underflows and the delete branch is never taken |
| GpuJob.RunsAreSafe | controllers/src/gpu_job/controller.rs:292-318 | In every run active stays within the parallelism, and active plus succeeded within the completions |
| GpuJob.RestsWhenComplete | controllers/src/gpu_job/controller.rs:299-316 | With nothing active a reconcile does nothing exactly if the completions are reached or no parallelism is allowed |
| GpuJob.RoundCreatesIff | controllers/src/gpu_job/controller.rs:292-318 | On a current status a round starts one pod exactly if fewer are active than the parallelism and than the completions still missing |
| GpuJob.RoundsFill | controllers/src/gpu_job/controller.rs:292-318 | While no pod ends, n rounds start n pods more, up to the smaller of the two |
| GpuJob.StaleStatusOvershoots | controllers/src/gpu_job/controller.rs:303-307 | Two reconciles on one status create one pod too many |
| Labels.TryFrom | resources/src/objects/mod.rs:164-177 | The map of the labels between commas, later ones winning, or an error at the first without a value |
| Labels.LaterLabelsWin | resources/src/objects/mod.rs:164-177 | A label sets the text before its first '=' to the text after it, up to a second one, over earlier labels; without '=' it is an error |
| Labels.SplitUndoesJoin | resources/src/objects/mod.rs:133-168 | Splitting undoes joining for parts without the separator |
| Labels.JoinUndoesSplit | resources/src/objects/mod.rs:133-168 | Joining undoes splitting for every string |
| Labels.RoundTrip | resources/src/objects/mod.rs:133-177 | Parsing the printed form gives the map back, in every iteration order, if and only if the map is not empty and no key or value contains ',' or '=' |
| Labels.ParsedMapsRoundTrip | resources/src/objects/mod.rs:133-177 | Every map that parsing gives survives printing and parsing |
| Labels.EmptyDoesNotParse | resources/src/objects/mod.rs:133-177 | The empty map prints to a string that is rejected |
| Labels.MatchesIff | resources/src/objects/mod.rs:211-216 | Labels match exactly if the wanted entries are a subset of theirs |
| Labels.MoreLabelsMatch | resources/src/objects/mod.rs:194-216 | Another label never loses a match, and everything matches no labels |
| Labels.MatchesBothWays | resources/src/objects/mod.rs:211-216 | Matching is an inclusion: both ways it is equality |
| Workflow.HandleWorkflow | serverless/src/router/workflow.rs:22-106 | The loop computes the walk after as many turns as it makes, and stops early only where the walk ends |
| Workflow.FirstMatch | serverless/src/router/workflow.rs:84-103 | The target of the first rule whose field is in the body, a JSON object, with the rule's text or number, whatever the default |
| Workflow.MatchWithIff | resources/src/objects/workflow.rs:71-104 | A rule holds exactly if the body is a JSON object with that field and the field is that text or that 64-bit number |
| Workflow.ChoiceFollowsFields | serverless/src/router/workflow.rs:78-103 | A choice goes to the target of its first rule that holds, or else to the default, and keeps the response |
| Workflow.TaskHandsOn | serverless/src/router/workflow.rs:34-77 | A task whose function answers hands the answer to its successor, or ends the walk with it |
| Workflow.RankedHalts | serverless/src/router/workflow.rs:32-106 | If a rank drops along every edge the walk ends within as many turns as there are states, whatever functions answer |
| Workflow.RankedAndClosedFinish | serverless/src/router/workflow.rs:32-106 | If also the first state and all targets exist, it ends at a Task without successor or at a failed lookup or call |
| Workflow.ClosedNeverMisses | serverless/src/router/workflow.rs:69-103 | With all targets present no walk ends at a missing state |
| Workflow.ValidatedMissesOnlyAtChoices | api_server/src/handler/workflow.rs:44-69 | A workflow that passed validation can only miss its first state or the target of a choice |
| Workflow.WalksEndWell | serverless/src/router/workflow.rs:34-113 | Every way a walk ends, and that only a failed call is reported as a failure |
| Workflow.VisitedIsPath | serverless/src/router/workflow.rs:23-103 | The visited states are a path from the first one |
| Workflow.ReportedName | serverless/src/router/workflow.rs:87-102 | The reported name is the state's own, except after a choice, where it is the first state's |
| Workflow.PlainWalk | serverless/src/router/workflow.rs:84-103 | When no body is a JSON object the walk goes on exactly as long as the path of task successors and defaults does |
| Workflow.DefaultPathEndsEarly | serverless/src/router/workflow.rs:69-103 | That path ends within as many steps as there are states, or never |
| Workflow.HaltingNeedsDefaultsToEnd | serverless/src/router/workflow.rs:32-106 | A workflow that halts whatever functions answer has such a path that ends |
| Workflow.RulelessHaltsIff | serverless/src/router/workflow.rs:32-106 | Without rules it halts whatever functions answer if and only if that path ends |
| Workflow.SelfLoopMayNotHalt | serverless/src/router/workflow.rs:97-103 | A first choice whose default is itself does not always halt, whatever its rules are |
| Workflow.SelfLoopNeverHalts | serverless/src/router/workflow.rs:97-103 | Without rules it never halts |

## Left out

- Floating-point rounding: percentages, ratios and probabilities are exact; the source's floats can round a ceiling one higher, and its printed probabilities have eleven digits.
- Autoscaler.PodAutoscaler.Reconcile: does not model the status update at horizontal.rs:237-254 (the status is an input of the next reconcile) or targets that are not replica sets, which are only logged.
- Autoscaler.PodAutoscaler.CalcScaleUpLimit: percentages are exact, one clock reading serves all policies, and an overflow is reported where a release build would wrap around; nothing is claimed beyond it.
- Autoscaler.PodAutoscaler.CalcScaleDownLimit: the same.
- The autoscaler's work queue: `enqueue_hpa` does not enter names in `in_queue`, so duplicates accumulate and no bound on pending entries holds.
- ReplicaCalculator.CalcScaleRatioByUtilization: sums are unbounded integers where the source's are 64-bit, and quotients are exact.
- ReplicaCalculator.CalcScaleRatioByValue: the same.
- ValueDamping.ValueDampsIff: the filled sum is unbounded; with several missing pods and targets near 2^63 the source's 64-bit sum overflows.
- ValueDamping.ValueDamps: the same.
- AutoscalerMetrics.CalculatorPanicsIff: leaves out the overflow of 64-bit sums, which panics in a debug build.
- The metrics client's own aggregation of container metrics; its error is an empty result the caller never reaches.
- ServiceProxy.K8sIpTables.HandleAll: does not model `handle_resync` (main.rs:79-88): on a non-empty service map it sweeps the table but not the map, so no invariant survives it; on an empty map it is a sequence of additions.
- ServiceProxy.K8sIpTables.AddSvc: states its exact effect for an absent service with distinct ports; for others it only states that the invariant is kept and nothing is rejected.
- `change_cluster_ip` (k8s_iptables.rs:83-107, 290-299) is dead code.
- The service and load-balancing tables are values inside the proxy's map, not objects of their own.
- Rules are records, not command lines; a foreign rule is an optional jump and, apart from the portals, does not apply to service packets.
- Reflector.Reflector.Run: does not model failed listings, which are retried, failed sends, which end the process, or the order between the two notification channels.
- Endpoints.Controller.UpdateService: does not model a failed request, which in the source ends the loop over services, and on a resync the process, before the remaining services are updated.
- Endpoints.Controller.Deliver: does not model updates of a service by others that change its selector without its endpoints; the controller ignores them until the next resync.
- Scheduler.Cache.HandlePodDelete: counts are unbounded integers; `CountsStayInRange` bounds them by the number of stored pods.
- The scheduler's resync of pods, which queues every stored pod again without a refresh; a pod queued twice would be bound and counted twice.
- Scheduler.Scheduler.Bind: assumes that the binding succeeds; the source also counts a pod whose binding was rejected with an error status.
- ReplicaSet.Controller.Reconcile: does not model failed creations and deletions, which the source reports without changing anything.
- ReplicaSet.Controller.CreatePod: the API server's naming and first status are folded into the step; a deleted replica set's last reconcile and resyncs are left out.
- GpuJob.Controller.Reconcile: does not model failed creations and deletions; the job's template and image are one flag; a deleted job's last reconcile with parallelism 0, which removes at most one pod, is left out.
- Workflow.HandleWorkflow: stops after a given number of turns, which the source's loop does not; response text and function activation are left out.
- HTTP, WebSocket, etcd, container runtime, Prometheus and image building; the API server's handlers, the kubelet's tables and the nginx templates are short case analyses that would add little.
- Locks, channel capacities and the interleaving of the controllers' threads.
