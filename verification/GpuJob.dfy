/** The GPU job controller (controllers/src/gpu_job/controller.rs): at most `parallelism` pods at a time,
    until `completions` have succeeded. */
module GpuJob {
  import opened Common
  import opened PodOrder

  type Pods = map<string, Pod>

  /** `hasTemplate` says whether the pod template has been made. */
  datatype JobStatus = JobStatus(active: nat, failed: nat, succeeded: nat, hasTemplate: bool)

  datatype Job = Job(name: string, completions: u32, parallelism: u32, status: Option<JobStatus>)

  const KIND := "GpuJob"

  // ---------- the pods of a job ----------

  predicate OwnedBy(pod: Pod, job: string) {
    Reference(KIND, job) in pod.owners
  }

  predicate IsActive(pod: Pod) {
    pod.status.Some? && (pod.status.value.phase == Pending || pod.status.value.phase == Running)
  }

  predicate InPhase(pod: Pod, phase: Phase) {
    pod.status.Some? && pod.status.value.phase == phase
  }

  function Active(pods: Pods, job: string): set<string> {
    set k | k in pods && OwnedBy(pods[k], job) && IsActive(pods[k])
  }

  function Ended(pods: Pods, job: string, phase: Phase): set<string> {
    set k | k in pods && OwnedBy(pods[k], job) && InPhase(pods[k], phase)
  }

  function WithStatus(pods: Pods, job: string): set<string> {
    set k | k in pods && OwnedBy(pods[k], job) && pods[k].status.Some?
  }

  /** No active pod comes before this one in the order of deletion. */
  ghost predicate FirstActive(pods: Pods, job: string, k: string) {
    k in Active(pods, job) && forall j <- Active(pods, job) :: NotAfter(pods[k].status.value, pods[j].status.value)
  }

  function CalculatedStatus(pods: Pods, job: string, hasTemplate: bool): JobStatus {
    JobStatus(|Active(pods, job)|, |Ended(pods, job, Failed)|, |Ended(pods, job, Succeeded)|, hasTemplate)
  }

  /** Who goes: an owned pod that is pending or running, and may go before every other such pod. */
  ghost predicate GoesFirst(pods: Pods, job: string, v: string) {
    && v in ActivePods(pods, job)
    && forall k <- ActivePods(pods, job) :: MayGoFirst(pods[v].status.value, pods[k].status.value)
  }

  function ActivePods(pods: Pods, job: string): set<string> {
    set k | k in pods && Reference("GpuJob", job) in pods[k].owners && pods[k].status.Some?
            && pods[k].status.value.phase in {Pending, Running}
  }

  lemma FirstActiveIff(pods: Pods, job: string, v: string)
    ensures Active(pods, job) == ActivePods(pods, job)
    ensures FirstActive(pods, job, v) <==> GoesFirst(pods, job, v)
  {
    assert Active(pods, job) == ActivePods(pods, job);
    forall k | k in ActivePods(pods, job) && v in ActivePods(pods, job)
      ensures NotAfter(pods[v].status.value, pods[k].status.value)
        <==> MayGoFirst(pods[v].status.value, pods[k].status.value)
    {
      NotAfterIff(pods[v].status.value, pods[k].status.value);
    }
  }

  /** The three counts together are the owned pods that have a status. */
  lemma CountsAddUp(pods: Pods, job: string, hasTemplate: bool)
    ensures var s := CalculatedStatus(pods, job, hasTemplate);
      s.active + s.failed + s.succeeded == |WithStatus(pods, job)|
  {
    var a, f, s := Active(pods, job), Ended(pods, job, Failed), Ended(pods, job, Succeeded);
    assert a !! f && (a + f) !! s;
    assert a + f + s == WithStatus(pods, job);
    assert |a + f| == |a| + |f| && |(a + f) + s| == |a + f| + |s|;
  }

  lemma EndedIs(pods: Pods, job: string, phase: Phase)
    ensures Ended(pods, job, phase) ==
      set k | k in pods && Reference("GpuJob", job) in pods[k].owners
              && pods[k].status.Some? && pods[k].status.value.phase == phase
  {
  }

  // ---------- counting one pod more ----------

  function One(b: bool): int { if b then 1 else 0 }

  lemma ActiveWith(pods: Pods, k: string, pod: Pod, job: string)
    requires k !in pods
    ensures |Active(pods[k := pod], job)| == |Active(pods, job)| + One(OwnedBy(pod, job) && IsActive(pod))
  {
    hide OwnedBy, IsActive;
    if OwnedBy(pod, job) && IsActive(pod) {
      assert Active(pods[k := pod], job) == Active(pods, job) + {k};
    } else {
      assert Active(pods[k := pod], job) == Active(pods, job);
    }
  }

  lemma EndedWith(pods: Pods, k: string, pod: Pod, job: string, phase: Phase)
    requires k !in pods
    ensures |Ended(pods[k := pod], job, phase)| ==
      |Ended(pods, job, phase)| + One(OwnedBy(pod, job) && InPhase(pod, phase))
  {
    hide OwnedBy, InPhase;
    if OwnedBy(pod, job) && InPhase(pod, phase) {
      assert Ended(pods[k := pod], job, phase) == Ended(pods, job, phase) + {k};
    } else {
      assert Ended(pods[k := pod], job, phase) == Ended(pods, job, phase);
    }
  }

  /** What one pod counts for. */
  lemma CountsWithout(pods: Pods, k: string, job: string)
    requires k in pods
    ensures |Active(pods, job)| == |Active(pods - {k}, job)| + One(OwnedBy(pods[k], job) && IsActive(pods[k]))
    ensures |Ended(pods, job, Succeeded)| ==
      |Ended(pods - {k}, job, Succeeded)| + One(OwnedBy(pods[k], job) && InPhase(pods[k], Succeeded))
  {
    assert (pods - {k})[k := pods[k]] == pods;
    ActiveWith(pods - {k}, k, pods[k], job);
    EndedWith(pods - {k}, k, pods[k], job, Succeeded);
  }

  // ---------- steps ----------

  /** The pod store and the stored job; `settled` says that no pod was created since the last observation. */
  datatype System = System(pods: Pods, job: Job, settled: bool)

  datatype Step =
    | Progress(key: string, pod: Pod)   // a pod changes; pods that have ended stay as they ended
    | Gone(key: string)                 // a pod is removed
    | Other(key: string, pod: Pod)      // a pod of another owner appears or changes
    | Observe                           // a pod event makes the controller post the job's status
    | Reconcile(key: string, now: int)  // a job event makes it create or delete a pod

  function WantActive(job: Job): int
    requires job.status.Some?
  {
    Min(job.completions - job.status.value.succeeded, job.parallelism)
  }

  function NewPod(job: Job, name: string, now: int): Pod {
    Pod(name, map[], [Reference(KIND, job.name)], Some(PodStatus(Pending, false, now)))
  }

  /** The steps of atomic rounds: a created pod is observed before the job is reconciled again. */
  ghost predicate Allowed(s: System, step: Step) {
    match step
    case Progress(k, pod) =>
      k in s.pods && pod.owners == s.pods[k].owners && pod.status.Some?
        && (IsActive(s.pods[k]) || pod.status == s.pods[k].status)
    case Gone(_) => true
    case Other(k, pod) => !OwnedBy(pod, s.job.name) && (k in s.pods ==> !OwnedBy(s.pods[k], s.job.name))
    case Observe => s.job.status.Some?
    case Reconcile(k, _) => s.job.status.Some? && s.settled && k !in s.pods
  }

  /** What a step leads to. */
  ghost predicate Leads(s: System, step: Step, s': System) {
    match step
    case Progress(k, pod) => s' == s.(pods := s.pods[k := pod])
    case Gone(k) => s' == s.(pods := s.pods - {k})
    case Other(k, pod) => s' == s.(pods := s.pods[k := pod])
    case Observe =>
      s.job.status.Some?
      && s' == System(s.pods,
        s.job.(status := Some(CalculatedStatus(s.pods, s.job.name, s.job.status.value.hasTemplate))), true)
    case Reconcile(k, now) =>
      s.job.status.Some?
      && var status, want := s.job.status.value, WantActive(s.job);
      if status.active < want && status.hasTemplate then s' == System(s.pods[k := NewPod(s.job, k, now)], s.job, false)
      else if status.active > want then exists v :: FirstActive(s.pods, s.job.name, v) && s' == s.(pods := s.pods - {v})
      else s' == s
  }

  // ---------- safety ----------

  /** Never too many active pods, never more than can still be needed, and a stored status that bounds both. */
  ghost predicate Safe(s: System) {
    && s.job.status.Some?
    && var status, active, succeeded := s.job.status.value, |Active(s.pods, s.job.name)|,
      |Ended(s.pods, s.job.name, Succeeded)|;
    && active <= s.job.parallelism && active + succeeded <= s.job.completions
    && status.succeeded <= s.job.completions && status.active <= WantActive(s.job)
    && (s.settled ==> active <= status.active && active + succeeded <= status.active + status.succeeded)
  }

  lemma StartsSafe(s: System)
    requires s.job.status.Some? && s.job.status.value.active == 0 && s.job.status.value.succeeded == 0
    requires forall k <- s.pods :: !OwnedBy(s.pods[k], s.job.name)
    ensures Safe(s)
  {
    assert Active(s.pods, s.job.name) == {} && Ended(s.pods, s.job.name, Succeeded) == {};
  }

  lemma ProgressIsSafe(s: System, k: string, pod: Pod)
    requires Safe(s) && Allowed(s, Progress(k, pod))
    ensures Safe(s.(pods := s.pods[k := pod]))
  {
    var rest := s.pods - {k};
    CountsWithout(s.pods, k, s.job.name);
    ActiveWith(rest, k, pod, s.job.name);
    EndedWith(rest, k, pod, s.job.name, Succeeded);
    assert rest[k := pod] == s.pods[k := pod];
    hide Active, Ended;
  }

  lemma GoneIsSafe(s: System, k: string)
    requires Safe(s)
    ensures Safe(s.(pods := s.pods - {k}))
  {
    if k in s.pods {
      CountsWithout(s.pods, k, s.job.name);
    } else {
      assert s.pods - {k} == s.pods;
    }
    hide Active, Ended;
  }

  lemma OtherIsSafe(s: System, k: string, pod: Pod)
    requires Safe(s) && Allowed(s, Other(k, pod))
    ensures Safe(s.(pods := s.pods[k := pod]))
  {
    assert Active(s.pods[k := pod], s.job.name) == Active(s.pods, s.job.name);
    assert Ended(s.pods[k := pod], s.job.name, Succeeded) == Ended(s.pods, s.job.name, Succeeded);
  }

  lemma ReconcileIsSafe(s: System, k: string, now: int, s': System)
    requires Safe(s) && Allowed(s, Reconcile(k, now)) && Leads(s, Reconcile(k, now), s')
    ensures Safe(s') && s'.pods.Keys >= s.pods.Keys
  {
    var pod := NewPod(s.job, k, now);
    ActiveWith(s.pods, k, pod, s.job.name);
    EndedWith(s.pods, k, pod, s.job.name, Succeeded);
    assert OwnedBy(pod, s.job.name);
    hide Active, Ended;
  }

  /** Every allowed step keeps the job safe, so `completions - succeeded` never underflows, and no
      reconcile ever deletes a pod. */
  lemma StepIsSafe(s: System, step: Step, s': System)
    requires Safe(s) && Allowed(s, step) && Leads(s, step, s')
    ensures Safe(s') && s'.job.(status := None) == s.job.(status := None)
    ensures step.Reconcile? ==>
      0 <= WantActive(s.job) && s.job.status.value.active <= WantActive(s.job) && s'.pods.Keys >= s.pods.Keys
  {
    match step {
      case Progress(k, pod) => ProgressIsSafe(s, k, pod);
      case Gone(k) => GoneIsSafe(s, k);
      case Other(k, pod) => OtherIsSafe(s, k, pod);
      case Observe =>
      case Reconcile(k, now) => ReconcileIsSafe(s, k, now, s');
    }
  }

  ghost predicate Run(trace: seq<System>, steps: seq<Step>) {
    |trace| == |steps| + 1
    && forall i {:trigger steps[i]} :: 0 <= i < |steps| ==>
      Allowed(trace[i], steps[i]) && Leads(trace[i], steps[i], trace[i + 1])
  }

  /** In every run from a job without pods, the active pods stay within the parallelism, and together
      with the succeeded ones within the completions. */
  lemma {:induction false} RunsAreSafe(trace: seq<System>, steps: seq<Step>, i: nat)
    requires Run(trace, steps) && i <= |steps| && Safe(trace[0])
    ensures Safe(trace[i]) && trace[i].job.(status := None) == trace[0].job.(status := None)
  {
    hide Safe, Allowed, Leads;
    if i > 0 {
      var j := i - 1;
      RunsAreSafe(trace, steps, j);
      assert Allowed(trace[j], steps[j]) && Leads(trace[j], steps[j], trace[j + 1]);
      StepIsSafe(trace[j], steps[j], trace[j + 1]);
    }
  }

  /** A job comes to rest only when it is complete: with nothing active, a current status and a template,
      reconciling creates no pod exactly if the completions are reached or no parallelism is allowed. */
  lemma RestsWhenComplete(s: System, k: string, now: int, s': System)
    requires Safe(s) && Allowed(s, Reconcile(k, now)) && Leads(s, Reconcile(k, now), s')
    requires s.job.status == Some(CalculatedStatus(s.pods, s.job.name, true)) && Active(s.pods, s.job.name) == {}
    ensures s' == s <==> |Ended(s.pods, s.job.name, Succeeded)| == s.job.completions || s.job.parallelism == 0
  {
    hide Ended;
    if s.job.status.value.active < WantActive(s.job) {
      assert k in s'.pods;
    }
  }

  /** The stored status is current, and there is a template. */
  ghost predicate Ready(s: System) {
    Safe(s) && s.settled && s.job.status == Some(CalculatedStatus(s.pods, s.job.name, true))
  }

  /** A reconcile and the observation of what it did. */
  ghost predicate RoundLeads(s: System, s': System) {
    exists k, now, mid :: k !in s.pods && Leads(s, Reconcile(k, now), mid) && Leads(mid, Observe, s')
  }

  /** A round creates one pod exactly if fewer are active than the parallelism allows, and fewer than the
      completions still missing; else it changes nothing. */
  lemma RoundCreatesIff(s: System, s': System)
    requires Ready(s) && RoundLeads(s, s')
    ensures var active, succeeded := |Active(s.pods, s.job.name)|, |Ended(s.pods, s.job.name, Succeeded)|;
      && Ready(s') && s'.job.(status := None) == s.job.(status := None)
      && |Ended(s'.pods, s.job.name, Succeeded)| == succeeded
      && if active < s.job.parallelism && active + succeeded < s.job.completions then
           |Active(s'.pods, s.job.name)| == active + 1
         else s' == s
  {
    var k, now, mid :| k !in s.pods && Leads(s, Reconcile(k, now), mid) && Leads(mid, Observe, s');
    ReconcileIsSafe(s, k, now, mid);
    var pod := NewPod(s.job, k, now);
    ActiveWith(s.pods, k, pod, s.job.name);
    EndedWith(s.pods, k, pod, s.job.name, Succeeded);
    assert OwnedBy(pod, s.job.name);
    hide Active, Ended;
  }

  /** So while no pod ends, n rounds start n pods more, up to the parallelism and the missing completions. */
  lemma {:induction false} RoundsFill(trace: seq<System>, n: nat)
    requires n < |trace| && Ready(trace[0])
    requires forall i {:trigger trace[i]} :: 0 <= i < n ==> RoundLeads(trace[i], trace[i + 1])
    ensures var job, succeeded := trace[0].job, |Ended(trace[0].pods, trace[0].job.name, Succeeded)|;
      && Ready(trace[n]) && trace[n].job.(status := None) == job.(status := None)
      && |Ended(trace[n].pods, job.name, Succeeded)| == succeeded
      && |Active(trace[n].pods, job.name)| ==
           Min(|Active(trace[0].pods, job.name)| + n, Min(job.parallelism, job.completions - succeeded))
  {
    hide Ready, RoundLeads, Active, Ended;
    if n > 0 {
      RoundsFill(trace, n - 1);
      assert RoundLeads(trace[n - 1], trace[n - 1 + 1]);
      RoundFills(trace[n - 1], trace[n]);
    } else {
      ReadyBounds(trace[0]);
    }
  }

  lemma ReadyBounds(s: System)
    requires Ready(s)
    ensures |Active(s.pods, s.job.name)| <= s.job.parallelism
    ensures |Active(s.pods, s.job.name)| + |Ended(s.pods, s.job.name, Succeeded)| <= s.job.completions
  {
  }

  lemma RoundFills(s: System, s': System)
    requires Ready(s) && RoundLeads(s, s')
    ensures var succeeded := |Ended(s.pods, s.job.name, Succeeded)|;
      && Ready(s') && s'.job.(status := None) == s.job.(status := None)
      && |Ended(s'.pods, s.job.name, Succeeded)| == succeeded
      && |Active(s'.pods, s.job.name)| ==
           Min(|Active(s.pods, s.job.name)| + 1, Min(s.job.parallelism, s.job.completions - succeeded))
  {
    hide Ready, RoundLeads, Active, Ended;
    ReadyBounds(s);
    RoundCreatesIff(s, s');
  }

  /** Without an observation in between, a second reconcile counts on a stale status: two pods are
      created where one was wanted. */
  lemma StaleStatusOvershoots(s: System, j: string, k: string, now: int)
    requires Safe(s) && s.settled && j !in s.pods && k !in s.pods && j != k
    requires s.job.status == Some(CalculatedStatus(s.pods, s.job.name, true))
    requires s.job.status.value.active + 1 == WantActive(s.job)
    ensures var s1 := System(s.pods[j := NewPod(s.job, j, now)], s.job, false);
      var s2 := System(s1.pods[k := NewPod(s.job, k, now)], s.job, false);
      && Leads(s, Reconcile(j, now), s1) && Leads(s1, Reconcile(k, now), s2) && Safe(s1) && !Safe(s2)
      && |Active(s2.pods, s.job.name)| == WantActive(s.job) + 1
  {
    var pods1 := s.pods[j := NewPod(s.job, j, now)];
    ReconcileIsSafe(s, j, now, System(pods1, s.job, false));
    ActiveWith(s.pods, j, NewPod(s.job, j, now), s.job.name);
    ActiveWith(pods1, k, NewPod(s.job, k, now), s.job.name);
    EndedWith(s.pods, j, NewPod(s.job, j, now), s.job.name, Succeeded);
    EndedWith(pods1, k, NewPod(s.job, k, now), s.job.name, Succeeded);
    assert Reference(KIND, s.job.name) in NewPod(s.job, j, now).owners
      && Reference(KIND, s.job.name) in NewPod(s.job, k, now).owners;
    hide Active, Ended;
  }

  // ---------- the controller ----------

  datatype Effect = Nothing | Created(pod: Pod) | Deleted(key: string) | Failure

  class Controller {
    var podStore: Pods
    var jobStore: map<string, Job>

    ghost predicate Valid()
      reads this
    {
      (forall k <- podStore :: podStore[k].name == k) && (forall n <- jobStore :: jobStore[n].name == n)
    }

    constructor (pods: Pods, jobs: map<string, Job>)
      requires (forall k <- pods :: pods[k].name == k) && (forall n <- jobs :: jobs[n].name == n)
      ensures Valid() && podStore == pods && jobStore == jobs
    {
      podStore, jobStore := pods, jobs;
    }

    /** Count the job's pods by phase. */
    method CalculateStatus(job: Job) returns (status: JobStatus)
      requires job.status.Some?
      ensures status == CalculatedStatus(podStore, job.name, job.status.value.hasTemplate)
      ensures status.active == |ActivePods(podStore, job.name)|
      ensures status.failed == |set k | k in podStore && Reference("GpuJob", job.name) in podStore[k].owners
                                        && podStore[k].status.Some? && podStore[k].status.value.phase == Failed|
      ensures status.succeeded == |set k | k in podStore && Reference("GpuJob", job.name) in podStore[k].owners
                                           && podStore[k].status.Some? && podStore[k].status.value.phase == Succeeded|
    {
      FirstActiveIff(podStore, job.name, "");
      EndedIs(podStore, job.name, Failed);
      EndedIs(podStore, job.name, Succeeded);
      var active, failed, succeeded := 0, 0, 0;
      var todo := podStore.Keys;
      ghost var seen: Pods := map[];
      while todo != {}
        invariant todo <= podStore.Keys && seen == podStore - todo
        invariant active == |Active(seen, job.name)|
        invariant failed == |Ended(seen, job.name, Failed)| && succeeded == |Ended(seen, job.name, Succeeded)|
      {
        hide Active, Ended, OwnedBy;
        var k := Next(todo);
        var pod := podStore[k];
        ActiveWith(seen, k, pod, job.name);
        EndedWith(seen, k, pod, job.name, Failed);
        EndedWith(seen, k, pod, job.name, Succeeded);
        if OwnedBy(pod, job.name) && pod.status.Some? {
          match pod.status.value.phase {
            case Failed => failed := failed + 1;
            case Succeeded => succeeded := succeeded + 1;
            case _ => active := active + 1;
          }
        }
        seen := seen[k := pod];
        todo := todo - {k};
      }
      assert podStore - {} == podStore;
      status := JobStatus(active, failed, succeeded, job.status.value.hasTemplate);
    }

    /** Post the status if it has changed; a job without status is an error. */
    method UpdateGpuJob(job: Job) returns (ok: bool)
      modifies this`jobStore
      ensures ok == job.status.Some?
      ensures jobStore ==
        if job.status.None? then old(jobStore)
        else
          var current := CalculatedStatus(podStore, job.name, job.status.value.hasTemplate);
          if job.status.value == current then old(jobStore)
          else old(jobStore)[job.name := job.(status := Some(current))]
    {
      ok := job.status.Some?;
      if ok {
        var newStatus := CalculateStatus(job);
        if newStatus != job.status.value {
          jobStore := jobStore[job.name := job.(status := Some(newStatus))];
        }
      }
    }

    method GetActivePods(job: string) returns (pods: seq<Pod>)
      requires Valid()
      ensures forall p :: p in pods <==> p.name in Active(podStore, job) && podStore[p.name] == p
      ensures AllHaveStatus(pods)
    {
      pods := [];
      var todo := podStore.Keys;
      while todo != {}
        invariant todo <= podStore.Keys
        invariant forall p :: p in pods <==> p.name in Active(podStore, job) && p.name !in todo && podStore[p.name] == p
      {
        var k := Next(todo);
        if IsActive(podStore[k]) && OwnedBy(podStore[k], job) {
          pods := pods + [podStore[k]];
        }
        todo := todo - {k};
      }
    }

    /** Create a pod if fewer are active than wanted, delete one if more are. The subtraction panics when
        more pods have succeeded than are needed, and picking a pod panics when none is active. */
    method Reconcile(job: Job, name: string, now: int) returns (effect: Effect)
      requires Valid() && name !in podStore
      modifies this`podStore
      ensures Valid()
      ensures effect.Failure? <==>
        || job.status.None? || job.status.value.succeeded > job.completions
        || (job.status.value.active < WantActive(job) && !job.status.value.hasTemplate)
        || (job.status.value.active > WantActive(job) && Active(old(podStore), job.name) == {})
      ensures effect.Created? ==> job.status.value.active < WantActive(job) && effect.pod == NewPod(job, name, now)
      ensures effect.Created? ==> podStore == old(podStore)[name := effect.pod]
      ensures effect.Deleted? ==>
        job.status.value.active > WantActive(job) && FirstActive(old(podStore), job.name, effect.key)
      ensures effect.Deleted? ==> GoesFirst(old(podStore), job.name, effect.key)
      ensures effect.Deleted? ==> podStore == old(podStore) - {effect.key}
      ensures effect.Nothing? ==> job.status.value.active == WantActive(job)
      ensures effect.Nothing? || effect.Failure? ==> podStore == old(podStore)
    {
      if job.status.None? || job.status.value.succeeded > job.completions {
        return Failure;
      }
      var status := job.status.value;
      var wantActive := Min(job.completions - status.succeeded, job.parallelism);
      if status.active < wantActive {
        if !status.hasTemplate {
          return Failure;
        }
        podStore := podStore[name := NewPod(job, name, now)];
        effect := Created(NewPod(job, name, now));
      } else if status.active > wantActive {
        var pods := GetActivePods(job.name);
        ActiveListed(podStore, job.name, pods);
        var victim := FirstToDelete(pods);
        if victim.None? {
          return Failure;
        }
        FirstActiveIff(podStore, job.name, victim.value);
        podStore := podStore - {victim.value};
        effect := Deleted(victim.value);
      } else {
        effect := Nothing;
      }
    }

    /** The job as the steps above see it. */
    ghost function SystemOf(name: string, settled: bool): System
      reads this
      requires name in jobStore
    {
      System(podStore, jobStore[name], settled)
    }

    /** A job event: reconcile with the stored job. */
    method HandleJobUpdate(name: string, podName: string, now: int) returns (effect: Effect)
      requires Valid() && name in jobStore && podName !in podStore
      modifies this`podStore
      ensures Valid()
      ensures !effect.Failure? && !effect.Created? ==>
        Leads(old(SystemOf(name, true)), Step.Reconcile(podName, now), SystemOf(name, true))
      ensures effect.Created? ==> Leads(old(SystemOf(name, true)), Step.Reconcile(podName, now), SystemOf(name, false))
      ensures old(Safe(SystemOf(name, true))) ==>
        !effect.Deleted? && (effect.Failure? ==> !jobStore[name].status.value.hasTemplate)
    {
      effect := Reconcile(jobStore[name], podName, now);
    }

    /** A pod event: the one job that owns the pod has its status brought up to date. */
    method HandlePodChange(pod: Pod) returns (ghost owner: Option<string>)
      requires Valid()
      modifies this`jobStore
      ensures Valid() && owner == OwnerOf(pod, KIND) && jobStore.Keys == old(jobStore).Keys
      ensures forall n <- jobStore :: owner != Some(n) ==> jobStore[n] == old(jobStore)[n]
      ensures owner.Some? && owner.value in old(jobStore) && old(jobStore)[owner.value].status.Some? ==>
                forall settled :: Leads(old(SystemOf(owner.value, settled)), Observe, SystemOf(owner.value, true))
    {
      var name := OwnerOf(pod, KIND);
      owner := name;
      if name.Some? && name.value in jobStore {
        var ok := UpdateGpuJob(jobStore[name.value]);
      }
    }
  }

  lemma ActiveListed(pods: Pods, job: string, listed: seq<Pod>)
    requires forall k <- pods :: pods[k].name == k
    requires forall p :: p in listed <==> p.name in Active(pods, job) && pods[p.name] == p
    requires AllHaveStatus(listed)
    ensures listed == [] <==> Active(pods, job) == {}
    ensures forall p :: Least(listed, p) ==> FirstActive(pods, job, p.name)
  {
    if listed != [] {
      assert listed[0] in listed;
    }
    forall k | k in Active(pods, job) ensures pods[k] in listed { }
    forall p, j | Least(listed, p) && j in Active(pods, job) ensures NotAfter(p.status.value, pods[j].status.value) {
      assert pods[j] in listed;
      CompareIsAnOrder(p.status.value, p.status.value, p.status.value);
      if |listed| == 1 {
        assert listed[0] == p && listed[0] == pods[j];
      }
    }
  }
}
