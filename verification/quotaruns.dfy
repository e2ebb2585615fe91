/** Quotas over a whole scheduling pass: a check made once against combined counters keeps
    every slot within every rule, and the counters of a slot count exactly the jobs there.
 */
module QuotaRuns {
  import opened Options
  import opened Requests
  import opened QuotaRules
  import opened Gantt
  import opened FirstFit
  import opened Assignment
  import opened Schedule
  import opened Runs

  // --------------------------------------------------------------- every slot stays within

  ghost predicate SafeCounters(c: Counters, rules: Rules) {
    Safe(c, rules) && NonNegative(c)
  }

  ghost predicate SafeChart(g: Chart, rules: Rules) {
    forall j :: 0 <= j < |g.cells| ==> SafeCounters(g.cells[j].counters, rules)
  }

  ghost predicate SafeWorld(w: World, rules: Rules) {
    forall n :: n in w.sets ==> SafeChart(w.sets[n].chart, rules)
  }

  /** The combined counters are above those of each slot of the stretch. */
  lemma {:induction false} CommonDominates(g: Chart, p: nat, q: nat, j: nat)
    requires p <= j <= q < |g.cells|
    requires forall k :: p <= k <= q ==> NonNegative(g.cells[k].counters)
    ensures Dominated(g.cells[j].counters, CommonCounters(g, p, q)) && NonNegative(CommonCounters(g, p, q))
    decreases q - p
  {
    if p == q {
      CombinedDominates(map[], g.cells[q].counters);
    } else {
      if j < q {
        CommonDominates(g, p, q - 1, j);
      } else {
        CommonDominates(g, p, q - 1, q - 1);
      }
      CombinedDominates(CommonCounters(g, p, q - 1), g.cells[q].counters);
    }
  }

  lemma CutAtSafe(g: Chart, i: nat, task: Task, policy: Policy, rules: Rules, h: Chart)
    requires i < |g.cells| && h == CutAt(g, i, task, true, policy)
    requires SafeChart(g, rules) && SafeCounters(Counted(g.cells[i].counters, task, policy), rules)
    ensures SafeChart(h, rules)
  {
    CutAtReplaced(g, i, task, true, policy);
  }

  lemma {:induction false} SplitSafe(g: Chart, i: nat, n: nat, task: Task, policy: Policy, rules: Rules, out: Chart)
    requires Wf(g) && i + n <= |g.cells| && AllMeet(g, i, n, task) && task.walltime >= 0
    requires SafeChart(g, rules)
    requires forall j :: i <= j < i + n ==> SafeCounters(Counted(g.cells[j].counters, task, policy), rules)
    requires out == Split(g, i, n, task, true, policy)
    ensures SafeChart(out, rules)
    decreases n
  {
    if n > 0 {
      var h, k := SafeStep(g, i, n, task, policy, rules);
      SplitSafe(h, k, n - 1, task, policy, rules, out);
    }
  }

  lemma SafeStep(g: Chart, i: nat, n: nat, task: Task, policy: Policy, rules: Rules) returns (h: Chart, k: nat)
    requires Wf(g) && n > 0 && i + n <= |g.cells| && AllMeet(g, i, n, task) && task.walltime >= 0
    requires SafeChart(g, rules)
    requires forall j :: i <= j < i + n ==> SafeCounters(Counted(g.cells[j].counters, task, policy), rules)
    ensures Wf(h) && k + n - 1 <= |h.cells| && AllMeet(h, k, n - 1, task) && SafeChart(h, rules)
    ensures forall j :: k <= j < k + n - 1 ==> SafeCounters(Counted(h.cells[j].counters, task, policy), rules)
    ensures Split(g, i, n, task, true, policy) == Split(h, k, n - 1, task, true, policy)
  {
    h, k := SplitStepCut(g, i, n, task, true, policy);
    CutAtSafe(g, i, task, policy, rules, h);
    forall j | k <= j < k + n - 1 ensures SafeCounters(Counted(h.cells[j].counters, task, policy), rules) {
      assert h.cells[j] == g.cells[j-k+i+1];
    }
  }

  /** A place that quotas allow for the job stays within the rules once the job is counted
      in, slot by slot. */
  lemma AllowedIsSafe(g: Chart, a: Answer, v: Variant, spec: JobSpec, best: Best, hy: Hierarchy, policy: Policy, j: nat)
    requires Wf(g) && ProperSpec(spec, hy) && FoundBy(g, a, v, spec, best, hy, policy)
    requires SafeChart(g, policy.rules) && a.l <= j <= a.r
    requires spec.job.who.noQuotas ==> spec.opens.Some?
    ensures SafeCounters(Counted(g.cells[j].counters, TaskOf(spec.job.who, best), policy), policy.rules)
  {
    var who := spec.job.who;
    var c := g.cells[j].counters;
    var nb := |best.res * policy.countable|;
    if policy.enabled && !("container" in who.account.types) {
      CommonDominates(g, a.l, a.r, j);
      var common := CommonCounters(g, a.l, a.r);
      CheckedUpdateIsSafe(c, common, policy.rules, who.account, policy.jobTypes, nb, v.ask.walltime);
      UpdatedNonNegative(c, who.account, policy.jobTypes, nb, v.ask.walltime);
    }
  }

  lemma PlacedIsSafe(g: Chart, a: Answer, v: Variant, spec: JobSpec, best: Best, hy: Hierarchy, policy: Policy,
                     h: Chart)
    requires Wf(g) && ProperSpec(spec, hy) && FoundBy(g, a, v, spec, best, hy, policy)
    requires SafeChart(g, policy.rules)
    requires spec.job.who.noQuotas ==> spec.opens.Some?
    requires h == Place(g, a.l, a.r, TaskOf(spec.job.who, best), true, policy)
    ensures SafeChart(h, policy.rules)
  {
    var task := TaskOf(spec.job.who, best);
    PlacedTask(g, a, v, spec.job.who, hy, policy, best);
    WindowMeets(g, a.l, a.r, task);
    forall j | a.l <= j < a.l + (a.r - a.l + 1)
      ensures SafeCounters(Counted(g.cells[j].counters, task, policy), policy.rules)
    {
      AllowedIsSafe(g, a, v, spec, best, hy, policy, j);
    }
    SplitSafe(g, a.l, a.r - a.l + 1, task, policy, policy.rules, h);
  }

  lemma SettleSafe(w: World, spec: JobSpec, n: string, o: Outcome, security: int, hy: Hierarchy, policy: Policy,
                   r: StepResult)
    requires ProperSpec(spec, hy) && n in w.sets && spec.job.id in w.jobs
    requires Plausible(w.sets[n], spec, o, hy, policy)
    requires r == Settle(w, spec, n, o, security, policy) && r.Next?
    requires SafeWorld(w, policy.rules)
    requires spec.job.who.noQuotas ==> spec.opens.Some?
    ensures SafeWorld(r.world, policy.rules)
  {
    if o.Placed? {
      var g := w.sets[n].chart;
      var a, v :| FoundBy(g, a, v, spec, o.best, hy, policy);
      PlacedIsSafe(g, a, v, spec, o.best, hy, policy, Place(g, a.l, a.r, TaskOf(spec.job.who, o.best), true, policy));
    }
  }

  /** In every pass that starts within the rules and in which only containers skip the
      quotas, every slot of every slot set stays within every rule that governs one of its
      counters, at the end and so after each job. */
  lemma {:induction false} QuotasKept(w: World, specs: seq<JobSpec>, security: int, hy: Hierarchy, policy: Policy,
                                      r: RunResult)
    requires ProperRun(w, specs, hy) && SafeWorld(w, policy.rules)
    requires forall k :: 0 <= k < |specs| && specs[k].job.who.noQuotas ==> specs[k].opens.Some?
    requires r == Run(w, specs, security, hy, policy) && r.Finished?
    ensures SafeWorld(r.world, policy.rules)
    decreases |specs|
  {
    if specs != [] {
      var w1, log1, e := RunStep(w, specs, security, hy, policy, r);
      QuotasKept(w, specs[..|specs|-1], security, hy, policy, Finished(w1, log1));
      var last := specs[|specs|-1];
      var o := StepOutcome(w1, last, security, hy, policy, Next(r.world, e));
      if o.Some? {
        SettleSafe(w1, last, HomeOf(last), o.value, security, hy, policy, Next(r.world, e));
      }
    }
  }

  // --------------------------------------------------------- counters count what is there

  /** Entry `e` is a job of slot set `n`, and no container, that runs at `t` and that `k` is about:
      its queue, project and user are those of the key or the key has "*" there, and the type of
      the key is a counted one that the job has, or "*". */
  predicate Tallies(e: Entry, n: string, t: int, k: Key, policy: Policy) {
    && e.home == n && e.opens.None? && e.task.start <= t < e.task.start + e.task.walltime
    && (k.queue == "*" || k.queue == e.task.account.queue)
    && (k.project == "*" || k.project == e.task.account.project)
    && (k.user == "*" || k.user == e.task.account.user)
    && k.jobType in policy.jobTypes && (k.jobType == "*" || k.jobType in e.task.account.types)
  }

  /** The jobs of slot set `n` that run at `t` and that `k` is about. */
  ghost function Running(log: seq<Entry>, n: string, t: int, k: Key, policy: Policy): seq<Task> {
    if log == [] then []
    else
      var e := log[|log|-1];
      Running(log[..|log|-1], n, t, k, policy) + if Tallies(e, n, t, k, policy) then [e.task] else []
  }

  /** How many resources that count the jobs have together. */
  function SumResources(tasks: seq<Task>, countable: set<int>): int {
    if tasks == [] then 0
    else SumResources(tasks[..|tasks|-1], countable) + |tasks[|tasks|-1].res * countable|
  }

  /** How many resource-seconds the jobs take together. */
  function SumWork(tasks: seq<Task>, countable: set<int>): int {
    if tasks == [] then 0
    else
      var last := tasks[|tasks|-1];
      SumWork(tasks[..|tasks|-1], countable) + |last.res * countable| * last.walltime
  }

  /** What the jobs of slot set `n` that run at `t` and that `k` is about amount to: their
      resources, their number, their resource-seconds. */
  ghost function Tally(log: seq<Entry>, n: string, t: int, k: Key, policy: Policy): Counter {
    var tasks := Running(log, n, t, k, policy);
    Counter(SumResources(tasks, policy.countable), |tasks|, SumWork(tasks, policy.countable))
  }

  ghost function CounterIn(w: World, n: string, t: int, k: Key): Counter {
    if n in w.sets then At(ContentAt(w.sets[n].chart, t).counters, k) else ZERO
  }

  ghost predicate Recounted(w0: World, w: World, log: seq<Entry>, policy: Policy) {
    forall n, t, k :: n in w.sets ==> CounterIn(w, n, t, k) == CounterIn(w0, n, t, k).Plus(Tally(log, n, t, k, policy))
  }

  lemma TallyNext(log: seq<Entry>, e: Entry, n: string, t: int, k: Key, policy: Policy)
    ensures Tally(log + [e], n, t, k, policy) ==
      if Tallies(e, n, t, k, policy)
      then Tally(log, n, t, k, policy).Plus(Charge(|e.task.res * policy.countable|, e.task.walltime))
      else Tally(log, n, t, k, policy)
  {
    hide Tallies;
    assert (log + [e])[..|log|] == log;
    var tasks := Running(log, n, t, k, policy);
    assert Running(log + [e], n, t, k, policy) == tasks + if Tallies(e, n, t, k, policy) then [e.task] else [];
    assert (tasks + [e.task])[..|tasks|] == tasks && tasks + [] == tasks;
  }

  lemma {:induction false} UnknownTally(w0: World, w: World, log: seq<Entry>, n: string, t: int, k: Key, policy: Policy)
    requires LogFits(w0, w, log) && n !in w.sets
    ensures Tally(log, n, t, k, policy) == ZERO
    decreases |log|
  {
    if log != [] {
      var init := log[..|log|-1];
      assert LogFits(w0, w, init);
      UnknownTally(w0, w, init, n, t, k, policy);
      assert log[|log|-1].home in w.sets;
      TallyNext(init, log[|log|-1], n, t, k, policy);
      assert init + [log[|log|-1]] == log;
    }
  }

  lemma CounterAfterStep(w: World, w': World, e: Option<Entry>, security: int, policy: Policy, n: string, t: int,
                         k: Key)
    requires Effect(w, w', e, security, policy) && n in w'.sets && policy.enabled && Distinct(policy.jobTypes)
    requires e.Some? ==> ProperNames(e.value.task.account)
    ensures CounterIn(w', n, t, k) ==
      if e.Some? && Tallies(e.value, n, t, k, policy)
      then CounterIn(w, n, t, k).Plus(Charge(|e.value.task.res * policy.countable|, e.value.task.walltime))
      else CounterIn(w, n, t, k)
  {
    if e.Some? && e.value.home == n {
      var task := e.value.task;
      var counters, nb := ContentAt(w.sets[n].chart, t).counters, |task.res * policy.countable|;
      UpdatedCounts(counters, task.account, policy.jobTypes, nb, task.walltime, k);
    }
  }

  lemma StepRecounted(w0: World, w: World, w': World, log: seq<Entry>, e: Option<Entry>, security: int, policy: Policy)
    requires Effect(w, w', e, security, policy) && LogFits(w0, w, log) && Recounted(w0, w, log, policy)
    requires policy.enabled && Distinct(policy.jobTypes)
    requires e.Some? ==> ProperNames(e.value.task.account)
    ensures Recounted(w0, w', if e.Some? then log + [e.value] else log, policy)
  {
    var log' := if e.Some? then log + [e.value] else log;
    forall n, t, k | n in w'.sets
      ensures CounterIn(w', n, t, k) == CounterIn(w0, n, t, k).Plus(Tally(log', n, t, k, policy))
    {
      CounterAfterStep(w, w', e, security, policy, n, t, k);
      StepRecount(w0, w, w', log, e, policy, n, t, k);
    }
  }

  lemma TalliesAtHome(e: Entry, n: string, t: int, k: Key, policy: Policy)
    ensures Tallies(e, n, t, k, policy) ==> e.home == n
  {
  }

  lemma StepRecount(w0: World, w: World, w': World, log: seq<Entry>, e: Option<Entry>, policy: Policy, n: string,
                    t: int, k: Key)
    requires LogFits(w0, w, log)
    requires e.Some? ==> e.value.home in w.sets
    requires n in w.sets ==> CounterIn(w, n, t, k) == CounterIn(w0, n, t, k).Plus(Tally(log, n, t, k, policy))
    requires CounterIn(w', n, t, k) == if e.Some? && Tallies(e.value, n, t, k, policy)
             then CounterIn(w, n, t, k).Plus(Charge(|e.value.task.res * policy.countable|, e.value.task.walltime))
             else CounterIn(w, n, t, k)
    ensures CounterIn(w', n, t, k) ==
            CounterIn(w0, n, t, k).Plus(Tally(if e.Some? then log + [e.value] else log, n, t, k, policy))
  {
    hide Tally, Tallies, CounterIn, LogFits;
    if n !in w.sets {
      NothingThere(w0, w, log, n, t, k, policy);
    }
    if e.Some? {
      TalliesAtHome(e.value, n, t, k, policy);
      TallyNext(log, e.value, n, t, k, policy);
    }
  }

  lemma NothingThere(w0: World, w: World, log: seq<Entry>, n: string, t: int, k: Key, policy: Policy)
    requires LogFits(w0, w, log) && n !in w.sets
    ensures CounterIn(w0, n, t, k) == ZERO && CounterIn(w, n, t, k) == ZERO && Tally(log, n, t, k, policy) == ZERO
  {
    UnknownTally(w0, w, log, n, t, k, policy);
  }

  lemma NothingTallied(w: World, policy: Policy)
    ensures Recounted(w, w, [], policy)
  {
  }

  lemma RunLogFits(w: World, specs: seq<JobSpec>, security: int, hy: Hierarchy, policy: Policy, r: RunResult)
    requires ProperRun(w, specs, hy) && r == Run(w, specs, security, hy, policy) && r.Finished?
    ensures LogFits(w, r.world, r.log)
  {
    NothingLost(w, specs, security, hy, policy, r);
  }

  /** After every pass, each counter of each slot is what it was at that instant before the
      pass plus the resources, the number and the resource-seconds of the matching jobs that
      run there, although only the slots during a job are updated and the others are copies. */
  lemma {:induction false} CountersAreRecounts(w: World, specs: seq<JobSpec>, security: int, hy: Hierarchy,
                                               policy: Policy, r: RunResult)
    requires ProperRun(w, specs, hy) && policy.enabled && Distinct(policy.jobTypes)
    requires forall k :: 0 <= k < |specs| ==> ProperNames(specs[k].job.who.account)
    requires r == Run(w, specs, security, hy, policy) && r.Finished?
    ensures Recounted(w, r.world, r.log, policy)
    decreases |specs|
  {
    if specs == [] {
      NothingTallied(w, policy);
    } else {
      var w1, log1, e := RunStep(w, specs, security, hy, policy, r);
      var init := specs[..|specs|-1];
      CountersAreRecounts(w, init, security, hy, policy, Finished(w1, log1));
      RunLogFits(w, init, security, hy, policy, Finished(w1, log1));
      StepRecounted(w, w1, r.world, log1, e, security, policy);
    }
  }

  // ----------------------------------------------------------------- limits on what runs

  lemma SafeAt(g: Chart, rules: Rules, t: int, rule: Key, k: Key)
    requires SafeChart(g, rules) && rule in rules && Governs(rule, k)
    ensures At(ContentAt(g, t).counters, k).Within(rules[rule])
  {
  }

  /** So in every pass that starts with nothing counted, at every instant, the jobs that run
      in a slot set and that a key is about use no more resources, are no more in number and add up
      to no more resource-seconds than any rule governing the key allows. */
  lemma LimitsHold(w: World, specs: seq<JobSpec>, security: int, hy: Hierarchy, policy: Policy, r: RunResult,
                   n: string, t: int, rule: Key, k: Key)
    requires ProperRun(w, specs, hy) && policy.enabled && Distinct(policy.jobTypes)
    requires forall m :: m in w.sets ==> forall j :: 0 <= j < |w.sets[m].chart.cells| ==>
      w.sets[m].chart.cells[j].counters == map[]
    requires forall i :: 0 <= i < |specs| ==> ProperNames(specs[i].job.who.account)
    requires forall i :: 0 <= i < |specs| && specs[i].job.who.noQuotas ==> specs[i].opens.Some?
    requires r == Run(w, specs, security, hy, policy) && r.Finished?
    requires n in r.world.sets && rule in policy.rules && Governs(rule, k)
    ensures var (running, limit) := (Running(r.log, n, t, k, policy), policy.rules[rule]);
            && (limit.resources >= 0 ==> SumResources(running, policy.countable) <= limit.resources)
            && (limit.jobs >= 0 ==> |running| <= limit.jobs)
            && (limit.work >= 0 ==> SumWork(running, policy.countable) <= limit.work)
  {
    QuotasKept(w, specs, security, hy, policy, r);
    CountersAreRecounts(w, specs, security, hy, policy, r);
    SafeAt(r.world.sets[n].chart, policy.rules, t, rule, k);
    assert CounterIn(w, n, t, k) == ZERO;
    assert CounterIn(r.world, n, t, k) == CounterIn(w, n, t, k).Plus(Tally(r.log, n, t, k, policy));
  }
}
