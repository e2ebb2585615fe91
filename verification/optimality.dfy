/** In a whole pass, every job that no quotas concern gets the earliest finish that its slot
    set then allows.
 */
module Optimality {
  import opened Options
  import opened Requests
  import opened QuotaRules
  import opened Gantt
  import opened FirstFit
  import opened Earliest
  import opened Assignment
  import opened Schedule
  import opened Records
  import opened Waiting

  ghost predicate HarmlessSet(s: SlotSetState) {
    Harmless(s.chart) && (Wf(s.chart) ==> End(s.chart) <= MAX_TIME)
  }

  /** No slot set has an empty slot that hides free time, and none goes on after the time
      limit. */
  ghost predicate HarmlessWorld(w: World) {
    forall n :: n in w.sets ==> HarmlessSet(w.sets[n])
  }

  /** Slot sets without empty slots that end by the time limit, as a pass begins with them, hide
      nothing. */
  lemma SolidStart(w: World)
    requires forall n :: n in w.sets ==> Solid(w.sets[n].chart)
    requires forall n :: n in w.sets && |w.sets[n].chart.cells| >= 1 ==> End(w.sets[n].chart) <= MAX_TIME
    ensures HarmlessWorld(w)
  {
    forall n | n in w.sets ensures HarmlessSet(w.sets[n]) {
      SolidIsHarmless(w.sets[n].chart);
    }
  }

  /** A container that came with a walltime came with one below the time limit. */
  predicate ShortContainers(specs: seq<JobSpec>, jobs: map<int, JobState>) {
    forall k :: 0 <= k < |specs| && specs[k].opens.Some? && specs[k].job.id in jobs ==>
      ShortEnough(jobs[specs[k].job.id].walltime)
  }

  predicate ShortEnough(walltime: Option<int>) {
    walltime.Some? ==> walltime.value <= MAX_TIME
  }

  /** The slot set of a container is one slot, and nothing is hidden in it. */
  lemma OpenedIsHarmless(j: JobState, security: int)
    requires j.walltime.Some? && j.start + j.walltime.value - security <= MAX_TIME
    ensures HarmlessSet(Opened(j, security))
  {
    var g := Opened(j, security).chart;
    if g.cells[0].b == g.cells[0].e + 1 {
      assert forall i :: !Covers(g, i, g.cells[0].b);
      assert FreeAt(g, g.cells[0].b) == {};
    }
  }

  lemma OpenHarmless(sets: map<string, SlotSetState>, opens: Option<string>, j: JobState, security: int)
    requires forall n :: n in sets ==> HarmlessSet(sets[n])
    requires opens.Some? ==> j.walltime.Some? && j.start + j.walltime.value - security <= MAX_TIME
    ensures forall n :: n in OpenAfter(sets, opens, j, security) ==> HarmlessSet(OpenAfter(sets, opens, j, security)[n])
  {
    hide HarmlessSet, Opened;
    if opens.Some? {
      OpenedIsHarmless(j, security);
    }
  }

  /** Placing a job in a slot set hides nothing there, and the job ends by the time limit. */
  lemma PlacedHarmless(s: SlotSetState, cache: Cache, a: Answer, v: Variant, spec: JobSpec, best: Best, hy: Hierarchy,
                       policy: Policy)
    requires Wf(s.chart) && CacheOk(s.chart, cache, hy) && HarmlessSet(s) && ProperSpec(spec, hy)
    requires FoundBy(s.chart, a, v, spec, best, hy, policy)
    ensures best.l <= best.r < |s.chart.cells|
    ensures HarmlessSet(SlotSetState(Place(s.chart, best.l, best.r, TaskOf(spec.job.who, best), true, policy), cache))
    ensures best.start + best.variant.ask.walltime - 1 <= MAX_TIME
  {
    hide KnownJob, Known, CacheOk, Wf, Harmless, Place, Backed, TakesFree, TakenOut, SoundSet, Window;
    FoundIsKnown(s.chart, a, v, spec, best, hy, policy);
    var h := PlaceStep(s, cache, a, v, spec.job.who, hy, policy, best);
    PlacedTask(s.chart, a, v, spec.job.who, hy, policy, best);
    PlaceKeepsHarmless(s.chart, best.l, best.r, TaskOf(spec.job.who, best), policy);
    BackedEnds(s.chart, a, v.ask, spec.job.who, hy, policy);
  }

  lemma UnplacedHarmless(w: World, spec: JobSpec, n: string, cache: Cache, security: int, policy: Policy, w': World)
    requires HarmlessWorld(w) && n in w.sets && spec.job.id in w.jobs && security >= 1
    requires spec.opens.Some? ==> ShortEnough(w.jobs[spec.job.id].walltime)
    requires Settle(w, spec, n, Unplaced(cache), security, policy) == Next(w', None)
    ensures HarmlessWorld(w')
  {
    hide Harmless, Opened, Wf;
    OpenHarmless(w.sets[n := w.sets[n].(cache := cache)], spec.opens, w'.jobs[spec.job.id], security);
  }

  lemma SettlePlacedHarmless(w: World, spec: JobSpec, n: string, best: Best, cache: Cache, security: int, hy: Hierarchy,
                             policy: Policy, r: StepResult)
    requires Sound(w, hy) && ProperSpec(spec, hy) && n in w.sets && spec.job.id in w.jobs && security >= 1
    requires Plausible(w.sets[n], spec, Placed(best, cache), hy, policy) && HarmlessWorld(w)
    requires r == Settle(w, spec, n, Placed(best, cache), security, policy) && r.Next?
    ensures HarmlessWorld(r.world)
  {
    hide ProperSpec, CacheOk, Wf, Harmless, HarmlessSet, FoundBy, Opened, Place;
    var s := w.sets[n];
    var a, v :| FoundBy(s.chart, a, v, spec, best, hy, policy);
    PlacedHarmless(s, cache, a, v, spec, best, hy, policy);
    var j := r.world.jobs[spec.job.id];
    var h := SlotSetState(Place(s.chart, best.l, best.r, TaskOf(spec.job.who, best), true, policy), cache);
    OpenHarmless(w.sets[n := h], spec.opens, j, security);
  }

  lemma StepHarmless(w: World, spec: JobSpec, security: int, hy: Hierarchy, policy: Policy, r: StepResult)
    requires Sound(w, hy) && ProperSpec(spec, hy) && spec.job.id in w.jobs && security >= 1
    requires HarmlessWorld(w) && (spec.opens.Some? ==> ShortEnough(w.jobs[spec.job.id].walltime))
    requires r == Step(w, spec, security, hy, policy) && r.Next?
    ensures HarmlessWorld(r.world)
  {
    hide Sound, ProperSpec, HarmlessSet, Step, Plausible;
    var o := StepOutcome(w, spec, security, hy, policy, r);
    if o.Some? {
      match o.value
      case Unplaced(cache) => UnplacedHarmless(w, spec, HomeOf(spec), cache, security, policy, r.world);
      case Placed(best, cache) => SettlePlacedHarmless(w, spec, HomeOf(spec), best, cache, security, hy, policy, r);
    }
  }

  /** A job has before its own step the walltime that it came with. */
  lemma WalltimeAsBefore(w: World, specs: seq<JobSpec>, log1: seq<Entry>, jobs1: map<int, JobState>)
    requires specs != [] && DifferentJobs(specs) && Ledger(specs[..|specs|-1], w.jobs, log1, jobs1)
    requires specs[|specs|-1].job.id in jobs1 && ShortContainers(specs, w.jobs)
    ensures specs[|specs|-1].opens.Some? ==> ShortEnough(jobs1[specs[|specs|-1].job.id].walltime)
  {
    hide Unlogged, Books;
    AbsentLater(specs);
  }

  lemma FewerBounded(specs: seq<JobSpec>, jobs: map<int, JobState>)
    requires specs != [] && ShortContainers(specs, jobs)
    ensures ShortContainers(specs[..|specs|-1], jobs)
  {
  }

  /** A pass hides nothing in any slot set, those that its containers open included. */
  lemma {:induction false} PassKeepsHarmless(w: World, specs: seq<JobSpec>, security: int, hy: Hierarchy,
                                             policy: Policy,
                                             r: RunResult)
    requires ProperRun(w, specs, hy) && DifferentJobs(specs) && ShortContainers(specs, w.jobs) && security >= 1
    requires HarmlessWorld(w) && r == Run(w, specs, security, hy, policy) && r.Finished?
    ensures HarmlessWorld(r.world)
    decreases |specs|
  {
    hide *;
    if specs == [] {
      NothingRun(w, specs, security, hy, policy, r);
    } else {
      var w1, log1, e := RunStep(w, specs, security, hy, policy, r);
      var init := specs[..|specs|-1];
      FewerJobs(specs);
      FewerBounded(specs, w.jobs);
      PassKeepsHarmless(w, init, security, hy, policy, Finished(w1, log1));
      RecordsMatchLog(w, init, security, hy, policy, Finished(w1, log1));
      LastSpec(w, specs, hy);
      WalltimeAsBefore(w, specs, log1, w1.jobs);
      StepHarmless(w1, specs[|specs|-1], security, hy, policy, Next(r.world, e));
    }
  }

  lemma NothingRun(w: World, specs: seq<JobSpec>, security: int, hy: Hierarchy, policy: Policy, r: RunResult)
    requires ProperRun(w, specs, hy) && specs == [] && r == Run(w, specs, security, hy, policy)
    ensures r == Finished(w, [])
  {
  }

  /** The slot set of the job is there. */
  predicate HasHome(w: World, spec: JobSpec) {
    HomeOf(spec) in w.sets && |w.sets[HomeOf(spec)].chart.cells| >= 1
  }

  /** Where the step places the job, if it does. */
  function Placement(w: World, spec: JobSpec, security: int, hy: Hierarchy, policy: Policy): Option<Entry>
    requires Sound(w, hy) && ProperSpec(spec, hy) && spec.job.id in w.jobs
  {
    var s := Step(w, spec, security, hy, policy);
    if s.Next? then s.entry else None
  }

  function FinishOfEntry(e: Option<Entry>): int {
    if e.Some? then e.value.task.start + e.value.task.walltime else 0
  }

  /** The step gives the job the earliest finish that any variant can have at any instant from
      `from` on, and places it if there is such an instant. */
  ghost predicate OptimalFrom(w: World, spec: JobSpec, from: int, security: int, hy: Hierarchy, policy: Policy)
    requires Sound(w, hy) && ProperSpec(spec, hy) && spec.job.id in w.jobs && HasHome(w, spec)
  {
    var e := Placement(w, spec, security, hy, policy);
    IsOptimal(w.sets[HomeOf(spec)].chart, spec.job, from, e.Some?, FinishOfEntry(e), hy)
  }

  /** The step is optimal from the first slot on that begins late enough for the job's
      dependencies. */
  ghost predicate StepIsOptimal(w: World, spec: JobSpec, security: int, hy: Hierarchy, policy: Policy)
    requires Sound(w, hy) && ProperSpec(spec, hy) && spec.job.id in w.jobs
  {
    var m := MinStart(spec.deps, w.jobs, 0, -1);
    m.Until? && HasHome(w, spec) ==>
      var from := LookFrom(w.sets[HomeOf(spec)].chart, m.start);
      from.Some? ==> OptimalFrom(w, spec, from.value, security, hy, policy)
  }

  /** A job whose dependencies require it to start from `minStart` on gets the earliest finish
      from that instant on exactly when a slot begins there, or no variant that may start there
      would finish before the job does. */
  lemma OptimalFromStopExactly(w: World, spec: JobSpec, minStart: int, from: int, security: int, hy: Hierarchy,
                               policy: Policy)
    requires Sound(w, hy) && ProperSpec(spec, hy) && spec.job.id in w.jobs && HasHome(w, spec)
    requires StepIsOptimal(w, spec, security, hy, policy) && Wf(w.sets[HomeOf(spec)].chart)
    requires MinStart(spec.deps, w.jobs, 0, -1) == Until(minStart) && minStart >= 0
    requires LookFrom(w.sets[HomeOf(spec)].chart, minStart) == Some(from)
    ensures OptimalFrom(w, spec, minStart, security, hy, policy)
       <==> from == minStart
            || forall i :: MayStart(w.sets[HomeOf(spec)].chart, spec.job, i, minStart, minStart, hy) ==>
                 var e := Placement(w, spec, security, hy, policy);
                 e.Some? && FinishOfEntry(e) <= minStart + spec.job.variants[i].ask.walltime
  {
    hide Placement, IsOptimal, LookFrom, Wf;
    var e := Placement(w, spec, security, hy, policy);
    OptimalFromExactly(w.sets[HomeOf(spec)].chart, spec.job, minStart, from, e.Some?, FinishOfEntry(e), hy);
  }

  lemma StepOptimal(w: World, spec: JobSpec, security: int, hy: Hierarchy, policy: Policy)
    requires Sound(w, hy) && ProperSpec(spec, hy) && spec.job.id in w.jobs && HarmlessWorld(w)
    requires spec.opens.Some? ==> spec.opens.value !in w.sets
    requires !policy.enabled || spec.job.who.noQuotas
    ensures StepIsOptimal(w, spec, security, hy, policy)
  {
    hide Harmless, KnownJob, CacheOk, IsOptimal, Wf, Assign, Settle;
    var m := MinStart(spec.deps, w.jobs, 0, -1);
    var n := HomeOf(spec);
    if m.Until? && HasHome(w, spec) {
      var s := w.sets[n];
      var from := LookFrom(s.chart, m.start);
      if from.Some? {
        var o := Assign(s.chart, s.cache, spec.job, m.start, hy, policy);
        OutcomeOptimal(s, spec, m.start, from.value, hy, policy, o);
        AssignIsPlausible(s, spec, m.start, hy, policy, o);
        SettleFinish(w, spec, n, o, security, hy, policy);
      }
    }
  }

  lemma OutcomeOptimal(s: SlotSetState, spec: JobSpec, minStart: int, from: int, hy: Hierarchy, policy: Policy,
                       o: Outcome)
    requires SoundSet(s, hy) && HarmlessSet(s) && ProperSpec(spec, hy) && |s.chart.cells| >= 1
    requires LookFrom(s.chart, minStart) == Some(from) && (!policy.enabled || spec.job.who.noQuotas)
    requires o == Assign(s.chart, s.cache, spec.job, minStart, hy, policy)
    ensures IsOptimal(s.chart, spec.job, from, o.Placed?, if o.Placed? then o.best.Finish() else 0, hy)
  {
    if Wf(s.chart) {
      hide Harmless, CacheOk, IsOptimal, Wf, Assign;
      AssignIsOptimal(s.chart, s.cache, spec.job, minStart, from, hy, policy, o);
    } else {
      hide Harmless, CacheOk, Assign;
      if o.Placed? {
        var a, v := AssignFinds(s.chart, s.cache, spec.job, minStart, hy, policy, o);
      }
      DeadAdmitsNothing(s.chart, spec.job, from, hy);
    }
  }

  lemma DeadAdmitsNothing(g: Chart, job: Job, from: int, hy: Hierarchy)
    requires Dead(g) && KnownJob(hy, job)
    ensures forall i, t :: !MayStart(g, job, i, t, from, hy)
  {
  }

  lemma SettleFinish(w: World, spec: JobSpec, n: string, o: Outcome, security: int, hy: Hierarchy, policy: Policy)
    requires Sound(w, hy) && ProperSpec(spec, hy) && n in w.sets && spec.job.id in w.jobs
    requires spec.opens.Some? ==> spec.opens.value !in w.sets
    requires Plausible(w.sets[n], spec, o, hy, policy)
    ensures var s := Settle(w, spec, n, o, security, policy);
            && (o.Placed? ==> s.Next? && s.entry.Some?)
            && (o.Placed? ==> s.entry.value.task.start + s.entry.value.task.walltime == o.best.Finish())
            && (!o.Placed? ==> s.Next? ==> s.entry.None?)
  {
    if o.Placed? {
      PlacedEffect(w, spec, n, o.best, o.cache, security, hy, policy, Settle(w, spec, n, o, security, policy));
    }
  }

  /** In every pass over different jobs, with a security time of at least one second and slot
      sets that hide no free time at the start: each job that no quotas concern is placed with
      the earliest finish that any of its variants can have at any instant, from the first slot
      on that begins late enough for its dependencies; and it is left out only if there is no
      such instant. Every job of a pass is the last one of a shorter pass. */
  lemma EveryJobIsOptimal(w: World, specs: seq<JobSpec>, security: int, hy: Hierarchy, policy: Policy, r1: RunResult)
    requires ProperRun(w, specs, hy) && DifferentJobs(specs) && ShortContainers(specs, w.jobs) && security >= 1
    requires HarmlessWorld(w) && specs != []
    requires !policy.enabled || specs[|specs|-1].job.who.noQuotas
    requires ProperRun(w, specs[..|specs|-1], hy)
    requires r1 == Run(w, specs[..|specs|-1], security, hy, policy) && r1.Finished?
    ensures Sound(r1.world, hy) && ProperSpec(specs[|specs|-1], hy) && specs[|specs|-1].job.id in r1.world.jobs
    ensures StepIsOptimal(r1.world, specs[|specs|-1], security, hy, policy)
  {
    hide *;
    FewerJobs(specs);
    FewerBounded(specs, w.jobs);
    PassKeepsHarmless(w, specs[..|specs|-1], security, hy, policy, r1);
    LastSpec(w, specs, hy);
    LastOpensFresh(w, specs, security, hy, policy, r1);
    StepOptimal(r1.world, specs[|specs|-1], security, hy, policy);
  }

  lemma LastOpensFresh(w: World, specs: seq<JobSpec>, security: int, hy: Hierarchy, policy: Policy, r1: RunResult)
    requires ProperRun(w, specs, hy) && specs != [] && ProperRun(w, specs[..|specs|-1], hy)
    requires r1 == Run(w, specs[..|specs|-1], security, hy, policy) && r1.Finished?
    ensures var spec := specs[|specs|-1]; spec.opens.Some? ==> spec.opens.value !in r1.world.sets
  {
    ProperInit(w, specs, hy);
  }
}
