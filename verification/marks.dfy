/** Where a job stops, a slot begins: so a job that waits for jobs of its own slot set loses
    nothing by being tried at slot begins only.
 */
module Marks {
  import opened Options
  import opened Requests
  import opened QuotaRules
  import opened Gantt
  import opened FirstFit
  import opened Assignment
  import opened Schedule
  import opened Runs
  import opened Records
  import opened Optimality

  predicate BeginsAt(g: Chart, t: int) {
    exists k :: 0 <= k < |g.cells| && g.cells[k].b == t
  }

  /** A slot begins at `t`, or the slot set ends before. */
  predicate Marked(g: Chart, t: int) {
    |g.cells| >= 1 && (BeginsAt(g, t) || End(g) < t)
  }

  lemma KeepsMark(g: Chart, h: Chart, t: int)
    requires KeepsSlots(g, h) && |h.cells| >= 1 && |g.cells| >= 1 && End(h) == End(g) && Marked(g, t)
    ensures Marked(h, t)
  {
    if BeginsAt(g, t) {
      var k :| 0 <= k < |g.cells| && g.cells[k].b == t;
      assert HasSlot(g, g.cells[k].id, t);
      var j :| 0 <= j < |h.cells| && h.cells[j].id == g.cells[k].id && h.cells[j].b == t;
    }
  }

  /** The part after a job begins where the job stops. */
  lemma CutMarks(g: Chart, i: nat, task: Task, sub: bool, policy: Policy)
    requires i < |g.cells| && g.cells[i].b <= task.Last() + 1 && task.Last() < g.cells[i].e
    ensures BeginsAt(CutAt(g, i, task, sub, policy), task.Last() + 1)
  {
    var p := Pieces(g.cells[i], g.lastId, task, sub, policy);
    var h := CutAt(g, i, task, sub, policy);
    CutAtReplaced(g, i, task, sub, policy);
    assert h.cells[i+|p|-1] == p[|p|-1];
  }

  lemma {:induction false} SplitMarks(g: Chart, i: nat, n: nat, task: Task, sub: bool, policy: Policy, out: Chart)
    requires Wf(g) && 0 < n && i + n <= |g.cells| && AllMeet(g, i, n, task) && task.walltime >= 0
    requires task.Last() < g.cells[i+n-1].e && out == Split(g, i, n, task, sub, policy)
    ensures BeginsAt(out, task.Last() + 1)
    decreases n
  {
    hide Wf, Split, KeepsSlots, Pointwise, Solid, CutAt, BeginsAt;
    var h, k := SplitStepCut(g, i, n, task, sub, policy);
    if n == 1 {
      assert Meets(g.cells[i], task);
      SplitNothing(h, k, task, sub, policy);
      CutMarks(g, i, task, sub, policy);
    } else {
      assert h.cells[k+n-2] == g.cells[i+n-1];
      SplitMarks(h, k, n - 1, task, sub, policy, out);
    }
  }

  /** After a job was placed, a slot begins where it stops, unless it stops at the end. */
  lemma PlaceMarks(g: Chart, l: int, r: int, task: Task, sub: bool, policy: Policy, h: Chart)
    requires Wf(g) && Window(g, l, r, task) && task.walltime >= 0 && h == Place(g, l, r, task, sub, policy)
    ensures Wf(h) && KeepsSlots(g, h) && End(h) == End(g) && |g.cells| >= 1 && |h.cells| >= 1
    ensures Marked(h, task.Last() + 1)
  {
    var h' := PlaceIsPointwise(g, l, r, task, sub, policy);
    if task.Last() < g.cells[r].e {
      hide KeepsSlots, Pointwise, Split;
      WindowMeets(g, l, r, task);
      SplitMarks(g, l, r - l + 1, task, sub, policy, h);
    } else if r + 1 < |g.cells| {
      hide Pointwise, Split;
      assert g.cells[r+1].b == g.cells[r].e + 1;
      assert BeginsAt(g, task.Last() + 1);
      KeepsMark(g, h, task.Last() + 1);
    }
  }

  // ---------------------------------------------------------------------- a whole pass

  /** Every stop of a job of the log is marked in the job's slot set. */
  ghost predicate AllMarked(w: World, log: seq<Entry>) {
    forall a :: 0 <= a < |log| ==>
      log[a].home in w.sets && Marked(w.sets[log[a].home].chart, log[a].task.Last() + 1)
  }

  /** What a step does to the marks of the slot sets that are there. */
  ghost predicate KeepsMarks(w: World, w': World, e: Option<Entry>) {
    && (forall n :: n in w.sets ==> n in w'.sets)
    && (forall n, t :: n in w.sets && Marked(w.sets[n].chart, t) ==> Marked(w'.sets[n].chart, t))
    && (e.Some? ==> e.value.home in w'.sets && Marked(w'.sets[e.value.home].chart, e.value.task.Last() + 1))
  }

  lemma PlacedMarks(s: SlotSetState, cache: Cache, a: Answer, v: Variant, spec: JobSpec, best: Best, hy: Hierarchy,
                    policy: Policy)
    requires Wf(s.chart) && ProperSpec(spec, hy) && FoundBy(s.chart, a, v, spec, best, hy, policy)
    ensures best.l <= best.r < |s.chart.cells|
    ensures var task := TaskOf(spec.job.who, best);
            var h := Place(s.chart, best.l, best.r, task, true, policy);
            Marked(h, task.Last() + 1) && forall t :: Marked(s.chart, t) ==> Marked(h, t)
  {
    hide KnownJob, Known, Wf, Place, Backed, TakesFree, Window, Marked, KeepsSlots;
    var task := TaskOf(spec.job.who, best);
    FoundIsKnown(s.chart, a, v, spec, best, hy, policy);
    PlacedTask(s.chart, a, v, spec.job.who, hy, policy, best);
    var h := Place(s.chart, best.l, best.r, task, true, policy);
    PlaceMarks(s.chart, best.l, best.r, task, true, policy, h);
    forall t | Marked(s.chart, t) ensures Marked(h, t) {
      KeepsMark(s.chart, h, t);
    }
  }

  lemma SettleMarks(w: World, spec: JobSpec, n: string, o: Outcome, security: int, hy: Hierarchy, policy: Policy,
                    r: StepResult)
    requires Sound(w, hy) && ProperSpec(spec, hy) && n in w.sets && spec.job.id in w.jobs
    requires spec.opens.Some? ==> spec.opens.value !in w.sets
    requires Plausible(w.sets[n], spec, o, hy, policy)
    requires r == Settle(w, spec, n, o, security, policy) && r.Next?
    ensures KeepsMarks(w, r.world, r.entry)
  {
    hide ProperSpec, CacheOk, Wf, FoundBy, Opened, Place, Marked, Sound;
    if o.Placed? {
      var a, v :| FoundBy(w.sets[n].chart, a, v, spec, o.best, hy, policy);
      PlacedMarks(w.sets[n], o.cache, a, v, spec, o.best, hy, policy);
    }
  }

  lemma StepMarks(w: World, spec: JobSpec, security: int, hy: Hierarchy, policy: Policy, r: StepResult)
    requires Sound(w, hy) && ProperSpec(spec, hy) && spec.job.id in w.jobs
    requires spec.opens.Some? ==> spec.opens.value !in w.sets
    requires r == Step(w, spec, security, hy, policy) && r.Next?
    ensures KeepsMarks(w, r.world, r.entry)
  {
    hide Sound, ProperSpec, Step, Plausible, Marked, Settle;
    var o := StepOutcome(w, spec, security, hy, policy, r);
    if o.Some? {
      SettleMarks(w, spec, HomeOf(spec), o.value, security, hy, policy, r);
    }
  }

  /** After every pass, a slot begins wherever a job of its slot set stops. */
  lemma {:induction false} StopsAreMarked(w: World, specs: seq<JobSpec>, security: int, hy: Hierarchy, policy: Policy,
                                          r: RunResult)
    requires ProperRun(w, specs, hy) && r == Run(w, specs, security, hy, policy) && r.Finished?
    ensures AllMarked(r.world, r.log)
    decreases |specs|
  {
    hide *;
    if specs == [] {
      NothingRun(w, specs, security, hy, policy, r);
      NothingMarked(w);
    } else {
      var w1, log1, e := RunStep(w, specs, security, hy, policy, r);
      StopsAreMarked(w, specs[..|specs|-1], security, hy, policy, Finished(w1, log1));
      LastSpec(w, specs, hy);
      StepMarks(w1, specs[|specs|-1], security, hy, policy, Next(r.world, e));
      MoreMarked(w1, r.world, log1, e);
    }
  }

  lemma NothingMarked(w: World)
    ensures AllMarked(w, [])
  {
  }

  lemma MoreMarked(w: World, w': World, log: seq<Entry>, e: Option<Entry>)
    requires AllMarked(w, log) && KeepsMarks(w, w', e)
    ensures AllMarked(w', if e.Some? then log + [e.value] else log)
  {
  }

  // -------------------------------------------------------------- a job that waits

  /** Every job that `spec` waits for came without a walltime, and all of them that were placed
      were placed in the slot set of `spec`. */
  ghost predicate WaitsAtHome(spec: JobSpec, before: map<int, JobState>, log: seq<Entry>) {
    forall i :: 0 <= i < |spec.deps| && spec.deps[i].state == DepWaiting ==>
      && (spec.deps[i].job in before ==> before[spec.deps[i].job].walltime.None?)
      && forall a :: 0 <= a < |log| && log[a].id == spec.deps[i].job ==> log[a].home == HomeOf(spec)
  }

  /** The required start is where a job of the same slot set stops, or there is none. */
  lemma WaitIsMarked(specs: seq<JobSpec>, before: map<int, JobState>, log: seq<Entry>, w: World, spec: JobSpec,
                     minStart: int)
    requires DifferentJobs(specs) && Ledger(specs, before, log, w.jobs) && AllMarked(w, log)
    requires WaitsAtHome(spec, before, log) && MinStart(spec.deps, w.jobs, 0, -1) == Until(minStart)
    ensures minStart == -1 || (HomeOf(spec) in w.sets && Marked(w.sets[HomeOf(spec)].chart, minStart))
  {
    hide DifferentJobs, Marked, MinStart;
    MinStartBounds(spec.deps, w.jobs, 0, -1);
    if minStart != -1 {
      var i :| 0 <= i < |spec.deps| && Stops(spec.deps[i], w.jobs) && minStart == StopOf(spec.deps[i], w.jobs);
      LedgerKeys(specs, before, log, w.jobs);
      var a := PlacedBefore(specs, before, log, w.jobs, spec.deps[i].job);
      assert log[a].home == HomeOf(spec);
    }
  }

  lemma LedgerKeys(specs: seq<JobSpec>, before: map<int, JobState>, log: seq<Entry>, jobs: map<int, JobState>)
    requires Ledger(specs, before, log, jobs)
    ensures jobs.Keys == before.Keys
  {
  }

  /** From a marked instant on, nothing is skipped. */
  lemma MarkedIsFound(g: Chart, minStart: int, from: int)
    requires Wf(g) && minStart >= 0 && Marked(g, minStart) && LookFrom(g, minStart) == Some(from)
    ensures from == minStart
  {
    var p := FirstFrom(g, 0, minStart).value;
    if k :| 0 <= k < |g.cells| && g.cells[k].b == minStart {
      Ordered(g, p, k);
    } else {
      Ordered(g, p, |g.cells| - 1);
    }
  }

  /** The instant from which the job should be placed as early as can be. */
  function WaitEnd(g: Chart, minStart: int): int
    requires |g.cells| >= 1
  {
    if minStart < 0 then Begin(g) else minStart
  }

  lemma NothingSkipped(w: World, spec: JobSpec, minStart: int, security: int, hy: Hierarchy, policy: Policy)
    requires Sound(w, hy) && ProperSpec(spec, hy) && spec.job.id in w.jobs && HasHome(w, spec)
    requires StepIsOptimal(w, spec, security, hy, policy)
    requires MinStart(spec.deps, w.jobs, 0, -1) == Until(minStart)
    requires minStart == -1 || Marked(w.sets[HomeOf(spec)].chart, minStart)
    requires LookFrom(w.sets[HomeOf(spec)].chart, minStart).Some?
    ensures OptimalFrom(w, spec, WaitEnd(w.sets[HomeOf(spec)].chart, minStart), security, hy, policy)
  {
    hide Placement, Marked, CacheOk, KnownJob;
    var g := w.sets[HomeOf(spec)].chart;
    if minStart >= 0 {
      var from := LookFrom(g, minStart).value;
      if Wf(g) {
        MarkedIsFound(g, minStart, from);
      } else {
        DeadAdmitsNothing(g, spec.job, from, hy);
        DeadAdmitsNothing(g, spec.job, minStart, hy);
      }
    }
  }

  /** In every pass from slot sets that hide no free time, a job that no quotas concern, and that
      waits only for jobs of its own slot set, is placed with the earliest finish that any of its
      variants can have at any instant from the last stop of those jobs on. */
  lemma EarliestAfterItsOwn(w: World, specs: seq<JobSpec>, security: int, hy: Hierarchy, policy: Policy, r1: RunResult,
                            minStart: int)
    requires ProperRun(w, specs, hy) && DifferentJobs(specs) && ShortContainers(specs, w.jobs) && security >= 1
    requires HarmlessWorld(w) && specs != []
    requires !policy.enabled || specs[|specs|-1].job.who.noQuotas
    requires ProperRun(w, specs[..|specs|-1], hy)
    requires r1 == Run(w, specs[..|specs|-1], security, hy, policy) && r1.Finished?
    requires WaitsAtHome(specs[|specs|-1], w.jobs, r1.log)
    requires MinStart(specs[|specs|-1].deps, r1.world.jobs, 0, -1) == Until(minStart)
    requires HasHome(r1.world, specs[|specs|-1])
    requires LookFrom(r1.world.sets[HomeOf(specs[|specs|-1])].chart, minStart).Some?
    ensures Sound(r1.world, hy) && ProperSpec(specs[|specs|-1], hy) && specs[|specs|-1].job.id in r1.world.jobs
    ensures var spec := specs[|specs|-1];
            OptimalFrom(r1.world, spec, WaitEnd(r1.world.sets[HomeOf(spec)].chart, minStart), security, hy, policy)
  {
    hide *;
    var init, spec := specs[..|specs|-1], specs[|specs|-1];
    EveryJobIsOptimal(w, specs, security, hy, policy, r1);
    FewerJobs(specs);
    RecordsMatchLog(w, init, security, hy, policy, r1);
    StopsAreMarked(w, init, security, hy, policy, r1);
    WaitIsMarked(init, w.jobs, r1.log, r1.world, spec, minStart);
    NothingSkipped(r1.world, spec, minStart, security, hy, policy);
  }
}
