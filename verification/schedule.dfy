/** A scheduling pass over a list of jobs, with containers that open slot sets of their own
    (schedule_id_jobs_ct in oar/kao/scheduling.py), and what is safe in every such pass.
 */
module Schedule {
  import opened Options
  import opened Requests
  import opened QuotaRules
  import opened Sharing
  import opened Gantt
  import opened FirstFit
  import opened Assignment

  datatype DepState = DepError | DepWaiting | DepTerminated | DepOther

  datatype Dep = Dep(job: int, state: DepState, exitCode: int)

  /** A job of the pass: the slot set it is inner to, if any, and the slot set it opens when
      it is a container (the name it gives, or its own id). */
  datatype JobSpec = JobSpec(job: Job, deps: seq<Dep>, inner: Option<string>, opens: Option<string>)

  /** What the pass reads and writes in a job. A job has no walltime before it is placed,
      unless it was given one with the job. */
  datatype JobState = JobState(start: int, walltime: Option<int>, res: set<int>, mldId: int)

  datatype SlotSetState = SlotSetState(chart: Chart, cache: Cache)

  datatype World = World(sets: map<string, SlotSetState>, jobs: map<int, JobState>)

  /** A job that was placed in a slot set, and the slot set it opened. */
  datatype Entry = Entry(id: int, home: string, task: Task, opens: Option<string>)

  /** What reading the dependencies of a job comes to: one of them has no walltime, which makes
      the program fail; one of them keeps the job back; or the job may start from an instant on. */
  datatype Wait = NoStop | Blocked | Until(start: int)

  datatype StepResult = Crash | Next(world: World, entry: Option<Entry>)
  datatype RunResult = Crashed | Finished(world: World, log: seq<Entry>)

  // ----------------------------------------------------------------------- the pass itself

  /** What the dependencies from index `k` on come to. */
  function MinStart(deps: seq<Dep>, jobs: map<int, JobState>, k: nat, soFar: int): Wait
    requires k <= |deps|
    decreases |deps| - k
  {
    if k == |deps| then Until(soFar)
    else
      match deps[k].state
      case DepError => Blocked
      case DepWaiting =>
        if deps[k].job !in jobs then Blocked
        else
          var dep := jobs[deps[k].job];
          if dep.walltime.None? then NoStop
          else MinStart(deps, jobs, k + 1, Max(soFar, dep.start + dep.walltime.value))
      case DepTerminated => if deps[k].exitCode == 0 then MinStart(deps, jobs, k + 1, soFar) else Blocked
      case DepOther => Blocked
  }

  ghost predicate SoundSet(s: SlotSetState, hy: Hierarchy) {
    CacheOk(s.chart, s.cache, hy) && Usable(s.chart)
  }

  ghost predicate Sound(w: World, hy: Hierarchy) {
    forall n :: n in w.sets ==> SoundSet(w.sets[n], hy)
  }

  ghost predicate ProperSpec(spec: JobSpec, hy: Hierarchy) {
    && KnownJob(hy, spec.job)
    && (spec.opens.Some? <==> "container" in spec.job.who.account.types)
  }

  function HomeOf(spec: JobSpec): string {
    if spec.inner.Some? then spec.inner.value else "default"
  }

  /** The slot set a container opens: its resources, for its walltime less the security time. */
  function Opened(j: JobState, security: int): SlotSetState
    requires j.walltime.Some?
  {
    var last := j.start + j.walltime.value - security;
    SlotSetState(Chart([Cell(1, j.start, last, j.res, map[], -1, NO_TABLES)], 1), map[])
  }

  function OpenAfter(sets: map<string, SlotSetState>, opens: Option<string>, j: JobState,
                     security: int): map<string, SlotSetState>
    requires opens.Some? ==> j.walltime.Some?
  {
    if opens.Some? then sets[opens.value := Opened(j, security)] else sets
  }

  /** What the outcome of an attempt in slot set `n` leads to. */
  function Settle(w: World, spec: JobSpec, n: string, o: Outcome, security: int, policy: Policy): StepResult
    requires spec.job.id in w.jobs && n in w.sets
  {
    var id := spec.job.id;
    match o
    case Fails => Crash
    case Unplaced(cache) =>
      var j := w.jobs[id].(start := -1, res := {}, mldId := -1);
      if spec.opens.Some? && j.walltime.None? then Crash
      else
        var sets := w.sets[n := w.sets[n].(cache := cache)];
        Next(World(OpenAfter(sets, spec.opens, j, security), w.jobs[id := j]), None)
    case Placed(best, cache) =>
      if best.l <= best.r < |w.sets[n].chart.cells| then
        var task := TaskOf(spec.job.who, best);
        var j := JobState(best.start, Some(best.variant.ask.walltime), best.res, best.variant.mldId);
        var s := SlotSetState(Place(w.sets[n].chart, best.l, best.r, task, true, policy), cache);
        var w' := World(OpenAfter(w.sets[n := s], spec.opens, j, security), w.jobs[id := j]);
        Next(w', Some(Entry(id, n, task, spec.opens)))
      else Crash
  }

  function Step(w: World, spec: JobSpec, security: int, hy: Hierarchy, policy: Policy): StepResult
    requires Sound(w, hy) && ProperSpec(spec, hy) && spec.job.id in w.jobs
  {
    match MinStart(spec.deps, w.jobs, 0, -1)
    case NoStop => Crash
    case Blocked => Next(w.(jobs := w.jobs[spec.job.id := w.jobs[spec.job.id].(start := -1)]), None)
    case Until(minStart) =>
      var n := HomeOf(spec);
      if n !in w.sets then Crash
      else
        var o := Assign(w.sets[n].chart, w.sets[n].cache, spec.job, minStart, hy, policy);
        Settle(w, spec, n, o, security, policy)
  }

  // ----------------------------------------------------- one step, as far as it matters

  /** What the slot set of a container offers at `t`. */
  function OfferedAt(start: int, walltime: int, res: set<int>, security: int, t: int): set<int> {
    if start <= t <= start + walltime - security then res else {}
  }

  /** Free resources that a job adds by opening a slot set. */
  function OpenedFree(e: Option<Entry>, n: string, security: int, t: int): set<int> {
    if e.Some? && e.value.opens == Some(n) then
      OfferedAt(e.value.task.start, e.value.task.walltime, e.value.task.res, security, t)
    else {}
  }

  ghost predicate SameElsewhere(w: World, w': World, e: Option<Entry>) {
    forall n :: n in w.sets && (e.Some? ==> n != e.value.home) ==> n in w'.sets && w'.sets[n].chart == w.sets[n].chart
  }

  ghost predicate OpensOnly(w: World, w': World, e: Option<Entry>, security: int) {
    forall n, t :: n in w'.sets && n !in w.sets ==>
      FreeAt(w'.sets[n].chart, t) == OpenedFree(e, n, security, t) && ContentAt(w'.sets[n].chart, t).counters == map[]
  }

  /** The job goes where its resources are free, and is taken out of that slot set. */
  ghost predicate Takes(w: World, w': World, e: Entry, policy: Policy) {
    && e.home in w.sets && e.home in w'.sets && |w.sets[e.home].chart.cells| >= 1
    && e.task.walltime >= 1 && e.task.res != {}
    && (e.opens.Some? <==> e.task.IsContainer())
    && (e.opens.Some? ==> e.opens.value !in w.sets && e.opens.value in w'.sets)
    && TakesFree(w.sets[e.home].chart, e.task)
    && TakenOut(w.sets[e.home].chart, w'.sets[e.home].chart, e.task, policy)
  }

  ghost predicate TakenOut(g: Chart, h: Chart, task: Task, policy: Policy) {
    forall t ::
      ContentAt(h, t) == if task.Covers(t) then Changes(ContentAt(g, t), task, true, policy) else ContentAt(g, t)
  }

  /** What a step does to the free resources and counters of all slot sets. */
  ghost predicate Effect(w: World, w': World, e: Option<Entry>, security: int, policy: Policy) {
    && SameElsewhere(w, w', e) && OpensOnly(w, w', e, security)
    && (e.Some? ==> Takes(w, w', e.value, policy))
  }

  lemma DeadIsEmpty(g: Chart, t: int)
    requires Dead(g)
    ensures ContentAt(g, t) == NOTHING
  {
    assert forall i :: !Covers(g, i, t);
  }

  lemma OpenedContent(j: JobState, security: int, t: int, hy: Hierarchy)
    requires j.walltime.Some?
    ensures SoundSet(Opened(j, security), hy)
    ensures FreeAt(Opened(j, security).chart, t)
         == if j.start <= t <= j.start + j.walltime.value - security then j.res else {}
    ensures ContentAt(Opened(j, security).chart, t).counters == map[]
  {
    var g := Opened(j, security).chart;
    if Dead(g) {
      DeadIsEmpty(g, t);
    } else if j.start <= t <= j.start + j.walltime.value - security {
      ContentOf(g, 0, t);
    } else {
      OutsideSpan(g, t);
    }
  }

  /** Taking the resources of a found place leaves the slot set sound. */
  lemma PlaceStep(s: SlotSetState, cache: Cache, a: Answer, v: Variant, who: Applicant, hy: Hierarchy, policy: Policy,
                  best: Best)
    returns (h: Chart)
    requires Wf(s.chart) && CacheOk(s.chart, cache, hy) && Known(hy, v.ask.request) && v.ask.walltime >= 1
    requires a.Answer? && Backed(s.chart, a, v.ask, who, hy, policy)
    requires best == Best(v, s.chart.cells[a.l].b, a.l, a.r, a.res)
    ensures h == Place(s.chart, a.l, a.r, TaskOf(who, best), true, policy)
    ensures SoundSet(SlotSetState(h, cache), hy) && Wf(h) && Begin(h) == Begin(s.chart) && End(h) == End(s.chart)
    ensures TakesFree(s.chart, TaskOf(who, best))
    ensures TakenOut(s.chart, h, TaskOf(who, best), policy)
  {
    hide Known, CacheOk, KeepsSlots, Split, Meets, Backed;
    var g, task := s.chart, TaskOf(who, best);
    PlacedTask(g, a, v, who, hy, policy, best);
    h := PlaceIsPointwise(g, a.l, a.r, task, true, policy);
    WindowMeets(g, a.l, a.r, task);
    SplitKeepsCache(g, a.l, a.r - a.l + 1, task, policy, cache, hy, h);
    forall t
      ensures ContentAt(h, t)
           == if task.Covers(t) then Changes(ContentAt(g, t), task, true, policy) else ContentAt(g, t)
    {
      assert ContentAt(h, t) == ContentAfter(g, Begin(g), End(g), task, true, policy, t);
    }
  }

  /** The entry is about the job `spec`, in the slot set it is inner to or in the default one. */
  predicate EntryOf(e: Entry, spec: JobSpec) {
    && e.id == spec.job.id && e.home == (if spec.inner.Some? then spec.inner.value else "default")
    && e.opens == spec.opens && e.task.account == spec.job.who.account
    && e.task.sharer.None? && e.task.placeholder == NoPlaceholder
  }

  lemma OpensWorld(w: World, sets: map<string, SlotSetState>, jobs: map<int, JobState>, e: Option<Entry>,
                   opens: Option<string>,
                   j: JobState, security: int, hy: Hierarchy, w': World)
    requires Sound(World(sets, jobs), hy) && sets.Keys == w.sets.Keys
    requires opens.Some? ==> opens.value !in w.sets
    requires opens.Some? ==> j.walltime.Some?
    requires e.Some? ==> e.value.opens == opens && j.res == e.value.task.res
    requires e.Some? ==> j.start == e.value.task.start && j.walltime == Some(e.value.task.walltime)
    requires e.None? ==> j.res == {}
    requires w' == World(OpenAfter(sets, opens, j, security), jobs)
    ensures Sound(w', hy) && OpensOnly(w, w', e, security)
    ensures w'.sets.Keys == w.sets.Keys + (if opens.Some? then {opens.value} else {})
    ensures forall n :: n in w.sets ==> w'.sets[n] == sets[n]
  {
    if opens.Some? {
      OpenEffect(j, security, hy);
    }
  }

  /** What an attempt in slot set `s` can come to. */
  ghost predicate Plausible(s: SlotSetState, spec: JobSpec, o: Outcome, hy: Hierarchy, policy: Policy)
    requires ProperSpec(spec, hy)
  {
    && (!o.Fails? ==> CacheOk(s.chart, o.cache, hy))
    && (o.Placed? ==> Wf(s.chart) && exists a, v :: FoundBy(s.chart, a, v, spec, o.best, hy, policy))
  }

  ghost predicate FoundBy(g: Chart, a: Answer, v: Variant, spec: JobSpec, best: Best, hy: Hierarchy, policy: Policy)
    requires ProperSpec(spec, hy)
  {
    && v in spec.job.variants && a.Answer? && Backed(g, a, v.ask, spec.job.who, hy, policy)
    && best == Best(v, g.cells[a.l].b, a.l, a.r, a.res)
  }

  lemma AssignIsPlausible(s: SlotSetState, spec: JobSpec, minStart: int, hy: Hierarchy, policy: Policy, o: Outcome)
    requires SoundSet(s, hy) && ProperSpec(spec, hy)
    requires o == Assign(s.chart, s.cache, spec.job, minStart, hy, policy)
    ensures Plausible(s, spec, o, hy, policy)
  {
    if o.Placed? {
      var a, v := AssignFinds(s.chart, s.cache, spec.job, minStart, hy, policy, o);
      assert FoundBy(s.chart, a, v, spec, o.best, hy, policy);
    }
  }

  lemma FoundIsKnown(g: Chart, a: Answer, v: Variant, spec: JobSpec, best: Best, hy: Hierarchy, policy: Policy)
    requires ProperSpec(spec, hy) && FoundBy(g, a, v, spec, best, hy, policy)
    ensures Known(hy, v.ask.request) && v.ask.walltime >= 1 && best.variant == v && best.res != {}
    ensures a.l <= a.r < |g.cells| && best.l == a.l && best.r == a.r
  {
  }

  lemma UnplacedEffect(w: World, spec: JobSpec, n: string, cache: Cache, security: int, hy: Hierarchy, policy: Policy,
                       w': World)
    requires Sound(w, hy) && n in w.sets && CacheOk(w.sets[n].chart, cache, hy)
    requires spec.job.id in w.jobs
    requires spec.opens.Some? ==> spec.opens.value !in w.sets
    requires Settle(w, spec, n, Unplaced(cache), security, policy) == Next(w', None)
    ensures Sound(w', hy) && Effect(w, w', None, security, policy)
    ensures w'.jobs.Keys == w.jobs.Keys
    ensures w'.sets.Keys == w.sets.Keys + (if spec.opens.Some? then {spec.opens.value} else {})
  {
    var sets := w.sets[n := w.sets[n].(cache := cache)];
    OpensWorld(w, sets, w'.jobs, None, spec.opens, w'.jobs[spec.job.id], security, hy, w');
  }

  lemma PlacedEffect(w: World, spec: JobSpec, n: string, best: Best, cache: Cache, security: int, hy: Hierarchy,
                     policy: Policy, r: StepResult)
    requires Sound(w, hy) && ProperSpec(spec, hy) && n in w.sets && spec.job.id in w.jobs
    requires spec.opens.Some? ==> spec.opens.value !in w.sets
    requires Plausible(w.sets[n], spec, Placed(best, cache), hy, policy)
    requires r == Settle(w, spec, n, Placed(best, cache), security, policy)
    ensures r.Next? && r.entry == Some(Entry(spec.job.id, n, TaskOf(spec.job.who, best), spec.opens))
    ensures Sound(r.world, hy) && Effect(w, r.world, r.entry, security, policy)
    ensures r.world.jobs.Keys == w.jobs.Keys
    ensures r.world.sets.Keys == w.sets.Keys + (if spec.opens.Some? then {spec.opens.value} else {})
  {
    hide Usable, CacheOk, KnownJob, Known, Wf, Backed, TakesFree, TakenOut, Opened;
    var s := w.sets[n];
    var a, v :| FoundBy(s.chart, a, v, spec, best, hy, policy);
    FoundIsKnown(s.chart, a, v, spec, best, hy, policy);
    var h := PlaceStep(s, cache, a, v, spec.job.who, hy, policy, best);
    var sets := w.sets[n := SlotSetState(h, cache)];
    OpensWorld(w, sets, r.world.jobs, r.entry, spec.opens, r.world.jobs[spec.job.id], security, hy, r.world);
  }

  /** Every step keeps all slot sets sound and takes a job's resources only where they are
      free. */
  lemma StepEffect(w: World, spec: JobSpec, security: int, hy: Hierarchy, policy: Policy, r: StepResult)
    requires Sound(w, hy) && ProperSpec(spec, hy) && spec.job.id in w.jobs
    requires spec.opens.Some? ==> spec.opens.value !in w.sets
    requires r == Step(w, spec, security, hy, policy) && r.Next?
    ensures Sound(r.world, hy) && Effect(w, r.world, r.entry, security, policy)
    ensures r.world.jobs.Keys == w.jobs.Keys
    ensures w.sets.Keys <= r.world.sets.Keys <= w.sets.Keys + (if spec.opens.Some? then {spec.opens.value} else {})
    ensures r.entry.Some? ==> EntryOf(r.entry.value, spec)
  {
    var o := StepOutcome(w, spec, security, hy, policy, r);
    if o.Some? {
      SettleEffect(w, spec, HomeOf(spec), o.value, security, hy, policy, r);
    }
  }

  lemma StepOutcome(w: World, spec: JobSpec, security: int, hy: Hierarchy, policy: Policy, r: StepResult)
    returns (o: Option<Outcome>)
    requires Sound(w, hy) && ProperSpec(spec, hy) && spec.job.id in w.jobs
    requires r == Step(w, spec, security, hy, policy) && r.Next?
    ensures o.None? ==> r.entry.None? && r.world.sets == w.sets && r.world.jobs.Keys == w.jobs.Keys
    ensures o.Some? ==>
      && HomeOf(spec) in w.sets && Plausible(w.sets[HomeOf(spec)], spec, o.value, hy, policy)
      && r == Settle(w, spec, HomeOf(spec), o.value, security, policy)
  {
    var minStart := MinStart(spec.deps, w.jobs, 0, -1);
    if minStart.Blocked? {
      o := None;
    } else {
      var s := w.sets[HomeOf(spec)];
      o := Some(Assign(s.chart, s.cache, spec.job, minStart.start, hy, policy));
      AssignIsPlausible(s, spec, minStart.start, hy, policy, o.value);
    }
  }

  lemma SettleEffect(w: World, spec: JobSpec, n: string, o: Outcome, security: int, hy: Hierarchy, policy: Policy,
                     r: StepResult)
    requires Sound(w, hy) && ProperSpec(spec, hy) && n in w.sets && spec.job.id in w.jobs
    requires spec.opens.Some? ==> spec.opens.value !in w.sets
    requires Plausible(w.sets[n], spec, o, hy, policy)
    requires r == Settle(w, spec, n, o, security, policy) && r.Next? && n == HomeOf(spec)
    ensures Sound(r.world, hy) && Effect(w, r.world, r.entry, security, policy)
    ensures r.world.jobs.Keys == w.jobs.Keys
    ensures w.sets.Keys <= r.world.sets.Keys <= w.sets.Keys + (if spec.opens.Some? then {spec.opens.value} else {})
    ensures r.entry.Some? ==> EntryOf(r.entry.value, spec)
  {
    match o
    case Unplaced(cache) => UnplacedEffect(w, spec, n, cache, security, hy, policy, r.world);
    case Placed(best, cache) => PlacedEffect(w, spec, n, best, cache, security, hy, policy, r);
  }

  lemma OpenEffect(j: JobState, security: int, hy: Hierarchy)
    requires j.walltime.Some?
    ensures SoundSet(Opened(j, security), hy)
    ensures forall t :: FreeAt(Opened(j, security).chart, t) == OfferedAt(j.start, j.walltime.value, j.res, security, t)
    ensures forall t :: ContentAt(Opened(j, security).chart, t).counters == map[]
  {
    forall t
      ensures FreeAt(Opened(j, security).chart, t) == OfferedAt(j.start, j.walltime.value, j.res, security, t)
      ensures ContentAt(Opened(j, security).chart, t).counters == map[]
    {
      OpenedContent(j, security, t, hy);
    }
    OpenedContent(j, security, 0, hy);
  }

  // ------------------------------------------------------------------------ a whole pass

  function OpenNames(specs: seq<JobSpec>): set<string> {
    set k | 0 <= k < |specs| && specs[k].opens.Some? :: specs[k].opens.value
  }

  /** Containers of the pass open slot sets with new and different names. */
  ghost predicate OpensFresh(w: World, specs: seq<JobSpec>) {
    && OpenNames(specs) !! w.sets.Keys
    && forall j, k :: 0 <= j < k < |specs| && specs[j].opens.Some? ==> specs[j].opens != specs[k].opens
  }

  ghost predicate ProperRun(w: World, specs: seq<JobSpec>, hy: Hierarchy) {
    && Sound(w, hy) && OpensFresh(w, specs)
    && forall k :: 0 <= k < |specs| ==> ProperSpec(specs[k], hy) && specs[k].job.id in w.jobs
  }

  lemma ProperInit(w: World, specs: seq<JobSpec>, hy: Hierarchy)
    requires ProperRun(w, specs, hy) && specs != []
    ensures ProperRun(w, specs[..|specs|-1], hy)
    ensures var last := specs[|specs|-1];
            last.opens.Some? ==> last.opens.value !in w.sets && last.opens.value !in OpenNames(specs[..|specs|-1])
  {
    var init := specs[..|specs|-1];
    var last := specs[|specs|-1];
    forall x | x in OpenNames(init) ensures x in OpenNames(specs) {
      var k :| 0 <= k < |init| && init[k].opens.Some? && init[k].opens.value == x;
      assert specs[k] == init[k];
    }
    if last.opens.Some? {
      assert specs[|specs|-1].opens.value in OpenNames(specs);
    }
  }

  /** The jobs of a pass in order. */
  function Run(w: World, specs: seq<JobSpec>, security: int, hy: Hierarchy, policy: Policy): (r: RunResult)
    requires ProperRun(w, specs, hy)
    ensures r.Finished? ==> Sound(r.world, hy) && r.world.jobs.Keys == w.jobs.Keys
    ensures r.Finished? ==> r.world.sets.Keys <= w.sets.Keys + OpenNames(specs)
    decreases |specs|
  {
    if specs == [] then Finished(w, [])
    else
      ProperInit(w, specs, hy);
      match Run(w, specs[..|specs|-1], security, hy, policy)
      case Crashed => Crashed
      case Finished(w1, log) =>
        var s := Step(w1, specs[|specs|-1], security, hy, policy);
        if s.Crash? then Crashed
        else
          StepEffect(w1, specs[|specs|-1], security, hy, policy, s);
          NamesGrow(specs);
          Finished(s.world, if s.entry.Some? then log + [s.entry.value] else log)
  }

  lemma NamesGrow(specs: seq<JobSpec>)
    requires specs != []
    ensures var last := specs[|specs|-1];
            OpenNames(specs) == OpenNames(specs[..|specs|-1]) + (if last.opens.Some? then {last.opens.value} else {})
  {
    var init := specs[..|specs|-1];
    var last := specs[|specs|-1];
    forall x | x in OpenNames(init) ensures x in OpenNames(specs) {
      var k :| 0 <= k < |init| && init[k].opens.Some? && init[k].opens.value == x;
      assert specs[k] == init[k];
    }
    forall x | x in OpenNames(specs) ensures x in OpenNames(init) || (last.opens.Some? && x == last.opens.value) {
      var k :| 0 <= k < |specs| && specs[k].opens.Some? && specs[k].opens.value == x;
      assert k < |init| ==> specs[k] == init[k];
    }
  }

  /** The last step of a pass. */
  lemma RunStep(w: World, specs: seq<JobSpec>, security: int, hy: Hierarchy, policy: Policy, r: RunResult)
    returns (w1: World, log1: seq<Entry>, e: Option<Entry>)
    requires ProperRun(w, specs, hy) && specs != []
    requires r == Run(w, specs, security, hy, policy) && r.Finished?
    ensures ProperRun(w, specs[..|specs|-1], hy)
    ensures Run(w, specs[..|specs|-1], security, hy, policy) == Finished(w1, log1)
    ensures Effect(w1, r.world, e, security, policy)
    ensures Sound(w1, hy) && w1.jobs.Keys == w.jobs.Keys
    ensures specs[|specs|-1].opens.Some? ==> specs[|specs|-1].opens.value !in w1.sets
    ensures Step(w1, specs[|specs|-1], security, hy, policy) == Next(r.world, e)
    ensures e.Some? ==> EntryOf(e.value, specs[|specs|-1])
    ensures r.log == (if e.Some? then log1 + [e.value] else log1)
  {
    ProperInit(w, specs, hy);
    var r1 := Run(w, specs[..|specs|-1], security, hy, policy);
    w1, log1 := r1.world, r1.log;
    var s := Step(w1, specs[|specs|-1], security, hy, policy);
    StepEffect(w1, specs[|specs|-1], security, hy, policy, s);
    e := s.entry;
  }
}
