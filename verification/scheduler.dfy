/** Placing one job, and a scheduling pass over a list of jobs, in place
    (assign_resources_mld_job_split_slots and schedule_id_jobs_ct in oar/kao/scheduling.py).
 */
module Scheduler {
  import opened Options
  import opened Requests
  import opened QuotaRules
  import opened Sharing
  import opened Gantt
  import opened FirstFit
  import opened Assignment
  import opened Schedule
  import opened Slots
  import opened Finding

  /** A job with the fields that scheduling writes. The walltime is an attribute that a job
      only gets when it is placed, unless it came with one. */
  class JobRecord {
    const spec: JobSpec
    var start: int
    var walltime: Option<int>
    var res: set<int>
    var mldId: int

    constructor (spec: JobSpec, start: int, walltime: Option<int>)
      ensures this.spec == spec && State() == JobState(start, walltime, {}, -1)
    {
      this.spec, this.start, this.walltime, res, mldId := spec, start, walltime, {}, -1;
    }

    /** The job can not be scheduled for now. */
    method SetAside()
      modifies this`start
      ensures State() == old(State()).(start := -1)
    {
      start := -1;
    }

    lemma HasWalltime()
      ensures State().walltime == walltime
    {
    }

    ghost function State(): JobState
      reads this
    {
      JobState(start, walltime, res, mldId)
    }
  }

  // ------------------------------------------------------------------ the moldable variants

  /** The best variant so far. */
  datatype Pick = Pick(variant: Variant, start: int, res: set<int>, sidLeft: int, sidRight: int)

  ghost predicate SamePick(g: Chart, best: Option<Best>, prev: Option<Pick>) {
    match best
    case None => prev.None?
    case Some(b) =>
      && b.l <= b.r < |g.cells|
      && prev == Some(Pick(b.variant, b.start, b.res, g.cells[b.l].id, g.cells[b.r].id))
  }

  /** The first `k` variants have been tried, which left the cache `now`. */
  ghost predicate Tried(g: Chart, cache: Cache, now: Cache, job: Job, minStart: int, hy: Hierarchy, policy: Policy,
                        k: nat, prev: Option<Pick>, notFound: int)
  {
    match g
    case Chart(_, _) =>
      && Usable(g) && CacheOk(g, cache, hy) && KnownJob(hy, job) && k <= |job.variants|
      && var c := Choose(g, cache, job, minStart, hy, policy, k);
         c.Choice? && now == c.cache && notFound == k - c.found && SamePick(g, c.best, prev)
  }

  lemma TriedNext(g: Chart, cache: Cache, now: Cache, job: Job, minStart: int, hy: Hierarchy, policy: Policy,
                  k: nat, prev: Option<Pick>, notFound: int)
    requires Tried(g, cache, now, job, minStart, hy, policy, k, prev, notFound) && k < |job.variants|
    ensures Usable(g) && CacheOk(g, now, hy) && Known(hy, job.variants[k].ask.request)
    ensures job.variants[k].ask.walltime >= 1
  {
  }

  /** What the search for variant `k` returns is counted in. */
  lemma TriedStep(g: Chart, cache: Cache, now: Cache, job: Job, minStart: int, hy: Hierarchy, policy: Policy,
                  k: nat, prev: Option<Pick>, notFound: int, a: Answer, now': Cache, prev': Option<Pick>,
                  notFound': int)
    requires Tried(g, cache, now, job, minStart, hy, policy, k, prev, notFound) && k < |job.variants|
    requires Known(hy, job.variants[k].ask.request)
    requires job.keyed && job.variants[k].ask in now ==>
      exists p :: 0 <= p < |g.cells| && g.cells[p].id == now[job.variants[k].ask]
    requires Search(g, now, job.variants[k].ask, job.keyed, job.who, minStart, hy, policy) == Searched(a, now')
    requires a.NoAnswer? ==> prev' == prev && notFound' == notFound + 1
    requires a.Answer? ==> a.l <= a.r < |g.cells| && notFound' == notFound
    requires a.Answer? ==> prev' == NextPick(g, prev, job.variants[k], a)
    ensures Tried(g, cache, now', job, minStart, hy, policy, k + 1, prev', notFound')
  {
    hide Search, CacheOk, Usable;
  }

  ghost function NextPick(g: Chart, prev: Option<Pick>, v: Variant, a: Answer): Option<Pick>
    requires a.Answer? && a.l <= a.r < |g.cells|
  {
    var start := g.cells[a.l].b;
    if start + v.ask.walltime < FinishOfPick(prev)
      then Some(Pick(v, start, a.res, g.cells[a.l].id, g.cells[a.r].id)) else prev
  }

  function FinishOfPick(prev: Option<Pick>): int {
    if prev.Some? then prev.value.start + prev.value.variant.ask.walltime else NO_FINISH
  }

  method TryVariant(s: SlotSet, job: Job, minStart: int, hy: Hierarchy, k: nat, prev: Option<Pick>, notFound: int,
                    ghost cache: Cache)
    returns (failed: bool, prev': Option<Pick>, notFound': int)
    requires s.Valid() && k < |job.variants|
    requires Tried(s.chart, cache, s.cache, job, minStart, hy, s.policy, k, prev, notFound)
    modifies s`cache
    ensures s.Valid()
    ensures failed ==> TriedInVain(s.chart, cache, job, minStart, hy, s.policy, k + 1)
    ensures !failed ==> Tried(s.chart, cache, s.cache, job, minStart, hy, s.policy, k + 1, prev', notFound')
  {
    hide *;
    ghost var g, now := s.chart, s.cache;
    TriedNext(g, cache, now, job, minStart, hy, s.policy, k, prev, notFound);
    var v := job.variants[k];
    var res, sidLeft, sidRight;
    failed, res, sidLeft, sidRight := FindFirstSuitableContiguousSlots(s, v.ask, job.keyed, job.who, minStart, hy);
    prev', notFound' := prev, notFound;
    ghost var found := Search(g, now, v.ask, job.keyed, job.who, minStart, hy, s.policy);
    if failed {
      VainStep(g, cache, now, job, minStart, hy, s.policy, k, prev, notFound);
      return;
    }
    AnswerSeen(s, found.answer, res, sidLeft, sidRight);
    if |res| == 0 {
      notFound' := notFound + 1;
    } else {
      var start := s.slots[sidLeft].b;
      if start + v.ask.walltime < FinishOfPick(prev) {
        prev' := Some(Pick(v, start, res, sidLeft, sidRight));
      }
      PickIsNext(g, prev, v, found.answer, start, res, sidLeft, sidRight, prev');
    }
    TriedStep(g, cache, now, job, minStart, hy, s.policy, k, prev, notFound, found.answer, s.cache, prev', notFound');
  }

  ghost predicate TriedInVain(g: Chart, cache: Cache, job: Job, minStart: int, hy: Hierarchy, policy: Policy, k: nat) {
    match g
    case Chart(_, _) =>
      && Usable(g) && CacheOk(g, cache, hy) && KnownJob(hy, job) && k <= |job.variants|
      && Choose(g, cache, job, minStart, hy, policy, k).ChoiceFails?
  }

  lemma VainStep(g: Chart, cache: Cache, now: Cache, job: Job, minStart: int, hy: Hierarchy, policy: Policy,
                 k: nat, prev: Option<Pick>, notFound: int)
    requires Tried(g, cache, now, job, minStart, hy, policy, k, prev, notFound) && k < |job.variants|
    requires Known(hy, job.variants[k].ask.request)
    requires job.keyed && job.variants[k].ask in now ==>
      exists p :: 0 <= p < |g.cells| && g.cells[p].id == now[job.variants[k].ask]
    requires Search(g, now, job.variants[k].ask, job.keyed, job.who, minStart, hy, policy).MissingKey?
    ensures TriedInVain(g, cache, job, minStart, hy, policy, k + 1)
  {
    hide Search, CacheOk, Usable;
  }

  lemma AnswerSeen(s: SlotSet, a: Answer, res: set<int>, sidLeft: int, sidRight: int)
    requires s.Valid() && IsAnswer(s.chart, a, res, sidLeft, sidRight)
    ensures a.Answer? <==> |res| != 0
    ensures a.Answer? ==> a.l <= a.r < |s.chart.cells|
    ensures a.Answer? ==> sidLeft in s.slots && s.slots[sidLeft].b == s.chart.cells[a.l].b
    ensures a.Answer? ==> res == a.res && sidLeft == s.chart.cells[a.l].id && sidRight == s.chart.cells[a.r].id
  {
    if a.Answer? {
      s.LinkHere(a.l);
    }
  }

  lemma PickIsNext(g: Chart, prev: Option<Pick>, v: Variant, a: Answer, start: int, res: set<int>, sidLeft: int,
                   sidRight: int, prev': Option<Pick>)
    requires a.Answer? && a.l <= a.r < |g.cells| && start == g.cells[a.l].b && res == a.res
    requires sidLeft == g.cells[a.l].id && sidRight == g.cells[a.r].id
    requires prev' == if start + v.ask.walltime < FinishOfPick(prev)
      then Some(Pick(v, start, res, sidLeft, sidRight)) else prev
    ensures prev' == NextPick(g, prev, v, a)
  {
  }

  // ------------------------------------------------------------------------------ one job

  /** What placing a job does to the slot set and to the job. */
  ghost predicate Assigned(o: Outcome, g: Chart, who: Applicant, j: JobState, policy: Policy,
                           failed: bool, h: Chart, cache: Cache, j': JobState)
  {
    match o
    case Fails => failed
    case Unplaced(c) => !failed && h == g && cache == c && j' == j.(start := -1, res := {}, mldId := -1)
    case Placed(best, c) =>
      && !failed && cache == c && best.l <= best.r < |g.cells|
      && h == Place(g, best.l, best.r, TaskOf(who, best), true, policy)
      && j' == JobState(best.start, Some(best.variant.ask.walltime), best.res, best.variant.mldId)
  }

  /** Job `job` was tried in a slot set, under the conditions that all slot sets keep. */
  ghost predicate Went(before: SlotSetState, job: Job, minStart: int, hy: Hierarchy, policy: Policy, j: JobState,
                       failed: bool, after: SlotSetState, j': JobState)
  {
    && Usable(before.chart) && CacheOk(before.chart, before.cache, hy) && KnownJob(hy, job)
    && Assigned(Assign(before.chart, before.cache, job, minStart, hy, policy), before.chart, job.who, j, policy, failed,
                after.chart, after.cache, j')
  }

  /** What the pick after all variants means. */
  lemma AllTried(s: SlotSet, cache: Cache, job: Job, minStart: int, hy: Hierarchy, prev: Option<Pick>, notFound: int)
    returns (o: Outcome)
    requires s.Valid() && Tried(s.chart, cache, s.cache, job, minStart, hy, s.policy, |job.variants|, prev, notFound)
    ensures Usable(s.chart) && CacheOk(s.chart, cache, hy) && KnownJob(hy, job)
    ensures o == Assign(s.chart, cache, job, minStart, hy, s.policy)
    ensures notFound == |job.variants| ==> o == Unplaced(s.cache)
    ensures notFound != |job.variants| && prev.None? ==> o.Fails?
    ensures notFound != |job.variants| && prev.Some? ==>
      && o.Placed? && o.cache == s.cache && o.best.l <= o.best.r < |s.chart.cells|
      && var (l, r) := (s.chart.cells[o.best.l].id, s.chart.cells[o.best.r].id);
         prev.value == Pick(o.best.variant, o.best.start, o.best.res, l, r)
  {
    o := Assign(s.chart, cache, job, minStart, hy, s.policy);
  }

  lemma TriedNone(g: Chart, cache: Cache, job: Job, minStart: int, hy: Hierarchy, policy: Policy)
    requires Usable(g) && CacheOk(g, cache, hy) && KnownJob(hy, job)
    ensures Tried(g, cache, cache, job, minStart, hy, policy, 0, None, 0)
  {
  }

  lemma {:induction false} VainToEnd(g: Chart, cache: Cache, job: Job, minStart: int, hy: Hierarchy, policy: Policy,
                                     k: nat)
    requires TriedInVain(g, cache, job, minStart, hy, policy, k)
    ensures Usable(g) && CacheOk(g, cache, hy) && KnownJob(hy, job)
    ensures Assign(g, cache, job, minStart, hy, policy).Fails?
    decreases |job.variants| - k
  {
    if k < |job.variants| {
      assert TriedInVain(g, cache, job, minStart, hy, policy, k + 1);
      VainToEnd(g, cache, job, minStart, hy, policy, k + 1);
    }
  }

  /** Writes the variant chosen into the job and takes its resources out of the slots. */
  method Commit(s: SlotSet, job: JobRecord, pick: Pick, ghost best: Best)
    requires s.Valid() && job !in s.Repr && best.l <= best.r < |s.chart.cells|
    requires pick == Pick(best.variant, best.start, best.res, s.chart.cells[best.l].id, s.chart.cells[best.r].id)
    modifies s.Repr, job
    ensures s.Valid() && fresh(s.Repr - old(s.Repr)) && s.cache == old(s.cache)
    ensures s.chart == Place(old(s.chart), best.l, best.r, TaskOf(job.spec.job.who, best), true, s.policy)
    ensures job.State() == JobState(best.start, Some(best.variant.ask.walltime), best.res, best.variant.mldId)
  {
    hide SlotSet.Valid, Place, Split;
    s.LinkHere(best.r);
    ghost var last := s.At(best.r);
    var walltime := pick.variant.ask.walltime;
    job.mldId, job.res, job.start, job.walltime := pick.variant.mldId, pick.res, pick.start, Some(walltime);
    var task := Task(job.start, walltime, job.res, None, NoPlaceholder, job.spec.job.who.account);
    s.SplitSlots(pick.sidLeft, pick.sidRight, task, true, best.l, best.r, last, best.r);
  }

  /** Places the variant that finishes earliest. Fails where the program would raise an
      exception. */
  method AssignResources(s: SlotSet, job: JobRecord, minStart: int, hy: Hierarchy) returns (failed: bool)
    requires s.Valid() && Usable(s.chart) && CacheOk(s.chart, s.cache, hy) && KnownJob(hy, job.spec.job)
    requires job !in s.Repr
    modifies s.Repr, job
    ensures s.Valid() && fresh(s.Repr - old(s.Repr))
    ensures Went(SlotSetState(old(s.chart), old(s.cache)), job.spec.job, minStart, hy, s.policy, old(job.State()),
                 failed, SlotSetState(s.chart, s.cache), job.State())
  {
    hide Tried, TriedInVain, SlotSet.Valid, Usable, CacheOk, KnownJob, Assign, Place, Split;
    var spec := job.spec.job;
    ghost var g, cache := s.chart, s.cache;
    TriedNone(g, cache, spec, minStart, hy, s.policy);
    var prev, notFound, k := None, 0, 0;
    while k < |spec.variants|
      invariant s.Valid() && s.chart == g && k <= |spec.variants|
      invariant Tried(g, cache, s.cache, spec, minStart, hy, s.policy, k, prev, notFound)
      modifies s`cache
    {
      failed, prev, notFound := TryVariant(s, spec, minStart, hy, k, prev, notFound, cache);
      if failed {
        VainToEnd(g, cache, spec, minStart, hy, s.policy, k + 1);
        return;
      }
      k := k + 1;
    }
    ghost var o := AllTried(s, cache, spec, minStart, hy, prev, notFound);
    if notFound == |spec.variants| {
      job.res, job.start, job.mldId := {}, -1, -1;
      return false;
    }
    if prev.None? {
      return true;
    }
    Commit(s, job, prev.value, o.best);
    failed := false;
  }

  // --------------------------------------------------------------------- the whole pass

  /** Slot set `s` stands for `state`. */
  ghost predicate Backs(s: SlotSet, state: SlotSetState, policy: Policy)
    reads s, s.Repr
  {
    s.Valid() && s.policy == policy && state == SlotSetState(s.chart, s.cache)
  }

  ghost predicate Separate(a: set<object>, b: set<object>) {
    a !! b
  }

  lemma StillBacks(s: SlotSet)
    requires s.Valid()
    ensures s in s.Repr && Backs(s, SlotSetState(s.chart, s.cache), s.policy)
  {
  }

  lemma NewIsSeparate(a: set<object>, b: set<object>, all: set<object>)
    requires a <= all && b !! all
    ensures Separate(a, b) && Separate(b, a)
  {
  }

  /** Places a job without touching other slot sets. */
  method AssignAmong(s: SlotSet, job: JobRecord, minStart: int, hy: Hierarchy, ghost sets: map<string, SlotSet>,
                     ghost n: string, ghost state: SlotSetState)
    returns (failed: bool, ghost state': SlotSetState)
    requires n in sets && s == sets[n]
    requires forall m :: m in sets && m != n ==>
      sets[m] in sets[m].Repr && Separate(sets[m].Repr, s.Repr) && job !in sets[m].Repr
    requires Backs(s, state, s.policy) && SoundSet(state, hy) && KnownJob(hy, job.spec.job) && job !in s.Repr
    modifies s.Repr, job
    ensures fresh(s.Repr - old(s.Repr)) && Backs(s, state', s.policy) && s in s.Repr
    ensures Went(state, job.spec.job, minStart, hy, s.policy, old(job.State()), failed, state', job.State())
    ensures forall m :: m in sets && m != n ==> unchanged(sets[m]) && unchanged(sets[m].Repr)
    ensures forall m :: m in sets && m != n ==> Separate(sets[m].Repr, s.Repr) && Separate(s.Repr, sets[m].Repr)
  {
    hide Usable, CacheOk, KnownJob, SlotSet.Valid, Went;
    failed := AssignResources(s, job, minStart, hy);
    state' := SlotSetState(s.chart, s.cache);
  }

  /** All slot sets and jobs of a pass. */
  class Pass {
    var sets: map<string, SlotSet>
    const jobs: map<int, JobRecord>
    const hy: Hierarchy
    const security: int
    const policy: Policy

    /** The pass as a value. */
    ghost var world: World
    ghost var Repr: set<object>

    ghost predicate Valid()
      reads this, Repr
      ensures Valid() ==> this in Repr
    {
      && this in Repr
      && world.sets.Keys == sets.Keys && world.jobs.Keys == jobs.Keys
      && (forall n :: n in sets ==> sets[n] in Repr && sets[n].Repr <= Repr)
      && (forall n :: n in sets ==> sets[n] in sets[n].Repr && this !in sets[n].Repr && sets[n].policy == policy)
      && (forall n :: n in sets ==> Backs(sets[n], world.sets[n], policy))
      && (forall m, n :: m in sets && n in sets && m != n ==> Separate(sets[m].Repr, sets[n].Repr))
      && (forall id :: id in jobs ==> jobs[id] in Repr && jobs[id].spec.job.id == id)
      && (forall id :: id in jobs ==> world.jobs[id] == jobs[id].State())
      && (forall id, n :: id in jobs && n in sets ==> jobs[id] !in sets[n].Repr)
    }

    lemma Parts()
      requires Valid()
      ensures this in Repr
      ensures world.sets.Keys == sets.Keys && world.jobs.Keys == jobs.Keys
      ensures forall n :: n in sets ==> sets[n] in sets[n].Repr && this !in sets[n].Repr && sets[n].policy == policy
      ensures forall n :: n in sets ==> sets[n] in Repr && sets[n].Repr <= Repr
      ensures forall n :: n in sets ==> Backs(sets[n], world.sets[n], policy)
      ensures forall m, n :: m in sets && n in sets && m != n ==> Separate(sets[m].Repr, sets[n].Repr)
      ensures forall id :: id in jobs ==> jobs[id] in Repr && jobs[id].spec.job.id == id
      ensures forall id :: id in jobs ==> world.jobs[id] == jobs[id].State()
      ensures forall id, n :: id in jobs && n in sets ==> jobs[id] !in sets[n].Repr
    {
    }

    lemma Whole()
      requires this in Repr
      requires world.sets.Keys == sets.Keys && world.jobs.Keys == jobs.Keys
      requires forall n :: n in sets ==> sets[n] in sets[n].Repr && this !in sets[n].Repr && sets[n].policy == policy
      requires forall n :: n in sets ==> sets[n] in Repr && sets[n].Repr <= Repr
      requires forall n :: n in sets ==> Backs(sets[n], world.sets[n], policy)
      requires forall m, n :: m in sets && n in sets && m != n ==> Separate(sets[m].Repr, sets[n].Repr)
      requires forall id :: id in jobs ==> jobs[id] in Repr && jobs[id].spec.job.id == id
      requires forall id :: id in jobs ==> world.jobs[id] == jobs[id].State()
      requires forall id, n :: id in jobs && n in sets ==> jobs[id] !in sets[n].Repr
      ensures Valid()
    {
    }

    /** Takes note of what has become of slot set `n` and of a job. */
    ghost method NoteWorld(n: string, id: int, state: SlotSetState)
      requires n in sets && id in jobs && world.sets.Keys == sets.Keys && world.jobs.Keys == jobs.Keys
      requires forall m :: m in sets ==> this !in sets[m].Repr
      requires forall m :: m in sets && m != n ==> Backs(sets[m], world.sets[m], policy)
      requires Backs(sets[n], state, policy)
      requires forall i :: i in jobs && i != id ==> world.jobs[i] == jobs[i].State()
      modifies this`world
      ensures world == World(old(world).sets[n := state], old(world).jobs[id := jobs[id].State()])
      ensures world.sets.Keys == sets.Keys && world.jobs.Keys == jobs.Keys
      ensures forall m :: m in sets ==> Backs(sets[m], world.sets[m], policy)
      ensures forall i :: i in jobs ==> world.jobs[i] == jobs[i].State()
    {
      hide *;
      world := World(world.sets[n := state], world.jobs[id := jobs[id].State()]);
    }

    /** Takes note of new slots of slot set `n`. */
    ghost method NoteSlots(n: string)
      requires this in Repr && n in sets && world.sets.Keys == sets.Keys && world.jobs.Keys == jobs.Keys
      requires forall m :: m in sets ==> sets[m] in sets[m].Repr && this !in sets[m].Repr && sets[m].policy == policy
      requires forall m :: m in sets && m != n ==> sets[m] in Repr && sets[m].Repr <= Repr
      requires forall m :: m in sets ==> Backs(sets[m], world.sets[m], policy)
      requires forall m, k :: m in sets && k in sets && m != k ==> Separate(sets[m].Repr, sets[k].Repr)
      requires forall i :: i in jobs ==> jobs[i] in Repr && jobs[i].spec.job.id == i && world.jobs[i] == jobs[i].State()
      requires forall i, m :: i in jobs && m in sets ==> jobs[i] !in sets[m].Repr
      modifies this`Repr
      ensures Valid() && Repr == old(Repr) + sets[n].Repr
    {
      hide *;
      Repr := Repr + sets[n].Repr;
      Whole();
    }

    /** Takes note of all that has become of slot set `n` and of a job. */
    ghost method Record(n: string, id: int, state: SlotSetState)
      requires this in Repr && n in sets && id in jobs
      requires world.sets.Keys == sets.Keys && world.jobs.Keys == jobs.Keys
      requires forall m :: m in sets ==> sets[m] in sets[m].Repr && this !in sets[m].Repr && sets[m].policy == policy
      requires forall m :: m in sets && m != n ==> sets[m] in Repr && sets[m].Repr <= Repr
      requires forall m :: m in sets && m != n ==> Backs(sets[m], world.sets[m], policy)
      requires Backs(sets[n], state, policy)
      requires forall m, k :: m in sets && k in sets && m != k ==> Separate(sets[m].Repr, sets[k].Repr)
      requires forall i :: i in jobs ==> jobs[i] in Repr && jobs[i].spec.job.id == i
      requires forall i :: i in jobs && i != id ==> world.jobs[i] == jobs[i].State()
      requires forall i, m :: i in jobs && m in sets ==> jobs[i] !in sets[m].Repr
      modifies this`Repr, this`world
      ensures Valid() && Repr == old(Repr) + sets[n].Repr
      ensures world == World(old(world).sets[n := state], old(world).jobs[id := jobs[id].State()])
    {
      hide *;
      NoteWorld(n, id, state);
      NoteSlots(n);
    }

    /** A pass over jobs with one slot set to begin with. */
    constructor (all: SlotSet, jobs: map<int, JobRecord>, hy: Hierarchy, security: int)
      requires all.Valid()
      requires forall id :: id in jobs ==> jobs[id].spec.job.id == id && jobs[id] !in all.Repr
      ensures Valid() && sets == map["default" := all] && this.jobs == jobs
      ensures world
           == World(map["default" := SlotSetState(all.chart, all.cache)], map id | id in jobs :: jobs[id].State())
    {
      hide *;
      this.sets, this.jobs, this.hy := map["default" := all], jobs, hy;
      this.security, this.policy := security, all.policy;
      world := World(map["default" := SlotSetState(all.chart, all.cache)], map id | id in jobs :: jobs[id].State());
      Repr := {this} + all.Repr + (set id | id in jobs :: jobs[id]);
      new;
      StillBacks(all);
      assert forall n :: n in sets ==> n == "default";
      Whole();
    }

    /** Tries one job of the pass in a slot set. */
    method PlaceJob(id: int, n: string, minStart: int) returns (failed: bool)
      requires Valid() && n in sets && id in jobs
      requires n in world.sets && SoundSet(world.sets[n], hy) && KnownJob(hy, jobs[id].spec.job)
      modifies Repr
      ensures Valid() && fresh(Repr - old(Repr)) && sets == old(sets)
      ensures n in world.sets && id in world.jobs && id in old(world).jobs
      ensures world == World(old(world).sets[n := world.sets[n]], old(world).jobs[id := world.jobs[id]])
      ensures Went(old(world).sets[n], jobs[id].spec.job, minStart, hy, policy, old(world).jobs[id], failed,
                   world.sets[n], world.jobs[id])
    {
      hide *;
      Parts();
      var s, job := sets[n], jobs[id];
      ghost var state;
      failed, state := AssignAmong(s, job, minStart, hy, sets, n, world.sets[n]);
      Record(n, id, state);
    }

    /** Opens the slot set of a container. */
    method Open(name: string, id: int)
      requires Valid() && name !in sets && id in jobs && jobs[id].walltime.Some?
      modifies this
      ensures Valid() && fresh(Repr - old(Repr)) && id in old(world).jobs && old(world).jobs[id].walltime.Some?
      ensures world == old(world).(sets := old(world).sets[name := Opened(old(world).jobs[id], security)])
    {
      hide *;
      Parts();
      jobs[id].HasWalltime();
      var s := NewSlotSet(jobs[id], security, policy);
      forall m | m in sets ensures Separate(sets[m].Repr, s.Repr) && Separate(s.Repr, sets[m].Repr) {
        NewIsSeparate(sets[m].Repr, s.Repr, Repr);
      }
      sets := sets[name := s];
      Repr := Repr + s.Repr;
      world := world.(sets := world.sets[name := Opened(jobs[id].State(), security)]);
      Whole();
    }

    /** What the dependencies of a job come to. */
    method ReadDependencies(deps: seq<Dep>) returns (wait: Wait)
      requires Valid()
      ensures wait == MinStart(deps, world.jobs, 0, -1)
    {
      Parts();
      hide Valid, Backs;
      var soFar := -1;
      var k := 0;
      while k < |deps|
        invariant k <= |deps| && MinStart(deps, world.jobs, 0, -1) == MinStart(deps, world.jobs, k, soFar)
        decreases |deps| - k
      {
        match deps[k].state {
          case DepError => return Blocked;
          case DepWaiting =>
            if deps[k].job !in jobs {
              return Blocked;
            }
            var dep := jobs[deps[k].job];
            if dep.walltime.None? {
              return NoStop;
            }
            if dep.start + dep.walltime.value > soFar {
              soFar := dep.start + dep.walltime.value;
            }
          case DepTerminated =>
            if deps[k].exitCode != 0 {
              return Blocked;
            }
          case DepOther => return Blocked;
        }
        k := k + 1;
      }
      wait := Until(soFar);
    }

    /** Marks a job that its dependencies keep from being scheduled. */
    method Skip(id: int)
      requires Valid() && id in jobs
      modifies Repr
      ensures Valid() && Repr == old(Repr) && id in old(world).jobs
      ensures world == old(world).(jobs := old(world).jobs[id := old(world).jobs[id].(start := -1)])
    {
      hide *;
      Parts();
      jobs[id].SetAside();
      world := world.(jobs := world.jobs[id := jobs[id].State()]);
      Whole();
    }

    /** Schedules one job. Fails where the program would raise an exception. */
    method ScheduleJob(id: int) returns (failed: bool)
      requires Valid() && Sound(world, hy) && id in jobs && id in world.jobs
      requires ProperSpec(jobs[id].spec, hy) && jobs[id].spec.job.id == id
      requires jobs[id].spec.opens.Some? ==> jobs[id].spec.opens.value !in world.sets
      modifies Repr
      ensures Valid() && fresh(Repr - old(Repr))
      ensures Stepped(Step(old(world), jobs[id].spec, security, hy, policy), failed, world)
    {
      hide *;
      ghost var w := world;
      var spec := jobs[id].spec;
      var wait := ReadDependencies(spec.deps);
      if wait.NoStop? {
        NoStopIsStep(w, spec, security, hy, policy, w);
        return true;
      }
      if wait.Blocked? {
        Skip(id);
        SkipIsStep(w, spec, security, hy, policy);
        return false;
      }
      var n := if spec.inner.Some? then spec.inner.value else "default";
      Parts();
      if n !in sets {
        NoHomeIsStep(w, spec, wait.start, n, security, hy, policy, w);
        return true;
      }
      ReadyToPlace(w, spec, n, hy);
      failed := PlaceJob(id, n, wait.start);
      ghost var after, j := world.sets[n], world.jobs[id];
      WentIsStep(w, spec, wait.start, n, security, hy, policy, failed, after, j);
      if !failed && spec.opens.Some? {
        Parts();
        jobs[id].HasWalltime();
        if jobs[id].walltime.None? {
          return true;
        }
        Open(spec.opens.value, id);
      }
    }

    /** Schedules the jobs in the order of the list, until one makes the program fail. */
    method ScheduleIdJobs(ids: seq<int>) returns (failed: bool)
      requires Valid() && (forall k :: 0 <= k < |ids| ==> ids[k] in jobs)
      requires ProperRun(world, SpecsOf(jobs, ids), hy)
      modifies Repr
      ensures Valid() && fresh(Repr - old(Repr))
      ensures Ended(Run(old(world), SpecsOf(jobs, ids), security, hy, policy), failed, world)
    {
      hide *;
      ghost var w, specs := world, SpecsOf(jobs, ids);
      var k := 0;
      NothingRun(w, specs, security, hy, policy);
      SpecsAt(jobs, ids);
      while k < |ids|
        invariant Valid() && fresh(Repr - old(Repr)) && k <= |ids|
        invariant RanTo(w, specs, k, security, hy, policy, world)
      {
        Parts();
        ReadyToStep(w, specs, k, security, hy, policy, world);
        ghost var before := world;
        failed := ScheduleJob(ids[k]);
        RanOne(w, specs, k, security, hy, policy, before, failed, world);
        if failed {
          return;
        }
        k := k + 1;
      }
      AllRun(w, specs, security, hy, policy, world);
      failed := false;
    }
  }

  ghost function SpecsOf(jobs: map<int, JobRecord>, ids: seq<int>): (specs: seq<JobSpec>)
    requires forall k :: 0 <= k < |ids| ==> ids[k] in jobs
  {
    seq(|ids|, k requires 0 <= k < |ids| => jobs[ids[k]].spec)
  }

  lemma SpecsAt(jobs: map<int, JobRecord>, ids: seq<int>)
    requires forall k :: 0 <= k < |ids| ==> ids[k] in jobs
    ensures |SpecsOf(jobs, ids)| == |ids|
    ensures forall k :: 0 <= k < |ids| ==> SpecsOf(jobs, ids)[k] == jobs[ids[k]].spec
  {
  }

  ghost predicate Ended(r: RunResult, failed: bool, w: World) {
    match r
    case Crashed => failed
    case Finished(w', _) => !failed && w == w'
  }

  /** The first `k` jobs of a pass have led to `now`. */
  ghost predicate RanTo(w: World, specs: seq<JobSpec>, k: nat, security: int, hy: Hierarchy, policy: Policy,
                        now: World) {
    && k <= |specs| && ProperRun(w, specs, hy) && ProperRun(w, specs[..k], hy)
    && Ended(Run(w, specs[..k], security, hy, policy), false, now)
  }

  lemma ProperPrefix(w: World, specs: seq<JobSpec>, hy: Hierarchy, k: nat)
    requires ProperRun(w, specs, hy) && k <= |specs|
    ensures ProperRun(w, specs[..k], hy)
  {
    forall n | n in OpenNames(specs[..k]) ensures n in OpenNames(specs) {
      var i :| 0 <= i < k && specs[..k][i].opens.Some? && specs[..k][i].opens.value == n;
      assert specs[i] == specs[..k][i];
    }
  }

  lemma NothingRun(w: World, specs: seq<JobSpec>, security: int, hy: Hierarchy, policy: Policy)
    requires ProperRun(w, specs, hy)
    ensures RanTo(w, specs, 0, security, hy, policy, w)
  {
    ProperPrefix(w, specs, hy, 0);
  }

  lemma ReadyToStep(w: World, specs: seq<JobSpec>, k: nat, security: int, hy: Hierarchy, policy: Policy, now: World)
    requires RanTo(w, specs, k, security, hy, policy, now) && k < |specs|
    ensures Sound(now, hy) && ProperSpec(specs[k], hy) && specs[k].job.id in now.jobs
    ensures specs[k].opens.Some? ==> specs[k].opens.value !in now.sets
  {
    ProperPrefix(w, specs, hy, k + 1);
    var upto := specs[..k+1];
    assert upto[..|upto|-1] == specs[..k];
    ProperInit(w, upto, hy);
  }

  /** One more step of the pass. */
  lemma RanOne(w: World, specs: seq<JobSpec>, k: nat, security: int, hy: Hierarchy, policy: Policy, before: World,
               failed: bool, now: World)
    requires RanTo(w, specs, k, security, hy, policy, before) && k < |specs|
    requires Sound(before, hy) && ProperSpec(specs[k], hy) && specs[k].job.id in before.jobs
    requires Stepped(Step(before, specs[k], security, hy, policy), failed, now)
    ensures !failed ==> RanTo(w, specs, k + 1, security, hy, policy, now)
    ensures failed ==> ProperRun(w, specs, hy) && Ended(Run(w, specs, security, hy, policy), true, now)
  {
    hide Step, Sound, ProperSpec, OpensFresh;
    ProperPrefix(w, specs, hy, k + 1);
    var upto := specs[..k+1];
    assert upto[..|upto|-1] == specs[..k];
    if failed {
      assert specs[..|specs|] == specs;
      CrashStays(w, specs, security, hy, policy, k + 1, |specs|);
    }
  }

  lemma {:induction false} CrashStays(w: World, specs: seq<JobSpec>, security: int, hy: Hierarchy, policy: Policy,
                                      k: nat, n: nat)
    requires ProperRun(w, specs, hy) && k <= n <= |specs| && ProperRun(w, specs[..k], hy)
    requires ProperRun(w, specs[..n], hy)
    requires Run(w, specs[..k], security, hy, policy).Crashed?
    ensures Run(w, specs[..n], security, hy, policy).Crashed?
    decreases n - k
  {
    hide ProperRun, Sound, ProperSpec, Step;
    if k < n {
      ProperPrefix(w, specs, hy, n - 1);
      CrashStays(w, specs, security, hy, policy, k, n - 1);
      var upto := specs[..n];
      assert upto[..|upto|-1] == specs[..n-1];
    }
  }

  lemma AllRun(w: World, specs: seq<JobSpec>, security: int, hy: Hierarchy, policy: Policy, now: World)
    requires RanTo(w, specs, |specs|, security, hy, policy, now)
    ensures Ended(Run(w, specs, security, hy, policy), false, now)
  {
    assert specs[..|specs|] == specs;
  }

  /** How a step ends for the program: an exception, or the next state. */
  ghost predicate Stepped(r: StepResult, failed: bool, w: World) {
    match r
    case Crash => failed
    case Next(w', _) => !failed && w == w'
  }

  lemma NoStopIsStep(w: World, spec: JobSpec, security: int, hy: Hierarchy, policy: Policy, w': World)
    requires Sound(w, hy) && ProperSpec(spec, hy) && spec.job.id in w.jobs
    requires MinStart(spec.deps, w.jobs, 0, -1) == NoStop
    ensures Stepped(Step(w, spec, security, hy, policy), true, w')
  {
  }

  lemma SkipIsStep(w: World, spec: JobSpec, security: int, hy: Hierarchy, policy: Policy)
    requires Sound(w, hy) && ProperSpec(spec, hy) && spec.job.id in w.jobs
    requires MinStart(spec.deps, w.jobs, 0, -1) == Blocked
    ensures var id := spec.job.id;
            Stepped(Step(w, spec, security, hy, policy), false, w.(jobs := w.jobs[id := w.jobs[id].(start := -1)]))
  {
  }

  lemma NoHomeIsStep(w: World, spec: JobSpec, minStart: int, n: string, security: int, hy: Hierarchy, policy: Policy,
                     w': World)
    requires Sound(w, hy) && ProperSpec(spec, hy) && spec.job.id in w.jobs
    requires MinStart(spec.deps, w.jobs, 0, -1) == Until(minStart) && n !in w.sets
    requires n == if spec.inner.Some? then spec.inner.value else "default"
    ensures Stepped(Step(w, spec, security, hy, policy), true, w')
  {
  }

  lemma ReadyToPlace(w: World, spec: JobSpec, n: string, hy: Hierarchy)
    requires Sound(w, hy) && ProperSpec(spec, hy) && n in w.sets
    ensures SoundSet(w.sets[n], hy) && KnownJob(hy, spec.job)
  {
  }

  lemma WentIsStep(w: World, spec: JobSpec, minStart: int, n: string, security: int, hy: Hierarchy, policy: Policy,
                   failed: bool, after: SlotSetState, j: JobState)
    requires Sound(w, hy) && ProperSpec(spec, hy) && spec.job.id in w.jobs
    requires MinStart(spec.deps, w.jobs, 0, -1) == Until(minStart) && n in w.sets
    requires n == if spec.inner.Some? then spec.inner.value else "default"
    requires Went(w.sets[n], spec.job, minStart, hy, policy, w.jobs[spec.job.id], failed, after, j)
    ensures var sets := w.sets[n := after];
            var fails := failed || (spec.opens.Some? && j.walltime.None?);
            var others := if !fails && spec.opens.Some? then sets[spec.opens.value := Opened(j, security)] else sets;
            Stepped(Step(w, spec, security, hy, policy), fails, World(others, w.jobs[spec.job.id := j]))
  {
    hide Assign, CacheOk, Usable, Place;
  }

  /** The slot set of a container. */
  method NewSlotSet(job: JobRecord, security: int, policy: Policy) returns (s: SlotSet)
    requires job.walltime.Some?
    ensures job.State().walltime.Some?
    ensures fresh(s.Repr) && s in s.Repr && s.policy == policy && Backs(s, Opened(job.State(), security), policy)
  {
    var slot := new Slot(1, 0, job.res, job.start, job.start + job.walltime.value - security, map[], map[]);
    s := new SlotSet(slot, policy);
  }
}
