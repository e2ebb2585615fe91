/** What a scheduling pass writes into the records of its jobs: records and placements go one
    to one, no two records have a resource at the same time, and dependencies are kept.
 */
module Records {
  import opened Options
  import opened Requests
  import opened QuotaRules
  import opened Gantt
  import opened FirstFit
  import opened Assignment
  import opened Schedule
  import opened Runs

  // ------------------------------------------------------------------------ the job records

  /** The record says where the job was placed and which variant of it. */
  ghost predicate RecordOf(j: JobState, task: Task, spec: JobSpec) {
    && j.start == task.start && j.walltime == Some(task.walltime) && j.res == task.res
    && exists v :: v in spec.job.variants && v.mldId == j.mldId && Some(v.ask.walltime) == j.walltime
  }

  /** The record says that the job was not placed; a walltime the job came with stays. A job that
      dependencies keep back also keeps its resources and variant of before, any other has none. */
  predicate NotPlaced(j: JobState, before: JobState) {
    && j.start == -1 && j.walltime == before.walltime
    && ((j.res == before.res && j.mldId == before.mldId) || (j.res == {} && j.mldId == -1))
  }

  /** A step writes into the record of its own job only: where it was placed, or that it was
      not. */
  lemma RecordFollows(w: World, spec: JobSpec, security: int, hy: Hierarchy, policy: Policy, r: StepResult)
    requires Sound(w, hy) && ProperSpec(spec, hy) && spec.job.id in w.jobs
    requires r == Step(w, spec, security, hy, policy) && r.Next?
    ensures r.world.jobs.Keys == w.jobs.Keys
    ensures forall id :: id in w.jobs && id != spec.job.id ==> r.world.jobs[id] == w.jobs[id]
    ensures match r.entry
            case None =>
              var j, before := r.world.jobs[spec.job.id], w.jobs[spec.job.id];
              && NotPlaced(j, before)
              && (if MinStart(spec.deps, w.jobs, 0, -1) == Blocked then j.res == before.res && j.mldId == before.mldId
                  else j.res == {} && j.mldId == -1)
            case Some(e) => EntryOf(e, spec) && RecordOf(r.world.jobs[spec.job.id], e.task, spec)
  {
    hide Sound, Backed, Usable, CacheOk, KnownJob, Known, Assign, Place;
    var o := StepOutcome(w, spec, security, hy, policy, r);
    if o.Some? && o.value.Placed? {
      var best := o.value.best;
      var a, v :| FoundBy(w.sets[HomeOf(spec)].chart, a, v, spec, best, hy, policy);
      assert v in spec.job.variants && best.variant == v;
    }
  }

  ghost predicate DifferentJobs(specs: seq<JobSpec>) {
    forall j, k :: 0 <= j < k < |specs| ==> specs[j].job.id != specs[k].job.id
  }

  /** Entry `e` is about job `k` of the pass, and the job's record says so. */
  ghost predicate Books(e: Entry, specs: seq<JobSpec>, k: int, jobs: map<int, JobState>) {
    0 <= k < |specs| && EntryOf(e, specs[k]) && e.id in jobs && RecordOf(jobs[e.id], e.task, specs[k])
  }

  ghost predicate Booked(e: Entry, specs: seq<JobSpec>, jobs: map<int, JobState>) {
    exists k :: Books(e, specs, k, jobs)
  }

  ghost predicate Logged(log: seq<Entry>, id: int) {
    exists i :: 0 <= i < |log| && log[i].id == id
  }

  ghost predicate Unlogged(specs: seq<JobSpec>, before: map<int, JobState>, log: seq<Entry>, jobs: map<int, JobState>,
                           k: int)
    requires 0 <= k < |specs|
  {
    var id := specs[k].job.id;
    id in jobs && id in before && (!Logged(log, id) ==> NotPlaced(jobs[id], before[id]))
  }

  predicate Absent(specs: seq<JobSpec>, id: int) {
    forall k :: 0 <= k < |specs| ==> specs[k].job.id != id
  }

  /** Log and records go one to one: every entry is about one job of the pass, whose record has
      the place of the entry; no job has two entries; the record of a job without an entry says
      that it was not placed; and the records of other jobs are as before. */
  ghost predicate Ledger(specs: seq<JobSpec>, before: map<int, JobState>, log: seq<Entry>, jobs: map<int, JobState>) {
    && jobs.Keys == before.Keys
    && (forall i :: 0 <= i < |log| ==> Booked(log[i], specs, jobs))
    && (forall i, j :: 0 <= i < j < |log| ==> log[i].id != log[j].id)
    && (forall k :: 0 <= k < |specs| ==> Unlogged(specs, before, log, jobs, k))
    && (forall id :: id in jobs && Absent(specs, id) ==> jobs[id] == before[id])
  }

  /** What a step writes into the records. */
  ghost predicate Writes(jobs1: map<int, JobState>, spec: JobSpec, e: Option<Entry>, jobs: map<int, JobState>) {
    var id := spec.job.id;
    && id in jobs1 && jobs.Keys == jobs1.Keys && (forall x :: x in jobs1 && x != id ==> jobs[x] == jobs1[x])
    && match e
       case None => NotPlaced(jobs[id], jobs1[id])
       case Some(x) => EntryOf(x, spec) && RecordOf(jobs[id], x.task, spec)
  }

  lemma LedgerStep(specs: seq<JobSpec>, before: map<int, JobState>, log1: seq<Entry>, jobs1: map<int, JobState>,
                   e: Option<Entry>, jobs: map<int, JobState>, log: seq<Entry>)
    requires specs != [] && DifferentJobs(specs) && Ledger(specs[..|specs|-1], before, log1, jobs1)
    requires log == if e.Some? then log1 + [e.value] else log1
    requires Writes(jobs1, specs[|specs|-1], e, jobs)
    ensures Ledger(specs, before, log, jobs)
  {
    hide RecordOf, Books, Logged, Unlogged, Absent;
    var n := |specs| - 1;
    forall i | 0 <= i < |log| ensures (i < |log1| ==> log[i].id != specs[n].job.id) && Booked(log[i], specs, jobs) {
      if i < |log1| {
        assert Booked(log1[i], specs[..n], jobs1);
        var k :| Books(log1[i], specs[..n], k, jobs1);
        StillBooked(specs, k, log[i], jobs1, e, jobs);
      } else {
        NowBooked(specs, log[i], jobs1, jobs);
      }
    }
    assert e.Some? ==> log[|log1|].id == specs[n].job.id;
    AbsentLater(specs);
    assert jobs1[specs[n].job.id] == before[specs[n].job.id];
    forall k | 0 <= k < |specs| ensures Unlogged(specs, before, log, jobs, k) {
      if k < n {
        assert Unlogged(specs[..n], before, log1, jobs1, k);
      }
      StillUnlogged(specs, before, log1, jobs1, e, jobs, log, k);
    }
  }

  lemma StillBooked(specs: seq<JobSpec>, k: int, x: Entry, jobs1: map<int, JobState>, e: Option<Entry>,
                    jobs: map<int, JobState>)
    requires specs != [] && DifferentJobs(specs) && Writes(jobs1, specs[|specs|-1], e, jobs)
    requires Books(x, specs[..|specs|-1], k, jobs1)
    ensures x.id != specs[|specs|-1].job.id && Books(x, specs, k, jobs)
  {
    hide RecordOf;
  }

  lemma NowBooked(specs: seq<JobSpec>, x: Entry, jobs1: map<int, JobState>, jobs: map<int, JobState>)
    requires specs != [] && Writes(jobs1, specs[|specs|-1], Some(x), jobs)
    ensures x.id == specs[|specs|-1].job.id && Books(x, specs, |specs| - 1, jobs)
  {
    hide RecordOf;
  }

  lemma AbsentLater(specs: seq<JobSpec>)
    requires specs != [] && DifferentJobs(specs)
    ensures Absent(specs[..|specs|-1], specs[|specs|-1].job.id)
    ensures forall id :: Absent(specs, id) ==> Absent(specs[..|specs|-1], id) && id != specs[|specs|-1].job.id
  {
  }

  lemma StillUnlogged(specs: seq<JobSpec>, before: map<int, JobState>, log1: seq<Entry>, jobs1: map<int, JobState>,
                      e: Option<Entry>, jobs: map<int, JobState>, log: seq<Entry>, k: int)
    requires specs != [] && DifferentJobs(specs) && Writes(jobs1, specs[|specs|-1], e, jobs) && 0 <= k < |specs|
    requires log == if e.Some? then log1 + [e.value] else log1
    requires k < |specs| - 1 ==> Unlogged(specs[..|specs|-1], before, log1, jobs1, k)
    requires var id := specs[|specs|-1].job.id; id in before && jobs1[id] == before[id]
    ensures Unlogged(specs, before, log, jobs, k)
  {
    hide RecordOf;
    LoggedGrows(log1, log, specs[k].job.id);
    if k == |specs| - 1 && e.Some? {
      assert log[|log1|].id == specs[k].job.id;
    }
  }

  lemma LoggedGrows(log: seq<Entry>, log': seq<Entry>, id: int)
    requires log <= log'
    ensures Logged(log, id) ==> Logged(log', id)
  {
    if Logged(log, id) {
      var i :| 0 <= i < |log| && log[i].id == id;
      assert log'[i].id == id;
    }
  }

  /** After a pass over different jobs, log and records go one to one, and the records of all
      other jobs are as before. */
  lemma {:induction false} RecordsMatchLog(w: World, specs: seq<JobSpec>, security: int, hy: Hierarchy,
                                           policy: Policy, r: RunResult)
    requires ProperRun(w, specs, hy) && DifferentJobs(specs)
    requires r == Run(w, specs, security, hy, policy) && r.Finished?
    ensures Ledger(specs, w.jobs, r.log, r.world.jobs)
    decreases |specs|
  {
    hide *;
    if specs == [] {
      NothingRecorded(w, specs, security, hy, policy, r);
    } else {
      var n := |specs| - 1;
      var w1, log1, e := RunStep(w, specs, security, hy, policy, r);
      FewerJobs(specs);
      RecordsMatchLog(w, specs[..n], security, hy, policy, Finished(w1, log1));
      LastSpec(w, specs, hy);
      RecordFollows(w1, specs[n], security, hy, policy, Next(r.world, e));
      RecordsWritten(w1, specs[n], e, r.world);
      LedgerStep(specs, w.jobs, log1, w1.jobs, e, r.world.jobs, r.log);
    }
  }

  lemma RecordsWritten(w: World, spec: JobSpec, e: Option<Entry>, w': World)
    requires spec.job.id in w.jobs && w'.jobs.Keys == w.jobs.Keys
    requires forall id :: id in w.jobs && id != spec.job.id ==> w'.jobs[id] == w.jobs[id]
    requires match e
             case None => NotPlaced(w'.jobs[spec.job.id], w.jobs[spec.job.id])
             case Some(x) => EntryOf(x, spec) && RecordOf(w'.jobs[spec.job.id], x.task, spec)
    ensures Writes(w.jobs, spec, e, w'.jobs)
  {
  }

  lemma FewerJobs(specs: seq<JobSpec>)
    requires DifferentJobs(specs) && specs != []
    ensures DifferentJobs(specs[..|specs|-1])
  {
  }

  lemma NothingRecorded(w: World, specs: seq<JobSpec>, security: int, hy: Hierarchy, policy: Policy, r: RunResult)
    requires ProperRun(w, specs, hy) && specs == [] && r == Run(w, specs, security, hy, policy) && r.Finished?
    ensures Ledger(specs, w.jobs, r.log, r.world.jobs)
  {
  }

  lemma LastSpec(w: World, specs: seq<JobSpec>, hy: Hierarchy)
    requires ProperRun(w, specs, hy) && specs != []
    ensures ProperSpec(specs[|specs|-1], hy) && forall k :: 0 <= k < |specs| ==> specs[k].job.id in w.jobs
  {
  }

  /** The record says that the job holds resource `x` at `t`. */
  predicate Holds(j: JobState, x: int, t: int) {
    j.start != -1 && j.walltime.Some? && j.start <= t < j.start + j.walltime.value && x in j.res
  }

  /** After every pass over different jobs whose slot sets start apart, with a security time of
      at least one second: no two records of jobs that are no containers have a resource at the
      same instant. */
  lemma RecordsApart(w: World, specs: seq<JobSpec>, security: int, hy: Hierarchy, policy: Policy, r: RunResult,
                     j: nat, k: nat, x: int, t: int)
    requires ProperRun(w, specs, hy) && DifferentJobs(specs) && Apart(w) && security >= 1
    requires r == Run(w, specs, security, hy, policy) && r.Finished?
    requires j < k < |specs| && specs[j].opens.None? && specs[k].opens.None?
    ensures specs[j].job.id in r.world.jobs && specs[k].job.id in r.world.jobs
    ensures !(Holds(r.world.jobs[specs[j].job.id], x, t) && Holds(r.world.jobs[specs[k].job.id], x, t))
  {
    hide *;
    RecordsMatchLog(w, specs, security, hy, policy, r);
    NoDoubleBooking(w, specs, security, hy, policy, r);
    LedgerApart(specs, w.jobs, r.log, r.world.jobs, j, k, x, t);
  }

  lemma LedgerApart(specs: seq<JobSpec>, before: map<int, JobState>, log: seq<Entry>, jobs: map<int, JobState>,
                    j: nat, k: nat, x: int, t: int)
    requires DifferentJobs(specs) && Ledger(specs, before, log, jobs) && LeavesApart(log)
    requires j < k < |specs| && specs[j].opens.None? && specs[k].opens.None?
    ensures specs[j].job.id in jobs && specs[k].job.id in jobs
    ensures !(Holds(jobs[specs[j].job.id], x, t) && Holds(jobs[specs[k].job.id], x, t))
  {
    assert Unlogged(specs, before, log, jobs, j) && Unlogged(specs, before, log, jobs, k);
    var ja, jb := jobs[specs[j].job.id], jobs[specs[k].job.id];
    if Holds(ja, x, t) && Holds(jb, x, t) {
      var a := EntryFor(specs, before, log, jobs, j);
      var b := EntryFor(specs, before, log, jobs, k);
      HoldsAndShares(ja, jb, log[a].task, log[b].task, specs[j], specs[k], x, t);
      LeavesDoNotShare(log, a, b, t);
    }
  }

  lemma LeavesDoNotShare(log: seq<Entry>, a: nat, b: nat, t: int)
    requires LeavesApart(log) && a < |log| && b < |log| && a != b && Leaf(log[a]) && Leaf(log[b])
    ensures !(Shares(log[a].task, log[b].task, t) && Shares(log[b].task, log[a].task, t))
  {
    hide Shares;
  }

  lemma HoldsAndShares(ja: JobState, jb: JobState, a: Task, b: Task, sa: JobSpec, sb: JobSpec, x: int, t: int)
    requires RecordOf(ja, a, sa) && RecordOf(jb, b, sb) && Holds(ja, x, t) && Holds(jb, x, t)
    ensures Shares(a, b, t) && Shares(b, a, t)
  {
    assert x in a.res * b.res && x in b.res * a.res;
  }

  lemma EntryFor(specs: seq<JobSpec>, before: map<int, JobState>, log: seq<Entry>, jobs: map<int, JobState>, k: nat)
    returns (i: nat)
    requires DifferentJobs(specs) && Ledger(specs, before, log, jobs) && k < |specs|
    requires specs[k].job.id in jobs && (Logged(log, specs[k].job.id) || jobs[specs[k].job.id].start != -1)
    ensures i < |log| && log[i].id == specs[k].job.id && EntryOf(log[i], specs[k])
    ensures RecordOf(jobs[specs[k].job.id], log[i].task, specs[k])
  {
    assert Unlogged(specs, before, log, jobs, k);
    i :| 0 <= i < |log| && log[i].id == specs[k].job.id;
    assert Booked(log[i], specs, jobs);
    var h :| Books(log[i], specs, h, jobs);
    assert h == k;
  }

  // ---------------------------------------------------------- dependencies in a whole pass

  /** No slot set offers anything before the beginning of time. */
  ghost predicate NothingBeforeZero(w: World) {
    forall n, t :: n in w.sets && t < 0 ==> FreeIn(w, n, t) == {}
  }

  /** The job was placed before entry `b`, and stops before entry `b` starts. */
  predicate StopsBefore(log: seq<Entry>, id: int, b: nat)
    requires b < |log|
  {
    exists a :: 0 <= a < b && log[a].id == id && log[a].task.Last() < log[b].task.start
  }

  /** The record the job came with, or the mark that it was not placed in the pass, with the
      walltime it came with, is over by `start`. */
  predicate OverBy(specs: seq<JobSpec>, j: JobState, id: int, start: int) {
    && j.walltime.Some?
    && (j.start + j.walltime.value <= start || (!Absent(specs, id) && -1 + j.walltime.value <= start))
  }

  /** What a dependency of the job of entry `b` must be like: a job waited for was placed
      earlier in the pass and stops before; or it came with a walltime and was not placed
      earlier, and is over by the time that its record says. */
  predicate Met(d: Dep, specs: seq<JobSpec>, before: map<int, JobState>, log: seq<Entry>, b: nat)
    requires b < |log|
  {
    match d.state
    case DepWaiting =>
      d.job in before && (StopsBefore(log, d.job, b) || OverBy(specs, before[d.job], d.job, log[b].task.start))
    case DepTerminated => d.exitCode == 0
    case _ => false
  }

  ghost predicate AllMet(spec: JobSpec, specs: seq<JobSpec>, before: map<int, JobState>, log: seq<Entry>, b: nat)
    requires b < |log|
  {
    forall i :: 0 <= i < |spec.deps| ==> Met(spec.deps[i], specs, before, log, b)
  }

  /** The dependencies of all jobs that were placed. */
  ghost predicate InTime(specs: seq<JobSpec>, before: map<int, JobState>, log: seq<Entry>) {
    forall k, b :: 0 <= k < |specs| && 0 <= b < |log| && log[b].id == specs[k].job.id ==>
      AllMet(specs[k], specs, before, log, b)
  }

  lemma {:induction false} StartsAfterZero(w0: World, w: World, log: seq<Entry>, security: int, j: nat)
    requires InOrder(w0, w, log, security) && NothingBeforeZero(w0) && j < |log|
    ensures log[j].task.start >= 0
    decreases j
  {
    if log[j].home in w0.sets {
      hide LogFits, SetApart, Nested;
      assert log[j].task.Covers(log[j].task.start);
      assert log[j].task.res <= FreeIn(w0, log[j].home, log[j].task.start);
    } else {
      var i :| 0 <= i < j && log[i].opens == Some(log[j].home) && Inside(log[j].task, log[i].task, security);
      StartsAfterZero(w0, w, log, security, i);
    }
  }

  /** A job of the records that had no walltime before the pass and has one now was placed. */
  lemma PlacedBefore(specs: seq<JobSpec>, before: map<int, JobState>, log: seq<Entry>, jobs: map<int, JobState>,
                     id: int)
    returns (a: nat)
    requires DifferentJobs(specs) && Ledger(specs, before, log, jobs)
    requires id in jobs && before[id].walltime.None? && jobs[id].walltime.Some?
    ensures a < |log| && log[a].id == id
    ensures jobs[id].start == log[a].task.start && jobs[id].walltime == Some(log[a].task.walltime)
  {
    hide DifferentJobs;
    assert !Absent(specs, id);
    var k :| 0 <= k < |specs| && specs[k].job.id == id;
    assert Unlogged(specs, before, log, jobs, k);
    a := EntryFor(specs, before, log, jobs, k);
  }

  /** The entry of a job that was placed says what its record says. */
  lemma EntryOfJob(specs: seq<JobSpec>, before: map<int, JobState>, log: seq<Entry>, jobs: map<int, JobState>, id: int)
    returns (a: nat)
    requires Ledger(specs, before, log, jobs) && Logged(log, id)
    ensures a < |log| && log[a].id == id && id in jobs
    ensures jobs[id].start == log[a].task.start && jobs[id].walltime == Some(log[a].task.walltime)
  {
    a :| 0 <= a < |log| && log[a].id == id;
    assert Booked(log[a], specs, jobs);
    var k :| Books(log[a], specs, k, jobs);
  }

  /** The entry that a job has just been given meets the job's dependencies. */
  lemma NewMet(specs: seq<JobSpec>, before: map<int, JobState>, log1: seq<Entry>, jobs1: map<int, JobState>,
               spec: JobSpec,
               e: Entry, i: nat)
    requires DifferentJobs(specs) && Ledger(specs, before, log1, jobs1)
    requires i < |spec.deps| && !Blocks(spec.deps[i], jobs1) && e.task.start >= 0
    requires spec.deps[i].state == DepWaiting ==> Stops(spec.deps[i], jobs1)
    requires Stops(spec.deps[i], jobs1) ==> StopOf(spec.deps[i], jobs1) <= e.task.start
    ensures Met(spec.deps[i], specs, before, log1 + [e], |log1|)
  {
    hide DifferentJobs;
    var d := spec.deps[i];
    if d.state == DepWaiting {
      assert d.job in jobs1 && jobs1.Keys == before.Keys;
      if Logged(log1, d.job) {
        var a := EntryOfJob(specs, before, log1, jobs1, d.job);
        assert (log1 + [e])[a] == log1[a];
      } else if !Absent(specs, d.job) {
        var k :| 0 <= k < |specs| && specs[k].job.id == d.job;
        assert Unlogged(specs, before, log1, jobs1, k);
      }
    }
  }

  lemma StillMet(d: Dep, specs: seq<JobSpec>, before: map<int, JobState>, log1: seq<Entry>, log: seq<Entry>, b: nat)
    requires specs != [] && log1 <= log && b < |log1| && Met(d, specs[..|specs|-1], before, log1, b)
    ensures Met(d, specs, before, log, b)
  {
    if d.state == DepWaiting && !Absent(specs[..|specs|-1], d.job) {
      var k :| 0 <= k < |specs| - 1 && specs[..|specs|-1][k].job.id == d.job;
      assert specs[k].job.id == d.job;
    }
    if d.state == DepWaiting && StopsBefore(log1, d.job, b) {
      var a :| 0 <= a < b && log1[a].id == d.job && log1[a].task.Last() < log1[b].task.start;
      assert log[a] == log1[a] && log[b] == log1[b];
    }
  }

  lemma StillAllMet(spec: JobSpec, specs: seq<JobSpec>, before: map<int, JobState>, log: seq<Entry>, b: nat)
    requires specs != [] && b < |log| && AllMet(spec, specs[..|specs|-1], before, log, b)
    ensures AllMet(spec, specs, before, log, b)
  {
    hide Met;
    forall i | 0 <= i < |spec.deps| ensures Met(spec.deps[i], specs, before, log, b) {
      StillMet(spec.deps[i], specs, before, log, log, b);
    }
  }

  lemma NewAllMet(specs: seq<JobSpec>, before: map<int, JobState>, log1: seq<Entry>, jobs1: map<int, JobState>,
                  spec: JobSpec,
                  e: Entry)
    requires DifferentJobs(specs) && Ledger(specs, before, log1, jobs1) && e.task.start >= 0
    requires forall i :: 0 <= i < |spec.deps| ==> !Blocks(spec.deps[i], jobs1)
    requires forall i :: 0 <= i < |spec.deps| && spec.deps[i].state == DepWaiting ==> Stops(spec.deps[i], jobs1)
    requires e.task.start >= 0 ==>
      forall i :: 0 <= i < |spec.deps| && Stops(spec.deps[i], jobs1) ==> StopOf(spec.deps[i], jobs1) <= e.task.start
    ensures AllMet(spec, specs, before, log1 + [e], |log1|)
  {
    hide DifferentJobs, Ledger, Blocks, Stops, Met;
    forall i | 0 <= i < |spec.deps| ensures Met(spec.deps[i], specs, before, log1 + [e], |log1|) {
      NewMet(specs, before, log1, jobs1, spec, e, i);
    }
  }

  lemma InTimeStep(specs: seq<JobSpec>, before: map<int, JobState>, log1: seq<Entry>, jobs1: map<int, JobState>,
                   e: Option<Entry>, log: seq<Entry>)
    requires specs != [] && DifferentJobs(specs) && Ledger(specs[..|specs|-1], before, log1, jobs1)
    requires InTime(specs[..|specs|-1], before, log1)
    requires log == if e.Some? then log1 + [e.value] else log1
    requires e.Some? ==> e.value.id == specs[|specs|-1].job.id && AllMet(specs[|specs|-1], specs, before, log, |log1|)
    ensures InTime(specs, before, log)
  {
    hide Books, Unlogged, Absent, Met;
    var n := |specs| - 1;
    forall k, b | 0 <= k < |specs| && 0 <= b < |log| && log[b].id == specs[k].job.id
      ensures AllMet(specs[k], specs, before, log, b)
    {
      if b == |log1| {
        assert k == n;
      } else {
        OneOfThese(specs, before, log1, jobs1, b);
        assert specs[..n][k] == specs[k] && AllMet(specs[k], specs[..n], before, log1, b);
        forall i | 0 <= i < |specs[k].deps| ensures Met(specs[k].deps[i], specs, before, log, b) {
          StillMet(specs[k].deps[i], specs, before, log1, log, b);
        }
      }
    }
  }

  /** The entries of a shorter pass are not about the last job. */
  lemma OneOfThese(specs: seq<JobSpec>, before: map<int, JobState>, log1: seq<Entry>, jobs1: map<int, JobState>, b: nat)
    requires specs != [] && DifferentJobs(specs) && Ledger(specs[..|specs|-1], before, log1, jobs1) && b < |log1|
    ensures log1[b].id != specs[|specs|-1].job.id
  {
    assert Booked(log1[b], specs[..|specs|-1], jobs1);
    var h :| Books(log1[b], specs[..|specs|-1], h, jobs1);
    assert specs[h] == specs[..|specs|-1][h];
  }

  lemma LastStep(w: World, specs: seq<JobSpec>, security: int, hy: Hierarchy, policy: Policy, r: RunResult,
                 w1: World, log1: seq<Entry>, e: Entry)
    requires ProperRun(w, specs, hy) && DifferentJobs(specs) && NothingBeforeZero(w) && specs != []
    requires r == Run(w, specs, security, hy, policy) && r.Finished? && r.log == log1 + [e]
    requires Sound(w1, hy) && specs[|specs|-1].job.id in w1.jobs && ProperSpec(specs[|specs|-1], hy)
    requires Step(w1, specs[|specs|-1], security, hy, policy) == Next(r.world, Some(e))
    requires Ledger(specs[..|specs|-1], w.jobs, log1, w1.jobs)
    ensures AllMet(specs[|specs|-1], specs, w.jobs, r.log, |log1|)
  {
    hide *;
    var spec := specs[|specs|-1];
    AllAfterZero(w, specs, security, hy, policy, r, |log1|);
    DependenciesRespected(w1, spec, security, hy, policy, Next(r.world, Some(e)));
    FewerJobs(specs);
    NewAllMet(specs[..|specs|-1], w.jobs, log1, w1.jobs, spec, e);
    StillAllMet(spec, specs, w.jobs, r.log, |log1|);
  }

  lemma AllAfterZero(w: World, specs: seq<JobSpec>, security: int, hy: Hierarchy, policy: Policy, r: RunResult, j: nat)
    requires ProperRun(w, specs, hy) && NothingBeforeZero(w)
    requires r == Run(w, specs, security, hy, policy) && r.Finished? && j < |r.log|
    ensures r.log[j].task.start >= 0
  {
    hide ProperRun, Run, LogFits, SetApart, Nested, Rooted, NothingBeforeZero, Conserved;
    NothingLost(w, specs, security, hy, policy, r);
    AllRooted(w, specs, security, hy, policy, r);
    StartsAfterZero(w, r.world, r.log, security, j);
  }

  /** In every pass over different jobs, when nothing is on offer before the beginning of time:
      nothing a placed job depends on keeps it back; every job it waits for was placed earlier in
      the pass and stops before the job starts, or came with a walltime and is over by then, as
      its record said when the job was placed. */
  lemma {:induction false} DependenciesInPass(w: World, specs: seq<JobSpec>, security: int, hy: Hierarchy,
                                              policy: Policy, r: RunResult)
    requires ProperRun(w, specs, hy) && DifferentJobs(specs) && NothingBeforeZero(w)
    requires r == Run(w, specs, security, hy, policy) && r.Finished?
    ensures InTime(specs, w.jobs, r.log)
    decreases |specs|
  {
    hide *;
    if specs == [] {
      NobodyInTime(w.jobs, r.log);
    } else {
      var w1, log1, e := RunStep(w, specs, security, hy, policy, r);
      var init := specs[..|specs|-1];
      FewerJobs(specs);
      DependenciesInPass(w, init, security, hy, policy, Finished(w1, log1));
      RecordsMatchLog(w, init, security, hy, policy, Finished(w1, log1));
      LastSpec(w, specs, hy);
      if e.Some? {
        EntryId(e.value, specs[|specs|-1]);
        LastStep(w, specs, security, hy, policy, r, w1, log1, e.value);
      }
      InTimeStep(specs, w.jobs, log1, w1.jobs, e, r.log);
    }
  }

  lemma EntryId(e: Entry, spec: JobSpec)
    requires EntryOf(e, spec)
    ensures e.id == spec.job.id
  {
  }

  lemma NobodyInTime(before: map<int, JobState>, log: seq<Entry>)
    ensures InTime([], before, log)
  {
  }
}
