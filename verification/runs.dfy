/** What holds after every scheduling pass: no resource is used twice, nothing is lost,
    inner jobs stay inside their containers.
 */
module Runs {
  import opened Options
  import opened Requests
  import opened QuotaRules
  import opened Gantt
  import opened Assignment
  import opened Schedule

  // --------------------------------------------------------------- no resource used twice

  ghost function FreeIn(w: World, n: string, t: int): set<int>
    requires n in w.sets
  {
    FreeAt(w.sets[n].chart, t)
  }

  /** No resource is free in two slot sets at one instant. */
  ghost predicate Apart(w: World) {
    forall n, m, t :: n in w.sets && m in w.sets && n != m ==> FreeIn(w, n, t) !! FreeIn(w, m, t)
  }

  /** A job that opens no slot set holds its resources for itself. */
  predicate Leaf(e: Entry) {
    e.opens.None?
  }

  predicate Shares(a: Task, b: Task, t: int) {
    a.Covers(t) && b.Covers(t) && a.res * b.res != {}
  }

  /** What a leaf job holds is free nowhere while it holds it. */
  ghost predicate HeldOnce(w: World, log: seq<Entry>) {
    forall i, n, t :: 0 <= i < |log| && Leaf(log[i]) && n in w.sets && log[i].task.Covers(t) ==>
      log[i].task.res !! FreeIn(w, n, t)
  }

  ghost predicate LeavesApart(log: seq<Entry>) {
    forall i, j, t :: 0 <= i < j < |log| && Leaf(log[i]) && Leaf(log[j]) ==> !Shares(log[i].task, log[j].task, t)
  }

  /** What one step can leave free in a slot set. A new slot set only offers, with a security
      time of at least one second, what the job that opened it has just taken elsewhere. */
  lemma FreeAfterStep(w: World, w': World, e: Option<Entry>, security: int, policy: Policy, n: string, t: int)
    requires Effect(w, w', e, security, policy) && n in w'.sets
    ensures n in w.sets ==>
      FreeIn(w', n, t)
      == FreeIn(w, n, t) - (if e.Some? && e.value.home == n && e.value.task.Covers(t) then e.value.task.res else {})
    ensures n !in w.sets ==> FreeIn(w', n, t) == OpenedFree(e, n, security, t)
    ensures n !in w.sets && security >= 1 && FreeIn(w', n, t) != {} ==>
      e.Some? && e.value.task.Covers(t) && FreeIn(w', n, t) == e.value.task.res <= FreeIn(w, e.value.home, t)
  {
  }

  lemma StepApart(w: World, w': World, e: Option<Entry>, security: int, policy: Policy)
    requires Effect(w, w', e, security, policy) && security >= 1
    requires w.sets.Keys <= w'.sets.Keys
    requires Apart(w)
    ensures Apart(w')
  {
    forall n, m, t | n in w'.sets && m in w'.sets && n != m ensures FreeIn(w', n, t) !! FreeIn(w', m, t) {
      FreeAfterStep(w, w', e, security, policy, n, t);
      FreeAfterStep(w, w', e, security, policy, m, t);
    }
  }

  lemma StepHeldOnce(w: World, w': World, log: seq<Entry>, e: Option<Entry>, security: int, policy: Policy)
    requires Effect(w, w', e, security, policy) && security >= 1
    requires Apart(w) && HeldOnce(w, log)
    ensures HeldOnce(w', if e.Some? then log + [e.value] else log)
  {
    var log' := if e.Some? then log + [e.value] else log;
    forall i, n, t | 0 <= i < |log'| && Leaf(log'[i]) && n in w'.sets && log'[i].task.Covers(t)
      ensures log'[i].task.res !! FreeIn(w', n, t)
    {
      FreeAfterStep(w, w', e, security, policy, n, t);
    }
  }

  lemma StepLeavesApart(w: World, w': World, log: seq<Entry>, e: Entry, security: int, policy: Policy)
    requires Effect(w, w', Some(e), security, policy)
    requires HeldOnce(w, log) && LeavesApart(log)
    ensures LeavesApart(log + [e])
  {
    var log' := log + [e];
    forall i, j, t | 0 <= i < j < |log'| && Leaf(log'[i]) && Leaf(log'[j])
      ensures !Shares(log'[i].task, log'[j].task, t)
    {
      assert log'[i] == log[i];
      if j == |log| && e.task.Covers(t) && log[i].task.Covers(t) {
        assert log[i].task.res !! FreeIn(w, e.home, t);
      }
    }
  }

  /** The slot set of a container offers only what the container holds, and only while it holds
      it, exactly when the security time is at least one second, or the container is empty or
      shorter than the security time. Without a security time the last instant offered is the
      one after the container ends. */
  lemma OpenedStaysInside(j: JobState, security: int, hy: Hierarchy)
    requires j.walltime.Some?
    ensures (forall t :: FreeAt(Opened(j, security).chart, t) <= HeldBy(j.start, j.walltime.value, j.res, t))
       <==> security >= 1 || j.res == {} || j.walltime.value < security
  {
    OpenEffect(j, security, hy);
    var last := j.start + j.walltime.value - security;
    if security < 1 && j.walltime.value >= security {
      assert FreeAt(Opened(j, security).chart, last) == j.res;
    }
  }

  function HeldBy(start: int, walltime: int, res: set<int>, t: int): set<int> {
    if start <= t < start + walltime then res else {}
  }

  /** In every pass whose slot sets start apart, with a security time of at least one second:
      no resource is ever free in two slot sets at one instant, none is free where a job
      that is no container already holds it, and no two such jobs, whatever slot sets and
      containers they were placed in, hold a resource at the same instant. */
  lemma {:induction false} NoDoubleBooking(w: World, specs: seq<JobSpec>, security: int, hy: Hierarchy,
                                           policy: Policy, r: RunResult)
    requires ProperRun(w, specs, hy) && Apart(w) && security >= 1
    requires r == Run(w, specs, security, hy, policy) && r.Finished?
    ensures Apart(r.world) && HeldOnce(r.world, r.log) && LeavesApart(r.log)
    decreases |specs|
  {
    if specs != [] {
      var w1, log1, e := RunStep(w, specs, security, hy, policy, r);
      NoDoubleBooking(w, specs[..|specs|-1], security, hy, policy, Finished(w1, log1));
      RunKeys(w1, specs, security, hy, policy, r.world, e);
      StepApart(w1, r.world, e, security, policy);
      StepHeldOnce(w1, r.world, log1, e, security, policy);
      if e.Some? {
        StepLeavesApart(w1, r.world, log1, e.value, security, policy);
      }
    }
  }

  lemma RunKeys(w1: World, specs: seq<JobSpec>, security: int, hy: Hierarchy, policy: Policy, w': World,
                e: Option<Entry>)
    requires Effect(w1, w', e, security, policy)
    ensures w1.sets.Keys <= w'.sets.Keys
  {
    forall n | n in w1.sets ensures n in w'.sets {
      assert e.Some? && n == e.value.home ==> n in w'.sets;
    }
  }

  // ------------------------------------------------------------------------ conservation

  /** What slot set `n` has to offer at `t`: what it began with, or what opened it. */
  ghost function Offered(w0: World, log: seq<Entry>, n: string, security: int, t: int): set<int> {
    if log == [] then (if n in w0.sets then FreeIn(w0, n, t) else {})
    else Offered(w0, log[..|log|-1], n, security, t) + OpenedFree(Some(log[|log|-1]), n, security, t)
  }

  /** What the jobs placed in slot set `n` hold at `t`. */
  ghost function Held(log: seq<Entry>, n: string, t: int): set<int> {
    if log == [] then {}
    else
      var e := log[|log|-1];
      Held(log[..|log|-1], n, t) + (if e.home == n && e.task.Covers(t) then e.task.res else {})
  }

  /** All slot sets that the log speaks of exist, and no two entries open the same one. */
  ghost predicate LogFits(w0: World, w: World, log: seq<Entry>) {
    && w0.sets.Keys <= w.sets.Keys
    && (forall i :: 0 <= i < |log| ==> log[i].home in w.sets)
    && (forall i :: 0 <= i < |log| && log[i].opens.Some? ==>
          log[i].opens.value in w.sets && log[i].opens.value !in w0.sets)
    && (forall i, j :: 0 <= i < j < |log| && log[i].opens.Some? ==> log[i].opens != log[j].opens)
  }

  ghost predicate Conserved(w0: World, w: World, log: seq<Entry>, security: int) {
    forall n, t :: n in w.sets ==> FreeIn(w, n, t) == Offered(w0, log, n, security, t) - Held(log, n, t)
  }

  /** Two jobs of one slot set, containers included, hold nothing in common. */
  ghost predicate SetApart(log: seq<Entry>) {
    forall i, j, t :: 0 <= i < j < |log| && log[i].home == log[j].home ==> !Shares(log[i].task, log[j].task, t)
  }

  /** A job of a slot set opened during the pass stays inside the time and the resources of
      the container that opened it, less the security time. */
  ghost predicate Inside(inner: Task, container: Task, security: int) {
    && inner.res <= container.res
    && container.start <= inner.start
    && inner.Last() <= container.start + container.walltime - security
  }

  ghost predicate Nested(w0: World, log: seq<Entry>, security: int) {
    forall j :: 0 <= j < |log| && log[j].home !in w0.sets ==>
      exists i :: 0 <= i < j && log[i].opens == Some(log[j].home) && Inside(log[j].task, log[i].task, security)
  }

  lemma {:induction false} UnknownSet(w0: World, w: World, log: seq<Entry>, n: string, security: int, t: int)
    requires LogFits(w0, w, log) && n !in w.sets
    ensures Offered(w0, log, n, security, t) == {} && Held(log, n, t) == {}
    decreases |log|
  {
    if log != [] {
      var init := log[..|log|-1];
      assert LogFits(w0, w, init);
      UnknownSet(w0, w, init, n, security, t);
      assert log[|log|-1].home in w.sets;
    }
  }

  lemma StepConserved(w0: World, w: World, w': World, log: seq<Entry>, e: Option<Entry>, security: int, policy: Policy)
    requires Effect(w, w', e, security, policy) && LogFits(w0, w, log) && Conserved(w0, w, log, security)
    ensures Conserved(w0, w', if e.Some? then log + [e.value] else log, security)
  {
    var log' := if e.Some? then log + [e.value] else log;
    forall n, t | n in w'.sets ensures FreeIn(w', n, t) == Offered(w0, log', n, security, t) - Held(log', n, t) {
      FreeAfterStep(w, w', e, security, policy, n, t);
      if n !in w.sets {
        UnknownSet(w0, w, log, n, security, t);
      }
      if e.Some? {
        assert log'[..|log'|-1] == log;
        assert n in w.sets ==> OpenedFree(e, n, security, t) == {};
      }
    }
  }

  lemma StepLogFits(w0: World, w: World, w': World, log: seq<Entry>, e: Option<Entry>, security: int, policy: Policy)
    requires Effect(w, w', e, security, policy) && LogFits(w0, w, log) && w.sets.Keys <= w'.sets.Keys
    ensures LogFits(w0, w', if e.Some? then log + [e.value] else log)
  {
  }

  lemma {:induction false} HeldAtLeast(log: seq<Entry>, i: nat, n: string, t: int)
    requires i < |log| && log[i].home == n && log[i].task.Covers(t)
    ensures log[i].task.res <= Held(log, n, t)
    decreases |log|
  {
    if i < |log| - 1 {
      assert log[..|log|-1][i] == log[i];
      HeldAtLeast(log[..|log|-1], i, n, t);
    }
  }

  lemma StepSetApart(w0: World, w: World, w': World, log: seq<Entry>, e: Entry, security: int, policy: Policy)
    requires Effect(w, w', Some(e), security, policy) && Conserved(w0, w, log, security) && SetApart(log)
    ensures SetApart(log + [e])
  {
    var log' := log + [e];
    forall i, j, t | 0 <= i < j < |log'| && log'[i].home == log'[j].home
      ensures !Shares(log'[i].task, log'[j].task, t)
    {
      assert log'[i] == log[i];
      if j == |log| && e.task.Covers(t) && log[i].task.Covers(t) {
        HeldAtLeast(log, i, e.home, t);
        assert e.task.res <= FreeIn(w, e.home, t);
      }
    }
  }

  /** Whatever an opened slot set offers comes from the one entry that opened it. */
  lemma {:induction false} OfferedBy(w0: World, w: World, log: seq<Entry>, n: string, security: int, t: int,
                                     x: int) returns (i: nat)
    requires LogFits(w0, w, log) && n !in w0.sets && x in Offered(w0, log, n, security, t)
    ensures i < |log| && log[i].opens == Some(n) && x in OpenedFree(Some(log[i]), n, security, t)
    decreases |log|
  {
    var init := log[..|log|-1];
    if x in OpenedFree(Some(log[|log|-1]), n, security, t) {
      i := |log| - 1;
    } else {
      assert LogFits(w0, w, init);
      i := OfferedBy(w0, w, init, n, security, t, x);
    }
  }

  lemma StepNested(w0: World, w: World, w': World, log: seq<Entry>, e: Entry, security: int, policy: Policy)
    requires Effect(w, w', Some(e), security, policy)
    requires LogFits(w0, w, log) && Conserved(w0, w, log, security) && Nested(w0, log, security)
    ensures Nested(w0, log + [e], security)
  {
    var log' := log + [e];
    forall j | 0 <= j < |log'| && log'[j].home !in w0.sets
      ensures exists i ::
                0 <= i < j && log'[i].opens == Some(log'[j].home) && Inside(log'[j].task, log'[i].task, security)
    {
      if j == |log| {
        var i := OpenerOf(w0, w, log, e, security, policy, w');
        assert log'[i] == log[i];
      } else {
        var i :| 0 <= i < j && log[i].opens == Some(log[j].home) && Inside(log[j].task, log[i].task, security);
        assert log'[i] == log[i];
      }
    }
  }

  lemma OpenerOf(w0: World, w: World, log: seq<Entry>, e: Entry, security: int, policy: Policy, w': World)
    returns (i: nat)
    requires Effect(w, w', Some(e), security, policy) && e.home !in w0.sets
    requires LogFits(w0, w, log) && Conserved(w0, w, log, security)
    ensures i < |log| && log[i].opens == Some(e.home) && Inside(e.task, log[i].task, security)
  {
    var n := e.home;
    var x := Member(e.task.res);
    assert e.task.Covers(e.task.start) && e.task.Covers(e.task.Last());
    assert x in FreeIn(w, n, e.task.start);
    i := OfferedBy(w0, w, log, n, security, e.task.start, x);
    forall y, t | y in e.task.res && e.task.Covers(t)
      ensures y in log[i].task.res && log[i].task.start <= t <= log[i].task.start + log[i].task.walltime - security
    {
      assert y in FreeIn(w, n, t);
      var k := OfferedBy(w0, w, log, n, security, t, y);
      assert k == i;
    }
  }

  /** After every pass, at every instant, each slot set has free exactly what it had to offer
      less what its jobs hold; the jobs of one slot set hold nothing in common; and every job
      of a slot set opened during the pass stays inside the container that opened it. */
  lemma {:induction false} NothingLost(w: World, specs: seq<JobSpec>, security: int, hy: Hierarchy, policy: Policy,
                                       r: RunResult)
    requires ProperRun(w, specs, hy)
    requires r == Run(w, specs, security, hy, policy) && r.Finished?
    ensures LogFits(w, r.world, r.log) && Conserved(w, r.world, r.log, security)
    ensures SetApart(r.log) && Nested(w, r.log, security)
    decreases |specs|
  {
    if specs != [] {
      var w1, log1, e := RunStep(w, specs, security, hy, policy, r);
      NothingLost(w, specs[..|specs|-1], security, hy, policy, Finished(w1, log1));
      RunKeys(w1, specs, security, hy, policy, r.world, e);
      StepLogFits(w, w1, r.world, log1, e, security, policy);
      StepConserved(w, w1, r.world, log1, e, security, policy);
      if e.Some? {
        StepSetApart(w, w1, r.world, log1, e.value, security, policy);
        StepNested(w, w1, r.world, log1, e.value, security, policy);
      }
    }
  }

  // ---------------------------------------------------------------- sharing means nesting

  /** Entry `k` opened the slot set that entry `j` was placed in. */
  predicate OpenedFor(log: seq<Entry>, k: nat, j: nat)
    requires k < |log| && j < |log|
  {
    log[k].opens == Some(log[j].home)
  }

  /** Entry `i` opened the slot set of entry `j`, or that of an entry that did, and so on. */
  ghost predicate Encloses(log: seq<Entry>, i: nat, j: nat)
    requires i < |log| && j < |log|
    decreases j
  {
    exists k: nat :: k < j && OpenedFor(log, k, j) && (k == i || Encloses(log, i, k))
  }

  ghost predicate Within(inner: Task, outer: Task) {
    inner.res <= outer.res && outer.start <= inner.start && inner.Last() <= outer.Last()
  }

  /** A job takes something for some time, and in a slot set of the beginning only what was
      free there in the beginning. */
  ghost predicate Rooted(w0: World, log: seq<Entry>) {
    && (forall j :: 0 <= j < |log| ==> log[j].task.res != {} && log[j].task.walltime >= 1)
    && forall j, t :: 0 <= j < |log| && log[j].home in w0.sets && log[j].task.Covers(t) ==>
      log[j].task.res <= FreeIn(w0, log[j].home, t)
  }

  lemma {:induction false} OfferedOld(w0: World, w: World, log: seq<Entry>, n: string, security: int, t: int)
    requires LogFits(w0, w, log) && n in w0.sets
    ensures Offered(w0, log, n, security, t) == FreeIn(w0, n, t)
    decreases |log|
  {
    if log != [] {
      assert LogFits(w0, w, log[..|log|-1]);
      OfferedOld(w0, w, log[..|log|-1], n, security, t);
      assert log[|log|-1].opens != Some(n);
    }
  }

  lemma StepRooted(w0: World, w: World, w': World, log: seq<Entry>, e: Entry, security: int, policy: Policy)
    requires Effect(w, w', Some(e), security, policy)
    requires LogFits(w0, w, log) && Conserved(w0, w, log, security) && Rooted(w0, log)
    ensures Rooted(w0, log + [e])
  {
    var log' := log + [e];
    forall j, t | 0 <= j < |log'| && log'[j].home in w0.sets && log'[j].task.Covers(t)
      ensures log'[j].task.res <= FreeIn(w0, log'[j].home, t)
    {
      if j == |log| {
        OfferedOld(w0, w, log, e.home, security, t);
        assert e.task.res <= FreeIn(w, e.home, t);
      } else {
        assert log'[j] == log[j];
      }
    }
  }

  lemma {:induction false} AllRooted(w: World, specs: seq<JobSpec>, security: int, hy: Hierarchy, policy: Policy,
                                     r: RunResult)
    requires ProperRun(w, specs, hy)
    requires r == Run(w, specs, security, hy, policy) && r.Finished?
    ensures Rooted(w, r.log)
    decreases |specs|
  {
    if specs != [] {
      var w1, log1, e := RunStep(w, specs, security, hy, policy, r);
      AllRooted(w, specs[..|specs|-1], security, hy, policy, Finished(w1, log1));
      NothingLost(w, specs[..|specs|-1], security, hy, policy, Finished(w1, log1));
      if e.Some? {
        StepRooted(w, w1, r.world, log1, e.value, security, policy);
      }
    }
  }

  /** What is known of a log after a pass. */
  ghost predicate InOrder(w0: World, w: World, log: seq<Entry>, security: int) {
    LogFits(w0, w, log) && SetApart(log) && Nested(w0, log, security) && Rooted(w0, log)
  }

  lemma OpenerEncloses(w0: World, w: World, log: seq<Entry>, security: int, k: nat, j: nat)
    requires InOrder(w0, w, log, security) && security >= 1
    requires k < |log| && j < |log| && OpenedFor(log, k, j)
    ensures log[j].home !in w0.sets && k < j && Within(log[j].task, log[k].task)
  {
    var i :| 0 <= i < j && log[i].opens == Some(log[j].home) && Inside(log[j].task, log[i].task, security);
    assert i == k;
  }

  /** The entry next below `k` on the way down to `i`. */
  lemma {:induction false} NextBelow(w0: World, w: World, log: seq<Entry>, security: int, k: nat, i: nat)
    returns (m: nat)
    requires InOrder(w0, w, log, security) && security >= 1
    requires k < |log| && i < |log| && Encloses(log, k, i)
    ensures m <= i && OpenedFor(log, k, m) && Within(log[i].task, log[m].task)
    decreases i
  {
    var h: nat :| h < i && OpenedFor(log, h, i) && (h == k || Encloses(log, k, h));
    if h == k {
      m := i;
    } else {
      m := NextBelow(w0, w, log, security, k, h);
      OpenerEncloses(w0, w, log, security, h, i);
    }
  }

  /** The entry that opened the slot set of entry `j` holds all that `j` holds. */
  lemma Opener(w0: World, w: World, log: seq<Entry>, security: int, j: nat) returns (k: nat)
    requires InOrder(w0, w, log, security) && security >= 1 && j < |log| && log[j].home !in w0.sets
    ensures k < j && OpenedFor(log, k, j) && Within(log[j].task, log[k].task)
  {
    k :| 0 <= k < j && log[k].opens == Some(log[j].home) && Inside(log[j].task, log[k].task, security);
  }

  lemma StillShares(a: Task, b: Task, c: Task, t: int)
    requires (Shares(a, b, t) || Shares(b, a, t)) && Within(b, c)
    ensures Shares(a, c, t) && Shares(c, a, t) && Shares(b, a, t)
  {
    assert a.res * b.res == b.res * a.res <= a.res * c.res == c.res * a.res;
  }

  lemma SameSet(w0: World, w: World, log: seq<Entry>, security: int, i: nat, j: nat, t: int)
    requires InOrder(w0, w, log, security)
    requires i < |log| && j < |log| && i != j && log[i].home == log[j].home
    ensures !Shares(log[i].task, log[j].task, t)
  {
    hide LogFits, Nested, Rooted;
    if j < i {
      assert !Shares(log[j].task, log[i].task, t);
      assert log[i].task.res * log[j].task.res == log[j].task.res * log[i].task.res;
    }
  }

  /** Two different old slot sets that start apart have no jobs that share anything. */
  lemma OldSets(w0: World, w: World, log: seq<Entry>, security: int, i: nat, j: nat, t: int)
    requires Apart(w0) && InOrder(w0, w, log, security)
    requires i < j < |log| && log[i].home in w0.sets && log[j].home in w0.sets
    ensures !Shares(log[i].task, log[j].task, t)
  {
    if log[i].home == log[j].home {
      SameSet(w0, w, log, security, i, j, t);
    } else if log[i].task.Covers(t) && log[j].task.Covers(t) {
      assert log[i].task.res <= FreeIn(w0, log[i].home, t) && log[j].task.res <= FreeIn(w0, log[j].home, t);
    }
  }

  lemma {:induction false} SharingEncloses(w0: World, w: World, log: seq<Entry>, security: int, i: nat, j: nat, t: int)
    requires Apart(w0) && InOrder(w0, w, log, security) && security >= 1
    requires i < j < |log| && Shares(log[i].task, log[j].task, t)
    ensures Encloses(log, i, j)
    decreases i + j
  {
    hide Apart, InOrder, Shares, Within;
    if log[j].home !in w0.sets {
      var k := Opener(w0, w, log, security, j);
      StillShares(log[i].task, log[j].task, log[k].task, t);
      if i < k {
        SharingEncloses(w0, w, log, security, i, k, t);
      } else if k < i {
        SharingEncloses(w0, w, log, security, k, i, t);
        var m := NextBelow(w0, w, log, security, k, i);
        StillShares(log[j].task, log[i].task, log[m].task, t);
        SameSet(w0, w, log, security, m, j, t);
      }
    } else if log[i].home !in w0.sets {
      var k := Opener(w0, w, log, security, i);
      StillShares(log[j].task, log[i].task, log[k].task, t);
      SharingEncloses(w0, w, log, security, k, j, t);
      var h: nat :| h < j && OpenedFor(log, h, j);
      OpenerEncloses(w0, w, log, security, h, j);
    } else {
      OldSets(w0, w, log, security, i, j, t);
    }
  }

  lemma {:induction false} EnclosedIsWithin(w0: World, w: World, log: seq<Entry>, security: int, i: nat, j: nat)
    requires InOrder(w0, w, log, security) && security >= 1
    requires i < |log| && j < |log| && Encloses(log, i, j)
    ensures Within(log[j].task, log[i].task)
    decreases j
  {
    hide InOrder;
    var k: nat :| k < j && OpenedFor(log, k, j) && (k == i || Encloses(log, i, k));
    OpenerEncloses(w0, w, log, security, k, j);
    if k != i {
      EnclosedIsWithin(w0, w, log, security, i, k);
    }
  }

  lemma EnclosingShares(w0: World, w: World, log: seq<Entry>, security: int, i: nat, j: nat)
    requires InOrder(w0, w, log, security) && security >= 1
    requires i < |log| && j < |log| && Encloses(log, i, j)
    ensures Shares(log[i].task, log[j].task, log[j].task.start)
  {
    hide Encloses, LogFits, SetApart, Nested;
    EnclosedIsWithin(w0, w, log, security, i, j);
    assert log[i].task.res * log[j].task.res == log[j].task.res;
  }

  /** In every pass whose slot sets start apart, with a security time of at least one second:
      two jobs, containers included, hold a resource at the same instant exactly if the earlier
      one is a container that the later one is in, at some depth. */
  lemma SharingIsNesting(w: World, specs: seq<JobSpec>, security: int, hy: Hierarchy, policy: Policy, r: RunResult)
    requires ProperRun(w, specs, hy) && Apart(w) && security >= 1
    requires r == Run(w, specs, security, hy, policy) && r.Finished?
    ensures forall i: nat, j: nat :: i < j < |r.log| ==>
              (Encloses(r.log, i, j) <==> exists t :: Shares(r.log[i].task, r.log[j].task, t))
  {
    hide Apart, ProperRun, Run, SetApart, Nested, Rooted, LogFits, Shares;
    NothingLost(w, specs, security, hy, policy, r);
    AllRooted(w, specs, security, hy, policy, r);
    forall i: nat, j: nat | i < j < |r.log|
      ensures Encloses(r.log, i, j) <==> exists t :: Shares(r.log[i].task, r.log[j].task, t)
    {
      if t :| Shares(r.log[i].task, r.log[j].task, t) {
        SharingEncloses(w, r.world, r.log, security, i, j, t);
      }
      if Encloses(r.log, i, j) {
        EnclosingShares(w, r.world, r.log, security, i, j);
      }
    }
  }

  // ------------------------------------------------------------------------ dependencies

  /** The dependency keeps the job from being scheduled in this pass. */
  predicate Blocks(d: Dep, jobs: map<int, JobState>) {
    match d.state
    case DepError => true
    case DepWaiting => d.job !in jobs
    case DepTerminated => d.exitCode != 0
    case DepOther => true
  }

  /** The job waited for is one of the pass, but has no walltime: it was not placed. */
  predicate Endless(d: Dep, jobs: map<int, JobState>) {
    d.state == DepWaiting && d.job in jobs && jobs[d.job].walltime.None?
  }

  /** The job waited for has a start and a walltime. */
  predicate Stops(d: Dep, jobs: map<int, JobState>) {
    d.state == DepWaiting && d.job in jobs && jobs[d.job].walltime.Some?
  }

  function StopOf(d: Dep, jobs: map<int, JobState>): int
    requires Stops(d, jobs)
  {
    jobs[d.job].start + jobs[d.job].walltime.value
  }

  /** Of the dependencies from `k` on, `i` is the first that ends the reading. */
  predicate EndsAt(deps: seq<Dep>, jobs: map<int, JobState>, k: nat, i: int) {
    && k <= i < |deps| && (Blocks(deps[i], jobs) || Endless(deps[i], jobs))
    && forall h :: k <= h < i ==> !Blocks(deps[h], jobs) && !Endless(deps[h], jobs)
  }

  /** What reading dependencies comes to: the first one that blocks or has no walltime decides;
      without any, the job may start when the last of those it waits for has stopped. */
  lemma {:induction false} MinStartBounds(deps: seq<Dep>, jobs: map<int, JobState>, k: nat, soFar: int)
    requires k <= |deps|
    ensures var m := MinStart(deps, jobs, k, soFar);
            && (m.NoStop? <==> exists i :: EndsAt(deps, jobs, k, i) && Endless(deps[i], jobs))
            && (m.Blocked? <==> exists i :: EndsAt(deps, jobs, k, i) && Blocks(deps[i], jobs))
            && (m.Until? ==> m.start >= soFar)
            && (m.Until? ==> forall i :: k <= i < |deps| ==> !Blocks(deps[i], jobs) && !Endless(deps[i], jobs))
            && (m.Until? ==> forall i :: k <= i < |deps| && Stops(deps[i], jobs) ==> m.start >= StopOf(deps[i], jobs))
            && (m.Until? ==>
                  m.start == soFar
                  || exists i :: k <= i < |deps| && Stops(deps[i], jobs) && m.start == StopOf(deps[i], jobs))
    decreases |deps| - k
  {
    if k < |deps| {
      if Blocks(deps[k], jobs) || Endless(deps[k], jobs) {
        assert EndsAt(deps, jobs, k, k);
      } else {
        var next := if deps[k].state == DepWaiting then Max(soFar, StopOf(deps[k], jobs)) else soFar;
        MinStartBounds(deps, jobs, k + 1, next);
        EndsLater(deps, jobs, k);
      }
    }
  }

  lemma EndsLater(deps: seq<Dep>, jobs: map<int, JobState>, k: nat)
    requires k < |deps| && !Blocks(deps[k], jobs) && !Endless(deps[k], jobs)
    ensures forall i :: EndsAt(deps, jobs, k, i) <==> EndsAt(deps, jobs, k + 1, i)
  {
  }

  lemma AssignStartsLate(s: SlotSetState, spec: JobSpec, minStart: int, hy: Hierarchy, policy: Policy, o: Outcome)
    requires SoundSet(s, hy) && ProperSpec(spec, hy)
    requires o == Assign(s.chart, s.cache, spec.job, minStart, hy, policy)
    ensures o.Placed? && minStart >= 0 ==> o.best.start >= minStart
  {
    if o.Placed? {
      var a, v := AssignFinds(s.chart, s.cache, spec.job, minStart, hy, policy, o);
      PlainIsBacked(s.chart, v.ask, spec.job.who, minStart, hy, policy, a);
    }
  }

  /** A job is placed only when nothing it depends on failed and each job it waits for has a
      walltime; it starts no earlier than each job it waits for stops. */
  lemma DependenciesRespected(w: World, spec: JobSpec, security: int, hy: Hierarchy, policy: Policy, r: StepResult)
    requires Sound(w, hy) && ProperSpec(spec, hy) && spec.job.id in w.jobs
    requires r == Step(w, spec, security, hy, policy) && r.Next? && r.entry.Some?
    ensures forall i :: 0 <= i < |spec.deps| ==> !Blocks(spec.deps[i], w.jobs)
    ensures forall i :: 0 <= i < |spec.deps| && spec.deps[i].state == DepWaiting ==> Stops(spec.deps[i], w.jobs)
    ensures r.entry.value.task.start >= 0 ==>
      forall i :: 0 <= i < |spec.deps| && Stops(spec.deps[i], w.jobs) ==>
        StopOf(spec.deps[i], w.jobs) <= r.entry.value.task.start
  {
    hide Sound, ProperSpec, Assign;
    MinStartBounds(spec.deps, w.jobs, 0, -1);
    var m := MinStart(spec.deps, w.jobs, 0, -1);
    PlacedStart(w, spec, security, hy, policy, r, m);
  }

  lemma PlacedStart(w: World, spec: JobSpec, security: int, hy: Hierarchy, policy: Policy, r: StepResult, m: Wait)
    requires Sound(w, hy) && ProperSpec(spec, hy) && spec.job.id in w.jobs && m == MinStart(spec.deps, w.jobs, 0, -1)
    requires r == Step(w, spec, security, hy, policy) && r.Next? && r.entry.Some?
    ensures m.Until? && (m.start >= 0 ==> r.entry.value.task.start >= m.start)
  {
    var s := w.sets[HomeOf(spec)];
    AssignStartsLate(s, spec, m.start, hy, policy, Assign(s.chart, s.cache, spec.job, m.start, hy, policy));
  }

  /** The job has variants but all slots begin before the time its dependencies require. */
  predicate NoSlotAfter(s: SlotSetState, spec: JobSpec, minStart: int) {
    |spec.job.variants| > 0 && minStart >= 0 && forall j :: 0 <= j < |s.chart.cells| ==> s.chart.cells[j].b < minStart
  }

  /** No variant finds a place. */
  ghost predicate NoPlace(s: SlotSetState, spec: JobSpec, minStart: int, hy: Hierarchy, policy: Policy)
    requires ProperSpec(spec, hy)
  {
    forall i :: 0 <= i < |spec.job.variants| ==> FinishOf(s.chart, spec.job, i, minStart, hy, policy).None?
  }

  /** A container that has no walltime and finds no place. */
  ghost predicate EmptyHanded(s: SlotSetState, spec: JobSpec, j: JobState, minStart: int, hy: Hierarchy, policy: Policy)
    requires ProperSpec(spec, hy)
  {
    spec.opens.Some? && j.walltime.None? && NoPlace(s, spec, minStart, hy, policy)
  }

  lemma AssignFails(s: SlotSetState, spec: JobSpec, minStart: int, hy: Hierarchy, policy: Policy, o: Outcome)
    requires SoundSet(s, hy) && ProperSpec(spec, hy) && (Wf(s.chart) ==> End(s.chart) <= MAX_TIME)
    requires o == Assign(s.chart, s.cache, spec.job, minStart, hy, policy)
    ensures o.Fails? <==> NoSlotAfter(s, spec, minStart)
    ensures o.Unplaced? <==> !o.Fails? && NoPlace(s, spec, minStart, hy, policy)
  {
    AssignIsEarliestFinish(s.chart, s.cache, spec.job, minStart, hy, policy, o);
  }

  /** The slot set of the job does not exist, has no slot late enough for the dependencies, or
      has no place for a container without a walltime. */
  ghost predicate HomeFails(w: World, spec: JobSpec, minStart: int, hy: Hierarchy, policy: Policy)
    requires ProperSpec(spec, hy) && spec.job.id in w.jobs
  {
    HomeOf(spec) in w.sets ==>
      var s := w.sets[HomeOf(spec)];
      NoSlotAfter(s, spec, minStart) || EmptyHanded(s, spec, w.jobs[spec.job.id], minStart, hy, policy)
  }

  /** The pass breaks off at a job exactly when it waits for a job of the pass that has no
      walltime, before any dependency that keeps it back; or when no dependency keeps it back
      and its slot set does not exist, has no slot that begins late enough, or has no place
      for the job, which is a container and has no walltime of its own. */
  lemma CrashesExactly(w: World, spec: JobSpec, security: int, hy: Hierarchy, policy: Policy)
    requires Sound(w, hy) && ProperSpec(spec, hy) && spec.job.id in w.jobs
    requires spec.opens.Some? ==> spec.opens.value !in w.sets
    requires HomeOf(spec) in w.sets && Wf(w.sets[HomeOf(spec)].chart) ==> End(w.sets[HomeOf(spec)].chart) <= MAX_TIME
    ensures var m := MinStart(spec.deps, w.jobs, 0, -1);
            && (m.NoStop? <==> exists i :: EndsAt(spec.deps, w.jobs, 0, i) && Endless(spec.deps[i], w.jobs))
            && (Step(w, spec, security, hy, policy).Crash? <==>
                  m.NoStop? || (m.Until? && HomeFails(w, spec, m.start, hy, policy)))
  {
    MinStartBounds(spec.deps, w.jobs, 0, -1);
    var m := MinStart(spec.deps, w.jobs, 0, -1);
    var n := HomeOf(spec);
    if m.Until? && n in w.sets {
      var o := Assign(w.sets[n].chart, w.sets[n].cache, spec.job, m.start, hy, policy);
      AssignFails(w.sets[n], spec, m.start, hy, policy, o);
      AssignIsPlausible(w.sets[n], spec, m.start, hy, policy, o);
      SettleCrashes(w, spec, n, o, security, hy, policy);
    }
  }

  lemma SettleCrashes(w: World, spec: JobSpec, n: string, o: Outcome, security: int, hy: Hierarchy, policy: Policy)
    requires Sound(w, hy) && ProperSpec(spec, hy) && n in w.sets && spec.job.id in w.jobs
    requires spec.opens.Some? ==> spec.opens.value !in w.sets
    requires Plausible(w.sets[n], spec, o, hy, policy)
    ensures Settle(w, spec, n, o, security, policy).Crash?
       <==> o.Fails? || (o.Unplaced? && spec.opens.Some? && w.jobs[spec.job.id].walltime.None?)
  {
    if o.Placed? {
      PlacedEffect(w, spec, n, o.best, o.cache, security, hy, policy, Settle(w, spec, n, o, security, policy));
    }
  }
}
