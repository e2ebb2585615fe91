/** When one sweep over jobs in turn does what it should: exactly, in terms of the jobs and the
    time of the chart.
 */
module Turns {
  import opened Options
  import opened QuotaRules
  import opened Sharing
  import opened Gantt
  import opened Sweep

  /** The sweep ends, leaves an ordered chart, and at each instant of it exactly the resources
      free that no job running there has. */
  ghost predicate SweepIsRight(g: Chart, tasks: seq<Task>, policy: Policy)
    requires |g.cells| >= 1
  {
    var out := SweepJobs(Cursor(g, 0, 0), tasks, true, policy);
    && out.Some? && Wf(out.value)
    && forall t :: FreeAt(out.value, t) == if InSpan(g, t) then FreeAt(g, t) - TakenAt(tasks, t) else FreeAt(g, t)
  }

  /** What a split leaves as it was: the slots before, and of the first slot the begin. */
  lemma {:induction false} SplitBefore(g: Chart, i: nat, n: nat, task: Task, sub: bool, policy: Policy, out: Chart,
                                       j: nat)
    requires j < i && i + n <= |g.cells| && out == Split(g, i, n, task, sub, policy)
    ensures |out.cells| >= |g.cells| && out.cells[j] == g.cells[j]
    decreases n
  {
    hide Pieces, CutAt, Split;
    if n == 0 {
      SplitNothing(g, i, task, sub, policy);
    } else {
      var h, k := CutAtTail(g, i, task, sub, policy);
      SplitUnfold(g, i, n, task, sub, policy, h, k);
      CutBefore(g, i, task, sub, policy, j);
      SplitBefore(h, k, n - 1, task, sub, policy, out, j);
    }
  }

  lemma CutBefore(g: Chart, i: nat, task: Task, sub: bool, policy: Policy, j: nat)
    requires i < |g.cells| && j < |g.cells|
    ensures var h := CutAt(g, i, task, sub, policy);
            |h.cells| >= |g.cells| && (j < i ==> h.cells[j] == g.cells[j])
  {
    CutAtReplaced(g, i, task, sub, policy);
  }

  /** The first piece of the first slot, and the second one when the job starts in the slot. */
  lemma SplitFirst(g: Chart, i: nat, n: nat, task: Task, sub: bool, policy: Policy, out: Chart)
    requires 0 < n && i + n <= |g.cells| && out == Split(g, i, n, task, sub, policy)
    ensures i < |out.cells|
    ensures out.cells[i].b == (if task.start > g.cells[i].b then g.cells[i].b else Max(g.cells[i].b, task.start))
    ensures out.cells[i].e == if task.start > g.cells[i].b then task.start - 1 else Min(g.cells[i].e, task.Last())
    ensures task.start > g.cells[i].b ==>
      i + 1 < |out.cells| && out.cells[i+1].b == task.start && out.cells[i+1].e == Min(g.cells[i].e, task.Last())
  {
    hide Split;
    var h, k := CutAtTail(g, i, task, sub, policy);
    SplitUnfold(g, i, n, task, sub, policy, h, k);
    var p := Pieces(g.cells[i], g.lastId, task, sub, policy);
    CutAtReplaced(g, i, task, sub, policy);
    assert h.cells[i] == p[0];
    SplitBefore(h, k, n - 1, task, sub, policy, out, i);
    if task.start > g.cells[i].b {
      assert h.cells[i+1] == p[1];
      SplitBefore(h, k, n - 1, task, sub, policy, out, i + 1);
    }
  }

  // ---------------------------------------------- a job that is over before the chart begins

  /** The first slot lasts less than no time. */
  predicate BrokenHead(g: Chart) {
    |g.cells| >= 1 && g.cells[0].e + 1 < g.cells[0].b
  }

  /** What a first job that is over before the chart begins makes of the first slot: a part that
      ends before it begins, and the rest, which begins too early. */
  ghost predicate HeadCut(g: Chart, h: Chart, task: Task) {
    && |g.cells| >= 1 && |h.cells| == |g.cells| + 1
    && h.cells[0].b == Begin(g) && h.cells[0].e == task.Last()
    && h.cells[1].b == task.Last() + 1 && h.cells[1].e == g.cells[0].e
    && forall j :: 2 <= j < |h.cells| ==> h.cells[j] == g.cells[j-1]
  }

  lemma FirstTooEarly(g: Chart, task: Task, policy: Policy) returns (h: Chart)
    requires Wf(g) && task.walltime >= 0 && task.start + task.walltime < Begin(g)
    ensures SweepJob(Cursor(g, 0, 0), task, true, policy) == Some(Cursor(h, 0, 0)) && HeadCut(g, h, task)
  {
    h := CutAt(g, 0, task, true, policy);
    var p := Pieces(g.cells[0], g.lastId, task, true, policy);
    CutAtReplaced(g, 0, task, true, policy);
    assert |p| == 2 && h.cells[0] == p[0] && h.cells[1] == p[1];
    assert Split(h, 2, 0, task, true, policy) == h;
    assert Moved(h, 2, 0, task, true, policy, 0) == 0;
  }

  /** The sweep stands on a slot that is over before `t`. */
  predicate Passed(c: Cursor, t: int)
    requires OnChart(c)
  {
    c.chart.cells[c.at].b <= t && c.chart.cells[c.at].e < t
  }

  /** A job that the sweep takes to slots behind the first leaves the first as it is. */
  lemma HeadStays(c: Cursor, task: Task, policy: Policy)
    requires OnChart(c) && BrokenHead(c.chart) && (c.left >= 1 || Passed(c, task.start))
    ensures var r := SweepJob(c, task, true, policy); r.Some? ==> BrokenHead(r.value.chart) && r.value.left >= 1
  {
    hide Moved, Split;
    var r := SweepJob(c, task, true, policy);
    if r.Some? {
      var l := r.value.left;
      var s := SeekRight(c.chart, l, SeekLeft(c.chart, c.left, c.at, task.start).value.1, task.start + task.walltime);
      SplitBefore(c.chart, l, s.value.0 - l + 1, task, true, policy, r.value.chart, 0);
    }
  }

  lemma {:induction false} HeadStaysBroken(c: Cursor, tasks: seq<Task>, policy: Policy)
    requires OnChart(c) && BrokenHead(c.chart) && (c.left >= 1 || tasks == [] || Passed(c, tasks[0].start))
    ensures var out := SweepJobs(c, tasks, true, policy); out.Some? ==> BrokenHead(out.value)
    decreases |tasks|
  {
    hide SweepJob, BrokenHead;
    if tasks != [] {
      HeadStays(c, tasks[0], policy);
      var r := SweepJob(c, tasks[0], true, policy);
      if r.Some? {
        HeadStaysBroken(r.value, tasks[1..], policy);
      }
    }
  }

  /** Where a search for a slot that lasts until `stop` ends, in order or not. */
  lemma {:induction false} SeekRightStops(g: Chart, right: nat, at: nat, stop: int)
    requires right == at < |g.cells|
    ensures var s := SeekRight(g, right, at, stop);
            s.Some? ==>
              && s.value.0 == s.value.1 && at <= s.value.0 < |g.cells| && g.cells[s.value.0].e >= stop
              && (s.value.0 > at ==> g.cells[s.value.0-1].e < stop)
    decreases |g.cells| - at
  {
    if g.cells[at].e < stop && at + 1 < |g.cells| {
      SeekRightStops(g, at + 1, at + 1, stop);
    }
  }

  /** The job after the first one that was too early: the first slot stays broken, and the sweep
      is behind it or about to leave it. */
  lemma SecondKeepsHead(g: Chart, h: Chart, first: Task, task: Task, policy: Policy)
    requires Wf(g) && HeadCut(g, h, first) && first.Last() + 1 < Begin(g)
    requires first.Last() < task.start && task.walltime >= 0
    ensures var r := SweepJob(Cursor(h, 0, 0), task, true, policy);
            r.Some? ==> BrokenHead(r.value.chart) && (r.value.left >= 1 || Passed(r.value, task.Last() + 1))
  {
    var stop := task.start + task.walltime;
    if task.start >= Begin(g) {
      assert Passed(Cursor(h, 0, 0), task.start);
      HeadStays(Cursor(h, 0, 0), task, policy);
    } else {
      assert SeekLeft(h, 0, 0, task.start) == Some((0, 0));
      assert SeekRight(h, 0, 0, stop) == SeekRight(h, 1, 1, stop);
      SeekRightStops(h, 1, 1, stop);
      if SeekRight(h, 1, 1, stop).Some? {
        FromBrokenHead(g, h, first, task, policy, SeekRight(h, 1, 1, stop).value.0);
      }
    }
  }

  lemma FromBrokenHead(g: Chart, h: Chart, first: Task, task: Task, policy: Policy, r: nat)
    requires Wf(g) && HeadCut(g, h, first) && first.Last() < task.start < Begin(g) && task.walltime >= 0
    requires 1 <= r < |h.cells| && h.cells[r].e >= task.start + task.walltime
    requires r > 1 ==> h.cells[r-1].e < task.start + task.walltime
    requires SeekLeft(h, 0, 0, task.start) == Some((0, 0))
    requires SeekRight(h, 0, 0, task.start + task.walltime) == Some((r, r))
    ensures var c := SweepJob(Cursor(h, 0, 0), task, true, policy);
            c.Some? && BrokenHead(c.value.chart) && Passed(c.value, task.Last() + 1)
  {
    hide Split, Moved;
    var out := Place(h, 0, r, task, true, policy);
    SplitFirst(h, 0, r + 1, task, true, policy, out);
    MovedEnds(h, 0, r + 1, task, true, policy, out);
    assert r > 1 ==> h.cells[r].b == h.cells[r-1].e + 1 by {
      if r > 1 {
        assert g.cells[r-1].b == g.cells[r-2].e + 1;
      }
    }
  }

  /** A first job that is over before the chart begins leaves slots out of order, whatever jobs
      follow in turn. */
  lemma TooEarlyIsUnordered(g: Chart, tasks: seq<Task>, policy: Policy)
    requires Wf(g) && InTurn(tasks) && tasks != [] && forall k :: 0 <= k < |tasks| ==> tasks[k].walltime >= 0
    requires tasks[0].start + tasks[0].walltime < Begin(g)
    ensures var out := SweepJobs(Cursor(g, 0, 0), tasks, true, policy); out.Some? ==> !Wf(out.value)
  {
    hide SweepJob;
    var h := FirstTooEarly(g, tasks[0], policy);
    var rest := tasks[1..];
    if rest != [] {
      assert rest[0] == tasks[1] && tasks[0].Last() < tasks[1].start;
      SecondKeepsHead(g, h, tasks[0], rest[0], policy);
      var r := SweepJob(Cursor(h, 0, 0), rest[0], true, policy);
      if r.Some? {
        var later := rest[1..];
        assert later != [] ==> later[0] == tasks[2] && tasks[1].Last() < tasks[2].start;
        HeadStaysBroken(r.value, later, policy);
      }
    }
  }

  /** Jobs in turn: one sweep over them does what it should exactly when for each of them the
      first instant after it is one of the chart. One that still takes up the last instant of
      the chart makes the program fail. */
  lemma InTurnExact(g: Chart, tasks: seq<Task>, policy: Policy)
    requires Wf(g) && InTurn(tasks) && forall k :: 0 <= k < |tasks| ==> tasks[k].walltime >= 0
    ensures SweepIsRight(g, tasks, policy) <==> forall k :: 0 <= k < |tasks| ==> Inside(g, tasks[k])
  {
    hide SweepJobs;
    if forall k :: 0 <= k < |tasks| ==> Inside(g, tasks[k]) {
      var out := SweepTakes(g, tasks, policy);
    } else if tasks[0].start + tasks[0].walltime < Begin(g) {
      TooEarlyIsUnordered(g, tasks, policy);
    } else {
      forall k | 0 <= k < |tasks| ensures Begin(g) <= tasks[k].start + tasks[k].walltime {
        assert k > 0 ==> tasks[0].Last() < tasks[k].start;
      }
      SweepIsOneByOne(Cursor(g, 0, 0), tasks, true, policy);
    }
  }

  // ------------------------------------------------------------------------- an example

  function OneSlot(): Chart {
    Chart([Cell(1, 0, 100, {1, 2}, map[], -1, NO_TABLES)], 1)
  }

  /** A job that fills the slot to its end: everything it needs is there, and the program fails. */
  lemma LastInstantFails(account: Account, sub: bool, policy: Policy)
    ensures var a := Task(10, 91, {1}, None, NoPlaceholder, account);
            && Wf(OneSlot()) && a.Last() == End(OneSlot())
            && (forall t :: a.Covers(t) ==> InSpan(OneSlot(), t) && a.res <= FreeAt(OneSlot(), t))
            && SweepJobs(Cursor(OneSlot(), 0, 0), [a], sub, policy).None?
  {
    var a := Task(10, 91, {1}, None, NoPlaceholder, account);
    forall t | InSpan(OneSlot(), t) ensures FreeAt(OneSlot(), t) == {1, 2} {
      ContentOf(OneSlot(), 0, t);
    }
    assert [a][0] == a;
    SweepIsOneByOne(Cursor(OneSlot(), 0, 0), [a], sub, policy);
  }
}
