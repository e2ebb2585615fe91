/** Putting jobs that already have a place into the slots in one sweep
    (split_slots_jobs in oar/kao/slot.py), as a function of the chart.
 */
module Sweep {
  import opened Options
  import opened QuotaRules
  import opened Gantt

  /** The sweep between two jobs: where the left end was last set, and the slot it stands on. */
  datatype Cursor = Cursor(chart: Chart, left: nat, at: nat)

  predicate OnChart(c: Cursor) {
    c.left <= c.at < |c.chart.cells|
  }

  /** Goes on to the first slot that begins after `start` or holds it. The left end moves
      only when the cursor does. Nothing when the list ends before. */
  function SeekLeft(g: Chart, left: nat, at: nat, start: int): (r: Option<(nat, nat)>)
    requires left <= at < |g.cells|
    ensures r.Some? ==> left <= r.value.0 <= r.value.1 < |g.cells| && at <= r.value.1
    decreases |g.cells| - at
  {
    var c := g.cells[at];
    if c.b > start || (c.b <= start && start <= c.e) then Some((left, at))
    else if at + 1 < |g.cells| then SeekLeft(g, at + 1, at + 1, start)
    else None
  }

  /** Goes on to the first slot that lasts until `stop`. */
  function SeekRight(g: Chart, right: nat, at: nat, stop: int): (r: Option<(nat, nat)>)
    requires right <= at < |g.cells|
    ensures r.Some? ==> right <= r.value.0 <= r.value.1 < |g.cells| && at <= r.value.1
    decreases |g.cells| - at
  {
    if g.cells[at].e >= stop then Some((right, at))
    else if at + 1 < |g.cells| then SeekRight(g, at + 1, at + 1, stop)
    else None
  }

  /** Where the slot at `q` stands after slots have been cut: a slot that is cut goes on as
      the part during the job. */
  function Moved(g: Chart, i: nat, n: nat, task: Task, sub: bool, policy: Policy, q: nat): (m: nat)
    requires i + n <= |g.cells|
    ensures q <= m
    decreases n
  {
    if n == 0 || q < i then q
    else
      var pieces := Pieces(g.cells[i], g.lastId, task, sub, policy);
      var h := CutAt(g, i, task, sub, policy);
      Moved(h, i + |pieces|, n - 1, task, sub, policy, MovedByCut(g, i, task, sub, policy, q))
  }

  function MovedByCut(g: Chart, i: nat, task: Task, sub: bool, policy: Policy, q: nat): (m: nat)
    requires i < |g.cells| && i <= q
    ensures q <= m
  {
    if q == i then (if task.start > g.cells[i].b then i + 1 else i)
    else q + |Pieces(g.cells[i], g.lastId, task, sub, policy)| - 1
  }

  lemma {:induction false} MovedInside(g: Chart, i: nat, n: nat, task: Task, sub: bool, policy: Policy, q: nat,
                                       out: Chart)
    requires i + n <= |g.cells| && q < |g.cells| && out == Split(g, i, n, task, sub, policy)
    ensures Moved(g, i, n, task, sub, policy, q) < |out.cells|
    ensures |g.cells| <= |out.cells|
    decreases n
  {
    hide Pieces, Split, MovedByCut, Moved, CutAt;
    if n == 0 {
      NothingToSplit(g, i, task, sub, policy, q);
    } else {
      var h, k := CutAtTail(g, i, task, sub, policy);
      SplitUnfold(g, i, n, task, sub, policy, h, k);
      if q >= i {
        MovedUnfold(g, i, n, task, sub, policy, q, h, k);
      } else {
        MovedBefore(g, i, n, task, sub, policy, q);
        MovedBefore(h, k, n - 1, task, sub, policy, q);
      }
      CutPartInside(g, i, task, sub, policy, h);
      MovedInside(h, k, n - 1, task, sub, policy, if q < i then q else MovedByCut(g, i, task, sub, policy, q), out);
    }
  }

  lemma MovedBefore(g: Chart, i: nat, n: nat, task: Task, sub: bool, policy: Policy, q: nat)
    requires i + n <= |g.cells| && q < i
    ensures Moved(g, i, n, task, sub, policy, q) == q
  {
  }

  lemma CutPartInside(g: Chart, i: nat, task: Task, sub: bool, policy: Policy, h: Chart)
    requires i < |g.cells| && h == CutAt(g, i, task, sub, policy)
    ensures |g.cells| <= |h.cells| && MovedByCut(g, i, task, sub, policy, i) < |h.cells|
  {
  }

  lemma SweptOnChart(g: Chart, l: nat, r: nat, task: Task, sub: bool, policy: Policy, q: nat)
    requires l <= r < |g.cells| && q < |g.cells| && l <= q
    ensures OnChart(Cursor(Place(g, l, r, task, sub, policy), l, Moved(g, l, r - l + 1, task, sub, policy, q)))
  {
    hide Split, Moved;
    MovedInside(g, l, r - l + 1, task, sub, policy, q, Place(g, l, r, task, sub, policy));
  }

  function SweepJob(c: Cursor, task: Task, sub: bool, policy: Policy): (r: Option<Cursor>)
    requires OnChart(c)
    ensures r.Some? ==> OnChart(r.value)
  {
    match SeekLeft(c.chart, c.left, c.at, task.start)
    case None => None
    case Some((l, p)) =>
      match SeekRight(c.chart, l, p, task.start + task.walltime)
      case None => None
      case Some((r, q)) =>
        SweptOnChart(c.chart, l, r, task, sub, policy, q);
        Some(Cursor(Place(c.chart, l, r, task, sub, policy), l, Moved(c.chart, l, r - l + 1, task, sub, policy, q)))
  }

  /** The chart after the sweep; nothing when the program runs off the end of the list. */
  function SweepJobs(c: Cursor, tasks: seq<Task>, sub: bool, policy: Policy): Option<Chart>
    requires OnChart(c)
    decreases |tasks|
  {
    if tasks == [] then Some(c.chart)
    else
      match SweepJob(c, tasks[0], sub, policy)
      case None => None
      case Some(c') => SweepJobs(c', tasks[1..], sub, policy)
  }

  lemma SweepJobsStep(c: Cursor, tasks: seq<Task>, k: nat, sub: bool, policy: Policy)
    requires OnChart(c) && k < |tasks|
    ensures SweepJobs(c, tasks[k..], sub, policy)
         == match SweepJob(c, tasks[k], sub, policy)
            case None => None
            case Some(c') => SweepJobs(c', tasks[k+1..], sub, policy)
  {
    assert tasks[k..][1..] == tasks[k+1..];
  }

  /** The jobs one at a time, each from the first slot on. */
  function OneByOne(g: Chart, tasks: seq<Task>, sub: bool, policy: Policy): Option<Chart>
    requires |g.cells| >= 1
    decreases |tasks|
  {
    if tasks == [] then Some(g)
    else
      match SweepJob(Cursor(g, 0, 0), tasks[0], sub, policy)
      case None => None
      case Some(c) => OneByOne(c.chart, tasks[1..], sub, policy)
  }

  function Reversed<T>(s: seq<T>): (r: seq<T>)
    ensures |r| == |s| && forall k :: 0 <= k < |s| ==> r[k] == s[|s|-1-k]
  {
    if s == [] then [] else Reversed(s[1..]) + [s[0]]
  }

  // -------------------------------------------------------------- what the sweep is good for

  /** The first instant after the job is one of the chart. So the job does not take up the last
      instant of the chart. */
  predicate Inside(g: Chart, task: Task)
    requires |g.cells| >= 1
  {
    task.walltime >= 0 && Begin(g) <= task.start + task.walltime <= End(g)
  }

  /** Jobs in time order that do not overlap. */
  predicate InTurn(tasks: seq<Task>) {
    forall j, k :: 0 <= j < k < |tasks| ==> tasks[j].Last() < tasks[k].start
  }

  lemma {:induction false} SeekLeftFinds(g: Chart, left: nat, at: nat, start: int)
    requires Wf(g) && left <= at < |g.cells| && start <= End(g) && (at > 0 ==> left == at && g.cells[at-1].e < start)
    requires (at == 0 ==> left == 0)
    ensures var r := SeekLeft(g, left, at, start);
            && r.Some? && r.value.0 == r.value.1 && at <= r.value.0
            && var l := r.value.0; start <= g.cells[l].e && (l > 0 ==> g.cells[l-1].e < start)
    decreases |g.cells| - at
  {
    var c := g.cells[at];
    if !(c.b > start || (c.b <= start && start <= c.e)) {
      SeekLeftFinds(g, at + 1, at + 1, start);
    }
  }

  lemma {:induction false} SeekRightFinds(g: Chart, right: nat, at: nat, stop: int)
    requires Wf(g) && right == at < |g.cells| && stop <= End(g)
    ensures var r := SeekRight(g, right, at, stop);
            && r.Some? && r.value.0 == r.value.1 && at <= r.value.0 && g.cells[r.value.0].e >= stop
            && (r.value.0 > at ==> g.cells[r.value.0-1].e < stop)
    decreases |g.cells| - at
  {
    if g.cells[at].e < stop {
      SeekRightFinds(g, at + 1, at + 1, stop);
    }
  }

  /** The slots found are those the job goes to. */
  lemma JobFindsWindow(g: Chart, task: Task) returns (l: nat, r: nat)
    requires Wf(g) && Inside(g, task)
    ensures l <= r < |g.cells| && Window(g, l, r, task)
    ensures SeekLeft(g, 0, 0, task.start) == Some((l, l))
    ensures SeekRight(g, l, l, task.start + task.walltime) == Some((r, r))
  {
    SeekLeftFinds(g, 0, 0, task.start);
    l := SeekLeft(g, 0, 0, task.start).value.0;
    SeekRightFinds(g, l, l, task.start + task.walltime);
    r := SeekRight(g, l, l, task.start + task.walltime).value.0;
    assert l > 0 ==> g.cells[l].b == g.cells[l-1].e + 1;
    assert r > l ==> g.cells[r].b == g.cells[r-1].e + 1;
    assert r + 1 < |g.cells| ==> g.cells[r+1].b == g.cells[r].e + 1;
  }

  /** All slots up to the cursor end before `start`, or the cursor is at the beginning. */
  ghost predicate Behind(c: Cursor, start: int)
    requires OnChart(c)
  {
    c.at == 0 || forall k :: 0 <= k <= c.at ==> c.chart.cells[k].e < start
  }

  lemma {:induction false} SeekFromAnywhere(g: Chart, left: nat, at: nat, k: nat, start: int)
    requires Wf(g) && left <= at < |g.cells| && k <= at && forall j :: 0 <= j <= at ==> g.cells[j].e < start
    ensures SeekLeft(g, left, at, start) == SeekLeft(g, k, k, start)
    decreases at - k
  {
    assert g.cells[k].b <= g.cells[k].e + 1 <= start;
    assert g.cells[at].b <= g.cells[at].e + 1 <= start;
    if k < at {
      SeekFromAnywhere(g, left, at, k + 1, start);
    }
  }

  lemma PiecesCount(g: Chart, i: nat, task: Task, sub: bool, policy: Policy, h: Chart)
    requires i < |g.cells| && h == CutAt(g, i, task, sub, policy)
    ensures |Pieces(g.cells[i], g.lastId, task, sub, policy)| == 1 + |h.cells| - |g.cells|
  {
    hide Pieces;
  }

  lemma MovedUnfold(g: Chart, i: nat, n: nat, task: Task, sub: bool, policy: Policy, q: nat, h: Chart, k: nat)
    requires 0 < n && i + n <= |g.cells| && i <= q && h == CutAt(g, i, task, sub, policy)
    requires k == i + 1 + |h.cells| - |g.cells|
    ensures k + n - 1 <= |h.cells|
    ensures Moved(g, i, n, task, sub, policy, q)
         == Moved(h, k, n - 1, task, sub, policy, MovedByCut(g, i, task, sub, policy, q))
    ensures q > i ==> MovedByCut(g, i, task, sub, policy, q) == q + |h.cells| - |g.cells|
  {
    hide Pieces, CutAt;
    PiecesCount(g, i, task, sub, policy, h);
  }

  lemma CutPartEnds(g: Chart, i: nat, task: Task, sub: bool, policy: Policy, h: Chart)
    requires i < |g.cells| && h == CutAt(g, i, task, sub, policy)
    ensures var m := MovedByCut(g, i, task, sub, policy, i);
            && m < |h.cells| && h.cells[m].e == Min(g.cells[i].e, task.Last())
            && h.cells[m].b == Max(g.cells[i].b, task.start)
  {
    var p := Pieces(g.cells[i], g.lastId, task, sub, policy);
    var m := MovedByCut(g, i, task, sub, policy, i);
    CutAtReplaced(g, i, task, sub, policy);
    assert h.cells[m] == p[m-i];
  }

  lemma NothingToSplit(g: Chart, i: nat, task: Task, sub: bool, policy: Policy, q: nat)
    requires i <= |g.cells|
    ensures Split(g, i, 0, task, sub, policy) == g && Moved(g, i, 0, task, sub, policy, q) == q
  {
  }

  /** The part of the last slot that the job got begins and ends with the job or with the slot. */
  lemma {:induction false} MovedEnds(g: Chart, i: nat, n: nat, task: Task, sub: bool, policy: Policy, out: Chart)
    requires n > 0 && i + n <= |g.cells| && out == Split(g, i, n, task, sub, policy)
    ensures var m := Moved(g, i, n, task, sub, policy, i + n - 1);
            && m < |out.cells| && out.cells[m].e == Min(g.cells[i+n-1].e, task.Last())
            && out.cells[m].b == Max(g.cells[i+n-1].b, task.start)
    decreases n
  {
    hide Pieces, CutAt, MovedByCut, Split, Moved;
    var h, k := CutAtTail(g, i, task, sub, policy);
    SplitUnfold(g, i, n, task, sub, policy, h, k);
    MovedUnfold(g, i, n, task, sub, policy, i + n - 1, h, k);
    if n == 1 {
      CutPartEnds(g, i, task, sub, policy, h);
      NothingToSplit(h, k, task, sub, policy, MovedByCut(g, i, task, sub, policy, i));
    } else {
      assert h.cells[k+n-2] == g.cells[i+n-1];
      MovedEnds(h, k, n - 1, task, sub, policy, out);
    }
  }

  /** One job of the sweep goes where it would go from the first slot on. */
  lemma SweepJobIsPlace(c: Cursor, task: Task, sub: bool, policy: Policy) returns (l: nat, r: nat)
    requires OnChart(c) && Wf(c.chart) && Inside(c.chart, task) && Behind(c, task.start)
    ensures l <= r < |c.chart.cells| && Window(c.chart, l, r, task)
    ensures var m := Moved(c.chart, l, r - l + 1, task, sub, policy, r);
            && SweepJob(c, task, sub, policy) == Some(Cursor(Place(c.chart, l, r, task, sub, policy), l, m))
            && SweepJob(Cursor(c.chart, 0, 0), task, sub, policy) == SweepJob(c, task, sub, policy)
  {
    hide Split, Moved, Wf, Window, Inside;
    l, r := JobFindsWindow(c.chart, task);
    if c.at > 0 {
      SeekFromAnywhere(c.chart, c.left, c.at, 0, task.start);
    }
  }

  /** One job of the sweep changes the content as it should, and leaves the cursor behind
      the next job. */
  lemma SweepStep(c: Cursor, task: Task, sub: bool, policy: Policy) returns (c': Cursor)
    requires OnChart(c) && Wf(c.chart) && Inside(c.chart, task) && Behind(c, task.start)
    ensures SweepJob(c, task, sub, policy) == Some(c') && OnChart(c')
    ensures SweepJob(Cursor(c.chart, 0, 0), task, sub, policy) == Some(c')
    ensures Wf(c'.chart) && Begin(c'.chart) == Begin(c.chart) && End(c'.chart) == End(c.chart)
    ensures Pointwise(c.chart, c'.chart, Begin(c.chart), End(c.chart), task, sub, policy)
    ensures Behind(c', task.Last() + 1)
  {
    hide SweepJob, Moved, Pointwise, Window, Split, Wf, KeepsSlots;
    var l, r := SweepJobIsPlace(c, task, sub, policy);
    c' := SweepJob(c, task, sub, policy).value;
    var h := PlaceIsPointwise(c.chart, l, r, task, sub, policy);
    MovedEnds(c.chart, l, r - l + 1, task, sub, policy, h);
    forall k | 0 <= k <= c'.at ensures h.cells[k].e < task.Last() + 1 {
      Ordered(h, k, c'.at);
    }
  }

  lemma {:induction false} NoSlotLasts(g: Chart, right: nat, at: nat, stop: int)
    requires Wf(g) && right <= at < |g.cells| && End(g) < stop
    ensures SeekRight(g, right, at, stop).None?
    decreases |g.cells| - at
  {
    Ordered(g, at, |g.cells| - 1);
    if at + 1 < |g.cells| {
      NoSlotLasts(g, at + 1, at + 1, stop);
    }
  }

  /** A job that takes up the last instant of the chart, or goes on, makes the sweep run off
      the end of the list. */
  lemma RunsOff(c: Cursor, task: Task, sub: bool, policy: Policy)
    requires OnChart(c) && Wf(c.chart) && End(c.chart) < task.start + task.walltime
    ensures SweepJob(c, task, sub, policy).None?
  {
    var s := SeekLeft(c.chart, c.left, c.at, task.start);
    if s.Some? {
      NoSlotLasts(c.chart, s.value.0, s.value.1, task.start + task.walltime);
    }
  }

  lemma StillBehind(c: Cursor, s: int, t: int)
    requires OnChart(c) && Behind(c, s) && s <= t
    ensures Behind(c, t)
  {
  }

  /** The content at `t` after the jobs that run then, in order. */
  ghost function AfterAll(g: Chart, tasks: seq<Task>, sub: bool, policy: Policy, t: int): Content
    requires |g.cells| >= 1
  {
    if InSpan(g, t) then Through(ContentAt(g, t), tasks, sub, policy, t) else ContentAt(g, t)
  }

  ghost function Through(c: Content, tasks: seq<Task>, sub: bool, policy: Policy, t: int): Content
    decreases |tasks|
  {
    if tasks == [] then c
    else Through(if tasks[0].Covers(t) then Changes(c, tasks[0], sub, policy) else c, tasks[1..], sub, policy, t)
  }

  lemma AfterAllStep(g: Chart, h: Chart, tasks: seq<Task>, sub: bool, policy: Policy, t: int)
    requires |g.cells| >= 1 && |h.cells| >= 1 && tasks != [] && Begin(h) == Begin(g) && End(h) == End(g)
    requires Pointwise(g, h, Begin(g), End(g), tasks[0], sub, policy)
    ensures AfterAll(g, tasks, sub, policy, t) == AfterAll(h, tasks[1..], sub, policy, t)
  {
    assert ContentAt(h, t) == ContentAfter(g, Begin(g), End(g), tasks[0], sub, policy, t);
  }

  /** None of the jobs is over before the chart begins. */
  predicate NoneOver(g: Chart, tasks: seq<Task>)
    requires |g.cells| >= 1
  {
    forall k :: 0 <= k < |tasks| ==> tasks[k].walltime >= 0 && Begin(g) <= tasks[k].start + tasks[k].walltime
  }

  /** Jobs in turn, none of which is over before the chart begins. In one sweep they go exactly
      where they go one at a time. The program fails with a missing key exactly when one of them
      takes up the last instant of the chart or goes on; otherwise at every instant only what
      the job running there takes or gives changes. */
  lemma {:induction false} SweepIsOneByOne(c: Cursor, tasks: seq<Task>, sub: bool, policy: Policy)
    requires OnChart(c) && Wf(c.chart) && InTurn(tasks) && (tasks != [] ==> Behind(c, tasks[0].start))
    requires NoneOver(c.chart, tasks)
    ensures SweepJobs(c, tasks, sub, policy) == OneByOne(c.chart, tasks, sub, policy)
    ensures SweepJobs(c, tasks, sub, policy).None?
       <==> exists k :: 0 <= k < |tasks| && End(c.chart) < tasks[k].start + tasks[k].walltime
    ensures var out := SweepJobs(c, tasks, sub, policy);
            out.Some? ==> SweptTo(c.chart, out.value, tasks, sub, policy)
    decreases |tasks|
  {
    hide SweepJob, Behind, Pointwise, SweptTo;
    if tasks == [] {
      NothingSwept(c.chart, sub, policy);
    } else if End(c.chart) < tasks[0].start + tasks[0].walltime {
      RunsOff(c, tasks[0], sub, policy);
      RunsOff(Cursor(c.chart, 0, 0), tasks[0], sub, policy);
    } else {
      hide Wf;
      var c' := SweepStep(c, tasks[0], sub, policy);
      var rest := tasks[1..];
      assert forall k :: 0 <= k < |rest| ==> rest[k] == tasks[k+1];
      if rest != [] {
        assert tasks[0].Last() < tasks[1].start;
        StillBehind(c', tasks[0].Last() + 1, rest[0].start);
      }
      SweepIsOneByOne(c', rest, sub, policy);
      var out := SweepJobs(c', rest, sub, policy);
      if out.Some? {
        SweptFurther(c.chart, c'.chart, out.value, tasks, sub, policy);
      }
    }
  }

  /** The chart after the jobs, in order, over the same time, and changed by them only. */
  ghost predicate SweptTo(g: Chart, out: Chart, tasks: seq<Task>, sub: bool, policy: Policy)
    requires |g.cells| >= 1
  {
    && Wf(out) && Begin(out) == Begin(g) && End(out) == End(g)
    && forall t :: ContentAt(out, t) == AfterAll(g, tasks, sub, policy, t)
  }

  lemma NothingSwept(g: Chart, sub: bool, policy: Policy)
    requires Wf(g)
    ensures SweptTo(g, g, [], sub, policy)
  {
  }

  lemma SweptFurther(g: Chart, h: Chart, out: Chart, tasks: seq<Task>, sub: bool, policy: Policy)
    requires |g.cells| >= 1 && |h.cells| >= 1 && tasks != [] && Begin(h) == Begin(g) && End(h) == End(g)
    requires Pointwise(g, h, Begin(g), End(g), tasks[0], sub, policy) && SweptTo(h, out, tasks[1..], sub, policy)
    ensures SweptTo(g, out, tasks, sub, policy)
  {
    forall t ensures ContentAt(out, t) == AfterAll(g, tasks, sub, policy, t) {
      AfterAllStep(g, h, tasks, sub, policy, t);
    }
  }

  /** The resources that the jobs running at `t` have. */
  ghost function TakenAt(tasks: seq<Task>, t: int): set<int> {
    set k, x | 0 <= k < |tasks| && tasks[k].Covers(t) && x in tasks[k].res :: x
  }

  lemma {:induction false} ThroughTakes(c: Content, tasks: seq<Task>, policy: Policy, t: int)
    ensures Through(c, tasks, true, policy, t).free == c.free - TakenAt(tasks, t)
    decreases |tasks|
  {
    if tasks != [] {
      var rest := tasks[1..];
      ThroughTakes(if tasks[0].Covers(t) then Changes(c, tasks[0], true, policy) else c, rest, policy, t);
      assert forall k :: 0 <= k < |rest| ==> rest[k] == tasks[k+1];
      forall x ensures x in TakenAt(tasks, t) <==> (tasks[0].Covers(t) && x in tasks[0].res) || x in TakenAt(rest, t) {
        if x in TakenAt(tasks, t) {
          var k :| 0 <= k < |tasks| && tasks[k].Covers(t) && x in tasks[k].res;
          assert k > 0 ==> rest[k-1] == tasks[k];
        }
        if x in TakenAt(rest, t) {
          var k :| 0 <= k < |rest| && rest[k].Covers(t) && x in rest[k].res;
          assert tasks[k+1] == rest[k];
        }
      }
    }
  }

  /** Jobs in turn inside the chart: one sweep takes from every instant the resources of the
      job that runs then, and does what one restart a job would do. */
  lemma SweepTakes(g: Chart, tasks: seq<Task>, policy: Policy) returns (out: Chart)
    requires Wf(g) && InTurn(tasks) && forall k :: 0 <= k < |tasks| ==> Inside(g, tasks[k])
    ensures SweepJobs(Cursor(g, 0, 0), tasks, true, policy) == OneByOne(g, tasks, true, policy) == Some(out)
    ensures Wf(out) && Begin(out) == Begin(g) && End(out) == End(g)
    ensures forall t :: FreeAt(out, t) == if InSpan(g, t) then FreeAt(g, t) - TakenAt(tasks, t) else FreeAt(g, t)
  {
    SweepIsOneByOne(Cursor(g, 0, 0), tasks, true, policy);
    out := SweepJobs(Cursor(g, 0, 0), tasks, true, policy).value;
    forall t ensures FreeAt(out, t) == if InSpan(g, t) then FreeAt(g, t) - TakenAt(tasks, t) else FreeAt(g, t) {
      assert ContentAt(out, t) == AfterAll(g, tasks, true, policy, t);
      ThroughTakes(ContentAt(g, t), tasks, policy, t);
    }
  }
}
