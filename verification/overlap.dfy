/** When one sweep over two jobs in time order, which may overlap, does what it should: exactly,
    in terms of the jobs and the slot the first of them begins in.
 */
module Overlap {
  import opened Options
  import opened QuotaRules
  import opened Sharing
  import opened Gantt
  import opened Sweep
  import opened Turns

  /** The job begins in slot `l`: the first that does not end before the job starts. */
  ghost predicate BeginsIn(g: Chart, l: nat, start: int) {
    l < |g.cells| && start <= g.cells[l].e && (l > 0 ==> g.cells[l-1].e < start)
  }

  /** Two jobs, the first of which begins in slot `c` and not after the second. Either the
      second starts when the first is over. Or it stops before the first does, and then the
      first must begin with the slot and the second stay inside it. Or it goes on, and then
      both must start together when the first leaves a part of the slot before it, and the
      second must start in the slot or right behind it when the first leaves none. */
  predicate Untangled(c: Cell, a: Task, b: Task) {
    b.start > a.Last()
    || (if b.Last() < a.Last() then a.start <= c.b && b.Last() <= c.e
        else if a.start > c.b then b.start == a.start
        else b.start <= c.e + 1)
  }

  lemma StartSlotIs(g: Chart, l: nat, k: nat, start: int)
    requires Wf(g) && BeginsIn(g, l, start) && BeginsIn(g, k, start)
    ensures l == k
  {
    if l < k {
      Ordered(g, l, k - 1);
    } else if k < l {
      Ordered(g, k, l - 1);
    }
  }

  /** The chart after the first job: how its first slot ends, and where the sweep stands. */
  lemma AfterOne(g: Chart, l: nat, a: Task, policy: Policy) returns (h: Chart, q: nat)
    requires Wf(g) && Inside(g, a) && a.walltime >= 1 && BeginsIn(g, l, a.start)
    ensures SweepJob(Cursor(g, 0, 0), a, true, policy) == Some(Cursor(h, l, q)) && l <= q < |h.cells|
    ensures Wf(h) && Begin(h) == Begin(g) && End(h) == End(g) && Pointwise(g, h, Begin(g), End(g), a, true, policy)
    ensures h.cells[q].e == a.Last() && (l > 0 ==> h.cells[l-1].e < a.start)
    ensures h.cells[l].b == g.cells[l].b
    ensures h.cells[l].e == if a.start > g.cells[l].b then a.start - 1 else Min(g.cells[l].e, a.Last())
  {
    hide Wf, Moved, Split, Pointwise, KeepsSlots, Inside;
    var l', r := JobFindsWindow(g, a);
    JobBegins(g, a, l', r);
    StartSlotIs(g, l, l', a.start);
    h := PlaceIsPointwise(g, l, r, a, true, policy);
    q := Moved(g, l, r - l + 1, a, true, policy, r);
    MovedEnds(g, l, r - l + 1, a, true, policy, h);
    SplitFirst(g, l, r - l + 1, a, true, policy, h);
    if l > 0 {
      SplitBefore(g, l, r - l + 1, a, true, policy, h, l - 1);
    }
  }

  lemma JobBegins(g: Chart, a: Task, l: nat, r: nat)
    requires Wf(g) && Inside(g, a) && l <= r < |g.cells|
    requires SeekLeft(g, 0, 0, a.start) == Some((l, l))
    requires SeekRight(g, l, l, a.start + a.walltime) == Some((r, r))
    ensures BeginsIn(g, l, a.start) && a.start + a.walltime <= g.cells[r].e
  {
    SeekLeftFinds(g, 0, 0, a.start);
    SeekRightFinds(g, l, l, a.start + a.walltime);
  }

  // -------------------------------------------------------------------- the second job

  /** The slots the sweep cuts for the second job: from the left end, where the sweep still
      stands, to the first that lasts beyond the job; the left end only, when the slot the
      sweep stands on lasts that long. */
  lemma SecondSweep(h: Chart, l: nat, q: nat, a: Task, b: Task, policy: Policy) returns (r: nat, out: Chart)
    requires Wf(h) && b.start + b.walltime <= End(h) && l <= q < |h.cells|
    requires h.cells[q].e == a.Last() && b.start <= a.Last()
    ensures l <= r < |h.cells| && out == Place(h, l, r, b, true, policy)
    ensures if b.Last() < a.Last() then r == l
            else q < r && h.cells[r].b <= b.Last() + 1 && (r + 1 < |h.cells| ==> b.Last() < h.cells[r+1].b)
    ensures var c := SweepJob(Cursor(h, l, q), b, true, policy); c.Some? && c.value.chart == out
  {
    hide Split, Moved;
    var stop := b.start + b.walltime;
    assert SeekLeft(h, l, q, b.start) == Some((l, q));
    if stop <= a.Last() {
      r := l;
    } else {
      assert q + 1 < |h.cells|;
      SeekRightFinds(h, q + 1, q + 1, stop);
      r := SeekRight(h, q + 1, q + 1, stop).value.0;
      assert SeekRight(h, l, q, stop) == Some((r, r));
      assert h.cells[r].b == h.cells[r-1].e + 1;
      assert r + 1 < |h.cells| ==> h.cells[r+1].b == h.cells[r].e + 1;
    }
    out := Place(h, l, r, b, true, policy);
  }

  /** What the second job needs in order to fit the slots cut for it. */
  lemma UntangledIsWindow(h: Chart, l: nat, q: nat, r: nat, c: Cell, a: Task, b: Task)
    requires Wf(h) && Inside(h, b) && b.walltime >= 1 && a.start <= b.start <= a.Last()
    requires l <= q < |h.cells| && h.cells[q].e == a.Last() && l <= r < |h.cells|
    requires if b.Last() < a.Last() then r == l
             else q < r && h.cells[r].b <= b.Last() + 1 && (r + 1 < |h.cells| ==> b.Last() < h.cells[r+1].b)
    requires h.cells[l].b == c.b && (l > 0 ==> h.cells[l-1].e < a.start)
    requires h.cells[l].e == if a.start > c.b then a.start - 1 else Min(c.e, a.Last())
    requires Untangled(c, a, b)
    ensures Window(h, l, r, b)
  {
    if l > 0 {
      assert h.cells[l].b == h.cells[l-1].e + 1;
    }
    if l + 1 < |h.cells| {
      assert h.cells[l+1].b == h.cells[l].e + 1;
    }
  }

  /** A second job that starts behind the end of the first slot cut for it leaves slots out of
      order. */
  lemma TooLateIsUnordered(h: Chart, l: nat, r: nat, b: Task, policy: Policy, out: Chart)
    requires l <= r < |h.cells| && out == Place(h, l, r, b, true, policy)
    requires h.cells[l].b <= h.cells[l].e + 1 < b.start
    ensures !Wf(out)
  {
    SplitFirst(h, l, r - l + 1, b, true, policy, out);
    assert out.cells[l+1].b > out.cells[l+1].e + 1;
  }

  /** One slot that ends before the job does: what is free at the job's last instant stays. */
  lemma TooShortIsKept(h: Chart, l: nat, b: Task, policy: Policy, out: Chart)
    requires Wf(h) && l < |h.cells| && Meets(h.cells[l], b) && b.walltime >= 1
    requires out == Place(h, l, l, b, true, policy) && h.cells[l].e < b.Last()
    ensures FreeAt(out, b.Last()) == FreeAt(h, b.Last())
  {
    SplitNothing(CutAt(h, l, b, true, policy), l + |Pieces(h.cells[l], h.lastId, b, true, policy)|, b, true, policy);
    CutAtContent(h, l, b, true, policy, b.Last());
  }

  /** The resources of the second job are its own to take. */
  ghost predicate Takeable(g: Chart, a: Task, b: Task)
    requires |g.cells| >= 1
  {
    b.res != {} && forall t :: InSpan(g, t) && b.Covers(t) ==> b.res <= FreeAt(g, t) && (a.Covers(t) ==> a.res !! b.res)
  }

  /** When the second job does not fit the slots cut for it, slots are out of order, or what
      it should take at its last instant is still free. */
  lemma TangledIsWrong(g: Chart, h: Chart, l: nat, r: nat, c: Cell, a: Task, b: Task, policy: Policy, out: Chart)
    requires Wf(g) && Wf(h) && Begin(h) == Begin(g) && End(h) == End(g) && Inside(g, a) && Inside(g, b)
    requires Pointwise(g, h, Begin(g), End(g), a, true, policy)
    requires a.walltime >= 1 && b.walltime >= 1 && a.start <= b.start <= a.Last() && Takeable(g, a, b)
    requires l <= r < |h.cells| && out == Place(h, l, r, b, true, policy) && (b.Last() < a.Last() ==> r == l)
    requires h.cells[l].b == c.b && (l > 0 ==> h.cells[l-1].e < a.start)
    requires h.cells[l].e == if a.start > c.b then a.start - 1 else Min(c.e, a.Last())
    requires !Untangled(c, a, b)
    ensures var t := b.Last();
            !Wf(out) || (InSpan(g, t) && FreeAt(out, t) != FreeAt(g, t) - TakenAt([a, b], t))
  {
    if h.cells[l].e + 1 < b.start {
      TooLateIsUnordered(h, l, r, b, policy, out);
    } else {
      var t := b.Last();
      LastInSpan(h, l, a, b);
      TooShortIsKept(h, l, b, policy, out);
      assert ContentAt(h, t) == ContentAfter(g, Begin(g), End(g), a, true, policy, t);
      var x := Member(b.res);
      assert x in FreeAt(h, t);
      assert [a, b][1] == b;
      assert x in TakenAt([a, b], t);
    }
  }

  lemma LastInSpan(h: Chart, l: nat, a: Task, b: Task)
    requires Wf(h) && Inside(h, a) && Inside(h, b) && l < |h.cells| && b.walltime >= 1 && b.start <= a.Last()
    requires b.start <= h.cells[l].e + 1 && h.cells[l].e < b.Last() && b.Last() < a.Last()
    ensures Meets(h.cells[l], b) && InSpan(h, b.Last())
  {
    Ordered(h, 0, l);
  }

  // ------------------------------------------------------------------------ the theorem

  lemma TwoTaken(a: Task, b: Task, t: int)
    ensures TakenAt([a, b], t) == (if a.Covers(t) then a.res else {}) + (if b.Covers(t) then b.res else {})
  {
    var tasks := [a, b];
    forall x | (a.Covers(t) && x in a.res) || (b.Covers(t) && x in b.res) ensures x in TakenAt(tasks, t) {
      assert tasks[if a.Covers(t) && x in a.res then 0 else 1].Covers(t);
    }
  }

  lemma BothTaken(g: Chart, h: Chart, out: Chart, a: Task, b: Task, policy: Policy, t: int)
    requires |g.cells| >= 1 && |h.cells| >= 1 && Begin(h) == Begin(g) && End(h) == End(g)
    requires Pointwise(g, h, Begin(g), End(g), a, true, policy) && Pointwise(h, out, Begin(h), End(h), b, true, policy)
    ensures FreeAt(out, t) == if InSpan(g, t) then FreeAt(g, t) - TakenAt([a, b], t) else FreeAt(g, t)
  {
    assert ContentAt(h, t) == ContentAfter(g, Begin(g), End(g), a, true, policy, t);
    assert ContentAt(out, t) == ContentAfter(h, Begin(h), End(h), b, true, policy, t);
    TwoTaken(a, b, t);
  }

  lemma TwoSweeps(g: Chart, l: nat, h: Chart, q: nat, out: Chart, a: Task, b: Task, policy: Policy)
    requires |g.cells| >= 1 && l <= q < |h.cells| && SweepJob(Cursor(g, 0, 0), a, true, policy) == Some(Cursor(h, l, q))
    requires var c := SweepJob(Cursor(h, l, q), b, true, policy); c.Some? && c.value.chart == out
    ensures SweepJobs(Cursor(g, 0, 0), [a, b], true, policy) == Some(out)
  {
    hide SweepJob;
    var tasks := [a, b];
    assert tasks[1..] == [b] && [b][1..] == [];
    var c := SweepJob(Cursor(h, l, q), b, true, policy).value;
    assert SweepJobs(c, [], true, policy) == Some(out);
    assert SweepJobs(Cursor(h, l, q), [b], true, policy) == Some(out);
  }

  /** Two jobs in time order, the second with resources that are free for it: one sweep over both
      does what it should exactly when the first instant after each job is one of the chart and
      they are not tangled, which can be read off the jobs and the slot that the first of them
      begins in. */
  lemma TwoJobsExact(g: Chart, l: nat, a: Task, b: Task, policy: Policy)
    requires Wf(g) && a.walltime >= 1 && b.walltime >= 1 && a.start <= b.start && Takeable(g, a, b)
    requires a.start <= End(g) ==> BeginsIn(g, l, a.start)
    ensures SweepIsRight(g, [a, b], policy) <==> Inside(g, a) && Inside(g, b) && Untangled(g.cells[l], a, b)
  {
    if a.Last() < b.start {
      InTurnExact(g, [a, b], policy);
      assert [a, b][0] == a && [a, b][1] == b;
    } else if !Inside(g, a) {
      FirstOutside(g, a, b, policy);
    } else if !Inside(g, b) {
      SecondOutside(g, l, a, b, policy);
    } else {
      OverlapExact(g, l, a, b, policy);
    }
  }

  lemma FirstFails(g: Chart, a: Task, b: Task, policy: Policy)
    requires |g.cells| >= 1 && SweepJob(Cursor(g, 0, 0), a, true, policy).None?
    ensures SweepJobs(Cursor(g, 0, 0), [a, b], true, policy).None?
  {
    assert [a, b][0] == a;
  }

  /** A first job that is over too early breaks the first slot, and an overlapping second one
      cuts it again; one that goes on too long makes the program fail. */
  lemma FirstOutside(g: Chart, a: Task, b: Task, policy: Policy)
    requires Wf(g) && a.walltime >= 1 && b.walltime >= 1 && a.start <= b.start <= a.Last() && !Inside(g, a)
    ensures !SweepIsRight(g, [a, b], policy)
  {
    hide SweepJob, SweepJobs;
    if a.start + a.walltime < Begin(g) {
      var h := FirstTooEarly(g, a, policy);
      HeadCutAgain(g, h, a, b, policy);
      SweepOfTwo(g, h, 0, 0, a, b, policy);
    } else {
      RunsOff(Cursor(g, 0, 0), a, true, policy);
      FirstFails(g, a, b, policy);
    }
  }

  lemma SweepOfTwo(g: Chart, h: Chart, l: nat, q: nat, a: Task, b: Task, policy: Policy)
    requires |g.cells| >= 1 && l <= q < |h.cells| && SweepJob(Cursor(g, 0, 0), a, true, policy) == Some(Cursor(h, l, q))
    ensures var r := SweepJob(Cursor(h, l, q), b, true, policy);
            SweepJobs(Cursor(g, 0, 0), [a, b], true, policy) == if r.Some? then Some(r.value.chart) else None
  {
    var r := SweepJob(Cursor(h, l, q), b, true, policy);
    hide SweepJob;
    if r.Some? {
      TwoSweeps(g, l, h, q, r.value.chart, a, b, policy);
    } else {
      assert [a, b][0] == a && [a, b][1..] == [b] && [b][0] == b;
      assert SweepJobs(Cursor(h, l, q), [b], true, policy).None?;
    }
  }

  lemma HeadCutAgain(g: Chart, h: Chart, a: Task, b: Task, policy: Policy)
    requires Wf(g) && HeadCut(g, h, a) && a.Last() + 1 < Begin(g) && b.start <= a.Last() && b.walltime >= 1
    ensures var r := SweepJob(Cursor(h, 0, 0), b, true, policy); r.Some? ==> BrokenHead(r.value.chart)
  {
    hide Split, Moved;
    assert SeekLeft(h, 0, 0, b.start) == Some((0, 0));
    var r := SeekRight(h, 0, 0, b.start + b.walltime);
    if r.Some? {
      SplitFirst(h, 0, r.value.0 + 1, b, true, policy, Place(h, 0, r.value.0, b, true, policy));
    }
  }

  /** A second job that is over too early cuts the first slot short; one that goes on too long
      makes the program fail. */
  lemma SecondOutside(g: Chart, l: nat, a: Task, b: Task, policy: Policy)
    requires Wf(g) && a.walltime >= 1 && b.walltime >= 1 && a.start <= b.start <= a.Last()
    requires Inside(g, a) && !Inside(g, b) && BeginsIn(g, l, a.start)
    ensures !SweepIsRight(g, [a, b], policy)
  {
    hide SweepJob, SweepJobs, Pointwise;
    var h, q := AfterOne(g, l, a, policy);
    SweepOfTwo(g, h, l, q, a, b, policy);
    if End(g) < b.start + b.walltime {
      RunsOff(Cursor(h, l, q), b, true, policy);
    } else {
      var r, out := SecondSweep(h, l, q, a, b, policy);
      assert l == 0 by {
        if l > 0 {
          Ordered(g, 0, l - 1);
        }
      }
      SplitFirst(h, 0, r + 1, b, true, policy, out);
      assert BrokenHead(out);
    }
  }

  lemma OverlapExact(g: Chart, l: nat, a: Task, b: Task, policy: Policy)
    requires Wf(g) && Inside(g, a) && Inside(g, b) && a.walltime >= 1 && b.walltime >= 1
    requires a.start <= b.start <= a.Last() && BeginsIn(g, l, a.start) && Takeable(g, a, b)
    ensures SweepIsRight(g, [a, b], policy) <==> Untangled(g.cells[l], a, b)
  {
    hide SweepJob, SweepJobs, Wf, Takeable, Untangled, Place, Pointwise, TakenAt, Window;
    var h, q := AfterOne(g, l, a, policy);
    InsideToo(g, h, b);
    var r, out := SecondSweep(h, l, q, a, b, policy);
    TwoSweeps(g, l, h, q, out, a, b, policy);
    if Untangled(g.cells[l], a, b) {
      UntangledIsWindow(h, l, q, r, g.cells[l], a, b);
      var out' := PlaceIsPointwise(h, l, r, b, true, policy);
      forall t ensures FreeAt(out, t) == if InSpan(g, t) then FreeAt(g, t) - TakenAt([a, b], t) else FreeAt(g, t) {
        BothTaken(g, h, out, a, b, policy, t);
      }
    } else {
      TangledIsWrong(g, h, l, r, g.cells[l], a, b, policy, out);
    }
  }

  lemma InsideToo(g: Chart, h: Chart, b: Task)
    requires |g.cells| >= 1 && |h.cells| >= 1 && Begin(h) == Begin(g) && End(h) == End(g) && Inside(g, b)
    ensures Inside(h, b)
  {
  }

  // ------------------------------------------------------------------------ an example

  /** Two jobs in one free slot: the second starts and stops while the first runs, and the first
      leaves a part of the slot before it. The sweep goes wrong. */
  lemma OverlapBreaksSweep(account: Account, policy: Policy)
    ensures var a := Task(10, 50, {1}, None, NoPlaceholder, account);
            var b := Task(20, 10, {2}, None, NoPlaceholder, account);
            && Wf(OneSlot()) && Inside(OneSlot(), a) && Inside(OneSlot(), b) && Takeable(OneSlot(), a, b)
            && !SweepIsRight(OneSlot(), [a, b], policy)
  {
    var a := Task(10, 50, {1}, None, NoPlaceholder, account);
    var b := Task(20, 10, {2}, None, NoPlaceholder, account);
    forall t | InSpan(OneSlot(), t) ensures FreeAt(OneSlot(), t) == {1, 2} {
      ContentOf(OneSlot(), 0, t);
    }
    TwoJobsExact(OneSlot(), 0, a, b, policy);
  }
}
