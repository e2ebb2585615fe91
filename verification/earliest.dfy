/** The first-fit search over slots finds the earliest start among all instants, not only
    among those at which a slot begins.
 */
module Earliest {
  import opened Options
  import opened Requests
  import opened QuotaRules
  import opened Gantt
  import opened FirstFit

  /** The resources free at every instant from `t` on during `walltime`. */
  ghost function WindowFree(g: Chart, t: int, walltime: int): set<int> {
    set r | r in FreeAt(g, t) && FreeThroughout(g, t, walltime, r)
  }

  ghost predicate FreeThroughout(g: Chart, t: int, walltime: int, r: int) {
    forall s :: t <= s < t + walltime ==> r in FreeAt(g, s)
  }

  /** A job variant may start at instant `t`: it ends inside the chart and what is free all
      along satisfies the request. */
  ghost predicate Admits(g: Chart, t: int, ask: Ask, hy: Hierarchy)
    requires |g.cells| >= 1 && Known(hy, ask.request)
  {
    && Begin(g) <= t && t + ask.walltime - 1 <= End(g)
    && Find(WindowFree(g, t, ask.walltime), ask.request, hy) != {}
  }

  /** An empty slot never has less than what is free both right before and right after it.
      Charts without empty slots are of this kind, and so is everything obtained from them
      by taking resources out. */
  ghost predicate Harmless(g: Chart) {
    forall k :: 0 <= k < |g.cells| && g.cells[k].b == g.cells[k].e + 1 ==>
      FreeAt(g, g.cells[k].b - 1) * FreeAt(g, g.cells[k].b) <= g.cells[k].free
  }

  lemma SolidIsHarmless(g: Chart)
    requires Solid(g)
    ensures Harmless(g)
  {
  }

  lemma {:induction false} CoverBetween(g: Chart, p: nat, q: nat, t: int) returns (j: nat)
    requires Wf(g) && p <= q < |g.cells| && g.cells[p].b <= t <= g.cells[q].e
    ensures p <= j <= q && Covers(g, j, t)
    decreases q - p
  {
    if g.cells[q].b <= t {
      j := q;
    } else {
      assert g.cells[q].b == g.cells[q-1].e + 1;
      j := CoverBetween(g, p, q - 1, t);
    }
  }

  /** What a stretch of slots has in common is free at each of its instants. */
  lemma CommonIsFree(g: Chart, p: nat, q: nat, walltime: int)
    requires Wf(g) && p <= q < |g.cells| && walltime >= 1
    requires g.cells[q].e - g.cells[p].b + 1 >= walltime
    ensures Common(g, p, q) <= WindowFree(g, g.cells[p].b, walltime)
  {
    var t := g.cells[p].b;
    forall s | t <= s < t + walltime ensures Common(g, p, q) <= FreeAt(g, s) {
      var j := CoverBetween(g, p, q, s);
      ContentOf(g, j, s);
    }
  }

  /** What is free throughout a window that starts inside slot `i` is common to the slots
      that a window starting with slot `i` needs. */
  lemma FreeIsCommon(g: Chart, i: nat, q: nat, t: int, walltime: int)
    requires Wf(g) && Harmless(g) && walltime >= 1
    requires Covers(g, i, t) && i <= q < |g.cells| && q == RightFrom(g, i, i, walltime)
    ensures WindowFree(g, t, walltime) <= Common(g, i, q)
  {
    forall x, k | x in WindowFree(g, t, walltime) && i <= k <= q ensures x in g.cells[k].free {
      assert FreeThroughout(g, t, walltime, x);
      WindowReaches(g, i, q, k, t, walltime);
      var c := g.cells[k];
      if c.b <= c.e {
        var s := Max(c.b, t);
        assert Covers(g, k, s);
        ContentOf(g, k, s);
        assert x in FreeAt(g, s);
      } else {
        assert x in FreeAt(g, c.b - 1) && x in FreeAt(g, c.b);
      }
    }
  }

  lemma WindowReaches(g: Chart, i: nat, q: nat, k: nat, t: int, walltime: int)
    requires Wf(g) && walltime >= 1 && Covers(g, i, t)
    requires i <= k <= q < |g.cells| && q == RightFrom(g, i, i, walltime)
    ensures g.cells[k].b < t + walltime && t <= g.cells[k].e + 1
    ensures g.cells[k].b == g.cells[k].e + 1 ==> t < g.cells[k].b
    ensures g.cells[k].b <= g.cells[k].e ==> t <= g.cells[k].e
  {
    Ordered(g, i, k);
    if i < k {
      assert g.cells[k-1].e - g.cells[i].b + 1 < walltime;
      assert g.cells[k].b == g.cells[k-1].e + 1;
    }
  }

  /** Whatever instant admits the variant, the variant fits from the beginning of the slot
      that contains this instant. */
  lemma AdmitsFits(g: Chart, t: int, ask: Ask, hy: Hierarchy) returns (i: nat)
    requires Wf(g) && Harmless(g) && Known(hy, ask.request) && ask.walltime >= 1
    requires Admits(g, t, ask, hy)
    ensures Covers(g, i, t) && Fits(g, i, ask, hy)
  {
    i := FindCover(g, t, |g.cells| - 1);
    var q := RightFrom(g, i, i, ask.walltime);
    assert q != -1 by {
      assert g.cells[|g.cells|-1].e - g.cells[i].b + 1 >= ask.walltime;
    }
    FreeIsCommon(g, i, q, t, ask.walltime);
    FindMonotone(WindowFree(g, t, ask.walltime), Common(g, i, q), ask.request, hy);
    FitsAtRight(g, i, ask, hy);
  }

  lemma FitsAdmits(g: Chart, p: nat, ask: Ask, hy: Hierarchy)
    requires Wf(g) && Known(hy, ask.request) && ask.walltime >= 1 && p < |g.cells|
    requires Fits(g, p, ask, hy)
    ensures Admits(g, g.cells[p].b, ask, hy)
  {
    hide Fits, WindowFree, Common, Find;
    FitsAtRight(g, p, ask, hy);
    var q := RightFrom(g, p, p, ask.walltime);
    CommonIsFree(g, p, q, ask.walltime);
    FindMonotone(Common(g, p, q), WindowFree(g, g.cells[p].b, ask.walltime), ask.request, hy);
    Ordered(g, 0, p);
    Ordered(g, q, |g.cells| - 1);
  }

  /** `t` is the least instant from `from` on that admits the variant. */
  ghost predicate IsEarliest(g: Chart, from: int, t: int, ask: Ask, hy: Hierarchy)
    requires |g.cells| >= 1 && Known(hy, ask.request)
  {
    from <= t && Admits(g, t, ask, hy) && forall s :: from <= s < t ==> !Admits(g, s, ask, hy)
  }

  /** When quotas do not interfere, a search that starts at slot `p` answers exactly when some
      instant from the begin of that slot on admits the variant, its start is the least such
      instant, and the resources it returns are free for the whole duration. Without empty
      slots they are what the request selects from everything that is free all along. */
  lemma FirstFitIsOptimal(g: Chart, p: nat, ask: Ask, who: Applicant, hy: Hierarchy, policy: Policy, a: Answer)
    requires Wf(g) && Harmless(g) && Known(hy, ask.request) && ask.walltime >= 1 && p < |g.cells|
    requires !policy.enabled || who.noQuotas
    requires a == First(g, p, ask, who, hy, policy)
    ensures a.NoAnswer? <==> forall t :: g.cells[p].b <= t ==> !Admits(g, t, ask, hy)
    ensures a.Answer? ==> a.l <= a.r < |g.cells| && IsEarliest(g, g.cells[p].b, g.cells[a.l].b, ask, hy)
    ensures a.Answer? ==> {} != a.res <= WindowFree(g, g.cells[a.l].b, ask.walltime)
    ensures a.Answer? && Solid(g) ==> a.res == Find(WindowFree(g, g.cells[a.l].b, ask.walltime), ask.request, hy)
  {
    hide Wf, Harmless, Known, WindowFree, Common, Find, First, Fits, AllowedAt, NoneEarlier, QuotasAllow;
    FirstIsLeast(g, p, ask, who, hy, policy, a);
    forall t | g.cells[p].b <= t && Admits(g, t, ask, hy) ensures a.Answer? && g.cells[a.l].b <= t {
      NotLater(g, p, ask, who, hy, policy, a, t);
    }
    if a.Answer? {
      var t := g.cells[a.l].b;
      Ordered(g, p, a.l);
      FitsAdmits(g, a.l, ask, hy);
      CommonIsFree(g, a.l, a.r, ask.walltime);
      FindInside(Common(g, a.l, a.r), ask.request, hy);
      if Solid(g) {
        FreeIsCommon(g, a.l, a.r, t, ask.walltime);
        assert WindowFree(g, t, ask.walltime) == Common(g, a.l, a.r);
      }
    }
  }

  lemma NotLater(g: Chart, p: nat, ask: Ask, who: Applicant, hy: Hierarchy, policy: Policy, a: Answer, t: int)
    requires Wf(g) && Harmless(g) && Known(hy, ask.request) && ask.walltime >= 1 && p < |g.cells|
    requires !policy.enabled || who.noQuotas
    requires NoneEarlier(g, p, a, ask, who, hy, policy)
    requires a.Answer? ==> a.l < |g.cells|
    requires g.cells[p].b <= t && Admits(g, t, ask, hy)
    ensures a.Answer? && g.cells[a.l].b <= t
  {
    var i := AdmitsFits(g, t, ask, hy);
    if i < p {
      Ordered(g, i, p);
    }
    FitsAtRight(g, i, ask, hy);
    assert AllowedAt(g, i, ask, who, hy, policy);
    if a.Answer? {
      Ordered(g, a.l, i);
    }
  }

  // ------------------------------------ taking resources out leaves empty slots harmless

  /** What the job takes from what is free around instant `b`. */
  function Loss(task: Task, b: int): set<int> {
    if task.Covers(b) || task.Covers(b - 1) then task.res else {}
  }

  /** Every empty slot of `h` still has what was free around it in `g`, but for the job. */
  ghost predicate EmptyBound(g: Chart, h: Chart, task: Task) {
    forall k :: 0 <= k < |h.cells| && h.cells[k].b == h.cells[k].e + 1 ==>
      FreeAt(g, h.cells[k].b - 1) * FreeAt(g, h.cells[k].b) - Loss(task, h.cells[k].b) <= h.cells[k].free
  }

  lemma PiecesEmpty(c: Cell, lastId: int, task: Task, policy: Policy, j: nat)
    requires Meets(c, task) && c.b <= c.e + 1 && task.walltime >= 1
    requires j < |Pieces(c, lastId, task, true, policy)|
    requires var x := Pieces(c, lastId, task, true, policy)[j]; x.b == x.e + 1
    ensures var x := Pieces(c, lastId, task, true, policy)[j];
            x.free == c.free - task.res && (task.Covers(x.b) || task.Covers(x.b - 1))
            && (x.b == c.b || (c.b <= c.e && x.b == c.e + 1))
  {
  }

  /** What is free on both sides of a border of a slot is free in the slot. */
  lemma AtBorders(g: Chart, i: nat)
    requires Wf(g) && Harmless(g) && i < |g.cells|
    ensures var c := g.cells[i];
            && FreeAt(g, c.b - 1) * FreeAt(g, c.b) <= c.free
            && (c.b <= c.e ==> FreeAt(g, c.e) * FreeAt(g, c.e + 1) <= c.free)
  {
    var c := g.cells[i];
    if c.b <= c.e {
      assert Covers(g, i, c.b) && Covers(g, i, c.e);
      ContentOf(g, i, c.b);
      ContentOf(g, i, c.e);
    }
  }

  lemma PieceBound(g: Chart, i0: nat, lastId: int, task: Task, policy: Policy, j: nat)
    requires Wf(g) && Harmless(g) && task.walltime >= 1 && i0 < |g.cells| && Meets(g.cells[i0], task)
    requires j < |Pieces(g.cells[i0], lastId, task, true, policy)|
    requires var x := Pieces(g.cells[i0], lastId, task, true, policy)[j]; x.b == x.e + 1
    ensures var x := Pieces(g.cells[i0], lastId, task, true, policy)[j];
            FreeAt(g, x.b - 1) * FreeAt(g, x.b) - Loss(task, x.b) <= x.free
  {
    hide FreeAt, Harmless;
    AtBorders(g, i0);
    PiecesEmpty(g.cells[i0], lastId, task, policy, j);
  }

  lemma CutEmptyBound(g: Chart, f: Chart, i: nat, i0: nat, task: Task, policy: Policy, h: Chart)
    requires Wf(g) && Harmless(g) && task.walltime >= 1
    requires i < |f.cells| && i0 < |g.cells| && f.cells[i] == g.cells[i0] && Meets(f.cells[i], task)
    requires EmptyBound(g, f, task) && h == CutAt(f, i, task, true, policy)
    ensures EmptyBound(g, h, task)
  {
    hide Wf, Harmless, Meets, FreeAt, Loss, Pieces, CutAt;
    var p := Pieces(g.cells[i0], f.lastId, task, true, policy);
    CutAtReplaced(f, i, task, true, policy);
    forall k | 0 <= k < |h.cells| && h.cells[k].b == h.cells[k].e + 1
      ensures FreeAt(g, h.cells[k].b - 1) * FreeAt(g, h.cells[k].b) - Loss(task, h.cells[k].b) <= h.cells[k].free
    {
      if i <= k < i + |p| {
        assert h.cells[k] == p[k-i];
        PieceBound(g, i0, f.lastId, task, policy, k - i);
      } else {
        assert h.cells[k] == f.cells[if k < i then k else k - |p| + 1];
      }
    }
  }

  lemma {:induction false} SplitEmptyBound(g: Chart, f: Chart, i: nat, i0: nat, n: nat, task: Task, policy: Policy,
                                           out: Chart)
    requires Wf(g) && Harmless(g) && task.walltime >= 1
    requires Wf(f) && i + n <= |f.cells| && i0 + n <= |g.cells| && AllMeet(f, i, n, task)
    requires forall j :: i <= j < i + n ==> f.cells[j] == g.cells[j-i+i0]
    requires EmptyBound(g, f, task) && out == Split(f, i, n, task, true, policy)
    ensures EmptyBound(g, out, task)
    decreases n
  {
    hide Wf, Harmless, Meets, FreeAt, Split, EmptyBound, AllMeet;
    if n == 0 {
      SplitNothing(f, i, task, true, policy);
    } else {
      var h, k := EmptyBoundStep(g, f, i, i0, n, task, policy);
      SplitEmptyBound(g, h, k, i0 + 1, n - 1, task, policy, out);
    }
  }

  lemma EmptyBoundStep(g: Chart, f: Chart, i: nat, i0: nat, n: nat, task: Task, policy: Policy)
    returns (h: Chart, k: nat)
    requires Wf(g) && Harmless(g) && task.walltime >= 1
    requires Wf(f) && n > 0 && i + n <= |f.cells| && i0 + n <= |g.cells| && AllMeet(f, i, n, task)
    requires forall j :: i <= j < i + n ==> f.cells[j] == g.cells[j-i+i0]
    requires EmptyBound(g, f, task)
    ensures Wf(h) && k + n - 1 <= |h.cells| && AllMeet(h, k, n - 1, task)
    ensures forall j :: k <= j < k + n - 1 ==> h.cells[j] == g.cells[j-k+i0+1]
    ensures EmptyBound(g, h, task)
    ensures Split(f, i, n, task, true, policy) == Split(h, k, n - 1, task, true, policy)
  {
    h, k := SplitStepCut(f, i, n, task, true, policy);
    CutEmptyBound(g, f, i, i0, task, policy, h);
  }

  /** Taking a job out keeps the search optimal. */
  lemma PlaceKeepsHarmless(g: Chart, l: int, r: int, task: Task, policy: Policy)
    requires Wf(g) && Harmless(g) && Window(g, l, r, task) && task.walltime >= 1
    ensures Harmless(Place(g, l, r, task, true, policy))
  {
    var h := PlaceIsPointwise(g, l, r, task, true, policy);
    WindowMeets(g, l, r, task);
    SplitEmptyBound(g, g, l, l, r - l + 1, task, policy, h);
    BoundIsHarmless(g, h, task, policy);
  }

  lemma BoundIsHarmless(g: Chart, h: Chart, task: Task, policy: Policy)
    requires Wf(g) && Pointwise(g, h, Begin(g), End(g), task, true, policy)
    requires EmptyBound(g, h, task)
    ensures Harmless(h)
  {
    forall k | 0 <= k < |h.cells| && h.cells[k].b == h.cells[k].e + 1
      ensures FreeAt(h, h.cells[k].b - 1) * FreeAt(h, h.cells[k].b) <= h.cells[k].free
    {
      var b := h.cells[k].b;
      FreeAfterTaking(g, h, task, policy, b);
      FreeAfterTaking(g, h, task, policy, b - 1);
    }
  }

  lemma FreeAfterTaking(g: Chart, h: Chart, task: Task, policy: Policy, t: int)
    requires Wf(g) && Pointwise(g, h, Begin(g), End(g), task, true, policy)
    ensures FreeAt(h, t) == if task.Covers(t) then FreeAt(g, t) - task.res else FreeAt(g, t)
  {
    assert ContentAt(h, t) == ContentAfter(g, Begin(g), End(g), task, true, policy, t);
    if !InSpan(g, t) {
      OutsideSpan(g, t);
    }
  }
}
