/** Slicing a slot where the quota rules change (temporal_quotas_split_slot in
    oar/kao/slot.py), as a function of the chart. The calendar is an oracle: for an instant,
    the rules in force from then on and for how long, or a duration of 0 when there are none.
 */
module Temporal {
  import opened Gantt

  datatype Period = Period(id: int, duration: int)

  type Calendar = int -> Period

  ghost predicate NeverNegative(cal: Calendar) {
    forall t :: cal(t).duration >= 0
  }

  /** The two slots that replace slot `c` when its rules last `duration`: the new one has no
      rules yet, and counters of its own that start from nothing. */
  function Halves(c: Cell, lastId: int, rules: Period): seq<Cell> {
    [c.(e := c.b + rules.duration - 1, rulesId := rules.id),
     Cell(lastId + 1, c.b + rules.duration, c.e, c.free, map[], -1, c.tables)]
  }

  function Length(c: Cell): int {
    c.e - c.b + 1
  }

  datatype Sliced = Sliced(chart: Chart, rules: Period)

  function Slice(g: Chart, i: nat, rules: Period, cal: Calendar): (s: Sliced)
    requires i < |g.cells| && rules.duration >= 1 && NeverNegative(cal)
    ensures |s.chart.cells| >= |g.cells| && s.rules.duration >= 0
    decreases Length(g.cells[i])
  {
    var c := g.cells[i];
    if Length(c) <= rules.duration then
      Sliced(Replace(g, i, [c.(rulesId := rules.id)]), Period(rules.id, rules.duration - Length(c)))
    else
      var h := Replace(g, i, Halves(c, g.lastId, rules));
      ReplaceCells(g, i, Halves(c, g.lastId, rules));
      var next := cal(h.cells[i+1].b);
      if next.duration == 0 then Sliced(h, next) else Slice(h, i + 1, next, cal)
  }

  // ---------------------------------------------------------------------- what slicing does

  /** Slot `k` has the rules in force when it begins, and they last to its end. */
  ghost predicate UnderOneRule(c: Cell, rules: Period) {
    c.rulesId == rules.id && Length(c) <= rules.duration
  }

  /** The slots from `i` to `j` are what slot `c` has become: they cover its time and have its
      resources, the first is under `first`, the others under what the calendar says at their
      begin, except for a last one when it says nothing. */
  ghost predicate SlicesOf(c: Cell, h: Chart, i: nat, j: nat, first: Period, cal: Calendar) {
    && i <= j < |h.cells|
    && h.cells[i].id == c.id && h.cells[i].b == c.b && h.cells[j].e == c.e
    && (forall k :: i <= k <= j ==>
          h.cells[k].free == c.free && h.cells[k].tables == c.tables && h.cells[k].b <= h.cells[k].e)
    && h.cells[i].counters == c.counters && (forall k :: i < k <= j ==> h.cells[k].counters == map[])
    && UnderOneRule(h.cells[i], first)
    && (forall k :: i < k < j ==> UnderOneRule(h.cells[k], cal(h.cells[k].b)))
    && (i < j ==>
          if cal(h.cells[j].b).duration == 0 then h.cells[j].rulesId == -1
          else UnderOneRule(h.cells[j], cal(h.cells[j].b)))
  }

  lemma HalvesTile(c: Cell, lastId: int, rules: Period)
    requires 1 <= rules.duration < Length(c)
    ensures Tiles(Halves(c, lastId, rules), c, lastId)
  {
  }

  /** `h` is `g` with the slot at `i` replaced by those from `i` to `j`, in order over the same time. */
  ghost predicate Spliced(g: Chart, h: Chart, i: nat, j: nat) {
    && |h.cells| == |g.cells| + j - i && i <= j < |h.cells| && i < |g.cells|
    && (forall k :: 0 <= k < i ==> h.cells[k] == g.cells[k])
    && (forall k :: j < k < |h.cells| ==> h.cells[k] == g.cells[k-j+i])
    && Wf(h) && Begin(h) == Begin(g) && End(h) == End(g)
  }

  lemma ReplaceSplices(g: Chart, i: nat, p: seq<Cell>, h: Chart)
    requires Wf(g) && i < |g.cells| && Tiles(p, g.cells[i], g.lastId) && h == Replace(g, i, p)
    ensures Spliced(g, h, i, i + |p| - 1) && forall j :: 0 <= j < |p| ==> h.cells[i+j] == p[j]
  {
    ReplaceCells(g, i, p);
    ReplacedWf(g, h, i, p);
  }

  lemma SpliceTwice(g: Chart, h: Chart, out: Chart, i: nat, j: nat)
    requires Spliced(g, h, i, i + 1) && Spliced(h, out, i + 1, j)
    ensures Spliced(g, out, i, j) && out.cells[i] == h.cells[i]
  {
  }

  lemma SlicesJoin(c: Cell, h: Chart, out: Chart, i: nat, j: nat, lastId: int, rules: Period, cal: Calendar)
    requires 1 <= rules.duration < Length(c) && i + 1 < |h.cells|
    requires h.cells[i] == Halves(c, lastId, rules)[0] && h.cells[i+1] == Halves(c, lastId, rules)[1]
    requires i < j && SlicesOf(h.cells[i+1], out, i + 1, j, cal(h.cells[i+1].b), cal) && out.cells[i] == h.cells[i]
    requires cal(h.cells[i+1].b).duration > 0
    ensures SlicesOf(c, out, i, j, rules, cal)
  {
    forall k | i <= k <= j
      ensures out.cells[k].free == c.free && out.cells[k].tables == c.tables && out.cells[k].b <= out.cells[k].e
      ensures i < k ==> out.cells[k].counters == map[]
    {
      assert i < k ==> out.cells[k].free == h.cells[i+1].free && out.cells[k].b <= out.cells[k].e;
    }
    assert j > i + 1 ==> UnderOneRule(out.cells[i+1], cal(out.cells[i+1].b));
  }

  lemma SliceUnfold(g: Chart, i: nat, rules: Period, cal: Calendar, h: Chart)
    requires i < |g.cells| && 1 <= rules.duration < Length(g.cells[i]) && NeverNegative(cal)
    requires h == Replace(g, i, Halves(g.cells[i], g.lastId, rules))
    ensures i + 1 < |h.cells|
    ensures var next := cal(h.cells[i+1].b);
            Slice(g, i, rules, cal) == if next.duration == 0 then Sliced(h, next) else Slice(h, i + 1, next, cal)
  {
    ReplaceCells(g, i, Halves(g.cells[i], g.lastId, rules));
  }

  lemma SliceWhole(g: Chart, i: nat, rules: Period, cal: Calendar, s: Sliced)
    requires Wf(g) && i < |g.cells| && g.cells[i].b <= g.cells[i].e && rules.duration >= 1 && NeverNegative(cal)
    requires s == Slice(g, i, rules, cal) && Length(g.cells[i]) <= rules.duration
    ensures Spliced(g, s.chart, i, i) && SlicesOf(g.cells[i], s.chart, i, i, rules, cal)
  {
    var p := [g.cells[i].(rulesId := rules.id)];
    ReplaceSplices(g, i, p, s.chart);
    assert s.chart.cells[i+0] == p[0];
    hide Wf, Slice, Replace;
  }

  lemma SliceInTwo(g: Chart, i: nat, rules: Period, cal: Calendar, h: Chart)
    requires Wf(g) && i < |g.cells| && 1 <= rules.duration < Length(g.cells[i]) && NeverNegative(cal)
    requires h == Replace(g, i, Halves(g.cells[i], g.lastId, rules))
    ensures Spliced(g, h, i, i + 1) && Wf(h) && h.cells[i+1].b <= h.cells[i+1].e
    ensures Length(h.cells[i+1]) < Length(g.cells[i])
    ensures var p := Halves(g.cells[i], g.lastId, rules); h.cells[i] == p[0] && h.cells[i+1] == p[1]
    ensures cal(h.cells[i+1].b).duration >= 0
    ensures cal(h.cells[i+1].b).duration == 0 ==> SlicesOf(g.cells[i], h, i, i + 1, rules, cal)
  {
    hide Replace, Wf, Tiles, SlicesOf;
    var p := Halves(g.cells[i], g.lastId, rules);
    HalvesTile(g.cells[i], g.lastId, rules);
    ReplaceSplices(g, i, p, h);
    assert h.cells[i+0] == p[0] && h.cells[i+1] == p[1];
    if cal(h.cells[i+1].b).duration == 0 {
      SlicesEnd(g.cells[i], h, i, g.lastId, rules, cal);
    }
  }

  lemma SlicesEnd(c: Cell, h: Chart, i: nat, lastId: int, rules: Period, cal: Calendar)
    requires 1 <= rules.duration < Length(c) && i + 1 < |h.cells|
    requires h.cells[i] == Halves(c, lastId, rules)[0] && h.cells[i+1] == Halves(c, lastId, rules)[1]
    requires cal(h.cells[i+1].b).duration == 0
    ensures SlicesOf(c, h, i, i + 1, rules, cal)
  {
  }

  /** Slicing ends, keeps the list in order over the same time, and cuts the slot into parts
      that are each under one rule. */
  lemma {:induction false} SliceParts(g: Chart, i: nat, rules: Period, cal: Calendar, s: Sliced) returns (j: nat)
    requires Wf(g) && i < |g.cells| && g.cells[i].b <= g.cells[i].e && rules.duration >= 1 && NeverNegative(cal)
    requires s == Slice(g, i, rules, cal)
    ensures Spliced(g, s.chart, i, j) && SlicesOf(g.cells[i], s.chart, i, j, rules, cal)
    decreases Length(g.cells[i])
  {
    if Length(g.cells[i]) <= rules.duration {
      j := i;
      SliceWhole(g, i, rules, cal, s);
    } else {
      var h := Replace(g, i, Halves(g.cells[i], g.lastId, rules));
      SliceUnfold(g, i, rules, cal, h);
      SliceInTwo(g, i, rules, cal, h);
      hide *;
      if cal(h.cells[i+1].b).duration == 0 {
        j := i + 1;
      } else {
        j := SliceParts(h, i + 1, cal(h.cells[i+1].b), cal, s);
        SpliceTwice(g, h, s.chart, i, j);
        SlicesJoin(g.cells[i], h, s.chart, i, j, g.lastId, rules, cal);
      }
    }
  }

  /** What is free does not change at any instant, nor do the tables. */
  lemma SliceKeepsFree(g: Chart, i: nat, rules: Period, cal: Calendar, s: Sliced, t: int)
    requires Wf(g) && i < |g.cells| && g.cells[i].b <= g.cells[i].e && rules.duration >= 1 && NeverNegative(cal)
    requires s == Slice(g, i, rules, cal)
    ensures Wf(s.chart) && Begin(s.chart) == Begin(g) && End(s.chart) == End(g)
    ensures FreeAt(s.chart, t) == FreeAt(g, t) && ContentAt(s.chart, t).tables == ContentAt(g, t).tables
  {
    var j := SliceParts(g, i, rules, cal, s);
    hide Slice;
    if InSpan(g, t) {
      SliceFree(g, i, j, rules, cal, s, t);
    } else {
      OutsideSpan(g, t);
      OutsideSpan(s.chart, t);
    }
  }

  lemma SliceFree(g: Chart, i: nat, j: nat, rules: Period, cal: Calendar, s: Sliced, t: int)
    requires Wf(g) && Spliced(g, s.chart, i, j) && SlicesOf(g.cells[i], s.chart, i, j, rules, cal) && InSpan(g, t)
    ensures FreeAt(s.chart, t) == FreeAt(g, t) && ContentAt(s.chart, t).tables == ContentAt(g, t).tables
  {
    var k := FindCover(s.chart, t, |s.chart.cells| - 1);
    ContentOf(s.chart, k, t);
    if i <= k <= j {
      Ordered(s.chart, i, k);
      Ordered(s.chart, k, j);
      ContentOf(g, i, t);
    } else {
      ContentOf(g, if k < i then k else k - j + i, t);
    }
  }

  /** The counters of the slot are kept at every instant exactly when it had none or was not
      cut: the new slots start to count from nothing. */
  lemma SliceKeepsCounters(g: Chart, i: nat, rules: Period, cal: Calendar, s: Sliced)
    requires Wf(g) && i < |g.cells| && g.cells[i].b <= g.cells[i].e && rules.duration >= 1 && NeverNegative(cal)
    requires s == Slice(g, i, rules, cal)
    ensures (forall t :: Covers(g, i, t) ==> ContentAt(s.chart, t).counters == g.cells[i].counters)
       <==> g.cells[i].counters == map[] || Length(g.cells[i]) <= rules.duration
  {
    var c := g.cells[i];
    var j := SliceParts(g, i, rules, cal, s);
    assert j == i <==> Length(c) <= rules.duration;
    hide Slice;
    forall t | Covers(g, i, t)
      ensures ContentAt(s.chart, t).counters == if t <= s.chart.cells[i].e then c.counters else map[]
    {
      SliceCounter(g, i, j, rules, cal, s, t);
    }
    if j > i {
      assert Covers(g, i, c.e);
      Ordered(s.chart, i, j);
    }
  }

  lemma SliceCounter(g: Chart, i: nat, j: nat, rules: Period, cal: Calendar, s: Sliced, t: int)
    requires Wf(g) && Spliced(g, s.chart, i, j) && SlicesOf(g.cells[i], s.chart, i, j, rules, cal) && Covers(g, i, t)
    ensures ContentAt(s.chart, t).counters == if t <= s.chart.cells[i].e then g.cells[i].counters else map[]
  {
    Ordered(g, 0, i);
    var k := FindCover(s.chart, t, j);
    if k < i {
      Ordered(s.chart, k, i);
    }
    ContentOf(s.chart, k, t);
    Ordered(s.chart, i, k);
  }
}
