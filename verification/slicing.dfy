/** Slicing all slots of a new slot set where the quota rules change (the loop at the end of
    SlotSet.__init__ in oar/kao/slot.py), as a function of the chart, and which slots get the
    rules in force.
 */
module Slicing {
  import opened Options
  import opened Sharing
  import opened Gantt
  import opened Temporal

  /** The slots from `i` on one after the other, as long as there are any and the rules of the
      last one go on behind it. */
  function SliceFrom(g: Chart, i: nat, rules: Period, cal: Calendar): Sliced
    requires i <= |g.cells| && rules.duration >= 0 && NeverNegative(cal)
    decreases |g.cells| - i
  {
    if i == |g.cells| || rules.duration == 0 then Sliced(g, rules)
    else
      var s := Slice(g, i, rules, cal);
      SliceFrom(s.chart, i + 1 + |s.chart.cells| - |g.cells|, s.rules, cal)
  }

  lemma OneTail(g: Chart, i: nat, rules: Period, cal: Calendar, k: nat)
    requires i < k < |g.cells| && rules.duration >= 1 && NeverNegative(cal) && Length(g.cells[i]) <= rules.duration
    ensures var h := Slice(g, i, rules, cal).chart; |h.cells| == |g.cells| && h.cells[k] == g.cells[k]
  {
  }

  /** The slots behind the one that is sliced stay as they are. */
  lemma {:induction false} SliceTail(g: Chart, i: nat, rules: Period, cal: Calendar, k: nat)
    requires i < k < |g.cells| && rules.duration >= 1 && NeverNegative(cal)
    ensures var h := Slice(g, i, rules, cal).chart; h.cells[k+|h.cells|-|g.cells|] == g.cells[k]
    decreases Length(g.cells[i])
  {
    hide Slice, Replace;
    var c := g.cells[i];
    if Length(c) <= rules.duration {
      OneTail(g, i, rules, cal, k);
    } else {
      var h := Replace(g, i, Halves(c, g.lastId, rules));
      ReplaceCells(g, i, Halves(c, g.lastId, rules));
      SliceUnfold(g, i, rules, cal, h);
      var next := cal(h.cells[i+1].b);
      if next.duration > 0 {
        SliceTail(h, i + 1, next, cal, k + 1);
      }
    }
  }

  /** The id of the slot at a position, or 0 behind the last one. */
  function IdAt(g: Chart, k: nat): int {
    if k < |g.cells| then g.cells[k].id else 0
  }

  lemma SliceFromStep(g: Chart, k: nat, rules: Period, cal: Calendar, s: Sliced) returns (next: nat)
    requires k < |g.cells| && rules.duration >= 1 && NeverNegative(cal) && s == Slice(g, k, rules, cal)
    ensures next == k + 1 + |s.chart.cells| - |g.cells| <= |s.chart.cells| && s.rules.duration >= 0
    ensures SliceFrom(g, k, rules, cal) == SliceFrom(s.chart, next, s.rules, cal)
    ensures IdAt(s.chart, next) == IdAt(g, k + 1) && |s.chart.cells| - next < |g.cells| - k
  {
    hide Slice;
    next := k + 1 + |s.chart.cells| - |g.cells|;
    if k + 1 < |g.cells| {
      SliceTail(g, k, rules, cal, k + 1);
    }
  }

  lemma SliceFromEnds(g: Chart, k: nat, rules: Period, cal: Calendar)
    requires k <= |g.cells| && rules.duration >= 0 && NeverNegative(cal) && (k == |g.cells| || rules.duration == 0)
    ensures SliceFrom(g, k, rules, cal) == Sliced(g, rules)
  {
  }

  // ------------------------------------------------------------------ the rules in force

  /** The rules in force at `t`, when those with `id` last until right before `until`; nothing
      from the instant on for which the calendar says nothing. */
  function InForce(until: int, id: int, cal: Calendar, t: int): Option<int>
    requires NeverNegative(cal)
    decreases if t < until then 0 else t - until + 1
  {
    if t < until then Some(id)
    else
      var next := cal(until);
      if next.duration <= 0 then None else InForce(until + next.duration, next.id, cal, t)
  }

  /** One period ends, and another may begin, at `t`. */
  predicate Turn(until: int, cal: Calendar, t: int)
    requires NeverNegative(cal)
    decreases if t < until then 0 else t - until + 1
  {
    t == until || (t > until && cal(until).duration > 0 && Turn(until + cal(until).duration, cal, t))
  }

  lemma {:induction false} StaysOver(until: int, id: int, cal: Calendar, t: int, u: int)
    requires NeverNegative(cal) && t <= u && InForce(until, id, cal, t).None?
    ensures InForce(until, id, cal, u).None?
    decreases if t < until then 0 else t - until + 1
  {
    var next := cal(until);
    if next.duration > 0 {
      StaysOver(until + next.duration, next.id, cal, t, u);
    }
  }

  /** Slot `c` has the rules that are in force all through it, or no rules if none are. */
  ghost predicate HasRules(c: Cell, until: int, id: int, cal: Calendar)
    requires NeverNegative(cal)
  {
    && (InForce(until, id, cal, c.b).None? ==> c.rulesId == -1)
    && (InForce(until, id, cal, c.b).Some? ==>
          forall t :: c.b <= t <= c.e ==> InForce(until, id, cal, t) == Some(c.rulesId))
  }

  /** The rules that go on behind the sliced slot are those in force there. */
  ghost predicate GoesOn(until: int, id: int, cal: Calendar, end: int, rules: Period)
    requires NeverNegative(cal)
  {
    if InForce(until, id, cal, end).None? then rules.duration == 0
    else
      && (rules.duration == 0 <==> Turn(until, cal, end + 1))
      && (forall t :: t > end ==>
            InForce(until, id, cal, t) == InForce(end + 1 + rules.duration, rules.id, cal, t))
      && (forall t :: t > end ==> (Turn(until, cal, t) <==> Turn(end + 1 + rules.duration, cal, t)))
  }

  /** From the end of a period on, the rules in force are those that the calendar says then. */
  lemma NextInForce(until: int, id: int, cal: Calendar, t: int)
    requires NeverNegative(cal) && cal(until).duration > 0 && t >= until
    ensures InForce(until, id, cal, t) == InForce(until + cal(until).duration, cal(until).id, cal, t)
    ensures t > until ==> (Turn(until, cal, t) <==> Turn(until + cal(until).duration, cal, t))
  {
  }

  lemma HasNextRules(c: Cell, until: int, id: int, cal: Calendar)
    requires NeverNegative(cal) && cal(until).duration > 0 && c.b >= until
    requires HasRules(c, until + cal(until).duration, cal(until).id, cal)
    ensures HasRules(c, until, id, cal)
  {
    hide InForce;
    NextInForce(until, id, cal, c.b);
    forall t | c.b <= t <= c.e
      ensures InForce(until, id, cal, t) == InForce(until + cal(until).duration, cal(until).id, cal, t)
    {
      NextInForce(until, id, cal, t);
    }
  }

  lemma GoesOnNext(until: int, id: int, cal: Calendar, end: int, rules: Period)
    requires NeverNegative(cal) && cal(until).duration > 0 && end >= until
    requires GoesOn(until + cal(until).duration, cal(until).id, cal, end, rules)
    ensures GoesOn(until, id, cal, end, rules)
  {
    hide InForce, Turn;
    NextInForce(until, id, cal, end);
    NextInForce(until, id, cal, end + 1);
    forall t | t > end
      ensures InForce(until, id, cal, t) == InForce(until + cal(until).duration, cal(until).id, cal, t)
      ensures Turn(until, cal, t) <==> Turn(until + cal(until).duration, cal, t)
    {
      NextInForce(until, id, cal, t);
    }
  }

  /** The parts of a slice begin no earlier than the slot; the slots before stay as they are. */
  ghost predicate InPlace(g: Chart, i: nat, s: Sliced)
    requires i < |g.cells| && |s.chart.cells| >= |g.cells|
  {
    && s.chart.cells[i].b == g.cells[i].b
    && (forall k :: i <= k <= i + |s.chart.cells| - |g.cells| ==> s.chart.cells[k].b >= g.cells[i].b)
    && (forall k :: 0 <= k < i ==> s.chart.cells[k] == g.cells[k])
  }

  lemma OneInPlace(g: Chart, i: nat, rules: Period, cal: Calendar)
    requires i < |g.cells| && rules.duration >= 1 && NeverNegative(cal) && Length(g.cells[i]) <= rules.duration
    ensures InPlace(g, i, Slice(g, i, rules, cal))
  {
  }

  lemma TwoInPlace(g: Chart, i: nat, h: Chart, s: Sliced)
    requires i + 1 < |h.cells| == |g.cells| + 1 && |s.chart.cells| >= |h.cells|
    requires h.cells[i].b == g.cells[i].b <= h.cells[i+1].b && forall k :: 0 <= k < i ==> h.cells[k] == g.cells[k]
    requires s.chart == h || InPlace(h, i + 1, s)
    ensures InPlace(g, i, s) && s.chart.cells[i] == h.cells[i]
  {
  }

  lemma {:induction false} SliceInPlace(g: Chart, i: nat, rules: Period, cal: Calendar, s: Sliced)
    requires i < |g.cells| && rules.duration >= 1 && NeverNegative(cal)
    requires s == Slice(g, i, rules, cal)
    ensures InPlace(g, i, s)
    decreases Length(g.cells[i])
  {
    hide InPlace, Slice, Replace;
    var c := g.cells[i];
    if Length(c) <= rules.duration {
      OneInPlace(g, i, rules, cal);
    } else {
      var h := Replace(g, i, Halves(c, g.lastId, rules));
      ReplaceCells(g, i, Halves(c, g.lastId, rules));
      SliceUnfold(g, i, rules, cal, h);
      var next := cal(h.cells[i+1].b);
      if next.duration > 0 {
        SliceInPlace(h, i + 1, next, cal, s);
      }
      TwoInPlace(g, i, h, s);
    }
  }

  /** The parts of a slice have the rules in force, and what goes on behind it is right. */
  ghost predicate SlicedWell(g: Chart, i: nat, until: int, id: int, cal: Calendar, s: Sliced)
    requires i < |g.cells| && NeverNegative(cal) && |s.chart.cells| >= |g.cells|
  {
    && GoesOn(until, id, cal, g.cells[i].e, s.rules)
    && forall k :: i <= k <= i + |s.chart.cells| - |g.cells| ==> HasRules(s.chart.cells[k], until, id, cal)
  }

  lemma SlicedOnce(g: Chart, i: nat, rules: Period, cal: Calendar)
    requires i < |g.cells| && g.cells[i].b <= g.cells[i].e && rules.duration >= 1 && NeverNegative(cal)
    requires Length(g.cells[i]) <= rules.duration
    ensures SlicedWell(g, i, g.cells[i].b + rules.duration, rules.id, cal, Slice(g, i, rules, cal))
  {
  }

  lemma SlicedInTwo(g: Chart, i: nat, rules: Period, cal: Calendar, h: Chart, s: Sliced)
    requires i < |g.cells| && 1 <= rules.duration < Length(g.cells[i]) && NeverNegative(cal)
    requires h == Replace(g, i, Halves(g.cells[i], g.lastId, rules)) && i + 1 < |h.cells| == |g.cells| + 1
    requires h.cells[i] == Halves(g.cells[i], g.lastId, rules)[0]
    requires h.cells[i+1] == Halves(g.cells[i], g.lastId, rules)[1]
    requires |s.chart.cells| >= |h.cells| && s.chart.cells[i] == h.cells[i]
    requires var until := g.cells[i].b + rules.duration;
             if cal(until).duration == 0 then s == Sliced(h, cal(until))
             else
               && SlicedWell(h, i + 1, until + cal(until).duration, cal(until).id, cal, s)
               && forall k :: i < k <= i + |s.chart.cells| - |g.cells| ==> s.chart.cells[k].b >= until
    ensures SlicedWell(g, i, g.cells[i].b + rules.duration, rules.id, cal, s)
  {
    var until := g.cells[i].b + rules.duration;
    if cal(until).duration > 0 {
      hide GoesOn;
      GoesOnNext(until, rules.id, cal, g.cells[i].e, s.rules);
      forall k | i < k <= i + |s.chart.cells| - |g.cells| ensures HasRules(s.chart.cells[k], until, rules.id, cal) {
        HasNextRules(s.chart.cells[k], until, rules.id, cal);
      }
    }
  }

  /** Slicing one slot gives each part the rules in force. */
  lemma {:induction false} SliceHasRules(g: Chart, i: nat, rules: Period, cal: Calendar, s: Sliced)
    requires i < |g.cells| && g.cells[i].b <= g.cells[i].e && rules.duration >= 1 && NeverNegative(cal)
    requires s == Slice(g, i, rules, cal)
    ensures SlicedWell(g, i, g.cells[i].b + rules.duration, rules.id, cal, s)
    decreases Length(g.cells[i])
  {
    hide SlicedWell, Slice;
    var c := g.cells[i];
    if Length(c) <= rules.duration {
      SlicedOnce(g, i, rules, cal);
    } else {
      var h := Replace(g, i, Halves(c, g.lastId, rules));
      ReplaceCells(g, i, Halves(c, g.lastId, rules));
      SliceUnfold(g, i, rules, cal, h);
      if cal(h.cells[i+1].b).duration > 0 {
        SliceHasRules(h, i + 1, cal(h.cells[i+1].b), cal, s);
        SliceInPlace(h, i + 1, cal(h.cells[i+1].b), cal, s);
        TwoInPlace(g, i, h, s);
      }
      SlicedInTwo(g, i, rules, cal, h, s);
    }
  }

  // ------------------------------------------------------------------------- all slots

  /** What slicing one slot makes of the chart. */
  lemma SliceStep(g: Chart, i: nat, rules: Period, cal: Calendar, s: Sliced) returns (k: nat)
    requires Wf(g) && Solid(g) && i < |g.cells| && rules.duration >= 1 && NeverNegative(cal)
    requires s == Slice(g, i, rules, cal)
    ensures i < k == i + 1 + |s.chart.cells| - |g.cells| <= |s.chart.cells| && Wf(s.chart) && Solid(s.chart)
    ensures SlicedWell(g, i, g.cells[i].b + rules.duration, rules.id, cal, s) && InPlace(g, i, s)
    ensures forall m :: k <= m < |s.chart.cells| ==> s.chart.cells[m] == g.cells[m-k+i+1]
    ensures k < |s.chart.cells| ==> s.chart.cells[k].b == g.cells[i].e + 1
  {
    hide Slice, SlicedWell, InPlace;
    SliceHasRules(g, i, rules, cal, s);
    SliceInPlace(g, i, rules, cal, s);
    var j := SliceParts(g, i, rules, cal, s);
    k := j + 1;
    PartsAreSolid(g, i, j, rules, cal, s);
    if i + 1 < |g.cells| {
      assert g.cells[i+1].b == g.cells[i].e + 1;
    }
  }

  lemma PartsAreSolid(g: Chart, i: nat, j: nat, rules: Period, cal: Calendar, s: Sliced)
    requires Solid(g) && Spliced(g, s.chart, i, j) && SlicesOf(g.cells[i], s.chart, i, j, rules, cal)
    ensures Wf(s.chart) && Solid(s.chart) && j == i + |s.chart.cells| - |g.cells|
    ensures forall m :: j < m < |s.chart.cells| ==> s.chart.cells[m] == g.cells[m-j+i]
  {
    forall m | 0 <= m < |s.chart.cells| ensures s.chart.cells[m].b <= s.chart.cells[m].e {
      if m < i {
        assert s.chart.cells[m] == g.cells[m];
      } else if m > j {
        assert s.chart.cells[m] == g.cells[m-j+i];
      }
    }
  }

  /** Up to `j` the slots have the rules in force; from `j` on they are untouched, because no
      rules are in force there, or one period ended with a slot. */
  ghost predicate Upto(g: Chart, h: Chart, i: nat, j: nat, until: int, id: int, cal: Calendar)
    requires NeverNegative(cal) && i < |g.cells|
  {
    && |h.cells| >= |g.cells| && i + 1 + |h.cells| - |g.cells| <= |h.cells|
    && i < j <= |h.cells| && i + 1 + |h.cells| - |g.cells| <= j
    && h.cells[i].b == g.cells[i].b
    && (forall k :: 0 <= k < i ==> h.cells[k] == g.cells[k])
    && (forall k :: i <= k < j ==> HasRules(h.cells[k], until, id, cal))
    && (forall k :: j <= k < |h.cells| ==> h.cells[k] == g.cells[k-|h.cells|+|g.cells|])
    && (j < |h.cells| ==> InForce(until, id, cal, h.cells[j].b).None? || Turn(until, cal, h.cells[j].b))
  }

  /** The slicing stops at the latest behind the first slot with which a period ends. */
  ghost predicate NoFurther(g: Chart, h: Chart, i: nat, j: nat, until: int, id: int, cal: Calendar)
    requires NeverNegative(cal)
  {
    forall m :: i <= m < |g.cells| - 1 && TurnsAt(g, m, until, id, cal) ==> j <= m + 1 + |h.cells| - |g.cells|
  }

  /** A period ends with slot `m`, and rules are in force behind it. */
  predicate TurnsAt(g: Chart, m: int, until: int, id: int, cal: Calendar)
    requires NeverNegative(cal) && 0 <= m < |g.cells|
  {
    Turn(until, cal, g.cells[m].e + 1) && InForce(until, id, cal, g.cells[m].e + 1).Some?
  }

  /** The slicing ends with the first slot it cuts. */
  lemma StopsHere(g: Chart, i: nat, rules: Period, cal: Calendar, s: Sliced, k: nat)
    requires Wf(g) && i < |g.cells| && rules.duration >= 1 && NeverNegative(cal)
    requires i < k == i + 1 + |s.chart.cells| - |g.cells| <= |s.chart.cells|
    requires SlicedWell(g, i, g.cells[i].b + rules.duration, rules.id, cal, s) && InPlace(g, i, s)
    requires forall m :: k <= m < |s.chart.cells| ==> s.chart.cells[m] == g.cells[m-k+i+1]
    requires k < |s.chart.cells| ==> s.chart.cells[k].b == g.cells[i].e + 1
    requires k == |s.chart.cells| || s.rules.duration == 0
    ensures Upto(g, s.chart, i, k, g.cells[i].b + rules.duration, rules.id, cal)
    ensures NoFurther(g, s.chart, i, k, g.cells[i].b + rules.duration, rules.id, cal)
  {
    hide InForce, Turn, HasRules;
    var until := g.cells[i].b + rules.duration;
    if InForce(until, rules.id, cal, g.cells[i].e).None? {
      StaysOver(until, rules.id, cal, g.cells[i].e, g.cells[i].e + 1);
    }
  }

  lemma HasRulesBehind(c: Cell, until: int, id: int, cal: Calendar, end: int, rules: Period)
    requires NeverNegative(cal) && GoesOn(until, id, cal, end, rules) && rules.duration > 0 && c.b > end
    requires HasRules(c, end + 1 + rules.duration, rules.id, cal)
    ensures HasRules(c, until, id, cal)
  {
  }

  /** The slicing goes on behind the first slot. */
  lemma StopsLater(g: Chart, h: Chart, i: nat, rules: Period, cal: Calendar, s: Sliced, k: nat, j: nat)
    requires Wf(g) && Wf(h) && i < |g.cells| && rules.duration >= 1 && NeverNegative(cal)
    requires i < k == i + 1 + |s.chart.cells| - |g.cells| < |s.chart.cells| && s.rules.duration > 0
    requires SlicedWell(g, i, g.cells[i].b + rules.duration, rules.id, cal, s) && InPlace(g, i, s)
    requires forall m :: k <= m < |s.chart.cells| ==> s.chart.cells[m] == g.cells[m-k+i+1]
    requires s.chart.cells[k].b == g.cells[i].e + 1
    requires var u := g.cells[i].e + 1 + s.rules.duration;
             Upto(s.chart, h, k, j, u, s.rules.id, cal) && NoFurther(s.chart, h, k, j, u, s.rules.id, cal)
    ensures Upto(g, h, i, j, g.cells[i].b + rules.duration, rules.id, cal)
    ensures NoFurther(g, h, i, j, g.cells[i].b + rules.duration, rules.id, cal)
  {
    hide InForce, Turn, HasRules, Wf;
    var until, end := g.cells[i].b + rules.duration, g.cells[i].e;
    forall m | i <= m < j ensures HasRules(h.cells[m], until, rules.id, cal) {
      if m < k {
        assert h.cells[m] == s.chart.cells[m];
      } else {
        Ordered(h, k, m);
        HasRulesBehind(h.cells[m], until, rules.id, cal, end, s.rules);
      }
    }
    if j < |h.cells| {
      Ordered(h, k, j);
    }
    BoundBehind(g, h, i, rules, cal, s, k, j);
  }

  lemma BoundBehind(g: Chart, h: Chart, i: nat, rules: Period, cal: Calendar, s: Sliced, k: nat, j: nat)
    requires Wf(g) && i < |g.cells| && rules.duration >= 1 && NeverNegative(cal)
    requires i < k == i + 1 + |s.chart.cells| - |g.cells| < |s.chart.cells| && s.rules.duration > 0
    requires GoesOn(g.cells[i].b + rules.duration, rules.id, cal, g.cells[i].e, s.rules)
    requires forall m :: k <= m < |s.chart.cells| ==> s.chart.cells[m] == g.cells[m-k+i+1]
    requires NoFurther(s.chart, h, k, j, g.cells[i].e + 1 + s.rules.duration, s.rules.id, cal)
    ensures NoFurther(g, h, i, j, g.cells[i].b + rules.duration, rules.id, cal)
  {
    hide InForce, Turn, Wf;
    var until := g.cells[i].b + rules.duration;
    forall m | i <= m < |g.cells| - 1 && TurnsAt(g, m, until, rules.id, cal)
      ensures j <= m + 1 + |h.cells| - |g.cells|
    {
      if m > i {
        Ordered(g, i, m);
        LaterEnds(g, i, m);
        var n := m + k - i - 1;
        assert s.chart.cells[n] == g.cells[m];
        assert TurnsAt(s.chart, n, g.cells[i].e + 1 + s.rules.duration, s.rules.id, cal);
      }
    }
  }

  lemma LaterEnds(g: Chart, i: nat, m: nat)
    requires Wf(g) && i < m < |g.cells|
    ensures g.cells[m].e + 1 > g.cells[i].e
  {
    Ordered(g, i, m);
  }

  lemma {:induction false} SliceFromStops(g: Chart, i: nat, rules: Period, cal: Calendar, s: Sliced) returns (j: nat)
    requires Wf(g) && Solid(g) && i < |g.cells| && rules.duration >= 1 && NeverNegative(cal)
    requires s == SliceFrom(g, i, rules, cal)
    ensures Wf(s.chart)
    ensures Upto(g, s.chart, i, j, g.cells[i].b + rules.duration, rules.id, cal)
    ensures NoFurther(g, s.chart, i, j, g.cells[i].b + rules.duration, rules.id, cal)
    decreases |g.cells| - i
  {
    hide Wf, Solid, Slice, SlicedWell, InPlace, Upto, NoFurther;
    var s1 := Slice(g, i, rules, cal);
    var k := SliceStep(g, i, rules, cal, s1);
    if k == |s1.chart.cells| || s1.rules.duration == 0 {
      j := k;
      StopsHere(g, i, rules, cal, s1, k);
    } else {
      j := SliceFromStops(s1.chart, k, s1.rules, cal, s);
      StopsLater(g, s.chart, i, rules, cal, s1, k, j);
    }
  }

  /** No slot has rules yet, and no rules are called -1. */
  ghost predicate NoRulesYet(g: Chart, rules: Period, cal: Calendar) {
    && (forall k :: 0 <= k < |g.cells| ==> g.cells[k].rulesId == -1)
    && rules.id != -1 && forall t :: cal(t).id != -1
  }

  lemma {:induction false} NeverUnnamed(until: int, id: int, cal: Calendar, t: int)
    requires NeverNegative(cal) && id != -1 && forall t :: cal(t).id != -1
    ensures InForce(until, id, cal, t) != Some(-1)
    decreases if t < until then 0 else t - until + 1
  {
    if t >= until && cal(until).duration > 0 {
      NeverUnnamed(until + cal(until).duration, cal(until).id, cal, t);
    }
  }

  lemma AllHaveRules(g: Chart, h: Chart, j: nat, until: int, id: int, cal: Calendar, k: nat)
    requires NeverNegative(cal) && Wf(g) && Wf(h) && Upto(g, h, 0, j, until, id, cal)
    requires forall m :: 0 <= m < |g.cells| ==> g.cells[m].rulesId == -1
    requires forall m :: 0 <= m < |g.cells| - 1 ==> !TurnsAt(g, m, until, id, cal)
    requires k < |h.cells|
    ensures HasRules(h.cells[k], until, id, cal)
  {
    if k >= j {
      hide Turn, InForce;
      var m := j - 1 - |h.cells| + |g.cells|;
      assert h.cells[j] == g.cells[m+1] && g.cells[m+1].b == g.cells[m].e + 1;
      assert !TurnsAt(g, m, until, id, cal);
      Ordered(h, j, k);
      StaysOver(until, id, cal, h.cells[j].b, h.cells[k].b);
    }
  }

  lemma OneHasNoRules(g: Chart, h: Chart, j: nat, rules: Period, until: int, cal: Calendar, m: nat)
    requires NeverNegative(cal) && Wf(g) && Solid(g) && Upto(g, h, 0, j, until, rules.id, cal)
    requires NoRulesYet(g, rules, cal)
    requires NoFurther(g, h, 0, j, until, rules.id, cal)
    requires m < |g.cells| - 1 && TurnsAt(g, m, until, rules.id, cal) && h.cells != []
    ensures exists k :: 0 <= k < |h.cells| && !HasRules(h.cells[k], until, rules.id, cal)
  {
    hide Turn, InForce;
    var k := m + 1 + |h.cells| - |g.cells|;
    assert h.cells[k] == g.cells[m+1] && g.cells[m+1].b == g.cells[m].e + 1;
    NeverUnnamed(until, rules.id, cal, h.cells[k].b);
    assert !HasRules(h.cells[k], until, rules.id, cal) by {
      assert h.cells[k].b <= h.cells[k].e && h.cells[k].rulesId == -1;
    }
  }

  /** All slots have the rules in force all through them. */
  ghost predicate AllRight(h: Chart, until: int, id: int, cal: Calendar)
    requires NeverNegative(cal)
  {
    forall k :: 0 <= k < |h.cells| ==> HasRules(h.cells[k], until, id, cal)
  }

  /** A period ends with a slot behind which there are slots and rules. */
  predicate EndsWithSlot(g: Chart, until: int, id: int, cal: Calendar)
    requires NeverNegative(cal)
  {
    exists m :: 0 <= m < |g.cells| - 1 && TurnsAt(g, m, until, id, cal)
  }

  lemma UptoIsRight(g: Chart, h: Chart, j: nat, rules: Period, until: int, cal: Calendar)
    requires NeverNegative(cal) && Wf(g) && Solid(g) && Wf(h) && Upto(g, h, 0, j, until, rules.id, cal)
    requires NoRulesYet(g, rules, cal) && NoFurther(g, h, 0, j, until, rules.id, cal)
    ensures AllRight(h, until, rules.id, cal) <==> !EndsWithSlot(g, until, rules.id, cal)
  {
    hide HasRules, TurnsAt, Wf, Upto, NoFurther, NoRulesYet, Solid;
    if m: nat :| m < |g.cells| - 1 && TurnsAt(g, m, until, rules.id, cal) {
      NotEmpty(h);
      OneHasNoRules(g, h, j, rules, until, cal, m);
    } else {
      Unlabelled(g, rules, cal);
      forall k: nat | k < |h.cells| ensures HasRules(h.cells[k], until, rules.id, cal) {
        AllHaveRules(g, h, j, until, rules.id, cal, k);
      }
    }
  }

  lemma NotEmpty(h: Chart)
    requires Wf(h)
    ensures h.cells != []
  {
  }

  lemma Unlabelled(g: Chart, rules: Period, cal: Calendar)
    requires NoRulesYet(g, rules, cal)
    ensures forall m :: 0 <= m < |g.cells| ==> g.cells[m].rulesId == -1
  {
  }

  /** A new slot set of slots that have no rules yet, sliced from its begin on: every slot has
      the rules in force all through it, or none where none are, exactly when no period ends
      with a slot behind which there are slots and rules. So it is always right for a slot set
      of one slot. */
  lemma SlicedExactly(g: Chart, rules: Period, cal: Calendar, s: Sliced)
    requires Wf(g) && Solid(g) && rules.duration >= 1 && NeverNegative(cal) && NoRulesYet(g, rules, cal)
    requires s == SliceFrom(g, 0, rules, cal)
    ensures Wf(s.chart)
    ensures AllRight(s.chart, Begin(g) + rules.duration, rules.id, cal)
       <==> !EndsWithSlot(g, Begin(g) + rules.duration, rules.id, cal)
    ensures |g.cells| == 1 ==> AllRight(s.chart, Begin(g) + rules.duration, rules.id, cal)
  {
    hide SliceFrom, HasRules, TurnsAt, Upto, NoFurther, Solid, NoRulesYet, AllRight;
    var j := SliceFromStops(g, 0, rules, cal, s);
    UptoIsRight(g, s.chart, j, rules, Begin(g) + rules.duration, cal);
  }

  // ------------------------------------------------------------------------- an example

  /** Whenever a period ends, rules 2 come into force for 1000 instants. */
  function TwoNext(t: int): Period {
    Period(2, 1000)
  }

  /** Two slots, the first of which ends with the first period: the second one gets no rules. */
  lemma SecondSlotIsMissed() returns (g: Chart)
    ensures Wf(g) && Solid(g) && |g.cells| == 2 && g.cells[1].b == 50 && Begin(g) == 0
    ensures NoRulesYet(g, Period(1, 50), TwoNext)
    ensures InForce(50, 1, TwoNext, 50) == Some(2)
    ensures !AllRight(SliceFrom(g, 0, Period(1, 50), TwoNext).chart, 50, 1, TwoNext)
  {
    g := Chart([Cell(1, 0, 49, {1}, map[], -1, NO_TABLES), Cell(2, 50, 100, {1}, map[], -1, NO_TABLES)], 2);
    hide SliceFrom;
    assert TurnsAt(g, 0, 50, 1, TwoNext);
    SlicedExactly(g, Period(1, 50), TwoNext, SliceFrom(g, 0, Period(1, 50), TwoNext));
  }
}
