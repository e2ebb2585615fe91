/** When a search that may only start from a required instant on finds the earliest start from
    that instant on, and when it starts later than it could.
 */
module Waiting {
  import opened Options
  import opened Requests
  import opened QuotaRules
  import opened Sharing
  import opened Gantt
  import opened FirstFit
  import opened Earliest
  import opened Assignment

  /** What is free all along from a later instant of a slot on is so from an earlier one on. */
  lemma WindowBack(g: Chart, i: nat, s: int, t: int, walltime: int)
    requires Wf(g) && Covers(g, i, s) && Covers(g, i, t) && s <= t && walltime >= 1
    ensures WindowFree(g, t, walltime) <= WindowFree(g, s, walltime)
  {
    forall x | x in WindowFree(g, t, walltime) ensures x in FreeAt(g, s) && FreeThroughout(g, s, walltime, x) {
      ContentOf(g, i, t);
      forall u | s <= u < s + walltime ensures x in FreeAt(g, u) {
        if u < t {
          ContentOf(g, i, u);
        } else {
          assert FreeThroughout(g, t, walltime, x);
        }
      }
      assert x in FreeAt(g, s);
    }
  }

  /** A variant that may start somewhere in a slot may start at any earlier instant of it. */
  lemma AdmitsBack(g: Chart, i: nat, s: int, t: int, ask: Ask, hy: Hierarchy)
    requires Wf(g) && Known(hy, ask.request) && ask.walltime >= 1
    requires Covers(g, i, s) && Covers(g, i, t) && s <= t && Admits(g, t, ask, hy)
    ensures Admits(g, s, ask, hy)
  {
    hide WindowFree, Known;
    WindowBack(g, i, s, t, ask.walltime);
    Ordered(g, 0, i);
    FindMonotone(WindowFree(g, t, ask.walltime), WindowFree(g, s, ask.walltime), ask.request, hy);
  }

  /** The instants from the required one to the next slot begin are in one slot, or before all. */
  lemma OneSlotBefore(g: Chart, minStart: int, from: int, t: int) returns (i: nat)
    requires Wf(g) && minStart >= 0 && LookFrom(g, minStart) == Some(from) && minStart <= t < from && Begin(g) <= t
    ensures Covers(g, i, minStart) && Covers(g, i, t)
  {
    var p := FirstFrom(g, 0, minStart).value;
    assert p > 0;
    i := p - 1;
    assert g.cells[p].b == g.cells[i].e + 1;
  }

  /** Between the required instant and the begin of the first slot that is tried, a variant
      may start only if it may start at the required instant. */
  lemma AdmitsBetween(g: Chart, minStart: int, from: int, t: int, ask: Ask, hy: Hierarchy)
    requires Wf(g) && Known(hy, ask.request) && ask.walltime >= 1
    requires minStart >= 0 && LookFrom(g, minStart) == Some(from) && minStart <= t < from && Admits(g, t, ask, hy)
    ensures Admits(g, minStart, ask, hy)
  {
    hide Known, WindowFree, LookFrom;
    var i := OneSlotBefore(g, minStart, from, t);
    AdmitsBack(g, i, minStart, t, ask, hy);
  }

  lemma LooksLater(g: Chart, minStart: int)
    requires |g.cells| >= 1 && minStart >= 0
    ensures var from := LookFrom(g, minStart); from.Some? ==> minStart <= from.value
  {
  }

  /** The search ends with the least instant from `t` on that admits the variant, and without
      an answer only if there is none. */
  ghost predicate FindsEarliest(g: Chart, s: Searched, t: int, ask: Ask, hy: Hierarchy)
    requires |g.cells| >= 1 && Known(hy, ask.request)
  {
    && s.Searched? && (s.answer.NoAnswer? ==> forall u :: t <= u ==> !Admits(g, u, ask, hy))
    && (s.answer.Answer? ==> s.answer.l < |g.cells| && IsEarliest(g, t, g.cells[s.answer.l].b, ask, hy))
  }

  /** A search that no quotas concern and that may start from `minStart` on finds the earliest
      start from there on exactly when a slot begins at `minStart`, or one begins later and the
      variant cannot start at `minStart`. Otherwise it starts later than it could, or fails. */
  lemma EarliestFromExactly(g: Chart, cache: Cache, ask: Ask, keyed: bool, who: Applicant, minStart: int,
                            hy: Hierarchy, policy: Policy)
    requires Wf(g) && Harmless(g) && CacheOk(g, cache, hy) && Known(hy, ask.request) && ask.walltime >= 1
    requires minStart >= 0 && (!policy.enabled || who.noQuotas)
    ensures keyed && ask in cache ==> exists p :: 0 <= p < |g.cells| && g.cells[p].id == cache[ask]
    ensures FindsEarliest(g, Search(g, cache, ask, keyed, who, minStart, hy, policy), minStart, ask, hy)
       <==> LookFrom(g, minStart) == Some(minStart)
            || (LookFrom(g, minStart).Some? && !Admits(g, minStart, ask, hy))
  {
    hide Harmless, Known, CacheOk, Search, Admits, Wf, LookFrom;
    SomeCells(g);
    CachedIsThere(g, cache, ask, hy);
    LooksLater(g, minStart);
    var from := LookFrom(g, minStart);
    if from.Some? {
      SearchIsEarliest(g, cache, ask, keyed, who, minStart, from.value, hy, policy);
      forall t | minStart <= t < from.value && Admits(g, t, ask, hy) ensures Admits(g, minStart, ask, hy) {
        AdmitsBetween(g, minStart, from.value, t, ask, hy);
      }
    } else {
      NowhereIsMissing(g, cache, ask, keyed, who, minStart, hy, policy);
    }
  }

  lemma NowhereIsMissing(g: Chart, cache: Cache, ask: Ask, keyed: bool, who: Applicant, minStart: int, hy: Hierarchy,
                         policy: Policy)
    requires |g.cells| >= 1 && Known(hy, ask.request) && minStart >= 0 && LookFrom(g, minStart).None?
    requires keyed && ask in cache ==> exists p :: 0 <= p < |g.cells| && g.cells[p].id == cache[ask]
    ensures Search(g, cache, ask, keyed, who, minStart, hy, policy).MissingKey?
  {
  }

  /** A job that no quotas concern gets the earliest finish over all instants from the required
      one on exactly when a slot begins there, or no variant that may start there would finish
      before the job does. */
  lemma OptimalFromExactly(g: Chart, job: Job, minStart: int, from: int, placed: bool, finish: int, hy: Hierarchy)
    requires Wf(g) && KnownJob(hy, job) && minStart >= 0 && LookFrom(g, minStart) == Some(from)
    requires IsOptimal(g, job, from, placed, finish, hy)
    ensures IsOptimal(g, job, minStart, placed, finish, hy)
       <==> from == minStart
            || forall i :: MayStart(g, job, i, minStart, minStart, hy) ==>
                 placed && finish <= minStart + job.variants[i].ask.walltime
  {
    hide Admits, Wf, LookFrom;
    SomeCells(g);
    LooksLater(g, minStart);
    forall i, t | MayStart(g, job, i, t, minStart, hy) && t < from ensures MayStart(g, job, i, minStart, minStart, hy) {
      AdmitsBetween(g, minStart, from, t, job.variants[i].ask, hy);
    }
    forall i, t | MayStart(g, job, i, t, from, hy) ensures MayStart(g, job, i, t, minStart, hy) {
    }
    forall i, t | MayStart(g, job, i, t, minStart, hy) && t >= from ensures MayStart(g, job, i, t, from, hy) {
    }
  }

  // ------------------------------------------------------------------------- an example

  /** Resource 2 is taken from instant 50 on. */
  function TwoSlots(): Chart {
    Chart([Cell(1, 0, 49, {1, 2}, map[], -1, NO_TABLES), Cell(2, 50, 100, {1}, map[], -1, NO_TABLES)], 2)
  }

  const CORES: Hierarchy := map["core" := [{1}, {2}]]
  const ONE_CORE := Ask(10, [SubRequest([("core", 1)], {1})])

  lemma OneCoreIsFound(free: set<int>)
    requires 1 in free
    ensures Known(CORES, ONE_CORE.request) && Find(free, ONE_CORE.request, CORES) != {}
  {
    var sub := ONE_CORE.request[0];
    assert sub.allowed * free == {1};
    assert LevelsOf(CORES, sub) == [[{1}, {2}]] && CountsOf(sub) == [1];
    assert FindSub(free, sub, CORES) == {1};
    assert FindFrom(free, ONE_CORE.request, CORES, 1) == (true, {});
  }

  lemma TwoSlotsAreWell()
    ensures Wf(TwoSlots()) && Harmless(TwoSlots())
  {
  }

  lemma CouldStart()
    ensures Known(CORES, ONE_CORE.request) && Admits(TwoSlots(), 10, ONE_CORE, CORES)
  {
    var g := TwoSlots();
    TwoSlotsAreWell();
    forall t | 0 <= t <= 49 ensures FreeAt(g, t) == {1, 2} {
      ContentOf(g, 0, t);
    }
    assert FreeThroughout(g, 10, 10, 1) && 1 in WindowFree(g, 10, 10);
    OneCoreIsFound(WindowFree(g, 10, 10));
  }

  /** A job that may start at 10, where its resource is free, is started at 50. */
  lemma StartsTooLate(who: Applicant, policy: Policy) returns (s: Searched)
    requires !policy.enabled || who.noQuotas
    ensures Wf(TwoSlots()) && Harmless(TwoSlots()) && Known(CORES, ONE_CORE.request)
    ensures Admits(TwoSlots(), 10, ONE_CORE, CORES)
    ensures s == Search(TwoSlots(), map[], ONE_CORE, false, who, 10, CORES, policy)
    ensures s.Searched? && s.answer.Answer? && s.answer.l == 1 && TwoSlots().cells[1].b == 50
  {
    hide Wf, Harmless, Admits, Known, Find;
    var g := TwoSlots();
    TwoSlotsAreWell();
    CouldStart();
    OneCoreIsFound(Common(g, 1, 1));
    s := Search(g, map[], ONE_CORE, false, who, 10, CORES, policy);
    assert FirstFrom(g, 0, 10) == FirstFrom(g, 1, 10) == Some(1);
    assert RightFrom(g, 1, 1, 10) == 1;
  }
}
