/** The search loops over the linked slots (oar/kao/scheduling.py and oar/kao/quotas.py):
    each is tied to the simple search on the chart.
 */
module Finding {
  import opened Options
  import opened Requests
  import opened QuotaRules
  import opened Gantt
  import opened FirstFit
  import opened Assignment
  import opened Slots

  /** The resources free in all slots from `sidLeft` to `sidRight`. */
  method IntersecItvsSlots(s: SlotSet, sidLeft: int, sidRight: int, ghost p: nat, ghost q: nat) returns (free: set<int>)
    requires s.Valid() && p <= q < |s.chart.cells| && s.chart.cells[p].id == sidLeft && s.chart.cells[q].id == sidRight
    ensures free == Common(s.chart, p, q)
  {
    s.Follow(p, q);
    assert s.Sees(p);
    var sid := sidLeft;
    free := s.slots[sid].itvs;
    ghost var k := p;
    while sid != sidRight
      invariant p <= k <= q && sid == s.chart.cells[k].id && free == Common(s.chart, p, k)
      decreases q - k
    {
      assert s.Sees(k) && s.Sees(k + 1);
      sid := s.slots[sid].next;
      free := free * s.slots[sid].itvs;
      k := k + 1;
    }
  }

  /** Goes on to the slot after `sid` and combines its counters, if it is under the same
      rules. */
  method CombineNext(total: Quotas, s: SlotSet, sid: int, ghost p: nat, ghost k: nat) returns (next: int, same: bool)
    requires s.Sees(k) && s.Sees(k + 1) && sid == s.chart.cells[k].id && total !in s.Repr
    requires p <= k && SameRules(s.chart, p, k) && total.counters == CommonCounters(s.chart, p, k)
    modifies total`counters
    ensures next == s.chart.cells[k+1].id && (same <==> SameRules(s.chart, p, k + 1))
    ensures same ==> total.counters == CommonCounters(s.chart, p, k + 1)
  {
    var slot := s.slots[sid];
    next := slot.next;
    if slot.rulesId != s.slots[next].rulesId {
      return next, false;
    }
    total.Combine(s.slots[next].quotas);
    same := true;
  }

  /** Combines the counters of all slots from `sidLeft` to `sidRight`, as long as they are
      under the same rules. */
  method CombineSlots(total: Quotas, s: SlotSet, sidLeft: int, sidRight: int, ghost p: nat,
                      ghost q: nat) returns (same: bool)
    requires s.Valid() && p <= q < |s.chart.cells| && s.chart.cells[p].id == sidLeft && s.chart.cells[q].id == sidRight
    requires total !in s.Repr && total.counters == map[]
    modifies total`counters
    ensures same <==> SameRules(s.chart, p, q)
    ensures same ==> total.counters == CommonCounters(s.chart, p, q)
  {
    s.Follow(p, q);
    hide SlotSet.Valid;
    var sid := sidLeft;
    ghost var g, k := s.chart, p;
    assert s.Sees(p);
    total.Combine(s.slots[sid].quotas);
    while sid != sidRight
      invariant s.chart == g && forall j :: p <= j <= q ==> s.Sees(j)
      invariant p <= k <= q && sid == g.cells[k].id
      invariant SameRules(g, p, k) && total.counters == CommonCounters(g, p, k)
      decreases q - k
    {
      assert k < q && s.Sees(k) && s.Sees(k + 1);
      sid, same := CombineNext(total, s, sid, p, k);
      k := k + 1;
      if !same {
        DifferentRules(g, p, k, q);
        return;
      }
    }
    same := true;
  }

  /** Whether quotas allow a candidate in all slots from `sidLeft` to `sidRight`. */
  method CheckSlotsQuotas(s: SlotSet, sidLeft: int, sidRight: int, account: Account, nb: int, duration: int,
                          ghost p: nat, ghost q: nat) returns (ok: bool, v: Option<Violation>)
    requires s.Valid() && p <= q < |s.chart.cells| && s.chart.cells[p].id == sidLeft && s.chart.cells[q].id == sidRight
    ensures ok == QuotasPass(s.chart, p, q, account, nb, duration, s.policy)
    ensures v.Some? ==> !ok && v.value.rule in s.policy.rules && v.value.limit == s.policy.rules[v.value.rule]
  {
    var total := new Quotas();
    var same := CombineSlots(total, s, sidLeft, sidRight, p, q);
    if !same {
      return false, None;
    }
    total.Update(account, s.policy.jobTypes, nb, duration);
    v := total.Check(s.policy.rules, account);
    ok := v.None?;
  }

  lemma {:induction false} DifferentRules(g: Chart, p: nat, k: nat, q: nat)
    requires p <= k <= q < |g.cells| && !SameRules(g, p, k)
    ensures !SameRules(g, p, q)
    decreases q
  {
    if k < q {
      DifferentRules(g, p, k, q - 1);
    }
  }

  // ------------------------------------------------------------------ the two-pointer search

  /** Later slots begin and end later, and begin after earlier ones end. */
  ghost predicate Sorted(g: Chart) {
    forall i, j :: 0 <= i < j < |g.cells| ==>
      g.cells[i].e < g.cells[j].b && g.cells[i].b <= g.cells[j].b && g.cells[i].e <= g.cells[j].e
  }

  lemma UsableIsSorted(g: Chart)
    requires Usable(g)
    ensures Sorted(g)
  {
    forall i, j | 0 <= i < j < |g.cells|
      ensures g.cells[i].e < g.cells[j].b && g.cells[i].b <= g.cells[j].b && g.cells[i].e <= g.cells[j].e
    {
      Ordered(g, i, j);
    }
  }

  ghost predicate SeesAll(s: SlotSet)
    reads s, s.Repr
  {
    && |s.chart.cells| >= 1
    && forall k :: 0 <= k < |s.chart.cells| ==> s.Sees(k)
  }

  /** The slot a search starts from: a cached one, the first one, or the first one that
      begins late enough. */
  method StartSlot(s: SlotSet, ask: Ask, keyed: bool, minStart: int, ghost hy: Hierarchy)
    returns (failed: bool, sid: int)
    requires s.Valid() && Usable(s.chart) && CacheOk(s.chart, s.cache, hy)
    ensures keyed && ask in s.cache ==> exists p :: 0 <= p < |s.chart.cells| && s.chart.cells[p].id == s.cache[ask]
    ensures var start := StartAt(s.chart, s.cache, ask, keyed, minStart);
            if failed then start.None?
            else start.Some? && start.value < |s.chart.cells| && sid == s.chart.cells[start.value].id
  {
    ghost var g := s.chart;
    assert ProperIds(g) && |g.cells| >= 1;
    s.Follow(0, |g.cells| - 1);
    failed, sid := false, 1;
    ghost var p: nat := 0;
    if keyed && ask in s.cache {
      CachedIsThere(g, s.cache, ask, hy);
    }
    assert g.cells[0].id == 1;
    if minStart < 0 {
      if keyed && ask in s.cache {
        sid := s.cache[ask];
        p := Position(g, sid);
      }
    } else {
      hide SlotSet.Valid;
      while s.slots[sid].b < minStart
        invariant p < |g.cells| && sid == g.cells[p].id && s.Sees(p)
        invariant FirstFrom(g, 0, minStart) == FirstFrom(g, p, minStart)
        decreases |g.cells| - p
      {
        sid := s.slots[sid].next;
        if sid == 0 {
          return true, 0;
        }
        p := p + 1;
        assert s.Sees(p);
      }
    }
  }

  /** Moves the right end of the window on until the window is long enough, if it can be. */
  method WidenRight(s: SlotSet, right: int, slotE: int, slotB: int, walltime: int, ghost q: nat)
    returns (ok: bool, right': int, slotE': int, ghost q': nat)
    requires SeesAll(s) && q < |s.chart.cells| && right == s.chart.cells[q].id && slotE == s.chart.cells[q].e
    requires forall k :: 0 <= k < q ==> s.chart.cells[k].e - slotB + 1 < walltime
    ensures ok ==> q <= q' < |s.chart.cells| && right' == s.chart.cells[q'].id && slotE' == s.chart.cells[q'].e
    ensures ok ==> slotE' - slotB + 1 >= walltime
    ensures forall k :: 0 <= k < (if ok then q' else |s.chart.cells|) ==> s.chart.cells[k].e - slotB + 1 < walltime
  {
    right', slotE', q' := right, slotE, q;
    while slotE' - slotB + 1 < walltime
      invariant q <= q' < |s.chart.cells| && right' == s.chart.cells[q'].id && slotE' == s.chart.cells[q'].e
      invariant forall k :: 0 <= k < q' ==> s.chart.cells[k].e - slotB + 1 < walltime
      decreases |s.chart.cells| - q'
    {
      assert s.Sees(q');
      assert q' + 1 < |s.chart.cells| ==> s.Sees(q' + 1);
      right' := s.slots[right'].next;
      if right' == 0 {
        return false, right', slotE', q';
      }
      slotE' := s.slots[right'].e;
      q' := q' + 1;
    }
    ok := true;
  }

  /** Whether the stretch of slots from `sidLeft` to `sidRight` serves the request, and with
      which resources; and whether quotas turn it down. */
  method TryWindow(s: SlotSet, sidLeft: int, sidRight: int, ask: Ask, who: Applicant, hy: Hierarchy, ghost p: nat,
                   ghost q: nat)
    returns (res: set<int>, allowed: bool)
    requires s.Valid() && Known(hy, ask.request)
    requires p <= q < |s.chart.cells| && s.chart.cells[p].id == sidLeft && s.chart.cells[q].id == sidRight
    ensures res == Find(Common(s.chart, p, q), ask.request, hy)
    ensures allowed <==> res != {} && QuotasAllow(s.chart, p, q, who, res, ask.walltime, s.policy)
  {
    var free := IntersecItvsSlots(s, sidLeft, sidRight, p, q);
    res := FindResourceHierarchiesJob(free, ask.request, hy);
    allowed := |res| != 0;
    if |res| != 0 && s.policy.enabled && !who.noQuotas {
      var nb := |res * s.policy.countable|;
      var v;
      allowed, v := CheckSlotsQuotas(s, sidLeft, sidRight, who.account, nb, ask.walltime, p, q);
    }
  }

  /** One round of the search: `First` at `p` is decided by the window from `p` to `q`. */
  lemma FirstHere(g: Chart, p: nat, q: nat, ask: Ask, who: Applicant, hy: Hierarchy, policy: Policy)
    requires Sorted(g) && Known(hy, ask.request) && ask.walltime >= 1 && p < |g.cells| && q < |g.cells|
    requires g.cells[q].e - g.cells[p].b + 1 >= ask.walltime
    requires forall k :: 0 <= k < q ==> g.cells[k].e - g.cells[p].b + 1 < ask.walltime
    ensures p <= q && RightFrom(g, p, p, ask.walltime) == q
    ensures var res := Find(Common(g, p, q), ask.request, hy);
            && (FitsNow(g, p, ask, hy) <==> res != {})
            && First(g, p, ask, who, hy, policy) ==
               (if res != {} && QuotasAllow(g, p, q, who, res, ask.walltime, policy) then Answer(p, q, res)
                else First(g, p + 1, ask, who, hy, policy))
  {
  }

  lemma NoRight(g: Chart, p: nat, ask: Ask, who: Applicant, hy: Hierarchy, policy: Policy)
    requires Known(hy, ask.request) && p < |g.cells|
    requires forall k :: 0 <= k < |g.cells| ==> g.cells[k].e - g.cells[p].b + 1 < ask.walltime
    ensures First(g, p, ask, who, hy, policy) == NoAnswer
  {
  }

  /** What one round of the search comes to: the list is too short, the window suits, or the
      search goes on with the next slot, be it for lack of resources or because of quotas. */
  datatype Round = TooShort | Suits(res: set<int>, right: int) | GoOn(refused: bool, next: int, right: int, slotE: int)

  /** The right end of a window: slot `right` at position `q`, with only slots before it that
      end too early for a window that begins at `slotB`. */
  ghost predicate RightEnd(g: Chart, q: int, right: int, slotE: int, slotB: int, walltime: int) {
    && 0 <= q < |g.cells| && right == g.cells[q].id && slotE == g.cells[q].e
    && forall k :: 0 <= k < q ==> g.cells[k].e - slotB + 1 < walltime
  }

  method SearchRound(s: SlotSet, sidLeft: int, right: int, slotE: int, ask: Ask, who: Applicant, hy: Hierarchy,
                     ghost p: nat, ghost q: nat)
    returns (r: Round, ghost q': nat)
    requires s.Valid() && SeesAll(s) && Sorted(s.chart) && Known(hy, ask.request) && ask.walltime >= 1
    requires p < |s.chart.cells| && sidLeft == s.chart.cells[p].id
    requires RightEnd(s.chart, q, right, slotE, s.chart.cells[p].b, ask.walltime)
    ensures r.TooShort? ==> First(s.chart, p, ask, who, hy, s.policy) == NoAnswer
    ensures r.Suits? ==>
      && p <= q' < |s.chart.cells| && r.right == s.chart.cells[q'].id && r.res != {}
      && First(s.chart, p, ask, who, hy, s.policy) == Answer(p, q', r.res)
    ensures r.GoOn? ==>
      && First(s.chart, p, ask, who, hy, s.policy) == First(s.chart, p + 1, ask, who, hy, s.policy)
      && (r.refused <==> FitsNow(s.chart, p, ask, hy)) && r.next == NextId(s.chart, p)
      && RightEnd(s.chart, q', r.right, r.slotE, s.chart.cells[p].b, ask.walltime)
  {
    ghost var g := s.chart;
    assert s.Sees(p);
    var slotB := s.slots[sidLeft].b;
    var ok, right', slotE', qq := WidenRight(s, right, slotE, slotB, ask.walltime, q);
    q' := qq;
    if !ok {
      NoRight(g, p, ask, who, hy, s.policy);
      return TooShort, q';
    }
    FirstHere(g, p, q', ask, who, hy, s.policy);
    var res, allowed := TryWindow(s, sidLeft, right', ask, who, hy, p, q');
    if allowed {
      r := Suits(res, right');
    } else {
      r := GoOn(|res| != 0, s.slots[sidLeft].next, right', slotE');
    }
  }

  /** A search that began at position `from` has come to slot `sidLeft` at position `p`. */
  ghost predicate Searching(s: SlotSet, from: nat, ask: Ask, who: Applicant, hy: Hierarchy,
                            p: nat, q: nat, sidLeft: int, sidRight: int, slotE: int, noCache: bool)
    requires Known(hy, ask.request)
    reads s, s.Repr
  {
    match s.chart
    case Chart(cells, _) =>
      && s.Valid() && SeesAll(s) && Sorted(s.chart) && from <= p <= |cells|
      && sidLeft == (if p < |cells| then cells[p].id else 0)
      && (p < |cells| ==> RightEnd(s.chart, q, sidRight, slotE, cells[p].b, ask.walltime))
      && First(s.chart, from, ask, who, hy, s.policy) == First(s.chart, p, ask, who, hy, s.policy)
      && (noCache <==> !NoQuotaHit(s.chart, from, p, ask, hy))
  }

  lemma SearchBegins(s: SlotSet, sid: int, from: nat, ask: Ask, who: Applicant, hy: Hierarchy)
    requires s.Valid() && Usable(s.chart) && Known(hy, ask.request) && ask.walltime >= 1
    requires from < |s.chart.cells| && sid == s.chart.cells[from].id
    ensures sid in s.slots && s.slots[sid].e == s.chart.cells[from].e
    ensures var c := s.chart.cells[from]; Searching(s, from, ask, who, hy, from, from, c.id, c.id, c.e, false)
  {
    UsableIsSorted(s.chart);
    s.Follow(0, |s.chart.cells| - 1);
    assert s.Sees(from);
    var g, slotB := s.chart, s.chart.cells[from].b;
    assert RightEnd(g, from, g.cells[from].id, g.cells[from].e, slotB, ask.walltime);
  }

  lemma SearchGoesOn(s: SlotSet, from: nat, ask: Ask, who: Applicant, hy: Hierarchy, p: nat, q: nat, sidLeft: int,
                     sidRight: int,
                     slotE: int, noCache: bool, q': nat, r: Round)
    requires Known(hy, ask.request) && ask.walltime >= 1
    requires Searching(s, from, ask, who, hy, p, q, sidLeft, sidRight, slotE, noCache)
    requires p < |s.chart.cells| && r.GoOn?
    requires First(s.chart, p, ask, who, hy, s.policy) == First(s.chart, p + 1, ask, who, hy, s.policy)
    requires (r.refused <==> FitsNow(s.chart, p, ask, hy)) && r.next == NextId(s.chart, p)
    requires RightEnd(s.chart, q', r.right, r.slotE, s.chart.cells[p].b, ask.walltime)
    ensures Searching(s, from, ask, who, hy, p + 1, q', r.next, r.right, r.slotE, noCache || r.refused)
  {
    hide First, FitsNow, SlotSet.Valid;
  }

  /** One round of the search, to tell what it has come to. */
  method SearchNext(s: SlotSet, ask: Ask, who: Applicant, hy: Hierarchy, sidLeft: int, right: int, slotE: int,
                    noCache: bool,
                    ghost from: nat, ghost p: nat, ghost q: nat)
    returns (r: Round, ghost q': nat)
    requires Known(hy, ask.request) && ask.walltime >= 1 && sidLeft != 0
    requires Searching(s, from, ask, who, hy, p, q, sidLeft, right, slotE, noCache)
    ensures p < |s.chart.cells|
    ensures r.TooShort? ==> Told(s, from, ask, who, hy, {}, -1, -1, noCache)
    ensures r.Suits? ==> Told(s, from, ask, who, hy, r.res, sidLeft, r.right, noCache)
    ensures r.GoOn? ==> Searching(s, from, ask, who, hy, p + 1, q', r.next, r.right, r.slotE, noCache || r.refused)
  {
    hide First, FitsNow, SlotSet.Valid, Sorted, RightEnd, SeesAll, NoQuotaHit;
    r, q' := SearchRound(s, sidLeft, right, slotE, ask, who, hy, p, q);
    if r.GoOn? {
      SearchGoesOn(s, from, ask, who, hy, p, q, sidLeft, right, slotE, noCache, q', r);
    }
  }

  lemma SearchEnds(s: SlotSet, from: nat, ask: Ask, who: Applicant, hy: Hierarchy, p: nat, q: nat, sidRight: int,
                   slotE: int, noCache: bool)
    requires Known(hy, ask.request) && Searching(s, from, ask, who, hy, p, q, 0, sidRight, slotE, noCache)
    ensures Told(s, from, ask, who, hy, {}, -1, -1, noCache)
  {
    IdsArePositive(s);
  }

  lemma IdsArePositive(s: SlotSet)
    requires SeesAll(s)
    ensures forall k :: 0 <= k < |s.chart.cells| ==> s.chart.cells[k].id > 0
  {
    forall k | 0 <= k < |s.chart.cells| ensures s.chart.cells[k].id > 0 {
      assert s.Sees(k);
    }
  }

  /** The answer in terms of slot ids. */
  ghost predicate IsAnswer(g: Chart, a: Answer, res: set<int>, sidLeft: int, sidRight: int) {
    match a
    case NoAnswer => res == {} && sidLeft == sidRight == -1
    case Answer(l, r, found) =>
      && l <= r < |g.cells| && res == found && res != {} && sidLeft == g.cells[l].id && sidRight == g.cells[r].id
  }

  /** What a search from position `from` on returns. */
  ghost predicate Told(s: SlotSet, from: nat, ask: Ask, who: Applicant, hy: Hierarchy, res: set<int>,
                       sidLeft: int, sidRight: int, noCache: bool)
    requires Known(hy, ask.request)
    reads s, s.Repr
  {
    match s.chart
    case Chart(_, _) =>
      var a := First(s.chart, from, ask, who, hy, s.policy);
      && IsAnswer(s.chart, a, res, sidLeft, sidRight)
      && (a.Answer? ==> from <= a.l && (noCache <==> !NoQuotaHit(s.chart, from, a.l, ask, hy)))
  }

  /** The search from slot `sid` on, with both ends of the window only ever moving forward.
      Also tells whether quotas turned a window down on the way. */
  method SearchFrom(s: SlotSet, sid: int, ask: Ask, who: Applicant, hy: Hierarchy, ghost from: nat)
    returns (res: set<int>, sidLeft: int, sidRight: int, noCache: bool)
    requires s.Valid() && Usable(s.chart) && Known(hy, ask.request) && ask.walltime >= 1
    requires from < |s.chart.cells| && sid == s.chart.cells[from].id
    ensures Told(s, from, ask, who, hy, res, sidLeft, sidRight, noCache)
  {
    hide *;
    SearchBegins(s, sid, from, ask, who, hy);
    sidLeft, sidRight, noCache := sid, sid, false;
    ghost var p: nat, q: nat := from, from;
    var slotE := s.slots[sidRight].e;
    while sidLeft != 0
      invariant Searching(s, from, ask, who, hy, p, q, sidLeft, sidRight, slotE, noCache)
      decreases |s.chart.cells| - p
    {
      var r;
      r, q := SearchNext(s, ask, who, hy, sidLeft, sidRight, slotE, noCache, from, p, q);
      match r
      case TooShort =>
        return {}, -1, -1, noCache;
      case Suits(found, right) =>
        return found, sidLeft, right, noCache;
      case GoOn(refused, next, right, end) =>
        sidLeft, sidRight, slotE, noCache := next, right, end, noCache || refused;
        p := p + 1;
    }
    SearchEnds(s, from, ask, who, hy, p, q, sidRight, slotE, noCache);
    return {}, -1, -1, noCache;
  }

  /** Finds the earliest place of a variant and notes it in the cache, unless quotas turned a
      place down or the job has to wait for others. */
  method FindFirstSuitableContiguousSlots(s: SlotSet, ask: Ask, keyed: bool, who: Applicant, minStart: int,
                                          hy: Hierarchy)
    returns (failed: bool, res: set<int>, sidLeft: int, sidRight: int)
    requires s.Valid() && Usable(s.chart) && CacheOk(s.chart, s.cache, hy) && Known(hy, ask.request)
    requires ask.walltime >= 1
    modifies s`cache
    ensures s.Valid()
    ensures keyed && ask in old(s.cache) ==>
      exists p :: 0 <= p < |s.chart.cells| && s.chart.cells[p].id == old(s.cache)[ask]
    ensures match Search(s.chart, old(s.cache), ask, keyed, who, minStart, hy, s.policy)
            case MissingKey => failed && s.cache == old(s.cache)
            case Searched(a, cache) => !failed && s.cache == cache && IsAnswer(s.chart, a, res, sidLeft, sidRight)
  {
    hide SlotSet.Valid, Usable, CacheOk, Known, First, NoQuotaHit, StartAt;
    var sid;
    failed, sid := StartSlot(s, ask, keyed, minStart, hy);
    if failed {
      return true, {}, -1, -1;
    }
    var noCache;
    ghost var from := StartAt(s.chart, s.cache, ask, keyed, minStart).value;
    res, sidLeft, sidRight, noCache := SearchFrom(s, sid, ask, who, hy, from);
    if keyed && minStart < 0 && !noCache && res != {} {
      s.Note(ask, sidLeft);
    }
  }
}
