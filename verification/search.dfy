/** The search for the first place where a job variant fits
    (find_first_suitable_contiguous_slots in oar/kao/scheduling.py), as a function of the
    chart, and what it promises. The two-pointer loop is in finding.dfy.
 */
module FirstFit {
  import opened Requests
  import opened QuotaRules
  import opened Gantt

  /** What one moldable variant asks for. */
  datatype Ask = Ask(walltime: int, request: Request)

  /** Who asks, and whether quotas are ignored for the job. */
  datatype Applicant = Applicant(account: Account, noQuotas: bool)

  datatype Answer = NoAnswer | Answer(l: nat, r: nat, res: set<int>)

  // -------------------------------------------------------------------- the simple search

  /** The first position from `q` on where the slots from `p` last long enough, or -1. */
  function RightFrom(g: Chart, p: nat, q: nat, walltime: int): (r: int)
    requires p < |g.cells|
    ensures r == -1 || (q <= r < |g.cells| && g.cells[r].e - g.cells[p].b + 1 >= walltime)
    ensures forall k :: q <= k < (if r == -1 then |g.cells| else r) ==> g.cells[k].e - g.cells[p].b + 1 < walltime
    decreases |g.cells| - q
  {
    if q >= |g.cells| then -1
    else if g.cells[q].e - g.cells[p].b + 1 >= walltime then q
    else RightFrom(g, p, q + 1, walltime)
  }

  /** The resources free in all slots from `p` to `q`. */
  function Common(g: Chart, p: nat, q: nat): (r: set<int>)
    requires p <= q < |g.cells|
    ensures forall x :: x in r <==> forall k :: p <= k <= q ==> x in g.cells[k].free
    decreases q - p
  {
    if p == q then g.cells[p].free else Common(g, p, q - 1) * g.cells[q].free
  }

  /** The counters of the slots from `p` to `q` combined. */
  function CommonCounters(g: Chart, p: nat, q: nat): Counters
    requires p <= q < |g.cells|
    decreases q - p
  {
    Combined(if p == q then map[] else CommonCounters(g, p, q - 1), g.cells[q].counters)
  }

  predicate SameRules(g: Chart, p: nat, q: nat)
    requires p <= q < |g.cells|
    decreases q - p
  {
    p == q || (SameRules(g, p, q - 1) && g.cells[q-1].rulesId == g.cells[q].rulesId)
  }

  predicate QuotasAllow(g: Chart, p: nat, q: nat, who: Applicant, res: set<int>, walltime: int, policy: Policy)
    requires p <= q < |g.cells|
  {
    policy.enabled && !who.noQuotas ==> QuotasPass(g, p, q, who.account, |res * policy.countable|, walltime, policy)
  }

  /** The slots from `p` to `q` are under the same rules, and their combined counters pass
      them with a candidate of `nb` resources counted in. */
  predicate QuotasPass(g: Chart, p: nat, q: nat, account: Account, nb: int, duration: int, policy: Policy)
    requires p <= q < |g.cells|
  {
    && SameRules(g, p, q)
    && Passes(Updated(CommonCounters(g, p, q), account, policy.jobTypes, nb, duration), policy.rules, account)
  }

  /** The earliest slot from position `p` on where the variant fits and quotas allow it. */
  function First(g: Chart, p: nat, ask: Ask, who: Applicant, hy: Hierarchy, policy: Policy): Answer
    requires Known(hy, ask.request)
    decreases |g.cells| - p
  {
    if p >= |g.cells| then NoAnswer
    else
      var q := RightFrom(g, p, p, ask.walltime);
      if q == -1 then NoAnswer
      else
        var res := Find(Common(g, p, q), ask.request, hy);
        if res != {} && QuotasAllow(g, p, q, who, res, ask.walltime, policy) then Answer(p, q, res)
        else First(g, p + 1, ask, who, hy, policy)
  }

  // ----------------------------------------------------------------- where a variant fits

  /** Some stretch of slots from `p` on is long enough and has the resources. */
  ghost predicate Fits(g: Chart, p: nat, ask: Ask, hy: Hierarchy)
    requires Known(hy, ask.request)
  {
    exists q :: p <= q < |g.cells| && g.cells[q].e - g.cells[p].b + 1 >= ask.walltime
             && Find(Common(g, p, q), ask.request, hy) != {}
  }

  /** The shortest stretch that is long enough decides. */
  lemma FitsAtRight(g: Chart, p: nat, ask: Ask, hy: Hierarchy)
    requires Known(hy, ask.request) && p < |g.cells|
    ensures var q := RightFrom(g, p, p, ask.walltime);
            Fits(g, p, ask, hy) <==> q != -1 && Find(Common(g, p, q), ask.request, hy) != {}
  {
    var r := RightFrom(g, p, p, ask.walltime);
    if Fits(g, p, ask, hy) {
      var q :| p <= q < |g.cells| && g.cells[q].e - g.cells[p].b + 1 >= ask.walltime
            && Find(Common(g, p, q), ask.request, hy) != {};
      assert Common(g, p, q) <= Common(g, p, r);
      FindMonotone(Common(g, p, q), Common(g, p, r), ask.request, hy);
    }
  }

  lemma {:induction false} TooShortFromHere(g: Chart, p: nat, k: nat, ask: Ask, who: Applicant, hy: Hierarchy,
                                            policy: Policy)
    requires Wf(g) && Known(hy, ask.request) && p <= k && p < |g.cells|
    requires RightFrom(g, p, p, ask.walltime) == -1
    ensures First(g, k, ask, who, hy, policy) == NoAnswer
    ensures forall j :: k <= j < |g.cells| ==> !Fits(g, j, ask, hy)
  {
    forall j | k <= j < |g.cells| ensures !Fits(g, j, ask, hy) && RightFrom(g, j, j, ask.walltime) == -1 {
      Ordered(g, p, j);
    }
  }

  /** An answer is backed by the chart: resources common to a long enough stretch of slots
      that quotas allow. */
  ghost predicate Backed(g: Chart, a: Answer, ask: Ask, who: Applicant, hy: Hierarchy, policy: Policy)
    requires Known(hy, ask.request)
  {
    a.Answer? ==>
      && a.l <= a.r < |g.cells| && a.r == RightFrom(g, a.l, a.l, ask.walltime)
      && a.res == Find(Common(g, a.l, a.r), ask.request, hy) && a.res != {}
      && QuotasAllow(g, a.l, a.r, who, a.res, ask.walltime, policy)
  }

  /** Quotas allow the variant in the stretch of slots it needs from position `k` on. */
  ghost predicate AllowedAt(g: Chart, k: nat, ask: Ask, who: Applicant, hy: Hierarchy, policy: Policy)
    requires Known(hy, ask.request) && k < |g.cells|
  {
    var q := RightFrom(g, k, k, ask.walltime);
    q != -1 && QuotasAllow(g, k, q, who, Find(Common(g, k, q), ask.request, hy), ask.walltime, policy)
  }

  /** No position from `p` up to the answer, or up to the end, suits the variant. */
  ghost predicate NoneEarlier(g: Chart, p: nat, a: Answer, ask: Ask, who: Applicant, hy: Hierarchy, policy: Policy)
    requires Known(hy, ask.request)
  {
    forall k | p <= k < |g.cells| && (a.Answer? ==> k < a.l) ::
      Fits(g, k, ask, hy) ==> !AllowedAt(g, k, ask, who, hy, policy)
  }

  /** What the answer of a search from `p` means, quotas included: it is at the first
      position where the variant fits and quotas allow it, and without an answer there is
      no such position. */
  lemma {:induction false} FirstIsLeast(g: Chart, p: nat, ask: Ask, who: Applicant, hy: Hierarchy, policy: Policy,
                                        a: Answer)
    requires Wf(g) && Known(hy, ask.request) && p <= |g.cells|
    requires a == First(g, p, ask, who, hy, policy)
    ensures Backed(g, a, ask, who, hy, policy)
    ensures a.Answer? ==> p <= a.l && Fits(g, a.l, ask, hy) && AllowedAt(g, a.l, ask, who, hy, policy)
    ensures NoneEarlier(g, p, a, ask, who, hy, policy)
    decreases |g.cells| - p
  {
    hide Wf, Known, Fits, AllowedAt, RightFrom, First, Backed;
    NoAnswerIsBacked(g, ask, who, hy, policy);
    if p < |g.cells| {
      FirstCases(g, p, ask, who, hy, policy);
      if RightFrom(g, p, p, ask.walltime) == -1 {
        TooShortFromHere(g, p, p, ask, who, hy, policy);
      } else if !(Fits(g, p, ask, hy) && AllowedAt(g, p, ask, who, hy, policy)) {
        FirstIsLeast(g, p + 1, ask, who, hy, policy, a);
      }
    }
  }

  lemma NoAnswerIsBacked(g: Chart, ask: Ask, who: Applicant, hy: Hierarchy, policy: Policy)
    requires Known(hy, ask.request)
    ensures First(g, |g.cells|, ask, who, hy, policy) == NoAnswer && Backed(g, NoAnswer, ask, who, hy, policy)
  {
  }

  /** A search answers with its first position if that one suits, and otherwise goes on. */
  lemma FirstCases(g: Chart, p: nat, ask: Ask, who: Applicant, hy: Hierarchy, policy: Policy)
    requires Known(hy, ask.request) && p < |g.cells|
    ensures var a := First(g, p, ask, who, hy, policy);
            if Fits(g, p, ask, hy) && AllowedAt(g, p, ask, who, hy, policy)
              then a.Answer? && a.l == p && Backed(g, a, ask, who, hy, policy)
            else a == if RightFrom(g, p, p, ask.walltime) == -1 then NoAnswer else First(g, p + 1, ask, who, hy, policy)
  {
    hide Fits, Known;
    FitsAtRight(g, p, ask, hy);
  }

  // ----------------------------------------------------------------------------- the cache

  type Cache = map<Ask, int>

  /** Position `p` holds slot `id` and the variant fits nowhere before it. */
  ghost predicate NothingBefore(g: Chart, p: nat, id: int, ask: Ask, hy: Hierarchy)
    requires Known(hy, ask.request)
  {
    p < |g.cells| && g.cells[p].id == id && forall j :: 0 <= j < p ==> !Fits(g, j, ask, hy)
  }

  ghost predicate CacheOk(g: Chart, cache: Cache, hy: Hierarchy) {
    forall ask :: ask in cache ==>
      Known(hy, ask.request) && exists p :: NothingBefore(g, p, cache[ask], ask, hy)
  }

  function Position(g: Chart, id: int): nat
    requires exists p :: 0 <= p < |g.cells| && g.cells[p].id == id
    ensures Position(g, id) < |g.cells| && g.cells[Position(g, id)].id == id
  {
    PositionFrom(g, id, 0)
  }

  function PositionFrom(g: Chart, id: int, k: nat): (p: nat)
    requires exists p :: k <= p < |g.cells| && g.cells[p].id == id
    ensures k <= p < |g.cells| && g.cells[p].id == id
    decreases |g.cells| - k
  {
    if g.cells[k].id == id then k else PositionFrom(g, id, k + 1)
  }

  lemma {:induction false} SkipUnfit(g: Chart, k: nat, p: nat, ask: Ask, who: Applicant, hy: Hierarchy, policy: Policy)
    requires Wf(g) && Known(hy, ask.request) && k <= p <= |g.cells|
    requires forall j :: k <= j < p ==> !Fits(g, j, ask, hy)
    ensures First(g, k, ask, who, hy, policy) == First(g, p, ask, who, hy, policy)
    decreases p - k
  {
    if k < p {
      FitsAtRight(g, k, ask, hy);
      SkipUnfit(g, k + 1, p, ask, who, hy, policy);
      if RightFrom(g, k, k, ask.walltime) == -1 {
        TooShortFromHere(g, k, p, ask, who, hy, policy);
      }
    }
  }

  /** A search that starts at the cached slot gives the same answer as one that starts at
      slot 1: same slots, same resources, whoever asks and whatever the quotas say. */
  lemma CachedSearchAgrees(g: Chart, cache: Cache, ask: Ask, who: Applicant, hy: Hierarchy, policy: Policy)
    requires Wf(g) && CacheOk(g, cache, hy) && ask in cache
    ensures exists p :: 0 <= p < |g.cells| && g.cells[p].id == cache[ask]
    ensures First(g, Position(g, cache[ask]), ask, who, hy, policy) == First(g, 0, ask, who, hy, policy)
  {
    var p: nat :| NothingBefore(g, p, cache[ask], ask, hy);
    var k := Position(g, cache[ask]);
    assert k == p by {
      assert g.cells[k].id == g.cells[p].id;
    }
    SkipUnfit(g, 0, p, ask, who, hy, policy);
  }

  /** Storing an answer before which the variant did not fit keeps the cache right. */
  lemma StoreKeepsCache(g: Chart, cache: Cache, ask: Ask, hy: Hierarchy, p: nat)
    requires CacheOk(g, cache, hy) && Known(hy, ask.request) && p < |g.cells|
    requires forall j :: 0 <= j < p ==> !Fits(g, j, ask, hy)
    ensures CacheOk(g, cache[ask := g.cells[p].id], hy)
  {
    assert NothingBefore(g, p, g.cells[p].id, ask, hy);
  }

  // ---------------------------------------------------- taking resources keeps the cache

  /** A stretch of the cut chart lies inside a stretch of the old chart that is at least
      as long and has at least as many resources in common. */
  lemma CutCommon(g: Chart, h: Chart, i: nat, p: seq<Cell>, j: nat, q: nat)
    requires Replaced(g, h, i, p) && Tiles(p, g.cells[i], g.lastId)
    requires forall k :: 0 <= k < |p| ==> p[k].free <= g.cells[i].free
    requires j <= q < |h.cells|
    ensures var (oj, oq) := (Origin(i, |p|, j), Origin(i, |p|, q));
            && oj <= oq < |g.cells|
            && g.cells[oj].b <= h.cells[j].b && h.cells[q].e <= g.cells[oq].e
            && Common(h, j, q) <= Common(g, oj, oq)
  {
    var m := |p|;
    ReplacedOrigin(g, h, i, p, j);
    ReplacedOrigin(g, h, i, p, q);
    forall x, o | x in Common(h, j, q) && Origin(i, m, j) <= o <= Origin(i, m, q) ensures x in g.cells[o].free {
      var k := if o < i then o else if o > i then o + m - 1 else if j >= i then j else i;
      assert j <= k <= q && Origin(i, m, k) == o;
      ReplacedOrigin(g, h, i, p, k);
    }
  }

  lemma CutUnfit(g: Chart, h: Chart, i: nat, p: seq<Cell>, j: nat, ask: Ask, hy: Hierarchy)
    requires Replaced(g, h, i, p) && Tiles(p, g.cells[i], g.lastId) && Known(hy, ask.request)
    requires forall k :: 0 <= k < |p| ==> p[k].free <= g.cells[i].free
    requires j < |h.cells| && Fits(h, j, ask, hy)
    ensures Fits(g, Origin(i, |p|, j), ask, hy)
  {
    var q :| j <= q < |h.cells| && h.cells[q].e - h.cells[j].b + 1 >= ask.walltime
          && Find(Common(h, j, q), ask.request, hy) != {};
    CutCommon(g, h, i, p, j, q);
    FindMonotone(Common(h, j, q), Common(g, Origin(i, |p|, j), Origin(i, |p|, q)), ask.request, hy);
  }

  lemma CutKeepsNothingBefore(g: Chart, h: Chart, i: nat, p: seq<Cell>, k: nat, id: int, ask: Ask, hy: Hierarchy)
    requires Replaced(g, h, i, p) && Tiles(p, g.cells[i], g.lastId) && Known(hy, ask.request)
    requires forall k :: 0 <= k < |p| ==> p[k].free <= g.cells[i].free
    requires NothingBefore(g, k, id, ask, hy)
    ensures exists k' :: NothingBefore(h, k', id, ask, hy)
  {
    var k' := if k <= i then k else k + |p| - 1;
    forall j | 0 <= j < k' ensures !Fits(h, j, ask, hy) {
      if Fits(h, j, ask, hy) {
        CutUnfit(g, h, i, p, j, ask, hy);
      }
    }
    assert NothingBefore(h, k', id, ask, hy);
  }

  lemma PiecesOfCut(g: Chart, i: nat, task: Task, policy: Policy, h: Chart, p: seq<Cell>)
    requires Wf(g) && i < |g.cells| && Meets(g.cells[i], task) && task.walltime >= 0
    requires h == CutAt(g, i, task, true, policy) && p == Pieces(g.cells[i], g.lastId, task, true, policy)
    ensures Replaced(g, h, i, p) && Tiles(p, g.cells[i], g.lastId)
    ensures forall k :: 0 <= k < |p| ==> p[k].free <= g.cells[i].free
  {
    PiecesTile(g.cells[i], g.lastId, task, true, policy);
    CutAtReplaced(g, i, task, true, policy);
  }

  lemma CutKeepsCache(g: Chart, i: nat, task: Task, policy: Policy, cache: Cache, hy: Hierarchy, h: Chart)
    requires Wf(g) && i < |g.cells| && Meets(g.cells[i], task) && task.walltime >= 0
    requires CacheOk(g, cache, hy) && h == CutAt(g, i, task, true, policy)
    ensures CacheOk(h, cache, hy)
  {
    hide Pieces, CutAt, Tiles, Replaced, NothingBefore, Wf, Meets;
    var p := Pieces(g.cells[i], g.lastId, task, true, policy);
    PiecesOfCut(g, i, task, policy, h, p);
    forall ask | ask in cache ensures exists k :: NothingBefore(h, k, cache[ask], ask, hy) {
      var k: nat :| NothingBefore(g, k, cache[ask], ask, hy);
      CutKeepsNothingBefore(g, h, i, p, k, cache[ask], ask, hy);
    }
  }

  /** Taking a job's resources out of the chart keeps every cached answer right, although
      slots are cut and ids are given to new slots before the cached one. */
  lemma {:induction false} SplitKeepsCache(g: Chart, i: nat, n: nat, task: Task, policy: Policy, cache: Cache,
                                           hy: Hierarchy, out: Chart)
    requires Wf(g) && i + n <= |g.cells| && AllMeet(g, i, n, task) && task.walltime >= 0
    requires out == Split(g, i, n, task, true, policy) && CacheOk(g, cache, hy)
    ensures CacheOk(out, cache, hy)
    decreases n
  {
    hide Wf, CacheOk, Pointwise, KeepsSlots, CutAt, Split;
    if n == 0 {
      SplitNothing(g, i, task, true, policy);
    } else {
      assert Meets(g.cells[i], task);
      var h, k := SplitStepCut(g, i, n, task, true, policy);
      CutKeepsCache(g, i, task, policy, cache, hy, h);
      SplitKeepsCache(h, k, n - 1, task, policy, cache, hy, out);
    }
  }
}
