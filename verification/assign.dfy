/** Choosing among the moldable variants of a job and placing the job
    (assign_resources_mld_job_split_slots in oar/kao/scheduling.py).
 */
module Assignment {
  import opened Options
  import opened Requests
  import opened QuotaRules
  import opened Sharing
  import opened Gantt
  import opened FirstFit
  import opened Earliest

  datatype Variant = Variant(mldId: int, ask: Ask)

  /** A job as the scheduler reads it. `keyed` says that it has cache keys; a key stands for
      the walltime and the request it is made from. */
  datatype Job = Job(id: int, variants: seq<Variant>, keyed: bool, who: Applicant)

  /** What the variants are judged by before any is found. */
  const NO_FINISH := 0xFFFF_FFFF
  const MAX_TIME := 0x8000_0000

  /** One slot that lasts less than no time: what a container whose walltime is shorter than
      the security time opens. */
  predicate Dead(g: Chart) {
    |g.cells| == 1 && g.cells[0].id == 1 && g.cells[0].e + 1 < g.cells[0].b
  }

  ghost predicate Usable(g: Chart) {
    Wf(g) || Dead(g)
  }

  // ------------------------------------------------------- one variant, from the cache

  /** Where a search starts; nothing when every slot begins before the required time, in
      which case the program fails with a missing key. */
  function StartAt(g: Chart, cache: Cache, ask: Ask, keyed: bool, minStart: int): Option<nat>
    requires keyed && ask in cache ==> exists p :: 0 <= p < |g.cells| && g.cells[p].id == cache[ask]
  {
    if minStart < 0 then
      if keyed && ask in cache then Some(Position(g, cache[ask])) else Some(0)
    else FirstFrom(g, 0, minStart)
  }

  function FirstFrom(g: Chart, k: nat, minStart: int): (r: Option<nat>)
    ensures r.None? ==> forall j :: k <= j < |g.cells| ==> g.cells[j].b < minStart
    ensures r.Some? ==> k <= r.value < |g.cells| && g.cells[r.value].b >= minStart
    ensures r.Some? ==> forall j :: k <= j < r.value ==> g.cells[j].b < minStart
    decreases |g.cells| - k
  {
    if k >= |g.cells| then None else if g.cells[k].b >= minStart then Some(k) else FirstFrom(g, k + 1, minStart)
  }

  predicate FitsNow(g: Chart, p: nat, ask: Ask, hy: Hierarchy)
    requires Known(hy, ask.request) && p < |g.cells|
  {
    var q := RightFrom(g, p, p, ask.walltime);
    q != -1 && Find(Common(g, p, q), ask.request, hy) != {}
  }

  /** No position from `k` to `l` was turned down because of quotas. */
  predicate NoQuotaHit(g: Chart, k: nat, l: nat, ask: Ask, hy: Hierarchy)
    requires Known(hy, ask.request) && l <= |g.cells|
  {
    forall j :: k <= j < l ==> !FitsNow(g, j, ask, hy)
  }

  datatype Searched = MissingKey | Searched(answer: Answer, cache: Cache)

  function Search(g: Chart, cache: Cache, ask: Ask, keyed: bool, who: Applicant, minStart: int,
                  hy: Hierarchy, policy: Policy): Searched
    requires Known(hy, ask.request)
    requires keyed && ask in cache ==> exists p :: 0 <= p < |g.cells| && g.cells[p].id == cache[ask]
  {
    match StartAt(g, cache, ask, keyed, minStart)
    case None => MissingKey
    case Some(p) =>
      var a := First(g, p, ask, who, hy, policy);
      if a.Answer? && a.l < |g.cells| && keyed && minStart < 0 && NoQuotaHit(g, p, a.l, ask, hy) then
        Searched.Searched(a, cache[ask := g.cells[a.l].id])
      else Searched.Searched(a, cache)
  }

  lemma NothingBeforeCached(g: Chart, cache: Cache, ask: Ask, hy: Hierarchy)
    requires Wf(g) && CacheOk(g, cache, hy) && ask in cache
    ensures exists p :: 0 <= p < |g.cells| && g.cells[p].id == cache[ask]
    ensures forall j :: 0 <= j < Position(g, cache[ask]) ==> !Fits(g, j, ask, hy)
  {
    var p: nat :| NothingBefore(g, p, cache[ask], ask, hy);
    assert g.cells[Position(g, cache[ask])].id == g.cells[p].id;
  }

  /** An answer found from a position before which the variant fits nowhere, without being
      turned down by quotas on the way, may be cached. */
  lemma CleanAnswerIsFirst(g: Chart, p: nat, l: nat, cache: Cache, ask: Ask, hy: Hierarchy)
    requires Known(hy, ask.request) && CacheOk(g, cache, hy)
    requires p <= l < |g.cells| && NoQuotaHit(g, p, l, ask, hy)
    requires forall j :: 0 <= j < p ==> !Fits(g, j, ask, hy)
    ensures CacheOk(g, cache[ask := g.cells[l].id], hy)
  {
    forall j | 0 <= j < l ensures !Fits(g, j, ask, hy) {
      FitsAtRight(g, j, ask, hy);
      assert j >= p ==> !FitsNow(g, j, ask, hy);
    }
    StoreKeepsCache(g, cache, ask, hy, l);
  }

  /** A search without a required start time begins at the cached slot, or at slot 1 if there is
      none, and nothing before it would do. */
  lemma SearchStart(g: Chart, cache: Cache, ask: Ask, keyed: bool, who: Applicant, hy: Hierarchy, policy: Policy,
                    minStart: int)
    returns (p: nat)
    requires Wf(g) && CacheOk(g, cache, hy) && Known(hy, ask.request) && minStart < 0
    ensures keyed && ask in cache ==> exists p :: 0 <= p < |g.cells| && g.cells[p].id == cache[ask]
    ensures StartAt(g, cache, ask, keyed, minStart) == Some(p) && p < |g.cells|
    ensures g.cells[p].id == if keyed && ask in cache then cache[ask] else 1
    ensures First(g, p, ask, who, hy, policy) == First(g, 0, ask, who, hy, policy)
    ensures forall j :: 0 <= j < p ==> !Fits(g, j, ask, hy)
  {
    p := 0;
    if keyed && ask in cache {
      CachedSearchAgrees(g, cache, ask, who, hy, policy);
      NothingBeforeCached(g, cache, ask, hy);
      p := Position(g, cache[ask]);
    }
  }

  /** Without a required start time a search never depends on the cache and keeps it right. */
  lemma SearchIsPlain(g: Chart, cache: Cache, ask: Ask, keyed: bool, who: Applicant, minStart: int,
                      hy: Hierarchy, policy: Policy)
    requires Wf(g) && CacheOk(g, cache, hy) && Known(hy, ask.request) && minStart < 0
    ensures keyed && ask in cache ==> exists p :: 0 <= p < |g.cells| && g.cells[p].id == cache[ask]
    ensures var s := Search(g, cache, ask, keyed, who, minStart, hy, policy);
            s.Searched? && s.answer == First(g, 0, ask, who, hy, policy) && CacheOk(g, s.cache, hy)
    ensures Backed(g, First(g, 0, ask, who, hy, policy), ask, who, hy, policy)
  {
    hide Wf, Known, First, Fits, AllowedAt, CacheOk, NoneEarlier;
    var p := SearchStart(g, cache, ask, keyed, who, hy, policy, minStart);
    var a := First(g, p, ask, who, hy, policy);
    FirstIsLeast(g, p, ask, who, hy, policy, a);
    if a.Answer? && NoQuotaHit(g, p, a.l, ask, hy) {
      CleanAnswerIsFirst(g, p, a.l, cache, ask, hy);
    }
  }

  /** The answer is cached exactly when the job has keys, no start time is required, and the
      variant fits nowhere earlier, whether quotas allow it there or not. */
  lemma SearchCaches(g: Chart, cache: Cache, ask: Ask, keyed: bool, who: Applicant, minStart: int, hy: Hierarchy,
                     policy: Policy)
    requires Wf(g) && CacheOk(g, cache, hy) && Known(hy, ask.request)
    ensures keyed && ask in cache ==> exists p :: 0 <= p < |g.cells| && g.cells[p].id == cache[ask]
    ensures var s := Search(g, cache, ask, keyed, who, minStart, hy, policy);
            s.Searched? ==>
              && (s.answer.Answer? ==> s.answer.l < |g.cells|)
              && s.cache
                 == if || !keyed || minStart >= 0 || s.answer.NoAnswer?
                       || (exists j :: 0 <= j < s.answer.l && Fits(g, j, ask, hy))
                    then cache
                    else cache[ask := g.cells[s.answer.l].id]
  {
    hide Wf, Known, First, Fits, AllowedAt, CacheOk, NoneEarlier;
    if minStart < 0 {
      var p := SearchStart(g, cache, ask, keyed, who, hy, policy, minStart);
      var a := First(g, p, ask, who, hy, policy);
      FirstIsLeast(g, p, ask, who, hy, policy, a);
      if a.Answer? {
        AnswerInside(g, a, ask, who, hy, policy);
        QuotaHitFits(g, p, a.l, ask, hy);
      }
    } else {
      SearchAfter(g, cache, ask, keyed, who, minStart, hy, policy);
      var s := Search(g, cache, ask, keyed, who, minStart, hy, policy);
      if s.Searched? {
        SearchedInside(g, s.answer, ask, who, minStart, hy, policy);
      }
    }
  }

  lemma SearchedInside(g: Chart, a: Answer, ask: Ask, who: Applicant, minStart: int, hy: Hierarchy, policy: Policy)
    requires Known(hy, ask.request) && AnswersAfter(g, a, ask, who, minStart, hy, policy)
    ensures a.Answer? ==> a.l < |g.cells|
  {
  }

  lemma QuotaHitFits(g: Chart, p: nat, l: nat, ask: Ask, hy: Hierarchy)
    requires Known(hy, ask.request) && p <= l < |g.cells|
    ensures NoQuotaHit(g, p, l, ask, hy) <==> forall j :: p <= j < l ==> !Fits(g, j, ask, hy)
  {
    hide Fits, Known;
    forall j | p <= j < l ensures FitsNow(g, j, ask, hy) <==> Fits(g, j, ask, hy) {
      FitsAtRight(g, j, ask, hy);
    }
  }

  /** With a required start time the search leaves the cache alone, answers with a slot that
      begins no earlier, and fails exactly when no slot does. */
  lemma SearchAfter(g: Chart, cache: Cache, ask: Ask, keyed: bool, who: Applicant, minStart: int,
                    hy: Hierarchy, policy: Policy)
    requires Wf(g) && CacheOk(g, cache, hy) && Known(hy, ask.request) && minStart >= 0
    ensures keyed && ask in cache ==> exists p :: 0 <= p < |g.cells| && g.cells[p].id == cache[ask]
    ensures var s := Search(g, cache, ask, keyed, who, minStart, hy, policy);
            && (s.MissingKey? <==> forall j :: 0 <= j < |g.cells| ==> g.cells[j].b < minStart)
            && (s.Searched? ==> s.cache == cache && AnswersAfter(g, s.answer, ask, who, minStart, hy, policy))
  {
    hide Wf, Known, First, Fits, AllowedAt, Backed, CacheOk;
    CachedIsThere(g, cache, ask, hy);
    var p := FirstFrom(g, 0, minStart);
    if p.Some? {
      var a := First(g, p.value, ask, who, hy, policy);
      FirstIsLeast(g, p.value, ask, who, hy, policy, a);
      if a.Answer? {
        AnswerInside(g, a, ask, who, hy, policy);
        Ordered(g, p.value, a.l);
      }
    }
  }

  lemma CachedIsThere(g: Chart, cache: Cache, ask: Ask, hy: Hierarchy)
    requires CacheOk(g, cache, hy)
    ensures ask in cache ==> exists p :: 0 <= p < |g.cells| && g.cells[p].id == cache[ask]
  {
    if ask in cache {
      var p: nat :| NothingBefore(g, p, cache[ask], ask, hy);
    }
  }

  lemma AnswerInside(g: Chart, a: Answer, ask: Ask, who: Applicant, hy: Hierarchy, policy: Policy)
    requires Known(hy, ask.request) && Backed(g, a, ask, who, hy, policy) && a.Answer?
    ensures a.l <= a.r < |g.cells|
  {
  }

  /** The answer is the first suitable slot among those that begin at `minStart` or later. */
  ghost predicate AnswersAfter(g: Chart, a: Answer, ask: Ask, who: Applicant, minStart: int, hy: Hierarchy,
                               policy: Policy)
    requires Known(hy, ask.request)
  {
    && Backed(g, a, ask, who, hy, policy)
    && (a.Answer? ==> g.cells[a.l].b >= minStart)
    && forall k | 0 <= k < |g.cells| && (a.Answer? ==> k < a.l) ::
         g.cells[k].b >= minStart && Fits(g, k, ask, hy) ==> !AllowedAt(g, k, ask, who, hy, policy)
  }

  // -------------------------------------------------------- the choice among the variants

  /** The answer of a search that does not look at the cache; nothing on a missing key. */
  function PlainAnswer(g: Chart, ask: Ask, who: Applicant, minStart: int, hy: Hierarchy, policy: Policy): Option<Answer>
    requires Known(hy, ask.request)
  {
    if minStart < 0 then Some(First(g, 0, ask, who, hy, policy))
    else
      match FirstFrom(g, 0, minStart)
      case None => None
      case Some(p) => Some(First(g, p, ask, who, hy, policy))
  }

  /** The cache changes neither the outcome of a search nor its answer, for any start time,
      any quotas and any applicant, and it stays right. */
  lemma CacheIsTransparent(g: Chart, cache: Cache, ask: Ask, keyed: bool, who: Applicant, minStart: int,
                           hy: Hierarchy, policy: Policy)
    requires Usable(g) && CacheOk(g, cache, hy) && Known(hy, ask.request) && ask.walltime >= 1
    ensures keyed && ask in cache ==> exists p :: 0 <= p < |g.cells| && g.cells[p].id == cache[ask]
    ensures var s := Search(g, cache, ask, keyed, who, minStart, hy, policy);
            var plain := PlainAnswer(g, ask, who, minStart, hy, policy);
            && (s.MissingKey? <==> plain.None?)
            && (s.Searched? ==> plain == Some(s.answer) && CacheOk(g, s.cache, hy))
            && (s.Searched? ==> Backed(g, s.answer, ask, who, hy, policy))
  {
    if Dead(g) {
      if ask in cache {
        var p: nat :| NothingBefore(g, p, cache[ask], ask, hy);
      }
    } else if minStart < 0 {
      SearchIsPlain(g, cache, ask, keyed, who, minStart, hy, policy);
    } else {
      SearchAfter(g, cache, ask, keyed, who, minStart, hy, policy);
    }
  }

  datatype Best = Best(variant: Variant, start: int, l: nat, r: nat, res: set<int>) {
    function Finish(): int {
      start + variant.ask.walltime
    }
  }

  /** The best of the first variants, how many of them found a place, and the cache. */
  datatype Choice = ChoiceFails | Choice(best: Option<Best>, found: nat, cache: Cache)

  ghost predicate KnownJob(hy: Hierarchy, job: Job) {
    forall k :: 0 <= k < |job.variants| ==> Known(hy, job.variants[k].ask.request) && job.variants[k].ask.walltime >= 1
  }

  function Better(g: Chart, best: Option<Best>, v: Variant, a: Answer): Option<Best>
    requires a.Answer? && a.l < |g.cells|
  {
    var start := g.cells[a.l].b;
    if start + v.ask.walltime < (if best.Some? then best.value.Finish() else NO_FINISH) then
      Some(Best(v, start, a.l, a.r, a.res))
    else best
  }

  function Choose(g: Chart, cache: Cache, job: Job, minStart: int, hy: Hierarchy, policy: Policy, k: nat): (c: Choice)
    requires Usable(g) && CacheOk(g, cache, hy) && KnownJob(hy, job) && k <= |job.variants|
    ensures c.Choice? ==> CacheOk(g, c.cache, hy)
  {
    if k == 0 then Choice(None, 0, cache)
    else
      match Choose(g, cache, job, minStart, hy, policy, k - 1)
      case ChoiceFails => ChoiceFails
      case Choice(best, found, cache') =>
        var v := job.variants[k-1];
        CacheIsTransparent(g, cache', v.ask, job.keyed, job.who, minStart, hy, policy);
        match Search(g, cache', v.ask, job.keyed, job.who, minStart, hy, policy)
        case MissingKey => ChoiceFails
        case Searched(a, cache'') =>
          if a.Answer? then Choice(Better(g, best, v, a), found + 1, cache'') else Choice(best, found, cache'')
  }

  datatype Outcome = Fails | Unplaced(cache: Cache) | Placed(best: Best, cache: Cache)

  /** The variant to place. Reaching the initial bound with every variant found makes the
      program fail. */
  function Assign(g: Chart, cache: Cache, job: Job, minStart: int, hy: Hierarchy, policy: Policy): (o: Outcome)
    requires Usable(g) && CacheOk(g, cache, hy) && KnownJob(hy, job)
    ensures !o.Fails? ==> CacheOk(g, o.cache, hy)
  {
    match Choose(g, cache, job, minStart, hy, policy, |job.variants|)
    case ChoiceFails => Fails
    case Choice(best, found, cache') =>
      if found == 0 then Unplaced(cache') else if best.None? then Fails else Placed(best.value, cache')
  }

  /** `best` is what a cache-free search finds for variant `j`. */
  ghost predicate Comes(g: Chart, best: Best, job: Job, j: nat, minStart: int, hy: Hierarchy, policy: Policy)
    requires KnownJob(hy, job) && j < |job.variants|
  {
    && best.variant == job.variants[j]
    && PlainAnswer(g, job.variants[j].ask, job.who, minStart, hy, policy) == Some(Answer(best.l, best.r, best.res))
    && Backed(g, Answer(best.l, best.r, best.res), best.variant.ask, job.who, hy, policy)
    && best.l < |g.cells| && best.start == g.cells[best.l].b
  }

  /** Whether variant `i` finds a place, and when it would finish. */
  ghost function FinishOf(g: Chart, job: Job, i: nat, minStart: int, hy: Hierarchy, policy: Policy): Option<int>
    requires KnownJob(hy, job) && i < |job.variants|
  {
    var a := PlainAnswer(g, job.variants[i].ask, job.who, minStart, hy, policy);
    if a.Some? && a.value.Answer? && a.value.l < |g.cells| then
      Some(g.cells[a.value.l].b + job.variants[i].ask.walltime)
    else None
  }

  ghost function FinishesTo(g: Chart, job: Job, minStart: int, hy: Hierarchy, policy: Policy,
                            k: nat): (f: seq<Option<int>>)
    requires KnownJob(hy, job) && k <= |job.variants|
    ensures |f| == k
  {
    if k == 0 then []
    else FinishesTo(g, job, minStart, hy, policy, k - 1) + [FinishOf(g, job, k - 1, minStart, hy, policy)]
  }

  ghost function Finishes(g: Chart, job: Job, minStart: int, hy: Hierarchy, policy: Policy): (f: seq<Option<int>>)
    requires KnownJob(hy, job)
    ensures |f| == |job.variants|
  {
    FinishesTo(g, job, minStart, hy, policy, |job.variants|)
  }

  lemma {:induction false} FinishesAt(g: Chart, job: Job, minStart: int, hy: Hierarchy, policy: Policy, k: nat, i: nat)
    requires KnownJob(hy, job) && i < k <= |job.variants|
    ensures FinishesTo(g, job, minStart, hy, policy, k)[i] == FinishOf(g, job, i, minStart, hy, policy)
    decreases k
  {
    if i < k - 1 {
      FinishesAt(g, job, minStart, hy, policy, k - 1, i);
    }
  }

  /** `f` stands at `j` and is the least of the first `k` entries, and less than those before `j`. */
  ghost predicate IsFirstMin(f: int, all: seq<Option<int>>, j: nat, k: nat)
    requires k <= |all|
  {
    && j < k && all[j] == Some(f)
    && forall i :: 0 <= i < k && all[i].Some? ==> f <= all[i].value && (i < j ==> f < all[i].value)
  }

  /** The count of variants found and the bound of the choice among the first `k` are right. */
  ghost predicate Bounded(best: Option<int>, found: nat, all: seq<Option<int>>, k: nat)
    requires k <= |all|
  {
    && (found == 0 <==> forall i :: 0 <= i < k ==> all[i].None?)
    && (best.None? ==> forall i :: 0 <= i < k && all[i].Some? ==> all[i].value >= NO_FINISH)
    && (best.Some? ==> best.value < NO_FINISH)
  }

  lemma BoundedStep(best: Option<int>, found: nat, all: seq<Option<int>>, k: nat, best': Option<int>, found': nat)
    requires k < |all| && Bounded(best, found, all, k)
    requires found' == if all[k].Some? then found + 1 else found
    requires var bound := if best.Some? then best.value else NO_FINISH;
             best' == if all[k].Some? && all[k].value < bound then all[k] else best
    ensures Bounded(best', found', all, k + 1)
  {
  }

  function FinishOfBest(best: Option<Best>): Option<int> {
    if best.Some? then Some(best.value.Finish()) else None
  }

  /** `best` is what a cache-free search finds for variant `j`, which finishes first of the
      first `k` variants, and before all of them that come before it in the list. */
  ghost predicate KeptFrom(g: Chart, best: Best, job: Job, j: nat, k: nat, minStart: int, hy: Hierarchy, policy: Policy)
    requires KnownJob(hy, job) && k <= |job.variants|
  {
    && j < k && Comes(g, best, job, j, minStart, hy, policy)
    && IsFirstMin(best.Finish(), Finishes(g, job, minStart, hy, policy), j, k)
  }

  /** The best of the first `k` variants is the first of those that finish first. */
  ghost predicate Kept(g: Chart, best: Option<Best>, job: Job, k: nat, minStart: int, hy: Hierarchy, policy: Policy)
    requires KnownJob(hy, job) && k <= |job.variants|
  {
    best.Some? ==> exists j :: KeptFrom(g, best.value, job, j, k, minStart, hy, policy)
  }

  lemma {:induction false} ChooseLeast(g: Chart, cache: Cache, job: Job, minStart: int, hy: Hierarchy, policy: Policy,
                                       k: nat, c: Choice)
    requires Usable(g) && CacheOk(g, cache, hy) && KnownJob(hy, job) && k <= |job.variants|
    requires c == Choose(g, cache, job, minStart, hy, policy, k) && c.Choice?
    ensures ChoiceIsLeast(g, c, job, k, minStart, hy, policy)
    decreases k
  {
    if k > 0 {
      var c', a := ChooseStep(g, cache, job, minStart, hy, policy, k, c);
      ChooseLeast(g, cache, job, minStart, hy, policy, k - 1, c');
      ChoiceIsLeastStep(g, job, minStart, hy, policy, k, c', a, c);
    }
  }

  /** What the choice among the first `k` variants amounts to, in terms of the chart. */
  ghost predicate ChoiceIsLeast(g: Chart, c: Choice, job: Job, k: nat, minStart: int, hy: Hierarchy, policy: Policy)
    requires KnownJob(hy, job) && k <= |job.variants| && c.Choice?
  {
    && Bounded(FinishOfBest(c.best), c.found, Finishes(g, job, minStart, hy, policy), k)
    && Kept(g, c.best, job, k, minStart, hy, policy)
  }

  lemma BetterFinish(g: Chart, best: Option<Best>, v: Variant, a: Answer)
    requires a.Answer? && a.l < |g.cells|
    ensures var f := g.cells[a.l].b + v.ask.walltime;
            var b := Better(g, best, v, a);
            var bound := if best.Some? then best.value.Finish() else NO_FINISH;
            && FinishOfBest(b) == (if f < bound then Some(f) else FinishOfBest(best))
            && (b == best || b == Some(Best(v, g.cells[a.l].b, a.l, a.r, a.res)))
  {
  }

  lemma FinishOfAnswer(g: Chart, job: Job, i: nat, a: Answer, minStart: int, hy: Hierarchy, policy: Policy)
    requires KnownJob(hy, job) && i < |job.variants|
    requires PlainAnswer(g, job.variants[i].ask, job.who, minStart, hy, policy) == Some(a)
    requires Backed(g, a, job.variants[i].ask, job.who, hy, policy)
    ensures Finishes(g, job, minStart, hy, policy)[i]
         == if a.Answer? then Some(g.cells[a.l].b + job.variants[i].ask.walltime) else None
    ensures a.Answer? ==> Comes(g, Best(job.variants[i], g.cells[a.l].b, a.l, a.r, a.res), job, i, minStart, hy, policy)
  {
    FinishesAt(g, job, minStart, hy, policy, |job.variants|, i);
  }

  lemma BoundedPart(g: Chart, v: Variant, a: Answer, all: seq<Option<int>>, k: nat, c': Choice, c: Choice)
    requires 0 < k <= |all| && c'.Choice? && c.Choice? && (a.Answer? ==> a.l < |g.cells|)
    requires all[k-1] == if a.Answer? then Some(g.cells[a.l].b + v.ask.walltime) else None
    requires c.found == if a.Answer? then c'.found + 1 else c'.found
    requires c.best == if a.Answer? then Better(g, c'.best, v, a) else c'.best
    requires Bounded(FinishOfBest(c'.best), c'.found, all, k - 1)
    ensures Bounded(FinishOfBest(c.best), c.found, all, k)
  {
    if a.Answer? {
      BetterFinish(g, c'.best, v, a);
    }
    BoundedStep(FinishOfBest(c'.best), c'.found, all, k - 1, FinishOfBest(c.best), c.found);
  }

  /** A variant that does not finish earlier leaves the best as it is. */
  lemma StillKept(g: Chart, best: Option<Best>, job: Job, k: nat, minStart: int, hy: Hierarchy, policy: Policy)
    requires KnownJob(hy, job) && 0 < k <= |job.variants| && Kept(g, best, job, k - 1, minStart, hy, policy)
    requires var f := Finishes(g, job, minStart, hy, policy)[k-1];
             best.Some? && f.Some? ==> f.value >= best.value.Finish()
    ensures Kept(g, best, job, k, minStart, hy, policy)
  {
    hide Comes, Finishes;
    if best.Some? {
      var j: nat :| KeptFrom(g, best.value, job, j, k - 1, minStart, hy, policy);
      assert KeptFrom(g, best.value, job, j, k, minStart, hy, policy);
    }
  }

  /** A variant that finishes earlier than the best so far is the first to finish that early. */
  lemma NowKept(g: Chart, best: Option<Best>, found: nat, b: Best, job: Job, k: nat, minStart: int, hy: Hierarchy,
                policy: Policy)
    requires KnownJob(hy, job) && 0 < k <= |job.variants| && Kept(g, best, job, k - 1, minStart, hy, policy)
    requires Bounded(FinishOfBest(best), found, Finishes(g, job, minStart, hy, policy), k - 1)
    requires Comes(g, b, job, k - 1, minStart, hy, policy)
    requires Finishes(g, job, minStart, hy, policy)[k-1] == Some(b.Finish())
    requires b.Finish() < (if best.Some? then best.value.Finish() else NO_FINISH)
    ensures Kept(g, Some(b), job, k, minStart, hy, policy)
  {
    hide Comes, Finishes;
    if best.Some? {
      var j: nat :| KeptFrom(g, best.value, job, j, k - 1, minStart, hy, policy);
    }
    assert KeptFrom(g, b, job, k - 1, k, minStart, hy, policy);
  }

  lemma KeptPart(g: Chart, job: Job, minStart: int, hy: Hierarchy, policy: Policy, k: nat, a: Answer,
                 best: Option<Best>,
                 found: nat)
    requires KnownJob(hy, job) && 0 < k <= |job.variants| && a.Answer? && a.l < |g.cells|
    requires Comes(g, Best(job.variants[k-1], g.cells[a.l].b, a.l, a.r, a.res), job, k - 1, minStart, hy, policy)
    requires Finishes(g, job, minStart, hy, policy)[k-1] == Some(g.cells[a.l].b + job.variants[k-1].ask.walltime)
    requires Bounded(FinishOfBest(best), found, Finishes(g, job, minStart, hy, policy), k - 1)
    requires Kept(g, best, job, k - 1, minStart, hy, policy)
    ensures Kept(g, Better(g, best, job.variants[k-1], a), job, k, minStart, hy, policy)
  {
    hide Comes, Finishes, Kept, Bounded;
    var b := Best(job.variants[k-1], g.cells[a.l].b, a.l, a.r, a.res);
    if b.Finish() < (if best.Some? then best.value.Finish() else NO_FINISH) {
      NowKept(g, best, found, b, job, k, minStart, hy, policy);
    } else {
      StillKept(g, best, job, k, minStart, hy, policy);
    }
  }

  lemma ChoiceIsLeastStep(g: Chart, job: Job, minStart: int, hy: Hierarchy, policy: Policy, k: nat, c': Choice,
                          a: Answer, c: Choice)
    requires KnownJob(hy, job) && 0 < k <= |job.variants| && c'.Choice? && c.Choice?
    requires PlainAnswer(g, job.variants[k-1].ask, job.who, minStart, hy, policy) == Some(a)
    requires Backed(g, a, job.variants[k-1].ask, job.who, hy, policy)
    requires c.found == if a.Answer? then c'.found + 1 else c'.found
    requires c.best == if a.Answer? then Better(g, c'.best, job.variants[k-1], a) else c'.best
    requires ChoiceIsLeast(g, c', job, k - 1, minStart, hy, policy)
    ensures ChoiceIsLeast(g, c, job, k, minStart, hy, policy)
  {
    hide Bounded, Kept, Known, KnownJob, Backed, Comes, PlainAnswer, Better;
    BackedInside(g, a, job.variants[k-1].ask, job, k - 1, hy, policy);
    FinishOfAnswer(g, job, k - 1, a, minStart, hy, policy);
    BoundedPart(g, job.variants[k-1], a, Finishes(g, job, minStart, hy, policy), k, c', c);
    if a.Answer? {
      KeptPart(g, job, minStart, hy, policy, k, a, c'.best, c'.found);
    } else {
      StillKept(g, c'.best, job, k, minStart, hy, policy);
    }
  }

  lemma BackedInside(g: Chart, a: Answer, ask: Ask, job: Job, i: nat, hy: Hierarchy, policy: Policy)
    requires KnownJob(hy, job) && i < |job.variants| && ask == job.variants[i].ask
    ensures Known(hy, ask.request)
    ensures Backed(g, a, ask, job.who, hy, policy) && a.Answer? ==> a.l <= a.r < |g.cells|
  {
  }

  lemma ChooseStep(g: Chart, cache: Cache, job: Job, minStart: int, hy: Hierarchy, policy: Policy, k: nat, c: Choice)
    returns (c': Choice, a: Answer)
    requires Usable(g) && CacheOk(g, cache, hy) && KnownJob(hy, job) && 0 < k <= |job.variants|
    requires c == Choose(g, cache, job, minStart, hy, policy, k) && c.Choice?
    ensures c' == Choose(g, cache, job, minStart, hy, policy, k - 1) && c'.Choice?
    ensures PlainAnswer(g, job.variants[k-1].ask, job.who, minStart, hy, policy) == Some(a)
    ensures Backed(g, a, job.variants[k-1].ask, job.who, hy, policy)
    ensures c.found == if a.Answer? then c'.found + 1 else c'.found
    ensures c.best == if a.Answer? then Better(g, c'.best, job.variants[k-1], a) else c'.best
  {
    var v := job.variants[k-1];
    c' := Choose(g, cache, job, minStart, hy, policy, k - 1);
    CacheIsTransparent(g, c'.cache, v.ask, job.keyed, job.who, minStart, hy, policy);
    a := Search(g, c'.cache, v.ask, job.keyed, job.who, minStart, hy, policy).answer;
  }

  /** The variant placed finishes earliest of all that find a place, the first one on ties. Nothing
      is placed exactly when no variant finds a place. The program fails exactly when every slot
      begins before the required time, or when variants find places but finish at the initial
      bound or later, all of them. */
  lemma AssignExactly(g: Chart, cache: Cache, job: Job, minStart: int, hy: Hierarchy, policy: Policy, o: Outcome)
    requires Usable(g) && CacheOk(g, cache, hy) && KnownJob(hy, job)
    requires o == Assign(g, cache, job, minStart, hy, policy)
    ensures o.Placed? ==> exists j :: KeptFrom(g, o.best, job, j, |job.variants|, minStart, hy, policy)
    ensures var n := |job.variants|;
            var late := n > 0 && minStart >= 0 && forall j :: 0 <= j < |g.cells| ==> g.cells[j].b < minStart;
            && (o.Unplaced?
                <==> !late && forall i :: 0 <= i < n ==> FinishOf(g, job, i, minStart, hy, policy).None?)
            && (o.Fails?
                <==> late || (&& (exists i :: 0 <= i < n && FinishOf(g, job, i, minStart, hy, policy).Some?)
                              && (forall i :: 0 <= i < n ==>
                                    var f := FinishOf(g, job, i, minStart, hy, policy);
                                    f.Some? ==> f.value >= 0xFFFF_FFFF)))
  {
    hide Usable, CacheOk, KnownJob, FinishOf, Choose;
    var n := |job.variants|;
    var c := Choose(g, cache, job, minStart, hy, policy, n);
    ChooseFails(g, cache, job, minStart, hy, policy, n);
    if c.Choice? {
      ChooseLeast(g, cache, job, minStart, hy, policy, n, c);
      var all := Finishes(g, job, minStart, hy, policy);
      forall i | 0 <= i < n ensures all[i] == FinishOf(g, job, i, minStart, hy, policy) {
        FinishesAt(g, job, minStart, hy, policy, n, i);
      }
      if c.best.Some? {
        var j: nat :| KeptFrom(g, c.best.value, job, j, n, minStart, hy, policy);
      }
    }
  }

  /** As long as the chart ends by the time limit, the initial bound hides no variant. */
  lemma AssignIsEarliestFinish(g: Chart, cache: Cache, job: Job, minStart: int, hy: Hierarchy, policy: Policy,
                               o: Outcome)
    requires Usable(g) && CacheOk(g, cache, hy) && KnownJob(hy, job) && (Wf(g) ==> End(g) <= MAX_TIME)
    requires o == Assign(g, cache, job, minStart, hy, policy)
    ensures o.Placed? ==> exists j :: KeptFrom(g, o.best, job, j, |job.variants|, minStart, hy, policy)
    ensures o.Unplaced? <==> !o.Fails? && forall i :: 0 <= i < |job.variants| ==>
      FinishOf(g, job, i, minStart, hy, policy).None?
    ensures o.Fails? <==> |job.variants| > 0 && minStart >= 0 && forall j :: 0 <= j < |g.cells| ==>
      g.cells[j].b < minStart
  {
    hide Usable, CacheOk, KnownJob, FinishOf, Assign;
    AssignExactly(g, cache, job, minStart, hy, policy, o);
    forall i | 0 <= i < |job.variants|
      ensures var f := FinishOf(g, job, i, minStart, hy, policy); f.Some? ==> f.value < NO_FINISH
    {
      FinishIsEarly(g, job, i, minStart, hy, policy);
    }
  }

  lemma {:induction false} ChooseFails(g: Chart, cache: Cache, job: Job, minStart: int, hy: Hierarchy, policy: Policy,
                                       k: nat)
    requires Usable(g) && CacheOk(g, cache, hy) && KnownJob(hy, job) && k <= |job.variants|
    ensures Choose(g, cache, job, minStart, hy, policy, k).ChoiceFails?
       <==> k > 0 && minStart >= 0 && forall j :: 0 <= j < |g.cells| ==> g.cells[j].b < minStart
    decreases k
  {
    hide Usable, CacheOk, Known, First, Backed, Search;
    if k > 0 {
      var c' := Choose(g, cache, job, minStart, hy, policy, k - 1);
      ChooseFails(g, cache, job, minStart, hy, policy, k - 1);
      if c'.Choice? {
        CacheIsTransparent(g, c'.cache, job.variants[k-1].ask, job.keyed, job.who, minStart, hy, policy);
      }
    }
  }

  lemma PlainIsBacked(g: Chart, ask: Ask, who: Applicant, minStart: int, hy: Hierarchy, policy: Policy, a: Answer)
    requires Wf(g) && Known(hy, ask.request) && PlainAnswer(g, ask, who, minStart, hy, policy) == Some(a)
    ensures Backed(g, a, ask, who, hy, policy)
    ensures minStart >= 0 && a.Answer? ==> g.cells[a.l].b >= minStart
  {
    var p := if minStart < 0 then 0 else FirstFrom(g, 0, minStart).value;
    FirstIsLeast(g, p, ask, who, hy, policy, a);
    if a.Answer? {
      Ordered(g, p, a.l);
    }
  }

  lemma BackedEnds(g: Chart, a: Answer, ask: Ask, who: Applicant, hy: Hierarchy, policy: Policy)
    requires Wf(g) && Known(hy, ask.request) && Backed(g, a, ask, who, hy, policy) && a.Answer?
    ensures Begin(g) <= g.cells[a.l].b && g.cells[a.l].b + ask.walltime - 1 <= End(g)
  {
    Ordered(g, 0, a.l);
    Ordered(g, a.r, |g.cells| - 1);
  }

  lemma FinishIsEarly(g: Chart, job: Job, i: nat, minStart: int, hy: Hierarchy, policy: Policy)
    requires Usable(g) && KnownJob(hy, job) && i < |job.variants| && (Wf(g) ==> End(g) <= MAX_TIME)
    ensures var f := FinishOf(g, job, i, minStart, hy, policy); f.Some? ==> f.value <= MAX_TIME + 1
  {
    var a := PlainAnswer(g, job.variants[i].ask, job.who, minStart, hy, policy);
    if !Dead(g) && a.Some? && a.value.Answer? {
      PlainIsBacked(g, job.variants[i].ask, job.who, minStart, hy, policy, a.value);
      BackedEnds(g, a.value, job.variants[i].ask, job.who, hy, policy);
    }
  }

  // --------------------------------------------------------------------- over all instants

  /** The instant from which a search looks: the begin of the chart, or of the first slot that
      begins at the required time or later. */
  function LookFrom(g: Chart, minStart: int): Option<int>
    requires |g.cells| >= 1
  {
    if minStart < 0 then Some(Begin(g))
    else
      match FirstFrom(g, 0, minStart)
      case None => None
      case Some(p) => Some(g.cells[p].b)
  }

  /** Variant `i` of the job may start at instant `t`, not before `from`. */
  ghost predicate MayStart(g: Chart, job: Job, i: int, t: int, from: int, hy: Hierarchy)
    requires KnownJob(hy, job) && |g.cells| >= 1
  {
    0 <= i < |job.variants| && from <= t && Admits(g, t, job.variants[i].ask, hy)
  }

  lemma FinishOfVariant(g: Chart, job: Job, i: nat, minStart: int, from: int, hy: Hierarchy, policy: Policy)
    requires Wf(g) && Harmless(g) && KnownJob(hy, job) && i < |job.variants|
    requires LookFrom(g, minStart) == Some(from) && (!policy.enabled || job.who.noQuotas)
    ensures var f := FinishOf(g, job, i, minStart, hy, policy);
            && (f.None? <==> forall t :: !MayStart(g, job, i, t, from, hy))
            && (f.Some? ==> MayStart(g, job, i, f.value - job.variants[i].ask.walltime, from, hy))
            && (f.Some? ==> forall t :: MayStart(g, job, i, t, from, hy) ==>
                  f.value <= t + job.variants[i].ask.walltime)
  {
    hide Harmless, First, Known, IsFirstMin, Wf;
    SomeCells(g);
    var ask := job.variants[i].ask;
    var p := if minStart < 0 then 0 else FirstFrom(g, 0, minStart).value;
    var a := First(g, p, ask, job.who, hy, policy);
    FirstFitIsOptimal(g, p, ask, job.who, hy, policy, a);
    assert forall t :: MayStart(g, job, i, t, from, hy) <==> from <= t && Admits(g, t, ask, hy);
  }

  /** With or without a required start time, from the cache or not: a search that no quotas
      concern answers with the least instant from `from` on that admits the variant, and gives
      no answer only if there is none. */
  lemma SearchIsEarliest(g: Chart, cache: Cache, ask: Ask, keyed: bool, who: Applicant, minStart: int, from: int,
                         hy: Hierarchy, policy: Policy)
    requires Wf(g) && Harmless(g) && CacheOk(g, cache, hy) && Known(hy, ask.request) && ask.walltime >= 1
    requires LookFrom(g, minStart) == Some(from) && (!policy.enabled || who.noQuotas)
    ensures keyed && ask in cache ==> exists p :: 0 <= p < |g.cells| && g.cells[p].id == cache[ask]
    ensures var s := Search(g, cache, ask, keyed, who, minStart, hy, policy);
            && s.Searched? && (s.answer.NoAnswer? <==> forall t :: from <= t ==> !Admits(g, t, ask, hy))
            && (s.answer.Answer? ==> s.answer.l < |g.cells| && IsEarliest(g, from, g.cells[s.answer.l].b, ask, hy))
  {
    hide Harmless, First, Known, CacheOk, Backed, Wf, Search;
    SomeCells(g);
    CacheIsTransparent(g, cache, ask, keyed, who, minStart, hy, policy);
    var p := if minStart < 0 then 0 else FirstFrom(g, 0, minStart).value;
    FirstFitIsOptimal(g, p, ask, who, hy, policy, First(g, p, ask, who, hy, policy));
  }

  lemma SomeCells(g: Chart)
    requires Wf(g)
    ensures |g.cells| >= 1
  {
  }

  /** A job under no quotas is placed exactly when some variant may start at some instant from
      `from` on, and then no variant started at any such instant could finish earlier. */
  ghost predicate IsOptimal(g: Chart, job: Job, from: int, placed: bool, finish: int, hy: Hierarchy)
    requires KnownJob(hy, job) && |g.cells| >= 1
  {
    && (placed <==> exists i, t :: MayStart(g, job, i, t, from, hy))
    && (placed ==> exists i, t :: MayStart(g, job, i, t, from, hy) && finish == t + job.variants[i].ask.walltime)
    && (placed ==> forall i, t :: MayStart(g, job, i, t, from, hy) ==> finish <= t + job.variants[i].ask.walltime)
  }

  /** Whatever start time is required: a job under no quotas is placed with the earliest finish
      that any variant can have at any instant, slot begin or not, from the first slot on that
      begins late enough, and it is placed if there is such an instant at all. */
  lemma AssignIsOptimal(g: Chart, cache: Cache, job: Job, minStart: int, from: int, hy: Hierarchy, policy: Policy,
                        o: Outcome)
    requires Wf(g) && Harmless(g) && CacheOk(g, cache, hy) && KnownJob(hy, job) && End(g) <= MAX_TIME
    requires LookFrom(g, minStart) == Some(from) && (!policy.enabled || job.who.noQuotas)
    requires o == Assign(g, cache, job, minStart, hy, policy)
    ensures o.Placed? || o.Unplaced?
    ensures IsOptimal(g, job, from, o.Placed?, if o.Placed? then o.best.Finish() else 0, hy)
  {
    hide Wf, Harmless, Known, KnownJob, CacheOk, Admits, Assign, Kept, FinishOf, LookFrom;
    SomeCells(g);
    AssignKeeps(g, cache, job, minStart, from, hy, policy, o);
    forall i, t | MayStart(g, job, i, t, from, hy)
      ensures o.Placed? && o.best.Finish() <= t + job.variants[i].ask.walltime
    {
      StartIsFound(g, job, i, t, minStart, from, hy, policy, o);
    }
    if o.Placed? {
      var j := PlacedIsAdmitted(g, job, minStart, from, hy, policy, o.best);
    }
  }

  lemma AssignKeeps(g: Chart, cache: Cache, job: Job, minStart: int, from: int, hy: Hierarchy, policy: Policy,
                    o: Outcome)
    requires Wf(g) && CacheOk(g, cache, hy) && KnownJob(hy, job) && End(g) <= MAX_TIME
    requires LookFrom(g, minStart) == Some(from) && o == Assign(g, cache, job, minStart, hy, policy)
    ensures !o.Fails?
    ensures o.Placed? ==> Kept(g, Some(o.best), job, |job.variants|, minStart, hy, policy)
    ensures o.Unplaced? ==> forall i :: 0 <= i < |job.variants| ==> FinishOf(g, job, i, minStart, hy, policy).None?
  {
    hide Wf, KnownJob, CacheOk, Assign, KeptFrom, FinishOf;
    AssignIsEarliestFinish(g, cache, job, minStart, hy, policy, o);
  }

  lemma StartIsFound(g: Chart, job: Job, i: nat, t: int, minStart: int, from: int, hy: Hierarchy, policy: Policy,
                     o: Outcome)
    requires Wf(g) && Harmless(g) && KnownJob(hy, job)
    requires LookFrom(g, minStart) == Some(from) && (!policy.enabled || job.who.noQuotas)
    requires o.Placed? ==> Kept(g, Some(o.best), job, |job.variants|, minStart, hy, policy)
    requires o.Unplaced? ==> forall i :: 0 <= i < |job.variants| ==> FinishOf(g, job, i, minStart, hy, policy).None?
    requires !o.Fails? && MayStart(g, job, i, t, from, hy)
    ensures o.Placed? && o.best.Finish() <= t + job.variants[i].ask.walltime
  {
    hide Harmless, Known, KnownJob, Admits, Wf;
    FinishOfVariant(g, job, i, minStart, from, hy, policy);
    FinishesAt(g, job, minStart, hy, policy, |job.variants|, i);
  }

  lemma PlacedIsAdmitted(g: Chart, job: Job, minStart: int, from: int, hy: Hierarchy, policy: Policy, best: Best)
    returns (j: nat)
    requires Wf(g) && Harmless(g) && KnownJob(hy, job)
    requires LookFrom(g, minStart) == Some(from) && (!policy.enabled || job.who.noQuotas)
    requires Kept(g, Some(best), job, |job.variants|, minStart, hy, policy)
    ensures MayStart(g, job, j, best.start, from, hy) && best.Finish() == best.start + job.variants[j].ask.walltime
  {
    hide Wf, Harmless, Known, KnownJob, First, Finishes, Backed, Admits;
    j :| KeptFrom(g, best, job, j, |job.variants|, minStart, hy, policy);
    FinishOfVariant(g, job, j, minStart, from, hy, policy);
  }

  // ------------------------------------------------------------------- the job to place

  function TaskOf(who: Applicant, best: Best): Task {
    Task(best.start, best.variant.ask.walltime, best.res, None, NoPlaceholder, who.account)
  }

  /** A task that takes what is free, inside the chart, at every instant it covers. */
  ghost predicate TakesFree(g: Chart, task: Task)
    requires |g.cells| >= 1
  {
    forall t :: task.Covers(t) ==> InSpan(g, t) && task.res <= FreeAt(g, t)
  }

  /** The stretch of slots found is where the job goes, its resources are free there for
      the whole walltime, and the job stays inside the chart. */
  lemma PlacedTask(g: Chart, a: Answer, v: Variant, who: Applicant, hy: Hierarchy, policy: Policy, best: Best)
    requires Wf(g) && Known(hy, v.ask.request) && v.ask.walltime >= 1
    requires a.Answer? && Backed(g, a, v.ask, who, hy, policy)
    requires best == Best(v, g.cells[a.l].b, a.l, a.r, a.res)
    ensures Window(g, a.l, a.r, TaskOf(who, best))
    ensures TakesFree(g, TaskOf(who, best))
    ensures forall j :: a.l <= j <= a.r ==> best.start <= g.cells[j].e + 1 && g.cells[j].b <= TaskOf(who, best).Last()
  {
    var task := TaskOf(who, best);
    assert a.l < a.r ==> g.cells[a.r-1].e < task.Last() && g.cells[a.r].b == g.cells[a.r-1].e + 1;
    assert a.l > 0 ==> g.cells[a.l].b == g.cells[a.l-1].e + 1;
    assert a.r + 1 < |g.cells| ==> g.cells[a.r+1].b == g.cells[a.r].e + 1;
    forall j | a.l <= j <= a.r ensures best.start <= g.cells[j].e + 1 && g.cells[j].b <= task.Last() {
      Ordered(g, a.l, j);
      Ordered(g, j, a.r);
    }
    CommonIsFree(g, a.l, a.r, v.ask.walltime);
    FindInside(Common(g, a.l, a.r), v.ask.request, hy);
    BackedEnds(g, a, v.ask, who, hy, policy);
    forall t | task.Covers(t) ensures InSpan(g, t) && task.res <= FreeAt(g, t) {
      forall x | x in task.res ensures x in FreeAt(g, t) {
        assert x in WindowFree(g, best.start, v.ask.walltime);
        assert FreeThroughout(g, best.start, v.ask.walltime, x);
      }
    }
  }

  lemma AssignFinds(g: Chart, cache: Cache, job: Job, minStart: int, hy: Hierarchy, policy: Policy, o: Outcome)
    returns (a: Answer, v: Variant)
    requires Usable(g) && CacheOk(g, cache, hy) && KnownJob(hy, job)
    requires o == Assign(g, cache, job, minStart, hy, policy) && o.Placed?
    ensures Wf(g) && v in job.variants && a.Answer? && Backed(g, a, v.ask, job.who, hy, policy)
    ensures PlainAnswer(g, v.ask, job.who, minStart, hy, policy) == Some(a)
    ensures o.best == Best(v, g.cells[a.l].b, a.l, a.r, a.res)
    ensures CacheOk(g, o.cache, hy)
  {
    var c := Choose(g, cache, job, minStart, hy, policy, |job.variants|);
    ChooseLeast(g, cache, job, minStart, hy, policy, |job.variants|, c);
    var j: nat :| KeptFrom(g, o.best, job, j, |job.variants|, minStart, hy, policy);
    a := Answer(o.best.l, o.best.r, o.best.res);
    v := job.variants[j];
  }
}
