/** When quotas turn a place down: exactly, in terms of the counters of the slots of the place,
    the rules and the job.
 */
module WindowQuotas {
  import opened Options
  import opened Requests
  import opened QuotaRules
  import opened Sharing
  import opened Gantt
  import opened FirstFit

  /** The counter of slot `j` under key `k`. */
  function Slot(g: Chart, j: int, k: Key): Counter
    requires 0 <= j < |g.cells|
  {
    At(g.cells[j].counters, k)
  }

  /** The resource-seconds counted under `k` in the slots from `p` to `q`, together. */
  function WorkOver(g: Chart, p: nat, q: nat, k: Key): int
    requires p <= q < |g.cells|
    decreases q - p
  {
    Slot(g, q, k).work + if p == q then 0 else WorkOver(g, p, q - 1, k)
  }

  /** Some slot from `p` to `q` counts under `k`. */
  ghost predicate CountedIn(g: Chart, p: nat, q: nat, k: Key)
    requires p <= q < |g.cells|
  {
    exists j :: p <= j <= q && k in g.cells[j].counters
  }

  /** `c` is what the slots from `p` to `q` have under `k` together: resources and jobs of the
      slot that has most, or zero, and the work of all. */
  ghost predicate IsCommon(g: Chart, p: nat, q: nat, k: Key, c: Counter)
    requires p <= q < |g.cells|
  {
    && c.resources >= 0 && c.jobs >= 0
    && (forall j :: p <= j <= q ==> Slot(g, j, k).resources <= c.resources && Slot(g, j, k).jobs <= c.jobs)
    && (c.resources > 0 ==> exists j :: p <= j <= q && Slot(g, j, k).resources == c.resources)
    && (c.jobs > 0 ==> exists j :: p <= j <= q && Slot(g, j, k).jobs == c.jobs)
    && c.work == WorkOver(g, p, q, k)
  }

  lemma IsCommonFirst(g: Chart, p: nat, k: Key, c: Counter)
    requires p < |g.cells|
    requires var d := Slot(g, p, k); c == Counter(Max(0, d.resources), Max(0, d.jobs), d.work)
    ensures IsCommon(g, p, p, k, c)
  {
    assert c.resources > 0 ==> Slot(g, p, k).resources == c.resources;
    assert c.jobs > 0 ==> Slot(g, p, k).jobs == c.jobs;
  }

  lemma IsCommonNext(g: Chart, p: nat, q: nat, k: Key, c: Counter, c': Counter)
    requires p < q < |g.cells| && IsCommon(g, p, q - 1, k, c)
    requires var d := Slot(g, q, k); c' == Counter(Max(c.resources, d.resources), Max(c.jobs, d.jobs), c.work + d.work)
    ensures IsCommon(g, p, q, k, c')
  {
    if c'.resources > 0 {
      if c.resources == c'.resources {
        var j :| p <= j <= q - 1 && Slot(g, j, k).resources == c.resources;
        assert Slot(g, j, k).resources == c'.resources;
      } else {
        assert Slot(g, q, k).resources == c'.resources;
      }
    }
    if c'.jobs > 0 {
      if c.jobs == c'.jobs {
        var j :| p <= j <= q - 1 && Slot(g, j, k).jobs == c.jobs;
        assert Slot(g, j, k).jobs == c'.jobs;
      } else {
        assert Slot(g, q, k).jobs == c'.jobs;
      }
    }
  }

  lemma CombinedAt(c: Counters, d: Counters, k: Key)
    ensures k in Combined(c, d) <==> k in c || k in d
    ensures var (x, y) := (At(c, k), At(d, k));
            At(Combined(c, d), k)
            == if k in d then Counter(Max(x.resources, y.resources), Max(x.jobs, y.jobs), x.work + y.work) else x
  {
  }

  /** What the program combines over a place is, for each key, the most resources and jobs of any
      slot of it and the work of all of them. */
  lemma {:induction false} CommonExactly(g: Chart, p: nat, q: nat, k: Key)
    requires p <= q < |g.cells|
    ensures IsCommon(g, p, q, k, At(CommonCounters(g, p, q), k))
    ensures k in CommonCounters(g, p, q) <==> CountedIn(g, p, q, k)
    decreases q - p
  {
    hide Combined, IsCommon;
    var d := g.cells[q].counters;
    if p == q {
      CombinedAt(map[], d, k);
      IsCommonFirst(g, p, k, At(CommonCounters(g, p, q), k));
    } else {
      var before := CommonCounters(g, p, q - 1);
      CommonExactly(g, p, q - 1, k);
      CombinedAt(before, d, k);
      IsCommonNonNegative(g, p, q - 1, k, At(before, k));
      IsCommonNext(g, p, q, k, At(before, k), At(CommonCounters(g, p, q), k));
      assert CountedIn(g, p, q, k) <==> CountedIn(g, p, q - 1, k) || k in d;
    }
  }

  lemma IsCommonNonNegative(g: Chart, p: nat, q: nat, k: Key, c: Counter)
    requires p <= q < |g.cells| && IsCommon(g, p, q, k, c)
    ensures c.resources >= 0 && c.jobs >= 0
  {
  }

  /** The program looks at rule `r` and key `k` for a job of `a`: the rule is about the key, and
      where it does not say each one separately, about all together or about the job. */
  predicate LooksAt(r: Key, k: Key, a: Account) {
    && (r.queue == "/" || (r.queue == k.queue && (k.queue == "*" || k.queue == a.queue)))
    && (r.project == "/" || (r.project == k.project && (k.project == "*" || k.project == a.project)))
    && r.jobType == k.jobType && (k.jobType == "*" || k.jobType in a.types)
    && (r.user == "/" || (r.user == k.user && (k.user == "*" || k.user == a.user)))
  }

  /** The job is counted under `k`. */
  predicate Mine(k: Key, a: Account, jobTypes: seq<string>) {
    && (k.queue == "*" || k.queue == a.queue) && (k.project == "*" || k.project == a.project)
    && (k.user == "*" || k.user == a.user)
    && k.jobType in jobTypes && (k.jobType == "*" || k.jobType in a.types)
  }

  /** With the job counted in, where it is, some slot from `p` to `q` has more resources or jobs
      under `k` than `limit` allows, or all of them together more resource-seconds. A limit
      below zero limits nothing. */
  ghost predicate Exceeds(g: Chart, p: nat, q: nat, k: Key, limit: Counter, mine: bool, nb: int, duration: int)
    requires p <= q < |g.cells|
  {
    || (limit.resources >= 0
        && exists j :: p <= j <= q && Max(0, Slot(g, j, k).resources) + (if mine then nb else 0) > limit.resources)
    || (limit.jobs >= 0
        && exists j :: p <= j <= q && Max(0, Slot(g, j, k).jobs) + (if mine then 1 else 0) > limit.jobs)
    || (limit.work >= 0 && WorkOver(g, p, q, k) + (if mine then nb * duration else 0) > limit.work)
  }

  /** Some rule that the program looks at is exceeded in the place. */
  ghost predicate TurnedDown(g: Chart, p: nat, q: nat, a: Account, nb: int, duration: int, policy: Policy)
    requires p <= q < |g.cells|
  {
    exists r, k ::
      && r in policy.rules && LooksAt(r, k, a) && (CountedIn(g, p, q, k) || Mine(k, a, policy.jobTypes))
      && Exceeds(g, p, q, k, policy.rules[r], Mine(k, a, policy.jobTypes), nb, duration)
  }

  lemma LooksAtIff(r: Key, k: Key, a: Account)
    ensures Applies(r, k, a) <==> LooksAt(r, k, a)
  {
  }

  lemma SomeResources(g: Chart, p: nat, q: nat, k: Key, c: Counter, add: int, limit: int)
    requires p <= q < |g.cells| && IsCommon(g, p, q, k, c)
    ensures c.resources + add > limit <==> exists j :: p <= j <= q && Max(0, Slot(g, j, k).resources) + add > limit
    ensures c.jobs + add > limit <==> exists j :: p <= j <= q && Max(0, Slot(g, j, k).jobs) + add > limit
  {
    if c.resources + add > limit {
      var j := if c.resources > 0 then MostResources(g, p, q, k, c) else p;
      assert Max(0, Slot(g, j, k).resources) + add > limit;
    }
    if c.jobs + add > limit {
      var j := if c.jobs > 0 then MostJobs(g, p, q, k, c) else p;
      assert Max(0, Slot(g, j, k).jobs) + add > limit;
    }
  }

  ghost function MostResources(g: Chart, p: nat, q: nat, k: Key, c: Counter): (j: int)
    requires p <= q < |g.cells| && IsCommon(g, p, q, k, c) && c.resources > 0
    ensures p <= j <= q && Slot(g, j, k).resources == c.resources
  {
    var j :| p <= j <= q && Slot(g, j, k).resources == c.resources;
    j
  }

  ghost function MostJobs(g: Chart, p: nat, q: nat, k: Key, c: Counter): (j: int)
    requires p <= q < |g.cells| && IsCommon(g, p, q, k, c) && c.jobs > 0
    ensures p <= j <= q && Slot(g, j, k).jobs == c.jobs
  {
    var j :| p <= j <= q && Slot(g, j, k).jobs == c.jobs;
    j
  }

  lemma MatchesIff(k: Key, a: Account, jobTypes: seq<string>)
    ensures Matches(k, a, jobTypes) <==> Mine(k, a, jobTypes)
  {
  }

  lemma UpdatedKeys(c: Counters, a: Account, jobTypes: seq<string>, nb: int, duration: int, k: Key)
    requires ProperNames(a) && Distinct(jobTypes)
    ensures k in Updated(c, a, jobTypes, nb, duration) <==> k in c || Matches(k, a, jobTypes)
  {
    hide Charged, Matches, Raised, ProperNames;
    ChargedOnce(a, jobTypes, k);
    RaisedAt(c, Charged(a, jobTypes), Charge(nb, duration), k);
    assert k in multiset(Charged(a, jobTypes)) <==> k in Charged(a, jobTypes);
  }

  /** What the job adds to the counter under `k`. */
  lemma UpdatedBy(c: Counters, a: Account, jobTypes: seq<string>, nb: int, duration: int, k: Key)
    requires ProperNames(a) && Distinct(jobTypes)
    ensures k in Updated(c, a, jobTypes, nb, duration) <==> k in c || Mine(k, a, jobTypes)
    ensures var (x, mine) := (At(c, k), Mine(k, a, jobTypes));
            At(Updated(c, a, jobTypes, nb, duration), k)
            == Counter(x.resources + (if mine then nb else 0), x.jobs + (if mine then 1 else 0),
                       x.work + (if mine then nb * duration else 0))
  {
    hide Updated, Matches, Mine, ProperNames;
    UpdatedCounts(c, a, jobTypes, nb, duration, k);
    UpdatedKeys(c, a, jobTypes, nb, duration, k);
    MatchesIff(k, a, jobTypes);
  }

  lemma ExceedsIff(g: Chart, p: nat, q: nat, k: Key, limit: Counter, mine: bool, nb: int, duration: int, c: Counter,
                   d: Counter)
    requires p <= q < |g.cells| && IsCommon(g, p, q, k, c)
    requires d == Counter(c.resources + (if mine then nb else 0), c.jobs + (if mine then 1 else 0),
                          c.work + (if mine then nb * duration else 0))
    ensures d.Within(limit) <==> !Exceeds(g, p, q, k, limit, mine, nb, duration)
  {
    SomeResources(g, p, q, k, c, if mine then nb else 0, limit.resources);
    SomeResources(g, p, q, k, c, if mine then 1 else 0, limit.jobs);
    IsCommonWork(g, p, q, k, c);
    hide IsCommon, WorkOver;
  }

  lemma IsCommonWork(g: Chart, p: nat, q: nat, k: Key, c: Counter)
    requires p <= q < |g.cells| && IsCommon(g, p, q, k, c)
    ensures c.work == WorkOver(g, p, q, k)
  {
  }

  lemma {:induction false} SameRulesIff(g: Chart, p: nat, q: nat)
    requires p <= q < |g.cells|
    ensures SameRules(g, p, q) <==> forall j :: p <= j <= q ==> g.cells[j].rulesId == g.cells[p].rulesId
    decreases q - p
  {
    if p < q {
      SameRulesIff(g, p, q - 1);
    }
  }

  /** The check of a place passes exactly when all its slots are under the same rules and no rule
      that the program looks at is exceeded there with the job counted in. */
  lemma CheckedExactly(g: Chart, p: nat, q: nat, a: Account, nb: int, duration: int, policy: Policy)
    requires p <= q < |g.cells| && ProperNames(a) && Distinct(policy.jobTypes)
    ensures QuotasPass(g, p, q, a, nb, duration, policy)
       <==> (forall j :: p <= j <= q ==> g.cells[j].rulesId == g.cells[p].rulesId)
            && !TurnedDown(g, p, q, a, nb, duration, policy)
  {
    hide Applies, LooksAt, Mine, Exceeds, Updated, IsCommon, CommonCounters, SameRules;
    SameRulesIff(g, p, q);
    var total := Updated(CommonCounters(g, p, q), a, policy.jobTypes, nb, duration);
    forall r, k | r in policy.rules
      ensures k in total <==> CountedIn(g, p, q, k) || Mine(k, a, policy.jobTypes)
      ensures Applies(r, k, a) <==> LooksAt(r, k, a)
      ensures At(total, k).Within(policy.rules[r])
         <==> !Exceeds(g, p, q, k, policy.rules[r], Mine(k, a, policy.jobTypes), nb, duration)
    {
      LooksAtIff(r, k, a);
      CommonExactly(g, p, q, k);
      UpdatedBy(CommonCounters(g, p, q), a, policy.jobTypes, nb, duration, k);
      ExceedsIff(g, p, q, k, policy.rules[r], Mine(k, a, policy.jobTypes), nb, duration,
                 At(CommonCounters(g, p, q), k), At(total, k));
    }
    PassesIff(g, p, q, a, nb, duration, policy, total);
  }

  lemma PassesIff(g: Chart, p: nat, q: nat, a: Account, nb: int, duration: int, policy: Policy, total: Counters)
    requires p <= q < |g.cells|
    requires forall r, k :: r in policy.rules ==> (Applies(r, k, a) <==> LooksAt(r, k, a))
    requires forall r, k :: r in policy.rules && LooksAt(r, k, a) ==>
               (k in total <==> CountedIn(g, p, q, k) || Mine(k, a, policy.jobTypes))
    requires forall r, k :: r in policy.rules && LooksAt(r, k, a) ==>
               (At(total, k).Within(policy.rules[r])
                <==> !Exceeds(g, p, q, k, policy.rules[r], Mine(k, a, policy.jobTypes), nb, duration))
    ensures Passes(total, policy.rules, a) <==> !TurnedDown(g, p, q, a, nb, duration, policy)
  {
    hide Applies, LooksAt, Mine, Exceeds, CountedIn;
    if TurnedDown(g, p, q, a, nb, duration, policy) {
      var r, k :|
        && r in policy.rules && LooksAt(r, k, a) && (CountedIn(g, p, q, k) || Mine(k, a, policy.jobTypes))
        && Exceeds(g, p, q, k, policy.rules[r], Mine(k, a, policy.jobTypes), nb, duration);
      assert Applies(r, k, a) && k in total && !total[k].Within(policy.rules[r]);
    } else {
      forall r, k | r in policy.rules && k in total && Applies(r, k, a) ensures total[k].Within(policy.rules[r]) {
        assert LooksAt(r, k, a) && At(total, k) == total[k];
      }
    }
  }

  /** Quotas let a variant have the place it needs from slot `k` on exactly when they are off, or
      the job ignores them, or the slots are under the same rules and no rule is exceeded with
      the resources that count, for the walltime. */
  lemma AllowedExactly(g: Chart, k: nat, ask: Ask, who: Applicant, hy: Hierarchy, policy: Policy)
    requires Known(hy, ask.request) && k < |g.cells| && ProperNames(who.account) && Distinct(policy.jobTypes)
    ensures var q := RightFrom(g, k, k, ask.walltime);
            AllowedAt(g, k, ask, who, hy, policy) <==>
              && q != -1
              && (!policy.enabled || who.noQuotas
                  || (&& (forall j :: k <= j <= q ==> g.cells[j].rulesId == g.cells[k].rulesId)
                      && !TurnedDown(g, k, q, who.account, |Find(Common(g, k, q), ask.request, hy) * policy.countable|,
                                     ask.walltime, policy)))
  {
    hide TurnedDown, QuotasPass, Find, Common;
    var q := RightFrom(g, k, k, ask.walltime);
    if q != -1 {
      var nb := |Find(Common(g, k, q), ask.request, hy) * policy.countable|;
      CheckedExactly(g, k, q, who.account, nb, ask.walltime, policy);
    }
  }

  // ------------------------------------------------------------------------- an example

  function Busy(id: int, b: int, e: int): Cell {
    Cell(id, b, e, {}, map[Key("*", "*", "*", "v") := Counter(1, 1, 60)], -1, NO_TABLES)
  }

  const EACH_USER := Key("*", "*", "*", "/")
  const USER_V := Key("*", "*", "*", "v")
  const AT_MOST_100 := Counter(-1, -1, 100)

  function TwoBusy(): Chart {
    Chart([Busy(1, 0, 9), Busy(2, 10, 19)], 2)
  }

  lemma BusyIsWithin(id: int, b: int, e: int)
    ensures Safe(Busy(id, b, e).counters, map[EACH_USER := AT_MOST_100])
    ensures USER_V in Busy(id, b, e).counters && At(Busy(id, b, e).counters, USER_V) == Counter(1, 1, 60)
  {
  }

  lemma TogetherTooMuch(mine: bool, nb: int, duration: int)
    requires !mine
    ensures CountedIn(TwoBusy(), 0, 1, USER_V)
    ensures Exceeds(TwoBusy(), 0, 1, USER_V, AT_MOST_100, mine, nb, duration)
  {
    var g := TwoBusy();
    BusyIsWithin(1, 0, 9);
    BusyIsWithin(2, 10, 19);
    hide Busy;
    assert USER_V in g.cells[0].counters;
    assert WorkOver(g, 0, 0, USER_V) == 60;
    assert WorkOver(g, 0, 1, USER_V) == 120;
  }

  /** A rule for each user separately is also looked at for other users, and the work of a place
      is added up over its slots: so a job of one user is turned down because of the jobs of
      another, although every slot of the place is within the rule and the job adds nothing to it. */
  lemma TurnedDownForAnother(types: set<string>, nb: int, duration: int)
    ensures forall j :: 0 <= j <= 1 ==> Safe(TwoBusy().cells[j].counters, map[EACH_USER := AT_MOST_100])
    ensures !Mine(USER_V, Account("q", "p", "u", types), ["*"])
    ensures !QuotasPass(TwoBusy(), 0, 1, Account("q", "p", "u", types), nb, duration,
                        Policy(true, map[EACH_USER := AT_MOST_100], ["*"], {}))
  {
    hide *;
    var policy := Policy(true, map[EACH_USER := AT_MOST_100], ["*"], {});
    var a := Account("q", "p", "u", types);
    BusyIsWithin(1, 0, 9);
    BusyIsWithin(2, 10, 19);
    UserIsLookedAt(types);
    TogetherTooMuch(Mine(USER_V, a, ["*"]), nb, duration);
    IsTurnedDown(0, 1, EACH_USER, USER_V, TwoBusy(), a, nb, duration, policy);
    CheckedExactly(TwoBusy(), 0, 1, a, nb, duration, policy);
  }

  lemma UserIsLookedAt(types: set<string>)
    ensures var a := Account("q", "p", "u", types);
            LooksAt(EACH_USER, USER_V, a) && !Mine(USER_V, a, ["*"]) && ProperNames(a) && Distinct(["*"])
    ensures TwoBusy().cells == [Busy(1, 0, 9), Busy(2, 10, 19)]
  {
  }

  lemma IsTurnedDown(p: nat, q: nat, r: Key, k: Key, g: Chart, a: Account, nb: int, duration: int, policy: Policy)
    requires p <= q < |g.cells| && r in policy.rules && LooksAt(r, k, a) && CountedIn(g, p, q, k)
    requires Exceeds(g, p, q, k, policy.rules[r], Mine(k, a, policy.jobTypes), nb, duration)
    ensures TurnedDown(g, p, q, a, nb, duration, policy)
  {
    hide Exceeds, LooksAt, CountedIn;
  }
}
