/** Static quotas (oar/kao/quotas.py): counters per (queue, project, job type, user),
    limits on them, and the check made before a job is placed.
 */
module QuotaRules {
  import opened Options

  /** A counter key or a rule key; "*" stands for "all together" and, in a rule, "/"
      stands for "each one separately". */
  datatype Key = Key(queue: string, project: string, jobType: string, user: string)

  datatype Counter = Counter(resources: int, jobs: int, work: int) {
    function Plus(d: Counter): Counter {
      Counter(resources + d.resources, jobs + d.jobs, work + d.work)
    }

    function Times(n: nat): Counter {
      Counter(n * resources, n * jobs, n * work)
    }

    predicate AtMost(d: Counter) {
      resources <= d.resources && jobs <= d.jobs && work <= d.work
    }

    /** A limit that is not above -1 does not limit anything. */
    predicate Within(limit: Counter) {
      && (limit.resources > -1 ==> resources <= limit.resources)
      && (limit.jobs > -1 ==> jobs <= limit.jobs)
      && (limit.work > -1 ==> work <= limit.work)
    }
  }

  const ZERO := Counter(0, 0, 0)

  type Counters = map<Key, Counter>
  type Rules = map<Key, Counter>

  /** Who a job runs for. */
  datatype Account = Account(queue: string, project: string, user: string, types: set<string>)

  /** The quota settings: whether quotas are on, the static rules, the counted job types
      and the resources that count. */
  datatype Policy = Policy(enabled: bool, rules: Rules, jobTypes: seq<string>, countable: set<int>)

  /** The value under a key; a missing key reads as zero. */
  function At(c: Counters, k: Key): Counter {
    if k in c then c[k] else ZERO
  }

  // -------------------------------------------------------------- counting a job in

  /** The eight keys a job is counted under for one job type. */
  function KeysFor(a: Account, t: string): seq<Key> {
    [ Key("*", "*", t, "*"), Key("*", "*", t, a.user), Key("*", a.project, t, "*"), Key(a.queue, "*", t, "*"),
      Key(a.queue, a.project, t, a.user), Key(a.queue, a.project, t, "*"), Key(a.queue, "*", t, a.user),
      Key("*", a.project, t, a.user) ]
  }

  predicate Counts(a: Account, t: string) {
    t == "*" || t in a.types
  }

  /** All keys a job is counted under, with repetitions, in the order of the updates. */
  function Charged(a: Account, jobTypes: seq<string>): seq<Key> {
    if jobTypes == [] then []
    else
      Charged(a, jobTypes[..|jobTypes|-1]) +
      (if Counts(a, jobTypes[|jobTypes|-1]) then KeysFor(a, jobTypes[|jobTypes|-1]) else [])
  }

  /** Every key of `keys` raised by `d`, as often as it occurs. */
  function Raised(c: Counters, keys: seq<Key>, d: Counter): Counters {
    map k | k in c.Keys + (set x | x in keys) :: At(c, k).Plus(d.Times(multiset(keys)[k]))
  }

  /** What one job of `nb` resources during `duration` seconds adds. */
  function Charge(nb: int, duration: int): Counter {
    Counter(nb, 1, nb * duration)
  }

  function Updated(c: Counters, a: Account, jobTypes: seq<string>, nb: int, duration: int): Counters {
    Raised(c, Charged(a, jobTypes), Charge(nb, duration))
  }

  // ---------------------------------------------------------- the candidate's check

  /** Resources and jobs at their maximum, work added up. */
  function Combined(c: Counters, d: Counters): Counters {
    map k | k in c.Keys + d.Keys ::
      if k in d then
        Counter(Max(At(c, k).resources, d[k].resources), Max(At(c, k).jobs, d[k].jobs), At(c, k).work + d[k].work)
      else c[k]
  }

  /** Whether the program applies rule `r` to counter `k` when checking a job of `a`. */
  predicate Applies(r: Key, k: Key, a: Account) {
    && ((r.queue == "*" == k.queue) || (r.queue == k.queue == a.queue) || r.queue == "/")
    && ((r.project == "*" == k.project) || (r.project == k.project == a.project) || r.project == "/")
    && ((r.jobType == "*" == k.jobType) || (r.jobType == k.jobType && k.jobType in a.types))
    && ((r.user == "*" == k.user) || (r.user == k.user == a.user) || r.user == "/")
  }

  predicate Passes(c: Counters, rules: Rules, a: Account) {
    forall r, k :: r in rules && k in c && Applies(r, k, a) ==> c[k].Within(rules[r])
  }

  // ------------------------------------------------------------------ what is promised

  /** Rule `r` limits counter `k`, whoever asks. */
  predicate Governs(r: Key, k: Key) {
    && (r.queue == k.queue || r.queue == "/")
    && (r.project == k.project || r.project == "/")
    && r.jobType == k.jobType
    && (r.user == k.user || r.user == "/")
  }

  /** Every counter is within every rule that covers it. */
  ghost predicate Safe(c: Counters, rules: Rules) {
    forall r, k :: r in rules && k in c && Governs(r, k) ==> c[k].Within(rules[r])
  }

  ghost predicate NonNegative(c: Counters) {
    forall k :: k in c ==> ZERO.AtMost(c[k])
  }

  ghost predicate Dominated(c: Counters, d: Counters) {
    forall k :: At(c, k).AtMost(At(d, k))
  }

  lemma CombinedDominates(c: Counters, d: Counters)
    requires NonNegative(c) && NonNegative(d)
    ensures NonNegative(Combined(c, d))
    ensures Dominated(c, Combined(c, d)) && Dominated(d, Combined(c, d))
  {
  }

  lemma UpdatedNonNegative(c: Counters, a: Account, jobTypes: seq<string>, nb: nat, duration: nat)
    requires NonNegative(c)
    ensures NonNegative(Updated(c, a, jobTypes, nb, duration))
  {
    var d := Charge(nb, duration);
    forall k | k in Updated(c, a, jobTypes, nb, duration)
      ensures ZERO.AtMost(Updated(c, a, jobTypes, nb, duration)[k])
    {
      TimesNonNegative(d, multiset(Charged(a, jobTypes))[k]);
    }
  }

  lemma TimesNonNegative(d: Counter, n: nat)
    requires ZERO.AtMost(d)
    ensures ZERO.AtMost(d.Times(n))
  {
  }

  lemma {:induction false} ChargedKeys(a: Account, jobTypes: seq<string>, k: Key)
    requires k in Charged(a, jobTypes)
    ensures Matches(k, a, jobTypes)
    decreases |jobTypes|
  {
    if jobTypes != [] {
      var init := jobTypes[..|jobTypes|-1];
      var t := jobTypes[|jobTypes|-1];
      if k in Charged(a, init) {
        ChargedKeys(a, init, k);
      } else {
        assert k in KeysFor(a, t);
      }
    }
  }

  /** The check made on a larger set of counters keeps every rule for the smaller one: for
      all keys and rules, also those the check does not apply to this job. */
  lemma CheckedUpdateIsSafe(c: Counters, total: Counters, rules: Rules, a: Account, jobTypes: seq<string>, nb: int,
                            duration: int)
    requires Safe(c, rules) && Dominated(c, total)
    requires Passes(Updated(total, a, jobTypes, nb, duration), rules, a)
    ensures Safe(Updated(c, a, jobTypes, nb, duration), rules)
  {
    var c' := Updated(c, a, jobTypes, nb, duration);
    var total' := Updated(total, a, jobTypes, nb, duration);
    forall r, k | r in rules && k in c' && Governs(r, k) ensures c'[k].Within(rules[r]) {
      if k in Charged(a, jobTypes) {
        ChargedKeys(a, jobTypes, k);
        assert Applies(r, k, a);
        assert total'[k].Within(rules[r]);
        assert At(c, k).AtMost(At(total, k));
        assert c'[k].AtMost(total'[k]);
      } else {
        assert multiset(Charged(a, jobTypes))[k] == 0;
        assert c'[k] == c[k];
      }
    }
  }

  // ------------------------------------------------------ what the counters count

  predicate Concerns(k: Key, a: Account) {
    && (k.queue == "*" || k.queue == a.queue)
    && (k.project == "*" || k.project == a.project)
    && (k.user == "*" || k.user == a.user)
  }

  /** Whether counter `k` counts jobs of `a`. */
  predicate Matches(k: Key, a: Account, jobTypes: seq<string>) {
    Concerns(k, a) && k.jobType in jobTypes && Counts(a, k.jobType)
  }

  ghost predicate Distinct(s: seq<string>) {
    forall i, j :: 0 <= i < j < |s| ==> s[i] != s[j]
  }

  /** "*" is no queue, project or user name. */
  predicate ProperNames(a: Account) {
    a.queue != "*" && a.project != "*" && a.user != "*"
  }

  function One(b: bool): nat {
    if b then 1 else 0
  }

  lemma CountFour(s: seq<Key>, x: Key)
    requires |s| == 4
    ensures multiset(s)[x] == One(s[0] == x) + One(s[1] == x) + One(s[2] == x) + One(s[3] == x)
  {
    assert s == [s[0]] + [s[1]] + [s[2]] + [s[3]];
  }

  /** Exactly one of the eight keys has a given valid choice of "*" or name in each place. */
  lemma OneOfEight(qs: bool, qa: bool, ps: bool, pa: bool, us: bool, ua: bool)
    requires !(qs && qa) && !(ps && pa) && !(us && ua)
    ensures One(qs && ps && us) + One(qs && ps && ua) + One(qs && pa && us) + One(qa && ps && us)
          + One(qa && pa && ua) + One(qa && pa && us) + One(qa && ps && ua) + One(qs && pa && ua)
         == One((qs || qa) && (ps || pa) && (us || ua))
  {
  }

  lemma CountEight(s: seq<Key>, x: Key)
    requires |s| == 8
    ensures multiset(s)[x] == One(s[0] == x) + One(s[1] == x) + One(s[2] == x) + One(s[3] == x)
                            + One(s[4] == x) + One(s[5] == x) + One(s[6] == x) + One(s[7] == x)
  {
    CountFour(s[..4], x);
    CountFour(s[4..], x);
    assert s == s[..4] + s[4..];
  }

  lemma KeysForOnce(a: Account, t: string, k: Key)
    requires ProperNames(a)
    ensures multiset(KeysFor(a, t))[k] == One(k.jobType == t && Concerns(k, a))
  {
    var s := KeysFor(a, t);
    CountEight(s, k);
    hide KeysFor;
    var qs, qa, ps, pa, us, ua := k.queue == "*", k.queue == a.queue, k.project == "*", k.project == a.project,
                                  k.user == "*", k.user == a.user;
    OneOfEight(qs, qa, ps, pa, us, ua);
    EightKeys(a, t, k);
  }

  lemma EightKeys(a: Account, t: string, k: Key)
    ensures var s := KeysFor(a, t);
            var (qs, qa, ps, pa) := (k.queue == "*", k.queue == a.queue, k.project == "*", k.project == a.project);
            var (us, ua, j) := (k.user == "*", k.user == a.user, k.jobType == t);
            && (s[0] == k <==> j && qs && ps && us) && (s[1] == k <==> j && qs && ps && ua)
            && (s[2] == k <==> j && qs && pa && us) && (s[3] == k <==> j && qa && ps && us)
            && (s[4] == k <==> j && qa && pa && ua) && (s[5] == k <==> j && qa && pa && us)
            && (s[6] == k <==> j && qa && ps && ua) && (s[7] == k <==> j && qs && pa && ua)
  {
  }

  /** A job is counted once under each key that matches it and not at all under others. */
  lemma {:induction false} ChargedOnce(a: Account, jobTypes: seq<string>, k: Key)
    requires ProperNames(a) && Distinct(jobTypes)
    ensures multiset(Charged(a, jobTypes))[k] == One(Matches(k, a, jobTypes))
    decreases |jobTypes|
  {
    if jobTypes != [] {
      var init := jobTypes[..|jobTypes|-1];
      var t := jobTypes[|jobTypes|-1];
      ChargedOnce(a, init, k);
      KeysForOnce(a, t, k);
      assert k.jobType in jobTypes <==> k.jobType in init || k.jobType == t;
      assert t !in init;
    }
  }

  lemma UpdatedCounts(c: Counters, a: Account, jobTypes: seq<string>, nb: int, duration: int, k: Key)
    requires ProperNames(a) && Distinct(jobTypes)
    ensures At(Updated(c, a, jobTypes, nb, duration), k)
         == if Matches(k, a, jobTypes) then At(c, k).Plus(Charge(nb, duration)) else At(c, k)
  {
    ChargedOnce(a, jobTypes, k);
  }

  // --------------------------------------------------------------- the counters in place

  lemma TimesSum(d: Counter, e: Counter, n: nat)
    ensures d.Times(n).Plus(e.Times(n)) == d.Plus(e).Times(n)
  {
  }

  lemma TimesAdd(d: Counter, m: nat, n: nat)
    ensures d.Times(m).Plus(d.Times(n)) == d.Times(m + n)
  {
  }

  lemma RaisedAt(c: Counters, keys: seq<Key>, d: Counter, k: Key)
    ensures k in Raised(c, keys, d) <==> k in c || k in keys
    ensures At(Raised(c, keys, d), k) == At(c, k).Plus(d.Times(multiset(keys)[k]))
  {
  }

  lemma RaisedTwice(c: Counters, keys: seq<Key>, d: Counter, e: Counter)
    ensures Raised(Raised(c, keys, d), keys, e) == Raised(c, keys, d.Plus(e))
  {
    hide Raised;
    var once := Raised(c, keys, d);
    var lhs, rhs := Raised(once, keys, e), Raised(c, keys, d.Plus(e));
    forall k ensures (k in lhs <==> k in rhs) && At(lhs, k) == At(rhs, k) {
      RaisedAt(c, keys, d, k);
      RaisedAt(once, keys, e, k);
      RaisedAt(c, keys, d.Plus(e), k);
      TimesSum(d, e, multiset(keys)[k]);
    }
    SameCounters(lhs, rhs);
  }

  lemma SameCounters(c: Counters, d: Counters)
    requires forall k :: (k in c <==> k in d) && At(c, k) == At(d, k)
    ensures c == d
  {
    assert forall k :: k in c ==> c[k] == At(c, k) && d[k] == At(d, k);
  }

  lemma PlusTimes(c: Counter, d: Counter, m: nat, n: nat)
    ensures c.Plus(d.Times(m)).Plus(d.Times(n)) == c.Plus(d.Times(m + n))
  {
    TimesAdd(d, m, n);
  }

  lemma RaisedConcat(c: Counters, keys: seq<Key>, more: seq<Key>, d: Counter)
    ensures Raised(Raised(c, keys, d), more, d) == Raised(c, keys + more, d)
  {
    hide *;
    var first := Raised(c, keys, d);
    var lhs, rhs := Raised(first, more, d), Raised(c, keys + more, d);
    forall k ensures (k in lhs <==> k in rhs) && At(lhs, k) == At(rhs, k) {
      RaisedAt(c, keys, d, k);
      RaisedAt(first, more, d, k);
      RaisedAt(c, keys + more, d, k);
      assert multiset(keys + more)[k] == multiset(keys)[k] + multiset(more)[k];
      PlusTimes(At(c, k), d, multiset(keys)[k], multiset(more)[k]);
    }
    SameCounters(lhs, rhs);
  }

  lemma RaisedOne(c: Counters, k: Key, d: Counter)
    ensures Raised(c, [k], d) == c[k := At(c, k).Plus(d)]
  {
    assert forall x :: x in c && x != k ==> multiset([k])[x] == 0;
  }

  lemma ChargedNext(a: Account, jobTypes: seq<string>, i: nat, keys: seq<Key>)
    requires i < |jobTypes| && keys == KeysFor(a, jobTypes[i])
    ensures Charged(a, jobTypes[..i+1]) == Charged(a, jobTypes[..i]) + (if Counts(a, jobTypes[i]) then keys else [])
  {
    assert jobTypes[..i+1][..i] == jobTypes[..i];
  }

  /** Why a candidate is turned down: the rule, the counter it governs, and its limit. */
  datatype Violation = Violation(rule: Key, counter: Key, limit: Counter)

  class Quotas {
    var counters: Counters

    /** The slot these counters belong to, if any. */
    ghost var owner: object?

    constructor ()
      ensures counters == map[]
    {
      counters := map[];
      owner := null;
    }

    method DeepcopyFrom(other: Quotas)
      modifies this`counters
      ensures counters == old(other.counters)
    {
      counters := other.counters;
    }

    method RaiseEach(keys: seq<Key>, d: Counter)
      modifies this`counters
      ensures counters == Raised(old(counters), keys, d)
    {
      assert Raised(counters, [], d) == counters;
      for i := 0 to |keys|
        invariant counters == Raised(old(counters), keys[..i], d)
      {
        RaisedOne(counters, keys[i], d);
        RaisedConcat(old(counters), keys[..i], [keys[i]], d);
        assert keys[..i+1] == keys[..i] + [keys[i]];
        counters := counters[keys[i] := At(counters, keys[i]).Plus(d)];
      }
      assert keys[..|keys|] == keys;
    }

    /** Counts a job in under the keys of one job type, if it is of that type: its resources, then the number of
        jobs, then the resource-seconds. */
    method UpdateType(a: Account, t: string, nb: int, duration: int) returns (ghost keys: seq<Key>)
      modifies this`counters
      ensures keys == KeysFor(a, t)
      ensures counters == if Counts(a, t) then Raised(old(counters), keys, Charge(nb, duration)) else old(counters)
    {
      keys := KeysFor(a, t);
      if Counts(a, t) {
        var each := KeysFor(a, t);
        RaiseEach(each, Counter(nb, 0, 0));
        RaiseEach(each, Counter(0, 1, 0));
        RaiseEach(each, Counter(0, 0, nb * duration));
        RaisedTwice(old(counters), keys, Counter(nb, 0, 0), Counter(0, 1, 0));
        RaisedTwice(old(counters), keys, Counter(nb, 1, 0), Counter(0, 0, nb * duration));
      }
    }

    method Update(a: Account, jobTypes: seq<string>, nb: int, duration: int)
      modifies this`counters
      ensures counters == Updated(old(counters), a, jobTypes, nb, duration)
    {
      ghost var d := Charge(nb, duration);
      assert Raised(counters, [], d) == counters;
      for i := 0 to |jobTypes|
        invariant counters == Raised(old(counters), Charged(a, jobTypes[..i]), d)
      {
        ghost var keys := UpdateType(a, jobTypes[i], nb, duration);
        ghost var before := Charged(a, jobTypes[..i]);
        ChargedNext(a, jobTypes, i, keys);
        if Counts(a, jobTypes[i]) {
          RaisedConcat(old(counters), before, keys, d);
        } else {
          assert before + [] == before;
        }
      }
      assert jobTypes[..|jobTypes|] == jobTypes;
    }

    method Combine(other: Quotas)
      requires other != this
      modifies this`counters
      ensures counters == Combined(old(counters), other.counters)
    {
      var todo := other.counters.Keys;
      while todo != {}
        invariant todo <= other.counters.Keys
        invariant counters.Keys == old(counters).Keys + (other.counters.Keys - todo)
        invariant forall k :: k in counters ==>
          counters[k] == (if k in todo then old(counters)[k] else Combined(old(counters), other.counters)[k])
        decreases todo
      {
        var k :| k in todo;
        var c, v := At(counters, k), other.counters[k];
        counters := counters[k := Counter(Max(c.resources, v.resources), Max(c.jobs, v.jobs), c.work + v.work)];
        todo := todo - {k};
      }
    }

    /** Finds a rule that some counter exceeds, if there is one for this job. */
    method Check(rules: Rules, a: Account) returns (v: Option<Violation>)
      ensures v.None? <==> Passes(counters, rules, a)
      ensures v.Some? ==>
        var x := v.value;
        && x.rule in rules && x.counter in counters && Applies(x.rule, x.counter, a)
        && x.limit == rules[x.rule] && !counters[x.counter].Within(x.limit)
    {
      var todo := rules.Keys;
      while todo != {}
        invariant todo <= rules.Keys
        invariant forall r, k :: r in rules && r !in todo && k in counters && Applies(r, k, a) ==>
          counters[k].Within(rules[r])
        decreases todo
      {
        var r :| r in todo;
        todo := todo - {r};
        var left := counters.Keys;
        while left != {}
          invariant left <= counters.Keys
          invariant forall k :: k in counters && k !in left && Applies(r, k, a) ==> counters[k].Within(rules[r])
          decreases left
        {
          var k :| k in left;
          left := left - {k};
          if Applies(r, k, a) && !counters[k].Within(rules[r]) {
            return Some(Violation(r, k, rules[r]));
          }
        }
      }
      v := None;
    }
  }
}
