/** The resources of one moldable variant of a job (find_resource_hierarchies_job in
    oar/kao/scheduling.py): every sub-request is searched in the hierarchy on its own.
 */
module Requests {
  import opened Hierarchies

  /** One sub-request: how many blocks at each named level, among allowed resources. */
  datatype SubRequest = SubRequest(levels: seq<(string, int)>, allowed: set<int>)

  type Request = seq<SubRequest>
  type Hierarchy = map<string, Level>

  /** A request names at least one level per sub-request, and only known levels. */
  ghost predicate Known(hy: Hierarchy, rq: Request) {
    forall k :: 0 <= k < |rq| ==> KnownSub(hy, rq[k])
  }

  ghost predicate KnownSub(hy: Hierarchy, sub: SubRequest) {
    |sub.levels| >= 1 && forall i :: 0 <= i < |sub.levels| ==> sub.levels[i].0 in hy
  }

  function LevelsOf(hy: Hierarchy, sub: SubRequest): seq<Level>
    requires KnownSub(hy, sub)
  {
    seq(|sub.levels|, i requires 0 <= i < |sub.levels| => hy[sub.levels[i].0])
  }

  function CountsOf(sub: SubRequest): seq<int> {
    seq(|sub.levels|, i requires 0 <= i < |sub.levels| => sub.levels[i].1)
  }

  function FindSub(free: set<int>, sub: SubRequest, hy: Hierarchy): set<int>
    requires KnownSub(hy, sub)
  {
    Scattered(sub.allowed * free, LevelsOf(hy, sub), CountsOf(sub))
  }

  /** Whether every sub-request from index `k` on finds resources, and their union. */
  function FindFrom(free: set<int>, rq: Request, hy: Hierarchy, k: nat): (bool, set<int>)
    requires k <= |rq| && Known(hy, rq)
    decreases |rq| - k
  {
    if k == |rq| then (true, {})
    else
      var r := FindSub(free, rq[k], hy);
      var (ok, rest) := FindFrom(free, rq, hy, k + 1);
      (r != {} && ok, r + rest)
  }

  function Find(free: set<int>, rq: Request, hy: Hierarchy): set<int>
    requires Known(hy, rq)
  {
    var (ok, r) := FindFrom(free, rq, hy, 0);
    if ok then r else {}
  }

  method FindResourceHierarchiesScattered(free: set<int>, hy: seq<Level>, counts: seq<int>) returns (r: set<int>)
    requires 1 <= |hy| == |counts|
    ensures r == Scattered(free, hy, counts)
  {
    if |hy| == 1 {
      r := ExtractNScatteredBlockItv(free, hy[0], counts[0]);
    } else {
      r := FindResourceNH(free, hy, counts, hy[0], 0);
    }
  }

  method FindResourceHierarchiesJob(free: set<int>, rq: Request, hy: Hierarchy) returns (r: set<int>)
    requires Known(hy, rq)
    ensures r == Find(free, rq, hy)
  {
    r := {};
    for k := 0 to |rq|
      invariant FindFrom(free, rq, hy, 0).0 == FindFrom(free, rq, hy, k).0
      invariant FindFrom(free, rq, hy, 0).1 == r + FindFrom(free, rq, hy, k).1
    {
      var levels, counts := [], [];
      for i := 0 to |rq[k].levels|
        invariant levels == LevelsOf(hy, rq[k])[..i]
        invariant counts == CountsOf(rq[k])[..i]
      {
        levels := levels + [hy[rq[k].levels[i].0]];
        counts := counts + [rq[k].levels[i].1];
      }
      assert levels == LevelsOf(hy, rq[k]) && counts == CountsOf(rq[k]);
      var res := FindResourceHierarchiesScattered(rq[k].allowed * free, levels, counts);
      if res == {} {
        return {};
      }
      r := r + res;
    }
  }

  lemma {:induction false} FindFromInside(free: set<int>, rq: Request, hy: Hierarchy, k: nat)
    requires k <= |rq| && Known(hy, rq)
    ensures FindFrom(free, rq, hy, k).1 <= free
    decreases |rq| - k
  {
    if k < |rq| {
      ScatteredInside(rq[k].allowed * free, LevelsOf(hy, rq[k]), CountsOf(rq[k]));
      FindFromInside(free, rq, hy, k + 1);
    }
  }

  /** What is found is free. */
  lemma FindInside(free: set<int>, rq: Request, hy: Hierarchy)
    requires Known(hy, rq)
    ensures Find(free, rq, hy) <= free
  {
    FindFromInside(free, rq, hy, 0);
  }

  lemma {:induction false} FindFromMonotone(free: set<int>, more: set<int>, rq: Request, hy: Hierarchy, k: nat)
    requires k <= |rq| && Known(hy, rq) && free <= more
    ensures FindFrom(free, rq, hy, k).0 ==> FindFrom(more, rq, hy, k).0
    ensures FindFrom(free, rq, hy, k).0 && k < |rq| ==> FindFrom(more, rq, hy, k).1 != {}
    decreases |rq| - k
  {
    if k < |rq| {
      ScatteredMonotone(rq[k].allowed * free, rq[k].allowed * more, LevelsOf(hy, rq[k]), CountsOf(rq[k]));
      FindFromMonotone(free, more, rq, hy, k + 1);
    }
  }

  /** A job variant that fits in some free resources fits in any larger free set. */
  lemma FindMonotone(free: set<int>, more: set<int>, rq: Request, hy: Hierarchy)
    requires Known(hy, rq) && free <= more
    ensures Find(free, rq, hy) != {} ==> Find(more, rq, hy) != {}
  {
    FindFromMonotone(free, more, rq, hy, 0);
  }

  lemma {:induction false} FindFromExact(free: set<int>, rq: Request, hy: Hierarchy, k: nat)
    requires k <= |rq| && Known(hy, rq)
    ensures FindFrom(free, rq, hy, k).0 <==> forall i :: k <= i < |rq| ==> FindSub(free, rq[i], hy) != {}
    ensures forall i :: k <= i < |rq| ==> FindSub(free, rq[i], hy) <= FindFrom(free, rq, hy, k).1
    ensures forall x :: x in FindFrom(free, rq, hy, k).1 ==> exists i :: k <= i < |rq| && x in FindSub(free, rq[i], hy)
    decreases |rq| - k
  {
    if k < |rq| {
      FindFromExact(free, rq, hy, k + 1);
    }
  }

  /** `s` is a valid part from block `i` of the level named in pair `h` of the sub-request, inside
      `block`: at the last pair all of the block that is inside, if that is something and free;
      before, what the next pair asks for in a block that lies inside. */
  ghost predicate PartServes(free: set<int>, levels: seq<(string, int)>, hy: Hierarchy, h: nat, block: Block, i: nat,
                             s: set<int>)
    requires h < |levels| && forall k :: 0 <= k < |levels| ==> levels[k].0 in hy
    decreases |levels| - h, 0
  {
    && i < |hy[levels[h].0]|
    && if h == |levels| - 1 then {} != block * hy[levels[h].0][i] == s <= free
       else hy[levels[h].0][i] <= block && BlockServes(free, levels, hy, h + 1, hy[levels[h].0][i], s)
  }

  /** `r` is what pair `h` of the sub-request asks for inside `block`: so many parts, from as many
      blocks of the level it names. */
  ghost predicate BlockServes(free: set<int>, levels: seq<(string, int)>, hy: Hierarchy, h: nat, block: Block,
                              r: set<int>)
    requires h < |levels| && forall k :: 0 <= k < |levels| ==> levels[k].0 in hy
    decreases |levels| - h, 1
  {
    exists picked: map<nat, set<int>> ::
      && |picked| == levels[h].1 && r == UnionOf(picked)
      && forall i :: i in picked ==> PartServes(free, levels, hy, h, block, i, picked[i])
  }

  /** `r` is a valid answer to one sub-request from the free resources: so many blocks of the
      first level it names as it says there, whole ones if it names no other, and in each of
      them what the next pair asks for. */
  ghost predicate Serves(free: set<int>, sub: SubRequest, hy: Hierarchy, r: set<int>)
    requires KnownSub(hy, sub)
  {
    exists picked: map<nat, set<int>> ::
      && |picked| == sub.levels[0].1 && r == UnionOf(picked)
      && forall i :: i in picked ==> TopServes(sub.allowed * free, sub.levels, hy, i, picked[i])
  }

  ghost predicate TopServes(free: set<int>, levels: seq<(string, int)>, hy: Hierarchy, i: nat, s: set<int>)
    requires |levels| >= 1 && forall k :: 0 <= k < |levels| ==> levels[k].0 in hy
  {
    && i < |hy[levels[0].0]|
    && if |levels| == 1 then s == hy[levels[0].0][i] <= free
       else BlockServes(free, levels, hy, 1, hy[levels[0].0][i], s)
  }

  /** The sub-request asks for something at each level, and some valid answer exists. */
  ghost predicate Servable(free: set<int>, sub: SubRequest, hy: Hierarchy)
    requires KnownSub(hy, sub)
  {
    (forall i :: 0 <= i < |sub.levels| ==> sub.levels[i].1 > 0) && exists r :: Serves(free, sub, hy, r)
  }

  /** The pairs are read into two lists, one of levels and one of counts, in the same order. */
  lemma PairsRead(sub: SubRequest, hy: Hierarchy, k: nat)
    requires KnownSub(hy, sub) && k < |sub.levels|
    ensures |LevelsOf(hy, sub)| == |CountsOf(sub)| == |sub.levels|
    ensures LevelsOf(hy, sub)[k] == hy[sub.levels[k].0] && CountsOf(sub)[k] == sub.levels[k].1
  {
  }

  lemma {:induction false} PartServesIff(free: set<int>, sub: SubRequest, hy: Hierarchy, h: nat, block: Block, i: nat,
                                         s: set<int>)
    requires KnownSub(hy, sub) && h + 1 < |sub.levels| && |LevelsOf(hy, sub)| == |CountsOf(sub)| == |sub.levels|
    ensures PartServes(free, sub.levels, hy, h + 1, block, i, s)
       <==> PartChoice(free, LevelsOf(hy, sub), CountsOf(sub), block, h, i, s)
    decreases |sub.levels| - h, 0
  {
    hide LevelsOf, CountsOf, BlockServes, BlockChoice;
    PairsRead(sub, hy, h + 1);
    if h + 2 < |sub.levels| && i < |hy[sub.levels[h+1].0]| {
      BlockServesIff(free, sub, hy, h + 1, hy[sub.levels[h+1].0][i], s);
    }
  }

  lemma {:induction false} BlockServesIff(free: set<int>, sub: SubRequest, hy: Hierarchy, h: nat, block: Block,
                                          r: set<int>)
    requires KnownSub(hy, sub) && h + 1 < |sub.levels| && |LevelsOf(hy, sub)| == |CountsOf(sub)| == |sub.levels|
    ensures BlockServes(free, sub.levels, hy, h + 1, block, r)
       <==> BlockChoice(free, LevelsOf(hy, sub), CountsOf(sub), block, h, r)
    decreases |sub.levels| - h, 1
  {
    hide LevelsOf, CountsOf, PartServes, PartChoice, UnionOf;
    PairsRead(sub, hy, h + 1);
    var (levels, counts) := (LevelsOf(hy, sub), CountsOf(sub));
    forall i: nat, s
      ensures PartServes(free, sub.levels, hy, h + 1, block, i, s) <==> PartChoice(free, levels, counts, block, h, i, s)
    {
      PartServesIff(free, sub, hy, h, block, i, s);
    }
    if BlockChoice(free, levels, counts, block, h, r) {
      var picked := BlockParts(free, levels, counts, block, h, r);
      assert forall i :: i in picked ==> PartServes(free, sub.levels, hy, h + 1, block, i, picked[i]);
    }
    if BlockServes(free, sub.levels, hy, h + 1, block, r) {
      var picked: map<nat, set<int>> :|
        && |picked| == sub.levels[h+1].1 && r == UnionOf(picked)
        && forall i :: i in picked ==> PartServes(free, sub.levels, hy, h + 1, block, i, picked[i]);
      PartsInside(free, sub, hy, h, block, picked);
      assert Picks(levels[h+1], counts[h+1], picked);
    }
  }

  lemma PartsInside(free: set<int>, sub: SubRequest, hy: Hierarchy, h: nat, block: Block, picked: map<nat, set<int>>)
    requires KnownSub(hy, sub) && h + 1 < |sub.levels|
    requires forall i :: i in picked ==> PartServes(free, sub.levels, hy, h + 1, block, i, picked[i])
    ensures forall i :: i in picked ==> i < |hy[sub.levels[h+1].0]|
  {
    hide BlockServes;
  }

  /** What is asked for, pair by pair, is what the search over the two lists looks for. */
  lemma ServesIff(free: set<int>, sub: SubRequest, hy: Hierarchy, r: set<int>)
    requires KnownSub(hy, sub)
    ensures 1 <= |LevelsOf(hy, sub)| == |CountsOf(sub)|
    ensures Serves(free, sub, hy, r) <==> Answers(sub.allowed * free, LevelsOf(hy, sub), CountsOf(sub), r)
  {
    hide BlockServes, BlockChoice, UnionOf, LevelsOf, CountsOf;
    PairsRead(sub, hy, 0);
    var (f, levels, counts) := (sub.allowed * free, LevelsOf(hy, sub), CountsOf(sub));
    if |sub.levels| > 1 {
      forall i, s | 0 <= i < |levels[0]|
        ensures
          BlockServes(f, sub.levels, hy, 1, levels[0][i], s) <==> BlockChoice(f, levels, counts, levels[0][i], 0, s)
      {
        BlockServesIff(f, sub, hy, 0, levels[0][i], s);
      }
    }
    if Serves(free, sub, hy, r) {
      var picked: map<nat, set<int>> :|
        && |picked| == sub.levels[0].1 && r == UnionOf(picked)
        && forall i :: i in picked ==> TopServes(f, sub.levels, hy, i, picked[i]);
      assert Picks(levels[0], counts[0], picked);
    }
    if Answers(f, levels, counts, r) {
      var picked := AnswerParts(f, levels, counts, r);
      assert forall i :: i in picked ==> TopServes(f, sub.levels, hy, i, picked[i]);
    }
  }

  lemma AnswerParts(free: set<int>, hy: seq<Level>, counts: seq<int>, r: set<int>) returns (picked: map<nat, set<int>>)
    requires 1 <= |hy| == |counts| && Answers(free, hy, counts, r)
    ensures Picks(hy[0], counts[0], picked) && r == UnionOf(picked)
    ensures forall i :: i in picked ==>
              if |hy| == 1 then picked[i] == hy[0][i] <= free
              else BlockChoice(free, hy, counts, hy[0][i], 0, picked[i])
  {
    hide BlockChoice, UnionOf;
    if |hy| == 1 {
      picked :|
        && Picks(hy[0], counts[0], picked)
        && (forall i :: i in picked ==> picked[i] == hy[0][i] <= free)
        && r == UnionOf(picked);
    } else {
      picked :|
        && Picks(hy[0], counts[0], picked)
        && (forall i :: i in picked ==> BlockChoice(free, hy, counts, hy[0][i], 0, picked[i]))
        && r == UnionOf(picked);
    }
  }

  ghost predicate SolidBlocks(hy: Hierarchy, sub: SubRequest)
    requires KnownSub(hy, sub)
  {
    |sub.levels| == 1 ==> NonEmptyBlocks(hy[sub.levels[0].0])
  }

  lemma FindSubExact(free: set<int>, sub: SubRequest, hy: Hierarchy)
    requires KnownSub(hy, sub) && SolidBlocks(hy, sub)
    ensures FindSub(free, sub, hy) != {} <==> Servable(free, sub, hy)
    ensures FindSub(free, sub, hy) != {} ==> Serves(free, sub, hy, FindSub(free, sub, hy))
  {
    hide Serves, Answers, Scattered;
    ScatteredExact(sub.allowed * free, LevelsOf(hy, sub), CountsOf(sub));
    forall k | 0 <= k < |sub.levels| ensures CountsOf(sub)[k] == sub.levels[k].1 {
      PairsRead(sub, hy, k);
    }
    if Servable(free, sub, hy) {
      var r :| Serves(free, sub, hy, r);
      ServesIff(free, sub, hy, r);
    }
    if FindSub(free, sub, hy) != {} {
      ServesIff(free, sub, hy, FindSub(free, sub, hy));
    }
  }

  /** A variant is served exactly when it has sub-requests and each one, taken on its own,
      has positive counts and some valid choice among its allowed free resources, read pair by
      pair; the result is then made of one valid choice per sub-request and nothing else. */
  lemma FindExact(free: set<int>, rq: Request, hy: Hierarchy)
    requires Known(hy, rq)
    requires forall k :: 0 <= k < |rq| ==> SolidBlocks(hy, rq[k])
    ensures Find(free, rq, hy) != {} <==> |rq| > 0 && forall k :: 0 <= k < |rq| ==> Servable(free, rq[k], hy)
    ensures Find(free, rq, hy) != {} ==>
      forall k :: 0 <= k < |rq| ==> Serves(free, rq[k], hy, FindSub(free, rq[k], hy))
    ensures forall x :: x in Find(free, rq, hy) <==>
      Find(free, rq, hy) != {} && exists k :: 0 <= k < |rq| && x in FindSub(free, rq[k], hy)
  {
    FindFromExact(free, rq, hy, 0);
    forall k | 0 <= k < |rq|
      ensures FindSub(free, rq[k], hy) != {} <==> Servable(free, rq[k], hy)
      ensures FindSub(free, rq[k], hy) != {} ==> Serves(free, rq[k], hy, FindSub(free, rq[k], hy))
    {
      FindSubExact(free, rq[k], hy);
    }
    if |rq| > 0 && FindFrom(free, rq, hy, 0).0 {
      assert FindSub(free, rq[0], hy) <= FindFrom(free, rq, hy, 0).1;
    }
  }
}
