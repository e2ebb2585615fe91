/** Resource choice over nested resource sets (oar/lib/hierarchy.py).

    A hierarchy is a sequence of levels and a level is a sequence of blocks of resource
    ids. A request asks, level by level, for a number of blocks inside each block chosen
    one level up. The program picks blocks greedily; this module proves that being
    greedy loses nothing, and that more free resources never turn a success into a
    failure.
 */
module Hierarchies {

  type Block = set<int>
  type Level = seq<Block>

  // ---------------------------------------------------------------- the greedy search

  /** The blocks of a level that have at least one free resource. */
  function KeepNonEmpty(free: set<int>, blocks: Level): Level {
    if blocks == [] then []
    else (if blocks[0] * free != {} then [blocks[0]] else []) + KeepNonEmpty(free, blocks[1..])
  }

  /** What is left of the blocks of `sub` inside `block`, without the empty remainders. */
  function SubBlocks(block: Block, sub: Level): Level {
    if sub == [] then []
    else (if block * sub[0] != {} then [block * sub[0]] else []) + SubBlocks(block, sub[1..])
  }

  /** The blocks of `sub` that lie inside `block`. */
  function Children(block: Block, sub: Level): Level {
    if sub == [] then []
    else (if sub[0] <= block then [sub[0]] else []) + Children(block, sub[1..])
  }

  /** Takes the first entirely free blocks until `n` are taken: their union, and how many
      are still missing. */
  function TakeWhole(free: set<int>, blocks: Level, n: int): (set<int>, int)
  {
    if n <= 0 || blocks == [] then ({}, n)
    else if blocks[0] <= free then
      var (taken, missing) := TakeWhole(free, blocks[1..], n - 1);
      (blocks[0] + taken, missing)
    else TakeWhole(free, blocks[1..], n)
  }

  function Extract(free: set<int>, blocks: Level, n: int): set<int> {
    var (taken, missing) := TakeWhole(free, blocks, n);
    if missing == 0 then taken else {}
  }

  /** What one block chosen at level `h` can offer to the levels below. */
  function Offer(free: set<int>, hy: seq<Level>, counts: seq<int>, block: Block, h: nat): set<int>
    requires h + 2 <= |hy| == |counts|
    decreases |hy| - h, 0
  {
    if h == |hy| - 2 then Extract(free, SubBlocks(block, hy[h+1]), counts[h+1])
    else Search(free, hy, counts, Children(block, hy[h+1]), h + 1)
  }

  /** Collects the offers of `blocks` in order until `n` of them are not empty. */
  function Collect(free: set<int>, hy: seq<Level>, counts: seq<int>, blocks: Level, h: nat, n: int): (set<int>, int)
    requires h + 2 <= |hy| == |counts|
    decreases |hy| - h, 1, |blocks|
  {
    if n == 0 || blocks == [] then ({}, n)
    else
      var offer := Offer(free, hy, counts, blocks[0], h);
      if offer != {} then
        var (taken, missing) := Collect(free, hy, counts, blocks[1..], h, n - 1);
        (offer + taken, missing)
      else Collect(free, hy, counts, blocks[1..], h, n)
  }

  function Search(free: set<int>, hy: seq<Level>, counts: seq<int>, top: Level, h: nat): set<int>
    requires h + 2 <= |hy| == |counts|
    decreases |hy| - h, 2
  {
    var blocks := KeepNonEmpty(free, top);
    if |blocks| < counts[h] then {}
    else
      var (taken, missing) := Collect(free, hy, counts, blocks, h, counts[h]);
      if missing == 0 then taken else {}
  }

  /** The dispatch between the one-level and the many-level search. */
  function Scattered(free: set<int>, hy: seq<Level>, counts: seq<int>): set<int>
    requires 1 <= |hy| == |counts|
  {
    if |hy| == 1 then Extract(free, hy[0], counts[0]) else Search(free, hy, counts, hy[0], 0)
  }

  // -------------------------------------------------------------- the loops themselves

  method KeepNoEmptyScatBks(free: set<int>, blocks: Level) returns (kept: Level)
    ensures kept == KeepNonEmpty(free, blocks)
  {
    var i := 0;
    kept := [];
    while i < |blocks|
      invariant 0 <= i <= |blocks|
      invariant kept + KeepNonEmpty(free, blocks[i..]) == KeepNonEmpty(free, blocks)
    {
      assert blocks[i..][1..] == blocks[i+1..];
      if blocks[i] * free != {} {
        kept := kept + [blocks[i]];
      }
      i := i + 1;
    }
  }

  method ExtractNScatteredBlockItv(free: set<int>, blocks: Level, n: int) returns (r: set<int>)
    ensures r == Extract(free, blocks, n)
  {
    var i, todo := 0, n;
    r := {};
    while todo > 0 && i < |blocks|
      invariant 0 <= i <= |blocks|
      invariant TakeWhole(free, blocks, n).0 == r + TakeWhole(free, blocks[i..], todo).0
      invariant TakeWhole(free, blocks, n).1 == TakeWhole(free, blocks[i..], todo).1
    {
      assert blocks[i..][1..] == blocks[i+1..];
      var y := free * blocks[i];
      if blocks[i] == y {
        r := r + y;
        todo := todo - 1;
      }
      i := i + 1;
    }
    if todo != 0 {
      r := {};
    }
  }

  method FindResourceNH(free: set<int>, hy: seq<Level>, counts: seq<int>, top: Level, h: nat)
    returns (r: set<int>)
    requires h + 2 <= |hy| == |counts|
    ensures r == Search(free, hy, counts, top, h)
    decreases |hy| - h, 1
  {
    hide *;
    var blocks := KeepNoEmptyScatBks(free, top);
    SearchUnfold(free, hy, counts, top, h);
    if |blocks| < counts[h] {
      return {};
    }
    ghost var all := Collect(free, hy, counts, blocks, h, counts[h]);
    ghost var rest := all;
    var i, found := 0, 0;
    r := {};
    assert blocks[0..] == blocks;
    NothingJoined(all);
    while i < |blocks| && found != counts[h]
      invariant 0 <= i <= |blocks|
      invariant rest == Collect(free, hy, counts, blocks[i..], h, counts[h] - found)
      invariant Joined(r, rest, all)
    {
      var offer := FindInBlock(free, hy, counts, blocks[i], h);
      ghost var middle := rest;
      rest := CollectStep(free, hy, counts, blocks, h, i, counts[h] - found);
      JoinedStep(r, offer, rest, middle, all);
      if |offer| != 0 {
        r := r + offer;
        found := found + 1;
      }
      i := i + 1;
    }
    CollectEnds(free, hy, counts, blocks[i..], h, counts[h] - found);
    AllJoined(r, rest, all);
    if found != counts[h] {
      r := {};
    }
  }

  method FindInBlock(free: set<int>, hy: seq<Level>, counts: seq<int>, block: Block, h: nat) returns (offer: set<int>)
    requires h + 2 <= |hy| == |counts|
    ensures offer == Offer(free, hy, counts, block, h)
    decreases |hy| - h, 0
  {
    if h == |hy| - 2 {
      offer := ExtractNScatteredBlockItv(free, SubBlocks(block, hy[h+1]), counts[h+1]);
    } else {
      offer := FindResourceNH(free, hy, counts, Children(block, hy[h+1]), h + 1);
    }
  }

  /** Joining `r` to what the rest collects gives `all`. */
  ghost predicate Joined(r: set<int>, rest: (set<int>, int), all: (set<int>, int)) {
    all.0 == r + rest.0 && all.1 == rest.1
  }

  lemma JoinedStep(r: set<int>, offer: set<int>, rest: (set<int>, int), middle: (set<int>, int), all: (set<int>, int))
    requires Joined(offer, rest, middle) && Joined(r, middle, all)
    ensures Joined(r + offer, rest, all)
    ensures offer == {} ==> Joined(r, rest, all)
  {
  }

  lemma SearchUnfold(free: set<int>, hy: seq<Level>, counts: seq<int>, top: Level, h: nat)
    requires h + 2 <= |hy| == |counts|
    ensures var blocks := KeepNonEmpty(free, top);
            var all := Collect(free, hy, counts, blocks, h, counts[h]);
            Search(free, hy, counts, top, h) == if |blocks| >= counts[h] && all.1 == 0 then all.0 else {}
  {
  }

  lemma NothingJoined(all: (set<int>, int))
    ensures Joined({}, all, all)
  {
  }

  lemma AllJoined(r: set<int>, rest: (set<int>, int), all: (set<int>, int))
    requires Joined(r, rest, all) && rest.0 == {}
    ensures all == (r, rest.1)
  {
    assert r + rest.0 == r;
  }

  lemma CollectEnds(free: set<int>, hy: seq<Level>, counts: seq<int>, blocks: Level, h: nat, n: int)
    requires h + 2 <= |hy| == |counts|
    ensures n == 0 || blocks == [] ==> Collect(free, hy, counts, blocks, h, n) == ({}, n)
  {
  }

  lemma CollectStep(free: set<int>, hy: seq<Level>, counts: seq<int>, blocks: Level, h: nat, i: nat, n: int)
    returns (rest: (set<int>, int))
    requires h + 2 <= |hy| == |counts|
    requires i < |blocks| && n != 0
    ensures var n' := if Offer(free, hy, counts, blocks[i], h) != {} then n - 1 else n;
            rest == Collect(free, hy, counts, blocks[i+1..], h, n')
    ensures Joined(Offer(free, hy, counts, blocks[i], h), rest, Collect(free, hy, counts, blocks[i..], h, n))
  {
    assert blocks[i..][1..] == blocks[i+1..];
    var n' := if Offer(free, hy, counts, blocks[i], h) != {} then n - 1 else n;
    rest := Collect(free, hy, counts, blocks[i+1..], h, n');
  }

  // ------------------------------------------------------- what a valid choice would be

  /** `picked` numbers `n` blocks of `blocks` and says what is taken from each. */
  ghost predicate Picks(blocks: Level, n: int, picked: map<nat, set<int>>)
  {
    |picked| == n && forall i :: i in picked ==> i < |blocks|
  }

  ghost function UnionOf(picked: map<nat, set<int>>): set<int> {
    set i, x | i in picked && x in picked[i] :: x
  }

  /** `r` consists of `n` whole blocks of `blocks`, all of them free. */
  ghost predicate WholeChoice(free: set<int>, blocks: Level, n: int, r: set<int>)
  {
    exists picked: map<nat, set<int>> ::
      && Picks(blocks, n, picked)
      && (forall i :: i in picked ==> picked[i] == blocks[i] <= free)
      && r == UnionOf(picked)
  }

  /** `s` is a valid part from block `i` of the level below `h`, inside `block`: at the bottom all
      of the block that is inside, if that is something and free; above, a valid answer in a
      block that lies inside. */
  ghost predicate PartChoice(free: set<int>, hy: seq<Level>, counts: seq<int>, block: Block, h: nat, i: nat,
                             s: set<int>)
    requires h + 2 <= |hy| == |counts|
    decreases |hy| - h, 0
  {
    && i < |hy[h+1]|
    && if h == |hy| - 2 then {} != block * hy[h+1][i] == s <= free
       else hy[h+1][i] <= block && BlockChoice(free, hy, counts, hy[h+1][i], h + 1, s)
  }

  /** `r` is a valid answer for what is requested inside one block of level `h`: as many parts
      from different blocks of the level below as are asked for. */
  ghost predicate BlockChoice(free: set<int>, hy: seq<Level>, counts: seq<int>, block: Block, h: nat, r: set<int>)
    requires h + 2 <= |hy| == |counts|
    decreases |hy| - h, 1
  {
    exists picked: map<nat, set<int>> ::
      && Picks(hy[h+1], counts[h+1], picked)
      && (forall i :: i in picked ==> PartChoice(free, hy, counts, block, h, i, picked[i]))
      && r == UnionOf(picked)
  }

  /** `r` consists of `counts[h]` valid answers in as many different blocks of `top`. */
  ghost predicate Choice(free: set<int>, hy: seq<Level>, counts: seq<int>, top: Level, h: nat, r: set<int>)
    requires h + 2 <= |hy| == |counts|
  {
    exists picked: map<nat, set<int>> ::
      && Picks(top, counts[h], picked)
      && (forall i :: i in picked ==> BlockChoice(free, hy, counts, top[i], h, picked[i]))
      && r == UnionOf(picked)
  }

  /** `r` is a valid answer to the whole request. */
  ghost predicate Answers(free: set<int>, hy: seq<Level>, counts: seq<int>, r: set<int>)
    requires 1 <= |hy| == |counts|
  {
    if |hy| == 1 then WholeChoice(free, hy[0], counts[0], r) else Choice(free, hy, counts, hy[0], 0, r)
  }

  ghost predicate Positive(counts: seq<int>) {
    forall i :: 0 <= i < |counts| ==> counts[i] > 0
  }

  ghost predicate NonEmptyBlocks(blocks: Level) {
    forall i :: 0 <= i < |blocks| ==> blocks[i] != {}
  }

  // ------------------------------------------------ offers lie in their block, and free

  lemma TakeWholeInside(free: set<int>, blocks: Level, n: int, bound: set<int>)
    requires forall i :: 0 <= i < |blocks| ==> blocks[i] <= bound
    ensures TakeWhole(free, blocks, n).0 <= free * bound
  {
  }

  lemma SubBlocksInside(block: Block, sub: Level)
    ensures forall i :: 0 <= i < |SubBlocks(block, sub)| ==> {} != SubBlocks(block, sub)[i] <= block
  {
  }

  lemma ChildrenInside(block: Block, sub: Level)
    ensures forall i :: 0 <= i < |Children(block, sub)| ==> Children(block, sub)[i] <= block
  {
  }

  lemma KeepInside(free: set<int>, blocks: Level, bound: set<int>)
    requires forall i :: 0 <= i < |blocks| ==> blocks[i] <= bound
    ensures forall i :: 0 <= i < |KeepNonEmpty(free, blocks)| ==> KeepNonEmpty(free, blocks)[i] <= bound
  {
  }

  lemma {:induction false} OfferInside(free: set<int>, hy: seq<Level>, counts: seq<int>, block: Block, h: nat)
    requires h + 2 <= |hy| == |counts|
    ensures Offer(free, hy, counts, block, h) <= free * block
    decreases |hy| - h, 0
  {
    if h == |hy| - 2 {
      SubBlocksInside(block, hy[h+1]);
      TakeWholeInside(free, SubBlocks(block, hy[h+1]), counts[h+1], block);
    } else {
      var top := Children(block, hy[h+1]);
      ChildrenInside(block, hy[h+1]);
      KeepInside(free, top, block);
      CollectInside(free, hy, counts, KeepNonEmpty(free, top), h + 1, counts[h+1], block);
    }
  }

  lemma {:induction false} CollectInside(free: set<int>, hy: seq<Level>, counts: seq<int>, blocks: Level, h: nat,
                                         n: int, bound: set<int>)
    requires h + 2 <= |hy| == |counts|
    requires forall i :: 0 <= i < |blocks| ==> blocks[i] <= bound
    ensures Collect(free, hy, counts, blocks, h, n).0 <= free * bound
    decreases |hy| - h, 1, |blocks|
  {
    if n != 0 && blocks != [] {
      OfferInside(free, hy, counts, blocks[0], h);
      CollectInside(free, hy, counts, blocks[1..], h, n - 1, bound);
      CollectInside(free, hy, counts, blocks[1..], h, n, bound);
    }
  }

  /** Dropping the blocks without a free resource changes nothing. */
  lemma {:induction false} CollectIgnoresEmpty(free: set<int>, hy: seq<Level>, counts: seq<int>, blocks: Level,
                                               h: nat, n: int)
    requires h + 2 <= |hy| == |counts|
    ensures Collect(free, hy, counts, KeepNonEmpty(free, blocks), h, n) == Collect(free, hy, counts, blocks, h, n)
    decreases |blocks|
  {
    if blocks != [] {
      var kept := KeepNonEmpty(free, blocks[1..]);
      OfferInside(free, hy, counts, blocks[0], h);
      CollectIgnoresEmpty(free, hy, counts, blocks[1..], h, n);
      CollectIgnoresEmpty(free, hy, counts, blocks[1..], h, n - 1);
      if blocks[0] * free != {} {
        assert ([blocks[0]] + kept)[1..] == kept;
      } else {
        assert [] + kept == kept;
      }
    }
  }

  lemma {:induction false} CollectCounts(free: set<int>, hy: seq<Level>, counts: seq<int>, blocks: Level, h: nat,
                                         n: int)
    requires h + 2 <= |hy| == |counts|
    ensures n > |blocks| || n < 0 ==> Collect(free, hy, counts, blocks, h, n).1 != 0
    ensures n > 0 && Collect(free, hy, counts, blocks, h, n).1 == 0 ==> Collect(free, hy, counts, blocks, h, n).0 != {}
    decreases |blocks|
  {
    if n != 0 && blocks != [] {
      CollectCounts(free, hy, counts, blocks[1..], h, n);
      CollectCounts(free, hy, counts, blocks[1..], h, n - 1);
    }
  }

  /** The search is the collection over the unfiltered level: neither the filter nor the
      early return for too few blocks matters. */
  lemma SearchIsCollect(free: set<int>, hy: seq<Level>, counts: seq<int>, top: Level, h: nat)
    requires h + 2 <= |hy| == |counts|
    ensures var (taken, missing) := Collect(free, hy, counts, top, h, counts[h]);
            Search(free, hy, counts, top, h) == if missing == 0 then taken else {}
  {
    CollectIgnoresEmpty(free, hy, counts, top, h, counts[h]);
    CollectCounts(free, hy, counts, KeepNonEmpty(free, top), h, counts[h]);
  }

  // ----------------------------------------------------------------------- monotonicity

  lemma {:induction false} TakeWholeMonotone(free: set<int>, more: set<int>, blocks: Level, n: int, m: int)
    requires free <= more && m <= n
    ensures TakeWhole(free, blocks, n).1 == 0 && m >= 0 ==> TakeWhole(more, blocks, m).1 == 0
    ensures Extract(free, blocks, n) != {} ==> Extract(more, blocks, n) != {}
    decreases |blocks|
  {
    if n > 0 && blocks != [] {
      TakeWholeMonotone(free, more, blocks[1..], n - 1, m - 1);
      TakeWholeMonotone(free, more, blocks[1..], n, m);
      TakeWholeMonotone(free, more, blocks[1..], n, n - 1);
      TakeWholeMonotone(free, more, blocks[1..], n, m - 1);
      TakeWholeMonotone(free, more, blocks[1..], n - 1, n - 1);
    }
  }

  lemma {:induction false} OfferMonotone(free: set<int>, more: set<int>, hy: seq<Level>, counts: seq<int>,
                                         block: Block, h: nat)
    requires h + 2 <= |hy| == |counts| && free <= more
    ensures Offer(free, hy, counts, block, h) != {} ==> Offer(more, hy, counts, block, h) != {}
    decreases |hy| - h, 0
  {
    if h == |hy| - 2 {
      TakeWholeMonotone(free, more, SubBlocks(block, hy[h+1]), counts[h+1], counts[h+1]);
    } else {
      SearchMonotone(free, more, hy, counts, Children(block, hy[h+1]), h + 1);
    }
  }

  lemma {:induction false} CollectMonotone(free: set<int>, more: set<int>, hy: seq<Level>, counts: seq<int>,
                                           blocks: Level, h: nat, n: int, m: int)
    requires h + 2 <= |hy| == |counts| && free <= more && 0 <= m <= n
    ensures Collect(free, hy, counts, blocks, h, n).1 == 0 ==> Collect(more, hy, counts, blocks, h, m).1 == 0
    decreases |hy| - h, 1, |blocks|
  {
    if m != 0 && blocks != [] {
      OfferMonotone(free, more, hy, counts, blocks[0], h);
      CollectMonotone(free, more, hy, counts, blocks[1..], h, n - 1, m - 1);
      CollectMonotone(free, more, hy, counts, blocks[1..], h, n, m);
      CollectMonotone(free, more, hy, counts, blocks[1..], h, n, m - 1);
    }
  }

  lemma {:induction false} SearchMonotone(free: set<int>, more: set<int>, hy: seq<Level>, counts: seq<int>,
                                          top: Level, h: nat)
    requires h + 2 <= |hy| == |counts| && free <= more
    ensures Search(free, hy, counts, top, h) != {} ==> Search(more, hy, counts, top, h) != {}
    decreases |hy| - h, 2
  {
    SearchIsCollect(free, hy, counts, top, h);
    SearchIsCollect(more, hy, counts, top, h);
    var n := counts[h];
    CollectCounts(free, hy, counts, top, h, n);
    CollectCounts(more, hy, counts, top, h, n);
    if n >= 0 {
      CollectMonotone(free, more, hy, counts, top, h, n, n);
    }
  }

  /** More free resources never make a satisfiable request fail. */
  lemma ScatteredMonotone(free: set<int>, more: set<int>, hy: seq<Level>, counts: seq<int>)
    requires 1 <= |hy| == |counts| && free <= more
    ensures Scattered(free, hy, counts) != {} ==> Scattered(more, hy, counts) != {}
  {
    if |hy| == 1 {
      TakeWholeMonotone(free, more, hy[0], counts[0], counts[0]);
    } else {
      SearchMonotone(free, more, hy, counts, hy[0], 0);
    }
  }

  lemma ScatteredInside(free: set<int>, hy: seq<Level>, counts: seq<int>)
    requires 1 <= |hy| == |counts|
    ensures Scattered(free, hy, counts) <= free
  {
    var bound := set i, x | 0 <= i < |hy[0]| && x in hy[0][i] :: x;
    forall i, x | 0 <= i < |hy[0]| && x in hy[0][i] ensures x in bound {
    }
    if |hy| == 1 {
      TakeWholeInside(free, hy[0], counts[0], bound);
    } else {
      CollectInside(free, hy, counts, hy[0], 0, counts[0], bound);
      SearchIsCollect(free, hy, counts, hy[0], 0);
    }
  }

  // ------------------------------------------------ which blocks of a level are selected

  /** `idx` lists, in order, positions of `all`, and `some` the blocks made of those. */
  ghost predicate Selection(some: Level, idx: seq<nat>, all: Level) {
    && |idx| == |some|
    && (forall k :: 0 <= k < |idx| ==> idx[k] < |all|)
    && Rising(idx)
  }

  /** One more block in front: it is selected or not. */
  lemma SelectionCons(take: bool, b: Block, some: Level, rest: seq<nat>, all: Level) returns (idx: seq<nat>)
    requires all != [] && Selection(some, rest, all[1..])
    ensures Selection((if take then [b] else []) + some, idx, all)
    ensures forall i :: i in idx <==> (i == 0 && take) || (i > 0 && i - 1 in rest)
    ensures take ==> idx[0] == 0
    ensures forall k :: 0 <= k < |rest| ==> idx[k + if take then 1 else 0] == rest[k] + 1
  {
    var later := seq(|rest|, k requires 0 <= k < |rest| => rest[k] + 1);
    idx := (if take then [0] else []) + later;
    forall i ensures i in later <==> i > 0 && i - 1 in rest {
      if i > 0 && i - 1 in rest {
        var k :| 0 <= k < |rest| && rest[k] == i - 1;
        assert later[k] == i;
      }
    }
  }

  /** The blocks kept are exactly those that share a resource with the free ones, in order. */
  lemma {:induction false} KeepsExactly(free: set<int>, blocks: Level) returns (idx: seq<nat>)
    ensures Selection(KeepNonEmpty(free, blocks), idx, blocks)
    ensures forall k :: 0 <= k < |idx| ==> KeepNonEmpty(free, blocks)[k] == blocks[idx[k]]
    ensures forall i :: i in idx <==> 0 <= i < |blocks| && blocks[i] * free != {}
  {
    hide Selection;
    if blocks == [] {
      idx := [];
      NothingSelected(blocks);
    } else {
      var rest := KeepsExactly(free, blocks[1..]);
      var some := KeepNonEmpty(free, blocks[1..]);
      idx := SelectionCons(blocks[0] * free != {}, blocks[0], some, rest, blocks);
      SelectionLength(KeepNonEmpty(free, blocks), idx, blocks);
      SelectionLength(some, rest, blocks[1..]);
    }
  }

  lemma NothingSelected(all: Level)
    ensures Selection([], [], all)
  {
  }

  lemma SelectionLength(some: Level, idx: seq<nat>, all: Level)
    requires Selection(some, idx, all)
    ensures |idx| == |some| && forall k :: 0 <= k < |idx| ==> idx[k] < |all|
  {
  }

  /** The blocks below an inner block are exactly those that lie inside it, in order. */
  lemma {:induction false} ChildrenExactly(block: Block, sub: Level) returns (idx: seq<nat>)
    ensures Selection(Children(block, sub), idx, sub)
    ensures forall k :: 0 <= k < |idx| ==> Children(block, sub)[k] == sub[idx[k]]
    ensures forall i :: i in idx <==> 0 <= i < |sub| && sub[i] <= block
  {
    hide Selection;
    if sub == [] {
      idx := [];
      NothingSelected(sub);
    } else {
      var some := Children(block, sub[1..]);
      var rest := ChildrenExactly(block, sub[1..]);
      idx := SelectionCons(sub[0] <= block, sub[0], some, rest, sub);
      SelectionLength(Children(block, sub), idx, sub);
      SelectionLength(some, rest, sub[1..]);
    }
  }

  /** At the bottom exactly the blocks that meet the chosen one are left, cut to it, in order. */
  lemma {:induction false} SubBlocksExactly(block: Block, sub: Level) returns (idx: seq<nat>)
    ensures Selection(SubBlocks(block, sub), idx, sub)
    ensures forall k :: 0 <= k < |idx| ==> SubBlocks(block, sub)[k] == block * sub[idx[k]]
    ensures forall i :: i in idx <==> 0 <= i < |sub| && block * sub[i] != {}
  {
    hide Selection;
    if sub == [] {
      idx := [];
      NothingSelected(sub);
    } else {
      var some := SubBlocks(block, sub[1..]);
      var rest := SubBlocksExactly(block, sub[1..]);
      idx := SelectionCons(block * sub[0] != {}, block * sub[0], some, rest, sub);
      SelectionLength(SubBlocks(block, sub), idx, sub);
      SelectionLength(some, rest, sub[1..]);
    }
  }

  ghost predicate Rising(idx: seq<nat>) {
    forall k, l :: 0 <= k < l < |idx| ==> idx[k] < idx[l]
  }

  /** Parts numbered by the selected blocks, and by the blocks of the whole level. */
  ghost predicate Renumbered(picked: map<nat, set<int>>, idx: seq<nat>, all: map<nat, set<int>>) {
    && (forall k :: k in picked ==> k < |idx| && idx[k] in all && all[idx[k]] == picked[k])
    && (forall i :: i in all ==> exists k :: k in picked && idx[k] == i)
  }

  lemma RenumberedUnion(picked: map<nat, set<int>>, idx: seq<nat>, all: map<nat, set<int>>)
    requires Renumbered(picked, idx, all)
    ensures UnionOf(all) == UnionOf(picked)
  {
    forall x | x in UnionOf(all) ensures x in UnionOf(picked) {
      var i :| i in all && x in all[i];
      var k :| k in picked && idx[k] == i;
      assert x in picked[k];
    }
    forall x | x in UnionOf(picked) ensures x in UnionOf(all) {
      var k :| k in picked && x in picked[k];
      assert x in all[idx[k]];
    }
  }

  /** The positions that a set of numbers stands for. */
  ghost function Image(ks: set<nat>, idx: seq<nat>): set<nat>
    requires forall k :: k in ks ==> k < |idx|
  {
    set k | k in ks :: idx[k]
  }

  lemma {:induction false} ImageSize(ks: set<nat>, idx: seq<nat>)
    requires (forall k :: k in ks ==> k < |idx|) && Rising(idx)
    ensures |Image(ks, idx)| == |ks|
    decreases |ks|
  {
    if k :| k in ks {
      ImageSize(ks - {k}, idx);
      assert Image(ks, idx) == Image(ks - {k}, idx) + {idx[k]};
      assert idx[k] !in Image(ks - {k}, idx);
    }
  }

  lemma NumberedSize(picked: map<nat, set<int>>, idx: seq<nat>, all: map<nat, set<int>>)
    requires Renumbered(picked, idx, all) && Rising(idx)
    ensures |all| == |picked|
  {
    ImageSize(picked.Keys, idx);
    assert all.Keys == Image(picked.Keys, idx);
  }

  ghost function NumberIn(idx: seq<nat>, i: nat): (k: nat)
    requires i in idx
    ensures k < |idx| && idx[k] == i
  {
    var k :| 0 <= k < |idx| && idx[k] == i;
    k
  }

  lemma Renumber(picked: map<nat, set<int>>, idx: seq<nat>) returns (all: map<nat, set<int>>)
    requires (forall k :: k in picked ==> k < |idx|) && Rising(idx)
    ensures Renumbered(picked, idx, all) && |all| == |picked|
  {
    all := map i | i in Image(picked.Keys, idx) :: picked[OneOf(picked, idx, i)];
    forall k | k in picked ensures idx[k] in all && all[idx[k]] == picked[k] {
      assert idx[k] in Image(picked.Keys, idx);
      assert OneOf(picked, idx, idx[k]) == k;
    }
    forall i | i in all ensures exists k :: k in picked && idx[k] == i {
      assert OneOf(picked, idx, i) in picked;
    }
    NumberedSize(picked, idx, all);
  }

  ghost function OneOf(picked: map<nat, set<int>>, idx: seq<nat>, i: nat): (k: nat)
    requires (forall k :: k in picked ==> k < |idx|) && i in Image(picked.Keys, idx)
    ensures k in picked && idx[k] == i
  {
    var k :| k in picked && idx[k] == i;
    k
  }

  lemma NumberBack(all: map<nat, set<int>>, idx: seq<nat>) returns (picked: map<nat, set<int>>)
    requires (forall i :: i in all ==> i in idx) && Rising(idx)
    ensures Renumbered(picked, idx, all) && |picked| == |all|
  {
    picked := map k: nat | k < |idx| && idx[k] in all :: all[idx[k]];
    forall i | i in all ensures exists k :: k in picked && idx[k] == i {
      var k := NumberIn(idx, i);
      assert k in picked;
    }
    NumberedSize(picked, idx, all);
  }

  /** At the bottom: whole remainders are parts of the level. */
  lemma BottomChoice(free: set<int>, hy: seq<Level>, counts: seq<int>, block: Block, r: set<int>)
    requires 2 <= |hy| == |counts|
    requires WholeChoice(free, SubBlocks(block, hy[|hy|-1]), counts[|hy|-1], r)
    ensures BlockChoice(free, hy, counts, block, |hy| - 2, r)
  {
    hide UnionOf, SubBlocks, Renumbered;
    var n, some := |hy| - 1, SubBlocks(block, hy[|hy|-1]);
    var idx := SubBlocksExactly(block, hy[n]);
    var picked: map<nat, set<int>> :|
      && Picks(some, counts[n], picked)
      && (forall i :: i in picked ==> picked[i] == some[i] <= free)
      && r == UnionOf(picked);
    var all := Renumber(picked, idx);
    RenumberedUnion(picked, idx, all);
    forall i | i in all ensures PartChoice(free, hy, counts, block, n - 1, i, all[i]) {
      var k := NumberOf(picked, idx, all, i);
      assert i in idx;
    }
    assert Picks(hy[n], counts[n], all);
  }

  lemma NumberOf(picked: map<nat, set<int>>, idx: seq<nat>, all: map<nat, set<int>>, i: nat) returns (k: nat)
    requires Renumbered(picked, idx, all) && i in all
    ensures k in picked && k < |idx| && idx[k] == i && all[i] == picked[k]
  {
    k :| k in picked && idx[k] == i;
  }

  lemma NumbersIn(picked: map<nat, set<int>>, idx: seq<nat>, all: map<nat, set<int>>)
    requires Renumbered(picked, idx, all)
    ensures forall k :: k in picked ==> k < |idx| && idx[k] in all && all[idx[k]] == picked[k]
  {
  }

  lemma BottomPart(free: set<int>, hy: seq<Level>, counts: seq<int>, block: Block, i: nat, s: set<int>)
    requires 2 <= |hy| == |counts| && PartChoice(free, hy, counts, block, |hy| - 2, i, s)
    ensures i < |hy[|hy|-1]| && {} != block * hy[|hy|-1][i] == s <= free
  {
  }

  lemma BlockParts(free: set<int>, hy: seq<Level>, counts: seq<int>, block: Block, h: nat, r: set<int>)
    returns (all: map<nat, set<int>>)
    requires h + 2 <= |hy| == |counts| && BlockChoice(free, hy, counts, block, h, r)
    ensures Picks(hy[h+1], counts[h+1], all) && r == UnionOf(all)
    ensures forall i :: i in all ==> PartChoice(free, hy, counts, block, h, i, all[i])
  {
    hide UnionOf, PartChoice;
    all :|
      && Picks(hy[h+1], counts[h+1], all)
      && (forall i :: i in all ==> PartChoice(free, hy, counts, block, h, i, all[i]))
      && r == UnionOf(all);
  }

  lemma ChoiceAtBottom(free: set<int>, hy: seq<Level>, counts: seq<int>, block: Block, r: set<int>)
    requires 2 <= |hy| == |counts| && BlockChoice(free, hy, counts, block, |hy| - 2, r)
    ensures WholeChoice(free, SubBlocks(block, hy[|hy|-1]), counts[|hy|-1], r)
  {
    hide UnionOf, SubBlocks, Renumbered, BlockChoice, PartChoice;
    var n, some := |hy| - 1, SubBlocks(block, hy[|hy|-1]);
    var idx := SubBlocksExactly(block, hy[n]);
    var all := BlockParts(free, hy, counts, block, n - 1, r);
    forall i | i in all ensures i in idx && all[i] == block * hy[n][i] <= free {
      BottomPart(free, hy, counts, block, i, all[i]);
    }
    var picked := NumberBack(all, idx);
    RenumberedUnion(picked, idx, all);
    NumbersIn(picked, idx, all);
    forall k | k in picked ensures picked[k] == some[k] <= free {
      assert idx[k] in all;
    }
    assert Picks(some, counts[n], picked);
  }

  /** Above: answers in the blocks inside are parts of the level. */
  lemma InnerChoice(free: set<int>, hy: seq<Level>, counts: seq<int>, block: Block, h: nat, r: set<int>)
    requires h + 3 <= |hy| == |counts| && Choice(free, hy, counts, Children(block, hy[h+1]), h + 1, r)
    ensures BlockChoice(free, hy, counts, block, h, r)
  {
    hide UnionOf, Children, Renumbered;
    var some := Children(block, hy[h+1]);
    var idx := ChildrenExactly(block, hy[h+1]);
    var picked: map<nat, set<int>> :|
      && Picks(some, counts[h+1], picked)
      && (forall i :: i in picked ==> BlockChoice(free, hy, counts, some[i], h + 1, picked[i]))
      && r == UnionOf(picked);
    var all := Renumber(picked, idx);
    RenumberedUnion(picked, idx, all);
    forall i | i in all ensures PartChoice(free, hy, counts, block, h, i, all[i]) {
      var k := NumberOf(picked, idx, all, i);
      assert i in idx && BlockChoice(free, hy, counts, some[k], h + 1, picked[k]);
    }
    assert Picks(hy[h+1], counts[h+1], all);
  }

  lemma ChoiceInside(free: set<int>, hy: seq<Level>, counts: seq<int>, block: Block, h: nat, r: set<int>)
    requires h + 3 <= |hy| == |counts| && BlockChoice(free, hy, counts, block, h, r)
    ensures Choice(free, hy, counts, Children(block, hy[h+1]), h + 1, r)
  {
    hide UnionOf, Children, Renumbered;
    var some := Children(block, hy[h+1]);
    var idx := ChildrenExactly(block, hy[h+1]);
    var all := BlockParts(free, hy, counts, block, h, r);
    forall i | i in all ensures i in idx {
      assert PartChoice(free, hy, counts, block, h, i, all[i]);
    }
    var picked := NumberBack(all, idx);
    RenumberedUnion(picked, idx, all);
    NumbersIn(picked, idx, all);
    forall k | k in picked ensures BlockChoice(free, hy, counts, some[k], h + 1, picked[k]) {
      assert PartChoice(free, hy, counts, block, h, idx[k], all[idx[k]]);
    }
    assert Picks(some, counts[h+1], picked);
  }

  // ------------------------------------------- soundness: the answer is a valid choice

  /** What is taken are the entirely free blocks up to some position, and nothing else. */
  lemma {:induction false} TakeWholePicks(free: set<int>, blocks: Level, i: nat, n: nat)
    returns (picked: map<nat, set<int>>, m: nat)
    requires i <= |blocks|
    requires TakeWhole(free, blocks[i..], n).1 == 0
    ensures |picked| == n && UnionOf(picked) == TakeWhole(free, blocks[i..], n).0
    ensures i <= m <= |blocks| && forall k :: k in picked <==> i <= k < m && blocks[k] <= free
    ensures forall k :: k in picked ==> picked[k] == blocks[k]
    decreases |blocks| - i
  {
    if n == 0 || i == |blocks| {
      picked, m := map[], i;
    } else {
      assert blocks[i..][1..] == blocks[i+1..];
      if blocks[i] <= free {
        var rest;
        rest, m := TakeWholePicks(free, blocks, i + 1, n - 1);
        picked := rest[i := blocks[i]];
        UnionOfInsert(rest, i, blocks[i]);
      } else {
        picked, m := TakeWholePicks(free, blocks, i + 1, n);
      }
    }
  }

  lemma UnionOfInsert(rest: map<nat, set<int>>, i: nat, s: set<int>)
    requires i !in rest
    ensures UnionOf(rest[i := s]) == s + UnionOf(rest)
    ensures |rest[i := s]| == |rest| + 1
  {
    var all := rest[i := s];
    forall x | x in s + UnionOf(rest) ensures x in UnionOf(all) {
      if x in s {
        assert x in all[i];
      } else {
        var k :| k in rest && x in rest[k];
        assert x in all[k];
      }
    }
  }

  lemma ExtractSound(free: set<int>, blocks: Level, n: int)
    requires Extract(free, blocks, n) != {}
    ensures n > 0 && WholeChoice(free, blocks, n, Extract(free, blocks, n))
  {
    if n > 0 {
      assert blocks[0..] == blocks;
      var picked, m := TakeWholePicks(free, blocks, 0, n);
      assert Picks(blocks, n, picked);
    }
  }

  lemma {:induction false} OfferSound(free: set<int>, hy: seq<Level>, counts: seq<int>, block: Block, h: nat)
    requires h + 2 <= |hy| == |counts|
    requires Offer(free, hy, counts, block, h) != {}
    ensures BlockChoice(free, hy, counts, block, h, Offer(free, hy, counts, block, h))
    ensures Positive(counts[h+1..])
    decreases |hy| - h, 0
  {
    hide BlockChoice, Choice, WholeChoice, Search, Extract, SubBlocks, Children;
    if h == |hy| - 2 {
      ExtractSound(free, SubBlocks(block, hy[h+1]), counts[h+1]);
      BottomChoice(free, hy, counts, block, Offer(free, hy, counts, block, h));
    } else {
      SearchSound(free, hy, counts, Children(block, hy[h+1]), h + 1);
      InnerChoice(free, hy, counts, block, h, Offer(free, hy, counts, block, h));
    }
  }

  /** What is collected are the offers that are not empty up to some position. */
  lemma {:induction false} CollectPicks(free: set<int>, hy: seq<Level>, counts: seq<int>, top: Level, h: nat, i: nat,
                                        n: nat)
    returns (picked: map<nat, set<int>>, m: nat)
    requires h + 2 <= |hy| == |counts| && i <= |top|
    requires Collect(free, hy, counts, top[i..], h, n).1 == 0
    ensures |picked| == n && UnionOf(picked) == Collect(free, hy, counts, top[i..], h, n).0
    ensures i <= m <= |top| && forall k :: k in picked <==> i <= k < m && Offer(free, hy, counts, top[k], h) != {}
    ensures forall k :: k in picked ==> picked[k] == Offer(free, hy, counts, top[k], h)
    ensures forall k :: k in picked ==> BlockChoice(free, hy, counts, top[k], h, picked[k])
    ensures n > 0 ==> Positive(counts[h+1..])
    decreases |hy| - h, 1, |top| - i
  {
    hide Offer, Search, BlockChoice, Positive;
    if n == 0 || i == |top| {
      picked, m := map[], i;
    } else {
      assert top[i..][1..] == top[i+1..];
      var offer := Offer(free, hy, counts, top[i], h);
      if offer != {} {
        OfferSound(free, hy, counts, top[i], h);
        var rest;
        rest, m := CollectPicks(free, hy, counts, top, h, i + 1, n - 1);
        picked := rest[i := offer];
        UnionOfInsert(rest, i, offer);
      } else {
        picked, m := CollectPicks(free, hy, counts, top, h, i + 1, n);
      }
    }
  }

  lemma ChoiceOf(free: set<int>, hy: seq<Level>, counts: seq<int>, top: Level, h: nat, picked: map<nat, set<int>>)
    requires h + 2 <= |hy| == |counts| && |picked| == counts[h]
    requires forall i :: i in picked ==> i < |top| && BlockChoice(free, hy, counts, top[i], h, picked[i])
    ensures Choice(free, hy, counts, top, h, UnionOf(picked))
  {
    hide BlockChoice, UnionOf;
    assert Picks(top, counts[h], picked);
  }

  lemma {:induction false} SearchSound(free: set<int>, hy: seq<Level>, counts: seq<int>, top: Level, h: nat)
    requires h + 2 <= |hy| == |counts|
    requires Search(free, hy, counts, top, h) != {}
    ensures Choice(free, hy, counts, top, h, Search(free, hy, counts, top, h))
    ensures Positive(counts[h..])
    decreases |hy| - h, 2
  {
    hide BlockChoice, Search, UnionOf, Choice, Offer;
    SearchIsCollect(free, hy, counts, top, h);
    CollectCounts(free, hy, counts, top, h, counts[h]);
    assert top[0..] == top;
    var picked, m := CollectPicks(free, hy, counts, top, h, 0, counts[h]);
    ChoiceOf(free, hy, counts, top, h, picked);
    assert counts[h..] == [counts[h]] + counts[h+1..];
  }

  // --------------------------------------- completeness: greedy misses no valid choice

  lemma {:induction false} TakeWholeReaches(free: set<int>, blocks: Level, i: nat, n: nat, whole: set<nat>)
    requires i <= |blocks|
    requires whole == set k: nat | i <= k < |blocks| && blocks[k] <= free
    requires n <= |whole|
    ensures TakeWhole(free, blocks[i..], n).1 == 0
    decreases |blocks| - i
  {
    if n > 0 && i < |blocks| {
      assert blocks[i..][1..] == blocks[i+1..];
      var rest := set k: nat | i + 1 <= k < |blocks| && blocks[k] <= free;
      if blocks[i] <= free {
        assert whole == rest + {i};
        TakeWholeReaches(free, blocks, i + 1, n - 1, rest);
      } else {
        assert whole == rest;
        TakeWholeReaches(free, blocks, i + 1, n, rest);
      }
    }
  }

  lemma SubsetSize(a: set<nat>, b: set<nat>)
    requires a <= b
    ensures |a| <= |b|
  {
    if a != {} {
      var x :| x in a;
      SubsetSize(a - {x}, b - {x});
    }
  }

  lemma {:induction false} TakeWholeNonEmpty(free: set<int>, blocks: Level, n: int)
    requires NonEmptyBlocks(blocks) && n > 0
    ensures TakeWhole(free, blocks, n).1 == 0 ==> TakeWhole(free, blocks, n).0 != {}
    decreases |blocks|
  {
    if blocks != [] {
      TakeWholeNonEmpty(free, blocks[1..], n);
    }
  }

  lemma ExtractComplete(free: set<int>, blocks: Level, n: int, r: set<int>)
    requires NonEmptyBlocks(blocks) && n > 0
    requires WholeChoice(free, blocks, n, r)
    ensures Extract(free, blocks, n) != {}
  {
    var picked: map<nat, set<int>> :|
      && Picks(blocks, n, picked)
      && (forall i :: i in picked ==> picked[i] == blocks[i] <= free)
      && r == UnionOf(picked);
    var whole := set k: nat | 0 <= k < |blocks| && blocks[k] <= free;
    SubsetSize(picked.Keys, whole);
    assert blocks[0..] == blocks;
    TakeWholeReaches(free, blocks, 0, n, whole);
    TakeWholeNonEmpty(free, blocks, n);
  }

  lemma {:induction false} CollectReaches(free: set<int>, hy: seq<Level>, counts: seq<int>, top: Level, h: nat,
                                          i: nat, n: nat, good: set<nat>)
    requires h + 2 <= |hy| == |counts| && i <= |top|
    requires good == set k: nat | i <= k < |top| && Offer(free, hy, counts, top[k], h) != {}
    requires n <= |good|
    ensures Collect(free, hy, counts, top[i..], h, n).1 == 0
    decreases |top| - i
  {
    hide Offer, Search;
    if n > 0 && i < |top| {
      assert top[i..][1..] == top[i+1..];
      var rest := set k: nat | i + 1 <= k < |top| && Offer(free, hy, counts, top[k], h) != {};
      if Offer(free, hy, counts, top[i], h) != {} {
        assert good == rest + {i};
        CollectReaches(free, hy, counts, top, h, i + 1, n - 1, rest);
      } else {
        assert good == rest;
        CollectReaches(free, hy, counts, top, h, i + 1, n, rest);
      }
    }
  }

  lemma {:induction false} OfferComplete(free: set<int>, hy: seq<Level>, counts: seq<int>, block: Block, h: nat,
                                         r: set<int>)
    requires h + 2 <= |hy| == |counts| && Positive(counts)
    requires BlockChoice(free, hy, counts, block, h, r)
    ensures Offer(free, hy, counts, block, h) != {}
    decreases |hy| - h, 0
  {
    if h == |hy| - 2 {
      ChoiceAtBottom(free, hy, counts, block, r);
      SubBlocksInside(block, hy[h+1]);
      ExtractComplete(free, SubBlocks(block, hy[h+1]), counts[h+1], r);
    } else {
      ChoiceInside(free, hy, counts, block, h, r);
      SearchComplete(free, hy, counts, Children(block, hy[h+1]), h + 1, r);
    }
  }

  lemma {:induction false} SearchComplete(free: set<int>, hy: seq<Level>, counts: seq<int>, top: Level, h: nat,
                                          r: set<int>)
    requires h + 2 <= |hy| == |counts| && Positive(counts)
    requires Choice(free, hy, counts, top, h, r)
    ensures Search(free, hy, counts, top, h) != {}
    decreases |hy| - h, 1
  {
    hide BlockChoice, Offer, UnionOf, Collect, Search;
    var picked: map<nat, set<int>> :|
      && Picks(top, counts[h], picked)
      && (forall i :: i in picked ==> BlockChoice(free, hy, counts, top[i], h, picked[i]))
      && r == UnionOf(picked);
    var good := set k: nat | 0 <= k < |top| && Offer(free, hy, counts, top[k], h) != {};
    forall i | i in picked ensures i in good {
      OfferComplete(free, hy, counts, top[i], h, picked[i]);
    }
    SubsetSize(picked.Keys, good);
    assert top[0..] == top;
    CollectReaches(free, hy, counts, top, h, 0, counts[h], good);
    CollectCounts(free, hy, counts, top, h, counts[h]);
    SearchIsCollect(free, hy, counts, top, h);
  }

  /** The greedy search answers a request exactly when every count is positive and some
      valid choice exists at every level, and then its answer is such a choice. */
  lemma ScatteredExact(free: set<int>, hy: seq<Level>, counts: seq<int>)
    requires 1 <= |hy| == |counts|
    requires |hy| == 1 ==> NonEmptyBlocks(hy[0])
    ensures Scattered(free, hy, counts) != {} <==> Positive(counts) && exists r :: Answers(free, hy, counts, r)
    ensures Scattered(free, hy, counts) != {} ==> Answers(free, hy, counts, Scattered(free, hy, counts))
  {
    if Scattered(free, hy, counts) != {} {
      if |hy| == 1 {
        ExtractSound(free, hy[0], counts[0]);
      } else {
        SearchSound(free, hy, counts, hy[0], 0);
        assert counts[0..] == counts;
      }
      assert Answers(free, hy, counts, Scattered(free, hy, counts));
    }
    if Positive(counts) && exists r :: Answers(free, hy, counts, r) {
      var r :| Answers(free, hy, counts, r);
      if |hy| == 1 {
        ExtractComplete(free, hy[0], counts[0], r);
      } else {
        SearchComplete(free, hy, counts, hy[0], 0, r);
      }
    }
  }

  // ------------------------------------------------------------------------ exact size

  ghost predicate Disjoint(blocks: Level) {
    forall i, j :: 0 <= i < j < |blocks| ==> blocks[i] !! blocks[j]
  }

  ghost predicate Singletons(blocks: Level) {
    forall i :: 0 <= i < |blocks| ==> |blocks[i]| == 1
  }

  ghost function Product(counts: seq<int>): int {
    if counts == [] then 1 else counts[0] * Product(counts[1..])
  }

  lemma {:induction false} UnionOfSize(picked: map<nat, set<int>>, m: int)
    requires forall k :: k in picked ==> |picked[k]| == m
    requires forall k, l :: k in picked && l in picked && k != l ==> picked[k] !! picked[l]
    ensures |UnionOf(picked)| == |picked| * m
    decreases |picked|
  {
    if |picked| == 0 {
      assert UnionOf(picked) == {} && 0 * m == 0;
    } else {
      var k :| k in picked;
      var rest := map l | l in picked && l != k :: picked[l];
      assert picked == rest[k := picked[k]];
      UnionOfInsert(rest, k, picked[k]);
      UnionOfSize(rest, m);
      forall x | x in UnionOf(rest) ensures x !in picked[k] {
        var l :| l in rest && x in rest[l];
        assert picked[k] !! picked[l];
      }
      assert UnionOf(picked) == picked[k] + UnionOf(rest) && |picked| == |rest| + 1;
      SumSize(picked[k], UnionOf(rest), |rest|, m);
    }
  }

  lemma SumSize(a: set<int>, b: set<int>, n: int, m: int)
    requires a !! b && |a| == m && |b| == n * m
    ensures |a + b| == (n + 1) * m
  {
  }

  lemma DisjointCons(block: Block, blocks: Level)
    requires Disjoint(blocks) && forall b :: b in blocks ==> block !! b
    ensures Disjoint([block] + blocks)
  {
    var all := [block] + blocks;
    forall i, j | 0 <= i < j < |all| ensures all[i] !! all[j] {
      assert all[j] == blocks[j-1] && blocks[j-1] in blocks;
      assert i > 0 ==> all[i] == blocks[i-1];
    }
  }

  lemma {:induction false} ChildrenDisjoint(block: Block, sub: Level)
    requires Disjoint(sub)
    ensures Disjoint(Children(block, sub))
    ensures forall b :: b in Children(block, sub) ==> b in sub
  {
    if sub != [] {
      var rest := Children(block, sub[1..]);
      ChildrenDisjoint(block, sub[1..]);
      assert forall b :: b in rest ==> b in sub[1..] && sub[0] !! b;
      DisjointCons(sub[0], rest);
      assert [] + rest == rest;
    }
  }

  lemma DisjointTail(blocks: Level)
    requires Disjoint(blocks) && blocks != []
    ensures Disjoint(blocks[1..]) && forall c :: c in blocks[1..] ==> blocks[0] !! c
  {
  }

  lemma {:induction false} SubBlocksDisjoint(block: Block, sub: Level)
    requires Disjoint(sub)
    ensures Disjoint(SubBlocks(block, sub))
    ensures forall b :: b in SubBlocks(block, sub) ==> exists c :: c in sub && b <= c
  {
    hide Disjoint;
    if sub != [] {
      var rest := SubBlocks(block, sub[1..]);
      DisjointTail(sub);
      SubBlocksDisjoint(block, sub[1..]);
      forall b | b in rest ensures block * sub[0] !! b && exists c :: c in sub && b <= c {
        var c :| c in sub[1..] && b <= c;
        assert c in sub && sub[0] !! c;
      }
      DisjointCons(block * sub[0], rest);
      assert [] + rest == rest;
      assert sub[0] in sub && block * sub[0] <= sub[0];
    }
  }

  lemma SubsetOfSingleton(b: set<int>, x: set<int>)
    requires |b| == 1 && x <= b && x != {}
    ensures |x| == 1
  {
    assert |b - x| + |x| == |b| by {
      assert b == (b - x) + x;
    }
  }

  lemma {:induction false} SubBlocksSingletons(block: Block, sub: Level)
    requires Singletons(sub)
    ensures Singletons(SubBlocks(block, sub))
  {
    if sub != [] {
      SubBlocksSingletons(block, sub[1..]);
      if block * sub[0] != {} {
        SubsetOfSingleton(sub[0], block * sub[0]);
      }
    }
  }

  lemma WholeChoiceSize(free: set<int>, blocks: Level, n: int, r: set<int>)
    requires Disjoint(blocks) && Singletons(blocks)
    requires WholeChoice(free, blocks, n, r)
    ensures |r| == n
  {
    var picked: map<nat, set<int>> :|
      && Picks(blocks, n, picked)
      && (forall i :: i in picked ==> picked[i] == blocks[i] <= free)
      && r == UnionOf(picked);
    UnionOfSize(picked, 1);
  }

  lemma {:induction false} BlockChoiceSize(free: set<int>, hy: seq<Level>, counts: seq<int>, block: Block, h: nat,
                                           r: set<int>)
    requires h + 2 <= |hy| == |counts|
    requires (forall k :: 0 <= k < |hy| ==> Disjoint(hy[k])) && Singletons(hy[|hy|-1])
    requires BlockChoice(free, hy, counts, block, h, r)
    ensures |r| == Product(counts[h+1..]) && r <= block
    decreases |hy| - h, 0
  {
    if h == |hy| - 2 {
      ChoiceAtBottom(free, hy, counts, block, r);
      SubBlocksInside(block, hy[h+1]);
      SubBlocksDisjoint(block, hy[h+1]);
      SubBlocksSingletons(block, hy[h+1]);
      WholeChoiceSize(free, SubBlocks(block, hy[h+1]), counts[h+1], r);
      assert counts[h+1..] == [counts[h+1]];
      assert Product(counts[h+1..][1..]) == 1;
    } else {
      ChoiceInside(free, hy, counts, block, h, r);
      ChildrenInside(block, hy[h+1]);
      ChildrenDisjoint(block, hy[h+1]);
      ChoiceSize(free, hy, counts, Children(block, hy[h+1]), h + 1, r);
    }
  }

  lemma {:induction false} ChoiceSize(free: set<int>, hy: seq<Level>, counts: seq<int>, top: Level, h: nat, r: set<int>)
    requires h + 2 <= |hy| == |counts|
    requires (forall k :: 0 <= k < |hy| ==> Disjoint(hy[k])) && Singletons(hy[|hy|-1]) && Disjoint(top)
    requires Choice(free, hy, counts, top, h, r)
    ensures |r| == Product(counts[h..])
    ensures forall x :: x in r ==> exists i :: 0 <= i < |top| && x in top[i]
    decreases |hy| - h, 1
  {
    var picked: map<nat, set<int>> :|
      && Picks(top, counts[h], picked)
      && (forall i :: i in picked ==> BlockChoice(free, hy, counts, top[i], h, picked[i]))
      && r == UnionOf(picked);
    forall i | i in picked ensures |picked[i]| == Product(counts[h+1..]) && picked[i] <= top[i] {
      BlockChoiceSize(free, hy, counts, top[i], h, picked[i]);
    }
    UnionOfSize(picked, Product(counts[h+1..]));
    assert counts[h..][1..] == counts[h+1..];
  }

  /** With pairwise disjoint blocks at each level and single resources at the bottom, a
      successful search returns exactly the number of resources asked for. */
  lemma ScatteredSize(free: set<int>, hy: seq<Level>, counts: seq<int>)
    requires 1 <= |hy| == |counts|
    requires (forall k :: 0 <= k < |hy| ==> Disjoint(hy[k])) && Singletons(hy[|hy|-1])
    requires Scattered(free, hy, counts) != {}
    ensures |Scattered(free, hy, counts)| == Product(counts)
  {
    ScatteredExact(free, hy, counts);
    if |hy| == 1 {
      WholeChoiceSize(free, hy[0], counts[0], Scattered(free, hy, counts));
      assert Product(counts[1..]) == 1;
    } else {
      ChoiceSize(free, hy, counts, hy[0], 0, Scattered(free, hy, counts));
      assert counts[0..] == counts;
    }
  }
}
