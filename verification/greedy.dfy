/** Which of the valid choices the search over a hierarchy makes: at every level the first blocks
    that can serve what is asked for below.
 */
module Greedy {
  import opened Hierarchies

  /** Block `i` of the level below `h` can serve what is asked for inside `block`. */
  ghost predicate Good(free: set<int>, hy: seq<Level>, counts: seq<int>, block: Block, h: nat, i: nat)
    requires h + 2 <= |hy| == |counts|
  {
    exists s :: PartChoice(free, hy, counts, block, h, i, s)
  }

  /** `s` is the first choice inside block `i` of the level below `h`. */
  ghost predicate FirstPart(free: set<int>, hy: seq<Level>, counts: seq<int>, block: Block, h: nat, i: nat, s: set<int>)
    requires h + 2 <= |hy| == |counts|
    decreases |hy| - h, 0
  {
    && i < |hy[h+1]|
    && if h == |hy| - 2 then s == block * hy[h+1][i] else FirstBlock(free, hy, counts, hy[h+1][i], h + 1, s)
  }

  /** `picked` are the first choices in all blocks up to `m` of the level below `h` that can
      serve, and they are as many as asked for. */
  ghost predicate Leading(free: set<int>, hy: seq<Level>, counts: seq<int>, block: Block, h: nat,
                          picked: map<nat, set<int>>, m: nat)
    requires h + 2 <= |hy| == |counts|
    decreases |hy| - h, 1
  {
    && |picked| == counts[h+1]
    && (forall i: nat :: i in picked <==> i < m && Good(free, hy, counts, block, h, i))
    && (forall i :: i in picked ==> FirstPart(free, hy, counts, block, h, i, picked[i]))
  }

  /** `r` is the first choice inside a block of level `h`. */
  ghost predicate FirstBlock(free: set<int>, hy: seq<Level>, counts: seq<int>, block: Block, h: nat, r: set<int>)
    requires h + 2 <= |hy| == |counts|
    decreases |hy| - h, 2
  {
    exists picked: map<nat, set<int>>, m: nat ::
      Leading(free, hy, counts, block, h, picked, m) && r == UnionOf(picked)
  }

  /** `picked` are the first blocks up to `m` of the top level that can serve, with the first
      choices inside them. */
  ghost predicate LeadingTop(free: set<int>, hy: seq<Level>, counts: seq<int>, picked: map<nat, set<int>>, m: nat)
    requires 1 <= |hy| == |counts|
  {
    && |picked| == counts[0] && m <= |hy[0]|
    && (forall i :: i in picked <==> 0 <= i < m && TopGood(free, hy, counts, i))
    && (forall i :: i in picked ==>
          if |hy| == 1 then picked[i] == hy[0][i] else FirstBlock(free, hy, counts, hy[0][i], 0, picked[i]))
  }

  /** Block `i` of the top level can serve what is asked for. */
  ghost predicate TopGood(free: set<int>, hy: seq<Level>, counts: seq<int>, i: nat)
    requires 1 <= |hy| == |counts| && i < |hy[0]|
  {
    if |hy| == 1 then hy[0][i] <= free else exists s :: BlockChoice(free, hy, counts, hy[0][i], 0, s)
  }

  /** The position of the level up to which the first `m` selected blocks reach. */
  lemma ReachOf(some: Level, idx: seq<nat>, all: Level, m: nat) returns (reach: nat)
    requires Selection(some, idx, all) && m <= |idx|
    ensures reach <= |all| && forall k :: 0 <= k < |idx| ==> (idx[k] < reach <==> k < m)
  {
    reach := if m == |idx| then |all| else idx[m];
  }

  lemma GoodAtBottom(free: set<int>, hy: seq<Level>, counts: seq<int>, block: Block, i: nat)
    requires 2 <= |hy| == |counts|
    ensures Good(free, hy, counts, block, |hy| - 2, i)
       <==> i < |hy[|hy|-1]| && {} != block * hy[|hy|-1][i] <= free
  {
    if i < |hy[|hy|-1]| && {} != block * hy[|hy|-1][i] <= free {
      assert PartChoice(free, hy, counts, block, |hy| - 2, i, block * hy[|hy|-1][i]);
    }
  }

  lemma GoodInside(free: set<int>, hy: seq<Level>, counts: seq<int>, block: Block, h: nat, i: nat)
    requires h + 3 <= |hy| == |counts| && Positive(counts)
    ensures Good(free, hy, counts, block, h, i)
       <==> i < |hy[h+1]| && hy[h+1][i] <= block && Offer(free, hy, counts, hy[h+1][i], h + 1) != {}
  {
    hide Offer, BlockChoice, Positive;
    if i < |hy[h+1]| {
      var b := hy[h+1][i];
      var offer := Offer(free, hy, counts, b, h + 1);
      if offer != {} && b <= block {
        OfferSound(free, hy, counts, b, h + 1);
        assert PartChoice(free, hy, counts, block, h, i, offer);
      }
      if Good(free, hy, counts, block, h, i) {
        var s :| PartChoice(free, hy, counts, block, h, i, s);
        OfferComplete(free, hy, counts, b, h + 1, s);
      }
    }
  }

  lemma FirstAtBottom(free: set<int>, hy: seq<Level>, counts: seq<int>, block: Block)
    requires 2 <= |hy| == |counts| && counts[|hy|-1] > 0 && Offer(free, hy, counts, block, |hy| - 2) != {}
    ensures FirstBlock(free, hy, counts, block, |hy| - 2, Offer(free, hy, counts, block, |hy| - 2))
  {
    hide UnionOf, SubBlocks, Renumbered, Good;
    var n, some := |hy| - 1, SubBlocks(block, hy[|hy|-1]);
    var idx := SubBlocksExactly(block, hy[n]);
    assert some[0..] == some;
    var picked, m := TakeWholePicks(free, some, 0, counts[n]);
    var all := Renumber(picked, idx);
    RenumberedUnion(picked, idx, all);
    NumbersIn(picked, idx, all);
    var reach := ReachOf(some, idx, hy[n], m);
    forall i: nat ensures i in all <==> i < reach && Good(free, hy, counts, block, n - 1, i) {
      GoodAtBottom(free, hy, counts, block, i);
      if i in all {
        var k := NumberOf(picked, idx, all, i);
        assert i in idx;
      } else if i in idx {
        var k := NumberIn(idx, i);
        assert k !in picked;
      }
    }
    forall i | i in all ensures FirstPart(free, hy, counts, block, n - 1, i, all[i]) {
      var k := NumberOf(picked, idx, all, i);
    }
    assert Leading(free, hy, counts, block, n - 1, all, reach);
  }

  lemma {:induction false} OfferIsFirst(free: set<int>, hy: seq<Level>, counts: seq<int>, block: Block, h: nat)
    requires h + 2 <= |hy| == |counts| && Positive(counts) && Offer(free, hy, counts, block, h) != {}
    ensures FirstBlock(free, hy, counts, block, h, Offer(free, hy, counts, block, h))
    decreases |hy| - h
  {
    if h == |hy| - 2 {
      FirstAtBottom(free, hy, counts, block);
    } else {
      hide UnionOf, Children, Renumbered, Good, FirstBlock, Search, Collect, BlockChoice;
      var some, n := Children(block, hy[h+1]), counts[h+1];
      var idx := ChildrenExactly(block, hy[h+1]);
      SearchIsCollect(free, hy, counts, some, h + 1);
      assert some[0..] == some;
      var picked, m := CollectPicks(free, hy, counts, some, h + 1, 0, n);
      FirstInside(free, hy, counts, block, h, some, idx, picked, m);
    }
  }

  lemma FirstInside(free: set<int>, hy: seq<Level>, counts: seq<int>, block: Block, h: nat, some: Level, idx: seq<nat>,
                    picked: map<nat, set<int>>, m: nat)
    requires h + 3 <= |hy| == |counts| && Positive(counts) && Selection(some, idx, hy[h+1]) && m <= |some|
    requires forall k :: 0 <= k < |idx| ==> some[k] == hy[h+1][idx[k]]
    requires forall i :: i in idx <==> 0 <= i < |hy[h+1]| && hy[h+1][i] <= block
    requires |picked| == counts[h+1]
    requires forall k :: k in picked <==> 0 <= k < m && Offer(free, hy, counts, some[k], h + 1) != {}
    requires forall k :: k in picked ==> picked[k] == Offer(free, hy, counts, some[k], h + 1)
    ensures FirstBlock(free, hy, counts, block, h, UnionOf(picked))
    decreases |hy| - h, 0
  {
    hide UnionOf, Renumbered, Good, Offer;
    var all := Renumber(picked, idx);
    RenumberedUnion(picked, idx, all);
    NumbersIn(picked, idx, all);
    var reach := ReachOf(some, idx, hy[h+1], m);
    forall i: nat ensures i in all <==> i < reach && Good(free, hy, counts, block, h, i) {
      GoodInside(free, hy, counts, block, h, i);
      if i in all {
        var k := NumberOf(picked, idx, all, i);
        assert i in idx;
      } else if i in idx {
        var k := NumberIn(idx, i);
        assert k !in picked;
      }
    }
    forall i | i in all ensures FirstPart(free, hy, counts, block, h, i, all[i]) {
      var k := NumberOf(picked, idx, all, i);
      OfferIsFirst(free, hy, counts, some[k], h + 1);
    }
    assert Leading(free, hy, counts, block, h, all, reach);
  }

  /** A successful search takes, at the top level and inside each block taken, the first blocks
      that can serve: no earlier block is passed over and none is taken beyond what is needed. */
  lemma ScatteredIsFirst(free: set<int>, hy: seq<Level>, counts: seq<int>)
    requires 1 <= |hy| == |counts| && Scattered(free, hy, counts) != {}
    ensures exists picked: map<nat, set<int>>, m: nat ::
              LeadingTop(free, hy, counts, picked, m) && Scattered(free, hy, counts) == UnionOf(picked)
  {
    hide UnionOf, BlockChoice, Search, Offer, FirstBlock;
    if |hy| == 1 {
      ExtractSound(free, hy[0], counts[0]);
      assert hy[0][0..] == hy[0];
      var picked, m := TakeWholePicks(free, hy[0], 0, counts[0]);
      assert LeadingTop(free, hy, counts, picked, m);
    } else {
      SearchSound(free, hy, counts, hy[0], 0);
      assert counts[0..] == counts;
      SearchIsCollect(free, hy, counts, hy[0], 0);
      assert hy[0][0..] == hy[0];
      var picked, m := CollectPicks(free, hy, counts, hy[0], 0, 0, counts[0]);
      forall i | 0 <= i < m ensures TopGood(free, hy, counts, i) <==> Offer(free, hy, counts, hy[0][i], 0) != {} {
        TopGoodIsOffer(free, hy, counts, i);
      }
      forall i | i in picked ensures FirstBlock(free, hy, counts, hy[0][i], 0, picked[i]) {
        OfferIsFirst(free, hy, counts, hy[0][i], 0);
      }
      assert LeadingTop(free, hy, counts, picked, m);
    }
  }

  lemma TopGoodIsOffer(free: set<int>, hy: seq<Level>, counts: seq<int>, i: nat)
    requires 2 <= |hy| == |counts| && i < |hy[0]| && Positive(counts)
    ensures TopGood(free, hy, counts, i) <==> Offer(free, hy, counts, hy[0][i], 0) != {}
  {
    hide BlockChoice, Offer;
    if Offer(free, hy, counts, hy[0][i], 0) != {} {
      OfferSound(free, hy, counts, hy[0][i], 0);
    }
    if s :| BlockChoice(free, hy, counts, hy[0][i], 0, s) {
      OfferComplete(free, hy, counts, hy[0][i], 0, s);
    }
  }
}
