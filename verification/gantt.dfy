/** The list of slots of a slot set as a value, and the effect of placing a job in it
    (split_slots in oar/kao/slot.py). The linked list itself is in slots.dfy.
 */
module Gantt {
  import opened Options
  import opened QuotaRules
  import opened Sharing

  /** One slot: free resources, quota counters and sharing tables from time `b` to time `e` inclusive.
      A slot with b == e + 1 covers no instant. */
  datatype Cell = Cell(id: int, b: int, e: int, free: set<int>, counters: Counters, rulesId: int,
                       tables: Tables)

  /** A job with resources and a start time, as far as the slots are concerned. */
  datatype Task = Task(start: int, walltime: int, res: set<int>, sharer: Option<Sharer>, placeholder: Placeholder,
                       account: Account)
  {
    function Last(): int {
      start + walltime - 1
    }

    predicate Covers(t: int) {
      start <= t <= Last()
    }

    predicate IsContainer() {
      "container" in account.types
    }
  }

  // --------------------------------------------------------------- one slot is cut

  /** The counters of a slot once the job is counted in. */
  function Counted(c: Counters, task: Task, policy: Policy): Counters {
    if policy.enabled && !task.IsContainer() then
      Updated(c, task.account, policy.jobTypes, |task.res * policy.countable|, task.walltime)
    else c
  }

  /** The free resources, counters and tables of a slot during the job: taken when `sub` holds,
      given back otherwise. */
  function Changed(c: Cell, task: Task, sub: bool, policy: Policy): Cell {
    var tables := Entered(c.tables, task.sharer, task.placeholder, task.res, sub);
    if sub then c.(free := c.free - task.res, counters := Counted(c.counters, task, policy), tables := tables)
    else if Plain(task) then c.(free := c.free + task.res, tables := tables)
    else c.(tables := tables)
  }

  /** The job neither shares its resources nor has to do with placeholders. */
  predicate Plain(task: Task) {
    task.sharer.None? && task.placeholder == NoPlaceholder
  }

  function During(c: Cell, task: Task, sub: bool, policy: Policy): Cell {
    Changed(c, task, sub, policy).(b := Max(c.b, task.start), e := Min(c.e, task.Last()))
  }

  /** The one to three slots that replace slot `c`: before, during and after the job. The
      first of them keeps the id and the begin of `c`. */
  function Pieces(c: Cell, lastId: int, task: Task, sub: bool, policy: Policy): seq<Cell> {
    if task.start > c.b then
      var before := c.(e := task.start - 1);
      var rest := c.(id := lastId + 1);
      if task.start + task.walltime > c.e then [before, During(rest, task, sub, policy)]
      else [before, During(rest, task, sub, policy), c.(id := lastId + 2, b := task.start + task.walltime)]
    else if task.start + task.walltime - 1 >= c.e then [During(c, task, sub, policy)]
    else [During(c, task, sub, policy), c.(id := lastId + 1, b := task.start + task.walltime)]
  }

  /** The slots in time order and the largest id given so far. */
  datatype Chart = Chart(cells: seq<Cell>, lastId: int)

  /** The chart with the slot at `i` replaced by `p`. */
  function Replace(g: Chart, i: nat, p: seq<Cell>): Chart
    requires i < |g.cells|
  {
    Chart(g.cells[..i] + p + g.cells[i+1..], g.lastId + |p| - 1)
  }

  lemma ReplaceCells(g: Chart, i: nat, p: seq<Cell>)
    requires i < |g.cells|
    ensures var h := Replace(g, i, p);
            && |h.cells| == |g.cells| + |p| - 1
            && (forall j :: 0 <= j < i ==> h.cells[j] == g.cells[j])
            && (forall j :: i <= j < i + |p| ==> h.cells[j] == p[j-i])
            && (forall j :: i + |p| <= j < |h.cells| ==> h.cells[j] == g.cells[j-|p|+1])
  {
  }

  function CutAt(g: Chart, i: nat, task: Task, sub: bool, policy: Policy): Chart
    requires i < |g.cells|
  {
    var pieces := Pieces(g.cells[i], g.lastId, task, sub, policy);
    Chart(g.cells[..i] + pieces + g.cells[i+1..], g.lastId + |pieces| - 1)
  }

  /** Cuts `n` consecutive slots from position `i` on. */
  function Split(g: Chart, i: nat, n: nat, task: Task, sub: bool, policy: Policy): Chart
    requires i + n <= |g.cells|
    decreases n
  {
    if n == 0 then g
    else
      var pieces := Pieces(g.cells[i], g.lastId, task, sub, policy);
      Split(CutAt(g, i, task, sub, policy), i + |pieces|, n - 1, task, sub, policy)
  }

  // ------------------------------------------------------------------ well-formed charts

  ghost predicate Wf(g: Chart) {
    && |g.cells| >= 1
    && g.cells[0].id == 1
    && ProperIds(g)
    && (forall i :: 0 <= i < |g.cells| ==> g.cells[i].b <= g.cells[i].e + 1)
    && Contiguous(g.cells)
  }

  /** Ids are positive, different, and not above the last id given. */
  ghost predicate ProperIds(g: Chart) {
    && (forall i :: 0 <= i < |g.cells| ==> 0 < g.cells[i].id <= g.lastId)
    && (forall i, j :: 0 <= i < j < |g.cells| ==> g.cells[i].id != g.cells[j].id)
  }

  ghost predicate Contiguous(cells: seq<Cell>) {
    forall i, j {:trigger cells[i], cells[j]} :: 0 <= i && j == i + 1 < |cells| ==> cells[j].b == cells[i].e + 1
  }

  /** No slot is empty. */
  ghost predicate Solid(g: Chart) {
    forall i :: 0 <= i < |g.cells| ==> g.cells[i].b <= g.cells[i].e
  }

  function Begin(g: Chart): int
    requires |g.cells| >= 1
  {
    g.cells[0].b
  }

  function End(g: Chart): int
    requires |g.cells| >= 1
  {
    g.cells[|g.cells|-1].e
  }

  lemma {:induction false} Ordered(g: Chart, i: nat, j: nat)
    requires Wf(g) && i <= j < |g.cells|
    ensures g.cells[i].b <= g.cells[j].b && g.cells[i].e <= g.cells[j].e
    ensures i < j ==> g.cells[i].e < g.cells[j].b
    decreases j - i
  {
    if i < j {
      Ordered(g, i, j - 1);
      assert g.cells[j].b == g.cells[j-1].e + 1;
    }
  }

  // ------------------------------------------------------------- the chart over time

  ghost predicate Covers(g: Chart, i: int, t: int) {
    0 <= i < |g.cells| && g.cells[i].b <= t <= g.cells[i].e
  }

  /** Free resources, counters, rules and tables at one instant; nothing is free outside the chart. */
  datatype Content = Content(free: set<int>, counters: Counters, rulesId: int, tables: Tables)

  const NOTHING := Content({}, map[], -1, NO_TABLES)

  function ContentIn(c: Cell): Content {
    Content(c.free, c.counters, c.rulesId, c.tables)
  }

  ghost function ContentAt(g: Chart, t: int): Content {
    if exists i :: Covers(g, i, t) then
      var i :| Covers(g, i, t);
      ContentIn(g.cells[i])
    else NOTHING
  }

  ghost predicate InSpan(g: Chart, t: int)
    requires |g.cells| >= 1
  {
    Begin(g) <= t <= End(g)
  }

  lemma CoversOnce(g: Chart, i: int, j: int, t: int)
    requires Wf(g) && Covers(g, i, t) && Covers(g, j, t)
    ensures i == j
  {
    if i < j {
      Ordered(g, i, j);
    } else if j < i {
      Ordered(g, j, i);
    }
  }

  lemma ContentOf(g: Chart, i: int, t: int)
    requires Wf(g) && Covers(g, i, t)
    ensures ContentAt(g, t) == ContentIn(g.cells[i])
  {
    forall j | Covers(g, j, t) ensures i == j {
      CoversOnce(g, i, j, t);
    }
  }

  lemma {:induction false} FindCover(g: Chart, t: int, n: nat) returns (i: nat)
    requires Wf(g) && n < |g.cells| && Begin(g) <= t <= g.cells[n].e
    ensures i <= n && Covers(g, i, t)
    decreases n
  {
    if g.cells[n].b <= t {
      i := n;
    } else {
      assert g.cells[n].b == g.cells[n-1].e + 1;
      i := FindCover(g, t, n - 1);
    }
  }

  lemma OutsideSpan(g: Chart, t: int)
    requires Wf(g) && !InSpan(g, t)
    ensures ContentAt(g, t) == NOTHING
  {
    forall i | Covers(g, i, t) ensures false {
      Ordered(g, 0, i);
      Ordered(g, i, |g.cells| - 1);
    }
  }

  // ---------------------------------------------------------------- one cut is local

  /** The job reaches into slot `c`, or begins or ends right at its border. */
  predicate Meets(c: Cell, task: Task) {
    && task.start <= c.e + 1
    && c.b <= task.start + task.walltime
  }

  ghost function Changes(c: Content, task: Task, sub: bool, policy: Policy): Content {
    var tables := Entered(c.tables, task.sharer, task.placeholder, task.res, sub);
    if sub then c.(free := c.free - task.res, counters := Counted(c.counters, task, policy), tables := tables)
    else if Plain(task) then c.(free := c.free + task.res, tables := tables)
    else c.(tables := tables)
  }

  /** `p` tiles the time of `c` and starts with its id; the other ids are new. */
  ghost predicate Tiles(p: seq<Cell>, c: Cell, lastId: int) {
    && 1 <= |p|
    && p[0].id == c.id && p[0].b == c.b && p[|p|-1].e == c.e
    && Contiguous(p)
    && (forall j :: 0 <= j < |p| ==> c.b <= p[j].b <= p[j].e + 1 && p[j].e <= c.e)
    && (forall j :: 0 < j < |p| ==> p[j].id == lastId + j)
  }

  /** `p` has content `inside` while the job runs and that of `c` otherwise. */
  ghost predicate Splits(p: seq<Cell>, c: Cell, task: Task, inside: Content) {
    forall j, t :: 0 <= j < |p| && p[j].b <= t <= p[j].e ==>
      ContentIn(p[j]) == if task.Covers(t) then inside else ContentIn(c)
  }

  lemma PiecesTile(c: Cell, lastId: int, task: Task, sub: bool, policy: Policy)
    requires Meets(c, task) && c.b <= c.e + 1 && task.walltime >= 0
    ensures var p := Pieces(c, lastId, task, sub, policy);
            && Tiles(p, c, lastId)
            && Splits(p, c, task, Changes(ContentIn(c), task, sub, policy))
  {
    PiecesInOrder(c, lastId, task, sub, policy);
    var p := Pieces(c, lastId, task, sub, policy);
    forall j, t | 0 <= j < |p| && p[j].b <= t <= p[j].e
      ensures ContentIn(p[j])
           == if task.Covers(t) then Changes(ContentIn(c), task, sub, policy) else ContentIn(c)
    {
    }
    hide Tiles;
  }

  lemma PiecesInOrder(c: Cell, lastId: int, task: Task, sub: bool, policy: Policy)
    requires Meets(c, task) && c.b <= c.e + 1 && task.walltime >= 0
    ensures Tiles(Pieces(c, lastId, task, sub, policy), c, lastId)
  {
  }

  /** `h` is `g` with the slot at `i` replaced by `p`. */
  ghost predicate Replaced(g: Chart, h: Chart, i: nat, p: seq<Cell>) {
    && i < |g.cells| && |p| >= 1
    && |h.cells| == |g.cells| + |p| - 1
    && h.lastId == g.lastId + |p| - 1
    && (forall j :: 0 <= j < i ==> h.cells[j] == g.cells[j])
    && (forall j :: i <= j < i + |p| ==> h.cells[j] == p[j-i])
    && (forall j :: i + |p| <= j < |h.cells| ==> h.cells[j] == g.cells[j-|p|+1])
  }

  lemma ReplacedContiguous(g: Chart, h: Chart, i: nat, p: seq<Cell>)
    requires Replaced(g, h, i, p) && Tiles(p, g.cells[i], g.lastId) && Contiguous(g.cells)
    ensures Contiguous(h.cells)
  {
    var m := |p| - 1;
    forall j, k | 0 <= j && k == j + 1 < |h.cells| ensures h.cells[k].b == h.cells[j].e + 1 {
      if k < i {
        assert g.cells[k].b == g.cells[j].e + 1;
      } else if k == i {
        assert g.cells[i].b == g.cells[i-1].e + 1;
      } else if k <= i + m {
        assert p[k-i].b == p[j-i].e + 1;
      } else {
        assert g.cells[k-m].b == g.cells[j-m].e + 1;
      }
    }
  }

  lemma ReplacedIds(g: Chart, h: Chart, i: nat, p: seq<Cell>)
    requires Replaced(g, h, i, p) && Tiles(p, g.cells[i], g.lastId) && ProperIds(g)
    ensures ProperIds(h)
  {
    var m := |p| - 1;
    forall j, k | 0 <= j < k < |h.cells| ensures h.cells[j].id != h.cells[k].id {
      if k <= i {
        assert g.cells[j].id != g.cells[k].id;
      } else if j < i + 1 && k > i + m {
        assert g.cells[j].id != g.cells[k-m].id;
      } else if j > i + m {
        assert g.cells[j-m].id != g.cells[k-m].id;
      }
    }
  }

  lemma ReplacedWf(g: Chart, h: Chart, i: nat, p: seq<Cell>)
    requires Replaced(g, h, i, p) && Tiles(p, g.cells[i], g.lastId) && Wf(g)
    ensures Wf(h) && Begin(h) == Begin(g) && End(h) == End(g)
  {
    ReplacedContiguous(g, h, i, p);
    ReplacedIds(g, h, i, p);
  }

  lemma CutAtReplaced(g: Chart, i: nat, task: Task, sub: bool, policy: Policy)
    requires i < |g.cells|
    ensures Replaced(g, CutAt(g, i, task, sub, policy), i, Pieces(g.cells[i], g.lastId, task, sub, policy))
  {
  }

  lemma CutAtWf(g: Chart, i: nat, task: Task, sub: bool, policy: Policy)
    requires Wf(g) && i < |g.cells| && Meets(g.cells[i], task) && task.walltime >= 0
    ensures var h := CutAt(g, i, task, sub, policy);
            Wf(h) && Begin(h) == Begin(g) && End(h) == End(g)
  {
    PiecesTile(g.cells[i], g.lastId, task, sub, policy);
    CutAtReplaced(g, i, task, sub, policy);
    ReplacedWf(g, CutAt(g, i, task, sub, policy), i, Pieces(g.cells[i], g.lastId, task, sub, policy));
  }

  /** The position in `g` that position `j` of `h` was cut from. */
  function Origin(i: nat, m: nat, j: nat): nat
    requires m >= 1
  {
    if j < i then j else if j < i + m then i else j - m + 1
  }

  lemma ReplacedOrigin(g: Chart, h: Chart, i: nat, p: seq<Cell>, j: nat)
    requires Replaced(g, h, i, p) && Tiles(p, g.cells[i], g.lastId) && j < |h.cells|
    ensures var o := Origin(i, |p|, j);
            && o < |g.cells|
            && g.cells[o].b <= h.cells[j].b && h.cells[j].e <= g.cells[o].e
            && (o != i ==> h.cells[j] == g.cells[o])
            && (o == i ==> h.cells[j] == p[j-i])
  {
  }

  lemma ContentInside(g: Chart, h: Chart, i: nat, p: seq<Cell>, task: Task, inside: Content, t: int)
    requires Replaced(g, h, i, p) && Tiles(p, g.cells[i], g.lastId) && Wf(g) && Wf(h)
    requires Splits(p, g.cells[i], task, inside)
    requires Begin(h) <= t <= End(h)
    ensures ContentAt(h, t) == if Covers(g, i, t) && task.Covers(t) then inside else ContentAt(g, t)
  {
    var j := FindCover(h, t, |h.cells| - 1);
    ContentOf(h, j, t);
    ReplacedOrigin(g, h, i, p, j);
    var o := Origin(i, |p|, j);
    assert Covers(g, o, t);
    ContentOf(g, o, t);
    if o != i {
      assert !Covers(g, i, t) by {
        if Covers(g, i, t) {
          CoversOnce(g, i, o, t);
        }
      }
    } else {
      assert p[j-i].b <= t <= p[j-i].e;
    }
  }

  /** Replacing a slot by its pieces changes the content while the job runs, inside that
      slot, and nowhere else. */
  lemma ReplacedContent(g: Chart, h: Chart, i: nat, p: seq<Cell>, task: Task, inside: Content, t: int)
    requires Replaced(g, h, i, p) && Tiles(p, g.cells[i], g.lastId) && Wf(g)
    requires Splits(p, g.cells[i], task, inside)
    ensures ContentAt(h, t) == if Covers(g, i, t) && task.Covers(t) then inside else ContentAt(g, t)
  {
    ReplacedWf(g, h, i, p);
    if InSpan(g, t) {
      ContentInside(g, h, i, p, task, inside, t);
    } else {
      OutsideSpan(g, t);
      OutsideSpan(h, t);
      Ordered(g, 0, i);
      Ordered(g, i, |g.cells| - 1);
    }
  }

  lemma CutAtContent(g: Chart, i: nat, task: Task, sub: bool, policy: Policy, t: int)
    requires Wf(g) && i < |g.cells| && Meets(g.cells[i], task) && task.walltime >= 0
    ensures ContentAt(CutAt(g, i, task, sub, policy), t)
         == if Covers(g, i, t) && task.Covers(t) then Changes(ContentAt(g, t), task, sub, policy) else ContentAt(g, t)
  {
    var c := g.cells[i];
    var inside := Changes(ContentIn(c), task, sub, policy);
    PiecesTile(c, g.lastId, task, sub, policy);
    CutAtReplaced(g, i, task, sub, policy);
    ReplacedContent(g, CutAt(g, i, task, sub, policy), i, Pieces(c, g.lastId, task, sub, policy), task, inside, t);
    if Covers(g, i, t) {
      ContentOf(g, i, t);
    }
  }

  // -------------------------------------------------------- a job over several slots

  ghost predicate AllMeet(g: Chart, i: nat, n: nat, task: Task)
    requires i + n <= |g.cells|
  {
    forall j :: i <= j < i + n ==> Meets(g.cells[j], task)
  }

  ghost predicate HasSlot(g: Chart, id: int, b: int) {
    exists k :: 0 <= k < |g.cells| && g.cells[k].id == id && g.cells[k].b == b
  }

  lemma CutAtKeeps(g: Chart, i: nat, task: Task, sub: bool, policy: Policy, id: int, b: int)
    requires i < |g.cells| && Meets(g.cells[i], task) && g.cells[i].b <= g.cells[i].e + 1 && task.walltime >= 0
    requires HasSlot(g, id, b)
    ensures HasSlot(CutAt(g, i, task, sub, policy), id, b)
  {
    var k :| 0 <= k < |g.cells| && g.cells[k].id == id && g.cells[k].b == b;
    var p := Pieces(g.cells[i], g.lastId, task, sub, policy);
    var h := CutAt(g, i, task, sub, policy);
    PiecesTile(g.cells[i], g.lastId, task, sub, policy);
    CutAtReplaced(g, i, task, sub, policy);
    var j := if k <= i then k else k + |p| - 1;
    assert h.cells[j].id == id && h.cells[j].b == b;
  }

  /** The content at `t` once the job is placed between `lo` and `hi`. */
  ghost function ContentAfter(g: Chart, lo: int, hi: int, task: Task, sub: bool, policy: Policy, t: int): Content {
    if lo <= t <= hi && task.Covers(t) then Changes(ContentAt(g, t), task, sub, policy) else ContentAt(g, t)
  }

  ghost predicate Pointwise(g: Chart, h: Chart, lo: int, hi: int, task: Task, sub: bool, policy: Policy) {
    forall t :: ContentAt(h, t) == ContentAfter(g, lo, hi, task, sub, policy, t)
  }

  ghost predicate KeepsSlots(g: Chart, h: Chart) {
    forall id, b :: HasSlot(g, id, b) ==> HasSlot(h, id, b)
  }

  lemma CutAtSolid(g: Chart, i: nat, task: Task, sub: bool, policy: Policy)
    requires Solid(g) && i < |g.cells| && task.walltime > 0
    requires task.start <= g.cells[i].e && g.cells[i].b <= task.Last()
    ensures Solid(CutAt(g, i, task, sub, policy))
  {
    CutAtReplaced(g, i, task, sub, policy);
  }

  lemma CutAtPointwise(g: Chart, i: nat, task: Task, sub: bool, policy: Policy, h: Chart)
    requires Wf(g) && i < |g.cells| && Meets(g.cells[i], task) && task.walltime >= 0
    requires h == CutAt(g, i, task, sub, policy)
    ensures Pointwise(g, h, g.cells[i].b, g.cells[i].e, task, sub, policy) && KeepsSlots(g, h)
  {
    forall t ensures ContentAt(h, t) == ContentAfter(g, g.cells[i].b, g.cells[i].e, task, sub, policy, t) {
      CutAtContent(g, i, task, sub, policy, t);
    }
    forall id, b | HasSlot(g, id, b) ensures HasSlot(h, id, b) {
      CutAtKeeps(g, i, task, sub, policy, id, b);
    }
  }

  lemma SplitUnfold(g: Chart, i: nat, n: nat, task: Task, sub: bool, policy: Policy, h: Chart, k: nat)
    requires n > 0 && i + n <= |g.cells|
    requires h == CutAt(g, i, task, sub, policy) && k == i + 1 + |h.cells| - |g.cells|
    ensures k + n - 1 <= |h.cells|
    ensures Split(g, i, n, task, sub, policy) == Split(h, k, n - 1, task, sub, policy)
  {
    hide Pieces;
  }

  lemma SplitNothing(g: Chart, i: nat, task: Task, sub: bool, policy: Policy)
    requires i <= |g.cells|
    ensures Split(g, i, 0, task, sub, policy) == g
  {
  }

  /** The first cut of a split. */
  lemma SplitStepCut(g: Chart, i: nat, n: nat, task: Task, sub: bool, policy: Policy) returns (h: Chart, k: nat)
    requires Wf(g) && n > 0 && i + n <= |g.cells| && AllMeet(g, i, n, task) && task.walltime >= 0
    ensures Wf(h) && Begin(h) == Begin(g) && End(h) == End(g)
    ensures i < k && k + n - 1 <= |h.cells| && AllMeet(h, k, n - 1, task)
    ensures forall j :: k <= j < k + n - 1 ==> h.cells[j] == g.cells[j-k+i+1]
    ensures Pointwise(g, h, g.cells[i].b, g.cells[i].e, task, sub, policy) && KeepsSlots(g, h)
    ensures Solid(g) && task.walltime > 0 && task.start <= g.cells[i].e && g.cells[i].b <= task.Last() ==> Solid(h)
    ensures h == CutAt(g, i, task, sub, policy)
    ensures Split(g, i, n, task, sub, policy) == Split(h, k, n - 1, task, sub, policy)
  {
    h, k := CutAtTail(g, i, task, sub, policy);
    SplitUnfold(g, i, n, task, sub, policy, h, k);
    CutAtWf(g, i, task, sub, policy);
    CutAtPointwise(g, i, task, sub, policy, h);
    if Solid(g) && task.walltime > 0 && task.start <= g.cells[i].e && g.cells[i].b <= task.Last() {
      CutAtSolid(g, i, task, sub, policy);
    }
  }

  /** The first cut of a split, as what the rest of the split sees of it. */
  lemma SplitStep(g: Chart, i: nat, n: nat, task: Task, sub: bool, policy: Policy) returns (h: Chart, k: nat)
    requires Wf(g) && n > 0 && i + n <= |g.cells| && AllMeet(g, i, n, task) && task.walltime >= 0
    ensures Wf(h) && Begin(h) == Begin(g) && End(h) == End(g)
    ensures i < k && k + n - 1 <= |h.cells| && AllMeet(h, k, n - 1, task)
    ensures forall j :: k <= j < k + n - 1 ==> h.cells[j] == g.cells[j-k+i+1]
    ensures Pointwise(g, h, g.cells[i].b, g.cells[i].e, task, sub, policy) && KeepsSlots(g, h)
    ensures Solid(g) && task.walltime > 0 && task.start <= g.cells[i].e && g.cells[i].b <= task.Last() ==> Solid(h)
    ensures Split(g, i, n, task, sub, policy) == Split(h, k, n - 1, task, sub, policy)
  {
    h, k := SplitStepCut(g, i, n, task, sub, policy);
  }

  lemma CutAtTail(g: Chart, i: nat, task: Task, sub: bool, policy: Policy) returns (h: Chart, k: nat)
    requires i < |g.cells|
    ensures h == CutAt(g, i, task, sub, policy) && k == i + 1 + |h.cells| - |g.cells| && i < k
    ensures forall j :: k <= j < |h.cells| ==> h.cells[j] == g.cells[j-k+i+1]
  {
    h := CutAt(g, i, task, sub, policy);
    k := i + 1 + |h.cells| - |g.cells|;
    CutAtReplaced(g, i, task, sub, policy);
  }

  lemma {:induction false} SplitWf(g: Chart, i: nat, n: nat, task: Task, sub: bool, policy: Policy, out: Chart)
    requires Wf(g) && i + n <= |g.cells| && AllMeet(g, i, n, task) && task.walltime >= 0
    requires out == Split(g, i, n, task, sub, policy)
    ensures Wf(out) && Begin(out) == Begin(g) && End(out) == End(g)
    decreases n
  {
    if n > 0 {
      var h, k := SplitStep(g, i, n, task, sub, policy);
      SplitWf(h, k, n - 1, task, sub, policy, out);
    }
  }

  lemma {:induction false} SplitContent(g: Chart, i: nat, n: nat, task: Task, sub: bool, policy: Policy, out: Chart)
    requires Wf(g) && 0 < n && i + n <= |g.cells| && AllMeet(g, i, n, task) && task.walltime >= 0
    requires out == Split(g, i, n, task, sub, policy)
    ensures Pointwise(g, out, g.cells[i].b, g.cells[i+n-1].e, task, sub, policy)
    decreases n
  {
    hide Pointwise, Split, KeepsSlots, AllMeet, ProperIds, Solid, Meets;
    var h, k := SplitStep(g, i, n, task, sub, policy);
    if n == 1 {
      SplitNothing(h, k, task, sub, policy);
    } else {
      SplitContent(h, k, n - 1, task, sub, policy, out);
      PointwiseJoin(g, h, out, g.cells[i].b, g.cells[i].e, g.cells[i+n-1].e, task, sub, policy) by {
        assert h.cells[k] == g.cells[i+1] && h.cells[k+n-2] == g.cells[i+n-1];
        assert g.cells[i+1].b == g.cells[i].e + 1;
        assert g.cells[i].b <= g.cells[i].e + 1;
        Ordered(g, i + 1, i + n - 1);
      }
    }
  }

  lemma PointwiseJoin(g: Chart, h: Chart, out: Chart, lo: int, mid: int, hi: int, task: Task, sub: bool, policy: Policy)
    requires lo <= mid + 1 <= hi + 1
    requires Pointwise(g, h, lo, mid, task, sub, policy) && Pointwise(h, out, mid + 1, hi, task, sub, policy)
    ensures Pointwise(g, out, lo, hi, task, sub, policy)
  {
    forall t ensures ContentAt(out, t) == ContentAfter(g, lo, hi, task, sub, policy, t) {
      assert ContentAt(h, t) == ContentAfter(g, lo, mid, task, sub, policy, t);
      assert ContentAt(out, t) == ContentAfter(h, mid + 1, hi, task, sub, policy, t);
    }
  }

  /** Every id handed out before still names a slot, with the same begin: what the cache
      of earlier answers relies on. */
  lemma {:induction false} SplitKeeps(g: Chart, i: nat, n: nat, task: Task, sub: bool, policy: Policy, out: Chart)
    requires Wf(g) && i + n <= |g.cells| && AllMeet(g, i, n, task) && task.walltime >= 0
    requires out == Split(g, i, n, task, sub, policy)
    ensures KeepsSlots(g, out)
    decreases n
  {
    if n > 0 {
      var h, k := SplitStep(g, i, n, task, sub, policy);
      SplitKeeps(h, k, n - 1, task, sub, policy, out);
    }
  }

  /** Slots `l` to `r` are those the job reaches into; only slots that touch its first or
      last instant from outside may come in addition. */
  ghost predicate Window(g: Chart, l: int, r: int, task: Task) {
    && 0 <= l <= r < |g.cells|
    && task.start <= g.cells[l].e + 1
    && (l > 0 ==> g.cells[l-1].e < task.start)
    && g.cells[r].b <= task.Last() + 1
    && (r + 1 < |g.cells| ==> task.Last() < g.cells[r+1].b)
  }

  lemma WindowMeets(g: Chart, l: int, r: int, task: Task)
    requires Wf(g) && Window(g, l, r, task)
    ensures AllMeet(g, l, r - l + 1, task)
  {
    forall j | l <= j <= r ensures Meets(g.cells[j], task) {
      Ordered(g, l, j);
      Ordered(g, j, r);
    }
  }

  lemma WindowCovers(g: Chart, l: int, r: int, task: Task, t: int)
    requires Wf(g) && Window(g, l, r, task) && task.Covers(t)
    ensures InSpan(g, t) <==> g.cells[l].b <= t <= g.cells[r].e
  {
    Ordered(g, 0, l);
    Ordered(g, r, |g.cells| - 1);
    if l > 0 {
      Ordered(g, l - 1, l);
      assert g.cells[l].b == g.cells[l-1].e + 1;
    }
    if r + 1 < |g.cells| {
      assert g.cells[r+1].b == g.cells[r].e + 1;
    }
  }

  function Place(g: Chart, l: int, r: int, task: Task, sub: bool, policy: Policy): Chart
    requires 0 <= l <= r < |g.cells|
  {
    Split(g, l, r - l + 1, task, sub, policy)
  }

  /** Placing a job changes the chart exactly at the instants of its span the job covers,
      and keeps the list contiguous, headed by slot 1, over the same span, with every old
      id still naming a slot with the same begin. */
  lemma PlaceIsPointwise(g: Chart, l: int, r: int, task: Task, sub: bool, policy: Policy) returns (h: Chart)
    requires Wf(g) && Window(g, l, r, task) && task.walltime >= 0
    ensures h == Place(g, l, r, task, sub, policy)
    ensures Wf(h) && Begin(h) == Begin(g) && End(h) == End(g)
    ensures Pointwise(g, h, Begin(g), End(g), task, sub, policy)
    ensures KeepsSlots(g, h)
  {
    hide Meets, Split, Pointwise, KeepsSlots;
    h := Place(g, l, r, task, sub, policy);
    WindowMeets(g, l, r, task);
    SplitWf(g, l, r - l + 1, task, sub, policy, h);
    SplitKeeps(g, l, r - l + 1, task, sub, policy, h);
    SplitContent(g, l, r - l + 1, task, sub, policy, h);
    PointwiseInSpan(g, l, r, task, sub, policy, h);
  }

  lemma PointwiseInSpan(g: Chart, l: int, r: int, task: Task, sub: bool, policy: Policy, h: Chart)
    requires Wf(g) && Window(g, l, r, task)
    requires Pointwise(g, h, g.cells[l].b, g.cells[r].e, task, sub, policy)
    ensures Pointwise(g, h, Begin(g), End(g), task, sub, policy)
  {
    forall t ensures ContentAt(h, t) == ContentAfter(g, Begin(g), End(g), task, sub, policy, t) {
      assert ContentAt(h, t) == ContentAfter(g, g.cells[l].b, g.cells[r].e, task, sub, policy, t);
      if task.Covers(t) {
        WindowCovers(g, l, r, task, t);
      }
    }
  }

  // --------------------------------------------------------------------------- round trip

  ghost function FreeAt(g: Chart, t: int): set<int> {
    ContentAt(g, t).free
  }

  /** What is free and what is counted once a job is taken out or given back. Only a job that
      neither shares its resources nor has to do with placeholders gives them back to what is
      free, and no job that is given back is taken off the counters. The rules stay. */
  lemma PlacedFree(g: Chart, l: int, r: int, task: Task, sub: bool, policy: Policy, t: int)
    requires Wf(g) && Window(g, l, r, task) && task.walltime >= 0
    ensures var h := Place(g, l, r, task, sub, policy);
            && (g.cells[0].b <= t <= g.cells[|g.cells|-1].e && task.start <= t < task.start + task.walltime ==>
                  && ContentAt(h, t).free
                     == (if sub then ContentAt(g, t).free - task.res
                         else if task.sharer.None? && task.placeholder == NoPlaceholder
                         then ContentAt(g, t).free + task.res
                         else ContentAt(g, t).free)
                  && (!sub ==> ContentAt(h, t).counters == ContentAt(g, t).counters)
                  && ContentAt(h, t).rulesId == ContentAt(g, t).rulesId)
            && (!(g.cells[0].b <= t <= g.cells[|g.cells|-1].e && task.start <= t < task.start + task.walltime) ==>
                  ContentAt(h, t) == ContentAt(g, t))
  {
    hide Place, Window, Entered, ContentAt;
    var h := PlaceIsPointwise(g, l, r, task, sub, policy);
    assert ContentAt(h, t) == ContentAfter(g, Begin(g), End(g), task, sub, policy, t);
  }

  /** What the tables say while a job runs that was taken out or given back: only the entries
      about the job change. */
  lemma PlacedTables(g: Chart, l: int, r: int, task: Task, sub: bool, policy: Policy, t: int, s: Sharer, n: string)
    requires Wf(g) && Window(g, l, r, task) && task.walltime >= 0
    requires g.cells[0].b <= t <= g.cells[|g.cells|-1].e && task.start <= t < task.start + task.walltime
    ensures var before, after := ContentAt(g, t).tables, ContentAt(Place(g, l, r, task, sub, policy), t).tables;
            && SharedWith(after, s)
               == (if task.sharer != Some(s) then SharedWith(before, s)
                   else if SharedWith(before, s).None? then Some(task.res)
                   else if sub then SharedWith(before, s)
                   else Some(SharedWith(before, s).value + task.res))
            && HeldUnder(after, n)
               == (if task.placeholder == OwnPlaceholder(n) then
                     if sub || HeldUnder(before, n).None? then Some(task.res)
                     else Some(HeldUnder(before, n).value + task.res)
                   else if task.placeholder == UsePlaceholder(n) && sub && HeldUnder(before, n).Some? then
                     Some(HeldUnder(before, n).value - task.res)
                   else HeldUnder(before, n))
  {
    hide Place, Window, Entered, ContentAt, SharedWith, HeldUnder;
    var h := PlaceIsPointwise(g, l, r, task, sub, policy);
    assert ContentAt(h, t) == ContentAfter(g, Begin(g), End(g), task, sub, policy, t);
    EnteredChanges(ContentAt(g, t).tables, task.sharer, task.placeholder, task.res, sub);
  }

  /** Taking a plain job's resources out of a chart and giving them back restores what is
      free at every instant exactly when they were all free where the job runs. */
  lemma RoundTrip(g: Chart, l: int, r: int, l': int, r': int, task: Task, policy: Policy)
    requires Wf(g) && Window(g, l, r, task) && task.walltime >= 0
    requires task.sharer.None? && task.placeholder == NoPlaceholder
    requires Window(Place(g, l, r, task, true, policy), l', r', task)
    ensures (forall t ::
               FreeAt(Place(Place(g, l, r, task, true, policy), l', r', task, false, policy), t) == FreeAt(g, t))
       <==> (forall t :: InSpan(g, t) && task.Covers(t) ==> task.res <= FreeAt(g, t))
  {
    var h := PlaceIsPointwise(g, l, r, task, true, policy);
    var k := PlaceIsPointwise(h, l', r', task, false, policy);
    forall t ensures FreeAt(k, t) == FreeAt(g, t) <==> (InSpan(g, t) && task.Covers(t) ==> task.res <= FreeAt(g, t)) {
      assert ContentAt(h, t) == ContentAfter(g, Begin(g), End(g), task, true, policy, t);
      assert ContentAt(k, t) == ContentAfter(h, Begin(h), End(h), task, false, policy, t);
      if InSpan(g, t) && task.Covers(t) {
        assert FreeAt(k, t) == FreeAt(g, t) - task.res + task.res;
      }
    }
  }

  // ------------------------------------------------------------------- no empty slots

  /** A window as the search returns it keeps every slot non-empty. */
  lemma {:induction false} SplitSolid(g: Chart, i: nat, n: nat, task: Task, sub: bool, policy: Policy, out: Chart)
    requires Wf(g) && Solid(g) && i + n <= |g.cells| && task.walltime > 0
    requires forall j :: i <= j < i + n ==> task.start <= g.cells[j].e && g.cells[j].b <= task.Last()
    requires out == Split(g, i, n, task, sub, policy)
    ensures Solid(out)
    decreases n
  {
    if n > 0 {
      var h, k := SplitStep(g, i, n, task, sub, policy);
      SplitSolid(h, k, n - 1, task, sub, policy, out);
    }
  }
}
