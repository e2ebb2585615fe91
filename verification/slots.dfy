/** The slots of a slot set as a linked list that is changed in place (oar/kao/slot.py).
    Every operation is tied to its effect on the chart, the list as a value.
 */
module Slots {
  import opened Options
  import opened QuotaRules
  import opened Sharing
  import opened Gantt
  import opened FirstFit
  import opened Sweep
  import opened Temporal
  import opened Slicing

  class Slot {
    var id: int
    var next: int
    var b: int
    var e: int
    var itvs: set<int>
    var tsItvs: map<string, map<string, set<int>>>
    var phItvs: map<string, set<int>>
    const quotas: Quotas
    var rulesId: int

    constructor (id: int, next: int, itvs: set<int>, b: int, e: int, tsItvs: map<string, map<string, set<int>>>,
                 phItvs: map<string, set<int>>)
      ensures this.id == id && this.next == next && this.itvs == itvs && this.b == b && this.e == e
      ensures this.tsItvs == tsItvs && this.phItvs == phItvs
      ensures rulesId == -1 && fresh(quotas) && quotas.owner == this && quotas.counters == map[]
    {
      this.id, this.next, this.itvs, this.b, this.e := id, next, itvs, b, e;
      this.tsItvs, this.phItvs := tsItvs, phItvs;
      rulesId := -1;
      quotas := new Quotas();
      new;
      quotas.owner := this;
    }

    /** A new slot like this one but for its id, its place in the list and its time. */
    method Copy(id: int, next: int, b: int, e: int) returns (s: Slot)
      ensures fresh(s) && fresh(s.quotas) && s.quotas.owner == s
      ensures s.Value() == Value().(id := id, b := b, e := e) && s.next == next
    {
      s := new Slot(id, next, itvs, b, e, tsItvs, phItvs);
      s.quotas.DeepcopyFrom(quotas);
      s.rulesId := rulesId;
    }

    /** A copy of the slot that comes before it and takes over its id. */
    method CutBefore(newId: int, e: int) returns (s: Slot)
      requires quotas.owner == this
      modifies this`id
      ensures fresh(s) && fresh(s.quotas) && s.quotas.owner == s && s.id == old(id) && s.next == newId && id == newId
      ensures s.Value() == old(Value()).(e := e) && Value() == old(Value()).(id := newId)
    {
      s := Copy(id, newId, b, e);
      id := newId;
    }

    /** A copy of the slot that comes behind it. */
    method CutBehind(newId: int, b: int) returns (s: Slot)
      requires quotas.owner == this
      modifies this`next
      ensures fresh(s) && fresh(s.quotas) && s.quotas.owner == s && s.id == newId && s.next == old(next)
      ensures next == newId
      ensures s.Value() == old(Value()).(id := newId, b := b) && Value() == old(Value())
    {
      s := Copy(newId, next, b, e);
      next := newId;
    }

    /** The tables when a job is taken out. */
    method EnterTaken(task: Task)
      modifies this`tsItvs, this`phItvs
      ensures Tables(tsItvs, phItvs)
           == Entered(old(Tables(tsItvs, phItvs)), task.sharer, task.placeholder, task.res, true)
    {
      match task.sharer {
        case Some(s) =>
          if s.user !in tsItvs {
            tsItvs := tsItvs[s.user := map[]];
          }
          if s.name !in tsItvs[s.user] {
            tsItvs := tsItvs[s.user := tsItvs[s.user][s.name := task.res]];
          }
        case None =>
      }
      match task.placeholder {
        case UsePlaceholder(name) =>
          if name in phItvs {
            phItvs := phItvs[name := phItvs[name] - task.res];
          }
        case OwnPlaceholder(name) => phItvs := phItvs[name := task.res];
        case NoPlaceholder =>
      }
    }

    /** The tables when a job is given back. */
    method EnterGiven(task: Task)
      modifies this`tsItvs, this`phItvs
      ensures Tables(tsItvs, phItvs)
           == Entered(old(Tables(tsItvs, phItvs)), task.sharer, task.placeholder, task.res, false)
    {
      match task.sharer {
        case Some(s) =>
          if s.user !in tsItvs {
            tsItvs := tsItvs[s.user := map[]];
          }
          if s.name !in tsItvs[s.user] {
            tsItvs := tsItvs[s.user := tsItvs[s.user][s.name := task.res]];
          } else {
            var lent := tsItvs[s.user][s.name];
            tsItvs := tsItvs[s.user := tsItvs[s.user][s.name := lent + task.res]];
          }
        case None =>
      }
      match task.placeholder {
        case OwnPlaceholder(name) =>
          if name in phItvs {
            phItvs := phItvs[name := phItvs[name] + task.res];
          } else {
            phItvs := phItvs[name := task.res];
          }
        case UsePlaceholder(_) =>
        case NoPlaceholder =>
      }
    }

    /** Narrows the slot to the job and takes the job's resources out of it. */
    method Sub(task: Task, policy: Policy)
      modifies this`b, this`e, this`itvs, this`tsItvs, this`phItvs, quotas`counters
      ensures Value() == During(old(Value()), task, true, policy)
    {
      b := Max(b, task.start);
      e := Min(e, task.start + task.walltime - 1);
      itvs := itvs - task.res;
      EnterTaken(task);
      if policy.enabled && !("container" in task.account.types) {
        quotas.Update(task.account, policy.jobTypes, |task.res * policy.countable|, task.walltime);
      }
    }

    /** Narrows the slot to the job and gives the job's resources back, if it is a plain one. */
    method Add(task: Task, policy: Policy)
      modifies this`b, this`e, this`itvs, this`tsItvs, this`phItvs
      ensures Value() == During(old(Value()), task, false, policy)
    {
      b := Max(b, task.start);
      e := Min(e, task.start + task.walltime - 1);
      if task.sharer.None? && task.placeholder == NoPlaceholder {
        itvs := itvs + task.res;
      }
      EnterGiven(task);
    }

    /** Ends the slot with its rules, and makes a new slot of the rest that comes behind it. */
    method Shorten(newId: int, rules: Period) returns (rest: Slot)
      requires quotas.owner == this
      modifies this`next, this`e, this`rulesId
      ensures fresh(rest) && fresh(rest.quotas) && rest.quotas.owner == rest && rest.id == newId
      ensures rest.next == old(next) && next == newId
      ensures [Value(), rest.Value()] == Halves(old(Value()), newId - 1, rules)
    {
      rest := new Slot(newId, next, itvs, b + rules.duration, e, tsItvs, phItvs);
      next, e, rulesId := newId, b + rules.duration - 1, rules.id;
    }

    ghost function Value(): Cell
      reads this, quotas
    {
      Cell(id, b, e, itvs, quotas.counters, rulesId, Tables(tsItvs, phItvs))
    }
  }

  // ------------------------------------------------- the linked list as a map of values

  /** What a slot id stands for: the value of its slot and the id of the next one. */
  datatype Link = Link(cell: Cell, next: int)

  /** The id of the slot after position `i`, or 0 at the end of the list. */
  function NextId(g: Chart, i: int): int
    requires 0 <= i < |g.cells|
  {
    if i + 1 < |g.cells| then g.cells[i+1].id else 0
  }

  /** Following the links from slot to slot lists the chart. */
  ghost predicate Lists(links: map<int, Link>, g: Chart) {
    && |g.cells| >= 1 && ProperIds(g)
    && (forall k :: k in links ==> links[k].cell.id == k && k <= g.lastId)
    && (forall i :: 0 <= i < |g.cells| ==> LinkedTo(links, g, i))
  }

  /** The id of slot `i` stands for its value and leads to the next slot. */
  ghost predicate LinkedTo(links: map<int, Link>, g: Chart, i: int)
    requires 0 <= i < |g.cells|
  {
    g.cells[i].id in links && links[g.cells[i].id] == Link(g.cells[i], NextId(g, i))
  }

  /** The links once slot `p[0].id` is replaced by the slots `p`, the last of which goes on
      with `next`. */
  function Linked(links: map<int, Link>, p: seq<Cell>, next: int): map<int, Link>
    requires |p| >= 1
  {
    if |p| == 1 then links[p[0].id := Link(p[0], next)]
    else Linked(links, p[1..], next)[p[0].id := Link(p[0], p[1].id)]
  }

  /** `p` replaces one slot: it starts with the id of `c`, and the other ids are new. */
  ghost predicate NewIds(p: seq<Cell>, c: Cell, lastId: int) {
    |p| >= 1 && p[0].id == c.id && forall j :: 0 < j < |p| ==> p[j].id == lastId + j
  }

  lemma {:induction false} LinkedAt(links: map<int, Link>, p: seq<Cell>, next: int, j: nat)
    requires j < |p| && (forall i, k :: 0 <= i < k < |p| ==> p[i].id != p[k].id)
    ensures p[j].id in Linked(links, p, next)
    ensures Linked(links, p, next)[p[j].id] == Link(p[j], if j + 1 < |p| then p[j+1].id else next)
    decreases |p|
  {
    if j > 0 {
      var rest := p[1..];
      LinkedAt(links, rest, next, j - 1);
      assert rest[j-1] == p[j] && p[0].id != p[j].id;
      assert j + 1 < |p| ==> rest[j] == p[j+1];
    }
  }

  lemma {:induction false} LinkedElsewhere(links: map<int, Link>, p: seq<Cell>, next: int, k: int)
    requires |p| >= 1 && forall j :: 0 <= j < |p| ==> p[j].id != k
    ensures k in Linked(links, p, next) <==> k in links
    ensures k in links ==> Linked(links, p, next)[k] == links[k]
    decreases |p|
  {
    if |p| > 1 {
      LinkedElsewhere(links, p[1..], next, k);
    }
  }

  lemma LinkedTwo(links: map<int, Link>, a: Cell, r: Cell, b: Cell, next: int)
    requires a.id != b.id == r.id
    ensures links[a.id := Link(a, b.id)][r.id := Link(r, next)][b.id := Link(b, next)] == Linked(links, [a, b], next)
    ensures links[r.id := Link(r, a.id)][a.id := Link(a, next)][b.id := Link(b, a.id)] == Linked(links, [b, a], next)
  {
    assert [a, b][1..] == [b] && [b, a][1..] == [a];
    assert Linked(links, [b], next) == links[b.id := Link(b, next)];
    assert Linked(links, [a], next) == links[a.id := Link(a, next)];
  }

  lemma LinkedThree(links: map<int, Link>, a: Cell, r: Cell, b: Cell, c: Cell, next: int)
    requires a.id != b.id == r.id && a.id != c.id && b.id != c.id
    ensures links[a.id := Link(a, b.id)][r.id := Link(r, next)][r.id := Link(r, c.id)]
                 [c.id := Link(c, next)][b.id := Link(b, c.id)]
         == Linked(links, [a, b, c], next)
  {
    assert [a, b, c][1..] == [b, c] && [b, c][1..] == [c];
    assert Linked(links, [c], next) == links[c.id := Link(c, next)];
    assert Linked(links, [b, c], next) == links[c.id := Link(c, next)][b.id := Link(b, c.id)];
  }

  lemma ReplacedIdsDiffer(g: Chart, i: nat, p: seq<Cell>)
    requires ProperIds(g) && i < |g.cells| && NewIds(p, g.cells[i], g.lastId)
    ensures forall k, l :: 0 <= k < l < |p| ==> p[k].id != p[l].id
    ensures ProperIds(Replace(g, i, p))
  {
    var h := Replace(g, i, p);
    var m := |p| - 1;
    ReplaceCells(g, i, p);
    assert forall j :: 0 <= j < |p| ==> p[j].id == if j == 0 then g.cells[i].id else g.lastId + j;
    forall j, k | 0 <= j < k < |h.cells| ensures h.cells[j].id != h.cells[k].id {
      var oj, ok := if j <= i then j else j - m, if k <= i then k else k - m;
      if (j <= i || j > i + m) && (k <= i || k > i + m) {
        assert h.cells[j].id == g.cells[oj].id && h.cells[k].id == g.cells[ok].id;
      }
    }
  }

  lemma LinkedSlot(links: map<int, Link>, g: Chart, i: nat, p: seq<Cell>, j: nat)
    requires Lists(links, g) && i < |g.cells| && NewIds(p, g.cells[i], g.lastId)
    requires j < |g.cells| + |p| - 1
    ensures var h := Replace(g, i, p);
            j < |h.cells| && LinkedTo(Linked(links, p, NextId(g, i)), h, j)
  {
    var h := Replace(g, i, p);
    var m := |p| - 1;
    ReplaceCells(g, i, p);
    ReplacedIdsDiffer(g, i, p);
    if i <= j <= i + m {
      LinkedAt(links, p, NextId(g, i), j - i);
      assert h.cells[j] == p[j-i];
      assert j < i + m ==> h.cells[j+1] == p[j-i+1];
      assert j == i + m ==> NextId(h, j) == NextId(g, i);
    } else {
      var o := if j < i then j else j - m;
      assert h.cells[j] == g.cells[o] && NextId(h, j) == NextId(g, o) && LinkedTo(links, g, o);
      forall k | 0 <= k < |p| ensures p[k].id != h.cells[j].id {
        assert o != i ==> g.cells[o].id != g.cells[i].id;
      }
      LinkedElsewhere(links, p, NextId(g, i), h.cells[j].id);
    }
  }

  lemma PiecesIds(c: Cell, lastId: int, task: Task, sub: bool, policy: Policy)
    ensures NewIds(Pieces(c, lastId, task, sub, policy), c, lastId)
  {
  }

  /** Replacing a slot in the list replaces it in the chart. */
  lemma ListsReplaced(links: map<int, Link>, g: Chart, i: nat, p: seq<Cell>)
    requires Lists(links, g) && i < |g.cells| && NewIds(p, g.cells[i], g.lastId)
    ensures Lists(Linked(links, p, NextId(g, i)), Replace(g, i, p))
  {
    var h := Replace(g, i, p);
    var links' := Linked(links, p, NextId(g, i));
    ReplacedIdsDiffer(g, i, p);
    forall j: nat | j < |h.cells| ensures LinkedTo(links', h, j) {
      LinkedSlot(links, g, i, p, j);
    }
    forall k | k in links' ensures links'[k].cell.id == k && k <= h.lastId {
      if j :| 0 <= j < |p| && p[j].id == k {
        LinkedAt(links, p, NextId(g, i), j);
      } else {
        LinkedElsewhere(links, p, NextId(g, i), k);
      }
    }
  }

  /** Every id but `sid` still stands for the same slot object. */
  ghost predicate SameBut(before: map<int, Slot>, after: map<int, Slot>, sid: int) {
    forall k {:trigger before[k]} {:trigger k in before} :: k in before && k != sid ==>
      k in after && after[k] == before[k]
  }

  class SlotSet {
    var slots: map<int, Slot>
    var lastId: int
    var cache: Cache
    const policy: Policy

    /** The list in time order, and what the objects hold. */
    ghost var chart: Chart
    ghost var links: map<int, Link>
    ghost var Repr: set<object>

    ghost predicate Valid()
      reads this, Repr
      ensures Valid() ==> this in Repr
    {
      match chart
      case Chart(_, last) => Holds() && lastId == last && Lists(links, chart)
    }

    /** The slot objects hold the linked values, each with counters of its own. */
    ghost predicate Holds()
      reads this`slots, this`lastId, this`links, this`Repr, Repr - {this}
      ensures Holds() ==> this in Repr
    {
      && this in Repr
      && slots.Keys == links.Keys
      && (forall k :: k in slots ==> slots[k] in Repr && slots[k].quotas in Repr && k <= lastId)
      && (forall k :: k in slots ==> HoldsAt(k))
    }

    ghost predicate HoldsAt(k: int)
      requires k in slots && k in links
      reads this`slots, this`links, slots[k], slots[k].quotas
    {
      && slots[k].id == k && slots[k].quotas.owner == slots[k]
      && slots[k].Value() == links[k].cell && slots[k].next == links[k].next
    }

    /** A slot set made of one slot. */
    constructor (slot: Slot, policy: Policy)
      requires slot.id == 1 && slot.next == 0 && slot.quotas.owner == slot
      ensures Valid() && chart == Chart([old(slot.Value())], 1) && cache == map[] && this.policy == policy
      ensures Repr == {this, slot, slot.quotas}
    {
      slots := map[1 := slot];
      lastId := 1;
      cache := map[];
      this.policy := policy;
      chart := Chart([slot.Value()], 1);
      links := map[1 := Link(slot.Value(), 0)];
      Repr := {this, slot, slot.quotas};
    }

    /** The object at a position of the list. */
    ghost function At(i: int): Slot
      requires Valid() && 0 <= i < |chart.cells|
      reads this, Repr
    {
      assert LinkedTo(links, chart, i);
      slots[chart.cells[i].id]
    }

    // ------------------------------------------------------------------ cutting one slot

    /** Makes the slot before the job. The new slot takes over the id of the old one, which
        gets a new id and so stays what the list goes on with. */
    method SlotBeforeJob(slot: Slot, task: Task)
      requires Holds() && slot.id in slots && slots[slot.id] == slot
      modifies this`slots, this`lastId, this`links, this`Repr, slot
      ensures Holds() && fresh(Repr - old(Repr))
      ensures lastId == old(lastId) + 1 && slot.id == lastId && slot.id in slots && slots[slot.id] == slot
      ensures SameBut(old(slots), slots, old(slot.id))
      ensures var l := old(links)[old(slot.id)];
              links == old(links)[old(slot.id) := Link(l.cell.(e := task.start - 1), lastId)]
                                 [lastId := Link(l.cell.(id := lastId), l.next)]
    {
      var sid := slot.id;
      lastId := lastId + 1;
      var nextId := lastId;
      assert HoldsAt(sid);
      var before := slot.CutBefore(nextId, task.start - 1);
      slots := slots[sid := before][nextId := slot];
      Repr := Repr + {before, before.quotas};
      links := links[sid := Link(before.Value(), nextId)][nextId := Link(slot.Value(), slot.next)];
      forall k | k in slots ensures HoldsAt(k) {
        if k != sid && k != nextId {
          assert old(HoldsAt(k));
        }
      }
    }

    /** Makes the slot after the job. */
    method SlotAfterJob(slot: Slot, task: Task)
      requires Holds() && slot.id in slots && slots[slot.id] == slot
      modifies this`slots, this`lastId, this`links, this`Repr, slot
      ensures Holds() && fresh(Repr - old(Repr))
      ensures lastId == old(lastId) + 1 && slot.id == old(slot.id) && slot.id in slots && slots[slot.id] == slot
      ensures SameBut(old(slots), slots, slot.id)
      ensures var l := old(links)[slot.id];
              links == old(links)[slot.id := Link(l.cell, lastId)]
                                 [lastId := Link(l.cell.(id := lastId, b := task.start + task.walltime), l.next)]
    {
      lastId := lastId + 1;
      var sid := lastId;
      assert HoldsAt(slot.id);
      var after := slot.CutBehind(sid, task.start + task.walltime);
      slots := slots[sid := after];
      Repr := Repr + {after, after.quotas};
      links := links[slot.id := Link(slot.Value(), sid)][sid := Link(after.Value(), after.next)];
      forall k | k in slots ensures HoldsAt(k) {
        if k != slot.id && k != sid {
          assert old(HoldsAt(k));
        }
      }
    }

    method SubSlotDuringJob(slot: Slot, task: Task)
      requires Holds() && slot.id in slots && slots[slot.id] == slot
      modifies this`links, slot`b, slot`e, slot`itvs, slot`tsItvs, slot`phItvs, slot.quotas`counters
      ensures Holds()
      ensures var l := old(links)[slot.id];
              links == old(links)[slot.id := Link(During(l.cell, task, true, policy), l.next)]
    {
      slot.Sub(task, policy);
      links := links[slot.id := Link(slot.Value(), slot.next)];
      forall k | k in slots ensures HoldsAt(k) {
        assert old(HoldsAt(k));
      }
    }

    method AddSlotDuringJob(slot: Slot, task: Task)
      requires Holds() && slot.id in slots && slots[slot.id] == slot
      modifies this`links, slot`b, slot`e, slot`itvs, slot`tsItvs, slot`phItvs
      ensures Holds()
      ensures var l := old(links)[slot.id];
              links == old(links)[slot.id := Link(During(l.cell, task, false, policy), l.next)]
    {
      slot.Add(task, policy);
      links := links[slot.id := Link(slot.Value(), slot.next)];
      forall k | k in slots ensures HoldsAt(k) {
        assert old(HoldsAt(k));
      }
    }

    method DuringJob(slot: Slot, task: Task, sub: bool)
      requires Holds() && slot.id in slots && slots[slot.id] == slot
      modifies this`links, slot`b, slot`e, slot`itvs, slot`tsItvs, slot`phItvs, slot.quotas`counters
      ensures Holds()
      ensures var l := old(links)[slot.id];
              links == old(links)[slot.id := Link(During(l.cell, task, sub, policy), l.next)]
    {
      if sub {
        SubSlotDuringJob(slot, task);
      } else {
        AddSlotDuringJob(slot, task);
      }
    }

    lemma Held(slot: Slot)
      requires Holds() && slot.id in slots && slots[slot.id] == slot
      ensures slot.id <= lastId && slot.id in links
      ensures var l := links[slot.id]; l.cell.id == slot.id && l.cell.b == slot.b && l.cell.e == slot.e
    {
      assert HoldsAt(slot.id);
    }

    /** The job begins inside the slot: A and B, or A, B and C. */
    method CutInside(slot: Slot, task: Task, sub: bool)
      requires Holds() && slot.id in slots && slots[slot.id] == slot && slot.id in links && slot.b < task.start
      modifies this`slots, this`lastId, this`links, this`Repr, slot, slot.quotas`counters
      ensures Holds() && fresh(Repr - old(Repr))
      ensures var l := old(links)[old(slot.id)];
              var p := Pieces(l.cell, old(lastId), task, sub, policy);
              links == Linked(old(links), p, l.next) && lastId == old(lastId) + |p| - 1
      ensures SameBut(old(slots), slots, old(slot.id)) && slot.id == old(lastId) + 1 && slot.id in slots
      ensures slots[slot.id] == slot
    {
      hide Holds, HoldsAt, Slot.Value, Linked, Entered, Counted;
      Held(slot);
      ghost var l, links0 := links[slot.id], links;
      ghost var before, rest := l.cell.(e := task.start - 1), l.cell.(id := lastId + 1);
      ghost var during := During(rest, task, sub, policy);
      if task.start + task.walltime > slot.e {
        SlotBeforeJob(slot, task);
        DuringJob(slot, task, sub);
        LinkedTwo(links0, before, rest, during, l.next);
      } else {
        ghost var after := l.cell.(id := lastId + 2, b := task.start + task.walltime);
        SlotBeforeJob(slot, task);
        SlotAfterJob(slot, task);
        DuringJob(slot, task, sub);
        LinkedThree(links0, before, rest, during, after, l.next);
      }
    }

    /** The job begins no later than the slot: B alone, or B and C. */
    method CutFromBegin(slot: Slot, task: Task, sub: bool)
      requires Holds() && slot.id in slots && slots[slot.id] == slot && task.start <= slot.b
      modifies this`slots, this`lastId, this`links, this`Repr, slot, slot.quotas`counters
      ensures Holds() && fresh(Repr - old(Repr))
      ensures var l := old(links)[old(slot.id)];
              var p := Pieces(l.cell, old(lastId), task, sub, policy);
              links == Linked(old(links), p, l.next) && lastId == old(lastId) + |p| - 1
      ensures SameBut(old(slots), slots, slot.id) && slot.id == old(slot.id) && slot.id in slots
      ensures slots[slot.id] == slot
    {
      hide Holds, HoldsAt, Slot.Value;
      Held(slot);
      ghost var l, links0 := links[slot.id], links;
      ghost var during := During(l.cell, task, sub, policy);
      if task.start + task.walltime - 1 >= slot.e {
        DuringJob(slot, task, sub);
      } else {
        ghost var after := l.cell.(id := lastId + 1, b := task.start + task.walltime);
        SlotAfterJob(slot, task);
        DuringJob(slot, task, sub);
        LinkedTwo(links0, after, l.cell, during, l.next);
      }
    }

    lemma LinkHere(i: nat)
      requires Valid() && i < |chart.cells|
      ensures var id := chart.cells[i].id;
              && id in slots && slots[id] == At(i) && At(i).id == id && At(i) in Repr && At(i).quotas in Repr
              && id in links && links[id] == Link(chart.cells[i], NextId(chart, i))
              && At(i).b == chart.cells[i].b && At(i).next == NextId(chart, i)
              && At(i).Value() == chart.cells[i] && id > 0
      ensures Holds() && Lists(links, chart) && lastId == chart.lastId
    {
      assert LinkedTo(links, chart, i);
      assert HoldsAt(chart.cells[i].id);
    }

    /** Cuts the slot at a position of the list for a job. */
    method CutSlot(slot: Slot, task: Task, sub: bool, ghost i: nat)
      requires Valid() && i < |chart.cells| && slot == At(i)
      modifies this`slots, this`lastId, this`links, this`Repr, this`chart, slot, slot.quotas`counters
      ensures Valid() && fresh(Repr - old(Repr)) && chart == CutAt(old(chart), i, task, sub, policy)
      ensures SameBut(old(slots), slots, old(slot.id)) && slot.id in slots && slots[slot.id] == slot
      ensures slot.id == if task.start > old(slot.b) then old(lastId) + 1 else old(slot.id)
    {
      hide Holds, HoldsAt, Lists, LinkedTo, Pieces, Linked, Slot.Value;
      LinkHere(i);
      ghost var p := Pieces(chart.cells[i], chart.lastId, task, sub, policy);
      PiecesIds(chart.cells[i], chart.lastId, task, sub, policy);
      ListsReplaced(links, chart, i, p);
      if task.start > slot.b {
        CutInside(slot, task, sub);
      } else {
        CutFromBegin(slot, task, sub);
      }
      chart := Replace(chart, i, p);
    }

    /** What a loop along the list from position `p` to position `q` sees. */
    lemma Follow(p: nat, q: nat)
      requires Valid() && p <= q < |chart.cells|
      ensures forall k :: p <= k <= q ==> Sees(k)
      ensures forall k :: p <= k <= q && chart.cells[k].id == chart.cells[q].id ==> k == q
    {
      forall k: nat | p <= k <= q ensures Sees(k) && (chart.cells[k].id == chart.cells[q].id <==> k == q) {
        LinkHere(k);
        SameIdSamePlace(chart, k, q);
      }
    }

    /** The slot at position `k` is found under its id, with the value it has there. */
    ghost predicate Sees(k: int)
      reads this, Repr
    {
      && 0 <= k < |chart.cells| && chart.cells[k].id in slots
      && slots[chart.cells[k].id] in Repr && slots[chart.cells[k].id].quotas in Repr
      && slots[chart.cells[k].id].Value() == chart.cells[k]
      && slots[chart.cells[k].id].next == NextId(chart, k)
      && chart.cells[k].id > 0
    }

    /** Notes where a variant was found. */
    method Note(ask: Ask, sid: int)
      requires Valid()
      modifies this`cache
      ensures Valid() && cache == old(cache)[ask := sid]
    {
      cache := cache[ask := sid];
    }

    /** Object `o` is the slot at position `q`. */
    ghost predicate Stands(o: Slot, q: int)
      reads this`chart, this`slots
    {
      0 <= q < |chart.cells| && chart.cells[q].id in slots && slots[chart.cells[q].id] == o
    }

    /** The split of the `n` slots from position `p` on, from `sid` to `sidRight`, is still to
        be done, and leads to `goal`, with object `o` at position `m`. */
    ghost predicate ToSplit(sid: int, sidRight: int, task: Task, sub: bool, p: nat, n: nat, goal: Chart, o: Slot,
                            q: nat, m: nat)
      reads this, Repr
    {
      match goal
      case Chart(_, _) =>
        && Valid() && p + n <= |chart.cells|
        && (n > 0 ==> chart.cells[p].id == sid && chart.cells[p+n-1].id == sidRight)
        && Split(chart, p, n, task, sub, policy) == goal
        && Stands(o, q) && Moved(chart, p, n, task, sub, policy, q) == m
    }

    /** Cuts slot `sid`, and finds the next one before that unless it is the last to cut. */
    method SplitNext(sid: int, sidRight: int, task: Task, sub: bool, ghost p: nat, ghost n: nat, ghost goal: Chart,
                     ghost o: Slot, ghost q: nat, ghost m: nat)
      returns (next: int, willBreak: bool, ghost k: nat, ghost q': nat)
      requires n > 0 && ToSplit(sid, sidRight, task, sub, p, n, goal, o, q, m)
      modifies this`slots, this`lastId, this`links, this`Repr, this`chart, Repr - {this}
      ensures ToSplit(next, sidRight, task, sub, k, n - 1, goal, o, q', m) && fresh(Repr - old(Repr))
      ensures (willBreak <==> n == 1)
    {
      hide Holds, HoldsAt, LinkedTo, CutAt, Split, Moved, MovedByCut;
      LinkHere(p);
      SameIdSamePlace(chart, p, p + n - 1);
      ghost var g, before := chart, slots;
      var slot := slots[sid];
      next, willBreak := sid, false;
      if sid == sidRight {
        willBreak := true;
      } else {
        next := slot.next;
      }
      CutSlot(slot, task, sub, p);
      k := NextPlace(g, p, n, task, sub, policy, chart);
      q' := TrackCut(before, slots, g, p, n, task, sub, policy, slot.id, q, chart, k);
    }

    /** Cuts the slots from `sidLeft` to `sidRight` for a job and takes its resources out of
        them, or gives them back. A slot object that is cut becomes the part during the job. */
    method SplitSlots(sidLeft: int, sidRight: int, task: Task, sub: bool, ghost l: nat, ghost r: nat, ghost o: Slot,
                      ghost q: nat)
      requires Valid() && l <= r < |chart.cells| && chart.cells[l].id == sidLeft && chart.cells[r].id == sidRight
      requires Stands(o, q)
      modifies this`slots, this`lastId, this`links, this`Repr, this`chart, Repr - {this}
      ensures Valid() && fresh(Repr - old(Repr))
      ensures chart == Place(old(chart), l, r, task, sub, policy) && l < |chart.cells| && chart.cells[l].id == sidLeft
      ensures Stands(o, Moved(old(chart), l, r - l + 1, task, sub, policy, q))
    {
      hide *;
      var sid := sidLeft;
      var willBreak := false;
      ghost var p: nat, n: nat, at: nat := l, r - l + 1, q;
      ghost var goal := Place(chart, l, r, task, sub, policy);
      ghost var m := Moved(chart, l, r - l + 1, task, sub, policy, q);
      SplitBegins(sid, sidRight, task, sub, l, r, goal, o, q, m);
      while !willBreak
        invariant fresh(Repr - old(Repr)) && (willBreak <==> n == 0)
        invariant ToSplit(sid, sidRight, task, sub, p, n, goal, o, at, m)
        decreases n
      {
        sid, willBreak, p, at := SplitNext(sid, sidRight, task, sub, p, n, goal, o, at, m);
        n := n - 1;
      }
      SplitDone(sid, sidRight, task, sub, p, goal, o, at, m);
    }

    lemma SplitBegins(sid: int, sidRight: int, task: Task, sub: bool, l: nat, r: nat, goal: Chart, o: Slot, q: nat,
                      m: nat)
      requires Valid() && l <= r < |chart.cells| && chart.cells[l].id == sid && chart.cells[r].id == sidRight
      requires Stands(o, q)
      requires goal == Place(chart, l, r, task, sub, policy) && m == Moved(chart, l, r - l + 1, task, sub, policy, q)
      ensures ToSplit(sid, sidRight, task, sub, l, r - l + 1, goal, o, q, m)
      ensures l < |goal.cells| && goal.cells[l].id == sid
    {
      hide Valid, Stands, Split, Moved;
      SplitHead(chart, l, r - l + 1, task, sub, policy, goal);
    }

    lemma SplitDone(sid: int, sidRight: int, task: Task, sub: bool, p: nat, goal: Chart, o: Slot, q: nat, m: nat)
      requires ToSplit(sid, sidRight, task, sub, p, 0, goal, o, q, m)
      ensures Valid() && chart == goal && Stands(o, m)
    {
    }

    // ---------------------------------------------------------------- many jobs in one sweep

    /** Slot `slot` with the left end `left` is where the sweep stands. */
    ghost predicate StandsAt(c: Cursor, slot: Slot, left: int)
      reads this, Repr
    {
      Valid() && c.chart == chart && OnChart(c) && Stands(slot, c.at) && chart.cells[c.left].id == left
    }

    /** Goes on to the first slot that begins after `start` or holds it; fails with a missing
        key at the end of the list. */
    method SeekLeftSlot(slot: Slot, left: int, start: int, ghost l: nat, ghost at: nat)
      returns (failed: bool, slot': Slot, left': int, ghost l': nat, ghost at': nat)
      requires StandsAt(Cursor(chart, l, at), slot, left)
      ensures SeekLeft(chart, l, at, start) == if failed then None else Some((l', at'))
      ensures !failed ==> StandsAt(Cursor(chart, l', at'), slot', left')
    {
      failed, slot', left', l', at' := false, slot, left, l, at;
      Follow(0, |chart.cells| - 1);
      hide Holds, Lists, LinkedTo;
      assert Sees(at');
      while !(slot'.b > start || (slot'.b <= start && start <= slot'.e))
        invariant StandsAt(Cursor(chart, l', at'), slot', left') && Sees(at')
        invariant SeekLeft(chart, l, at, start) == SeekLeft(chart, l', at', start)
        decreases |chart.cells| - at'
      {
        left' := slot'.next;
        if left' == 0 {
          failed := true;
          return;
        }
        assert Sees(at' + 1);
        slot' := slots[left'];
        l', at' := at' + 1, at' + 1;
      }
    }

    /** Goes on to the first slot that lasts until `stop`. */
    method SeekRightSlot(slot: Slot, right: int, stop: int, ghost r: nat, ghost at: nat)
      returns (failed: bool, slot': Slot, right': int, ghost r': nat, ghost at': nat)
      requires StandsAt(Cursor(chart, r, at), slot, right)
      ensures SeekRight(chart, r, at, stop) == if failed then None else Some((r', at'))
      ensures !failed ==> StandsAt(Cursor(chart, r', at'), slot', right')
    {
      failed, slot', right', r', at' := false, slot, right, r, at;
      Follow(0, |chart.cells| - 1);
      hide Holds, Lists, LinkedTo;
      assert Sees(at');
      while !(slot'.e >= stop)
        invariant StandsAt(Cursor(chart, r', at'), slot', right') && Sees(at')
        invariant SeekRight(chart, r, at, stop) == SeekRight(chart, r', at', stop)
        decreases |chart.cells| - at'
      {
        right' := slot'.next;
        if right' == 0 {
          failed := true;
          return;
        }
        assert Sees(at' + 1);
        slot' := slots[right'];
        r', at' := at' + 1, at' + 1;
      }
    }

    /** One job of the sweep. */
    method SweepOne(slot: Slot, left: int, task: Task, sub: bool, ghost c: Cursor)
      returns (failed: bool, slot': Slot, left': int, ghost c': Cursor)
      requires StandsAt(c, slot, left)
      modifies this`slots, this`lastId, this`links, this`Repr, this`chart, Repr - {this}
      ensures Valid() && fresh(Repr - old(Repr)) && OnChart(c) && OnChart(c')
      ensures SweepJob(c, task, sub, policy) == if failed then None else Some(c')
      ensures !failed ==> StandsAt(c', slot', left')
    {
      hide Valid, Moved, Split;
      ghost var l, at, r, q;
      c' := c;
      failed, slot', left', l, at := SeekLeftSlot(slot, left, task.start, c.left, c.at);
      if failed {
        return;
      }
      var right;
      failed, slot', right, r, q := SeekRightSlot(slot', left', task.start + task.walltime, l, at);
      if failed {
        return;
      }
      ghost var g := chart;
      MovedInside(g, l, r - l + 1, task, sub, policy, q, Place(g, l, r, task, sub, policy));
      SplitSlots(left', right, task, sub, l, r, slot', q);
      c' := Cursor(chart, l, Moved(g, l, r - l + 1, task, sub, policy, q));
    }

    /** Takes the resources of the jobs out of the slots, or gives them back in reverse
        order, in one sweep over the list. Fails where the program would. */
    method SplitSlotsJobs(orderedJobs: seq<Task>, sub: bool) returns (failed: bool)
      requires Valid() && chart.cells[0].id == 1
      modifies this`slots, this`lastId, this`links, this`Repr, this`chart, Repr - {this}
      ensures Valid() && fresh(Repr - old(Repr)) && |old(chart.cells)| >= 1
      ensures SweepJobs(Cursor(old(chart), 0, 0), if sub then orderedJobs else Reversed(orderedJobs), sub, policy)
           == if failed then None else Some(chart)
    {
      hide *;
      SweepBegins();
      var slot, left := slots[1], 1;
      var jobs := if sub then orderedJobs else Reversed(orderedJobs);
      var k := 0;
      ghost var c, begin := Cursor(chart, 0, 0), Cursor(chart, 0, 0);
      assert jobs[0..] == jobs;
      while k < |jobs|
        invariant k <= |jobs| && fresh(Repr - old(Repr)) && StandsAt(c, slot, left) && OnChart(c)
        invariant SweepJobs(begin, jobs, sub, policy) == SweepJobs(c, jobs[k..], sub, policy)
        decreases |jobs| - k
      {
        SweepJobsStep(c, jobs, k, sub, policy);
        failed, slot, left, c := SweepOne(slot, left, jobs[k], sub, c);
        if failed {
          return;
        }
        k := k + 1;
      }
      SweepEnds(c, jobs[k..], sub, slot, left);
      failed := false;
    }

    lemma SweepBegins()
      requires Valid() && chart.cells[0].id == 1
      ensures |chart.cells| >= 1 && 1 in slots && OnChart(Cursor(chart, 0, 0))
      ensures StandsAt(Cursor(chart, 0, 0), slots[1], 1)
    {
      LinkHere(0);
    }

    lemma SweepEnds(c: Cursor, rest: seq<Task>, sub: bool, slot: Slot, left: int)
      requires StandsAt(c, slot, left) && OnChart(c) && rest == []
      ensures Valid() && SweepJobs(c, rest, sub, policy) == Some(chart)
    {
    }

    // ------------------------------------------------------------------- temporal slicing

    /** Puts a slot under the rules `id`. */
    method Label(slot: Slot, id: int, ghost i: nat)
      requires Holds() && Valid() && i < |chart.cells| && slot == At(i)
      modifies slot`rulesId, this`links, this`chart
      ensures Valid() && chart == Replace(old(chart), i, [old(chart).cells[i].(rulesId := id)])
    {
      hide Lists, LinkedTo;
      LinkHere(i);
      ghost var p := [chart.cells[i].(rulesId := id)];
      ListsReplaced(links, chart, i, p);
      slot.rulesId := id;
      links := links[slot.id := Link(p[0], slot.next)];
      chart := Replace(chart, i, p);
    }

    /** Ends a slot when its rules end, and makes a new one of the rest. */
    method Halve(slot: Slot, rules: Period) returns (rest: Slot)
      requires Holds() && slot.id in slots && slots[slot.id] == slot && slot.id in links
      modifies this`slots, this`lastId, this`links, this`Repr, slot
      ensures Holds() && fresh(Repr - old(Repr)) && fresh(rest) && lastId == old(lastId) + 1
      ensures rest.id == lastId && lastId in slots && slots[lastId] == rest
      ensures var l := old(links)[old(slot.id)]; var p := Halves(l.cell, old(lastId), rules);
              links == old(links)[lastId := Link(p[1], l.next)][old(slot.id) := Link(p[0], lastId)]
    {
      Held(slot);
      lastId := lastId + 1;
      rest := slot.Shorten(lastId, rules);
      slots := slots[lastId := rest];
      Repr := Repr + {rest, rest.quotas};
      links := links[lastId := Link(rest.Value(), rest.next)][slot.id := Link(slot.Value(), lastId)];
      forall k | k in slots ensures HoldsAt(k) {
        if k != slot.id && k != lastId {
          assert old(HoldsAt(k));
        }
      }
    }

    /** Cuts the slot at a position of the list where its rules end, to go on with the rest. */
    method CutOff(slot: Slot, rules: Period, ghost i: nat) returns (rest: Slot)
      requires Valid() && i < |chart.cells| && slot == At(i)
      modifies this`slots, this`lastId, this`links, this`Repr, this`chart, slot
      ensures Valid() && fresh(Repr - old(Repr)) && fresh(rest)
      ensures chart == Replace(old(chart), i, Halves(old(chart).cells[i], old(chart).lastId, rules))
      ensures i + 1 < |chart.cells| && rest == At(i + 1)
    {
      hide Holds, HoldsAt, Lists, LinkedTo, Linked, Slot.Value;
      LinkHere(i);
      ghost var p := Halves(chart.cells[i], chart.lastId, rules);
      ReplaceCells(chart, i, p);
      ListsReplaced(links, chart, i, p);
      LinkedHalves(links, p, NextId(chart, i));
      rest := Halve(slot, rules);
      chart := Replace(chart, i, p);
      assert chart.cells[i+1] == p[1];
    }

    /** Cuts a slot where the rules change, so that each part is under one rule. Returns the
        rules of the last part and how much longer they last. */
    method TemporalQuotasSplitSlot(first: Slot, quotasRulesId: int, remainingDuration: int, cal: Calendar, ghost i: nat)
      returns (rulesId: int, remaining: int)
      requires Valid() && i < |chart.cells| && first == At(i) && remainingDuration >= 1 && NeverNegative(cal)
      modifies this`slots, this`lastId, this`links, this`Repr, this`chart, Repr - {this}
      ensures Valid() && fresh(Repr - old(Repr))
      ensures Slice(old(chart), i, Period(quotasRulesId, remainingDuration), cal)
           == Sliced(chart, Period(rulesId, remaining))
    {
      var slot := first;
      rulesId, remaining := quotasRulesId, remainingDuration;
      ghost var k: nat, goal := i, Slice(chart, i, Period(quotasRulesId, remainingDuration), cal);
      while true
        invariant Valid() && fresh(Repr - old(Repr)) && k < |chart.cells| && slot == At(k) && remaining >= 1
        invariant Slice(chart, k, Period(rulesId, remaining), cal) == goal
        decreases Length(chart.cells[k])
      {
        LinkHere(k);
        var slotDuration := slot.e - slot.b + 1;
        if slotDuration <= remaining {
          Label(slot, rulesId, k);
          remaining := remaining - slotDuration;
          return;
        }
        ghost var now := Period(rulesId, remaining);
        SliceUnfold(chart, k, now, cal, Replace(chart, k, Halves(chart.cells[k], chart.lastId, now)));
        slot := CutOff(slot, Period(rulesId, remaining), k);
        k := k + 1;
        LinkHere(k);
        var next := cal(slot.b);
        rulesId, remaining := next.id, next.duration;
        if remaining == 0 {
          return;
        }
      }
    }

    /** Slices all slots of a new slot set along the calendar, whose rules at the begin of slot 1
        are given: slot by slot, as long as the rules of the last one go on behind it. */
    method SliceAll(quotasRulesId: int, remainingDuration: int, cal: Calendar)
      requires Valid() && chart.cells[0].id == 1 && remainingDuration >= 0 && NeverNegative(cal)
      modifies this`slots, this`lastId, this`links, this`Repr, this`chart, Repr - {this}
      ensures Valid() && fresh(Repr - old(Repr))
      ensures chart == SliceFrom(old(chart), 0, Period(quotasRulesId, remainingDuration), cal).chart
    {
      hide *;
      IdsArePositive();
      var i, rulesId, remaining := 1, quotasRulesId, remainingDuration;
      ghost var k: nat, goal := 0, SliceFrom(chart, 0, Period(quotasRulesId, remainingDuration), cal);
      while i != 0 && remaining != 0
        invariant Valid() && fresh(Repr - old(Repr)) && k <= |chart.cells| && remaining >= 0
        invariant i == IdAt(chart, k) && (i == 0 <==> k == |chart.cells|)
        invariant SliceFrom(chart, k, Period(rulesId, remaining), cal) == goal
        decreases |chart.cells| - k
      {
        ghost var g, rules := chart, Period(rulesId, remaining);
        LinkAt(k);
        var slot := slots[i];
        i := slot.next;
        rulesId, remaining := TemporalQuotasSplitSlot(slot, rulesId, remaining, cal, k);
        k := SliceFromStep(g, k, rules, cal, Sliced(chart, Period(rulesId, remaining)));
        IdsArePositive();
      }
      SliceFromEnds(chart, k, Period(rulesId, remaining), cal);
    }

    lemma IdsArePositive()
      requires Valid()
      ensures |chart.cells| >= 1 && IdAt(chart, 0) == chart.cells[0].id
      ensures forall k: nat :: k <= |chart.cells| ==> (IdAt(chart, k) == 0 <==> k == |chart.cells|)
    {
    }

    lemma LinkAt(k: nat)
      requires Valid() && k < |chart.cells|
      ensures IdAt(chart, k) in slots && slots[IdAt(chart, k)] == At(k) && At(k).next == IdAt(chart, k + 1)
    {
      LinkHere(k);
    }
  }

  lemma LinkedHalves(links: map<int, Link>, p: seq<Cell>, next: int)
    requires |p| == 2
    ensures Linked(links, p, next) == links[p[1].id := Link(p[1], next)][p[0].id := Link(p[0], p[1].id)]
  {
    assert p[1..] == [p[1]];
    assert Linked(links, [p[1]], next) == links[p[1].id := Link(p[1], next)];
  }

  /** The slot at `q` after the slot at `p` was cut. */
  lemma TrackCut(before: map<int, Slot>, after: map<int, Slot>, g: Chart, p: nat, n: nat, task: Task, sub: bool,
                 policy: Policy,
                 newId: int, q: nat, h: Chart, k: nat) returns (q': nat)
    requires ProperIds(g) && 0 < n && p + n <= |g.cells| && q < |g.cells| && g.cells[p].id in before
    requires g.cells[q].id in before
    requires SameBut(before, after, g.cells[p].id)
    requires newId == if task.start > g.cells[p].b then g.lastId + 1 else g.cells[p].id
    requires newId in after && after[newId] == before[g.cells[p].id]
    requires h == CutAt(g, p, task, sub, policy) && k == p + 1 + |h.cells| - |g.cells| && k + n - 1 <= |h.cells|
    ensures q' < |h.cells| && h.cells[q'].id in after && after[h.cells[q'].id] == before[g.cells[q].id]
    ensures Moved(h, k, n - 1, task, sub, policy, q') == Moved(g, p, n, task, sub, policy, q)
  {
    hide Moved, MovedByCut, Pieces, CutAt, Split;
    q' := if q < p then q else MovedByCut(g, p, task, sub, policy, q);
    CutId(g, p, task, sub, policy, h);
    CutHead(g, p, task, sub, policy, h);
    var h', k' := CutAtTail(g, p, task, sub, policy);
    if q >= p {
      MovedUnfold(g, p, n, task, sub, policy, q, h, k);
    } else {
      MovedBefore(g, p, n, task, sub, policy, q);
      MovedBefore(h, k, n - 1, task, sub, policy, q);
    }
  }

  /** The part during the job has a new id if there is one before it. */
  lemma CutId(g: Chart, p: nat, task: Task, sub: bool, policy: Policy, h: Chart)
    requires p < |g.cells| && h == CutAt(g, p, task, sub, policy)
    ensures var m := MovedByCut(g, p, task, sub, policy, p);
            m < |h.cells| && h.cells[m].id == if task.start > g.cells[p].b then g.lastId + 1 else g.cells[p].id
  {
    var pieces := Pieces(g.cells[p], g.lastId, task, sub, policy);
    var m := MovedByCut(g, p, task, sub, policy, p);
    CutAtReplaced(g, p, task, sub, policy);
    assert h.cells[m] == pieces[m-p];
  }

  lemma CutHead(g: Chart, i: nat, task: Task, sub: bool, policy: Policy, h: Chart)
    requires i < |g.cells| && h == CutAt(g, i, task, sub, policy)
    ensures i < |h.cells| && |h.cells| >= |g.cells| && forall j :: 0 <= j <= i ==> h.cells[j].id == g.cells[j].id
  {
    CutAtReplaced(g, i, task, sub, policy);
  }

  lemma {:induction false} SplitHead(g: Chart, i: nat, n: nat, task: Task, sub: bool, policy: Policy, out: Chart)
    requires i + n <= |g.cells| && out == Split(g, i, n, task, sub, policy)
    ensures |out.cells| >= |g.cells| && forall j :: 0 <= j < i + (if n > 0 then 1 else 0) ==>
      out.cells[j].id == g.cells[j].id
    decreases n
  {
    if n > 0 {
      var h, k := CutAtTail(g, i, task, sub, policy);
      SplitUnfold(g, i, n, task, sub, policy, h, k);
      CutHead(g, i, task, sub, policy, h);
      hide Split, CutAt;
      SplitHead(h, k, n - 1, task, sub, policy, out);
    }
  }

  /** Where the split goes on after the slot at `p` was cut. */
  lemma NextPlace(g: Chart, p: nat, n: nat, task: Task, sub: bool, policy: Policy, h: Chart) returns (k: nat)
    requires n > 0 && p + n <= |g.cells| && h == CutAt(g, p, task, sub, policy)
    ensures k == p + 1 + |h.cells| - |g.cells| && k + n - 1 <= |h.cells|
    ensures forall j :: k <= j < k + n - 1 ==> h.cells[j] == g.cells[j-k+p+1]
    ensures Split(g, p, n, task, sub, policy) == Split(h, k, n - 1, task, sub, policy)
  {
    var h', k' := CutAtTail(g, p, task, sub, policy);
    k := k';
    SplitUnfold(g, p, n, task, sub, policy, h, k);
  }

  lemma SameIdSamePlace(g: Chart, i: nat, j: nat)
    requires ProperIds(g) && i <= j < |g.cells|
    ensures g.cells[i].id == g.cells[j].id <==> i == j
  {
  }
}
