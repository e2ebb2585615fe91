/** Counting used resource-seconds into windows (oar/lib/accounting.py). The database table
    is a map from the columns a row is looked up by to its consumption.
 */
module Accounting {
  import opened Options

  /** What a row is about. */
  datatype Payer = Payer(user: string, project: string, queue: string, cType: string)

  datatype Row = Row(payer: Payer, start: int, stop: int)

  type Table = map<Row, int>

  /** A period during which `nb` resources were used. */
  datatype Usage = Usage(start: int, stop: int, payer: Payer, nb: int)

  function ValueAt(t: Table, row: Row): int {
    if row in t then t[row] else 0
  }

  function Added(t: Table, row: Row, consumption: int): Table {
    t[row := ValueAt(t, row) + consumption]
  }

  /** Resource-seconds. */
  function Worth(seconds: int, nb: int): int {
    seconds * nb
  }

  lemma WorthAdds(a: int, b: int, nb: int)
    ensures Worth(a, nb) + Worth(b, nb) == Worth(a + b, nb) && Worth(0, nb) == 0
  {
  }

  /** Division that drops the fraction, towards zero. */
  function Truncated(a: int, b: int): int
    requires b > 0
  {
    if a >= 0 then a / b else -((-a) / b)
  }

  /** The windows from the one that begins at `w` on, for a usage from `start` on. */
  function Counted(t: Table, u: Usage, start: int, w: int, size: int): Table
    requires size > 0 && start < w + size
    decreases u.stop - start
  {
    if u.stop <= start then t
    else
      var last := w + size - 1;
      var consumption := if u.stop <= last then u.stop - start else last - start + 1;
      Counted(Added(t, Row(u.payer, w, last), Worth(consumption, u.nb)), u, last + 1, last + 1, size)
  }

  function FirstWindow(start: int, size: int): int
    requires size > 0
    ensures start < FirstWindow(start, size) + size
  {
    Truncated(start, size) * size
  }

  function Updated(t: Table, u: Usage, size: int): Table
    requires size > 0
  {
    Counted(t, u, u.start, FirstWindow(u.start, size), size)
  }

  class AccountingTable {
    var rows: Table

    constructor ()
      ensures rows == map[]
    {
      rows := map[];
    }

    /** Inserts a row, or adds to it. */
    method AddAccountingRow(row: Row, consumption: int)
      modifies this
      ensures rows == Added(old(rows), row, consumption)
    {
      if row in rows {
        rows := rows[row := consumption + rows[row]];
      } else {
        rows := rows[row := consumption];
      }
    }

    method UpdateAccounting(u: Usage, size: int)
      requires size > 0
      modifies this
      ensures rows == Updated(old(rows), u, size)
    {
      var start := u.start;
      var windowStart := FirstWindow(start, size);
      var windowStop := windowStart + size - 1;
      while u.stop > start
        invariant windowStop == windowStart + size - 1 && start <= windowStop
        invariant Counted(rows, u, start, windowStart, size) == Updated(old(rows), u, size)
        decreases u.stop - start
      {
        var consumption := if u.stop <= windowStop then u.stop - start else windowStop - start + 1;
        consumption := consumption * u.nb;
        AddAccountingRow(Row(u.payer, windowStart, windowStop), consumption);
        windowStart := windowStop + 1;
        start := windowStart;
        windowStop := windowStop + size;
      }
    }
  }

  // ---------------------------------------------------------------- what is in each row

  /** How many instants from `start` up to but not including `stop` are in the window. */
  function Overlap(start: int, stop: int, w: int, size: int): int {
    Max(0, Min(stop, w + size) - Max(start, w))
  }

  predicate Aligned(w: int, size: int)
    requires size > 0
  {
    w % size == 0
  }

  predicate IsWindow(row: Row, size: int)
    requires size > 0
  {
    Aligned(row.start, size) && row.stop == row.start + size - 1
  }

  /** What a usage from `start` on contributes to a row. */
  function Share(u: Usage, row: Row, start: int, size: int): int
    requires size > 0
  {
    if row.payer == u.payer && IsWindow(row, size) then Worth(Overlap(start, u.stop, row.start, size), u.nb) else 0
  }

  lemma TimesSize(d: int, size: int)
    requires size > 0
    ensures d >= 1 ==> d * size >= size
    ensures d <= -1 ==> d * size <= -size
  {
    if d >= 1 {
      assert (d - 1) * size >= 0;
    } else if d <= -1 {
      assert (-d - 1) * size >= 0;
    }
  }

  lemma OneRest(q: int, r: int, q': int, r': int, size: int)
    requires size > 0 && 0 <= r < size && 0 <= r' < size && q * size + r == q' * size + r'
    ensures r == r'
  {
    assert (q - q') * size == q * size - q' * size;
    TimesSize(q - q', size);
  }

  lemma RestOf(q: int, r: int, size: int)
    requires 0 <= r < size
    ensures (q * size + r) % size == r
  {
    var a := q * size + r;
    OneRest(q, r, a / size, a % size, size);
  }

  lemma MultipleIsAligned(k: int, size: int)
    requires size > 0
    ensures (k * size) % size == 0
  {
    RestOf(k, 0, size);
  }

  lemma NextAligned(w: int, size: int)
    requires size > 0 && Aligned(w, size)
    ensures Aligned(w + size, size)
  {
    var k := w / size;
    assert w + size == (k + 1) * size;
    MultipleIsAligned(k + 1, size);
  }

  lemma LessTimes(a: int, b: int, size: int)
    requires size > 0 && a * size < b * size
    ensures a * size + size <= b * size
  {
    assert (b - a) * size == b * size - a * size;
    TimesSize(b - a, size);
  }

  lemma AlignedApart(v: int, w: int, size: int)
    requires size > 0 && Aligned(v, size) && Aligned(w, size) && v < w
    ensures v + size <= w
  {
    assert v == v / size * size && w == w / size * size;
    LessTimes(v / size, w / size, size);
  }

  /** One window: the rest of the usage goes on in the next. */
  lemma ShareSplits(u: Usage, row: Row, start: int, w: int, size: int)
    requires size > 0 && Aligned(w, size) && w <= start < w + size && start < u.stop
    ensures Share(u, row, start, size)
         == Share(u, row, w + size, size)
          + (if row == Row(u.payer, w, w + size - 1) then Worth(Min(u.stop, w + size) - start, u.nb) else 0)
  {
    hide Worth, Aligned;
    WorthAdds(0, 0, u.nb);
    if row.payer == u.payer && IsWindow(row, size) {
      if row.start < w {
        AlignedApart(row.start, w, size);
      } else if row.start > w {
        AlignedApart(w, row.start, size);
      }
    }
  }

  lemma {:induction false} CountedRow(t: Table, u: Usage, start: int, w: int, size: int, row: Row)
    requires size > 0 && Aligned(w, size) && w <= start < w + size
    ensures ValueAt(Counted(t, u, start, w, size), row) == ValueAt(t, row) + Share(u, row, start, size)
    decreases u.stop - start
  {
    hide Worth, Aligned;
    if u.stop > start {
      var last := w + size - 1;
      var consumption := if u.stop <= last then u.stop - start else last - start + 1;
      var t' := Added(t, Row(u.payer, w, last), Worth(consumption, u.nb));
      NextAligned(w, size);
      CountedRow(t', u, last + 1, last + 1, size, row);
      ShareSplits(u, row, start, w, size);
      assert consumption == Min(u.stop, w + size) - start;
    } else {
      WorthAdds(0, 0, u.nb);
    }
  }

  lemma TruncatedDown(a: int, size: int)
    requires size > 0
    ensures Truncated(a, size) * size <= a <==> a >= 0 || a % size == 0
  {
    if a < 0 {
      var q, r := (-a) / size, (-a) % size;
      assert -a == q * size + r;
      assert -q * size == -(q * size);
      if r == 0 {
        assert a == -q * size;
        MultipleIsAligned(-q, size);
      } else {
        assert a == (-q - 1) * size + (size - r);
        RestOf(-q - 1, size - r, size);
      }
    }
  }

  lemma FirstWindowHolds(start: int, size: int)
    requires size > 0
    ensures Aligned(FirstWindow(start, size), size)
    ensures FirstWindow(start, size) <= start <==> start >= 0 || start % size == 0
  {
    MultipleIsAligned(Truncated(start, size), size);
    TruncatedDown(start, size);
  }

  predicate InWindow(x: int, row: Row) {
    row.start <= x <= row.stop
  }

  /** The instants of a usage that are in the window of a row. */
  function Instants(u: Usage, row: Row): set<int> {
    set x | u.start <= x < u.stop && InWindow(x, row)
  }

  /** What a usage must add to a row: its resources for each instant of it in the window, if the
      row is one of its payer and of a window of this size. */
  function Used(u: Usage, row: Row, size: int): int
    requires size > 0
  {
    if row.payer == u.payer && row.start % size == 0 && row.stop == row.start + size - 1
    then u.nb * |Instants(u, row)|
    else 0
  }

  lemma {:induction false} IntervalSize(a: int, b: int, s: set<int>)
    requires forall x :: x in s <==> a <= x < b
    ensures |s| == Max(0, b - a)
    decreases b - a
  {
    if a < b {
      IntervalSize(a + 1, b, s - {a});
    } else {
      assert s == {};
    }
  }

  lemma UsedIsShare(u: Usage, row: Row, size: int)
    requires size > 0
    ensures Used(u, row, size) == Share(u, row, u.start, size)
  {
    if row.stop == row.start + size - 1 {
      IntervalSize(Max(u.start, row.start), Min(u.stop, row.start + size), Instants(u, row));
    }
  }

  /** Whether an update adds to every row what the usage must add. */
  ghost predicate RowsExact(t: Table, u: Usage, size: int)
    requires size > 0
  {
    forall row :: ValueAt(Updated(t, u, size), row) == ValueAt(t, row) + Used(u, row, size)
  }

  /** An update adds to every row the resources times the instants of the usage in its window
      exactly when the first window is the one the usage begins in. For a usage that begins at a
      negative time that is no border of windows, the division is rounded up and the window after
      it gets too much. */
  lemma UpdateIsExact(t: Table, u: Usage, size: int)
    requires size > 0 && u.nb > 0
    ensures RowsExact(t, u, size) <==> u.stop <= u.start || u.start >= 0 || u.start % size == 0
  {
    hide Used, Share, Counted, Worth;
    var w := FirstWindow(u.start, size);
    FirstWindowHolds(u.start, size);
    if w <= u.start {
      forall row ensures ValueAt(Updated(t, u, size), row) == ValueAt(t, row) + Used(u, row, size) {
        CountedRow(t, u, u.start, w, size, row);
        UsedIsShare(u, row, size);
      }
    } else if u.stop <= u.start {
      NothingUsed(t, u, size);
    } else {
      TooMuch(t, u, w, size);
      UsedIsShare(u, Row(u.payer, w, w + size - 1), size);
    }
  }

  lemma NothingUsed(t: Table, u: Usage, size: int)
    requires size > 0 && u.stop <= u.start
    ensures Updated(t, u, size) == t && forall row :: Used(u, row, size) == 0
  {
    forall row ensures Used(u, row, size) == 0 {
      assert Instants(u, row) == {};
    }
  }

  lemma TooMuch(t: Table, u: Usage, w: int, size: int)
    requires size > 0 && u.nb > 0 && u.start < u.stop && w == FirstWindow(u.start, size) && u.start < w
    requires Aligned(w, size)
    ensures var row := Row(u.payer, w, w + size - 1);
            ValueAt(Updated(t, u, size), row) > ValueAt(t, row) + Share(u, row, u.start, size)
  {
    hide Worth, Aligned, FirstWindow;
    var last := w + size - 1;
    var row := Row(u.payer, w, last);
    var consumption := if u.stop <= last then u.stop - u.start else last - u.start + 1;
    var t' := Added(t, row, Worth(consumption, u.nb));
    NextAligned(w, size);
    CountedRow(t', u, last + 1, last + 1, size, row);
    WorthAdds(0, 0, u.nb);
    MoreIsWorthMore(Overlap(u.start, u.stop, w, size), consumption, u.nb);
  }

  lemma MoreIsWorthMore(a: int, b: int, nb: int)
    requires a < b && nb > 0
    ensures Worth(a, nb) < Worth(b, nb)
  {
    assert (b - a) * nb > 0;
  }

  // --------------------------------------------------------------------- many updates

  function AllUpdated(t: Table, us: seq<Usage>, size: int): Table
    requires size > 0
    decreases |us|
  {
    if us == [] then t else Updated(AllUpdated(t, us[..|us|-1], size), us[|us|-1], size)
  }

  function SumUsed(us: seq<Usage>, row: Row, size: int): int
    requires size > 0
    decreases |us|
  {
    if us == [] then 0 else SumUsed(us[..|us|-1], row, size) + Used(us[|us|-1], row, size)
  }

  /** After any updates for jobs that began at no negative time, every row has the sum, over all
      of them, of the resources times the instants in its window. */
  lemma {:induction false} RowsAreSums(us: seq<Usage>, size: int, row: Row)
    requires size > 0 && forall k :: 0 <= k < |us| ==> us[k].start >= 0
    ensures ValueAt(AllUpdated(map[], us, size), row) == SumUsed(us, row, size)
    decreases |us|
  {
    if us != [] {
      var u := us[|us|-1];
      RowsAreSums(us[..|us|-1], size, row);
      FirstWindowHolds(u.start, size);
      CountedRow(AllUpdated(map[], us[..|us|-1], size), u, u.start, FirstWindow(u.start, size), size, row);
      UsedIsShare(u, row, size);
    }
  }

  // ------------------------------------------------------------------------------ totals

  /** The sum of all rows. */
  ghost function Total(t: Table): int
    decreases t.Keys
  {
    if t.Keys == {} then 0
    else
      var row :| row in t.Keys;
      t[row] + Total(t - {row})
  }

  lemma {:induction false} TotalWithout(t: Table, row: Row)
    requires row in t
    ensures Total(t) == t[row] + Total(t - {row})
    decreases t.Keys
  {
    assert t.Keys != {};
    var first :| first in t.Keys && Total(t) == t[first] + Total(t - {first});
    if first != row {
      TotalWithout(t - {first}, row);
      TotalWithout(t - {row}, first);
      assert t - {first} - {row} == t - {row} - {first};
    }
  }

  lemma TotalAdded(t: Table, row: Row, consumption: int)
    ensures Total(Added(t, row, consumption)) == Total(t) + consumption
  {
    var t' := Added(t, row, consumption);
    TotalWithout(t', row);
    if row in t {
      TotalWithout(t, row);
      assert t' - {row} == t - {row};
    } else {
      assert t' - {row} == t;
    }
  }

  lemma {:induction false} CountedTotal(t: Table, u: Usage, start: int, w: int, size: int)
    requires size > 0 && start < w + size
    ensures Total(Counted(t, u, start, w, size)) == Total(t) + Worth(Max(0, u.stop - start), u.nb)
    decreases u.stop - start
  {
    hide Worth, Total;
    if u.stop > start {
      var last := w + size - 1;
      var consumption := if u.stop <= last then u.stop - start else last - start + 1;
      var t' := Added(t, Row(u.payer, w, last), Worth(consumption, u.nb));
      TotalAdded(t, Row(u.payer, w, last), Worth(consumption, u.nb));
      CountedTotal(t', u, last + 1, last + 1, size);
      WorthAdds(consumption, Max(0, u.stop - (last + 1)), u.nb);
    } else {
      WorthAdds(0, 0, u.nb);
    }
  }

  /** Whatever the start, an update adds to all rows together the resources times the
      duration: nothing is lost and nothing is counted twice. */
  lemma UpdateConserves(t: Table, u: Usage, size: int)
    requires size > 0
    ensures Total(Updated(t, u, size)) == Total(t) + if u.start < u.stop then u.nb * (u.stop - u.start) else 0
  {
    CountedTotal(t, u, u.start, FirstWindow(u.start, size), size);
  }
}
