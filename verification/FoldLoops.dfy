/**
 * The loops that fold one terminal work: over the rows of its minute, over its contributions, and
 * over its attempts in the lifetime and in its month.
 */
module FoldLoops {
  import opened Common
  import opened Facts
  import opened Aggregates
  import opened Coverages
  import opened Minutes
  import opened Packets
  import opened Days
  import opened Rollups

  /** The row scan of `findRow`. */
  method FindRowIndex(rows: seq<Row>, key: RowKey) returns (i: nat)
    ensures i == IndexOf(rows, key)
  {
    i := 0;
    while i < |rows| && rows[i].key != key
      invariant i <= |rows| && forall j :: 0 <= j < i ==> rows[j].key != key
    {
      i := i + 1;
    }
    IndexIsFirst(rows, key, i);
  }

  lemma {:induction false} IndexIsFirst(rows: seq<Row>, key: RowKey, i: nat)
    requires i <= |rows| && (forall j :: 0 <= j < i ==> rows[j].key != key)
    requires i < |rows| ==> rows[i].key == key
    ensures IndexOf(rows, key) == i
  {
  }

  /** `countDayRows`. */
  method CountDayRows(d: Day) returns (count: nat)
    ensures count == DayRows(d)
  {
    count := 0;
    for m := 0 to MINUTES_A_DAY
      invariant count == RowsUpTo(d.cells, m)
    {
      if m in d.cells { count := count + |d.cells[m].rows|; }
    }
  }

  /** The contributions of one work to its minute, one after the other. */
  method FoldIntoMinute(c: Cell, budget: nat, fs: seq<Fold>) returns (s: Progress)
    ensures s == ApplyAll(Progress(c, budget, true), fs)
  {
    s := Progress(c, budget, true);
    for i := 0 to |fs|
      invariant s == ApplyAll(Progress(c, budget, true), fs[..i])
    {
      assert fs[..i + 1][..i] == fs[..i];
      s := FoldOne(s, fs[i]);
    }
    assert fs[..|fs|] == fs;
  }

  /** Root, row lookup, row: each later fold runs only while every earlier one was exact. */
  method FoldOne(s: Progress, f: Fold) returns (t: Progress)
    ensures t == ApplyOne(s, f)
  {
    hide RootStep, RowStep, DropRow;
    var cell, budget, exact := s.cell, s.budget, s.exact;
    if exact {
      var r := RootStep(cell.aggregate, f);
      cell, exact := cell.(aggregate := r.agg), r.exact;
    }
    var i := FindRowIndex(cell.rows, f.key);
    if i == |cell.rows| {
      if |cell.rows| >= MAX_ROWS_PER_CELL || budget == 0 {
        cell := cell.(coverage := DropRow(cell.coverage));
      } else {
        FreshIndex(cell.rows, f.key);
        cell, budget := cell.(rows := cell.rows + [Row(f.key, EMPTY_AGGREGATE)]), budget - 1;
      }
    }
    if i < |cell.rows| && exact {
      var r := RowStep(cell.rows[i].agg, f);
      cell, exact := cell.(rows := cell.rows[i := cell.rows[i].(agg := r.agg)]), r.exact;
    }
    t := Progress(cell, budget, exact);
  }

  /** `addLifetime`: the request and then its attempts, on the lifetime root and on the month's. */
  method FoldLifetime(l: Lifetime, w: TerminalWork) returns (r: Lifetime)
    ensures r == AddLifetime(l, w)
  {
    hide RootAfter, Mark, MonthOf;
    var root := FoldRoot(l.aggregate, w);
    r := l.(aggregate := root.agg,
            firstRequestAt := Earlier(l.firstRequestAt, Some(FirstInstant(w))),
            lastRequestAt := Latest(l.lastRequestAt, Some(w.event.endedAt)));
    var m, exact := MonthOf(DayOf(w.event.endedAt)), root.exact;
    if m !in r.months && |r.months| >= MAX_MONTHS {
      r := r.(coverage := Mark(r.coverage, UnknownReason, TruncatedLoss, MonthsField, 1));
    } else {
      var month := if m in r.months then r.months[m] else Month(EMPTY_AGGREGATE, EMPTY_COVERAGE);
      if exact {
        var share := FoldRoot(month.aggregate, w);
        month, exact := month.(aggregate := share.agg), share.exact;
      }
      r := r.(months := r.months[m := month]);
    }
    if !exact {
      r := r.(coverage := Mark(r.coverage, CounterOverflow, OverflowLoss, CountersField, 1));
    }
  }

  method FoldRoot(a: Aggregate, w: TerminalWork) returns (s: Step)
    ensures s == RootAfter(a, w)
  {
    hide SortAttempts, AddRequest, AddRootAttempt;
    var sorted := SortAttempts(w.attempts);
    s := AddRequest(a, w.event, w.event.outcome);
    ghost var start := s;
    for i := 0 to |sorted|
      invariant s == AddRootAttempts(start, sorted[..i])
    {
      assert sorted[..i + 1][..i] == sorted[..i];
      if s.exact { s := AddRootAttempt(s.agg, sorted[i]); }
    }
    assert sorted[..|sorted|] == sorted;
  }
}
