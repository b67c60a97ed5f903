/** What a work leaves out of a day or of the lifetime is announced there, in its own marker and amount. */
module Announcements {
  import opened Common
  import opened Cells
  import opened Facts
  import opened Aggregates
  import opened Coverages
  import opened Minutes
  import opened Packets
  import opened Days
  import opened Rollups
  import opened Conservation
  import opened Readings

  /** An inexact fold of the lifetime leaves the month alone; and it, or a month there is no room for, is announced. */
  lemma {:induction false} LifetimeAnnounces(l: Lifetime, w: TerminalWork, kind: LossKind, field: Field)
    requires AreLosses(l.coverage.losses) && |l.coverage.losses| + 2 <= MAX_LOSS_MARKERS
    ensures var (l', m) := (AddLifetime(l, w), MonthOfWork(w));
            var full := m !in l.months && |l.months| >= MAX_MONTHS;
            && MarkerOf(l'.coverage.losses, kind, field)
               == Raised(MarkerOf(l.coverage.losses, kind, field),
                         if kind == TruncatedLoss && field == MonthsField && full then 1
                         else if kind == OverflowLoss && field == CountersField && !ExactInto(l, w) then 1
                         else 0)
            && (!RootAfter(l.aggregate, w).exact ==>
                  forall k :: k in l.months ==> k in l'.months && l'.months[k].aggregate == l.months[k].aggregate)
            && (forall k :: k in l.months && k != m ==> k in l'.months && l'.months[k] == l.months[k])
            && (full ==> l'.months == l.months)
  {
    hide RootAfter, MonthOf, Mark, AreLosses, MarkerOf, DayOf, FirstInstant;
    var r := RootAfter(l.aggregate, w);
    var l1 := l.(aggregate := r.agg,
                 firstRequestAt := Earlier(l.firstRequestAt, Some(FirstInstant(w))),
                 lastRequestAt := Latest(l.lastRequestAt, Some(w.event.endedAt)));
    var (l2, exact) := MonthAfter(l1, w, r.exact);
    MarkSays(l1.coverage, UnknownReason, TruncatedLoss, MonthsField, 1, kind, field);
    MarkSays(l2.coverage, CounterOverflow, OverflowLoss, CountersField, 1, kind, field);
  }

  /** A day announces an inexact minute, the rows it dropped and an index that is full, each in its own marker. */
  lemma {:induction false} DayAnnounces(d: Day, w: TerminalWork, limit: nat, kind: LossKind, field: Field)
    requires AreLosses(d.coverage.losses) && |d.coverage.losses| + 3 <= MAX_LOSS_MARKERS && NewlyDropped(d, w) <= MAX
    ensures var full := w.event.requestId !in d.dedup.ids && |d.dedup.ids| >= limit;
            MarkerOf(DayAfter(d, w, limit).coverage.losses, kind, field)
            == Raised(MarkerOf(d.coverage.losses, kind, field),
                      if kind == TruncatedLoss && field == RowsField then NewlyDropped(d, w)
                      else if kind == DedupLoss && field == DedupField && full then 1
                      else if kind == OverflowLoss && field == CountersField && !MinuteAfter(d, w).exact then 1
                      else 0)
  {
    hide MinuteAfter, NewlyDropped, Mark, AreLosses, MarkerOf, MinuteOf, InsertId;
    var dropped := NewlyDropped(d, w);
    var c0 := d.coverage.(droppedRows := Increase(d.coverage.droppedRows, dropped));
    if dropped > 0 { MarkSays(c0, RowCap, TruncatedLoss, RowsField, dropped, kind, field); }
    var d1 := d.(cells := d.cells[MinuteOf(w.event.endedAt) := MinuteAfter(d, w).cell],
                 coverage := MarkDroppedRows(d.coverage, dropped));
    var c1 := d1.coverage.(droppedDedup := Bump(d1.coverage.droppedDedup));
    MarkSays(c1, DedupCap, DedupLoss, DedupField, 1, kind, field);
    var d2 := AddDedup(d1, w.event.requestId, limit);
    MarkSays(d2.coverage, CounterOverflow, OverflowLoss, CountersField, 1, kind, field);
  }

  /** Rows are dropped only when the minute or the whole day is full. */
  lemma {:induction false} DropsOnlyWhenFull(d: Day, w: TerminalWork)
    requires DayRows(d) <= MAX_DAY_ROWS && NewlyDropped(d, w) > 0
    ensures var t := MinuteAfter(d, w);
            || |t.cell.rows| >= MAX_ROWS_PER_CELL
            || DayRows(d) + |t.cell.rows| - |CellFor(d, MinuteOf(w.event.endedAt)).rows| == MAX_DAY_ROWS
  {
    hide ApplyAll, FoldsOf, MinuteOf, DayRows, CellFor;
    var s := Progress(CellFor(d, MinuteOf(w.event.endedAt)), Budget(d), true);
    BudgetSpent(s, FoldsOf(w));
    DroppedWhenFull(s, FoldsOf(w));
  }

  lemma {:induction false} DroppedWhenFull(s: Progress, fs: seq<Fold>)
    ensures var t := ApplyAll(s, fs);
            && |t.cell.rows| >= |s.cell.rows| && t.budget <= s.budget
            && (t.cell.coverage.droppedRows > s.cell.coverage.droppedRows ==>
                  |t.cell.rows| >= MAX_ROWS_PER_CELL || t.budget == 0)
  {
    hide ApplyOne;
    if |fs| > 0 {
      DroppedWhenFull(s, fs[..|fs| - 1]);
      OneDroppedWhenFull(ApplyAll(s, fs[..|fs| - 1]), fs[|fs| - 1]);
    }
  }

  lemma OneDroppedWhenFull(s: Progress, f: Fold)
    ensures var t := ApplyOne(s, f);
            && |t.cell.rows| >= |s.cell.rows| && t.budget <= s.budget
            && (t.cell.coverage.droppedRows > s.cell.coverage.droppedRows ==>
                  |s.cell.rows| >= MAX_ROWS_PER_CELL || s.budget == 0)
            && (s.budget == 0 ==> t.budget == 0)
  {
    hide RootStep, RowStep, DropRow;
  }
}
