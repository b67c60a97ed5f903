/** The lifetime rollup and its months: guarded roots that every terminal work is folded into. */
module Rollups {
  import opened Common
  import opened Facts
  import opened Aggregates
  import opened Coverages
  import opened Packets
  import opened Days

  datatype Month = Month(aggregate: Aggregate, coverage: Coverage)

  datatype Lifetime = Lifetime(
    firstRequestAt: Option<int>, lastRequestAt: Option<int>, aggregate: Aggregate,
    months: map<int, Month>, coverage: Coverage)

  const EMPTY_LIFETIME := Lifetime(None, None, EMPTY_AGGREGATE, map[], EMPTY_COVERAGE)

  predicate IsMonth(m: Month) {
    IsAggregate(m.aggregate, General) && IsCoverage(m.coverage)
  }

  /** `isLifetime` without the byte ceiling. */
  predicate IsLifetime(l: Lifetime) {
    && IsAggregate(l.aggregate, General) && IsCoverage(l.coverage)
    && |l.months| <= MAX_MONTHS && (forall m :: m in l.months ==> IsMonth(l.months[m]))
    && (l.firstRequestAt.Some? && l.lastRequestAt.Some? ==> l.firstRequestAt.value <= l.lastRequestAt.value)
    && (l.aggregate.requests == 0 ==> l.firstRequestAt.None? && l.lastRequestAt.None?)
    && (l.aggregate.requests > 0 ==> l.firstRequestAt.Some? && l.lastRequestAt.Some?)
  }

  /** Root attempts after a request: skipped from the first inexact fold on. */
  function AddRootAttempts(s: Step, attempts: seq<AttemptPacket>): Step {
    if |attempts| == 0 then s
    else
      var t := AddRootAttempts(s, attempts[..|attempts| - 1]);
      if t.exact then AddRootAttempt(t.agg, attempts[|attempts| - 1]) else t
  }

  /** A root after one whole work. */
  function RootAfter(a: Aggregate, w: TerminalWork): Step {
    AddRootAttempts(AddRequest(a, w.event, w.event.outcome), SortAttempts(w.attempts))
  }

  /** The earliest instant a work vouches for: its start, unless that is missing or after its end. */
  function FirstInstant(w: TerminalWork): (at: int)
    ensures at <= w.event.endedAt
  {
    if w.start.Some? && w.start.value.startedAt <= w.event.endedAt then w.start.value.startedAt else w.event.endedAt
  }

  /** The month's share of `addLifetime`: skipped after an inexact lifetime fold, or without room. */
  function MonthAfter(l: Lifetime, w: TerminalWork, exact: bool): (Lifetime, bool) {
    var m := MonthOf(DayOf(w.event.endedAt));
    if m !in l.months && |l.months| >= MAX_MONTHS then
      (l.(coverage := Mark(l.coverage, UnknownReason, TruncatedLoss, MonthsField, 1)), exact)
    else
      var month := if m in l.months then l.months[m] else Month(EMPTY_AGGREGATE, EMPTY_COVERAGE);
      if !exact then (l.(months := l.months[m := month]), false)
      else
        var r := RootAfter(month.aggregate, w);
        (l.(months := l.months[m := month.(aggregate := r.agg)]), r.exact)
  }

  /** `addLifetime`. */
  function AddLifetime(l: Lifetime, w: TerminalWork): Lifetime {
    var r := RootAfter(l.aggregate, w);
    var l1 := l.(aggregate := r.agg,
                 firstRequestAt := Earlier(l.firstRequestAt, Some(FirstInstant(w))),
                 lastRequestAt := Latest(l.lastRequestAt, Some(w.event.endedAt)));
    var (l2, exact) := MonthAfter(l1, w, r.exact);
    if exact then l2 else l2.(coverage := Mark(l2.coverage, CounterOverflow, OverflowLoss, CountersField, 1))
  }

  /** `propagateRowCap` on the lifetime and its existing month. */
  function AnnounceDropped(l: Lifetime, endedAt: int, count: nat): Lifetime {
    var m := MonthOf(DayOf(endedAt));
    var months := if m in l.months
                  then l.months[m := l.months[m].(coverage := MarkDroppedRows(l.months[m].coverage, count))]
                  else l.months;
    l.(coverage := MarkDroppedRows(l.coverage, count), months := months)
  }

  // ---------------------------------------------------------------- the guard always survives

  lemma {:induction false} RootAttemptsGuarded(s: Step, attempts: seq<AttemptPacket>)
    requires IsAggregate(s.agg, General)
    requires forall i :: 0 <= i < |attempts| ==> AreSnapshots(attempts[i].tokens)
    ensures IsAggregate(AddRootAttempts(s, attempts).agg, General)
    ensures AddRootAttempts(s, attempts).agg.requests == s.agg.requests
  {
    if |attempts| > 0 {
      var init, p := attempts[..|attempts| - 1], attempts[|attempts| - 1];
      RootAttemptsGuarded(s, init);
      var t := AddRootAttempts(s, init);
      hide IsAggregate, AddRootAttempt, AreSnapshots;
      if t.exact {
        RootAttemptGuarded(t.agg, p);
        RootAttemptRequests(t.agg, p);
      }
    }
  }

  lemma {:induction false} RootAttemptRequests(a: Aggregate, p: AttemptPacket)
    requires IsAggregate(a, General)
    ensures AddRootAttempt(a, p).agg.requests == a.requests
  {
    AddRootAttemptKeepsCounts(a, p);
  }

  /** A root after a whole work passes its guard and counts exactly one more request. */
  lemma {:induction false} RootAfterGuarded(a: Aggregate, w: TerminalWork)
    requires IsAggregate(a, General) && IsWork(w)
    ensures IsAggregate(RootAfter(a, w).agg, General)
    ensures RootAfter(a, w).agg.requests == Bump(a.requests) > 0
  {
    var e, sorted := w.event, SortAttempts(w.attempts);
    forall i | 0 <= i < |sorted| ensures AreSnapshots(sorted[i].tokens) {
      assert sorted[i] in multiset(w.attempts);
    }
    RequestCounted(a, e);
    hide AreSnapshots, SortAttempts, AddRequest;
    RootRequestGuarded(a, e, e.outcome);
    hide IsAggregate;
    RootAttemptsGuarded(AddRequest(a, e, e.outcome), sorted);
  }

  lemma {:induction false} RequestCounted(a: Aggregate, e: RequestEvent)
    requires IsAggregate(a, General)
    ensures AddRequest(a, e, e.outcome).agg.requests == Bump(a.requests) > 0
  {
    AddRequestKeepsCounts(a, e, e.outcome, General);
  }

  lemma {:induction false} EmptyMonthGuarded()
    ensures IsMonth(Month(EMPTY_AGGREGATE, EMPTY_COVERAGE)) && IsLifetime(EMPTY_LIFETIME)
  {
  }

  lemma {:induction false} MonthKeepsGuard(l: Lifetime, w: TerminalWork, exact: bool)
    requires IsLifetime(l) && IsWork(w)
    ensures var l' := MonthAfter(l, w, exact).0;
            && IsLifetime(l') && l'.aggregate == l.aggregate
            && l'.firstRequestAt == l.firstRequestAt && l'.lastRequestAt == l.lastRequestAt
            && l'.coverage.retentionFrom == l.coverage.retentionFrom
              && l'.coverage.retentionDays == l.coverage.retentionDays
  {
    EmptyMonthGuarded();
    var m := MonthOf(DayOf(w.event.endedAt));
    hide MonthOf, IsAggregate, RootAfter;
    if m !in l.months && |l.months| >= MAX_MONTHS {
      CoverageParts(l.coverage);
      hide IsCoverage, IsMonth, Mark;
      MarkKeepsGuard(l.coverage, UnknownReason, TruncatedLoss, MonthsField, 1);
      MarkLeavesCounters(l.coverage, UnknownReason, TruncatedLoss, MonthsField, 1);
    } else {
      var month := if m in l.months then l.months[m] else Month(EMPTY_AGGREGATE, EMPTY_COVERAGE);
      RootAfterGuarded(month.aggregate, w);
      hide IsCoverage;
      OneMoreMonth(l.months, m, month);
      OneMoreMonth(l.months, m, month.(aggregate := RootAfter(month.aggregate, w).agg));
    }
  }

  lemma {:induction false} OneMoreMonth(months: map<int, Month>, m: int, month: Month)
    requires m in months || |months| < MAX_MONTHS
    requires |months| <= MAX_MONTHS
    ensures |months[m := month]| <= MAX_MONTHS
  {
    assert months[m := month].Keys == months.Keys + {m};
    assert |months.Keys + {m}| <= |months.Keys| + 1;
    if m in months { assert months.Keys + {m} == months.Keys; }
  }

  /** What a work does to the lifetime besides its aggregates. */
  predicate Extends(before: Lifetime, after: Lifetime, w: TerminalWork) {
    && after.aggregate.requests == Bump(before.aggregate.requests)
    && after.firstRequestAt == Earlier(before.firstRequestAt, Some(FirstInstant(w)))
    && after.lastRequestAt == Latest(before.lastRequestAt, Some(w.event.endedAt))
    && after.coverage.retentionFrom == before.coverage.retentionFrom
    && after.coverage.retentionDays == before.coverage.retentionDays
  }

  /** The lifetime's guard survives every work, exact or not, and counts it once. */
  lemma {:induction false} LifetimeStaysGuarded(l: Lifetime, w: TerminalWork)
    requires IsLifetime(l) && IsWork(w)
    ensures IsLifetime(AddLifetime(l, w)) && Extends(l, AddLifetime(l, w), w)
  {
    hide RootAfter, MonthAfter, IsMonth, IsAggregate, IsWork, Mark, FirstInstant;
    RootAfterGuarded(l.aggregate, w);
    var r := RootAfter(l.aggregate, w);
    var l1 := l.(aggregate := r.agg,
                 firstRequestAt := Earlier(l.firstRequestAt, Some(FirstInstant(w))),
                 lastRequestAt := Latest(l.lastRequestAt, Some(w.event.endedAt)));
    assert IsLifetime(l1);
    MonthKeepsGuard(l1, w, r.exact);
    var l2 := MonthAfter(l1, w, r.exact).0;
    CoverageParts(l2.coverage);
    hide IsCoverage;
    MarkKeepsGuard(l2.coverage, CounterOverflow, OverflowLoss, CountersField, 1);
    MarkLeavesCounters(l2.coverage, CounterOverflow, OverflowLoss, CountersField, 1);
  }

  lemma {:induction false} AnnounceKeepsGuard(l: Lifetime, endedAt: int, count: nat)
    requires IsLifetime(l) && count <= MAX
    ensures var l' := AnnounceDropped(l, endedAt, count);
            && IsLifetime(l') && l'.(months := map[], coverage := l.coverage) == l.(months := map[])
            && l'.coverage.retentionFrom == l.coverage.retentionFrom
              && l'.coverage.retentionDays == l.coverage.retentionDays
  {
    var m := MonthOf(DayOf(endedAt));
    hide MonthOf, IsAggregate;
    MarkDroppedRowsKeepsGuard(l.coverage, count);
    DropsLeaveCursor(l.coverage, count);
    if m in l.months {
      MarkDroppedRowsKeepsGuard(l.months[m].coverage, count);
      OneMoreMonth(l.months, m, l.months[m].(coverage := MarkDroppedRows(l.months[m].coverage, count)));
    }
    hide IsCoverage, MarkDroppedRows;
  }

  lemma {:induction false} DropsLeaveCursor(c: Coverage, count: nat)
    ensures MarkDroppedRows(c, count).retentionFrom == c.retentionFrom
    ensures MarkDroppedRows(c, count).retentionDays == c.retentionDays
    ensures MarkDroppedRows(c, count).droppedRows == Increase(c.droppedRows, count)
  {
  }
}
