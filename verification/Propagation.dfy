/**
 * Dropped rows reach every rollup: what the minutes of a day announce, its day, its month and the
 * lifetime announce too, work by work and over every run of the ledger.
 */
module Propagation {
  import opened Common
  import opened Facts
  import opened Aggregates
  import opened Coverages
  import opened Minutes
  import opened Conservation
  import opened Packets
  import opened Days
  import opened Rollups
  import opened RetentionPlans
  import opened Ledger

  /** Rows announced as dropped by the minutes of a day, minute by minute. */
  function DropsUpTo(cells: map<nat, Cell>, n: nat): nat {
    if n == 0 then 0
    else DropsUpTo(cells, n - 1) + if n - 1 in cells then cells[n - 1].coverage.droppedRows else 0
  }

  function MinuteDrops(d: Day): nat {
    DropsUpTo(d.cells, MINUTES_A_DAY)
  }

  function MonthOfWork(w: TerminalWork): int {
    MonthOf(DayOf(w.event.endedAt))
  }

  // ---------------------------------------------------------------- a run of the ledger

  /** A completed work reaching the ledger: its day is opened, and an id it knows changes nothing. */
  function Book(s: Ledger.State, w: TerminalWork): Ledger.State {
    var t, date := Loaded(s, DayOf(w.event.endedAt)), DayOf(w.event.endedAt);
    if w.event.requestId in IdsOf(t.shards.days[date].dedup) then t else Absorbed(t, w)
  }

  function BookAll(s: Ledger.State, ws: seq<TerminalWork>): Ledger.State {
    if |ws| == 0 then s else Book(BookAll(s, ws[..|ws| - 1]), ws[|ws| - 1])
  }

  /** The rows a work drops from its minute. */
  function Gained(s: Ledger.State, w: TerminalWork): nat {
    var d := FactsOf(s.shards, DayOf(w.event.endedAt));
    if w.event.requestId in IdsOf(d.dedup) then 0 else NewlyDropped(d, w)
  }

  /** The rows dropped by the works of a run, all of them or those of one month. */
  function Total(s: Ledger.State, ws: seq<TerminalWork>, month: Option<int>): nat {
    if |ws| == 0 then 0
    else
      var init, w := ws[..|ws| - 1], ws[|ws| - 1];
      Total(s, init, month) + if month.None? || month.value == MonthOfWork(w) then Gained(BookAll(s, init), w) else 0
  }

  function FoldCount(ws: seq<TerminalWork>): nat {
    if |ws| == 0 then 0 else FoldCount(ws[..|ws| - 1]) + 1 + |ws[|ws| - 1].attempts|
  }

  // ---------------------------------------------------------------- one minute, one day

  lemma {:induction false} DropsGrow(s: Progress, fs: seq<Fold>)
    ensures Dropped(s) <= Dropped(ApplyAll(s, fs)) <= Dropped(s) + |fs|
  {
    hide ApplyOne;
    if |fs| > 0 {
      DropsGrow(s, fs[..|fs| - 1]);
      OneDropGrows(ApplyAll(s, fs[..|fs| - 1]), fs[|fs| - 1]);
    }
  }

  lemma {:induction false} OneDropGrows(s: Progress, f: Fold)
    ensures Dropped(s) <= Dropped(ApplyOne(s, f)) <= Dropped(s) + 1
  {
    hide RootStep, RowStep;
  }

  lemma {:induction false} DropsUpdate(cells: map<nat, Cell>, m: nat, c: Cell, n: nat)
    ensures DropsUpTo(cells[m := c], n)
            == DropsUpTo(cells, n)
               + (if m < n then c.coverage.droppedRows - (if m in cells then cells[m].coverage.droppedRows else 0)
                  else 0)
  {
    if n > 0 { DropsUpdate(cells, m, c, n - 1); }
  }

  /** A work adds what its minute dropped to the day's own counter and to the sum of its minutes. */
  lemma {:induction false} DayGains(d: Day, w: TerminalWork, limit: nat)
    ensures MinuteDrops(DayAfter(d, w, limit)) == MinuteDrops(d) + NewlyDropped(d, w)
    ensures DayAfter(d, w, limit).coverage.droppedRows == Increase(d.coverage.droppedRows, NewlyDropped(d, w))
    ensures NewlyDropped(d, w) <= 1 + |w.attempts|
  {
    var m := MinuteOf(w.event.endedAt);
    DropsGrow(Progress(CellFor(d, m), Budget(d), true), FoldsOf(w));
    hide ApplyAll, FoldsOf, MinuteOf, DropsUpTo, AddDedup, MarkDroppedRows, Mark, RowsUpTo;
    DropsUpdate(d.cells, m, MinuteAfter(d, w).cell, MINUTES_A_DAY);
    EncloseGains(d, d.cells[m := MinuteAfter(d, w).cell], NewlyDropped(d, w), w.event.requestId, limit,
                 MinuteAfter(d, w).exact);
  }

  lemma {:induction false} EncloseGains(d: Day, cells: map<nat, Cell>, dropped: nat, id: nat, limit: nat, exact: bool)
    ensures var d' := Enclose(d, cells, dropped, id, limit, exact);
            d'.coverage.droppedRows == Increase(d.coverage.droppedRows, dropped) && d'.cells == cells
  {
    hide AddLoss, KeepReason, InsertId;
  }

  // ---------------------------------------------------------------- the lifetime and its months

  function MonthDrops(l: Lifetime, m: int): Option<nat> {
    if m in l.months then Some(l.months[m].coverage.droppedRows) else None
  }

  /** A lifetime fold opens at most the work's month, and drops nothing itself. */
  lemma {:induction false} AddedMonths(l: Lifetime, w: TerminalWork)
    ensures var l', m := AddLifetime(l, w), MonthOfWork(w);
            && l'.coverage.droppedRows == l.coverage.droppedRows && |l'.months| >= |l.months|
            && (forall k :: k != m ==> MonthDrops(l', k) == MonthDrops(l, k))
            && MonthDrops(l', m) == (if m in l.months then MonthDrops(l, m)
                                     else if |l.months| < MAX_MONTHS then Some(0) else None)
  {
    hide RootAfter, MonthOf, DayOf, AddLoss, KeepReason;
    var m := MonthOfWork(w);
    if m in l.months || |l.months| < MAX_MONTHS {
      MonthsGrow(l.months, m, if m in l.months then l.months[m] else Month(EMPTY_AGGREGATE, EMPTY_COVERAGE));
      MonthsGrow(l.months, m, (if m in l.months then l.months[m] else Month(EMPTY_AGGREGATE, EMPTY_COVERAGE)).(
                   aggregate := RootAfter((if m in l.months then l.months[m]
                                           else Month(EMPTY_AGGREGATE, EMPTY_COVERAGE)).aggregate, w).agg));
    }
  }

  lemma {:induction false} MonthsGrow(months: map<int, Month>, m: int, month: Month)
    ensures |months[m := month]| >= |months|
  {
    assert months.Keys <= months[m := month].Keys;
    SubsetSize(months.Keys, months[m := month].Keys);
  }

  lemma {:induction false} AnnouncedMonths(l: Lifetime, w: TerminalWork, count: nat)
    ensures var l', m := AnnounceDropped(l, w.event.endedAt, count), MonthOfWork(w);
            && l'.coverage.droppedRows == Increase(l.coverage.droppedRows, count) && |l'.months| >= |l.months|
            && (forall k :: k != m ==> MonthDrops(l', k) == MonthDrops(l, k))
            && MonthDrops(l', m) == (if m in l.months then Some(Increase(l.months[m].coverage.droppedRows, count))
                                     else None)
  {
    hide MonthOf, DayOf, MarkDroppedRows;
    DropsLeaveCursor(l.coverage, count);
    var m := MonthOfWork(w);
    if m in l.months {
      DropsLeaveCursor(l.months[m].coverage, count);
      MonthsGrow(l.months, m, l.months[m].(coverage := MarkDroppedRows(l.months[m].coverage, count)));
    }
  }

  /** One work at the lifetime: the same amount in the lifetime and in the month, if there is one. */
  lemma {:induction false} LifetimeGains(s: Ledger.State, w: TerminalWork)
    requires DayOf(w.event.endedAt) in s.shards.days
    ensures var n, m := NewlyDropped(s.shards.days[DayOf(w.event.endedAt)], w), MonthOfWork(w);
            var (l, l') := (s.lifetime, LifetimeWith(s, w));
            && l'.coverage.droppedRows == Increase(l.coverage.droppedRows, n) && |l'.months| >= |l.months|
            && (forall k :: k != m ==> MonthDrops(l', k) == MonthDrops(l, k))
            && MonthDrops(l', m)
               == (if m in l.months then Some(Increase(l.months[m].coverage.droppedRows, n))
                   else if |l.months| < MAX_MONTHS then Some(Increase(0, n)) else None)
  {
    hide AddLifetime, AnnounceDropped, NewlyDropped, MonthOf, DayOf;
    var added := AddLifetime(s.lifetime, w);
    AddedMonths(s.lifetime, w);
    AnnouncedMonths(if s.retentionDays.Some? then Rewound(added, DayOf(w.event.endedAt)) else added, w,
                    NewlyDropped(s.shards.days[DayOf(w.event.endedAt)], w));
  }

  // ---------------------------------------------------------------- every reachable state

  /** Every day announces what its minutes do, and nothing has outgrown the lifetime's counter. */
  ghost predicate DaysAgree(s: Ledger.State) {
    forall d: int ::
      FactsOf(s.shards, d).coverage.droppedRows == MinuteDrops(FactsOf(s.shards, d)) <= s.lifetime.coverage.droppedRows
  }

  /** What the months announce, given what each should; a month without a record met a full table. */
  ghost predicate MonthsAgree(l: Lifetime, totals: int -> nat) {
    forall m :: totals(m) <= l.coverage.droppedRows
                && if m in l.months then l.months[m].coverage.droppedRows == totals(m)
                   else |l.months| >= MAX_MONTHS || totals(m) == 0
  }

  lemma EmptyDrops(n: nat)
    ensures DropsUpTo(map[], n) == 0
  {
  }

  lemma {:induction false} BookedFacts(s: Ledger.State, w: TerminalWork)
    ensures var (t, date) := (Book(s, w), DayOf(w.event.endedAt));
            var before := FactsOf(s.shards, date);
            && (forall d: int :: d != date ==> FactsOf(t.shards, d) == FactsOf(s.shards, d))
            && FactsOf(t.shards, date)
               == (if w.event.requestId in IdsOf(before.dedup) then before else DayAfter(before, w, s.dedupLimit))
            && t.dedupLimit == s.dedupLimit
            && t.lifetime == (if w.event.requestId in IdsOf(before.dedup) then s.lifetime
                              else LifetimeWith(Loaded(s, date), w))
  {
    hide DayAfter, DayOf, IdsOf, LifetimeWith, IsDay, Absorbed, EmptyDay;
    var t := Loaded(s, DayOf(w.event.endedAt));
    AbsorbedParts(t, w);
  }

  lemma {:induction false} DaysStep(s: Ledger.State, w: TerminalWork)
    requires DaysAgree(s) && s.lifetime.coverage.droppedRows + 1 + |w.attempts| <= MAX
    ensures DaysAgree(Book(s, w))
    ensures Book(s, w).lifetime.coverage.droppedRows == s.lifetime.coverage.droppedRows + Gained(s, w)
    ensures Gained(s, w) <= 1 + |w.attempts|
  {
    hide DayAfter, DayOf, IdsOf, LifetimeWith, Book, MinuteDrops, FactsOf, NewlyDropped, MonthOf;
    var date := DayOf(w.event.endedAt);
    var before := FactsOf(s.shards, date);
    BookedFacts(s, w);
    DayGains(before, w, s.dedupLimit);
    LoadedHas(s, date);
    LifetimeGains(Loaded(s, date), w);
  }

  lemma LoadedHas(s: Ledger.State, date: int)
    ensures date in Loaded(s, date).shards.days && Loaded(s, date).shards.days[date] == FactsOf(s.shards, date)
    ensures Loaded(s, date).lifetime == s.lifetime
  {
  }

  lemma {:induction false} MonthsStep(s: Ledger.State, w: TerminalWork, totals: int -> nat, after: int -> nat)
    requires MonthsAgree(s.lifetime, totals) && s.lifetime.coverage.droppedRows + 1 + |w.attempts| <= MAX
    requires Gained(s, w) <= 1 + |w.attempts|
    requires Book(s, w).lifetime.coverage.droppedRows == s.lifetime.coverage.droppedRows + Gained(s, w)
    requires forall m :: after(m) == totals(m) + if m == MonthOfWork(w) then Gained(s, w) else 0
    ensures MonthsAgree(Book(s, w).lifetime, after)
  {
    hide DayAfter, DayOf, IdsOf, LifetimeWith, Book, FactsOf, NewlyDropped, MonthOf, MonthOfWork;
    var date := DayOf(w.event.endedAt);
    BookedFacts(s, w);
    LoadedHas(s, date);
    if w.event.requestId !in IdsOf(FactsOf(s.shards, date).dedup) {
      LifetimeGains(Loaded(s, date), w);
      MonthsMove(s.lifetime, Book(s, w).lifetime, MonthOfWork(w), Gained(s, w), totals, after);
    }
  }

  lemma {:induction false} MonthsMove(l: Lifetime, l': Lifetime, m: int, n: nat, totals: int -> nat, after: int -> nat)
    requires MonthsAgree(l, totals) && l'.coverage.droppedRows == l.coverage.droppedRows + n <= MAX
             && |l'.months| >= |l.months|
    requires forall k :: k != m ==> MonthDrops(l', k) == MonthDrops(l, k)
    requires MonthDrops(l', m)
             == (if m in l.months then Some(Increase(l.months[m].coverage.droppedRows, n))
                 else if |l.months| < MAX_MONTHS then Some(Increase(0, n)) else None)
    requires forall k :: after(k) == totals(k) + if k == m then n else 0
    ensures MonthsAgree(l', after)
  {
    forall k ensures after(k) <= l'.coverage.droppedRows
      && if k in l'.months then l'.months[k].coverage.droppedRows == after(k)
         else |l'.months| >= MAX_MONTHS || after(k) == 0
    {
      assert totals(k) <= l.coverage.droppedRows;
      if k != m { assert MonthDrops(l', k) == MonthDrops(l, k); }
    }
  }

  /**
   * In every state a run of works can reach: each day announces exactly the rows its minutes
   * announce, the lifetime those of all works, each month those of its own works; only a month that
   * met a full table has no record.
   */
  lemma {:induction false} DropsReachEveryRollup(retentionDays: Option<nat>, limit: nat, ws: seq<TerminalWork>)
    requires FoldCount(ws) <= MAX
    ensures var s, t := Fresh(retentionDays, limit), BookAll(Fresh(retentionDays, limit), ws);
            && DaysAgree(t)
            && t.lifetime.coverage.droppedRows == Total(s, ws, None) <= FoldCount(ws)
            && MonthsAgree(t.lifetime, m => Total(s, ws, Some(m)))
  {
    hide Book, DaysAgree, MonthsAgree, Gained, MonthOfWork;
    var s := Fresh(retentionDays, limit);
    if |ws| == 0 {
      FreshAgrees(retentionDays, limit, ws);
    } else {
      var init, w := ws[..|ws| - 1], ws[|ws| - 1];
      DropsReachEveryRollup(retentionDays, limit, init);
      var t := BookAll(s, init);
      DaysStep(t, w);
      MonthsStep(t, w, m => Total(s, init, Some(m)), m => Total(s, ws, Some(m)));
    }
  }

  lemma {:induction false} FreshAgrees(retentionDays: Option<nat>, limit: nat, ws: seq<TerminalWork>)
    requires |ws| == 0
    ensures var s := Fresh(retentionDays, limit);
            DaysAgree(s) && MonthsAgree(s.lifetime, m => Total(s, ws, Some(m)))
  {
    EmptyDrops(MINUTES_A_DAY);
  }

  /** Caching, writing and evicting in between change nothing of it. */
  lemma {:induction false} DropsSurviveCaching(s: Ledger.State, t: Ledger.State)
    requires DaysAgree(s) && SameFacts(s.shards, t.shards) && t.lifetime == s.lifetime && t.shards.scars.pruned == {}
    ensures DaysAgree(t)
  {
    hide FactsOf, MinuteDrops;
  }
}
