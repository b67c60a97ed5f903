/** A day shard: its minutes, its dedup index and its coverage; and the lifetime rollup beside it. */
module Days {
  import opened Common
  import opened Facts
  import opened Aggregates
  import opened Coverages
  import opened Minutes
  import opened Packets

  const MAX_DAY_ROWS: nat := 4096
  const MAX_DEDUP_IDS: nat := 16_384
  const MAX_MONTHS: nat := 720
  const MS_A_DAY: int := 86_400_000

  // ---------------------------------------------------------------- calendar

  /** The UTC day of an instant, counted from the epoch. */
  function DayOf(at: int): int {
    at / MS_A_DAY
  }

  function MinuteOf(at: int): (m: nat)
    ensures m < MINUTES_A_DAY
  {
    (at % MS_A_DAY) / 60_000
  }

  /** The civil month of a day (months since year 0 of the proleptic Gregorian calendar). */
  function MonthOf(day: int): int {
    var z := day + 719_468;
    var era := z / 146_097;
    var doe := z % 146_097;
    var yoe := (doe - doe / 1_460 + doe / 36_524 - doe / 146_096) / 365;
    var doy := doe - (365 * yoe + yoe / 4 - yoe / 100);
    var mp := (5 * doy + 2) / 153;
    (yoe + era * 400) * 12 + mp + 2
  }

  // ---------------------------------------------------------------- dedup

  datatype DedupIndex = DedupIndex(ids: seq<nat>, dropped: nat, complete: bool)

  predicate StrictlySorted(ids: seq<nat>) {
    forall i, j :: 0 <= i < j < |ids| ==> ids[i] < ids[j]
  }

  /** `isDedup`. */
  predicate IsDedup(d: DedupIndex) {
    |d.ids| <= MAX_DEDUP_IDS && d.dropped <= MAX && StrictlySorted(d.ids) && d.complete == (d.dropped == 0)
  }

  function IdsOf(d: DedupIndex): set<nat> {
    set i | 0 <= i < |d.ids| :: d.ids[i]
  }

  /** The sorted array with one more id pushed and sorted in. */
  function InsertId(ids: seq<nat>, id: nat): (r: seq<nat>)
    ensures |r| == |ids| + 1
  {
    if |ids| == 0 || ids[|ids| - 1] <= id then ids + [id]
    else InsertId(ids[..|ids| - 1], id) + [ids[|ids| - 1]]
  }

  lemma {:induction false} InsertIdHolds(ids: seq<nat>, id: nat)
    requires StrictlySorted(ids) && id !in ids
    ensures StrictlySorted(InsertId(ids, id))
    ensures forall x :: x in InsertId(ids, id) <==> x in ids || x == id
  {
    if |ids| > 0 && ids[|ids| - 1] > id {
      var init := ids[..|ids| - 1];
      InsertIdHolds(init, id);
      assert ids == init + [ids[|ids| - 1]];
      var r := InsertId(init, id);
      forall i | 0 <= i < |r| ensures r[i] < ids[|ids| - 1] {
        assert r[i] in r;
      }
    }
  }

  // ---------------------------------------------------------------- day shards

  datatype Day = Day(date: int, cells: map<nat, Cell>, dedup: DedupIndex, coverage: Coverage)

  function EmptyDay(date: int): Day {
    Day(date, map[], DedupIndex([], 0, true), EMPTY_COVERAGE)
  }

  function RowsIn(cells: map<nat, Cell>, m: nat): nat {
    if m in cells then |cells[m].rows| else 0
  }

  /** `countDayRows`, minute by minute. */
  function RowsUpTo(cells: map<nat, Cell>, n: nat): nat {
    if n == 0 then 0 else RowsUpTo(cells, n - 1) + RowsIn(cells, n - 1)
  }

  function DayRows(d: Day): nat {
    RowsUpTo(d.cells, MINUTES_A_DAY)
  }

  predicate DedupAnnounced(d: Day) {
    d.dedup.dropped > 0 ==> d.coverage.state != Complete && d.coverage.droppedDedup >= d.dedup.dropped
  }

  /** Everything `isDay` asks apart from its minute cells. */
  predicate EnvelopeOk(d: Day) {
    IsDedup(d.dedup) && IsCoverage(d.coverage) && DedupAnnounced(d) && DayRows(d) <= MAX_DAY_ROWS
  }

  /** `isDay` without the byte ceiling. */
  predicate IsDay(d: Day) {
    && EnvelopeOk(d) && |d.cells| <= MINUTES_A_DAY
    && forall m :: m in d.cells ==> IsCell(d.cells[m]) && d.cells[m].minute == m && d.cells[m].date == d.date
  }

  /** What every reachable day satisfies; only rows that count nothing may still fail the guard. */
  predicate SoundDay(d: Day) {
    && EnvelopeOk(d)
    && forall m :: m in d.cells ==> SoundCell(d.cells[m]) && d.cells[m].minute == m && d.cells[m].date == d.date
  }

  lemma {:induction false} MinutesBounded(cells: map<nat, Cell>)
    requires forall m :: m in cells ==> m < MINUTES_A_DAY
    ensures |cells| <= MINUTES_A_DAY
  {
    Below(cells.Keys, MINUTES_A_DAY);
  }

  lemma {:induction false} Below(s: set<nat>, n: nat)
    requires forall x :: x in s ==> x < n
    ensures |s| <= n
  {
    if n == 0 {
      assert s == {};
    } else if n - 1 in s {
      Below(s - {n - 1}, n - 1);
    } else {
      Below(s, n - 1);
    }
  }

  lemma {:induction false} RowsUpdate(cells: map<nat, Cell>, m: nat, c: Cell, n: nat)
    ensures RowsUpTo(cells[m := c], n)
            == RowsUpTo(cells, n) + (if m < n then |c.rows| - RowsIn(cells, m) else 0)
  {
    if n > 0 { RowsUpdate(cells, m, c, n - 1); }
  }

  // ---------------------------------------------------------------- one terminal work on its day

  /** A finished request together with what was pending for it. */
  datatype TerminalWork = TerminalWork(
    event: RequestEvent, start: Option<Start>, attempts: seq<AttemptPacket>, droppedAttempts: Counter)

  predicate IsWork(w: TerminalWork) {
    forall i :: 0 <= i < |w.attempts| ==> IsAttemptPacket(w.attempts[i]) && AreSnapshots(w.attempts[i].tokens)
  }

  function ClientOf(w: TerminalWork): Option<Label> {
    if w.start.None? then None else w.start.value.client
  }

  function PacketOf(w: TerminalWork): (r: Option<RequestPacket>)
    ensures r.Some? ==>
              IsRequestPacket(r.value) && r.value.requestId == w.event.requestId && r.value.endedAt == w.event.endedAt
  {
    PacketFor(w.event, w.start, SortAttempts(w.attempts))
  }

  function RequestKey(w: TerminalWork): RowKey {
    var e, p := w.event, PacketOf(w);
    RowKey(RequestRow,
           Either(if p.Some? then p.value.provider else None, e.provider),
           Either(if p.Some? then p.value.model else None, e.model),
           ClientOf(w),
           Either(if p.Some? then p.value.credentialId else None, e.credentialId),
           if p.Some? then p.value.attribution else e.attribution,
           e.outcome, SafeFailure(e.failure, e.outcome))
  }

  function AttemptKey(p: AttemptPacket, client: Option<Label>): RowKey {
    RowKey(AttemptRow(p.role), p.provider, p.model, client, p.credentialId, p.attribution, p.outcome, p.failure)
  }

  /** The contributions of a work, in the order `applyTerminal` folds them. */
  function FoldsOf(w: TerminalWork): (fs: seq<Fold>)
    ensures |fs| == 1 + |w.attempts|
  {
    var sorted := SortAttempts(w.attempts);
    SameLength(sorted, w.attempts);
    [RequestFold(w.event, w.event.outcome, RequestKey(w))]
    + seq(|sorted|, i requires 0 <= i < |sorted| => AttemptFold(sorted[i], AttemptKey(sorted[i], ClientOf(w))))
  }

  lemma {:induction false} SameLength(a: seq<AttemptPacket>, b: seq<AttemptPacket>)
    requires multiset(a) == multiset(b)
    ensures |a| == |b|
  {
    assert |multiset(a)| == |a| && |multiset(b)| == |b|;
  }

  lemma {:induction false} FoldsAreFolds(w: TerminalWork)
    requires IsWork(w)
    ensures forall i :: 0 <= i < |FoldsOf(w)| ==> IsFold(FoldsOf(w)[i])
  {
    var sorted := SortAttempts(w.attempts);
    forall i | 0 <= i < |sorted| ensures IsFold(AttemptFold(sorted[i], AttemptKey(sorted[i], ClientOf(w)))) {
      assert sorted[i] in multiset(w.attempts);
    }
    hide SortAttempts, PacketOf, IsAttemptPacket, AreSnapshots;
  }

  function CellFor(d: Day, m: nat): Cell {
    if m in d.cells then d.cells[m] else EmptyCell(d.date, m)
  }

  function Budget(d: Day): nat {
    if DayRows(d) <= MAX_DAY_ROWS then MAX_DAY_ROWS - DayRows(d) else 0
  }

  /** The minute a work ends in, after all its contributions. */
  function MinuteAfter(d: Day, w: TerminalWork): Progress {
    ApplyAll(Progress(CellFor(d, MinuteOf(w.event.endedAt)), Budget(d), true), FoldsOf(w))
  }

  /** Rows this work announced as dropped. */
  function NewlyDropped(d: Day, w: TerminalWork): nat {
    var before, after := CellFor(d, MinuteOf(w.event.endedAt)).coverage.droppedRows,
      MinuteAfter(d, w).cell.coverage.droppedRows;
    if after > before then after - before else 0
  }

  /** `addDedup`: the index keeps the id unless it is full, and then says so in both places. */
  function AddDedup(d: Day, id: nat, limit: nat): Day {
    if id in d.dedup.ids then d
    else if |d.dedup.ids| >= limit then
      d.(dedup := DedupIndex(d.dedup.ids, Bump(d.dedup.dropped), false),
         coverage := Mark(d.coverage.(droppedDedup := Bump(d.coverage.droppedDedup)),
                          DedupCap, DedupLoss, DedupField, 1))
    else d.(dedup := d.dedup.(ids := InsertId(d.dedup.ids, id)))
  }

  /** The day around its new minute: dropped rows announced, the id indexed, an overflow marked. */
  function Enclose(d: Day, cells: map<nat, Cell>, dropped: nat, id: nat, limit: nat, exact: bool): Day {
    var d2 := AddDedup(d.(cells := cells, coverage := MarkDroppedRows(d.coverage, dropped)), id, limit);
    if exact then d2 else d2.(coverage := Mark(d2.coverage, CounterOverflow, OverflowLoss, CountersField, 1))
  }

  /** The day after a work whose id its index did not hold. */
  function DayAfter(d: Day, w: TerminalWork, limit: nat): Day {
    var minute := MinuteAfter(d, w);
    Enclose(d, d.cells[MinuteOf(w.event.endedAt) := minute.cell], NewlyDropped(d, w), w.event.requestId, limit,
            minute.exact)
  }

  // ---------------------------------------------------------------- folds keep the caps

  lemma {:induction false} BudgetSpent(s: Progress, fs: seq<Fold>)
    ensures var t := ApplyAll(s, fs);
            && |t.cell.rows| + t.budget == |s.cell.rows| + s.budget
            && t.cell.date == s.cell.date && t.cell.minute == s.cell.minute
  {
    if |fs| > 0 {
      BudgetSpent(s, fs[..|fs| - 1]);
      OneBudgetSpent(ApplyAll(s, fs[..|fs| - 1]), fs[|fs| - 1]);
    }
  }

  lemma {:induction false} OneBudgetSpent(s: Progress, f: Fold)
    ensures var t := ApplyOne(s, f);
            && |t.cell.rows| + t.budget == |s.cell.rows| + s.budget
            && t.cell.date == s.cell.date && t.cell.minute == s.cell.minute
  {
    hide RootStep, RowStep;
  }

  lemma {:induction false} EmptyCellSound(date: int, m: nat)
    requires m < MINUTES_A_DAY
    ensures SoundCell(EmptyCell(date, m)) && IsCell(EmptyCell(date, m))
  {
  }

  lemma {:induction false} AddDedupKeeps(d: Day, id: nat, limit: nat)
    requires IsDedup(d.dedup) && IsCoverage(d.coverage) && DedupAnnounced(d) && limit <= MAX_DEDUP_IDS
    ensures var d' := AddDedup(d, id, limit);
            && IsDedup(d'.dedup) && IsCoverage(d'.coverage) && DedupAnnounced(d')
            && d'.cells == d.cells && d'.date == d.date
  {
    if id in d.dedup.ids {
    } else if |d.dedup.ids| >= limit {
      MarkKeepsGuard(d.coverage.(droppedDedup := Bump(d.coverage.droppedDedup)), DedupCap, DedupLoss, DedupField, 1);
    } else {
      InsertIdHolds(d.dedup.ids, id);
    }
  }

  /** The index is its ids: a kept id is in it from now on, and no other one appears. */
  lemma {:induction false} AddDedupIds(d: Day, id: nat, limit: nat)
    requires IsDedup(d.dedup)
    ensures IdsOf(AddDedup(d, id, limit).dedup)
            == if |d.dedup.ids| >= limit && id !in d.dedup.ids then IdsOf(d.dedup) else IdsOf(d.dedup) + {id}
  {
    if id !in d.dedup.ids && |d.dedup.ids| < limit {
      InsertIdHolds(d.dedup.ids, id);
      var ids := InsertId(d.dedup.ids, id);
      forall x | x in IdsOf(d.dedup) + {id} ensures x in IdsOf(AddDedup(d, id, limit).dedup) {
        assert x in ids;
      }
      forall x | x in IdsOf(AddDedup(d, id, limit).dedup) ensures x in IdsOf(d.dedup) + {id} {
        assert x in ids;
      }
    }
  }

  lemma {:induction false} DroppedFits(d: Day, w: TerminalWork)
    requires SoundDay(d) && IsWork(w)
    ensures SoundCell(MinuteAfter(d, w).cell) && NewlyDropped(d, w) <= MAX
    ensures |MinuteAfter(d, w).cell.rows| <= RowsIn(d.cells, MinuteOf(w.event.endedAt)) + Budget(d)
    ensures MinuteAfter(d, w).cell.date == d.date && MinuteAfter(d, w).cell.minute == MinuteOf(w.event.endedAt)
  {
    var m := MinuteOf(w.event.endedAt);
    EmptyCellSound(d.date, m);
    FoldsAreFolds(w);
    var s := Progress(CellFor(d, m), Budget(d), true);
    hide SoundCell, ApplyAll, IsFold, FoldsOf, MinuteOf;
    ApplyAllSound(s, FoldsOf(w));
    BudgetSpent(s, FoldsOf(w));
    SoundDropped(MinuteAfter(d, w).cell);
  }

  lemma {:induction false} SoundDropped(c: Cell)
    requires SoundCell(c)
    ensures c.coverage.droppedRows <= MAX && c.minute < MINUTES_A_DAY
  {
  }

  /** The envelope of a day stays guarded around any minutes that fit the row cap. */
  lemma {:induction false} EncloseKeeps(d: Day, cells: map<nat, Cell>, dropped: nat, id: nat, limit: nat, exact: bool)
    requires EnvelopeOk(d) && RowsUpTo(cells, MINUTES_A_DAY) <= MAX_DAY_ROWS && dropped <= MAX && limit <= MAX_DEDUP_IDS
    ensures var d' := Enclose(d, cells, dropped, id, limit, exact);
            EnvelopeOk(d') && d'.cells == cells && d'.date == d.date
  {
    hide IsDedup, IsCoverage, AddDedup, MarkDroppedRows, Mark, RowsUpTo;
    var d1 := d.(cells := cells, coverage := MarkDroppedRows(d.coverage, dropped));
    MarkDroppedRowsKeepsGuard(d.coverage, dropped);
    DropsKeepDedup(d.coverage, dropped);
    AddDedupKeeps(d1, id, limit);
    var d2 := AddDedup(d1, id, limit);
    CoverageParts(d2.coverage);
    MarkKeepsGuard(d2.coverage, CounterOverflow, OverflowLoss, CountersField, 1);
    MarkLeavesCounters(d2.coverage, CounterOverflow, OverflowLoss, CountersField, 1);
  }

  lemma {:induction false} RowsAfter(d: Day, w: TerminalWork)
    requires SoundDay(d) && IsWork(w)
    ensures RowsUpTo(d.cells[MinuteOf(w.event.endedAt) := MinuteAfter(d, w).cell], MINUTES_A_DAY) <= MAX_DAY_ROWS
  {
    DroppedFits(d, w);
    hide MinuteAfter, MinuteOf, RowsUpTo, SoundCell, IsDedup, IsCoverage, DedupAnnounced;
    RowsUpdate(d.cells, MinuteOf(w.event.endedAt), MinuteAfter(d, w).cell, MINUTES_A_DAY);
  }

  /** A work leaves its day sound: caps, sorted index and coverage included, exact or not. */
  lemma {:induction false} DayStaysSound(d: Day, w: TerminalWork, limit: nat)
    requires SoundDay(d) && IsWork(w) && limit <= MAX_DEDUP_IDS
    ensures SoundDay(DayAfter(d, w, limit)) && DayAfter(d, w, limit).date == d.date
    ensures DayAfter(d, w, limit).cells == d.cells[MinuteOf(w.event.endedAt) := MinuteAfter(d, w).cell]
  {
    DroppedFits(d, w);
    RowsAfter(d, w);
    hide MinuteAfter, NewlyDropped, MinuteOf, SoundCell, EnvelopeOk, Enclose, SoundDay;
    SoundEnvelope(d);
    var cells := d.cells[MinuteOf(w.event.endedAt) := MinuteAfter(d, w).cell];
    EncloseKeeps(d, cells, NewlyDropped(d, w), w.event.requestId, limit, MinuteAfter(d, w).exact);
    OneCellSound(d, DayAfter(d, w, limit), MinuteOf(w.event.endedAt), MinuteAfter(d, w).cell);
  }

  lemma {:induction false} SoundEnvelope(d: Day)
    requires SoundDay(d)
    ensures EnvelopeOk(d)
  {
  }

  lemma {:induction false} OneCellSound(d: Day, d': Day, m: nat, c: Cell)
    requires SoundDay(d) && EnvelopeOk(d') && d'.cells == d.cells[m := c] && d'.date == d.date
    requires SoundCell(c) && c.minute == m && c.date == d.date
    ensures SoundDay(d')
  {
    hide SoundCell, EnvelopeOk;
  }

  lemma {:induction false} DropsKeepDedup(c: Coverage, count: nat)
    ensures MarkDroppedRows(c, count).droppedDedup == c.droppedDedup
    ensures c.state != Complete ==> MarkDroppedRows(c, count).state != Complete
  {
  }

  /**
   * The day's load-time guard survives a work exactly when the guard of the minute it lands in
   * does: every other clause of the day always holds.
   */
  lemma {:induction false} DayGuardExactlyWhen(d: Day, w: TerminalWork, limit: nat)
    requires SoundDay(d) && IsDay(d) && IsWork(w) && limit <= MAX_DEDUP_IDS
    ensures IsDay(DayAfter(d, w, limit))
            <==> forall j :: 0 <= j < |FoldsOf(w)| ==>
                   !Spoils(ApplyAll(Progress(CellFor(d, MinuteOf(w.event.endedAt)), Budget(d), true), FoldsOf(w)[..j]),
                           FoldsOf(w)[j])
  {
    var s := Progress(CellFor(d, MinuteOf(w.event.endedAt)), Budget(d), true);
    DayStaysSound(d, w, limit);
    EmptyCellSound(d.date, MinuteOf(w.event.endedAt));
    FoldsAreFolds(w);
    MinutesOfSound(DayAfter(d, w, limit));
    hide IsCell, SoundCell, FoldsOf, ApplyAll, Spoils, IsFold, EnvelopeOk, MinuteOf, DayAfter;
    GuardSurvivesExactlyWhen(s, FoldsOf(w));
    OneCellDecides(d, DayAfter(d, w, limit), MinuteOf(w.event.endedAt), MinuteAfter(d, w).cell);
  }

  /** The two things a work can have done wrong: a fold that was not exact, a label that does not load. */
  predicate AtFault(d: Day, w: TerminalWork) {
    !MinuteAfter(d, w).exact || exists i :: 0 <= i < |FoldsOf(w)| && !LoadableKey(FoldsOf(w)[i].key)
  }

  /** A work that costs its day the guard is at fault; an exact one whose labels load never does. */
  lemma {:induction false} OnlyAFaultSpoils(d: Day, w: TerminalWork, limit: nat)
    requires SoundDay(d) && IsDay(d) && IsWork(w) && limit <= MAX_DEDUP_IDS
    ensures !IsDay(DayAfter(d, w, limit)) ==> AtFault(d, w)
  {
    if !AtFault(d, w) {
      DayStaysSound(d, w, limit);
      MinutesOfSound(DayAfter(d, w, limit));
      FaultlessMinute(d, w);
      hide IsCell, SoundCell, FoldsOf, ApplyAll, IsFold, EnvelopeOk, MinuteOf, DayAfter;
      OneCellDecides(d, DayAfter(d, w, limit), MinuteOf(w.event.endedAt), MinuteAfter(d, w).cell);
    }
  }

  lemma {:induction false} FaultlessMinute(d: Day, w: TerminalWork)
    requires SoundDay(d) && IsDay(d) && IsWork(w) && !AtFault(d, w)
    ensures IsCell(MinuteAfter(d, w).cell)
  {
    hide IsCell, SoundCell, FoldsOf, ApplyAll, IsFold, EnvelopeOk, MinuteOf, LoadableKey;
    EmptyCellSound(d.date, MinuteOf(w.event.endedAt));
    FoldsAreFolds(w);
    ExactWorkKeepsGuard(Progress(CellFor(d, MinuteOf(w.event.endedAt)), Budget(d), true), FoldsOf(w));
  }

  lemma {:induction false} OneCellDecides(d: Day, d': Day, m: nat, c: Cell)
    requires IsDay(d) && SoundDay(d') && d'.cells == d.cells[m := c] && d'.date == d.date && |d'.cells| <= MINUTES_A_DAY
    ensures IsDay(d') <==> IsCell(c)
  {
    hide IsCell, SoundCell, EnvelopeOk;
    assert d'.cells[m] == c;
  }

  lemma {:induction false} MinutesOfSound(d: Day)
    requires SoundDay(d)
    ensures |d.cells| <= MINUTES_A_DAY
  {
    forall m | m in d.cells ensures m < MINUTES_A_DAY {
      SoundDropped(d.cells[m]);
    }
    MinutesBounded(d.cells);
  }
}
