/** What a minute's root says, its rows say too: conservation between roots, rows and dropped rows. */
module Conservation {
  import opened Common
  import opened Cells
  import opened Facts
  import opened Aggregates
  import opened Coverages
  import opened Minutes

  /** Something an aggregate counts; k is a token kind. */
  datatype Measure =
    | Contributions
    | RequestKnown(k: nat) | RequestUnknown(k: nat)
    | AttemptKnown(k: nat) | AttemptUnknown(k: nat)

  predicate IsMeasure(m: Measure) {
    m.Contributions? || m.k < KINDS
  }

  function Of(m: Measure, a: Aggregate): nat
    requires IsMeasure(m)
  {
    match m
    case Contributions => a.requests + a.attempts
    case RequestKnown(k) => a.requestTokens[k].known
    case RequestUnknown(k) => a.requestTokens[k].unknown
    case AttemptKnown(k) => a.tokens[k].known
    case AttemptUnknown(k) => a.tokens[k].unknown
  }

  /** What one contribution adds to a measure, read off the event and not off the fold. */
  function Gain(m: Measure, f: Fold): nat
    requires IsMeasure(m)
  {
    match m
    case Contributions => 1
    case RequestKnown(k) => if f.RequestFold? && f.event.tokens[k].value.Some? then 1 else 0
    case RequestUnknown(k) => if f.RequestFold? && f.event.tokens[k].value.None? then 1 else 0
    case AttemptKnown(k) => if f.AttemptFold? then f.packet.tokens[k].known else 0
    case AttemptUnknown(k) => if f.AttemptFold? then f.packet.tokens[k].unknown else 0
  }

  function SumRows(rows: seq<Row>, m: Measure): nat
    requires IsMeasure(m)
  {
    if |rows| == 0 then 0 else SumRows(rows[..|rows| - 1], m) + Of(m, rows[|rows| - 1].agg)
  }

  // ---------------------------------------------------------------- one fold

  /** An exact request fold adds every fact it was given and leaves the attempt side alone. */
  lemma {:induction false} AddRequestExact(a: Aggregate, e: RequestEvent, outcome: Outcome)
    requires AddRequest(a, e, outcome).exact
    ensures var s := AddRequest(a, e, outcome);
            && s.agg.requests == a.requests + 1 && s.agg.attempts == a.attempts && s.agg.tokens == a.tokens
            && AddRawFrom(a.requestTokens, e.tokens, 0) == (s.agg.requestTokens, true)
  {
    var s1 := CountOutcome(CountRequest(a), outcome);
    var s2 := FoldLatency(s1, Fact(if outcome == Cancelled then None else e.latencyMs, e.endedAt));
    var s3 := FoldCommit(s2, Fact(if outcome == Success then e.commitMs else None, e.endedAt));
    var s4 := FoldRequestTokens(s3, e.tokens);
    var s5 := FoldRequestSpend(s4, e.spend);
    AbandonedOnlyTouchesItsCells(s5, e.abandonedSpend);
    AbandonedExact(s5, e.abandonedSpend);
    hide AddMetric, AddCharge, FoldAllAbandoned, AddRawFrom;
    assert s4.exact && s3.exact;
  }

  lemma {:induction false} AddRequestGain(a: Aggregate, e: RequestEvent, outcome: Outcome, key: RowKey, m: Measure)
    requires IsMeasure(m) && AddRequest(a, e, outcome).exact
    ensures Of(m, AddRequest(a, e, outcome).agg) == Of(m, a) + Gain(m, RequestFold(e, outcome, key))
  {
    AddRequestExact(a, e, outcome);
    hide AddRequest, AddRaw, AddRawFrom;
    if m.RequestKnown? || m.RequestUnknown? {
      ExactHadRoom(a.requestTokens[m.k], e.tokens[m.k]);
    }
  }

  lemma {:induction false} AddRootAttemptGain(a: Aggregate, p: AttemptPacket, key: RowKey, m: Measure)
    requires IsMeasure(m) && AddRootAttempt(a, p).exact
    ensures Of(m, AddRootAttempt(a, p).agg) == Of(m, a) + Gain(m, AttemptFold(p, key))
  {
    hide AddCharge, AddTokensFrom;
  }

  lemma {:induction false} AddAttemptGain(a: Aggregate, p: AttemptPacket, key: RowKey, m: Measure)
    requires IsMeasure(m) && AddAttempt(a, p).exact
    ensures Of(m, AddAttempt(a, p).agg) == Of(m, a) + Gain(m, AttemptFold(p, key))
  {
    hide AddMetric, AddCharge, AddTokensFrom;
  }

  lemma {:induction false} RootGain(a: Aggregate, f: Fold, m: Measure)
    requires IsMeasure(m) && RootStep(a, f).exact
    ensures Of(m, RootStep(a, f).agg) == Of(m, a) + Gain(m, f)
  {
    match f {
      case RequestFold(e, outcome, key) => AddRequestGain(a, e, outcome, key, m);
      case AttemptFold(p, key) => AddRootAttemptGain(a, p, key, m);
    }
  }

  lemma {:induction false} RowGain(a: Aggregate, f: Fold, m: Measure)
    requires IsMeasure(m) && RowStep(a, f).exact
    ensures Of(m, RowStep(a, f).agg) == Of(m, a) + Gain(m, f)
  {
    match f {
      case RequestFold(e, outcome, key) => AddRequestGain(a, e, outcome, key, m);
      case AttemptFold(p, key) => AddAttemptGain(a, p, key, m);
    }
  }

  // ---------------------------------------------------------------- sums over rows

  lemma {:induction false} SumAppend(rows: seq<Row>, r: Row, m: Measure)
    requires IsMeasure(m)
    ensures SumRows(rows + [r], m) == SumRows(rows, m) + Of(m, r.agg)
  {
    assert (rows + [r])[..|rows|] == rows;
  }

  lemma {:induction false} SumUpdate(rows: seq<Row>, i: nat, r: Row, m: Measure)
    requires IsMeasure(m) && i < |rows|
    ensures SumRows(rows[i := r], m) + Of(m, rows[i].agg) == SumRows(rows, m) + Of(m, r.agg)
  {
    var last := |rows| - 1;
    if i == last {
      assert rows[i := r][..last] == rows[..last];
    } else {
      SumUpdate(rows[..last], i, r, m);
      assert rows[i := r][..last] == rows[..last][i := r];
    }
  }

  lemma {:induction false} EmptyMeasures(m: Measure)
    requires IsMeasure(m)
    ensures Of(m, EMPTY_AGGREGATE) == 0
  {
  }

  // ---------------------------------------------------------------- one contribution

  function Dropped(s: Progress): nat {
    s.cell.coverage.droppedRows
  }

  /** Where one contribution went. */
  lemma {:induction false} Placed(s: Progress, f: Fold, m: Measure)
    requires IsMeasure(m) && ApplyOne(s, f).exact && Dropped(s) < MAX
    ensures var t := ApplyOne(s, f);
            && Of(m, t.cell.aggregate) == Of(m, s.cell.aggregate) + Gain(m, f)
            && (|| (Dropped(t) == Dropped(s) && SumRows(t.cell.rows, m) == SumRows(s.cell.rows, m) + Gain(m, f))
                || (Dropped(t) == Dropped(s) + 1 && SumRows(t.cell.rows, m) == SumRows(s.cell.rows, m)))
  {
    ExactParts(s, f);
    RootLeavesRows(s, f);
    RootGain(s.cell.aggregate, f, m);
    var r := FoldRoot(s, f);
    var t := FindRow(r, f.key);
    var i := IndexOf(t.cell.rows, f.key);
    assert Dropped(r) == Dropped(s);
    if !HasRow(r.cell, f.key) && HasRoom(r) {
      SumAppend(r.cell.rows, Row(f.key, EMPTY_AGGREGATE), m);
      EmptyMeasures(m);
      FreshIndex(r.cell.rows, f.key);
    }
    hide FoldRoot, RootStep, HasRoom, SumRows;
    if i < |t.cell.rows| {
      var row := t.cell.rows[i];
      RowGain(row.agg, f, m);
      hide RowStep;
      SumUpdate(t.cell.rows, i, row.(agg := RowStep(row.agg, f).agg), m);
    }
  }

  // ---------------------------------------------------------------- whole runs

  /** A terminal work reaching this minute, with the rows its day could still create. */
  datatype Work = Work(budget: nat, folds: seq<Fold>)

  function ApplyWork(c: Cell, w: Work): Progress {
    ApplyAll(Progress(c, w.budget, true), w.folds)
  }

  function Run(c: Cell, ws: seq<Work>): Cell {
    if |ws| == 0 then c else ApplyWork(Run(c, ws[..|ws| - 1]), ws[|ws| - 1]).cell
  }

  predicate ExactRun(c: Cell, ws: seq<Work>) {
    |ws| > 0 ==>
      ExactRun(c, ws[..|ws| - 1]) && ApplyWork(Run(c, ws[..|ws| - 1]), ws[|ws| - 1]).exact
  }

  function Folds(ws: seq<Work>): nat {
    if |ws| == 0 then 0 else Folds(ws[..|ws| - 1]) + |ws[|ws| - 1].folds|
  }

  /** Contributions are conserved; measures are too as long as no row was dropped. */
  ghost predicate Balanced(c: Cell) {
    && Of(Contributions, c.aggregate) == SumRows(c.rows, Contributions) + c.coverage.droppedRows
    && (c.coverage.droppedRows == 0
        ==> forall m: Measure :: IsMeasure(m) ==> Of(m, c.aggregate) == SumRows(c.rows, m))
  }

  lemma {:induction false} ApplyOneBalanced(s: Progress, f: Fold)
    requires Balanced(s.cell) && ApplyOne(s, f).exact && Dropped(s) < MAX
    ensures Balanced(ApplyOne(s, f).cell) && Dropped(s) <= Dropped(ApplyOne(s, f)) <= Dropped(s) + 1
  {
    Placed(s, f, Contributions);
    var t := ApplyOne(s, f);
    forall m: Measure | IsMeasure(m) && Dropped(t) == 0 ensures Of(m, t.cell.aggregate) == SumRows(t.cell.rows, m) {
      Placed(s, f, m);
    }
    hide ApplyOne;
  }

  lemma {:induction false} ApplyAllBalanced(s: Progress, fs: seq<Fold>)
    requires Balanced(s.cell) && ApplyAll(s, fs).exact && Dropped(s) + |fs| <= MAX
    ensures Balanced(ApplyAll(s, fs).cell) && Dropped(ApplyAll(s, fs)) <= Dropped(s) + |fs|
  {
    if |fs| > 0 {
      var init := fs[..|fs| - 1];
      ExactParts(ApplyAll(s, init), fs[|fs| - 1]);
      ApplyAllBalanced(s, init);
      ApplyOneBalanced(ApplyAll(s, init), fs[|fs| - 1]);
    }
  }

  /**
   * After any run of exact works from an empty minute, the root's requests and attempts equal those
   * of its rows plus the announced dropped rows, and with none dropped every token count does too.
   */
  lemma {:induction false} ConservedOverRuns(date: int, minute: nat, ws: seq<Work>)
    requires ExactRun(EmptyCell(date, minute), ws) && Folds(ws) <= MAX
    ensures Balanced(Run(EmptyCell(date, minute), ws))
    ensures Run(EmptyCell(date, minute), ws).coverage.droppedRows <= Folds(ws)
  {
    if |ws| == 0 {
      forall m: Measure | IsMeasure(m) ensures Of(m, EMPTY_AGGREGATE) == 0 { EmptyMeasures(m); }
    } else {
      var init, w := ws[..|ws| - 1], ws[|ws| - 1];
      ConservedOverRuns(date, minute, init);
      ApplyAllBalanced(Progress(Run(EmptyCell(date, minute), init), w.budget, true), w.folds);
    }
  }

  // ---------------------------------------------------------------- the overflow counterexample

  function Reporting(id: nat, outcome: Outcome, tokens: Counter): RequestEvent {
    RequestEvent(id, 0, outcome, None, RelayHeld, 0, false, None, None, None, None, None, None, None,
                 [Fact(Some(tokens), 0), NO_FACT, NO_FACT, NO_FACT, NO_FACT, NO_FACT, NO_FACT], None, [])
  }

  function KeyFor(outcome: Outcome): RowKey {
    RowKey(RequestRow, None, None, None, None, RelayHeld, outcome, None)
  }

  function FirstMinute(): Progress {
    ApplyWork(EmptyCell(0, 0), Work(4096, [RequestFold(Reporting(0, Error, MAX), Error, KeyFor(Error))]))
  }

  function SecondMinute(): Progress {
    ApplyWork(FirstMinute().cell, Work(4095, [RequestFold(Reporting(1, Success, 1), Success, KeyFor(Success))]))
  }

  /** The root after the first report: one failed request that brought the token sum to MAX. */
  predicate Reported(a: Aggregate) {
    && a.requests == 1 && a.attempts == 0 && a.served == 0
    && a.requestTokens[0].value == Some(MAX) && a.requestTokens[0].known == 1 && !Uncertain(a.requestTokens[0])
  }

  lemma {:induction false} FirstMinuteHolds()
    ensures var c := FirstMinute().cell;
            && FirstMinute().exact && c.rows == [Row(KeyFor(Error), c.aggregate)]
            && Reported(c.aggregate) && c.coverage == EMPTY_CELL_COVERAGE
  {
    var start, f := Progress(EmptyCell(0, 0), 4096, true), RequestFold(Reporting(0, Error, MAX), Error, KeyFor(Error));
    SingleFold(start, f);
    FirstReport(EMPTY_AGGREGATE);
    hide AddRequest, ApplyOne;
    FreshRow(start, f);
  }

  /**
   * Two requests are enough to lose the minute: the first reports MAX input tokens, the second one
   * more under another outcome. The root's fold is inexact, the second row is created and skipped,
   * and the minute no longer loads nor balances.
   */
  lemma {:induction false} OverflowLosesTheMinute()
    ensures var second := SecondMinute();
            && FirstMinute().exact && !second.exact && |second.cell.rows| == 2
            && second.cell.rows[1] == Row(KeyFor(Success), EMPTY_AGGREGATE)
            && !IsCell(second.cell) && !Balanced(second.cell)
  {
    FirstMinuteHolds();
    SecondMinuteHolds();
    hide FirstMinute, SecondMinute, IsCell, Balanced;
    RefusedAndUnbalanced(SecondMinute().cell);
  }

  lemma {:induction false} RefusedAndUnbalanced(c: Cell)
    requires |c.rows| == 2 && CountOf(c.rows[1].agg, OwnerOf(c.rows[1].key)) == 0
    requires c.rows[0].agg.requests + c.rows[1].agg.requests < 2 && c.aggregate.requests == 2
             && c.coverage.droppedRows == 0
    requires c.rows[0].agg.attempts == c.rows[1].agg.attempts == 0
    ensures !IsCell(c) && !Balanced(c)
  {
    ZeroRowRefused(c, 1);
    SumOfTwo(c.rows);
    hide IsCell, SumRows;
  }

  lemma {:induction false} SecondMinuteHolds()
    ensures var (c, first) := (SecondMinute().cell, FirstMinute().cell);
            && !SecondMinute().exact && c.coverage == EMPTY_CELL_COVERAGE
            && |c.rows| == 2 && c.rows[0].agg == first.aggregate && c.rows[1] == Row(KeyFor(Success), EMPTY_AGGREGATE)
            && c.aggregate.requests == 2 && c.aggregate.attempts == 0
  {
    hide AddRequest, ApplyOne, FirstMinute, Reported, Reporting, Uncertain;
    FirstMinuteHolds();
    var again, g := Progress(FirstMinute().cell, 4095, true),
      RequestFold(Reporting(1, Success, 1), Success, KeyFor(Success));
    SecondReport(FirstMinute().cell.aggregate);
    SingleFold(again, g);
    FreshRow(again, g);
  }

  lemma {:induction false} SumOfTwo(rows: seq<Row>)
    requires |rows| == 2
    ensures SumRows(rows, Contributions) == Of(Contributions, rows[0].agg) + Of(Contributions, rows[1].agg)
  {
    SumAppend([rows[0]], rows[1], Contributions);
    SumAppend([], rows[0], Contributions);
    assert [rows[0]] + [rows[1]] == rows && [] + [rows[0]] == [rows[0]];
  }

  lemma {:induction false} ZeroRowRefused(c: Cell, i: nat)
    requires i < |c.rows| && CountOf(c.rows[i].agg, OwnerOf(c.rows[i].key)) == 0
    ensures !IsCell(c)
  {
    assert !IsRow(c.rows[i]);
  }

  /** A new row is folded into when the root's fold was exact, and left empty when it was not. */
  lemma {:induction false} FreshRow(s: Progress, f: Fold)
    requires s.exact && !HasRow(s.cell, f.key) && HasRoom(s)
    ensures var (r, t) := (RootStep(s.cell.aggregate, f), ApplyOne(s, f));
            && t.cell.aggregate == r.agg && t.cell.coverage == s.cell.coverage
            && t.exact == (r.exact && RowStep(EMPTY_AGGREGATE, f).exact)
            && t.cell.rows == s.cell.rows
              + [Row(f.key, if r.exact then RowStep(EMPTY_AGGREGATE, f).agg else EMPTY_AGGREGATE)]
  {
    FreshIndex(s.cell.rows, f.key);
    hide RootStep, RowStep;
  }

  lemma {:induction false} SingleFold(s: Progress, f: Fold)
    ensures ApplyAll(s, [f]) == ApplyOne(s, f)
  {
    assert [f][..0] == [];
  }

  lemma {:induction false} FirstReport(a: Aggregate)
    requires a == EMPTY_AGGREGATE
    ensures var s := AddRequest(a, Reporting(0, Error, MAX), Error);
            s.exact && Reported(s.agg)
  {
    var facts := Reporting(0, Error, MAX).tokens;
    AllExact(a.requestTokens, facts, 0);
  }

  lemma {:induction false} AllExact(t: Tokens, facts: TokenFacts, i: nat)
    requires i <= KINDS && forall k :: i <= k < KINDS ==> AddRaw(t[k], facts[k]).1
    ensures AddRawFrom(t, facts, i).1
    decreases KINDS - i
  {
    if i < KINDS { AllExact(t[i := AddRaw(t[i], facts[i]).0], facts, i + 1); }
  }

  lemma {:induction false} SecondReport(a: Aggregate)
    requires Reported(a)
    ensures var s := AddRequest(a, Reporting(1, Success, 1), Success);
            !s.exact && s.agg.requests == 2 && s.agg.attempts == 0
  {
    var e := Reporting(1, Success, 1);
    assert !AddRaw(a.requestTokens[0], e.tokens[0]).1;
    assert !AddRawFrom(a.requestTokens, e.tokens, 0).1;
    hide AddRawFrom, AddMetric;
  }
}
