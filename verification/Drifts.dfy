/**
 * When a minute stops balancing: how far its root is ahead of its rows and its announced drops,
 * contribution by contribution, exact or not.
 */
module Drifts {
  import opened Common
  import opened Facts
  import opened Aggregates
  import opened Coverages
  import opened Minutes
  import opened Conservation

  /** The root's contributions less those of its rows and the announced dropped ones. */
  function Drift(c: Cell): int {
    Of(Contributions, c.aggregate) - SumRows(c.rows, Contributions) - c.coverage.droppedRows
  }

  /** The root counts the contribution, inexactly, and the row it has is then skipped. */
  predicate RootOnly(s: Progress, f: Fold) {
    s.exact && !FoldRoot(s, f).exact && (HasRow(s.cell, f.key) || HasRoom(s))
  }

  /** The root skips the contribution after an inexact one, and its row is announced as dropped. */
  predicate DropOnly(s: Progress, f: Fold) {
    !s.exact && !HasRow(s.cell, f.key) && !HasRoom(s)
  }

  function OneDrift(s: Progress, f: Fold): int {
    if RootOnly(s, f) then 1 else if DropOnly(s, f) then -1 else 0
  }

  function WorkDrift(s: Progress, fs: seq<Fold>): int {
    if |fs| == 0 then 0
    else WorkDrift(s, fs[..|fs| - 1]) + OneDrift(ApplyAll(s, fs[..|fs| - 1]), fs[|fs| - 1])
  }

  function RunDrift(c: Cell, ws: seq<Work>): int {
    if |ws| == 0 then 0
    else
      var before, w := Run(c, ws[..|ws| - 1]), ws[|ws| - 1];
      RunDrift(c, ws[..|ws| - 1]) + WorkDrift(Progress(before, w.budget, true), w.folds)
  }

  /** No counter of the cell can have passed n. */
  predicate Small(c: Cell, n: nat) {
    && Of(Contributions, c.aggregate) <= n && c.coverage.droppedRows <= n
    && forall i :: 0 <= i < |c.rows| ==> Of(Contributions, c.rows[i].agg) <= n
  }

  // ---------------------------------------------------------------- one contribution

  lemma {:induction false} RootCountsOne(s: Progress, f: Fold)
    requires SoundCell(s.cell) && IsFold(f) && Of(Contributions, s.cell.aggregate) < MAX
    ensures Of(Contributions, FoldRoot(s, f).cell.aggregate)
            == Of(Contributions, s.cell.aggregate) + if s.exact then 1 else 0
  {
    hide AddRequest, AddRootAttempt, PartsOk, IsCellCoverage, UniqueKeys, IsSoundRow;
    match f {
      case RequestFold(e, outcome, _) => AddRequestCounters(s.cell.aggregate, e, outcome);
      case AttemptFold(p, _) => AddRootAttemptKeepsCounts(s.cell.aggregate, p);
    }
  }

  lemma {:induction false} RowCountsOne(r: Row, f: Fold)
    requires IsSoundRow(r) && IsFold(f) && r.key == f.key && Of(Contributions, r.agg) < MAX
    ensures Of(Contributions, RowStep(r.agg, f).agg) == Of(Contributions, r.agg) + 1
  {
    hide AddRequest, AddAttempt, PartsOk;
    match f {
      case RequestFold(e, outcome, _) =>
        AddRequestCounters(r.agg, e, outcome);
      case AttemptFold(p, _) =>
        AddAttemptKeepsCounts(r.agg, p);
    }
  }

  /** Looking the row up adds a row that counts nothing, or one announced drop. */
  lemma {:induction false} FoundDrift(s: Progress, key: RowKey, n: nat)
    requires s.cell.coverage.droppedRows < MAX
    requires forall i :: 0 <= i < |s.cell.rows| ==> Of(Contributions, s.cell.rows[i].agg) <= n
    ensures var t := FindRow(s, key);
            && t.exact == s.exact && t.cell.aggregate == s.cell.aggregate
            && SumRows(t.cell.rows, Contributions) == SumRows(s.cell.rows, Contributions)
            && t.cell.coverage.droppedRows
              == s.cell.coverage.droppedRows + (if HasRow(s.cell, key) || HasRoom(s) then 0 else 1)
            && (IndexOf(t.cell.rows, key) < |t.cell.rows| <==> HasRow(s.cell, key) || HasRoom(s))
            && forall i :: 0 <= i < |t.cell.rows| ==> Of(Contributions, t.cell.rows[i].agg) <= n
  {
    hide SumRows;
    if !HasRow(s.cell, key) && HasRoom(s) {
      SumAppend(s.cell.rows, Row(key, EMPTY_AGGREGATE), Contributions);
      EmptyMeasures(Contributions);
      FreshIndex(s.cell.rows, key);
    }
  }

  lemma {:induction false} FoldedDrift(s: Progress, f: Fold, n: nat)
    requires SoundCell(s.cell) && IsFold(f) && n < MAX
    requires forall i :: 0 <= i < |s.cell.rows| ==> Of(Contributions, s.cell.rows[i].agg) <= n
    ensures var t := FoldRow(s, f);
            && t.cell.aggregate == s.cell.aggregate && t.cell.coverage == s.cell.coverage
            && SumRows(t.cell.rows, Contributions) == SumRows(s.cell.rows, Contributions)
               + (if s.exact && IndexOf(s.cell.rows, f.key) < |s.cell.rows| then 1 else 0)
            && forall i :: 0 <= i < |t.cell.rows| ==> Of(Contributions, t.cell.rows[i].agg) <= n + 1
  {
    hide RowStep, SumRows, IsSoundRow, Of, IsFold;
    var i := IndexOf(s.cell.rows, f.key);
    if s.exact && i < |s.cell.rows| {
      var row := s.cell.rows[i];
      RowCountsOne(row, f);
      SumUpdate(s.cell.rows, i, row.(agg := RowStep(row.agg, f).agg), Contributions);
    }
  }

  /** One contribution moves the balance in those two ways and in no other. */
  lemma {:induction false} DriftOfOne(s: Progress, f: Fold, n: nat)
    requires SoundCell(s.cell) && IsFold(f) && Small(s.cell, n) && n < MAX
    ensures Drift(ApplyOne(s, f).cell) == Drift(s.cell) + OneDrift(s, f)
    ensures Small(ApplyOne(s, f).cell, n + 1)
  {
    hide FindRow, FoldRow, FoldRoot, SoundCell, IsFold, SumRows, HasRow, HasRoom;
    var r := FoldRoot(s, f);
    RootSound(s, f);
    RootLeavesRows(s, f);
    RootLeavesCoverage(s, f);
    RootCountsOne(s, f);
    FindSound(r, f);
    FoundDrift(r, f.key, n);
    FoldedDrift(FindRow(r, f.key), f, n);
  }

  lemma {:induction false} RootLeavesCoverage(s: Progress, f: Fold)
    ensures FoldRoot(s, f).cell.coverage == s.cell.coverage
    ensures forall key :: HasRow(FoldRoot(s, f).cell, key) <==> HasRow(s.cell, key)
    ensures HasRoom(FoldRoot(s, f)) <==> HasRoom(s)
  {
    hide RootStep, IndexOf;
  }

  /** A balanced minute stops balancing exactly when one of the two happens. */
  lemma {:induction false} BalanceBreaksExactlyWhen(s: Progress, f: Fold)
    requires SoundCell(s.cell) && IsFold(f) && Small(s.cell, MAX - 1) && Drift(s.cell) == 0
    ensures Drift(ApplyOne(s, f).cell) == 0 <==> !RootOnly(s, f) && !DropOnly(s, f)
  {
    hide Drift, ApplyOne, RootOnly, DropOnly, SoundCell, IsFold, Small;
    DriftOfOne(s, f, MAX - 1);
    hide OneDrift;
    OneDriftIs(s, f);
  }

  lemma OneDriftIs(s: Progress, f: Fold)
    ensures OneDrift(s, f) == 0 <==> !RootOnly(s, f) && !DropOnly(s, f)
  {
    hide RootOnly, DropOnly;
  }

  // ---------------------------------------------------------------- whole runs

  lemma {:induction false} DriftOfWork(s: Progress, fs: seq<Fold>, n: nat)
    requires SoundCell(s.cell) && Small(s.cell, n) && n + |fs| <= MAX && forall i :: 0 <= i < |fs| ==> IsFold(fs[i])
    ensures Drift(ApplyAll(s, fs).cell) == Drift(s.cell) + WorkDrift(s, fs)
    ensures Small(ApplyAll(s, fs).cell, n + |fs|) && SoundCell(ApplyAll(s, fs).cell)
  {
    hide ApplyOne, SoundCell, Small, IsFold, Drift, OneDrift;
    if |fs| > 0 {
      var init, f := fs[..|fs| - 1], fs[|fs| - 1];
      DriftOfWork(s, init, n);
      DriftOfOne(ApplyAll(s, init), f, n + |init|);
      ApplyOneSound(ApplyAll(s, init), f);
    }
  }

  predicate WorksFold(ws: seq<Work>) {
    forall i :: 0 <= i < |ws| ==> forall j :: 0 <= j < |ws[i].folds| ==> IsFold(ws[i].folds[j])
  }

  /**
   * Whatever reaches a minute, in any number of works and however inexactly: its root is ahead of its
   * rows and drops by the contributions only the root counted, less those only announced as dropped.
   */
  lemma {:induction false} DriftOverRuns(date: int, minute: nat, ws: seq<Work>)
    requires minute < MINUTES_A_DAY && WorksFold(ws) && Folds(ws) <= MAX
    ensures Drift(Run(EmptyCell(date, minute), ws)) == RunDrift(EmptyCell(date, minute), ws)
    ensures Small(Run(EmptyCell(date, minute), ws), Folds(ws)) && SoundCell(Run(EmptyCell(date, minute), ws))
  {
    hide ApplyAll, SoundCell, Small, IsFold, Drift, WorkDrift;
    var c := EmptyCell(date, minute);
    if |ws| == 0 {
      EmptyDrift(date, minute);
    } else {
      var init, w := ws[..|ws| - 1], ws[|ws| - 1];
      DriftOverRuns(date, minute, init);
      assert forall j :: 0 <= j < |w.folds| ==> IsFold(w.folds[j]);
      DriftOfWork(Progress(Run(c, init), w.budget, true), w.folds, Folds(init));
    }
  }

  lemma EmptyDrift(date: int, minute: nat)
    requires minute < MINUTES_A_DAY
    ensures Drift(EmptyCell(date, minute)) == 0 && Small(EmptyCell(date, minute), 0)
            && SoundCell(EmptyCell(date, minute))
  {
  }
}
