/**
 * One minute cell: a root aggregate, its dimension rows under the per-cell and per-day caps, and
 * the coverage that announces the rows that were not kept.
 */
module Minutes {
  import opened Common
  import opened Cells
  import opened Facts
  import opened Aggregates
  import opened Coverages

  const MAX_ROWS_PER_CELL: nat := 512

  datatype RowKind = RequestRow | AttemptRow(role: Role)

  datatype RowKey = RowKey(
    kind: RowKind, provider: Option<Label>, model: Option<Label>, client: Option<Label>,
    credentialId: Option<Label>, attribution: Attribution, outcome: Outcome, failure: Option<Failure>)

  datatype Row = Row(key: RowKey, agg: Aggregate)

  datatype Cell = Cell(date: int, minute: nat, aggregate: Aggregate, rows: seq<Row>, coverage: CellCoverage)

  const MINUTES_A_DAY: nat := 1440

  function EmptyCell(date: int, minute: nat): Cell {
    Cell(date, minute, EMPTY_AGGREGATE, [], EMPTY_CELL_COVERAGE)
  }

  function OwnerOf(key: RowKey): Owner {
    if key.kind.RequestRow? then OfRequests(key.outcome) else OfAttempts(key.outcome)
  }

  predicate LoadableKey(key: RowKey) {
    && LoadableOrNull(key.provider) && LoadableOrNull(key.model)
    && LoadableOrNull(key.client) && LoadableOrNull(key.credentialId)
  }

  /** `isDimensionRow`. */
  predicate IsRow(r: Row) {
    LoadableKey(r.key) && Coherent(r.key.outcome, r.key.failure) && IsAggregate(r.agg, OwnerOf(r.key))
  }

  /** `isMinuteShard` without the byte ceiling. */
  predicate IsCell(c: Cell) {
    && c.minute < MINUTES_A_DAY && IsAggregate(c.aggregate, General)
    && |c.rows| <= MAX_ROWS_PER_CELL && (forall i :: 0 <= i < |c.rows| ==> IsRow(c.rows[i]))
    && IsCellCoverage(c.coverage)
  }

  // ---------------------------------------------------------------- folding one terminal work

  /** One contribution of a terminal work to its minute, with the row it belongs to. */
  datatype Fold =
    | RequestFold(event: RequestEvent, outcome: Outcome, key: RowKey)
    | AttemptFold(packet: AttemptPacket, key: RowKey)

  predicate IsFold(f: Fold) {
    && Coherent(f.key.outcome, f.key.failure)
    && match f
       case RequestFold(e, outcome, key) => key.kind == RequestRow && key.outcome == outcome
       case AttemptFold(p, key) => key.kind == AttemptRow(p.role) && key.outcome == p.outcome && AreSnapshots(p.tokens)
  }

  function RootStep(a: Aggregate, f: Fold): Step {
    match f
    case RequestFold(e, outcome, _) => AddRequest(a, e, outcome)
    case AttemptFold(p, _) => AddRootAttempt(a, p)
  }

  function RowStep(a: Aggregate, f: Fold): Step {
    match f
    case RequestFold(e, outcome, _) => AddRequest(a, e, outcome)
    case AttemptFold(p, _) => AddAttempt(a, p)
  }

  /** The index of the row with this key, or the number of rows. */
  function IndexOf(rows: seq<Row>, key: RowKey): (i: nat)
    ensures i <= |rows|
    ensures i < |rows| ==> rows[i].key == key
    ensures forall j :: 0 <= j < i ==> rows[j].key != key
  {
    if |rows| == 0 then 0 else if rows[0].key == key then 0 else 1 + IndexOf(rows[1..], key)
  }

  /** A cell in the middle of a terminal work, with the rows the day may still create. */
  datatype Progress = Progress(cell: Cell, budget: nat, exact: bool)

  predicate HasRow(c: Cell, key: RowKey) {
    IndexOf(c.rows, key) < |c.rows|
  }

  predicate HasRoom(s: Progress) {
    |s.cell.rows| < MAX_ROWS_PER_CELL && s.budget > 0
  }

  /** The root's share of one contribution; skipped when an earlier fold was inexact. */
  function FoldRoot(s: Progress, f: Fold): Progress {
    if !s.exact then s
    else var r := RootStep(s.cell.aggregate, f); s.(cell := s.cell.(aggregate := r.agg), exact := r.exact)
  }

  /** `findRow`: the row exists, or is created empty, or its loss is announced. */
  function FindRow(s: Progress, key: RowKey): Progress {
    if HasRow(s.cell, key) then s
    else if HasRoom(s) then s.(cell := s.cell.(rows := s.cell.rows + [Row(key, EMPTY_AGGREGATE)]),
                               budget := s.budget - 1)
    else s.(cell := s.cell.(coverage := DropRow(s.cell.coverage)))
  }

  function FoldRow(s: Progress, f: Fold): Progress {
    var i := IndexOf(s.cell.rows, f.key);
    if !s.exact || i == |s.cell.rows| then s
    else
      var r := RowStep(s.cell.rows[i].agg, f);
      s.(cell := s.cell.(rows := s.cell.rows[i := s.cell.rows[i].(agg := r.agg)]), exact := r.exact)
  }

  function ApplyOne(s: Progress, f: Fold): Progress {
    FoldRow(FindRow(FoldRoot(s, f), f.key), f)
  }

  function ApplyAll(s: Progress, fs: seq<Fold>): Progress {
    if |fs| == 0 then s else ApplyOne(ApplyAll(s, fs[..|fs| - 1]), fs[|fs| - 1])
  }

  // ---------------------------------------------------------------- what always holds

  predicate UniqueKeys(rows: seq<Row>) {
    forall i, j :: 0 <= i < j < |rows| ==> rows[i].key != rows[j].key
  }

  /** A row that may not count anything yet. */
  predicate IsSoundRow(r: Row) {
    Coherent(r.key.outcome, r.key.failure) && PartsOk(r.agg) && CountsOk(r.agg, OwnerOf(r.key))
  }

  predicate SoundCell(c: Cell) {
    && c.minute < MINUTES_A_DAY && IsAggregate(c.aggregate, General)
    && |c.rows| <= MAX_ROWS_PER_CELL && (forall i :: 0 <= i < |c.rows| ==> IsSoundRow(c.rows[i]))
    && UniqueKeys(c.rows) && IsCellCoverage(c.coverage)
  }

  lemma {:induction false} RootSound(s: Progress, f: Fold)
    requires SoundCell(s.cell) && IsFold(f)
    ensures SoundCell(FoldRoot(s, f).cell)
  {
    match f {
      case RequestFold(e, outcome, _) => RootRequestGuarded(s.cell.aggregate, e, outcome);
      case AttemptFold(p, _) => RootAttemptGuarded(s.cell.aggregate, p);
    }
    hide AddRequest, AddRootAttempt, IsAggregate;
  }

  lemma {:induction false} FindSound(s: Progress, f: Fold)
    requires SoundCell(s.cell) && IsFold(f)
    ensures SoundCell(FindRow(s, f.key).cell)
  {
    hide DropRow, IsAggregate, IsSoundRow, IsCellCoverage;
    DropRowKeepsGuard(s.cell.coverage);
    FreshRowSound(f.key);
  }

  lemma FreshRowSound(key: RowKey)
    requires Coherent(key.outcome, key.failure)
    ensures IsSoundRow(Row(key, EMPTY_AGGREGATE))
  {
  }

  /** A row that is folded into satisfies its own guard from then on. */
  lemma {:induction false} RowStepGuarded(r: Row, f: Fold)
    requires IsSoundRow(r) && IsFold(f) && r.key == f.key
    ensures IsAggregate(RowStep(r.agg, f).agg, OwnerOf(r.key))
  {
    match f {
      case RequestFold(e, outcome, _) => RequestRowGuarded(r.agg, e, outcome);
      case AttemptFold(p, _) => AttemptRowGuarded(r.agg, p);
    }
  }

  lemma {:induction false} RowSound(s: Progress, f: Fold)
    requires SoundCell(s.cell) && IsFold(f)
    ensures SoundCell(FoldRow(s, f).cell)
  {
    var i := IndexOf(s.cell.rows, f.key);
    if s.exact && i < |s.cell.rows| {
      RowStepGuarded(s.cell.rows[i], f);
      hide RowStep, PartsOk, CountsOk;
    }
  }

  /** Every contribution keeps the caps, the unique keys and all guards but "a row counts something". */
  lemma {:induction false} ApplyOneSound(s: Progress, f: Fold)
    requires SoundCell(s.cell) && IsFold(f)
    ensures SoundCell(ApplyOne(s, f).cell)
  {
    RootSound(s, f);
    FindSound(FoldRoot(s, f), f);
    RowSound(FindRow(FoldRoot(s, f), f.key), f);
    hide SoundCell, FoldRoot, FindRow, FoldRow;
  }

  lemma {:induction false} ApplyAllSound(s: Progress, fs: seq<Fold>)
    requires SoundCell(s.cell) && forall i :: 0 <= i < |fs| ==> IsFold(fs[i])
    ensures SoundCell(ApplyAll(s, fs).cell)
  {
    if |fs| > 0 {
      ApplyAllSound(s, fs[..|fs| - 1]);
      ApplyOneSound(ApplyAll(s, fs[..|fs| - 1]), fs[|fs| - 1]);
    }
  }

  // ---------------------------------------------------------------- when the load-time guard survives

  /** A row is created although its fold will be skipped, or under a label the loader refuses. */
  predicate Spoils(s: Progress, f: Fold) {
    var r := FoldRoot(s, f);
    !HasRow(r.cell, f.key) && HasRoom(r) && (!r.exact || !LoadableKey(f.key))
  }

  predicate Storable(c: Cell) {
    forall i :: 0 <= i < |c.rows| ==> LoadableKey(c.rows[i].key) && CountOf(c.rows[i].agg, OwnerOf(c.rows[i].key)) > 0
  }

  lemma {:induction false} GuardIsSoundAndStorable(c: Cell)
    requires SoundCell(c)
    ensures IsCell(c) <==> Storable(c)
  {
    if IsCell(c) {
      forall i | 0 <= i < |c.rows|
        ensures LoadableKey(c.rows[i].key) && CountOf(c.rows[i].agg, OwnerOf(c.rows[i].key)) > 0
      {
        assert IsRow(c.rows[i]);
      }
    }
    if Storable(c) {
      forall i | 0 <= i < |c.rows| ensures IsRow(c.rows[i]) {
        assert IsSoundRow(c.rows[i]);
      }
    }
  }

  /** Row i can never satisfy its guard again in this terminal work. */
  predicate SpoiledAt(s: Progress, i: nat) {
    && i < |s.cell.rows|
    && (!LoadableKey(s.cell.rows[i].key)
        || (!s.exact && CountOf(s.cell.rows[i].agg, OwnerOf(s.cell.rows[i].key)) == 0))
  }

  lemma {:induction false} FreshIndex(rows: seq<Row>, key: RowKey)
    requires forall i :: 0 <= i < |rows| ==> rows[i].key != key
    ensures IndexOf(rows + [Row(key, EMPTY_AGGREGATE)], key) == |rows|
  {
    var grown := rows + [Row(key, EMPTY_AGGREGATE)];
    assert grown[|rows|].key == key;
    assert forall i :: 0 <= i < |rows| ==> grown[i].key != key;
  }

  lemma {:induction false} RootLeavesRows(s: Progress, f: Fold)
    ensures FoldRoot(s, f).cell.rows == s.cell.rows && FoldRoot(s, f).budget == s.budget
    ensures FoldRoot(s, f).exact ==> s.exact
  {
    hide RootStep;
  }

  /** A spoiled row stays spoiled: its key is fixed, and no fold runs once one was inexact. */
  lemma {:induction false} SpoiledStays(s: Progress, f: Fold, i: nat)
    requires SpoiledAt(s, i)
    ensures SpoiledAt(ApplyOne(s, f), i)
  {
    RootLeavesRows(s, f);
    hide FoldRoot, RowStep, CountOf, LoadableKey;
  }

  lemma {:induction false} SpoilShows(s: Progress, f: Fold)
    requires Spoils(s, f)
    ensures SpoiledAt(ApplyOne(s, f), |s.cell.rows|)
  {
    RootLeavesRows(s, f);
    FreshIndex(s.cell.rows, f.key);
    hide FoldRoot, RowStep, LoadableKey;
  }

  /** Folding into an existing row keeps what it counts above zero. */
  lemma {:induction false} RowStepStorable(s: Progress, f: Fold)
    requires SoundCell(s.cell) && IsFold(f)
    requires forall j :: 0 <= j < |s.cell.rows| ==> LoadableKey(s.cell.rows[j].key)
    requires forall j :: 0 <= j < |s.cell.rows| && (s.exact ==> s.cell.rows[j].key != f.key)
                         ==> CountOf(s.cell.rows[j].agg, OwnerOf(s.cell.rows[j].key)) > 0
    ensures Storable(FoldRow(s, f).cell)
  {
    var i := IndexOf(s.cell.rows, f.key);
    if s.exact && i < |s.cell.rows| {
      RowStepGuarded(s.cell.rows[i], f);
      hide RowStep, PartsOk, CountsOk, LoadableKey;
    }
  }

  /** Looking a row up adds at most the fresh row, whose label was checked. */
  lemma {:induction false} FoundStorable(r: Progress, f: Fold)
    requires Storable(r.cell) && (HasRow(r.cell, f.key) || !HasRoom(r) || (r.exact && LoadableKey(f.key)))
    ensures var t := FindRow(r, f.key);
            && t.exact == r.exact
            && (forall j :: 0 <= j < |t.cell.rows| ==> LoadableKey(t.cell.rows[j].key))
            && (forall j :: 0 <= j < |t.cell.rows| && (t.exact ==> t.cell.rows[j].key != f.key)
                  ==> CountOf(t.cell.rows[j].agg, OwnerOf(t.cell.rows[j].key)) > 0)
  {
    hide LoadableKey, CountOf, OwnerOf, DropRow;
  }

  lemma {:induction false} ApplyOneStorable(s: Progress, f: Fold)
    requires SoundCell(s.cell) && IsFold(f) && Storable(s.cell) && !Spoils(s, f)
    ensures Storable(ApplyOne(s, f).cell)
  {
    hide FoldRoot, SoundCell, FoldRow, LoadableKey, CountOf, IsFold, DropRow, OwnerOf;
    var r := FoldRoot(s, f);
    RootSound(s, f);
    FindSound(r, f);
    RootLeavesRows(s, f);
    FoundStorable(r, f);
    RowStepStorable(FindRow(r, f.key), f);
  }

  lemma {:induction false} SpoiledIsNotStorable(s: Progress, i: nat)
    requires SpoiledAt(s, i)
    ensures !Storable(s.cell)
  {
  }

  /**
   * After a terminal work, the minute passes its load-time guard exactly when no contribution
   * created a row it then skipped (an earlier fold was inexact) or labelled unloadably.
   */
  lemma {:induction false} GuardSurvivesExactlyWhen(s: Progress, fs: seq<Fold>)
    requires SoundCell(s.cell) && IsCell(s.cell) && forall i :: 0 <= i < |fs| ==> IsFold(fs[i])
    ensures IsCell(ApplyAll(s, fs).cell) <==> forall j :: 0 <= j < |fs| ==> !Spoils(ApplyAll(s, fs[..j]), fs[j])
  {
    ApplyAllSound(s, fs);
    GuardIsSoundAndStorable(s.cell);
    GuardIsSoundAndStorable(ApplyAll(s, fs).cell);
    if forall j :: 0 <= j < |fs| ==> !Spoils(ApplyAll(s, fs[..j]), fs[j]) {
      NeverSpoiled(s, fs);
    } else {
      var j :| 0 <= j < |fs| && Spoils(ApplyAll(s, fs[..j]), fs[j]);
      var i := SpoiledForGood(s, fs, j);
      SpoiledIsNotStorable(ApplyAll(s, fs), i);
    }
  }

  lemma {:induction false} NeverSpoiled(s: Progress, fs: seq<Fold>)
    requires SoundCell(s.cell) && Storable(s.cell) && forall i :: 0 <= i < |fs| ==> IsFold(fs[i])
    requires forall j :: 0 <= j < |fs| ==> !Spoils(ApplyAll(s, fs[..j]), fs[j])
    ensures Storable(ApplyAll(s, fs).cell)
  {
    if |fs| > 0 {
      var init := fs[..|fs| - 1];
      assert forall j :: 0 <= j < |init| ==> init[..j] == fs[..j];
      NeverSpoiled(s, init);
      ApplyAllSound(s, init);
      ApplyOneStorable(ApplyAll(s, init), fs[|fs| - 1]);
    }
  }

  lemma {:induction false} SpoiledForGood(s: Progress, fs: seq<Fold>, j: nat) returns (i: nat)
    requires j < |fs| && Spoils(ApplyAll(s, fs[..j]), fs[j])
    ensures SpoiledAt(ApplyAll(s, fs), i)
    decreases |fs|
  {
    var init := fs[..|fs| - 1];
    if j == |fs| - 1 {
      i := |ApplyAll(s, init).cell.rows|;
      SpoilShows(ApplyAll(s, init), fs[j]);
    } else {
      assert init[..j] == fs[..j];
      i := SpoiledForGood(s, init, j);
      SpoiledStays(ApplyAll(s, init), fs[|fs| - 1], i);
    }
  }

  /** In particular, a work whose folds were all exact and whose labels load keeps the guard. */
  lemma {:induction false} ExactWorkKeepsGuard(s: Progress, fs: seq<Fold>)
    requires SoundCell(s.cell) && IsCell(s.cell)
    requires forall i :: 0 <= i < |fs| ==> IsFold(fs[i]) && LoadableKey(fs[i].key)
    requires ApplyAll(s, fs).exact
    ensures IsCell(ApplyAll(s, fs).cell)
  {
    forall j | 0 <= j < |fs| ensures !Spoils(ApplyAll(s, fs[..j]), fs[j]) {
      assert fs[..j + 1][..j] == fs[..j];
      ExactPrefix(s, fs, j + 1);
      ExactParts(ApplyAll(s, fs[..j]), fs[j]);
    }
    GuardSurvivesExactlyWhen(s, fs);
  }

  lemma {:induction false} ExactParts(s: Progress, f: Fold)
    ensures ApplyOne(s, f).exact ==> FoldRoot(s, f).exact && s.exact
  {
    hide RootStep, RowStep;
  }

  lemma {:induction false} ExactPrefix(s: Progress, fs: seq<Fold>, j: nat)
    requires j <= |fs| && ApplyAll(s, fs).exact
    ensures ApplyAll(s, fs[..j]).exact
    decreases |fs|
  {
    if j == |fs| {
      assert fs[..j] == fs;
    } else {
      var init := fs[..|fs| - 1];
      ExactParts(ApplyAll(s, init), fs[|fs| - 1]);
      assert init[..j] == fs[..j];
      ExactPrefix(s, init, j);
    }
  }
}
