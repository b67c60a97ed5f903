/** Announced losses: coverage records, the bounded loss markers beside them, and their guards. */
module Coverages {
  import opened Common

  datatype State = Complete | PartialData | Unavailable | Stale | NoData
  datatype Reason =
    RetentionPruned | RowCap | DetailCap | DedupCap | CounterOverflow | CorruptRecovery | UnknownReason
  datatype LossKind = UnknownLoss | OverflowLoss | TruncatedLoss | DedupLoss | CorruptLoss
  datatype Field =
    RowsField | RecentField | DetailsField | DedupField | CountersField | MonthsField | RetentionField
    | EventField | DetailPacketField | AttemptPacketField
    | PendingRequestsField | PendingAttemptsField | PendingStartsField | PendingTerminalsField | DayField

  datatype Loss = Loss(kind: LossKind, field: Field, count: nat)

  const MAX_LOSS_MARKERS: nat := 32

  predicate AreLosses(losses: seq<Loss>) {
    |losses| <= MAX_LOSS_MARKERS && forall i :: 0 <= i < |losses| ==> 0 < losses[i].count <= MAX
  }

  /** `addLoss`: adds to the marker of that kind and field, or opens one while there is room. */
  function AddLoss(losses: seq<Loss>, kind: LossKind, field: Field, count: nat): seq<Loss> {
    AddLossFrom(losses, kind, field, count, 0)
  }

  function AddLossFrom(losses: seq<Loss>, kind: LossKind, field: Field, count: nat, i: nat): seq<Loss>
    requires i <= |losses|
    decreases |losses| - i
  {
    if i == |losses| then
      if |losses| < MAX_LOSS_MARKERS then losses + [Loss(kind, field, count)] else losses
    else if losses[i].kind == kind && losses[i].field == field then
      losses[i := losses[i].(count := if losses[i].count + count <= MAX then losses[i].count + count else MAX)]
    else AddLossFrom(losses, kind, field, count, i + 1)
  }

  lemma {:induction false} AddLossFromKeepsGuard(losses: seq<Loss>, kind: LossKind, field: Field, count: nat, i: nat)
    requires AreLosses(losses) && 0 < count <= MAX && i <= |losses|
    ensures AreLosses(AddLossFrom(losses, kind, field, count, i))
    decreases |losses| - i
  {
    if i < |losses| && !(losses[i].kind == kind && losses[i].field == field) {
      AddLossFromKeepsGuard(losses, kind, field, count, i + 1);
    }
  }

  lemma {:induction false} AddLossKeepsGuard(losses: seq<Loss>, kind: LossKind, field: Field, count: nat)
    requires AreLosses(losses) && 0 < count <= MAX
    ensures AreLosses(AddLoss(losses, kind, field, count))
  {
    AddLossFromKeepsGuard(losses, kind, field, count, 0);
  }

  // ---------------------------------------------------------------- what the markers say

  /** What the first marker of this kind and field counts. */
  function MarkerOf(losses: seq<Loss>, kind: LossKind, field: Field): Option<nat> {
    MarkerFrom(losses, kind, field, 0)
  }

  function MarkerFrom(losses: seq<Loss>, kind: LossKind, field: Field, i: nat): Option<nat>
    requires i <= |losses|
    decreases |losses| - i
  {
    if i == |losses| then None
    else if losses[i].kind == kind && losses[i].field == field then Some(losses[i].count)
    else MarkerFrom(losses, kind, field, i + 1)
  }

  lemma {:induction false} SameMarkers(a: seq<Loss>, b: seq<Loss>, kind: LossKind, field: Field, i: nat)
    requires i <= |a| == |b| && forall j :: i <= j < |a| ==> a[j] == b[j]
    ensures MarkerFrom(a, kind, field, i) == MarkerFrom(b, kind, field, i)
    decreases |a| - i
  {
    if i < |a| { SameMarkers(a, b, kind, field, i + 1); }
  }

  /** A marker raised by a count, up to the safe integers; nothing raises nothing. */
  function Raised(marker: Option<nat>, count: nat): Option<nat> {
    if count == 0 then marker else Some(Min(OrElse(marker, 0) + count, MAX))
  }

  /** A loss raises its own marker, unless there is none and no room for one, and no other. */
  lemma {:induction false} AddLossSays(
    losses: seq<Loss>, kind: LossKind, field: Field, count: nat, k: LossKind, f: Field)
    requires 0 < count <= MAX
    ensures MarkerOf(AddLoss(losses, kind, field, count), k, f)
            == if k == kind && f == field && (MarkerOf(losses, k, f).Some? || |losses| < MAX_LOSS_MARKERS)
               then Raised(MarkerOf(losses, k, f), count) else MarkerOf(losses, k, f)
    ensures |losses| <= |AddLoss(losses, kind, field, count)| <= |losses| + 1
  {
    AddLossFromSays(losses, kind, field, count, 0, k, f);
  }

  predicate Matches(l: Loss, kind: LossKind, field: Field) {
    l.kind == kind && l.field == field
  }

  /** Where the search for the marker ends, and what it finds or leaves there. */
  lemma {:induction false} AddLossHere(
    losses: seq<Loss>, kind: LossKind, field: Field, count: nat, i: nat, k: LossKind, f: Field)
    requires 0 < count <= MAX && i <= |losses| && (i < |losses| ==> Matches(losses[i], kind, field))
    ensures var r := AddLossFrom(losses, kind, field, count, i);
            && |losses| <= |r| <= |losses| + 1 && (forall j :: 0 <= j < i ==> r[j] == losses[j])
            && MarkerFrom(r, k, f, i)
               == if k == kind && f == field && (i < |losses| || |losses| < MAX_LOSS_MARKERS)
                  then Raised(MarkerFrom(losses, k, f, i), count) else MarkerFrom(losses, k, f, i)
  {
    if i < |losses| { SameMarkers(losses, AddLossFrom(losses, kind, field, count, i), k, f, i + 1); }
  }

  lemma MarkerStep(losses: seq<Loss>, kind: LossKind, field: Field, i: nat)
    requires i < |losses|
    ensures MarkerFrom(losses, kind, field, i)
            == if Matches(losses[i], kind, field) then Some(losses[i].count)
               else MarkerFrom(losses, kind, field, i + 1)
  {
  }

  lemma AddLossStep(losses: seq<Loss>, kind: LossKind, field: Field, count: nat, i: nat)
    requires i < |losses| && !Matches(losses[i], kind, field)
    ensures AddLossFrom(losses, kind, field, count, i) == AddLossFrom(losses, kind, field, count, i + 1)
  {
  }

  lemma {:induction false} AddLossFromSays(
    losses: seq<Loss>, kind: LossKind, field: Field, count: nat, i: nat, k: LossKind, f: Field)
    requires 0 < count <= MAX && i <= |losses|
    ensures var r := AddLossFrom(losses, kind, field, count, i);
            && |losses| <= |r| <= |losses| + 1 && (forall j :: 0 <= j < i ==> r[j] == losses[j])
            && MarkerFrom(r, k, f, i)
               == if k == kind && f == field && (MarkerFrom(losses, k, f, i).Some? || |losses| < MAX_LOSS_MARKERS)
                  then Raised(MarkerFrom(losses, k, f, i), count) else MarkerFrom(losses, k, f, i)
    decreases |losses| - i
  {
    hide Raised, AddLossFrom, MarkerFrom;
    if i == |losses| {
      AddLossHere(losses, kind, field, count, i, k, f);
      NoMarker(losses, k, f);
    } else {
      MarkerStep(losses, k, f, i);
      if Matches(losses[i], kind, field) {
        AddLossHere(losses, kind, field, count, i, k, f);
      } else {
        AddLossFromSays(losses, kind, field, count, i + 1, k, f);
        AddLossStep(losses, kind, field, count, i);
        MarkerStep(AddLossFrom(losses, kind, field, count, i), k, f, i);
      }
    }
  }

  lemma NoMarker(losses: seq<Loss>, kind: LossKind, field: Field)
    ensures MarkerFrom(losses, kind, field, |losses|).None?
  {
  }

  /** `isCoverageState`: a complete record announces nothing, any other one announces something. */
  predicate IsCoverageState(state: State, reason: Option<Reason>, hasLoss: bool) {
    if state == Complete || state == NoData then reason.None? && !hasLoss else reason.Some? || hasLoss
  }

  /** The first stated reason stays; only an absent or unknown one is replaced. */
  function KeepReason(stated: Option<Reason>, reason: Reason): Option<Reason> {
    if stated.None? || stated.value == UnknownReason then Some(reason) else stated
  }

  // ---------------------------------------------------------------- one minute

  datatype CellCoverage = CellCoverage(state: State, reason: Option<Reason>, droppedRows: nat, losses: seq<Loss>)

  const EMPTY_CELL_COVERAGE := CellCoverage(Complete, None, 0, [])

  predicate IsCellCoverage(c: CellCoverage) {
    && c.droppedRows <= MAX && AreLosses(c.losses)
    && IsCoverageState(c.state, c.reason, c.droppedRows > 0 || |c.losses| > 0)
  }

  /** What `findRow` records when a row cannot be created. */
  function DropRow(c: CellCoverage): CellCoverage {
    CellCoverage(PartialData, KeepReason(c.reason, RowCap), Bump(c.droppedRows),
                 AddLoss(c.losses, TruncatedLoss, RowsField, 1))
  }

  lemma {:induction false} DropRowKeepsGuard(c: CellCoverage)
    requires IsCellCoverage(c)
    ensures IsCellCoverage(DropRow(c))
  {
    AddLossKeepsGuard(c.losses, TruncatedLoss, RowsField, 1);
  }

  // ---------------------------------------------------------------- a day, a month, the lifetime, the recent list

  datatype Coverage = Coverage(
    state: State, reason: Option<Reason>,
    droppedRows: nat, droppedRecent: nat, droppedDetails: nat, droppedDedup: nat,
    retentionFrom: Option<int>, retentionDays: Option<nat>, losses: seq<Loss>)

  const EMPTY_COVERAGE := Coverage(Complete, None, 0, 0, 0, 0, None, None, [])

  predicate IsCoverage(c: Coverage) {
    && c.droppedRows <= MAX && c.droppedRecent <= MAX && c.droppedDetails <= MAX && c.droppedDedup <= MAX
    && (c.retentionDays.Some? ==> 0 < c.retentionDays.value <= MAX)
    && AreLosses(c.losses)
    && IsCoverageState(c.state, c.reason,
                       c.droppedRows + c.droppedRecent + c.droppedDetails + c.droppedDedup > 0 || |c.losses| > 0)
  }

  /** `markCoverage`. */
  function Mark(c: Coverage, reason: Reason, kind: LossKind, field: Field, count: nat): Coverage {
    c.(state := PartialData, reason := KeepReason(c.reason, reason), losses := AddLoss(c.losses, kind, field, count))
  }

  /** `markDroppedRows`. */
  function MarkDroppedRows(c: Coverage, count: nat): Coverage {
    if count < 1 then c
    else Mark(c.(droppedRows := Increase(c.droppedRows, count)), RowCap, TruncatedLoss, RowsField, count)
  }

  /** The counters and bounds of a coverage record, without the coherence of its state. */
  predicate CountersOk(c: Coverage) {
    && c.droppedRows <= MAX && c.droppedRecent <= MAX && c.droppedDetails <= MAX && c.droppedDedup <= MAX
    && (c.retentionDays.Some? ==> 0 < c.retentionDays.value <= MAX)
    && AreLosses(c.losses)
  }

  /** A mark always restores the coherence of the state, whatever counters were moved before it. */
  lemma {:induction false} MarkKeepsGuard(c: Coverage, reason: Reason, kind: LossKind, field: Field, count: nat)
    requires CountersOk(c) && 0 < count <= MAX
    ensures IsCoverage(Mark(c, reason, kind, field, count))
    ensures Mark(c, reason, kind, field, count).state == PartialData
  {
    AddLossKeepsGuard(c.losses, kind, field, count);
  }

  lemma {:induction false} MarkDroppedRowsKeepsGuard(c: Coverage, count: nat)
    requires IsCoverage(c) && count <= MAX
    ensures IsCoverage(MarkDroppedRows(c, count))
  {
    if count >= 1 {
      MarkKeepsGuard(c.(droppedRows := Increase(c.droppedRows, count)), RowCap, TruncatedLoss, RowsField, count);
    }
  }

  lemma {:induction false} CoverageParts(c: Coverage)
    requires IsCoverage(c)
    ensures CountersOk(c)
  {
  }

  lemma {:induction false} MarkLeavesCounters(c: Coverage, reason: Reason, kind: LossKind, field: Field, count: nat)
    ensures Mark(c, reason, kind, field, count).droppedDedup == c.droppedDedup
    ensures Mark(c, reason, kind, field, count).state == PartialData
    ensures Mark(c, reason, kind, field, count).retentionFrom == c.retentionFrom
    ensures Mark(c, reason, kind, field, count).retentionDays == c.retentionDays
    ensures Mark(c, reason, kind, field, count).droppedRows == c.droppedRows
  {
  }

  /** A mark raises its own marker, spoils the state, and states a reason unless a known one stands. */
  lemma {:induction false} MarkSays(
    c: Coverage, reason: Reason, kind: LossKind, field: Field, count: nat, k: LossKind, f: Field)
    requires AreLosses(c.losses) && 0 < count <= MAX
    ensures var m := Mark(c, reason, kind, field, count);
            && m.state == PartialData
            && (m.reason == c.reason || m.reason == Some(reason))
            && (m.reason == c.reason
                <==> c.reason == Some(reason) || (c.reason.Some? && c.reason != Some(UnknownReason)))
            && MarkerOf(m.losses, k, f)
               == (if k == kind && f == field && (MarkerOf(c.losses, k, f).Some? || |c.losses| < MAX_LOSS_MARKERS)
                   then Raised(MarkerOf(c.losses, k, f), count) else MarkerOf(c.losses, k, f))
            && AreLosses(m.losses) && |m.losses| <= |c.losses| + 1
            && m.(state := c.state, reason := c.reason, losses := c.losses) == c
  {
    AddLossSays(c.losses, kind, field, count, k, f);
    AddLossKeepsGuard(c.losses, kind, field, count);
    hide AddLoss, MarkerOf, AreLosses;
  }
}
