/**
 * Breaker cells across a restart: every cell is written out, the rows that read back well are kept,
 * and each becomes the cell it was.
 */
module BreakerRows {
  import opened Common
  import opened BreakerCells
  import opened BreakerStates

  /** `isBreakerCellRow`, on what a cell can hold. */
  predicate IsRow(c: Cell) {
    && c.target.provider != "" && c.target.kind != "" && c.target.credentialId != ""
    && c.lastFailureTime >= 0 && c.credentialFaultUntil >= 0
    && forall i :: 0 <= i < |c.pings| ==> c.pings[i].ms.Some?
  }

  function Exported(s: Cells): (rows: seq<Cell>)
    requires CellsOk(s)
    ensures |rows| == |s.order| && forall i :: 0 <= i < |rows| ==> rows[i] == s.at[s.order[i]]
  {
    seq(|s.order|, i requires 0 <= i < |s.order| => s.at[s.order[i]])
  }

  /** `loadBreakerState` as a filter: a row that does not read back well is dropped, alone. */
  function Loaded(rows: seq<Cell>): seq<Cell> {
    if |rows| == 0 then []
    else Loaded(rows[..|rows| - 1]) + if IsRow(rows[|rows| - 1]) then [rows[|rows| - 1]] else []
  }

  /** The newest pings of a row. */
  function Trimmed(row: Cell): Cell {
    row.(pings := if |row.pings| > MAX_PING_HISTORY then row.pings[|row.pings| - MAX_PING_HISTORY..] else row.pings)
  }

  /** `restoreState`: a key this process already has is left alone. */
  function Restored(s: Cells, rows: seq<Cell>): Cells {
    if |rows| == 0 then s
    else
      var before, row := Restored(s, rows[..|rows| - 1]), rows[|rows| - 1];
      if KeyOf(row.target) in before.at then before else Put(before, KeyOf(row.target), Trimmed(row))
  }

  /** A restore never alters, reorders or drops a cell that is already there. */
  lemma {:induction false} RestoreAltersNothing(s: Cells, rows: seq<Cell>)
    ensures var r := Restored(s, rows);
            && s.order <= r.order && (forall k :: k in s.at ==> k in r.at && r.at[k] == s.at[k])
  {
    if |rows| > 0 { RestoreAltersNothing(s, rows[..|rows| - 1]); }
  }

  /** Export, validation and restore into a fresh breaker. */
  function Restarted(s: Cells): Cells
    requires CellsOk(s)
  {
    Restored(NO_CELLS, Loaded(Exported(s)))
  }

  /** The cells of the first n keys that read back well. */
  ghost predicate HoldsGood(r: Cells, s: Cells, n: nat)
    requires CellsOk(s) && n <= |s.order|
  {
    && (forall k :: k in r.at <==> k in s.order[..n] && IsRow(s.at[k]))
    && (forall k :: k in r.at ==> r.at[k] == s.at[k])
    && r.order == GoodKeys(s, n)
  }

  function GoodKeys(s: Cells, n: nat): (ks: seq<string>)
    requires CellsOk(s) && n <= |s.order|
    ensures |ks| <= n && forall k :: k in ks ==> k in s.at && IsRow(s.at[k])
  {
    if n == 0 then [] else GoodKeys(s, n - 1) + if IsRow(s.at[s.order[n - 1]]) then [s.order[n - 1]] else []
  }

  predicate PingsKept(s: Cells) {
    forall k :: k in s.at ==> |s.at[k].pings| <= MAX_PING_HISTORY
  }

  lemma {:induction false} LoadedStep(rows: seq<Cell>, row: Cell)
    ensures Loaded(rows + [row]) == Loaded(rows) + if IsRow(row) then [row] else []
  {
    assert (rows + [row])[..|rows|] == rows;
  }

  lemma {:induction false} HoldsStep(r: Cells, s: Cells, n: nat)
    requires CellsOk(s) && PingsKept(s) && 0 < n <= |s.order| && HoldsGood(r, s, n - 1)
    ensures var k := s.order[n - 1];
            var c := s.at[k];
            && KeyOf(c.target) == k && k !in r.at
            && HoldsGood(if IsRow(c) then Put(r, k, Trimmed(c)) else r, s, n)
  {
    hide IsRow, KeyOf;
    var k := s.order[n - 1];
    assert s.order[..n] == s.order[..n - 1] + [k];
    assert k !in s.order[..n - 1];
    if IsRow(s.at[k]) {
      assert Trimmed(s.at[k]) == s.at[k];
      HoldsPut(r, s, n);
    } else {
      HoldsSkip(r, s, n);
    }
  }

  lemma {:induction false} HoldsPut(r: Cells, s: Cells, n: nat)
    requires CellsOk(s) && 0 < n <= |s.order| && HoldsGood(r, s, n - 1) && IsRow(s.at[s.order[n - 1]])
    requires s.order[n - 1] !in r.at
    ensures HoldsGood(Put(r, s.order[n - 1], s.at[s.order[n - 1]]), s, n)
  {
    hide IsRow, KeyOf, CellsOk;
    assert s.order[..n] == s.order[..n - 1] + [s.order[n - 1]];
  }

  lemma {:induction false} HoldsSkip(r: Cells, s: Cells, n: nat)
    requires CellsOk(s) && 0 < n <= |s.order| && HoldsGood(r, s, n - 1) && !IsRow(s.at[s.order[n - 1]])
    ensures HoldsGood(r, s, n)
  {
    hide IsRow, KeyOf, CellsOk;
    assert s.order[..n] == s.order[..n - 1] + [s.order[n - 1]];
  }

  /** Row by row, a restart rebuilds exactly the cells that read back well, as they were. */
  lemma {:induction false} RestartHoldsGood(s: Cells, n: nat)
    requires CellsOk(s) && PingsKept(s) && n <= |s.order|
    ensures HoldsGood(Restored(NO_CELLS, Loaded(Exported(s)[..n])), s, n)
  {
    hide IsRow, CellsOk, PingsKept, HoldsGood, Put, KeyOf, Trimmed;
    if n == 0 {
      HoldsNothing(s);
    } else {
      RestartHoldsGood(s, n - 1);
      var rows, c := Exported(s)[..n - 1], Exported(s)[n - 1];
      assert Exported(s)[..n] == rows + [c];
      LoadedStep(rows, c);
      assert Loaded(rows) + [] == Loaded(rows);
      HoldsStep(Restored(NO_CELLS, Loaded(rows)), s, n);
    }
  }

  lemma HoldsNothing(s: Cells)
    requires CellsOk(s)
    ensures HoldsGood(NO_CELLS, s, 0)
  {
  }

  /** A restart changes nothing at all exactly when every cell reads back well. */
  lemma {:induction false} RestartIsTransparentExactlyWhen(s: Cells)
    requires CellsOk(s) && PingsKept(s)
    ensures Restarted(s) == s <==> forall k :: k in s.at ==> IsRow(s.at[k])
    ensures forall k :: k in Restarted(s).at <==> k in s.at && IsRow(s.at[k])
    ensures forall k :: k in Restarted(s).at ==> Restarted(s).at[k] == s.at[k]
  {
    hide IsRow, Restarted;
    RestartedHoldsGood(s);
    if forall k :: k in s.at ==> IsRow(s.at[k]) {
      AllGood(s, |s.order|);
      assert s.order[..|s.order|] == s.order;
      assert Restarted(s).at == s.at;
    }
  }

  lemma {:induction false} RestartedHoldsGood(s: Cells)
    requires CellsOk(s) && PingsKept(s)
    ensures forall k :: k in Restarted(s).at <==> k in s.at && IsRow(s.at[k])
    ensures forall k :: k in Restarted(s).at ==> Restarted(s).at[k] == s.at[k]
    ensures Restarted(s).order == GoodKeys(s, |s.order|)
  {
    hide IsRow, Loaded, Restored, KeyOf;
    assert Exported(s)[..|s.order|] == Exported(s);
    assert s.order[..|s.order|] == s.order;
    RestartHoldsGood(s, |s.order|);
  }

  lemma {:induction false} AllGood(s: Cells, n: nat)
    requires CellsOk(s) && n <= |s.order| && forall k :: k in s.at ==> IsRow(s.at[k])
    ensures GoodKeys(s, n) == s.order[..n]
  {
    hide IsRow;
    if n > 0 { AllGood(s, n - 1); }
  }

  // ---------------------------------------------------------------- whole runs

  /** What can reach a breaker's cells. */
  datatype Op = Touch(target: Target, events: seq<Event>) | Clear(selector: Selector)

  predicate WellFormedEvent(e: Event) {
    Dated(e) && (e.Health? ==> e.outcome.elapsed.Some?)
  }

  predicate Named(t: Target) {
    t.provider != "" && t.kind != "" && t.credentialId != ""
  }

  /** Named targets, instants from the epoch on, and durations that are finite. */
  predicate WellFormed(op: Op) {
    op.Touch? ==> Named(op.target) && forall i :: 0 <= i < |op.events| ==> WellFormedEvent(op.events[i])
  }

  function Do(s: Cells, op: Op): Cells {
    match op
    case Touch(target, events) => Apply(s, target, events)
    case Clear(selector) => Cleared(s, selector)
  }

  function DoAll(s: Cells, ops: seq<Op>): Cells {
    if |ops| == 0 then s else Do(DoAll(s, ops[..|ops| - 1]), ops[|ops| - 1])
  }

  predicate RowsOk(s: Cells) {
    CellsOk(s) && PingsKept(s) && forall k :: k in s.at ==> IsRow(s.at[k]) && CellOk(s.at[k])
  }

  lemma {:induction false} EventKeepsRow(c: Cell, es: seq<Event>)
    requires IsRow(c) && CellOk(c) && forall i :: 0 <= i < |es| ==> WellFormedEvent(es[i])
    ensures IsRow(Run(c, es)) && CellOk(Run(c, es))
  {
    if |es| > 0 {
      var init, e := es[..|es| - 1], es[|es| - 1];
      EventKeepsRow(c, init);
      StepOk(Run(c, init), e);
      StepKeepsRow(Run(c, init), e);
    }
  }

  lemma StepKeepsRow(c: Cell, e: Event)
    requires IsRow(c) && WellFormedEvent(e)
    ensures IsRow(Step(c, e))
  {
    hide RungFor, MergeQuotas;
  }

  lemma {:induction false} TouchKeepsRows(s: Cells, t: Target, es: seq<Event>)
    requires RowsOk(s) && WellFormed(Touch(t, es))
    ensures RowsOk(Apply(s, t, es))
  {
    hide IsRow, CellOk, Run, WellFormedEvent, CellsOk, KeyOf;
    ApplyOk(s, t, es);
    EventKeepsRow(Get(s, t), es);
  }

  lemma {:induction false} ClearKeepsRows(s: Cells, selector: Selector)
    requires RowsOk(s)
    ensures RowsOk(Cleared(s, selector))
  {
    hide IsRow, CellOk, Run, WellFormedEvent, Matches, CellsOk;
    ClearedOk(s, selector);
    ClearingIsWellFormed();
    forall k | k in s.at
      ensures IsRow(Run(s.at[k], CLEARING)) && CellOk(Run(s.at[k], CLEARING))
              && |Run(s.at[k], CLEARING).pings| <= MAX_PING_HISTORY
    {
      EventKeepsRow(s.at[k], CLEARING);
    }
  }

  lemma DoKeepsRows(s: Cells, op: Op)
    requires RowsOk(s) && WellFormed(op)
    ensures RowsOk(Do(s, op))
  {
    hide RowsOk, Apply, Cleared, WellFormed;
    match op
    case Touch(target, events) => TouchKeepsRows(s, target, events);
    case Clear(selector) => ClearKeepsRows(s, selector);
  }

  lemma ClearingIsWellFormed()
    ensures forall i :: 0 <= i < |CLEARING| ==> WellFormedEvent(CLEARING[i])
  {
  }

  lemma {:induction false} RunKeepsRows(s: Cells, ops: seq<Op>)
    requires RowsOk(s) && forall i :: 0 <= i < |ops| ==> WellFormed(ops[i])
    ensures RowsOk(DoAll(s, ops))
  {
    hide RowsOk, WellFormed, Do;
    if |ops| > 0 {
      RunKeepsRows(s, ops[..|ops| - 1]);
      DoKeepsRows(DoAll(s, ops[..|ops| - 1]), ops[|ops| - 1]);
    }
  }

  lemma {:induction false} DoAllConcat(s: Cells, xs: seq<Op>, ys: seq<Op>)
    ensures DoAll(s, xs + ys) == DoAll(DoAll(s, xs), ys)
  {
    hide Do;
    if |ys| == 0 {
      assert xs + ys == xs;
    } else {
      assert (xs + ys)[..|xs + ys| - 1] == xs + ys[..|ys| - 1];
      DoAllConcat(s, xs, ys[..|ys| - 1]);
    }
  }

  /** A restart anywhere in a well-formed run is not noticed by anything that comes after it. */
  lemma {:induction false} RestartAnywhere(before: seq<Op>, after: seq<Op>)
    requires forall i :: 0 <= i < |before| ==> WellFormed(before[i])
    ensures CellsOk(DoAll(NO_CELLS, before))
    ensures DoAll(Restarted(DoAll(NO_CELLS, before)), after) == DoAll(NO_CELLS, before + after)
  {
    hide DoAll, WellFormed;
    RunKeepsRows(NO_CELLS, before);
    DoAllConcat(NO_CELLS, before, after);
    RestartIsTransparentExactlyWhen(DoAll(NO_CELLS, before));
  }

  // ---------------------------------------------------------------- where it does not hold

  lemma UnmeasuredRateLimit(t: Target, at: int)
    ensures var c := Run(FreshCell(t), [Health(Outcome(false, Some(429), None, at, None, false))]);
            c.target == t && c.cooldownUntil == at + 120_000 && c.source == Some(DefaultRung) && !IsRow(c)
  {
    var e := Health(Outcome(false, Some(429), None, at, None, false));
    var es := [e];
    assert es[..|es| - 1] == [] && es[|es| - 1] == e;
    assert Run(FreshCell(t), []) == FreshCell(t);
    var c := Run(FreshCell(t), es);
    assert c == Applied(FreshCell(t), e.outcome);
    assert c.pings[0].ms.None?;
  }

  /** One failure of unmeasurable length makes a restart forget the whole cell, cooldown included. */
  lemma UnmeasuredFailureIsForgotten(t: Target, at: int)
    requires Named(t)
    ensures var s := Apply(NO_CELLS, t, [Health(Outcome(false, Some(429), None, at, None, false))]);
            && CellsOk(s) && KeyOf(t) in s.at && s.at[KeyOf(t)].cooldownUntil == at + 120_000
            && Restarted(s) == NO_CELLS
  {
    hide Run, IsRow, KeyOf, Restarted, CellsOk;
    var es := [Health(Outcome(false, Some(429), None, at, None, false))];
    UnmeasuredRateLimit(t, at);
    ForgottenAlone(Run(FreshCell(t), es));
  }

  lemma ForgottenAlone(c: Cell)
    requires !IsRow(c)
    ensures CellsOk(Put(NO_CELLS, KeyOf(c.target), c)) && Restarted(Put(NO_CELLS, KeyOf(c.target), c)) == NO_CELLS
  {
    hide IsRow, KeyOf, Loaded;
    var s := Put(NO_CELLS, KeyOf(c.target), c);
    assert s.order == [KeyOf(c.target)] && s.at == map[KeyOf(c.target) := c];
    assert Exported(s) == [c];
    LoadedOne(c);
  }

  lemma LoadedOne(c: Cell)
    requires !IsRow(c)
    ensures Loaded([c]) == []
  {
    hide IsRow;
    LoadedStep([], c);
    assert [] + [c] == [c] && Loaded([]) == [];
  }
}
