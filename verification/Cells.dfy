/**
 * The three bounded accumulators of the ledger (token cell, metric cell, spend cell), the folds
 * that mutate them and the merges that combine two of them. Counters saturate at MAX; a sum that
 * would leave the safe integers is poisoned (null) for good.
 */
module Cells {
  import opened Common

  datatype TokenCell = TokenCell(
    value: Option<nat>, known: nat, unknown: nat, lost: nat, overflow: bool, observedAt: Option<int>)

  const EMPTY_TOKEN_CELL := TokenCell(None, 0, 0, 0, false, None)

  /** One observation offered to a cell: its amount (null when unreported) and its instant. */
  datatype Fact = Fact(value: Option<Counter>, at: int)

  predicate Uncertain(c: TokenCell) {
    c.unknown > 0 || c.lost > 0 || c.overflow
  }

  /** The load-time guard of a token cell (the counters' range is part of it). */
  predicate IsTokenCell(c: TokenCell) {
    && c.known <= MAX && c.unknown <= MAX && c.lost <= MAX
    && (c.value.Some? ==> c.value.value <= MAX && c.known > 0 && !Uncertain(c))
    && (c.value.None? && c.known > 0 ==> Uncertain(c))
    && (c.known == 0 <==> c.observedAt.None?)
  }

  // ---------------------------------------------------------------- token folds

  /** `addRawTokenCell`: the cell after one raw fact, and whether the fold was exact. */
  function AddRaw(c: TokenCell, x: Fact): (TokenCell, bool) {
    match x.value
    case None =>
      if c.unknown >= MAX then (c.(overflow := true, value := None), false)
      else (c.(unknown := c.unknown + 1, value := None), true)
    case Some(v) =>
      if c.known >= MAX then (c.(overflow := true, value := None, lost := Bump(c.lost)), false)
      else
        var t := c.(known := c.known + 1, observedAt := Latest(c.observedAt, Some(x.at)));
        if Uncertain(t) then (t.(value := None), true)
        else if c.known == 0 || t.value.None? then (t.(value := Some(v)), true)
        else if t.value.value > MAX - v then (t.(value := None, overflow := true, lost := Bump(t.lost)), false)
        else (t.(value := Some(t.value.value + v)), true)
  }

  /** `addAggregateTokenCell`: the cell after absorbing another cell. */
  function AddAggregate(c: TokenCell, s: TokenCell): (TokenCell, bool) {
    var fits := c.known + s.known <= MAX && c.unknown + s.unknown <= MAX && c.lost + s.lost <= MAX;
    var sumTooBig := c.value.Some? && s.value.Some? && c.value.value + s.value.value > MAX;
    var seeded := c.known == 0 && !Uncertain(c) && !Uncertain(s);
    var poisoned := c.value.None? || s.value.None? || Uncertain(c) || Uncertain(s) || sumTooBig;
    var t := TokenCell(
      if seeded then s.value else if poisoned then None else Some(c.value.value + s.value.value),
      Increase(c.known, s.known), Increase(c.unknown, s.unknown), Increase(c.lost, s.lost),
      c.overflow || s.overflow || !fits || (!seeded && sumTooBig),
      Latest(c.observedAt, s.observedAt));
    (if Uncertain(t) then t.(value := None) else t, fits && (seeded || !sumTooBig))
  }

  /** The mutable record of the ledger; its methods are the in-place folds. */
  class TokenAccumulator {
    var value: Option<nat>
    var known: nat
    var unknown: nat
    var lost: nat
    var overflow: bool
    var observedAt: Option<int>

    ghost function View(): TokenCell reads this {
      TokenCell(value, known, unknown, lost, overflow, observedAt)
    }

    constructor ()
      ensures View() == EMPTY_TOKEN_CELL
    {
      value, known, unknown, lost, overflow, observedAt := None, 0, 0, 0, false, None;
    }

    method IncreaseKnown(amount: nat) returns (ok: bool)
      modifies this`known
      ensures ok == (old(known) + amount <= MAX) && known == Increase(old(known), amount)
    {
      ok := known + amount <= MAX;
      if ok { known := known + amount; }
    }

    method IncreaseUnknown(amount: nat) returns (ok: bool)
      modifies this`unknown
      ensures ok == (old(unknown) + amount <= MAX) && unknown == Increase(old(unknown), amount)
    {
      ok := unknown + amount <= MAX;
      if ok { unknown := unknown + amount; }
    }

    method IncreaseLost(amount: nat) returns (ok: bool)
      modifies this`lost
      ensures ok == (old(lost) + amount <= MAX) && lost == Increase(old(lost), amount)
    {
      ok := lost + amount <= MAX;
      if ok { lost := lost + amount; }
    }

    method AddRawFact(x: Fact) returns (exact: bool)
      modifies this
      ensures (View(), exact) == AddRaw(old(View()), x)
    {
      if x.value.None? {
        exact := IncreaseUnknown(1);
        if !exact { overflow := true; }
        value := None;
        return;
      }
      var v, knownBefore := x.value.value, known;
      exact := IncreaseKnown(1);
      if !exact {
        overflow, value := true, None;
        var _ := IncreaseLost(1);
        return;
      }
      observedAt := Latest(observedAt, Some(x.at));
      if unknown > 0 || lost > 0 || overflow {
        value := None;
      } else if knownBefore == 0 || value.None? {
        value := Some(v);
      } else if value.value > MAX - v {
        value, overflow, exact := None, true, false;
        var _ := IncreaseLost(1);
      } else {
        value := Some(value.value + v);
      }
    }

    /** The counting half of `addAggregateTokenCell`: each counter on its own, then the instant. */
    method AbsorbCounters(source: TokenCell) returns (exact: bool)
      modifies this`known, this`unknown, this`lost, this`overflow, this`observedAt
      ensures known == Increase(old(known), source.known) && unknown == Increase(old(unknown), source.unknown)
      ensures lost == Increase(old(lost), source.lost)
      ensures exact == (old(known) + source.known <= MAX && old(unknown) + source.unknown <= MAX
                        && old(lost) + source.lost <= MAX)
      ensures overflow == (old(overflow) || source.overflow || !exact)
      ensures observedAt == Latest(old(observedAt), source.observedAt)
    {
      var a := IncreaseKnown(source.known);
      var b := IncreaseUnknown(source.unknown);
      var c := IncreaseLost(source.lost);
      exact := a && b && c;
      overflow := overflow || source.overflow || !exact;
      observedAt := Latest(observedAt, source.observedAt);
    }

    method AddCell(source: TokenCell) returns (exact: bool)
      modifies this
      ensures (View(), exact) == AddAggregate(old(View()), source)
    {
      var knownBefore, uncertainBefore := known,
        Uncertain(TokenCell(value, known, unknown, lost, overflow, observedAt));
      var sourceUncertain := Uncertain(source);
      exact := AbsorbCounters(source);
      if knownBefore == 0 && !uncertainBefore && !sourceUncertain {
        value := source.value;
      } else if value.None? || source.value.None? {
        value := None;
      } else if value.value > MAX - source.value.value {
        value, overflow, exact := None, true, false;
      } else if uncertainBefore || sourceUncertain {
        value := None;
      } else {
        value := Some(value.value + source.value.value);
      }
      if unknown > 0 || lost > 0 || overflow { value := None; }
    }
  }

  // ---------------------------------------------------------------- the reference reading

  /** What a list of facts says, independently of the order they arrive in. */
  datatype Tally = Tally(known: nat, unknown: nat, total: nat, seen: Option<int>)

  function Plus(a: Tally, b: Tally): Tally {
    Tally(a.known + b.known, a.unknown + b.unknown, a.total + b.total, Latest(a.seen, b.seen))
  }

  function TallyOne(x: Fact): Tally {
    match x.value
    case None => Tally(0, 1, 0, None)
    case Some(v) => Tally(1, 0, v, Some(x.at))
  }

  function TallyOf(xs: seq<Fact>): Tally {
    if xs == [] then Tally(0, 0, 0, None)
    else Plus(TallyOf(xs[..|xs| - 1]), TallyOne(xs[|xs| - 1]))
  }

  /** The exact sum is stated only when every fact is known and the total is a safe integer. */
  predicate Certain(t: Tally) {
    t.known > 0 && t.unknown == 0 && t.total <= MAX
  }

  /** The order-independent part of a cell agrees with a tally. */
  predicate Shows(c: TokenCell, t: Tally) {
    && c.value == (if Certain(t) then Some(t.total) else None)
    && c.known == t.known && c.unknown == t.unknown && c.observedAt == t.seen
  }

  predicate SameReading(a: TokenCell, b: TokenCell) {
    a.value == b.value && SameCounts(a, b)
  }

  predicate IsTally(t: Tally) {
    (t.known == 0 <==> t.seen.None?) && (t.known == 0 ==> t.total == 0)
  }

  predicate Empty(t: Tally) {
    t.known == 0 && t.unknown == 0
  }

  /** What a fold of facts with tally t always satisfies. */
  predicate Folded(c: TokenCell, t: Tally) {
    && IsTally(t) && IsTokenCell(c) && Shows(c, t)
    && (c.overflow ==> t.total > MAX) && c.lost == (if c.overflow then 1 else 0)
  }

  lemma {:induction false} TallyConcat(xs: seq<Fact>, ys: seq<Fact>)
    ensures TallyOf(xs + ys) == Plus(TallyOf(xs), TallyOf(ys))
  {
    hide Plus, TallyOne;
    if ys == [] {
      assert xs + ys == xs;
      PlusNothing(TallyOf(xs));
    } else {
      hide TallyOf;
      var init, y := ys[..|ys| - 1], ys[|ys| - 1];
      TallyConcat(xs, init);
      TallyAppend(xs + init, y);
      TallyAppend(init, y);
      assert xs + ys == xs + init + [y] && ys == init + [y];
      PlusAssociates(TallyOf(xs), TallyOf(init), TallyOne(y));
    }
  }

  lemma PlusNothing(a: Tally)
    ensures Plus(a, Tally(0, 0, 0, None)) == a
  {
  }

  lemma {:induction false} PlusAssociates(a: Tally, b: Tally, c: Tally)
    ensures Plus(Plus(a, b), c) == Plus(a, Plus(b, c))
  {
  }

  lemma {:induction false} TallyAppend(xs: seq<Fact>, x: Fact)
    ensures TallyOf(xs + [x]) == Plus(TallyOf(xs), TallyOne(x))
  {
    assert (xs + [x])[..|xs|] == xs;
  }

  lemma {:induction false} TallyCounts(xs: seq<Fact>)
    ensures TallyOf(xs).known + TallyOf(xs).unknown == |xs|
    ensures TallyOf(xs).known == 0 <==> TallyOf(xs).seen.None?
    ensures TallyOf(xs).known == 0 ==> TallyOf(xs).total == 0
  {
    if xs != [] { TallyCounts(xs[..|xs| - 1]); }
  }

  lemma {:induction false} TallyPermutation(xs: seq<Fact>, ys: seq<Fact>)
    requires multiset(xs) == multiset(ys)
    ensures TallyOf(xs) == TallyOf(ys)
    decreases |xs|
  {
    if xs == [] {
      assert |multiset(ys)| == 0;
    } else {
      var x, init := xs[|xs| - 1], xs[..|xs| - 1];
      assert xs == init + [x];
      assert x in multiset(ys);
      var i :| 0 <= i < |ys| && ys[i] == x;
      TakeOut(ys, i);
      SameRest(init, x, ys, i);
      TallyPermutation(init, ys[..i] + ys[i + 1..]);
      TallyAppend(init, x);
    }
  }

  lemma {:induction false} SameRest(init: seq<Fact>, x: Fact, ys: seq<Fact>, i: nat)
    requires i < |ys| && ys[i] == x && multiset(init + [x]) == multiset(ys)
    ensures multiset(init) == multiset(ys[..i] + ys[i + 1..])
  {
    assert ys == ys[..i] + [x] + ys[i + 1..];
    calc {
      multiset(init);
      multiset(init + [x]) - multiset{x};
      multiset(ys[..i] + [x] + ys[i + 1..]) - multiset{x};
      multiset(ys[..i] + ys[i + 1..]);
    }
  }

  /** One fact can be read last wherever it stands. */
  lemma {:induction false} TakeOut(ys: seq<Fact>, i: nat)
    requires i < |ys|
    ensures TallyOf(ys) == Plus(TallyOf(ys[..i] + ys[i + 1..]), TallyOne(ys[i]))
  {
    var a, x, b := ys[..i], ys[i], ys[i + 1..];
    assert ys == a + [x] + b;
    TallyConcat(a, b);
    TallyConcat(a + [x], b);
    TallyAppend(a, x);
    PlusSwaps(TallyOf(a), TallyOne(x), TallyOf(b));
  }

  lemma {:induction false} PlusSwaps(a: Tally, b: Tally, c: Tally)
    ensures Plus(Plus(a, b), c) == Plus(Plus(a, c), b)
  {
  }

  // ---------------------------------------------------------------- folds mean tallies

  function FoldRaw(xs: seq<Fact>): TokenCell {
    if xs == [] then EMPTY_TOKEN_CELL else AddRaw(FoldRaw(xs[..|xs| - 1]), xs[|xs| - 1]).0
  }

  /** The other path of the ledger: snapshot each fact into its own cell, then absorb the cells. */
  function FoldSnapshots(xs: seq<Fact>): TokenCell {
    if xs == [] then EMPTY_TOKEN_CELL
    else AddAggregate(FoldSnapshots(xs[..|xs| - 1]), AddRaw(EMPTY_TOKEN_CELL, xs[|xs| - 1]).0).0
  }

  /** Folding any list of at most MAX facts, in any order, shows exactly the list's tally. */
  lemma {:induction false} FoldRawMeaning(xs: seq<Fact>)
    requires |xs| <= MAX
    ensures Folded(FoldRaw(xs), TallyOf(xs))
  {
    if xs != [] {
      var init := xs[..|xs| - 1];
      FoldRawMeaning(init);
      TallyCounts(init);
      RawStep(FoldRaw(init), TallyOf(init), xs[|xs| - 1]);
    }
  }

  lemma {:induction false} RawStep(c: TokenCell, t: Tally, x: Fact)
    requires Folded(c, t) && t.known + t.unknown < MAX
    ensures Folded(AddRaw(c, x).0, Plus(t, TallyOne(x)))
  {
  }

  /** The order of the facts never shows in value, known, unknown or observedAt. */
  lemma {:induction false} FoldRawOrderIndependent(xs: seq<Fact>, ys: seq<Fact>)
    requires multiset(xs) == multiset(ys) && |xs| <= MAX
    ensures SameReading(FoldRaw(xs), FoldRaw(ys))
  {
    TallyPermutation(xs, ys);
    assert |multiset(xs)| == |xs| && |multiset(ys)| == |ys|;
    FoldRawMeaning(xs);
    FoldRawMeaning(ys);
  }

  /**
   * The whole cell, overflow bookkeeping included, is independent of the order exactly when no fact
   * is unreported or the total stays a safe integer: an unreported fact that comes first suspends
   * the sum before it can overflow, so `lost` and `overflow` tell the two orders apart.
   */
  lemma {:induction false} CellIgnoresOrderExactlyWhen(xs: seq<Fact>)
    requires |xs| <= MAX
    ensures (forall ys: seq<Fact> :: multiset(ys) == multiset(xs) ==> FoldRaw(ys) == FoldRaw(xs))
            <==> TallyOf(xs).unknown == 0 || TallyOf(xs).total <= MAX
  {
    hide FoldRaw, TallyOf;
    if TallyOf(xs).unknown == 0 || TallyOf(xs).total <= MAX {
      forall ys: seq<Fact> | multiset(ys) == multiset(xs) ensures FoldRaw(ys) == FoldRaw(xs) {
        FoldFixed(ys, xs);
      }
    } else {
      KnownsFirst(xs);
      UnknownsFirst(xs);
    }
  }

  lemma {:induction false} FoldFixed(ys: seq<Fact>, xs: seq<Fact>)
    requires multiset(ys) == multiset(xs) && |xs| <= MAX
    requires TallyOf(xs).unknown == 0 || TallyOf(xs).total <= MAX
    ensures FoldRaw(ys) == FoldRaw(xs)
  {
    TallyPermutation(xs, ys);
    assert |multiset(xs)| == |xs| && |multiset(ys)| == |ys|;
    FoldRawMeaning(xs);
    FoldRawMeaning(ys);
    hide FoldRaw, TallyOf;
    OverflowFixed(FoldRaw(xs), TallyOf(xs));
    OverflowFixed(FoldRaw(ys), TallyOf(xs));
  }

  lemma {:induction false} OverflowFixed(c: TokenCell, t: Tally)
    requires Folded(c, t) && (t.unknown == 0 || t.total <= MAX)
    ensures c.overflow <==> t.total > MAX
  {
  }

  function Knowns(xs: seq<Fact>): seq<Fact> {
    if xs == [] then []
    else Knowns(xs[..|xs| - 1]) + if xs[|xs| - 1].value.Some? then [xs[|xs| - 1]] else []
  }

  function Unknowns(xs: seq<Fact>): seq<Fact> {
    if xs == [] then []
    else Unknowns(xs[..|xs| - 1]) + if xs[|xs| - 1].value.None? then [xs[|xs| - 1]] else []
  }

  lemma {:induction false} PartsAppend(xs: seq<Fact>, x: Fact)
    ensures Knowns(xs + [x]) == if x.value.Some? then Knowns(xs) + [x] else Knowns(xs)
    ensures Unknowns(xs + [x]) == if x.value.Some? then Unknowns(xs) else Unknowns(xs) + [x]
  {
    assert (xs + [x])[..|xs|] == xs;
  }

  ghost predicate Apart(xs: seq<Fact>, known: seq<Fact>, unknown: seq<Fact>) {
    && multiset(known) + multiset(unknown) == multiset(xs)
    && (forall i :: 0 <= i < |unknown| ==> unknown[i].value.None?)
    && TallyOf(known).unknown == 0 && TallyOf(known).total == TallyOf(xs).total
    && |unknown| == TallyOf(xs).unknown
  }

  lemma {:induction false} ApartKnown(xs: seq<Fact>, known: seq<Fact>, unknown: seq<Fact>, x: Fact)
    requires Apart(xs, known, unknown) && x.value.Some?
    ensures Apart(xs + [x], known + [x], unknown)
  {
    hide TallyOf;
    TallyAppend(xs, x);
    TallyAppend(known, x);
  }

  lemma {:induction false} ApartUnknown(xs: seq<Fact>, known: seq<Fact>, unknown: seq<Fact>, x: Fact)
    requires Apart(xs, known, unknown) && x.value.None?
    ensures Apart(xs + [x], known, unknown + [x])
  {
    hide TallyOf;
    TallyAppend(xs, x);
  }

  lemma {:induction false} PartedStep(xs: seq<Fact>, init: seq<Fact>, x: Fact)
    requires xs == init + [x] && Apart(init, Knowns(init), Unknowns(init))
    ensures Apart(xs, Knowns(xs), Unknowns(xs))
  {
    hide Knowns, Unknowns, Apart;
    PartsAppend(init, x);
    if x.value.Some? {
      ApartKnown(init, Knowns(init), Unknowns(init), x);
    } else {
      ApartUnknown(init, Knowns(init), Unknowns(init), x);
    }
  }

  lemma {:induction false} Parted(xs: seq<Fact>)
    ensures Apart(xs, Knowns(xs), Unknowns(xs))
  {
    if |xs| == 0 {
      assert xs == [];
    } else {
      Parted(xs[..|xs| - 1]);
      PartedStep(xs, xs[..|xs| - 1], xs[|xs| - 1]);
    }
  }

  lemma {:induction false} KnownsFirst(xs: seq<Fact>)
    requires |xs| <= MAX && TallyOf(xs).total > MAX
    ensures var ys := Knowns(xs) + Unknowns(xs);
            multiset(ys) == multiset(xs) && FoldRaw(ys).overflow
  {
    hide FoldRaw, TallyOf, Knowns, Unknowns;
    Parted(xs);
    var k := Knowns(xs);
    assert |multiset(k)| + |multiset(Unknowns(xs))| == |multiset(xs)|;
    FoldRawMeaning(k);
    OverflowFixed(FoldRaw(k), TallyOf(k));
    OverflowStays(k, Unknowns(xs));
  }

  lemma {:induction false} OverflowStays(xs: seq<Fact>, ys: seq<Fact>)
    requires FoldRaw(xs).overflow
    ensures FoldRaw(xs + ys).overflow
  {
    if ys == [] {
      assert xs + ys == xs;
    } else {
      OverflowStays(xs, ys[..|ys| - 1]);
      assert xs + ys == xs + ys[..|ys| - 1] + [ys[|ys| - 1]];
      FoldAppend(xs + ys[..|ys| - 1], ys[|ys| - 1]);
    }
  }

  lemma {:induction false} UnknownsFirst(xs: seq<Fact>)
    requires |xs| <= MAX && TallyOf(xs).unknown > 0
    ensures var ys := Unknowns(xs) + Knowns(xs);
            multiset(ys) == multiset(xs) && !FoldRaw(ys).overflow
  {
    hide FoldRaw, TallyOf, Knowns, Unknowns;
    Parted(xs);
    var ys := Unknowns(xs) + Knowns(xs);
    assert |multiset(ys)| == |multiset(xs)|;
    NoOverflowAfterUnknown(ys);
  }

  lemma {:induction false} NoOverflowAfterUnknown(xs: seq<Fact>)
    requires 0 < |xs| <= MAX && xs[0].value.None?
    ensures !FoldRaw(xs).overflow && FoldRaw(xs).unknown > 0
  {
    var init, x := xs[..|xs| - 1], xs[|xs| - 1];
    FoldRawMeaning(init);
    TallyCounts(init);
    if |init| > 0 { NoOverflowAfterUnknown(init); }
  }

  lemma {:induction false} FoldAppend(xs: seq<Fact>, x: Fact)
    ensures FoldRaw(xs + [x]) == AddRaw(FoldRaw(xs), x).0
  {
    assert (xs + [x])[..|xs|] == xs;
  }

  /** One fact, two paths: absorbing its snapshot differs from folding it raw only in `lost`. */
  lemma {:induction false} SnapshotStep(c: TokenCell, d: TokenCell, x: Fact)
    requires IsTokenCell(c) && IsTokenCell(d) && d == c.(lost := d.lost)
    requires c.lost > 0 ==> c.overflow
    requires d.lost == 0
    requires c.known < MAX && c.unknown < MAX
    ensures var (c', e), (d', f) := AddRaw(c, x), AddAggregate(d, AddRaw(EMPTY_TOKEN_CELL, x).0);
            d' == c'.(lost := 0) && e == f
  {
  }

  /** The raw path and the snapshot path agree on everything but `lost`, on every list. */
  lemma {:induction false} PathsAgree(xs: seq<Fact>)
    requires |xs| <= MAX
    ensures FoldSnapshots(xs) == FoldRaw(xs).(lost := 0)
    ensures IsTokenCell(FoldSnapshots(xs))
  {
    if xs != [] {
      var init := xs[..|xs| - 1];
      PathsAgree(init);
      FoldRawMeaning(init);
      FoldRawMeaning(xs);
      TallyCounts(init);
      SnapshotStep(FoldRaw(init), FoldSnapshots(init), xs[|xs| - 1]);
    }
  }

  // ---------------------------------------------------------------- merge

  /** `mergeCell` without the estimation label: refuses a cell its guard refuses or a counter overflow. */
  function Merge(a: TokenCell, b: TokenCell): Option<TokenCell> {
    if !IsTokenCell(a) || !IsTokenCell(b) then None
    else if a.known + b.known > MAX || a.unknown + b.unknown > MAX || a.lost + b.lost > MAX then None
    else
      var uncertain := Uncertain(a) || Uncertain(b);
      var sumTooBig := !uncertain && a.value.Some? && b.value.Some? && a.value.value + b.value.value > MAX;
      var value := if !uncertain && a.value.Some? && b.value.Some? && !sumTooBig
                   then Some(a.value.value + b.value.value) else None;
      Some(TokenCell(value, a.known + b.known, a.unknown + b.unknown, a.lost + b.lost,
                     a.overflow || b.overflow || sumTooBig, Latest(a.observedAt, b.observedAt)))
  }

  /**
   * The fold is a homomorphism into the merge exactly when neither side is an empty list beside a
   * certain one. The empty cell is therefore not an identity: `Merge` leaves a certain cell beside
   * it without its value, in a shape the guard refuses.
   */
  lemma {:induction false} FoldMergesExactlyWhen(xs: seq<Fact>, ys: seq<Fact>)
    requires |xs| + |ys| <= MAX
    ensures var (m, whole) := (Merge(FoldRaw(xs), FoldRaw(ys)), FoldRaw(xs + ys));
            && m.Some? && SameCounts(m.value, whole)
            && (SameReading(m.value, whole) <==> IsTokenCell(m.value))
            && (SameReading(m.value, whole)
                <==> (|xs| == 0 ==> !Certain(TallyOf(ys))) && (|ys| == 0 ==> !Certain(TallyOf(xs))))
  {
    hide FoldRaw, TallyOf, Merge, Folded, Shows, IsTokenCell, SameReading, SameCounts, Plus;
    var a, b, whole, ta, tb := FoldRaw(xs), FoldRaw(ys), FoldRaw(xs + ys), TallyOf(xs), TallyOf(ys);
    FoldsOfBoth(xs, ys);
    MergeShows(a, b, whole, ta, tb);
    assert Empty(ta) <==> |xs| == 0;
    assert Empty(tb) <==> |ys| == 0;
  }

  predicate SameCounts(a: TokenCell, b: TokenCell) {
    a.known == b.known && a.unknown == b.unknown && a.observedAt == b.observedAt
  }

  lemma {:induction false} FoldsOfBoth(xs: seq<Fact>, ys: seq<Fact>)
    requires |xs| + |ys| <= MAX
    ensures Folded(FoldRaw(xs), TallyOf(xs)) && Folded(FoldRaw(ys), TallyOf(ys))
    ensures Shows(FoldRaw(xs + ys), Plus(TallyOf(xs), TallyOf(ys)))
    ensures TallyOf(xs).known + TallyOf(xs).unknown == |xs| && TallyOf(ys).known + TallyOf(ys).unknown == |ys|
  {
    FoldRawMeaning(xs);
    FoldRawMeaning(ys);
    FoldRawMeaning(xs + ys);
    TallyConcat(xs, ys);
    TallyCounts(xs);
    TallyCounts(ys);
  }

  /** A folded cell is empty, certain or uncertain, as its tally says. */
  lemma {:induction false} FoldedClass(c: TokenCell, t: Tally)
    requires Folded(c, t)
    ensures Uncertain(c) <==> !Certain(t) && !Empty(t)
    ensures c.known + c.lost <= MAX + 1 && (c.lost == 1 ==> t.known > 0)
    ensures IsTally(t)
  {
  }

  lemma {:induction false} PlusIsTally(a: Tally, b: Tally)
    requires IsTally(a) && IsTally(b)
    ensures IsTally(Plus(a, b))
  {
  }

  /** Beside an empty tally the other one decides alone. */
  lemma {:induction false} PlusEmpty(a: Tally, b: Tally)
    requires IsTally(a) && IsTally(b) && Empty(a)
    ensures Certain(Plus(a, b)) <==> Certain(b)
    ensures Certain(Plus(b, a)) <==> Certain(b)
    ensures !Certain(a)
  {
    hide Latest, MAX;
  }

  /** Two non-empty tallies add up to a certain one when both are certain and their total is safe. */
  lemma {:induction false} PlusNonEmpty(a: Tally, b: Tally)
    requires !Empty(a) && !Empty(b)
    ensures Certain(Plus(a, b)) <==> Certain(a) && Certain(b) && a.total + b.total <= MAX
  {
    hide Latest, MAX;
  }

  lemma {:induction false} MergeParts(a: TokenCell, b: TokenCell, ta: Tally, tb: Tally)
    requires Folded(a, ta) && Folded(b, tb)
    requires ta.known + ta.unknown + tb.known + tb.unknown <= MAX
    ensures var (m, t) := (Merge(a, b), Plus(ta, tb));
            && m.Some? && m.value.known == t.known && m.value.unknown == t.unknown && m.value.observedAt == t.seen
            && (m.value.value == if Certain(ta) && Certain(tb) && t.total <= MAX then Some(t.total) else None)
            && (Uncertain(m.value) <==> Uncertain(a) || Uncertain(b) || (Certain(ta) && Certain(tb) && t.total > MAX))
            && m.value.lost <= MAX
  {
    FoldedClass(a, ta);
    FoldedClass(b, tb);
  }

  lemma {:induction false} MergeShows(a: TokenCell, b: TokenCell, whole: TokenCell, ta: Tally, tb: Tally)
    requires Folded(a, ta) && Folded(b, tb) && Shows(whole, Plus(ta, tb))
    requires ta.known + ta.unknown + tb.known + tb.unknown <= MAX
    ensures var m := Merge(a, b);
            && m.Some? && SameCounts(m.value, whole)
            && (SameReading(m.value, whole)
                <==> (Empty(ta) ==> !Certain(tb)) && (Empty(tb) ==> !Certain(ta)))
            && (SameReading(m.value, whole) <==> IsTokenCell(m.value))
  {
    hide Merge, Folded, MAX, Certain, Empty, Uncertain, Latest, IsTally;
    MergeParts(a, b, ta, tb);
    FoldedClass(a, ta);
    FoldedClass(b, tb);
    PlusIsTally(ta, tb);
    MergedGuard(a, b, ta, tb);
    if Empty(ta) {
      PlusEmpty(ta, tb);
    } else if Empty(tb) {
      PlusEmpty(tb, ta);
    } else {
      PlusNonEmpty(ta, tb);
    }
  }

  /** The merged cell passes its guard unless it holds a known fact, no doubt and no value. */
  lemma {:induction false} MergedGuard(a: TokenCell, b: TokenCell, ta: Tally, tb: Tally)
    requires Folded(a, ta) && Folded(b, tb)
    requires ta.known + ta.unknown + tb.known + tb.unknown <= MAX
    ensures Merge(a, b).Some?
    ensures IsTokenCell(Merge(a, b).value)
            <==> (Empty(ta) ==> !Certain(tb)) && (Empty(tb) ==> !Certain(ta))
  {
    hide Folded, Merge;
    MergeParts(a, b, ta, tb);
    FoldedClass(a, ta);
    FoldedClass(b, tb);
  }

  // ---------------------------------------------------------------- metric cells

  const MAX_SAMPLES: nat := 25

  datatype Metric = Metric(
    sumMs: Option<nat>, known: nat, unknown: nat, lost: nat, overflow: bool,
    samples: seq<nat>, samplesDropped: nat, observedAt: Option<int>)

  const EMPTY_METRIC := Metric(None, 0, 0, 0, false, [], 0, None)

  /** The summed part of a metric is a token cell; only the sample window is its own. */
  function Sum(m: Metric): TokenCell {
    TokenCell(m.sumMs, m.known, m.unknown, m.lost, m.overflow, m.observedAt)
  }

  predicate IsMetric(m: Metric) {
    && IsTokenCell(Sum(m))
    && m.samplesDropped <= MAX && |m.samples| <= MAX_SAMPLES
    && (forall i :: 0 <= i < |m.samples| ==> m.samples[i] <= MAX)
    && |m.samples| + m.samplesDropped <= m.known
  }

  function LastSamples(s: seq<nat>): (r: seq<nat>) {
    if |s| <= MAX_SAMPLES then s else s[|s| - MAX_SAMPLES..]
  }

  /** `addMetric`: the sum behaves as a token cell; a sum that overflows loses its sample too. */
  function AddMetric(m: Metric, x: Fact): (Metric, bool) {
    var (c, exact) := AddRaw(Sum(m), x);
    var t := m.(sumMs := c.value, known := c.known, unknown := c.unknown, lost := c.lost,
                overflow := c.overflow, observedAt := c.observedAt);
    if x.value.None? || !exact then (t, exact)
    else
      var grown := t.(samples := LastSamples(m.samples + [x.value.value]));
      if |m.samples| < MAX_SAMPLES then (grown, true)
      else if m.samplesDropped >= MAX then (grown.(overflow := true), false)
      else (grown.(samplesDropped := m.samplesDropped + 1), true)
  }

  /** The mutable latency record: pushes a sample, then shifts the oldest one out of a full window. */
  class MetricAccumulator {
    var sum: TokenAccumulator
    var samples: seq<nat>
    var samplesDropped: nat

    ghost function View(): Metric reads this, sum {
      Metric(sum.value, sum.known, sum.unknown, sum.lost, sum.overflow, samples, samplesDropped, sum.observedAt)
    }

    constructor ()
      ensures View() == EMPTY_METRIC && fresh(sum)
    {
      sum := new TokenAccumulator();
      samples, samplesDropped := [], 0;
    }

    method Add(x: Fact) returns (exact: bool)
      requires |samples| <= MAX_SAMPLES
      modifies this`samples, this`samplesDropped, sum
      ensures (View(), exact) == AddMetric(old(View()), x)
      ensures |samples| <= MAX_SAMPLES
    {
      exact := sum.AddRawFact(x);
      if x.value.None? || !exact { return; }
      samples := samples + [x.value.value];
      if |samples| > MAX_SAMPLES {
        samples := samples[1..];
        if samplesDropped + 1 > MAX {
          sum.overflow, exact := true, false;
        } else {
          samplesDropped := samplesDropped + 1;
        }
      }
    }
  }

  function FoldMetric(xs: seq<Fact>): Metric {
    if xs == [] then EMPTY_METRIC else AddMetric(FoldMetric(xs[..|xs| - 1]), xs[|xs| - 1]).0
  }

  function KnownValues(xs: seq<Fact>): seq<nat> {
    if xs == [] then []
    else
      var x := xs[|xs| - 1];
      KnownValues(xs[..|xs| - 1]) + if x.value.Some? then [x.value.value] else []
  }

  /** A metric's sum is the token fold; without overflow its window is the last 25 known values. */
  lemma {:induction false} FoldMetricMeaning(xs: seq<Fact>)
    requires |xs| <= MAX
    ensures var m := FoldMetric(xs);
            && IsMetric(m) && Sum(m) == FoldRaw(xs)
            && |KnownValues(xs)| == m.known
            && (!m.overflow ==> m.samples == LastSamples(KnownValues(xs))
                                && m.samplesDropped == m.known - |m.samples|)
  {
    if xs != [] {
      var init, x := xs[..|xs| - 1], xs[|xs| - 1];
      FoldMetricMeaning(init);
      FoldRawMeaning(init);
      FoldRawMeaning(xs);
      TallyCounts(init);
      MetricStep(FoldMetric(init), KnownValues(init), x);
    }
  }

  /** The window of a metric is the tail of the known values it has seen, unless a sum overflowed. */
  predicate Windowed(m: Metric, values: seq<nat>) {
    && IsMetric(m) && |values| == m.known
    && (!m.overflow ==> m.samples == LastSamples(values) && m.samplesDropped == m.known - |m.samples|)
  }

  lemma {:induction false} MetricStep(m: Metric, values: seq<nat>, x: Fact)
    requires Windowed(m, values) && m.known < MAX && m.unknown < MAX
    requires IsTokenCell(AddRaw(Sum(m), x).0)
    ensures var m' := AddMetric(m, x).0;
            && Sum(m') == AddRaw(Sum(m), x).0
            && Windowed(m', values + if x.value.Some? then [x.value.value] else [])
  {
    AddRawCounts(Sum(m), x);
    hide AddRaw;
    if x.value.None? {
      assert values + [] == values;
    } else if AddRaw(Sum(m), x).1 {
      LastAppended(m.samples, values, x.value.value);
    }
  }

  /** An exact fold counts its fact once; an inexact one leaves the overflow mark. */
  lemma {:induction false} AddRawCounts(c: TokenCell, x: Fact)
    requires c.known < MAX && c.unknown < MAX
    ensures AddRaw(c, x).0.known == c.known + if x.value.Some? then 1 else 0
    ensures AddRaw(c, x).0.unknown == c.unknown + if x.value.None? then 1 else 0
    ensures !AddRaw(c, x).1 ==> AddRaw(c, x).0.overflow
    ensures c.overflow ==> AddRaw(c, x).0.overflow
  {
  }

  /** Exactness implies there was room to count. */
  lemma {:induction false} ExactHadRoom(c: TokenCell, x: Fact)
    requires AddRaw(c, x).1
    ensures if x.value.Some? then c.known < MAX else c.unknown < MAX
    ensures AddRaw(c, x).0.known == c.known + if x.value.Some? then 1 else 0
    ensures AddRaw(c, x).0.unknown == c.unknown + if x.value.None? then 1 else 0
  {
  }

  lemma {:induction false} LastAppended(window: seq<nat>, values: seq<nat>, v: nat)
    ensures window == LastSamples(values) ==> LastSamples(window + [v]) == LastSamples(values + [v])
  {
    if window == LastSamples(values) {
      LastOfLast(values, [v]);
    }
  }

  lemma {:induction false} LastOfLast(a: seq<nat>, b: seq<nat>)
    ensures LastSamples(LastSamples(a) + LastSamples(b)) == LastSamples(a + b)
  {
    var l, r := LastSamples(LastSamples(a) + LastSamples(b)), LastSamples(a + b);
    assert |l| == |r|;
    forall i | 0 <= i < |l| ensures l[i] == r[i] { }
  }

  function MergeMetrics(a: Metric, b: Metric): Option<Metric> {
    if !IsMetric(a) || !IsMetric(b) then None
    else if a.known + b.known > MAX || a.unknown + b.unknown > MAX || a.lost + b.lost > MAX
            || a.samplesDropped + b.samplesDropped > MAX then None
    else
      var overflow := a.overflow || b.overflow;
      var both := !overflow && a.sumMs.Some? && b.sumMs.Some?;
      var sumOverflow := overflow || (both && a.sumMs.value + b.sumMs.value > MAX);
      var sum := if both && !sumOverflow then Some(a.sumMs.value + b.sumMs.value) else None;
      var all := a.samples + b.samples;
      var kept := LastSamples(all);
      var dropped := a.samplesDropped + b.samplesDropped + (|all| - |kept|);
      if dropped > MAX then None
      else Some(Metric(
                  if sumOverflow || a.unknown + b.unknown > 0 || a.lost + b.lost > 0 then None else sum,
                  a.known + b.known, a.unknown + b.unknown, a.lost + b.lost, sumOverflow,
                  kept, dropped, Latest(a.observedAt, b.observedAt)))
  }

  lemma {:induction false} KnownValuesConcat(xs: seq<Fact>, ys: seq<Fact>)
    ensures KnownValues(xs + ys) == KnownValues(xs) + KnownValues(ys)
  {
    if ys == [] {
      assert xs + ys == xs;
    } else {
      assert (xs + ys)[..|xs + ys| - 1] == xs + ys[..|ys| - 1];
      KnownValuesConcat(xs, ys[..|ys| - 1]);
    }
  }

  /** Metric folds of two non-empty lists merge into the fold of their concatenation, window included. */
  lemma {:induction false} FoldMetricMerges(xs: seq<Fact>, ys: seq<Fact>)
    requires xs != [] && ys != [] && |xs| + |ys| <= MAX
    ensures var m, whole := MergeMetrics(FoldMetric(xs), FoldMetric(ys)), FoldMetric(xs + ys);
            && m.Some? && IsMetric(m.value)
            && SameReading(Sum(m.value), Sum(whole))
            && (!FoldMetric(xs).overflow && !FoldMetric(ys).overflow && !whole.overflow
                ==> m.value.samples == whole.samples && m.value.samplesDropped == whole.samplesDropped)
  {
    FoldMetricMeaning(xs);
    FoldMetricMeaning(ys);
    FoldMetricMeaning(xs + ys);
    KnownValuesConcat(xs, ys);
    FoldMergesExactlyWhen(xs, ys);
    MergeWindows(FoldMetric(xs), FoldMetric(ys), KnownValues(xs), KnownValues(ys));
  }

  lemma {:induction false} MergeWindows(a: Metric, b: Metric, va: seq<nat>, vb: seq<nat>)
    requires Windowed(a, va) && Windowed(b, vb)
    requires a.known + b.known <= MAX && a.unknown + b.unknown <= MAX && a.lost + b.lost <= MAX
    requires Merge(Sum(a), Sum(b)).Some? && IsTokenCell(Merge(Sum(a), Sum(b)).value)
    ensures var m := MergeMetrics(a, b);
            && m.Some? && SameReading(Sum(m.value), Merge(Sum(a), Sum(b)).value)
            && IsMetric(m.value)
            && (!a.overflow && !b.overflow ==>
                  && m.value.samples == LastSamples(va + vb)
                  && m.value.samplesDropped == m.value.known - |m.value.samples|)
  {
    if !a.overflow && !b.overflow {
      LastOfLast(va, vb);
    }
  }

  // ---------------------------------------------------------------- spend cells

  datatype SpendCell = SpendCell(amount: Option<nat>, known: nat, observedAt: Option<int>)

  const EMPTY_SPEND_CELL := SpendCell(None, 0, None)

  datatype Charge = Charge(amount: Counter, at: int)

  predicate IsSpendCell(c: SpendCell) {
    && c.known <= MAX && (c.amount.Some? ==> c.amount.value <= MAX)
    && (c.known == 0 <==> c.observedAt.None?) && (c.known == 0 ==> c.amount.None?)
  }

  function MergeSpend(a: SpendCell, b: SpendCell): Option<SpendCell> {
    if a.known + b.known > MAX then None
    else
      var amount := if a.amount.Some? && b.amount.Some? && a.amount.value + b.amount.value <= MAX
                    then Some(a.amount.value + b.amount.value) else None;
      Some(SpendCell(if a.known + b.known > 0 then amount else None, a.known + b.known,
                     Latest(a.observedAt, b.observedAt)))
  }

  /** `addSpendIntoCells` on the routed cell: the contributor is counted before the merge is tried. */
  function AddSpend(c: SpendCell, x: Charge): (SpendCell, bool) {
    if c.known >= MAX then (c, false)
    else
      var counted := c.(known := c.known + 1);
      if c.known == 0 then (counted.(amount := Some(x.amount), observedAt := Some(x.at)), true)
      else
        match MergeSpend(counted, SpendCell(Some(x.amount), 1, Some(x.at)))
        case None => (counted, false)
        case Some(m) => (counted.(amount := m.amount, observedAt := m.observedAt), true)
  }

  function FoldSpend(xs: seq<Charge>): SpendCell {
    if xs == [] then EMPTY_SPEND_CELL else AddSpend(FoldSpend(xs[..|xs| - 1]), xs[|xs| - 1]).0
  }

  function AsFact(x: Charge): Fact { Fact(Some(x.amount), x.at) }

  function AsFacts(xs: seq<Charge>): seq<Fact> {
    seq(|xs|, i requires 0 <= i < |xs| => AsFact(xs[i]))
  }

  /** Below MAX contributors, a spend cell states the exact total until it stops being safe. */
  lemma {:induction false} FoldSpendMeaning(xs: seq<Charge>)
    requires |xs| < MAX
    ensures var c, t := FoldSpend(xs), TallyOf(AsFacts(xs));
            IsSpendCell(c) && SpendShows(c, t) && t.known == |xs|
  {
    TallyCounts(AsFacts(xs));
    AllKnown(AsFacts(xs));
    if xs == [] {
    } else {
      var init := xs[..|xs| - 1];
      assert AsFacts(xs)[..|xs| - 1] == AsFacts(init);
      FoldSpendMeaning(init);
      TallyCounts(AsFacts(init));
      AllKnown(AsFacts(init));
      SpendStep(FoldSpend(init), TallyOf(AsFacts(init)), xs[|xs| - 1]);
    }
  }

  lemma {:induction false} SpendStep(c: SpendCell, t: Tally, x: Charge)
    requires IsSpendCell(c) && SpendShows(c, t) && t.unknown == 0 && t.known < MAX - 1
    requires t.known == 0 ==> t.total == 0
    ensures var c' := AddSpend(c, x).0;
            IsSpendCell(c') && SpendShows(c', Plus(t, TallyOne(AsFact(x))))
  {
  }

  lemma {:induction false} AllKnown(xs: seq<Fact>)
    requires forall i :: 0 <= i < |xs| ==> xs[i].value.Some?
    ensures TallyOf(xs).unknown == 0
  {
    if xs != [] { AllKnown(xs[..|xs| - 1]); }
  }

  /** Spend folds merge: both lists non-empty, fewer than MAX contributors in all. */
  lemma {:induction false} FoldSpendMerges(xs: seq<Charge>, ys: seq<Charge>)
    requires xs != [] && ys != [] && |xs| + |ys| < MAX
    ensures MergeSpend(FoldSpend(xs), FoldSpend(ys)) == Some(FoldSpend(xs + ys))
  {
    SpendFolds(xs, ys);
    hide FoldSpend, TallyOf, AsFacts;
    SpendMergeShows(FoldSpend(xs), FoldSpend(ys), FoldSpend(xs + ys), TallyOf(AsFacts(xs)), TallyOf(AsFacts(ys)));
  }

  lemma {:induction false} SpendFolds(xs: seq<Charge>, ys: seq<Charge>)
    requires |xs| + |ys| < MAX
    ensures var (t, u) := (TallyOf(AsFacts(xs)), TallyOf(AsFacts(ys)));
            && SpendShows(FoldSpend(xs), t) && SpendShows(FoldSpend(ys), u)
              && SpendShows(FoldSpend(xs + ys), Plus(t, u))
            && t.unknown == 0 && u.unknown == 0 && t.known == |xs| && u.known == |ys|
  {
    hide FoldSpend, TallyOf;
    FoldSpendMeaning(xs);
    FoldSpendMeaning(ys);
    FoldSpendMeaning(xs + ys);
    AllKnown(AsFacts(xs));
    AllKnown(AsFacts(ys));
    assert AsFacts(xs + ys) == AsFacts(xs) + AsFacts(ys);
    TallyConcat(AsFacts(xs), AsFacts(ys));
  }

  predicate SpendShows(c: SpendCell, t: Tally) {
    c.known == t.known && c.observedAt == t.seen && c.amount == (if Certain(t) then Some(t.total) else None)
  }

  lemma {:induction false} SpendMergeShows(a: SpendCell, b: SpendCell, whole: SpendCell, ta: Tally, tb: Tally)
    requires SpendShows(a, ta) && SpendShows(b, tb) && SpendShows(whole, Plus(ta, tb))
    requires ta.known > 0 && tb.known > 0 && ta.unknown == 0 && tb.unknown == 0 && ta.known + tb.known <= MAX
    ensures MergeSpend(a, b) == Some(whole)
  {
  }

  /**
   * At the last countable contributor the fold counts it and drops its amount: the merge sees the
   * already incremented count. It does so for that count and no smaller one. Before that a fold is
   * exact even when it loses the amount, which it does exactly when the sum is gone or too big.
   */
  lemma {:induction false} SpendAmountDroppedExactlyAtTheLast(c: SpendCell, x: Charge)
    requires IsSpendCell(c)
    ensures var (c', exact) := AddSpend(c, x);
            && (!exact <==> c.known >= MAX - 1)
            && (c.known == MAX - 1 ==> c' == c.(known := MAX))
            && (exact ==>
                  (c'.amount.None? <==> c.known > 0 && (c.amount.None? || c.amount.value + x.amount > MAX)))
  {
  }
}
