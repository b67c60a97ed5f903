/** When a fold is exact: every counter, cell, window and charge it touches has room. */
module ExactFolds {
  import opened Common
  import opened Cells
  import opened Facts
  import opened Aggregates
  import opened Coverages
  import opened Minutes
  import opened Packets
  import opened Days
  import opened Rollups
  import opened Conservation
  import opened Readings

  /** A token cell takes a fact while its counters have room and a certain sum stays safe. */
  predicate Takes(c: TokenCell, x: Fact) {
    match x.value
    case None => c.unknown < MAX
    case Some(v) => c.known < MAX && (c.value.Some? ==> c.value.value + v <= MAX)
  }

  predicate MetricTakes(m: Metric, x: Fact) {
    Takes(Sum(m), x) && (x.value.Some? && |m.samples| >= MAX_SAMPLES ==> m.samplesDropped < MAX)
  }

  predicate Absorbs(c: TokenCell, s: TokenCell) {
    && c.known + s.known <= MAX && c.unknown + s.unknown <= MAX && c.lost + s.lost <= MAX
    && (c.value.Some? && s.value.Some? ==> c.value.value + s.value.value <= MAX)
  }

  function CellOf(s: Spend, published: bool, reported: bool): SpendCell {
    match (published, reported)
    case (true, true) => s.publishedReported
    case (true, false) => s.publishedEstimated
    case (false, true) => s.referenceReported
    case (false, false) => s.referenceEstimated
  }

  /** Every cell a record is charged to can still count one more contributor after all of them. */
  predicate ChargesFit(s: Spend, rs: seq<SpendRecord>) {
    forall p: bool, q: bool :: |Charged(rs, p, q)| > 0 ==> CellOf(s, p, q).known + |Charged(rs, p, q)| < MAX
  }

  predicate OutcomeFits(a: Aggregate, outcome: Outcome) {
    match outcome
    case Success => a.served < MAX
    case Error => a.errored < MAX
    case Cancelled => a.cancelled < MAX
    case Unknown => true
  }

  predicate RequestFits(a: Aggregate, e: RequestEvent, outcome: Outcome) {
    && a.requests < MAX && OutcomeFits(a, outcome)
    && MetricTakes(a.latency, Fact(if outcome == Cancelled then None else e.latencyMs, e.endedAt))
    && MetricTakes(a.commit, Fact(if outcome == Success then e.commitMs else None, e.endedAt))
    && (forall k :: 0 <= k < KINDS ==> Takes(a.requestTokens[k], e.tokens[k]))
    && (if e.spend.None? then a.unpriced < MAX
        else && ChargesFit(OrEmpty(a.requestSpend), [e.spend.value])
             && (e.spend.value.coverage != Full ==> PartialCount(a) < MAX))
    && ChargesFit(OrEmpty(a.abandonedSpend), e.abandonedSpend)
  }

  predicate AttemptFits(a: Aggregate, p: AttemptPacket, side: Side) {
    && a.attempts < MAX
    && (side == InRow ==>
          && OutcomeFits(a, p.outcome)
          && MetricTakes(a.latency, Fact(if p.outcome == Cancelled then None else p.latencyMs, p.endedAt))
          && MetricTakes(a.commit,
                         Fact(if p.outcome == Success && p.role == Serve then p.commitMs else None, p.endedAt)))
    && (forall k :: 0 <= k < KINDS ==> Absorbs(a.tokens[k], p.tokens[k]))
    && (p.spend.Some? ==> ChargesFit(OrEmpty(a.spend), [p.spend.value]))
  }

  lemma RawExact(c: TokenCell, x: Fact)
    requires IsTokenCell(c)
    ensures AddRaw(c, x).1 <==> Takes(c, x)
  {
  }

  lemma MetricExact(m: Metric, x: Fact)
    requires IsMetric(m)
    ensures AddMetric(m, x).1 <==> MetricTakes(m, x)
  {
    RawExact(Sum(m), x);
    hide AddRaw, Takes;
  }

  lemma AbsorbExact(c: TokenCell, s: TokenCell)
    requires IsTokenCell(c) && IsTokenCell(s)
    ensures AddAggregate(c, s).1 <==> Absorbs(c, s)
  {
  }

  lemma {:induction false} AllAbsorbed(t: Tokens, s: Tokens, i: nat)
    requires i <= KINDS && forall k :: i <= k < KINDS ==> AddAggregate(t[k], s[k]).1
    ensures AddTokensFrom(t, s, i).1
    decreases KINDS - i
  {
    hide AddAggregate;
    if i < KINDS { AllAbsorbed(t[i := AddAggregate(t[i], s[i]).0], s, i + 1); }
  }

  lemma {:induction false} RawTokensExact(t: Tokens, facts: TokenFacts)
    requires AreTokens(t)
    ensures AddRawFrom(t, facts, 0).1 <==> forall k :: 0 <= k < KINDS ==> Takes(t[k], facts[k])
  {
    hide AddRaw, Takes, IsTokenCell, AddRawFrom;
    forall k | 0 <= k < KINDS ensures AddRaw(t[k], facts[k]).1 <==> Takes(t[k], facts[k]) {
      RawExact(t[k], facts[k]);
    }
    if forall k :: 0 <= k < KINDS ==> Takes(t[k], facts[k]) { AllExact(t, facts, 0); }
  }

  lemma {:induction false} AttemptTokensExact(t: Tokens, s: Tokens)
    requires AreTokens(t) && AreTokens(s)
    ensures AddTokensFrom(t, s, 0).1 <==> forall k :: 0 <= k < KINDS ==> Absorbs(t[k], s[k])
  {
    hide AddAggregate, Absorbs, IsTokenCell, AddTokensFrom;
    forall k | 0 <= k < KINDS ensures AddAggregate(t[k], s[k]).1 <==> Absorbs(t[k], s[k]) {
      AbsorbExact(t[k], s[k]);
    }
    if forall k :: 0 <= k < KINDS ==> Absorbs(t[k], s[k]) { AllAbsorbed(t, s, 0); }
  }

  /** What a charge does to the counts of the four cells, and when it is exact. */
  lemma {:induction false} ChargeExact(s: Spend, r: SpendRecord)
    requires IsSpend(s)
    ensures AddCharge(s, r).1 <==> CellOf(s, r.published, r.reported).known < MAX - 1
    ensures AddCharge(s, r).1 ==> forall p: bool, q: bool ::
              CellOf(AddCharge(s, r).0, p, q).known
              == CellOf(s, p, q).known + if p == r.published && q == r.reported then 1 else 0
  {
  }

  lemma {:induction false} OneChargeFits(s: Spend, r: SpendRecord)
    ensures ChargesFit(s, [r]) <==> CellOf(s, r.published, r.reported).known < MAX - 1
  {
    hide CellOf;
    assert [r] == [] + [r];
    forall p: bool, q: bool ensures |Charged([r], p, q)| == if p == r.published && q == r.reported then 1 else 0 {
      ChargedAppend([], r, p, q);
    }
  }

  lemma {:induction false} AbandonedExactWhen(s: Step, rs: seq<SpendRecord>)
    requires s.exact && IsSpend(OrEmpty(s.agg.abandonedSpend))
    ensures var t := FoldAllAbandoned(s, rs);
            && IsSpend(OrEmpty(t.agg.abandonedSpend))
            && (t.exact <==> ChargesFit(OrEmpty(s.agg.abandonedSpend), rs))
            && (t.exact ==> forall p: bool, q: bool ::
                  CellOf(OrEmpty(t.agg.abandonedSpend), p, q).known
                  == CellOf(OrEmpty(s.agg.abandonedSpend), p, q).known + |Charged(rs, p, q)|)
  {
    hide CellOf, AddCharge, IsSpend, OrEmpty, ChargesFit;
    if |rs| == 0 {
      assert ChargesFit(OrEmpty(s.agg.abandonedSpend), rs) by { NoCharges(OrEmpty(s.agg.abandonedSpend), rs); }
    } else {
      var init, r := rs[..|rs| - 1], rs[|rs| - 1];
      AbandonedExactWhen(s, init);
      var u := FoldAllAbandoned(s, init);
      AbandonedOnce(u, r);
      ChargesFitStep(OrEmpty(s.agg.abandonedSpend), OrEmpty(u.agg.abandonedSpend), init, r, u.exact);
      assert init + [r] == rs;
    }
  }

  lemma NoCharges(s: Spend, rs: seq<SpendRecord>)
    requires |rs| == 0
    ensures ChargesFit(s, rs)
  {
  }

  lemma AbandonedOnce(u: Step, r: SpendRecord)
    requires IsSpend(OrEmpty(u.agg.abandonedSpend))
    ensures var (before, t) := (OrEmpty(u.agg.abandonedSpend), FoldAbandoned(u, r));
            && IsSpend(OrEmpty(t.agg.abandonedSpend))
            && (t.exact <==> u.exact && CellOf(before, r.published, r.reported).known < MAX - 1)
            && (t.exact ==> forall p: bool, q: bool ::
                  CellOf(OrEmpty(t.agg.abandonedSpend), p, q).known
                  == CellOf(before, p, q).known + if p == r.published && q == r.reported then 1 else 0)
  {
    ChargeExact(OrEmpty(u.agg.abandonedSpend), r);
    AddChargeKeepsGuard(OrEmpty(u.agg.abandonedSpend), r);
    hide CellOf, AddCharge, IsSpend;
  }

  lemma {:induction false} ChargesFitStep(s: Spend, u: Spend, init: seq<SpendRecord>, r: SpendRecord, exact: bool)
    requires exact <==> ChargesFit(s, init)
    requires exact ==> forall p: bool, q: bool :: CellOf(u, p, q).known == CellOf(s, p, q).known + |Charged(init, p, q)|
    ensures ChargesFit(s, init + [r]) <==> exact && CellOf(u, r.published, r.reported).known < MAX - 1
    ensures forall p: bool, q: bool ::
              |Charged(init + [r], p, q)|
              == |Charged(init, p, q)| + if p == r.published && q == r.reported then 1 else 0
  {
    hide CellOf, Charged;
    forall p: bool, q: bool
      ensures |Charged(init + [r], p, q)|
              == |Charged(init, p, q)| + if p == r.published && q == r.reported then 1 else 0
    {
      ChargedAppend(init, r, p, q);
    }
  }

  lemma RequestSpendExact(s: Step, spend: Option<SpendRecord>)
    requires s.exact && IsSpend(OrEmpty(s.agg.requestSpend))
    ensures FoldRequestSpend(s, spend).exact
            <==> if spend.None? then s.agg.unpriced < MAX
                 else && ChargesFit(OrEmpty(s.agg.requestSpend), [spend.value])
                      && (spend.value.coverage != Full ==> PartialCount(s.agg) < MAX)
    ensures FoldRequestSpend(s, spend).agg.abandonedSpend == s.agg.abandonedSpend
  {
    if spend.Some? {
      ChargeExact(OrEmpty(s.agg.requestSpend), spend.value);
      OneChargeFits(OrEmpty(s.agg.requestSpend), spend.value);
    }
    hide CellOf, AddCharge, IsSpend, ChargesFit;
  }

  lemma OutcomeExact(a: Aggregate, outcome: Outcome)
    ensures CountOutcome(Step(a, true), outcome).exact <==> OutcomeFits(a, outcome)
  {
  }

  /** A request is folded exactly when every counter, cell and charge it touches has room. */
  lemma {:induction false} RequestExactlyWhen(a: Aggregate, e: RequestEvent, outcome: Outcome)
    requires PartsOk(a)
    ensures AddRequest(a, e, outcome).exact <==> RequestFits(a, e, outcome)
  {
    hide AddMetric, AddRawFrom, FoldRequestSpend, FoldAllAbandoned, MetricTakes, Takes, ChargesFit, IsMetric,
         IsTokenCell, IsSpend, PartialCount;
    var latency := Fact(if outcome == Cancelled then None else e.latencyMs, e.endedAt);
    var commit := Fact(if outcome == Success then e.commitMs else None, e.endedAt);
    MetricExact(a.latency, latency);
    MetricExact(a.commit, commit);
    RawTokensExact(a.requestTokens, e.tokens);
    var s4 := UpToTokens(a, e, outcome);
    AbandonedExact(FoldRequestSpend(s4, e.spend), e.abandonedSpend);
    SpendNeedsExact(s4, e.spend);
    if s4.exact {
      SpendGuarded(a);
      RequestSpendExact(s4, e.spend);
      if FoldRequestSpend(s4, e.spend).exact {
        AbandonedExactWhen(FoldRequestSpend(s4, e.spend), e.abandonedSpend);
      }
      SamePartial(s4.agg, a);
    }
  }

  lemma SamePartial(a: Aggregate, b: Aggregate)
    requires a.partial == b.partial
    ensures PartialCount(a) == PartialCount(b)
  {
  }

  lemma SpendGuarded(a: Aggregate)
    requires PartsOk(a)
    ensures IsSpend(OrEmpty(a.requestSpend)) && IsSpend(OrEmpty(a.abandonedSpend)) && IsSpend(OrEmpty(a.spend))
  {
  }

  lemma SpendNeedsExact(s: Step, spend: Option<SpendRecord>)
    ensures FoldRequestSpend(s, spend).exact ==> s.exact
  {
    hide AddCharge;
  }

  lemma PartsOf(a: Aggregate)
    requires PartsOk(a)
    ensures IsMetric(a.latency) && IsMetric(a.commit) && AreTokens(a.tokens)
  {
    hide IsMetric, IsTokenCell, IsSpendOrAbsent;
  }

  lemma AttemptSpendExact(s: Step, spend: Option<SpendRecord>)
    requires s.exact && IsSpend(OrEmpty(s.agg.spend))
    ensures FoldAttemptSpend(s, spend).exact <==> spend.Some? ==> ChargesFit(OrEmpty(s.agg.spend), [spend.value])
  {
    if spend.Some? {
      ChargeExact(OrEmpty(s.agg.spend), spend.value);
      OneChargeFits(OrEmpty(s.agg.spend), spend.value);
    }
    hide CellOf, AddCharge, IsSpend, ChargesFit;
  }

  lemma AttemptSpendNeedsExact(s: Step, spend: Option<SpendRecord>)
    ensures FoldAttemptSpend(s, spend).exact ==> s.exact
  {
    hide AddCharge;
  }

  /** The same for an attempt, in a root or in a row. */
  lemma {:induction false} AttemptExactlyWhen(a: Aggregate, p: AttemptPacket, side: Side)
    requires PartsOk(a) && AreTokens(p.tokens)
    ensures AttemptStep(a, p, side).exact <==> AttemptFits(a, p, side)
  {
    hide PartsOk, AddMetric, AddTokensFrom, AddCharge, MetricTakes, Absorbs, ChargesFit, IsMetric, IsTokenCell, IsSpend,
         FoldAttemptSpend, OrEmpty;
    PartsOf(a);
    SpendGuarded(a);
    AttemptTokensExact(a.tokens, p.tokens);
    if side == Root {
      var t := FoldAttemptTokens(CountAttempt(a), p.tokens);
      AttemptSpendNeedsExact(t, p.spend);
      if t.exact { AttemptSpendExact(t, p.spend); }
    } else {
      var latency := Fact(if p.outcome == Cancelled then None else p.latencyMs, p.endedAt);
      var commit := Fact(if p.outcome == Success && p.role == Serve then p.commitMs else None, p.endedAt);
      MetricExact(a.latency, latency);
      MetricExact(a.commit, commit);
      var s1 := CountOutcome(CountAttempt(a), p.outcome);
      var t := FoldAttemptTokens(FoldCommit(FoldLatency(s1, latency), commit), p.tokens);
      AttemptSpendNeedsExact(t, p.spend);
      if t.exact { AttemptSpendExact(t, p.spend); }
    }
  }
}
