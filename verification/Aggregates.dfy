/**
 * One aggregate of the ledger: request and attempt counters, token cells, metrics and spend. Each
 * fold is a chain of steps that stops at the first inexact one, so a later cell may be skipped.
 */
module Aggregates {
  import opened Common
  import opened Cells
  import opened Facts

  datatype Spend = Spend(
    publishedReported: SpendCell, publishedEstimated: SpendCell,
    referenceReported: SpendCell, referenceEstimated: SpendCell)

  const EMPTY_SPEND := Spend(EMPTY_SPEND_CELL, EMPTY_SPEND_CELL, EMPTY_SPEND_CELL, EMPTY_SPEND_CELL)

  predicate IsSpend(s: Spend) {
    && IsSpendCell(s.publishedReported) && IsSpendCell(s.publishedEstimated)
    && IsSpendCell(s.referenceReported) && IsSpendCell(s.referenceEstimated)
  }

  predicate IsSpendOrAbsent(s: Option<Spend>) {
    s.None? || IsSpend(s.value)
  }

  function OrEmpty(s: Option<Spend>): Spend {
    if s.None? then EMPTY_SPEND else s.value
  }

  /** `addSpendIntoCells`: the record goes to the cell of its price source and token basis. */
  function AddCharge(s: Spend, r: SpendRecord): (Spend, bool) {
    if r.published && r.reported then
      var (c, ok) := AddSpend(s.publishedReported, ChargeOf(r)); (s.(publishedReported := c), ok)
    else if r.published then
      var (c, ok) := AddSpend(s.publishedEstimated, ChargeOf(r)); (s.(publishedEstimated := c), ok)
    else if r.reported then
      var (c, ok) := AddSpend(s.referenceReported, ChargeOf(r)); (s.(referenceReported := c), ok)
    else
      var (c, ok) := AddSpend(s.referenceEstimated, ChargeOf(r)); (s.(referenceEstimated := c), ok)
  }

  datatype Aggregate = Aggregate(
    requests: nat, attempts: nat, served: nat, errored: nat, cancelled: nat,
    tokens: Tokens, requestTokens: Tokens, latency: Metric, commit: Metric,
    spend: Option<Spend>, requestSpend: Option<Spend>, abandonedSpend: Option<Spend>,
    partial: Option<nat>, unpriced: nat)

  const EMPTY_AGGREGATE := Aggregate(
    0, 0, 0, 0, 0, EMPTY_TOKENS, EMPTY_TOKENS, EMPTY_METRIC, EMPTY_METRIC, Some(EMPTY_SPEND), None, None, None, 0)

  /** Who owns an aggregate decides which counters it may carry. */
  datatype Owner = General | OfRequests(outcome: Outcome) | OfAttempts(outcome: Outcome)

  function PartialCount(a: Aggregate): nat {
    if a.partial.None? then 0 else a.partial.value
  }

  /** The guards of the cells inside an aggregate. */
  predicate PartsOk(a: Aggregate) {
    && AreTokens(a.tokens) && AreTokens(a.requestTokens) && IsMetric(a.latency) && IsMetric(a.commit)
    && IsSpendOrAbsent(a.spend) && IsSpendOrAbsent(a.requestSpend) && IsSpendOrAbsent(a.abandonedSpend)
  }

  /** Exactly one of the outcome counters moves with the count, as the row's outcome says. */
  predicate Homogeneous(a: Aggregate, outcome: Outcome, count: nat) {
    && a.served == (if outcome == Success then count else 0)
    && a.errored == (if outcome == Error then count else 0)
    && a.cancelled == (if outcome == Cancelled then count else 0)
  }

  /** The counter clauses of `isAggregateFields`, without the clause that a row counts something. */
  predicate CountsOk(a: Aggregate, owner: Owner) {
    && a.requests <= MAX && a.attempts <= MAX
    && a.unpriced + PartialCount(a) <= a.requests
    && match owner
       case General => a.served + a.errored + a.cancelled <= a.requests
       case OfRequests(o) =>
         a.attempts == 0 && a.tokens == EMPTY_TOKENS && (a.spend.None? || a.spend.value == EMPTY_SPEND)
         && Homogeneous(a, o, a.requests)
       case OfAttempts(o) =>
         a.requests == 0 && a.requestTokens == EMPTY_TOKENS
         && a.requestSpend.None? && a.abandonedSpend.None? && a.partial.None?
         && Homogeneous(a, o, a.attempts)
  }

  function CountOf(a: Aggregate, owner: Owner): nat {
    match owner case General => 1 case OfRequests(_) => a.requests case OfAttempts(_) => a.attempts
  }

  /** `isAggregateFields`: the load-time guard; a dimension row must count something. */
  predicate IsAggregate(a: Aggregate, owner: Owner) {
    PartsOk(a) && CountsOk(a, owner) && CountOf(a, owner) > 0
  }

  // ---------------------------------------------------------------- token chains

  /** `addRawTokens` from kind i on: later kinds are skipped once a fold is inexact. */
  function AddRawFrom(t: Tokens, facts: TokenFacts, i: nat): (r: (Tokens, bool))
    requires i <= KINDS
    ensures forall k :: 0 <= k < i ==> r.0[k] == t[k]
    ensures forall k :: i <= k < KINDS ==> r.0[k] == t[k] || r.0[k] == AddRaw(t[k], facts[k]).0
    ensures r.1 ==> forall k :: i <= k < KINDS ==> r.0[k] == AddRaw(t[k], facts[k]).0 && AddRaw(t[k], facts[k]).1
    decreases KINDS - i
  {
    if i == KINDS then (t, true)
    else
      var (c, exact) := AddRaw(t[i], facts[i]);
      if exact then AddRawFrom(t[i := c], facts, i + 1) else (t[i := c], false)
  }

  /** `addAggregateTokens` from kind i on, with the same short circuit. */
  function AddTokensFrom(t: Tokens, s: Tokens, i: nat): (r: (Tokens, bool))
    requires i <= KINDS
    ensures forall k :: 0 <= k < i ==> r.0[k] == t[k]
    ensures forall k :: i <= k < KINDS ==> r.0[k] == t[k] || r.0[k] == AddAggregate(t[k], s[k]).0
    ensures r.1 ==> forall k :: i <= k < KINDS ==> r.0[k] == AddAggregate(t[k], s[k]).0 && AddAggregate(t[k], s[k]).1
    decreases KINDS - i
  {
    if i == KINDS then (t, true)
    else
      var (c, exact) := AddAggregate(t[i], s[i]);
      if exact then AddTokensFrom(t[i := c], s, i + 1) else (t[i := c], false)
  }

  // ---------------------------------------------------------------- steps of the folds

  /** An aggregate in the middle of a fold: once `exact` is false the remaining steps are skipped. */
  datatype Step = Step(agg: Aggregate, exact: bool)

  /** `addOutcome`. */
  function CountOutcome(s: Step, outcome: Outcome): Step {
    if !s.exact then s
    else
      match outcome
      case Success => Step(s.agg.(served := Bump(s.agg.served)), s.agg.served < MAX)
      case Error => Step(s.agg.(errored := Bump(s.agg.errored)), s.agg.errored < MAX)
      case Cancelled => Step(s.agg.(cancelled := Bump(s.agg.cancelled)), s.agg.cancelled < MAX)
      case Unknown => s
  }

  function CountRequest(a: Aggregate): Step {
    Step(a.(requests := Bump(a.requests)), a.requests < MAX)
  }

  function CountAttempt(a: Aggregate): Step {
    Step(a.(attempts := Bump(a.attempts)), a.attempts < MAX)
  }

  function FoldLatency(s: Step, x: Fact): Step {
    if !s.exact then s else var (m, ok) := AddMetric(s.agg.latency, x); Step(s.agg.(latency := m), ok)
  }

  function FoldCommit(s: Step, x: Fact): Step {
    if !s.exact then s else var (m, ok) := AddMetric(s.agg.commit, x); Step(s.agg.(commit := m), ok)
  }

  function FoldRequestTokens(s: Step, facts: TokenFacts): Step {
    if !s.exact then s
    else var (t, ok) := AddRawFrom(s.agg.requestTokens, facts, 0); Step(s.agg.(requestTokens := t), ok)
  }

  function FoldAttemptTokens(s: Step, tokens: Tokens): Step {
    if !s.exact then s
    else var (t, ok) := AddTokensFrom(s.agg.tokens, tokens, 0); Step(s.agg.(tokens := t), ok)
  }

  /** Request-side spend: the cells are attached even when the fold itself is skipped. */
  function FoldRequestSpend(s: Step, spend: Option<SpendRecord>): Step {
    if spend.None? then
      if s.exact then Step(s.agg.(unpriced := Bump(s.agg.unpriced)), s.agg.unpriced < MAX) else s
    else
      var attached := s.agg.(requestSpend := Some(OrEmpty(s.agg.requestSpend)));
      if !s.exact then Step(attached, false)
      else
        var (cells, ok) := AddCharge(attached.requestSpend.value, spend.value);
        var charged := attached.(requestSpend := Some(cells));
        if !ok || spend.value.coverage == Full then Step(charged, ok)
        else if PartialCount(charged) < MAX then Step(charged.(partial := Some(PartialCount(charged) + 1)), true)
        else Step(charged, false)
  }

  /** One abandoned charge, in its own cells. */
  function FoldAbandoned(s: Step, r: SpendRecord): Step {
    var attached := s.agg.(abandonedSpend := Some(OrEmpty(s.agg.abandonedSpend)));
    if !s.exact then Step(attached, false)
    else
      var (cells, ok) := AddCharge(attached.abandonedSpend.value, r);
      Step(attached.(abandonedSpend := Some(cells)), ok)
  }

  function FoldAllAbandoned(s: Step, rs: seq<SpendRecord>): Step {
    if |rs| == 0 then s else FoldAbandoned(FoldAllAbandoned(s, rs[..|rs| - 1]), rs[|rs| - 1])
  }

  /** `addAttemptSpend`: a legacy null becomes cells on first touch, and only when the fold runs. */
  function FoldAttemptSpend(s: Step, spend: Option<SpendRecord>): Step {
    if !s.exact || spend.None? then s
    else
      var (cells, ok) := AddCharge(OrEmpty(s.agg.spend), spend.value);
      Step(s.agg.(spend := Some(cells)), ok)
  }

  /** `addRequest`. */
  function AddRequest(a: Aggregate, e: RequestEvent, outcome: Outcome): Step {
    var s1 := CountOutcome(CountRequest(a), outcome);
    var s2 := FoldLatency(s1, Fact(if outcome == Cancelled then None else e.latencyMs, e.endedAt));
    var s3 := FoldCommit(s2, Fact(if outcome == Success then e.commitMs else None, e.endedAt));
    var s4 := FoldRequestTokens(s3, e.tokens);
    FoldAllAbandoned(FoldRequestSpend(s4, e.spend), e.abandonedSpend)
  }

  /** `addRootAttempt`. */
  function AddRootAttempt(a: Aggregate, p: AttemptPacket): Step {
    FoldAttemptSpend(FoldAttemptTokens(CountAttempt(a), p.tokens), p.spend)
  }

  /** `addAttempt`. */
  function AddAttempt(a: Aggregate, p: AttemptPacket): Step {
    var s1 := CountOutcome(CountAttempt(a), p.outcome);
    var s2 := FoldLatency(s1, Fact(if p.outcome == Cancelled then None else p.latencyMs, p.endedAt));
    var commit := if p.outcome == Success && p.role == Serve then p.commitMs else None;
    var s3 := FoldCommit(s2, Fact(commit, p.endedAt));
    FoldAttemptSpend(FoldAttemptTokens(s3, p.tokens), p.spend)
  }

  // ---------------------------------------------------------------- cell folds keep the cell guards

  lemma {:induction false} AddRawKeepsGuard(c: TokenCell, x: Fact)
    requires IsTokenCell(c)
    ensures IsTokenCell(AddRaw(c, x).0)
  {
  }

  /** Absorbing a cell keeps the guard unless an empty cell is absorbed into a certain one. */
  lemma {:induction false} AddAggregateKeepsGuard(c: TokenCell, s: TokenCell)
    requires IsTokenCell(c) && IsTokenCell(s)
    ensures IsTokenCell(AddAggregate(c, s).0)
            <==> !(c.known > 0 && !Uncertain(c) && s.known == 0 && !Uncertain(s))
  {
  }

  lemma {:induction false} AddMetricKeepsGuard(m: Metric, x: Fact)
    requires IsMetric(m)
    ensures IsMetric(AddMetric(m, x).0)
  {
    AddRawKeepsGuard(Sum(m), x);
  }

  lemma {:induction false} AddChargeKeepsGuard(s: Spend, r: SpendRecord)
    requires IsSpend(s)
    ensures IsSpend(AddCharge(s, r).0)
  {
  }

  lemma {:induction false} RawTokensKeepGuard(t: Tokens, facts: TokenFacts)
    requires AreTokens(t)
    ensures AreTokens(AddRawFrom(t, facts, 0).0)
  {
    forall k | 0 <= k < KINDS ensures IsTokenCell(AddRawFrom(t, facts, 0).0[k]) {
      AddRawKeepsGuard(t[k], facts[k]);
    }
  }

  // ---------------------------------------------------------------- steps keep the parts

  lemma {:induction false} LatencyKeepsParts(s: Step, x: Fact)
    requires PartsOk(s.agg)
    ensures PartsOk(FoldLatency(s, x).agg)
  {
    AddMetricKeepsGuard(s.agg.latency, x);
  }

  lemma {:induction false} CommitKeepsParts(s: Step, x: Fact)
    requires PartsOk(s.agg)
    ensures PartsOk(FoldCommit(s, x).agg)
  {
    AddMetricKeepsGuard(s.agg.commit, x);
  }

  lemma {:induction false} RequestSpendKeepsParts(s: Step, spend: Option<SpendRecord>)
    requires PartsOk(s.agg)
    ensures PartsOk(FoldRequestSpend(s, spend).agg)
  {
    if spend.Some? { AddChargeKeepsGuard(OrEmpty(s.agg.requestSpend), spend.value); }
  }

  lemma {:induction false} AbandonedKeepsParts(s: Step, rs: seq<SpendRecord>)
    requires PartsOk(s.agg)
    ensures PartsOk(FoldAllAbandoned(s, rs).agg)
  {
    if |rs| > 0 {
      var prev := FoldAllAbandoned(s, rs[..|rs| - 1]);
      AbandonedKeepsParts(s, rs[..|rs| - 1]);
      AddChargeKeepsGuard(OrEmpty(prev.agg.abandonedSpend), rs[|rs| - 1]);
    }
  }

  lemma {:induction false} AttemptSpendKeepsParts(s: Step, spend: Option<SpendRecord>)
    requires PartsOk(s.agg)
    ensures PartsOk(FoldAttemptSpend(s, spend).agg)
  {
    if spend.Some? { AddChargeKeepsGuard(OrEmpty(s.agg.spend), spend.value); }
  }

  lemma {:induction false} AttemptTokensKeepParts(s: Step, tokens: Tokens)
    requires PartsOk(s.agg) && AreSnapshots(tokens)
    ensures PartsOk(FoldAttemptTokens(s, tokens).agg)
  {
    hide IsTokenCell, IsMetric, IsSpendOrAbsent, AddAggregate;
    forall k | 0 <= k < KINDS ensures IsTokenCell(AddTokensFrom(s.agg.tokens, tokens, 0).0[k]) {
      AbsorbedGuarded(s.agg.tokens[k], tokens[k]);
    }
  }

  lemma AbsorbedGuarded(c: TokenCell, s: TokenCell)
    requires IsTokenCell(c) && IsTokenCell(s) && s.known + s.unknown > 0
    ensures IsTokenCell(AddAggregate(c, s).0)
  {
    hide AddAggregate;
    AddAggregateKeepsGuard(c, s);
  }

  lemma {:induction false} AddRequestKeepsParts(a: Aggregate, e: RequestEvent, outcome: Outcome)
    requires PartsOk(a)
    ensures PartsOk(AddRequest(a, e, outcome).agg)
  {
    var s1 := CountOutcome(CountRequest(a), outcome);
    var latency := Fact(if outcome == Cancelled then None else e.latencyMs, e.endedAt);
    var commit := Fact(if outcome == Success then e.commitMs else None, e.endedAt);
    LatencyKeepsParts(s1, latency);
    var s2 := FoldLatency(s1, latency);
    CommitKeepsParts(s2, commit);
    var s3 := FoldCommit(s2, commit);
    RawTokensKeepGuard(s3.agg.requestTokens, e.tokens);
    var s4 := FoldRequestTokens(s3, e.tokens);
    RequestSpendKeepsParts(s4, e.spend);
    AbandonedKeepsParts(FoldRequestSpend(s4, e.spend), e.abandonedSpend);
  }

  lemma {:induction false} AddRootAttemptKeepsParts(a: Aggregate, p: AttemptPacket)
    requires PartsOk(a) && AreSnapshots(p.tokens)
    ensures PartsOk(AddRootAttempt(a, p).agg)
  {
    AttemptTokensKeepParts(CountAttempt(a), p.tokens);
    AttemptSpendKeepsParts(FoldAttemptTokens(CountAttempt(a), p.tokens), p.spend);
  }

  lemma {:induction false} AddAttemptKeepsParts(a: Aggregate, p: AttemptPacket)
    requires PartsOk(a) && AreSnapshots(p.tokens)
    ensures PartsOk(AddAttempt(a, p).agg)
  {
    var s1 := CountOutcome(CountAttempt(a), p.outcome);
    var latency := Fact(if p.outcome == Cancelled then None else p.latencyMs, p.endedAt);
    var commit := Fact(if p.outcome == Success && p.role == Serve then p.commitMs else None, p.endedAt);
    LatencyKeepsParts(s1, latency);
    var s2 := FoldLatency(s1, latency);
    CommitKeepsParts(s2, commit);
    var s3 := FoldCommit(s2, commit);
    AttemptTokensKeepParts(s3, p.tokens);
    AttemptSpendKeepsParts(FoldAttemptTokens(s3, p.tokens), p.spend);
  }

  // ---------------------------------------------------------------- steps keep the counts

  /** Everything the counter clauses look at, apart from the tokens and the attempt-side spend. */
  predicate SameCounters(a: Aggregate, b: Aggregate) {
    && a.requests == b.requests && a.attempts == b.attempts
    && a.served == b.served && a.errored == b.errored && a.cancelled == b.cancelled
  }

  lemma {:induction false} AbandonedOnlyTouchesItsCells(s: Step, rs: seq<SpendRecord>)
    ensures FoldAllAbandoned(s, rs).agg.(abandonedSpend := None) == s.agg.(abandonedSpend := None)
  {
    if |rs| > 0 { AbandonedOnlyTouchesItsCells(s, rs[..|rs| - 1]); }
  }

  /** What a request fold does to the counters: one request, its outcome, at most one price mark. */
  lemma {:induction false} AddRequestCounters(a: Aggregate, e: RequestEvent, outcome: Outcome)
    requires a.served + a.errored + a.cancelled <= a.requests
    ensures var (s, one) := (AddRequest(a, e, outcome), CountOutcome(CountRequest(a), outcome));
            && SameCounters(s.agg, one.agg) && one.exact == (a.requests < MAX)
            && s.agg.tokens == a.tokens && s.agg.spend == a.spend
            && s.agg.unpriced + PartialCount(s.agg)
               <= a.unpriced + PartialCount(a) + (if a.requests < MAX then 1 else 0)
            && (s.exact ==> a.requests < MAX)
  {
    var s1 := CountOutcome(CountRequest(a), outcome);
    var s2 := FoldLatency(s1, Fact(if outcome == Cancelled then None else e.latencyMs, e.endedAt));
    var s3 := FoldCommit(s2, Fact(if outcome == Success then e.commitMs else None, e.endedAt));
    var s4 := FoldRequestTokens(s3, e.tokens);
    var s5 := FoldRequestSpend(s4, e.spend);
    AbandonedOnlyTouchesItsCells(s5, e.abandonedSpend);
    AbandonedExact(s5, e.abandonedSpend);
    hide AddMetric, AddRawFrom, AddCharge, FoldAllAbandoned;
    assert SameCounters(s5.agg, s1.agg);
  }

  lemma {:induction false} AbandonedExact(s: Step, rs: seq<SpendRecord>)
    ensures FoldAllAbandoned(s, rs).exact ==> s.exact
  {
    if |rs| > 0 { AbandonedExact(s, rs[..|rs| - 1]); }
  }

  /** A request fold keeps a root's counters and those of the request row of its own outcome. */
  lemma {:induction false} AddRequestKeepsCounts(a: Aggregate, e: RequestEvent, outcome: Outcome, owner: Owner)
    requires CountsOk(a, owner) && (owner == General || owner == OfRequests(outcome))
    ensures CountsOk(AddRequest(a, e, outcome).agg, owner)
    ensures AddRequest(a, e, outcome).agg.requests == Bump(a.requests) > 0
  {
    AddRequestCounters(a, e, outcome);
    hide AddRequest;
  }

  /** What an attempt fold does to a root: one more attempt, request side untouched. */
  lemma {:induction false} AddRootAttemptKeepsCounts(a: Aggregate, p: AttemptPacket)
    requires CountsOk(a, General)
    ensures CountsOk(AddRootAttempt(a, p).agg, General)
    ensures AddRootAttempt(a, p).agg.requests == a.requests
    ensures AddRootAttempt(a, p).agg.attempts == Bump(a.attempts)
    ensures AddRootAttempt(a, p).exact ==> a.attempts < MAX
  {
    hide AddTokensFrom, AddCharge;
  }

  lemma {:induction false} AddAttemptKeepsCounts(a: Aggregate, p: AttemptPacket)
    requires CountsOk(a, OfAttempts(p.outcome))
    ensures CountsOk(AddAttempt(a, p).agg, OfAttempts(p.outcome))
    ensures AddAttempt(a, p).agg.attempts == Bump(a.attempts) > 0
    ensures AddAttempt(a, p).exact ==> a.attempts < MAX
  {
    hide AddMetric, AddTokensFrom, AddCharge;
  }

  // ---------------------------------------------------------------- the guard survives every fold

  /** Folding a request into a root keeps the root's whole guard, whether or not it was exact. */
  lemma {:induction false} RootRequestGuarded(a: Aggregate, e: RequestEvent, outcome: Outcome)
    requires IsAggregate(a, General)
    ensures IsAggregate(AddRequest(a, e, outcome).agg, General)
  {
    AddRequestKeepsParts(a, e, outcome);
    AddRequestKeepsCounts(a, e, outcome, General);
  }

  lemma {:induction false} RootAttemptGuarded(a: Aggregate, p: AttemptPacket)
    requires IsAggregate(a, General) && AreSnapshots(p.tokens)
    ensures IsAggregate(AddRootAttempt(a, p).agg, General)
  {
    AddRootAttemptKeepsParts(a, p);
    AddRootAttemptKeepsCounts(a, p);
  }

  /** A row that is folded into, even inexactly, satisfies its guard, fresh rows included. */
  lemma {:induction false} RequestRowGuarded(a: Aggregate, e: RequestEvent, outcome: Outcome)
    requires PartsOk(a) && CountsOk(a, OfRequests(outcome))
    ensures IsAggregate(AddRequest(a, e, outcome).agg, OfRequests(outcome))
  {
    AddRequestKeepsParts(a, e, outcome);
    AddRequestKeepsCounts(a, e, outcome, OfRequests(outcome));
  }

  lemma {:induction false} AttemptRowGuarded(a: Aggregate, p: AttemptPacket)
    requires PartsOk(a) && CountsOk(a, OfAttempts(p.outcome)) && AreSnapshots(p.tokens)
    ensures IsAggregate(AddAttempt(a, p).agg, OfAttempts(p.outcome))
  {
    AddAttemptKeepsParts(a, p);
    AddAttemptKeepsCounts(a, p);
  }
}
