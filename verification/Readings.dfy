/**
 * What an aggregate says after exact folds, field by field, read off the events themselves: the
 * counters, the two metrics, the token cells and the four cells of each of the three spend fields.
 */
module Readings {
  import opened Common
  import opened Cells
  import opened Facts
  import opened Aggregates
  import opened Coverages
  import opened Minutes
  import opened Packets
  import opened StorablePackets
  import opened Days
  import opened Rollups
  import opened Conservation

  /** A root takes the outcome, latency and commit of requests only; a row takes those of its attempts too. */
  datatype Side = Root | InRow

  // ---------------------------------------------------------------- what a contribution reports

  datatype Counted = Requests | Attempts | Ended(outcome: Outcome) | Unpriced | Partial

  predicate Counts(what: Counted, f: Fold, side: Side) {
    match what
    case Requests => f.RequestFold?
    case Attempts => f.AttemptFold?
    case Ended(o) => if f.RequestFold? then f.outcome == o else side == InRow && f.packet.outcome == o
    case Unpriced => f.RequestFold? && f.event.spend.None?
    case Partial => f.RequestFold? && f.event.spend.Some? && f.event.spend.value.coverage != Full
  }

  function Count(what: Counted, fs: seq<Fold>, side: Side): nat {
    if |fs| == 0 then 0
    else Count(what, fs[..|fs| - 1], side) + (if Counts(what, fs[|fs| - 1], side) then 1 else 0)
  }

  /** Something observed once per contribution: how long it took, when it committed, its k-th token figure. */
  datatype Observed = Latency | Commit | RequestTokens(k: nat)

  predicate IsObserved(o: Observed) {
    o.RequestTokens? ==> o.k < KINDS
  }

  /** A cancelled contribution has no latency, only a success has a commit, and only one that serves. */
  function FactOf(o: Observed, f: Fold, side: Side): seq<Fact>
    requires IsObserved(o)
  {
    match f
    case RequestFold(e, outcome, _) =>
      [match o
       case Latency => Fact(if outcome == Cancelled then None else e.latencyMs, e.endedAt)
       case Commit => Fact(if outcome == Success then e.commitMs else None, e.endedAt)
       case RequestTokens(k) => e.tokens[k]]
    case AttemptFold(p, _) =>
      if side == Root then []
      else match o
           case Latency => [Fact(if p.outcome == Cancelled then None else p.latencyMs, p.endedAt)]
           case Commit => [Fact(if p.outcome == Success && p.role == Serve then p.commitMs else None, p.endedAt)]
           case RequestTokens(_) => []
  }

  function FactsOf(o: Observed, fs: seq<Fold>, side: Side): seq<Fact>
    requires IsObserved(o)
  {
    if |fs| == 0 then [] else FactsOf(o, fs[..|fs| - 1], side) + FactOf(o, fs[|fs| - 1], side)
  }

  /** The snapshot cells the attempts bring for one token kind. */
  function SnapshotsOf(k: nat, fs: seq<Fold>): seq<TokenCell>
    requires k < KINDS
  {
    if |fs| == 0 then []
    else
      var f := fs[|fs| - 1];
      SnapshotsOf(k, fs[..|fs| - 1]) + (if f.AttemptFold? then [f.packet.tokens[k]] else [])
  }

  function FoldCells(cs: seq<TokenCell>): TokenCell {
    if |cs| == 0 then EMPTY_TOKEN_CELL else AddAggregate(FoldCells(cs[..|cs| - 1]), cs[|cs| - 1]).0
  }

  /** The three places a spend record can be charged to. */
  datatype Account = OfRequest | OfAbandoned | OfAttempt

  function RecordOf(account: Account, f: Fold): seq<SpendRecord> {
    match account
    case OfRequest => if f.RequestFold? && f.event.spend.Some? then [f.event.spend.value] else []
    case OfAbandoned => if f.RequestFold? then f.event.abandonedSpend else []
    case OfAttempt => if f.AttemptFold? && f.packet.spend.Some? then [f.packet.spend.value] else []
  }

  function RecordsOf(account: Account, fs: seq<Fold>): seq<SpendRecord> {
    if |fs| == 0 then [] else RecordsOf(account, fs[..|fs| - 1]) + RecordOf(account, fs[|fs| - 1])
  }

  /** The charges of exactly the records with this price source and this token basis, in order. */
  function Charged(rs: seq<SpendRecord>, published: bool, reported: bool): seq<Charge> {
    if |rs| == 0 then []
    else
      var r := rs[|rs| - 1];
      Charged(rs[..|rs| - 1], published, reported)
      + (if r.published == published && r.reported == reported then [Charge(r.amount, r.observedAt)] else [])
  }

  // ---------------------------------------------------------------- what an aggregate reads

  predicate ReadsCounts(a: Aggregate, fs: seq<Fold>, side: Side) {
    && a.requests == Count(Requests, fs, side) && a.attempts == Count(Attempts, fs, side)
    && a.served == Count(Ended(Success), fs, side) && a.errored == Count(Ended(Error), fs, side)
    && a.cancelled == Count(Ended(Cancelled), fs, side)
    && a.unpriced == Count(Unpriced, fs, side) && PartialCount(a) == Count(Partial, fs, side)
  }

  predicate ReadsMetrics(a: Aggregate, fs: seq<Fold>, side: Side) {
    a.latency == FoldMetric(FactsOf(Latency, fs, side)) && a.commit == FoldMetric(FactsOf(Commit, fs, side))
  }

  predicate ReadsTokens(a: Aggregate, fs: seq<Fold>, side: Side) {
    forall k :: 0 <= k < KINDS ==>
      && a.requestTokens[k] == FoldRaw(FactsOf(RequestTokens(k), fs, side))
      && a.tokens[k] == FoldCells(SnapshotsOf(k, fs))
  }

  /** Each cell, named by its field, is the fold of the charges of its own price source and token basis. */
  predicate ReadsRecords(s: Spend, rs: seq<SpendRecord>) {
    && s.publishedReported == FoldSpend(Charged(rs, true, true))
    && s.publishedEstimated == FoldSpend(Charged(rs, true, false))
    && s.referenceReported == FoldSpend(Charged(rs, false, true))
    && s.referenceEstimated == FoldSpend(Charged(rs, false, false))
  }

  predicate ReadsSpend(a: Aggregate, fs: seq<Fold>) {
    && ReadsRecords(OrEmpty(a.requestSpend), RecordsOf(OfRequest, fs))
    && ReadsRecords(OrEmpty(a.abandonedSpend), RecordsOf(OfAbandoned, fs))
    && ReadsRecords(OrEmpty(a.spend), RecordsOf(OfAttempt, fs))
    && (a.requestSpend.Some? <==> |RecordsOf(OfRequest, fs)| > 0)
    && (a.abandonedSpend.Some? <==> |RecordsOf(OfAbandoned, fs)| > 0)
  }

  /** The aggregate says what these contributions reported, and nothing else. */
  predicate Reads(a: Aggregate, fs: seq<Fold>, side: Side) {
    ReadsCounts(a, fs, side) && ReadsMetrics(a, fs, side) && ReadsTokens(a, fs, side) && ReadsSpend(a, fs)
  }

  lemma {:induction false} EmptyReads(side: Side)
    ensures Reads(EMPTY_AGGREGATE, [], side)
  {
  }

  // ---------------------------------------------------------------- one step, field by field

  lemma {:induction false} ChargedAppend(rs: seq<SpendRecord>, r: SpendRecord, published: bool, reported: bool)
    ensures Charged(rs + [r], published, reported)
            == Charged(rs, published, reported)
               + (if r.published == published && r.reported == reported then [Charge(r.amount, r.observedAt)] else [])
  {
    assert (rs + [r])[..|rs|] == rs;
  }

  lemma {:induction false} FoldSpendAppend(xs: seq<Charge>, x: Charge)
    ensures FoldSpend(xs + [x]) == AddSpend(FoldSpend(xs), x).0
  {
    assert (xs + [x])[..|xs|] == xs;
  }

  lemma {:induction false} FoldMetricAppend(xs: seq<Fact>, x: Fact)
    ensures FoldMetric(xs + [x]) == AddMetric(FoldMetric(xs), x).0
  {
    assert (xs + [x])[..|xs|] == xs;
  }

  lemma {:induction false} FoldRawAppend(xs: seq<Fact>, x: Fact)
    ensures FoldRaw(xs + [x]) == AddRaw(FoldRaw(xs), x).0
  {
    assert (xs + [x])[..|xs|] == xs;
  }

  lemma {:induction false} FoldCellsAppend(cs: seq<TokenCell>, c: TokenCell)
    ensures FoldCells(cs + [c]) == AddAggregate(FoldCells(cs), c).0
  {
    assert (cs + [c])[..|cs|] == cs;
  }

  /** A charge lands in the cell of its own price source and token basis, and in no other. */
  lemma {:induction false} ChargeReads(s: Spend, rs: seq<SpendRecord>, r: SpendRecord)
    requires ReadsRecords(s, rs)
    ensures ReadsRecords(AddCharge(s, r).0, rs + [r])
  {
    hide FoldSpend, Charged, AddSpend;
    forall p: bool, q: bool
      ensures Charged(rs + [r], p, q)
              == if r.published == p && r.reported == q then Charged(rs, p, q) + [Charge(r.amount, r.observedAt)]
                 else Charged(rs, p, q)
    {
      ChargedAppend(rs, r, p, q);
    }
    FoldSpendAppend(Charged(rs, r.published, r.reported), Charge(r.amount, r.observedAt));
  }

  lemma {:induction false} AbandonedStep(s: Step, rs: seq<SpendRecord>, r: SpendRecord)
    requires ReadsRecords(OrEmpty(s.agg.abandonedSpend), rs) && s.exact
    ensures ReadsRecords(OrEmpty(FoldAbandoned(s, r).agg.abandonedSpend), rs + [r])
    ensures FoldAbandoned(s, r).agg.abandonedSpend.Some?
  {
    ChargeReads(OrEmpty(s.agg.abandonedSpend), rs, r);
    hide ReadsRecords, AddCharge;
  }

  lemma {:induction false} AbandonedReads(s: Step, rs: seq<SpendRecord>, more: seq<SpendRecord>)
    requires ReadsRecords(OrEmpty(s.agg.abandonedSpend), rs) && (s.agg.abandonedSpend.Some? <==> |rs| > 0)
    requires FoldAllAbandoned(s, more).exact
    ensures var t := FoldAllAbandoned(s, more);
            && ReadsRecords(OrEmpty(t.agg.abandonedSpend), rs + more)
            && (t.agg.abandonedSpend.Some? <==> |rs + more| > 0)
  {
    hide ReadsRecords, AddCharge, OrEmpty;
    if |more| == 0 {
      assert rs + more == rs;
    } else {
      var init, r := more[..|more| - 1], more[|more| - 1];
      AbandonedReads(s, rs, init);
      AbandonedStep(FoldAllAbandoned(s, init), rs + init, r);
      assert rs + more == rs + init + [r];
    }
  }

  lemma {:induction false} RequestTokensRead(t: Tokens, facts: TokenFacts, before: seq<seq<Fact>>)
    requires |before| == KINDS && AddRawFrom(t, facts, 0).1
    requires forall k :: 0 <= k < KINDS ==> t[k] == FoldRaw(before[k])
    ensures forall k :: 0 <= k < KINDS ==> AddRawFrom(t, facts, 0).0[k] == FoldRaw(before[k] + [facts[k]])
  {
    hide FoldRaw, AddRaw;
    forall k | 0 <= k < KINDS ensures AddRawFrom(t, facts, 0).0[k] == FoldRaw(before[k] + [facts[k]]) {
      FoldRawAppend(before[k], facts[k]);
    }
  }

  lemma {:induction false} AttemptTokensRead(t: Tokens, s: Tokens, before: seq<seq<TokenCell>>)
    requires |before| == KINDS && AddTokensFrom(t, s, 0).1
    requires forall k :: 0 <= k < KINDS ==> t[k] == FoldCells(before[k])
    ensures forall k :: 0 <= k < KINDS ==> AddTokensFrom(t, s, 0).0[k] == FoldCells(before[k] + [s[k]])
  {
    hide FoldCells, AddAggregate;
    forall k | 0 <= k < KINDS ensures AddTokensFrom(t, s, 0).0[k] == FoldCells(before[k] + [s[k]]) {
      FoldCellsAppend(before[k], s[k]);
    }
  }

  // ---------------------------------------------------------------- a list grows by one contribution

  lemma {:induction false} CountAppend(what: Counted, fs: seq<Fold>, f: Fold, side: Side)
    ensures Count(what, fs + [f], side) == Count(what, fs, side) + (if Counts(what, f, side) then 1 else 0)
  {
    assert (fs + [f])[..|fs|] == fs;
  }

  lemma {:induction false} FactsAppend(o: Observed, fs: seq<Fold>, f: Fold, side: Side)
    requires IsObserved(o)
    ensures FactsOf(o, fs + [f], side) == FactsOf(o, fs, side) + FactOf(o, f, side)
  {
    assert (fs + [f])[..|fs|] == fs;
  }

  lemma {:induction false} SnapshotsAppend(k: nat, fs: seq<Fold>, f: Fold)
    requires k < KINDS
    ensures SnapshotsOf(k, fs + [f])
            == SnapshotsOf(k, fs) + (if f.AttemptFold? then [f.packet.tokens[k]] else [])
  {
    assert (fs + [f])[..|fs|] == fs;
  }

  lemma {:induction false} RecordsAppend(account: Account, fs: seq<Fold>, f: Fold)
    ensures RecordsOf(account, fs + [f]) == RecordsOf(account, fs) + RecordOf(account, f)
  {
    assert (fs + [f])[..|fs|] == fs;
  }

  // ---------------------------------------------------------------- a request, an attempt

  /** The fold of a request up to its tokens and up to its own spend; every step ran. */
  function UpToTokens(a: Aggregate, e: RequestEvent, outcome: Outcome): Step {
    var s1 := CountOutcome(CountRequest(a), outcome);
    var s2 := FoldLatency(s1, Fact(if outcome == Cancelled then None else e.latencyMs, e.endedAt));
    var s3 := FoldCommit(s2, Fact(if outcome == Success then e.commitMs else None, e.endedAt));
    FoldRequestTokens(s3, e.tokens)
  }

  lemma {:induction false} RequestSteps(a: Aggregate, e: RequestEvent, outcome: Outcome)
    requires AddRequest(a, e, outcome).exact
    ensures var (s4, t) := (UpToTokens(a, e, outcome), AddRequest(a, e, outcome));
            var s5 := FoldRequestSpend(s4, e.spend);
            && s4.exact && s5.exact && t == FoldAllAbandoned(s5, e.abandonedSpend)
            && t.agg.(abandonedSpend := None) == s5.agg.(abandonedSpend := None)
            && s5.agg.(requestSpend := None, unpriced := 0, partial := None)
               == s4.agg.(requestSpend := None, unpriced := 0, partial := None)
  {
    var s5 := FoldRequestSpend(UpToTokens(a, e, outcome), e.spend);
    AbandonedOnlyTouchesItsCells(s5, e.abandonedSpend);
    AbandonedExact(s5, e.abandonedSpend);
    hide AddMetric, AddCharge, FoldAllAbandoned, AddRawFrom;
  }

  lemma {:induction false} TokenSteps(a: Aggregate, e: RequestEvent, outcome: Outcome)
    requires UpToTokens(a, e, outcome).exact
    ensures var t := UpToTokens(a, e, outcome).agg;
            && AddMetric(a.latency, Fact(if outcome == Cancelled then None else e.latencyMs, e.endedAt)).0 == t.latency
            && AddMetric(a.commit, Fact(if outcome == Success then e.commitMs else None, e.endedAt)).0 == t.commit
            && AddRawFrom(a.requestTokens, e.tokens, 0) == (t.requestTokens, true)
            && t.requests == a.requests + 1
            && t.served == a.served + (if outcome == Success then 1 else 0)
            && t.errored == a.errored + (if outcome == Error then 1 else 0)
            && t.cancelled == a.cancelled + (if outcome == Cancelled then 1 else 0)
            && t.(requests := a.requests, served := a.served, errored := a.errored, cancelled := a.cancelled,
                  latency := a.latency, commit := a.commit, requestTokens := a.requestTokens) == a
  {
    hide AddMetric, AddRawFrom;
  }

  /** A request's own spend, step by step. */
  lemma {:induction false} SpendAttached(s: Step, spend: Option<SpendRecord>)
    requires s.exact && FoldRequestSpend(s, spend).exact
    ensures var t := FoldRequestSpend(s, spend).agg;
            && t.requestSpend == (if spend.None? then s.agg.requestSpend
                                  else Some(AddCharge(OrEmpty(s.agg.requestSpend), spend.value).0))
            && t.unpriced == s.agg.unpriced + (if spend.None? then 1 else 0)
            && PartialCount(t)
               == PartialCount(s.agg) + (if spend.Some? && spend.value.coverage != Full then 1 else 0)
            && t.(requestSpend := s.agg.requestSpend, unpriced := s.agg.unpriced, partial := s.agg.partial) == s.agg
  {
    hide AddCharge;
  }

  lemma {:induction false} RequestSpendReads(s: Step, spend: Option<SpendRecord>, rs: seq<SpendRecord>)
    requires s.exact && FoldRequestSpend(s, spend).exact
    requires ReadsRecords(OrEmpty(s.agg.requestSpend), rs) && (s.agg.requestSpend.Some? <==> |rs| > 0)
    ensures var (t, after) := (FoldRequestSpend(s, spend).agg, if spend.Some? then rs + [spend.value] else rs);
            && ReadsRecords(OrEmpty(t.requestSpend), after) && (t.requestSpend.Some? <==> |after| > 0)
            && t.unpriced == s.agg.unpriced + (if spend.None? then 1 else 0)
            && PartialCount(t)
               == PartialCount(s.agg) + (if spend.Some? && spend.value.coverage != Full then 1 else 0)
            && t.(requestSpend := s.agg.requestSpend, unpriced := s.agg.unpriced, partial := s.agg.partial) == s.agg
  {
    hide ReadsRecords, AddCharge, FoldRequestSpend, PartialCount;
    SpendAttached(s, spend);
    if spend.Some? { ChargeReads(OrEmpty(s.agg.requestSpend), rs, spend.value); }
  }

  lemma {:induction false} RequestCounts(a: Aggregate, fs: seq<Fold>, f: Fold, side: Side)
    requires f.RequestFold? && ReadsCounts(a, fs, side) && AddRequest(a, f.event, f.outcome).exact
    requires ReadsSpend(a, fs)
    ensures ReadsCounts(AddRequest(a, f.event, f.outcome).agg, fs + [f], side)
  {
    hide UpToTokens, AddRequest, AddMetric, AddRawFrom, FoldRequestSpend, FoldAllAbandoned, ReadsRecords, RecordsOf,
         Count;
    RequestSteps(a, f.event, f.outcome);
    TokenSteps(a, f.event, f.outcome);
    var s4 := UpToTokens(a, f.event, f.outcome);
    RequestSpendReads(s4, f.event.spend, RecordsOf(OfRequest, fs));
    forall what: Counted
      ensures Count(what, fs + [f], side) == Count(what, fs, side) + (if Counts(what, f, side) then 1 else 0)
    {
      CountAppend(what, fs, f, side);
    }
  }

  lemma {:induction false} MetricGrows(o: Observed, m: Metric, fs: seq<Fold>, f: Fold, side: Side, x: Fact)
    requires IsObserved(o) && FactOf(o, f, side) == [x] && m == FoldMetric(FactsOf(o, fs, side))
    ensures AddMetric(m, x).0 == FoldMetric(FactsOf(o, fs + [f], side))
  {
    hide AddMetric, FoldMetric, FactsOf;
    FactsAppend(o, fs, f, side);
    FoldMetricAppend(FactsOf(o, fs, side), x);
  }

  lemma {:induction false} RequestMetrics(a: Aggregate, fs: seq<Fold>, f: Fold, side: Side)
    requires f.RequestFold? && ReadsMetrics(a, fs, side) && AddRequest(a, f.event, f.outcome).exact
    ensures ReadsMetrics(AddRequest(a, f.event, f.outcome).agg, fs + [f], side)
  {
    hide AddRequest, AddMetric, AddRawFrom, FoldRequestSpend, FoldAllAbandoned, FoldMetric, FactsOf, UpToTokens;
    MetricGrows(Latency, a.latency, fs, f, side, FactOf(Latency, f, side)[0]);
    MetricGrows(Commit, a.commit, fs, f, side, FactOf(Commit, f, side)[0]);
    RequestSteps(a, f.event, f.outcome);
    TokenSteps(a, f.event, f.outcome);
  }

  lemma {:induction false} RequestTokenCells(a: Aggregate, fs: seq<Fold>, f: Fold, side: Side)
    requires f.RequestFold? && ReadsTokens(a, fs, side) && AddRequest(a, f.event, f.outcome).exact
    ensures ReadsTokens(AddRequest(a, f.event, f.outcome).agg, fs + [f], side)
  {
    hide UpToTokens, AddMetric, AddRawFrom, FoldRequestSpend, FoldAllAbandoned, FactsOf, FoldRaw, SnapshotsOf,
         FoldCells, AddRequest;
    RequestSteps(a, f.event, f.outcome);
    TokenSteps(a, f.event, f.outcome);
    var s4 := UpToTokens(a, f.event, f.outcome);
    var before := seq(KINDS, k requires 0 <= k < KINDS => FactsOf(RequestTokens(k), fs, side));
    RequestTokensRead(a.requestTokens, f.event.tokens, before);
    forall k | 0 <= k < KINDS
      ensures FactsOf(RequestTokens(k), fs + [f], side) == before[k] + [f.event.tokens[k]]
      ensures SnapshotsOf(k, fs + [f]) == SnapshotsOf(k, fs)
    {
      FactsAppend(RequestTokens(k), fs, f, side);
      SnapshotsAppend(k, fs, f);
    }
  }

  lemma {:induction false} RequestSpendCells(a: Aggregate, fs: seq<Fold>, f: Fold)
    requires f.RequestFold? && ReadsSpend(a, fs) && AddRequest(a, f.event, f.outcome).exact
    ensures ReadsSpend(AddRequest(a, f.event, f.outcome).agg, fs + [f])
  {
    hide UpToTokens, AddRequest, AddMetric, AddRawFrom, FoldRequestSpend, FoldAllAbandoned, ReadsRecords, RecordsOf;
    RequestSteps(a, f.event, f.outcome);
    TokenSteps(a, f.event, f.outcome);
    var s4 := UpToTokens(a, f.event, f.outcome);
    RequestSpendReads(s4, f.event.spend, RecordsOf(OfRequest, fs));
    AbandonedReads(FoldRequestSpend(s4, f.event.spend), RecordsOf(OfAbandoned, fs), f.event.abandonedSpend);
    RecordsAppend(OfRequest, fs, f);
    RecordsAppend(OfAbandoned, fs, f);
    RecordsAppend(OfAttempt, fs, f);
    assert RecordsOf(OfAttempt, fs) + [] == RecordsOf(OfAttempt, fs);
    assert RecordsOf(OfRequest, fs) + [] == RecordsOf(OfRequest, fs);
  }

  lemma {:induction false} RequestReads(a: Aggregate, fs: seq<Fold>, f: Fold, side: Side)
    requires f.RequestFold? && Reads(a, fs, side) && AddRequest(a, f.event, f.outcome).exact
    ensures Reads(AddRequest(a, f.event, f.outcome).agg, fs + [f], side)
  {
    RequestCounts(a, fs, f, side);
    RequestMetrics(a, fs, f, side);
    RequestTokenCells(a, fs, f, side);
    RequestSpendCells(a, fs, f);
    hide AddRequest, ReadsCounts, ReadsMetrics, ReadsTokens, ReadsSpend;
  }

  lemma {:induction false} AttemptSpendReads(s: Step, spend: Option<SpendRecord>, rs: seq<SpendRecord>)
    requires s.exact && ReadsRecords(OrEmpty(s.agg.spend), rs)
    ensures ReadsRecords(OrEmpty(FoldAttemptSpend(s, spend).agg.spend),
                         if spend.Some? then rs + [spend.value] else rs)
    ensures FoldAttemptSpend(s, spend).agg.(spend := s.agg.spend) == s.agg
  {
    if spend.Some? { ChargeReads(OrEmpty(s.agg.spend), rs, spend.value); }
    hide ReadsRecords, AddCharge;
  }

  /** The fold of an attempt, undone into its steps; `s` is the aggregate before the tokens. */
  lemma {:induction false} AttemptSteps(a: Aggregate, p: AttemptPacket, side: Side) returns (t: Step)
    requires AttemptStep(a, p, side).exact
    ensures t.exact && AttemptStep(a, p, side) == FoldAttemptSpend(t, p.spend)
    ensures AddTokensFrom(a.tokens, p.tokens, 0) == (t.agg.tokens, true)
    ensures t.agg.attempts == a.attempts + 1
    ensures t.agg.(attempts := a.attempts, served := a.served, errored := a.errored, cancelled := a.cancelled,
                   latency := a.latency, commit := a.commit, tokens := a.tokens) == a
    ensures side == Root ==> t.agg.(attempts := a.attempts, tokens := a.tokens) == a
    ensures side == InRow ==>
              && t.agg.latency
                 == AddMetric(a.latency, Fact(if p.outcome == Cancelled then None else p.latencyMs, p.endedAt)).0
              && t.agg.commit == AddMetric(a.commit, Fact(if p.outcome == Success && p.role == Serve then p.commitMs
                                                          else None, p.endedAt)).0
              && t.agg.served == a.served + (if p.outcome == Success then 1 else 0)
              && t.agg.errored == a.errored + (if p.outcome == Error then 1 else 0)
              && t.agg.cancelled == a.cancelled + (if p.outcome == Cancelled then 1 else 0)
  {
    hide AddMetric, AddTokensFrom, AddCharge;
    if side == Root {
      t := FoldAttemptTokens(CountAttempt(a), p.tokens);
    } else {
      var s1 := CountOutcome(CountAttempt(a), p.outcome);
      var s2 := FoldLatency(s1, Fact(if p.outcome == Cancelled then None else p.latencyMs, p.endedAt));
      var commit := if p.outcome == Success && p.role == Serve then p.commitMs else None;
      var s3 := FoldCommit(s2, Fact(commit, p.endedAt));
      t := FoldAttemptTokens(s3, p.tokens);
    }
  }

  function AttemptStep(a: Aggregate, p: AttemptPacket, side: Side): Step {
    if side == Root then AddRootAttempt(a, p) else AddAttempt(a, p)
  }

  lemma {:induction false} AttemptCounts(a: Aggregate, fs: seq<Fold>, f: Fold, side: Side)
    requires f.AttemptFold? && ReadsCounts(a, fs, side) && AttemptStep(a, f.packet, side).exact
    requires ReadsSpend(a, fs)
    ensures ReadsCounts(AttemptStep(a, f.packet, side).agg, fs + [f], side)
  {
    hide AttemptStep, AddMetric, AddTokensFrom, FoldAttemptSpend, ReadsRecords, RecordsOf, Count;
    var t := AttemptSteps(a, f.packet, side);
    AttemptSpendReads(t, f.packet.spend, RecordsOf(OfAttempt, fs));
    forall what: Counted
      ensures Count(what, fs + [f], side) == Count(what, fs, side) + (if Counts(what, f, side) then 1 else 0)
    {
      CountAppend(what, fs, f, side);
    }
  }

  lemma {:induction false} AttemptMetrics(a: Aggregate, fs: seq<Fold>, f: Fold, side: Side)
    requires f.AttemptFold? && ReadsMetrics(a, fs, side) && AttemptStep(a, f.packet, side).exact
    ensures ReadsMetrics(AttemptStep(a, f.packet, side).agg, fs + [f], side)
  {
    hide AttemptStep, AddMetric, AddTokensFrom, ReadsRecords, FactsOf, FoldMetric, AddCharge;
    var t := AttemptSteps(a, f.packet, side);
    if side == Root {
      FactsAppend(Latency, fs, f, side);
      FactsAppend(Commit, fs, f, side);
      assert FactsOf(Latency, fs, side) + [] == FactsOf(Latency, fs, side);
      assert FactsOf(Commit, fs, side) + [] == FactsOf(Commit, fs, side);
    } else {
      MetricGrows(Latency, a.latency, fs, f, side, FactOf(Latency, f, side)[0]);
      MetricGrows(Commit, a.commit, fs, f, side, FactOf(Commit, f, side)[0]);
    }
  }

  lemma {:induction false} AttemptTokenCells(a: Aggregate, fs: seq<Fold>, f: Fold, side: Side)
    requires f.AttemptFold? && ReadsTokens(a, fs, side) && AttemptStep(a, f.packet, side).exact
    ensures ReadsTokens(AttemptStep(a, f.packet, side).agg, fs + [f], side)
  {
    hide AttemptStep, AddMetric, AddTokensFrom, FactsOf, FoldRaw, SnapshotsOf, FoldCells, AddCharge;
    var before := seq(KINDS, k requires 0 <= k < KINDS => SnapshotsOf(k, fs));
    var t := AttemptSteps(a, f.packet, side);
    AttemptTokensRead(a.tokens, f.packet.tokens, before);
    forall k | 0 <= k < KINDS
      ensures FactsOf(RequestTokens(k), fs + [f], side) == FactsOf(RequestTokens(k), fs, side)
      ensures SnapshotsOf(k, fs + [f]) == before[k] + [f.packet.tokens[k]]
    {
      FactsAppend(RequestTokens(k), fs, f, side);
      SnapshotsAppend(k, fs, f);
      assert FactsOf(RequestTokens(k), fs, side) + [] == FactsOf(RequestTokens(k), fs, side);
    }
  }

  lemma {:induction false} AttemptSpendCells(a: Aggregate, fs: seq<Fold>, f: Fold, side: Side)
    requires f.AttemptFold? && ReadsSpend(a, fs) && AttemptStep(a, f.packet, side).exact
    ensures ReadsSpend(AttemptStep(a, f.packet, side).agg, fs + [f])
  {
    hide AttemptStep, AddMetric, AddTokensFrom, FoldAttemptSpend, ReadsRecords, RecordsOf;
    var t := AttemptSteps(a, f.packet, side);
    AttemptSpendReads(t, f.packet.spend, RecordsOf(OfAttempt, fs));
    RecordsAppend(OfRequest, fs, f);
    RecordsAppend(OfAbandoned, fs, f);
    RecordsAppend(OfAttempt, fs, f);
    assert RecordsOf(OfAttempt, fs) + [] == RecordsOf(OfAttempt, fs);
    assert RecordsOf(OfRequest, fs) + [] == RecordsOf(OfRequest, fs);
    assert RecordsOf(OfAbandoned, fs) + [] == RecordsOf(OfAbandoned, fs);
  }

  lemma {:induction false} AttemptReads(a: Aggregate, fs: seq<Fold>, f: Fold, side: Side)
    requires f.AttemptFold? && Reads(a, fs, side) && AttemptStep(a, f.packet, side).exact
    ensures Reads(AttemptStep(a, f.packet, side).agg, fs + [f], side)
  {
    AttemptCounts(a, fs, f, side);
    AttemptMetrics(a, fs, f, side);
    AttemptTokenCells(a, fs, f, side);
    AttemptSpendCells(a, fs, f, side);
    hide AttemptStep, ReadsCounts, ReadsMetrics, ReadsTokens, ReadsSpend;
  }

  // ---------------------------------------------------------------- whole runs

  function StepOn(a: Aggregate, f: Fold, side: Side): Step {
    if side == Root then RootStep(a, f) else RowStep(a, f)
  }

  /** An exact fold adds what the contribution reports to what the aggregate reads. */
  lemma {:induction false} StepReads(a: Aggregate, fs: seq<Fold>, f: Fold, side: Side)
    requires Reads(a, fs, side) && StepOn(a, f, side).exact
    ensures Reads(StepOn(a, f, side).agg, fs + [f], side)
  {
    hide Reads, AddRequest, AddRootAttempt, AddAttempt;
    match f {
      case RequestFold(e, outcome, _) => RequestReads(a, fs, f, side);
      case AttemptFold(p, _) => AttemptReads(a, fs, f, side);
    }
  }

  /** The contributions that belong to one row. */
  function With(fs: seq<Fold>, key: RowKey): seq<Fold> {
    if |fs| == 0 then []
    else With(fs[..|fs| - 1], key) + (if fs[|fs| - 1].key == key then [fs[|fs| - 1]] else [])
  }

  lemma {:induction false} WithAppend(fs: seq<Fold>, f: Fold, key: RowKey)
    ensures With(fs + [f], key) == With(fs, key) + (if f.key == key then [f] else [])
  {
    assert (fs + [f])[..|fs|] == fs;
  }

  lemma {:induction false} WithoutRow(fs: seq<Fold>, key: RowKey)
    requires forall i :: 0 <= i < |fs| ==> fs[i].key != key
    ensures With(fs, key) == []
  {
    if |fs| > 0 { WithoutRow(fs[..|fs| - 1], key); }
  }

  /** The root reads every contribution, each row those of its key, and every contribution has its row. */
  ghost predicate CellReads(c: Cell, fs: seq<Fold>) {
    && Reads(c.aggregate, fs, Root) && UniqueKeys(c.rows)
    && (c.coverage.droppedRows == 0 ==>
          && (forall i :: 0 <= i < |c.rows| ==> Reads(c.rows[i].agg, With(fs, c.rows[i].key), InRow))
          && (forall j :: 0 <= j < |fs| ==> HasRow(c, fs[j].key)))
  }

  lemma {:induction false} RowStaysFound(rows: seq<Row>, more: seq<Row>, key: RowKey)
    requires IndexOf(rows, key) < |rows| <= |more|
    requires forall i :: 0 <= i < |rows| ==> more[i].key == rows[i].key
    ensures IndexOf(more, key) < |more|
  {
    assert more[IndexOf(rows, key)].key == key;
  }

  lemma {:induction false} FoundReads(s: Progress, fs: seq<Fold>, key: RowKey)
    requires CellReads(s.cell, fs)
    ensures CellReads(FindRow(s, key).cell, fs)
    ensures FindRow(s, key).cell.coverage.droppedRows == 0 ==> HasRow(FindRow(s, key).cell, key)
  {
    hide Reads, IndexOf;
    DropCounts(s.cell.coverage);
    hide DropRow;
    if !HasRow(s.cell, key) && HasRoom(s) {
      var newRow := Row(key, EMPTY_AGGREGATE);
      FreshIndex(s.cell.rows, key);
      if s.cell.coverage.droppedRows == 0 {
        forall j | 0 <= j < |fs|
          ensures fs[j].key != key && IndexOf(s.cell.rows + [newRow], fs[j].key) < |s.cell.rows| + 1
        {
          RowStaysFound(s.cell.rows, s.cell.rows + [newRow], fs[j].key);
        }
        WithoutRow(fs, key);
        EmptyReads(InRow);
      }
    }
  }

  lemma DropCounts(c: CellCoverage)
    ensures DropRow(c).droppedRows == Bump(c.droppedRows) > 0
  {
  }

  /** The rest of a contribution: its share of the root and of the row that was found for it. */
  lemma {:induction false} RowReads(s: Progress, root: Aggregate, fs: seq<Fold>, f: Fold)
    requires CellReads(s.cell.(aggregate := root), fs) && Reads(s.cell.aggregate, fs + [f], Root)
    requires s.cell.coverage.droppedRows == 0 ==> HasRow(s.cell, f.key)
    requires s.exact && FoldRow(s, f).exact
    ensures CellReads(FoldRow(s, f).cell, fs + [f])
  {
    hide Reads, IndexOf, RowStep, With;
    var t, rows := FoldRow(s, f), s.cell.rows;
    var i := IndexOf(rows, f.key);
    assert |t.cell.rows| == |rows| && forall j :: 0 <= j < |rows| ==> t.cell.rows[j].key == rows[j].key;
    if s.cell.coverage.droppedRows == 0 {
      StepReads(rows[i].agg, With(fs, f.key), f, InRow);
      forall j | 0 <= j < |rows| ensures Reads(t.cell.rows[j].agg, With(fs + [f], rows[j].key), InRow) {
        WithAppend(fs, f, rows[j].key);
        assert With(fs, rows[j].key) + [] == With(fs, rows[j].key);
      }
      forall j | 0 <= j < |fs + [f]| ensures IndexOf(t.cell.rows, (fs + [f])[j].key) < |rows| {
        assert j < |fs| ==> HasRow(s.cell, fs[j].key);
        RowStaysFound(rows, t.cell.rows, (fs + [f])[j].key);
      }
    }
  }

  lemma {:induction false} OneReads(s: Progress, fs: seq<Fold>, f: Fold)
    requires CellReads(s.cell, fs) && ApplyOne(s, f).exact
    ensures CellReads(ApplyOne(s, f).cell, fs + [f])
  {
    hide Reads, IndexOf, RootStep, RowStep, With, DropRow;
    ExactParts(s, f);
    StepReads(s.cell.aggregate, fs, f, Root);
    var r := FoldRoot(s, f);
    FoundReads(r.(cell := s.cell), fs, f.key);
    RowReads(FindRow(r, f.key), s.cell.aggregate, fs, f);
  }

  lemma ApplyLast(s: Progress, init: seq<Fold>, f: Fold)
    ensures ApplyAll(s, init + [f]) == ApplyOne(ApplyAll(s, init), f)
  {
    hide ApplyOne;
    assert (init + [f])[..|init|] == init;
  }

  lemma {:induction false} AllRead(s: Progress, before: seq<Fold>, fs: seq<Fold>)
    requires CellReads(s.cell, before) && ApplyAll(s, fs).exact
    ensures CellReads(ApplyAll(s, fs).cell, before + fs)
    decreases |fs|
  {
    hide CellReads, ApplyOne;
    if |fs| == 0 {
      assert before + fs == before;
    } else {
      hide ApplyAll;
      var init, f := fs[..|fs| - 1], fs[|fs| - 1];
      assert init + [f] == fs;
      ApplyLast(s, init, f);
      ExactParts(ApplyAll(s, init), f);
      AllRead(s, before, init);
      OneReads(ApplyAll(s, init), before + init, f);
      assert before + fs == before + init + [f];
    }
  }

  function AllFolds(ws: seq<Work>): seq<Fold> {
    if |ws| == 0 then [] else AllFolds(ws[..|ws| - 1]) + ws[|ws| - 1].folds
  }

  /**
   * After any run of exact works from an empty minute, the root reads every contribution; and with
   * no row dropped each row reads exactly the contributions of its key.
   */
  lemma {:induction false} MinuteReads(date: int, minute: nat, ws: seq<Work>)
    requires ExactRun(EmptyCell(date, minute), ws)
    ensures CellReads(Run(EmptyCell(date, minute), ws), AllFolds(ws))
  {
    hide ApplyAll;
    if |ws| == 0 {
      EmptyReads(Root);
    } else {
      var init, w := ws[..|ws| - 1], ws[|ws| - 1];
      MinuteReads(date, minute, init);
      AllRead(Progress(Run(EmptyCell(date, minute), init), w.budget, true), AllFolds(init), w.folds);
    }
  }

  // ---------------------------------------------------------------- a day

  function DayOfWorks(date: int, ws: seq<TerminalWork>, limit: nat): Day {
    if |ws| == 0 then EmptyDay(date) else DayAfter(DayOfWorks(date, ws[..|ws| - 1], limit), ws[|ws| - 1], limit)
  }

  predicate ExactDay(date: int, ws: seq<TerminalWork>, limit: nat) {
    |ws| > 0 ==> && ExactDay(date, ws[..|ws| - 1], limit)
                 && MinuteAfter(DayOfWorks(date, ws[..|ws| - 1], limit), ws[|ws| - 1]).exact
  }

  /** The contributions of the works that end in one minute. */
  function ContributionsAt(ws: seq<TerminalWork>, m: nat): seq<Fold> {
    if |ws| == 0 then []
    else ContributionsAt(ws[..|ws| - 1], m)
         + (if MinuteOf(ws[|ws| - 1].event.endedAt) == m then FoldsOf(ws[|ws| - 1]) else [])
  }

  /** A day has a minute for each of its works, and each minute reads exactly the works that end in it. */
  ghost predicate DayReads(cells: map<nat, Cell>, ws: seq<TerminalWork>) {
    && (forall i :: 0 <= i < |ws| ==> MinuteOf(ws[i].event.endedAt) in cells)
    && (forall m :: m in cells ==> CellReads(cells[m], ContributionsAt(ws, m)))
  }

  lemma {:induction false} NoneAt(ws: seq<TerminalWork>, m: nat)
    requires forall i :: 0 <= i < |ws| ==> MinuteOf(ws[i].event.endedAt) != m
    ensures ContributionsAt(ws, m) == []
  {
    hide MinuteOf, FoldsOf;
    if |ws| > 0 { NoneAt(ws[..|ws| - 1], m); }
  }

  lemma ContributionsAtAppend(ws: seq<TerminalWork>, w: TerminalWork, m: nat)
    ensures ContributionsAt(ws + [w], m)
            == ContributionsAt(ws, m) + (if MinuteOf(w.event.endedAt) == m then FoldsOf(w) else [])
  {
    hide FoldsOf, MinuteOf;
    assert (ws + [w])[..|ws|] == ws;
  }

  lemma {:induction false} DayStep(d: Day, ws: seq<TerminalWork>, w: TerminalWork)
    requires DayReads(d.cells, ws) && MinuteAfter(d, w).exact
    ensures DayReads(d.cells[MinuteOf(w.event.endedAt) := MinuteAfter(d, w).cell], ws + [w])
  {
    hide CellReads, FoldsOf, ContributionsAt, ApplyAll, Budget, MinuteOf;
    var m := MinuteOf(w.event.endedAt);
    if m !in d.cells {
      NoneAt(ws, m);
      EmptyCellReads(d.date, m);
    }
    AllRead(Progress(CellFor(d, m), Budget(d), true), ContributionsAt(ws, m), FoldsOf(w));
    forall k | k in d.cells || k == m
      ensures CellReads(d.cells[m := MinuteAfter(d, w).cell][k], ContributionsAt(ws + [w], k))
    {
      ContributionsAtAppend(ws, w, k);
      assert ContributionsAt(ws, k) + [] == ContributionsAt(ws, k);
    }
  }

  lemma EmptyCellReads(date: int, m: nat)
    ensures CellReads(EmptyCell(date, m), [])
  {
    EmptyReads(Root);
    hide Reads;
  }

  /** Whatever else a day records, its cells after a work are the old ones and the work's minute. */
  lemma DayCells(d: Day, w: TerminalWork, limit: nat)
    ensures DayAfter(d, w, limit).cells == d.cells[MinuteOf(w.event.endedAt) := MinuteAfter(d, w).cell]
  {
    hide MinuteAfter, NewlyDropped, MarkDroppedRows, Mark, MinuteOf;
  }

  /** Over any list of works folded exactly into an empty day. */
  lemma {:induction false} DayReadsItsWorks(date: int, ws: seq<TerminalWork>, limit: nat)
    requires ExactDay(date, ws, limit)
    ensures DayReads(DayOfWorks(date, ws, limit).cells, ws)
  {
    hide DayAfter, MinuteAfter, DayReads;
    if |ws| == 0 {
      NothingReads(ws);
    } else {
      var init, w := ws[..|ws| - 1], ws[|ws| - 1];
      DayReadsItsWorks(date, init, limit);
      DayStep(DayOfWorks(date, init, limit), init, w);
      DayCells(DayOfWorks(date, init, limit), w, limit);
      assert init + [w] == ws;
    }
  }

  lemma NothingReads(ws: seq<TerminalWork>)
    requires |ws| == 0
    ensures DayReads(map[], ws)
  {
  }

  // ---------------------------------------------------------------- which row a contribution belongs to

  /** A request's row is named by its client and its ending, and by its winner where its packet stands. */
  lemma {:induction false} RequestKeySays(w: TerminalWork)
    requires DistinctIds(w.attempts)
    ensures var (k, e) := (RequestKey(w), w.event);
            && k.kind == RequestRow && k.outcome == e.outcome
            && k.failure == (if e.outcome == Success then None else e.failure)
            && k.client == (if w.start.Some? then w.start.value.client else None)
            && (PacketOf(w).None? || e.winningAttemptId.None? ==>
                  && k.provider == e.provider && k.model == e.model && k.credentialId == e.credentialId
                  && k.attribution == e.attribution)
            && (PacketOf(w).Some? ==> forall i :: 0 <= i < |w.attempts|
                                                  && e.winningAttemptId == Some(w.attempts[i].attemptId) ==>
                  && k.provider == Either(w.attempts[i].provider, e.provider)
                  && k.model == Either(w.attempts[i].model, e.model)
                  && k.credentialId == Either(w.attempts[i].credentialId, e.credentialId)
                  && k.attribution == w.attempts[i].attribution)
  {
    hide PacketFor, SortAttempts;
    var sorted := SortAttempts(w.attempts);
    MultisetDistinct(sorted, w.attempts);
    if PacketOf(w).Some? {
      StartedPacket(w.event, w.start, sorted);
      PacketSays(w.event, w.start.value, sorted);
      forall i | 0 <= i < |w.attempts| ensures w.attempts[i] in sorted {
        assert w.attempts[i] in multiset(w.attempts);
      }
    }
  }

  lemma StartedPacket(e: RequestEvent, start: Option<Start>, all: seq<AttemptPacket>)
    requires PacketFor(e, start, all).Some?
    ensures start.Some?
  {
    hide IsRequestPacket, Assemble;
  }

  /** Two attempts share a row exactly when they agree on all that names one, and never share a request's. */
  lemma AttemptsShareARowExactlyWhen(p: AttemptPacket, q: AttemptPacket, c: Option<Label>, d: Option<Label>,
                                     w: TerminalWork)
    ensures AttemptKey(p, c) == AttemptKey(q, d)
            <==> && p.role == q.role && p.outcome == q.outcome && p.failure == q.failure
                 && p.provider == q.provider && p.model == q.model && p.credentialId == q.credentialId
                 && p.attribution == q.attribution && c == d
    ensures var k := AttemptKey(p, c);
            && k.kind == AttemptRow(p.role) && k.outcome == p.outcome && k.provider == p.provider
            && k.model == p.model && k.credentialId == p.credentialId && k.client == c
            && k != RequestKey(w)
  {
    hide PacketOf;
  }

  // ---------------------------------------------------------------- the lifetime and its months

  lemma {:induction false} RootAttemptsRead(s: Step, before: seq<Fold>, attempts: seq<AttemptPacket>, c: Option<Label>)
    requires s.exact && Reads(s.agg, before, Root) && AddRootAttempts(s, attempts).exact
    ensures Reads(AddRootAttempts(s, attempts).agg, before + AttemptFolds(attempts, c), Root)
  {
    hide Reads, AddRootAttempt;
    if |attempts| == 0 {
      assert before + AttemptFolds(attempts, c) == before;
    } else {
      var init, p := attempts[..|attempts| - 1], attempts[|attempts| - 1];
      RootAttemptsRead(s, before, init, c);
      var f := AttemptFold(p, AttemptKey(p, c));
      StepReads(AddRootAttempts(s, init).agg, before + AttemptFolds(init, c), f, Root);
      assert before + AttemptFolds(attempts, c) == before + AttemptFolds(init, c) + [f];
    }
  }

  function AttemptFolds(attempts: seq<AttemptPacket>, c: Option<Label>): seq<Fold> {
    seq(|attempts|, i requires 0 <= i < |attempts| => AttemptFold(attempts[i], AttemptKey(attempts[i], c)))
  }

  /** One work, folded exactly into a root, adds what its contributions report. */
  lemma {:induction false} WorkReads(a: Aggregate, before: seq<Fold>, w: TerminalWork)
    requires Reads(a, before, Root) && RootAfter(a, w).exact
    ensures Reads(RootAfter(a, w).agg, before + FoldsOf(w), Root)
  {
    hide Reads, AddRequest, AddRootAttempts, SortAttempts, AttemptKey, RequestKey;
    var sorted := SortAttempts(w.attempts);
    var f := RequestFold(w.event, w.event.outcome, RequestKey(w));
    var s := AddRequest(a, w.event, w.event.outcome);
    RootAttemptsExact(s, sorted);
    StepReads(a, before, f, Root);
    RootAttemptsRead(s, before + [f], sorted, ClientOf(w));
    assert before + FoldsOf(w) == before + [f] + AttemptFolds(sorted, ClientOf(w));
  }

  lemma {:induction false} RootAttemptsExact(s: Step, attempts: seq<AttemptPacket>)
    requires AddRootAttempts(s, attempts).exact
    ensures s.exact
  {
    hide AddRootAttempt;
    if |attempts| > 0 { RootAttemptsExact(s, attempts[..|attempts| - 1]); }
  }

  function MonthOfWork(w: TerminalWork): int {
    MonthOf(DayOf(w.event.endedAt))
  }

  function LifetimeOf(ws: seq<TerminalWork>): Lifetime {
    if |ws| == 0 then EMPTY_LIFETIME else AddLifetime(LifetimeOf(ws[..|ws| - 1]), ws[|ws| - 1])
  }

  /** The root's fold was exact, and so was the month's where there was one. */
  predicate ExactInto(l: Lifetime, w: TerminalWork) {
    var m := MonthOfWork(w);
    && RootAfter(l.aggregate, w).exact
    && (m in l.months ==> RootAfter(l.months[m].aggregate, w).exact)
    && (m !in l.months && |l.months| < MAX_MONTHS ==> RootAfter(EMPTY_AGGREGATE, w).exact)
  }

  predicate ExactLifetime(ws: seq<TerminalWork>) {
    |ws| > 0 ==> ExactLifetime(ws[..|ws| - 1]) && ExactInto(LifetimeOf(ws[..|ws| - 1]), ws[|ws| - 1])
  }

  function Contributions(ws: seq<TerminalWork>): seq<Fold> {
    if |ws| == 0 then [] else Contributions(ws[..|ws| - 1]) + FoldsOf(ws[|ws| - 1])
  }

  function ContributionsIn(ws: seq<TerminalWork>, m: int): seq<Fold> {
    if |ws| == 0 then []
    else ContributionsIn(ws[..|ws| - 1], m) + (if MonthOfWork(ws[|ws| - 1]) == m then FoldsOf(ws[|ws| - 1]) else [])
  }

  /** The lifetime reads every work, and each month it has the works that ended in it. */
  ghost predicate LifetimeReads(l: Lifetime, ws: seq<TerminalWork>) {
    && Reads(l.aggregate, Contributions(ws), Root)
    && (forall m :: m in l.months ==> Reads(l.months[m].aggregate, ContributionsIn(ws, m), Root))
    && (|l.months| < MAX_MONTHS ==> forall i :: 0 <= i < |ws| ==> MonthOfWork(ws[i]) in l.months)
  }

  lemma {:induction false} NotYet(ws: seq<TerminalWork>, m: int)
    requires forall i :: 0 <= i < |ws| ==> MonthOfWork(ws[i]) != m
    ensures ContributionsIn(ws, m) == []
  {
    if |ws| > 0 { NotYet(ws[..|ws| - 1], m); }
  }

  /** The parts of a lifetime after an exact work. */
  lemma {:induction false} ExactLifetimeParts(l: Lifetime, w: TerminalWork)
    requires ExactInto(l, w)
    ensures var (l', m) := (AddLifetime(l, w), MonthOfWork(w));
            && l'.aggregate == RootAfter(l.aggregate, w).agg
            && l'.months.Keys == l.months.Keys + (if m in l.months || |l.months| < MAX_MONTHS then {m} else {})
            && (forall k :: k in l.months && k != m ==> l'.months[k] == l.months[k])
            && (m in l.months ==> l'.months[m].aggregate == RootAfter(l.months[m].aggregate, w).agg)
            && (m !in l.months && |l.months| < MAX_MONTHS
                ==> l'.months[m].aggregate == RootAfter(EMPTY_AGGREGATE, w).agg)
  {
    hide RootAfter, MonthOf, Mark;
  }

  /** What one more work adds to the contributions of a month. */
  lemma {:induction false} ContributionsAppend(ws: seq<TerminalWork>, w: TerminalWork, m: int)
    ensures Contributions(ws + [w]) == Contributions(ws) + FoldsOf(w)
    ensures ContributionsIn(ws + [w], m) == ContributionsIn(ws, m) + (if MonthOfWork(w) == m then FoldsOf(w) else [])
  {
    hide FoldsOf, MonthOfWork;
    assert (ws + [w])[..|ws|] == ws;
  }

  lemma {:induction false} MonthStep(l: Lifetime, ws: seq<TerminalWork>, w: TerminalWork, k: int)
    requires LifetimeReads(l, ws) && ExactInto(l, w)
    requires k in AddLifetime(l, w).months
    ensures Reads(AddLifetime(l, w).months[k].aggregate, ContributionsIn(ws + [w], k), Root)
  {
    hide Reads, RootAfter, AddLifetime, FoldsOf, MonthOfWork, ContributionsIn, Contributions;
    ExactLifetimeParts(l, w);
    ContributionsAppend(ws, w, k);
    if k != MonthOfWork(w) {
      assert ContributionsIn(ws, k) + [] == ContributionsIn(ws, k);
    } else if k in l.months {
      WorkReads(l.months[k].aggregate, ContributionsIn(ws, k), w);
    } else {
      NotYet(ws, k);
      EmptyReads(Root);
      WorkReads(EMPTY_AGGREGATE, [], w);
    }
  }

  lemma {:induction false} MonthsKept(l: Lifetime, ws: seq<TerminalWork>, w: TerminalWork)
    requires LifetimeReads(l, ws) && ExactInto(l, w) && |l.months| <= MAX_MONTHS
    ensures var l' := AddLifetime(l, w);
            && |l.months| <= |l'.months| <= MAX_MONTHS
            && (|l'.months| < MAX_MONTHS ==> MonthOfWork(w) in l'.months)
            && l.months.Keys <= l'.months.Keys
  {
    hide Reads, RootAfter, AddLifetime, MonthOfWork, ContributionsIn, Contributions, LifetimeReads;
    ExactLifetimeParts(l, w);
    var m := MonthOfWork(w);
    if m in l.months || |l.months| >= MAX_MONTHS {
      assert AddLifetime(l, w).months.Keys == l.months.Keys;
    } else {
      assert |l.months.Keys + {m}| == |l.months.Keys| + 1;
    }
  }

  lemma {:induction false} LifetimeStep(l: Lifetime, ws: seq<TerminalWork>, w: TerminalWork)
    requires LifetimeReads(l, ws) && ExactInto(l, w) && |l.months| <= MAX_MONTHS
    ensures LifetimeReads(AddLifetime(l, w), ws + [w])
    ensures |AddLifetime(l, w).months| <= MAX_MONTHS
  {
    hide Reads, RootAfter, AddLifetime, FoldsOf, MonthOfWork, ContributionsIn, Contributions;
    ExactLifetimeParts(l, w);
    MonthsKept(l, ws, w);
    ContributionsAppend(ws, w, 0);
    WorkReads(l.aggregate, Contributions(ws), w);
    forall k | k in AddLifetime(l, w).months
      ensures Reads(AddLifetime(l, w).months[k].aggregate, ContributionsIn(ws + [w], k), Root)
    {
      MonthStep(l, ws, w, k);
    }
  }

  lemma {:induction false} EmptyLifetimeReads()
    ensures LifetimeReads(EMPTY_LIFETIME, [])
  {
    EmptyReads(Root);
    hide Reads;
  }

  /** Over any list of works folded exactly from an empty lifetime. */
  lemma {:induction false} LifetimeReadsItsWorks(ws: seq<TerminalWork>)
    requires ExactLifetime(ws)
    ensures LifetimeReads(LifetimeOf(ws), ws) && |LifetimeOf(ws).months| <= MAX_MONTHS
  {
    hide AddLifetime, ExactInto, LifetimeReads;
    EmptyLifetimeReads();
    if |ws| > 0 {
      LifetimeReadsItsWorks(ws[..|ws| - 1]);
      LifetimeStep(LifetimeOf(ws[..|ws| - 1]), ws[..|ws| - 1], ws[|ws| - 1]);
      assert ws[..|ws| - 1] + [ws[|ws| - 1]] == ws;
    }
  }

  // ---------------------------------------------------------------- the interval of the lifetime

  /** The lifetime's interval reaches from the first start or end of any work to the last end. */
  ghost predicate Spans(l: Lifetime, ws: seq<TerminalWork>) {
    if |ws| == 0 then l.firstRequestAt.None? && l.lastRequestAt.None?
    else
      && l.firstRequestAt.Some? && l.lastRequestAt.Some?
      && (forall i :: 0 <= i < |ws| ==> Covers(l.firstRequestAt.value, l.lastRequestAt.value, ws[i]))
      && (exists i :: 0 <= i < |ws| && Begins(l.firstRequestAt.value, ws[i]))
      && (exists i :: 0 <= i < |ws| && ws[i].event.endedAt == l.lastRequestAt.value)
  }

  predicate Covers(first: int, last: int, w: TerminalWork) {
    && first <= w.event.endedAt <= last
    && (w.start.Some? ==> first <= w.start.value.startedAt)
  }

  predicate Begins(first: int, w: TerminalWork) {
    first == w.event.endedAt || (w.start.Some? && first == w.start.value.startedAt)
  }

  lemma {:induction false} SpansStep(l: Lifetime, l': Lifetime, ws: seq<TerminalWork>, w: TerminalWork)
    requires Spans(l, ws) && l'.firstRequestAt == Earlier(l.firstRequestAt, Some(FirstInstant(w)))
    requires l'.lastRequestAt == Latest(l.lastRequestAt, Some(w.event.endedAt))
    ensures Spans(l', ws + [w])
  {
    var all := ws + [w];
    assert all[|ws|] == w;
    if |ws| > 0 {
      var i :| 0 <= i < |ws| && Begins(l.firstRequestAt.value, ws[i]);
      var j :| 0 <= j < |ws| && ws[j].event.endedAt == l.lastRequestAt.value;
      assert all[i] == ws[i] && all[j] == ws[j];
    }
  }

  lemma {:induction false} LifetimeSpansItsWorks(ws: seq<TerminalWork>)
    ensures Spans(LifetimeOf(ws), ws)
  {
    hide Spans, FirstInstant, AddLifetime;
    if |ws| == 0 {
      NothingSpans(ws);
    } else {
      var init, w := ws[..|ws| - 1], ws[|ws| - 1];
      LifetimeSpansItsWorks(init);
      IntervalAfter(LifetimeOf(init), w);
      SpansStep(LifetimeOf(init), AddLifetime(LifetimeOf(init), w), init, w);
      assert init + [w] == ws;
    }
  }

  lemma NothingSpans(ws: seq<TerminalWork>)
    requires |ws| == 0
    ensures Spans(EMPTY_LIFETIME, ws)
  {
  }

  lemma IntervalAfter(l: Lifetime, w: TerminalWork)
    ensures AddLifetime(l, w).firstRequestAt == Earlier(l.firstRequestAt, Some(FirstInstant(w)))
    ensures AddLifetime(l, w).lastRequestAt == Latest(l.lastRequestAt, Some(w.event.endedAt))
  {
    hide RootAfter, MonthOf, Mark, FirstInstant, DayOf;
  }

}
