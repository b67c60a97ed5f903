/**
 * One cell of the circuit breaker: a health axis with its cooldown ladders and a credential axis.
 * Instants and durations are integer milliseconds; a duration that is not finite is null.
 */
module BreakerCells {
  import opened Common

  const DEFAULT_COOLDOWN_MS: int := 60_000
  const CANCELLATION_EVIDENCE_MS: int := DEFAULT_COOLDOWN_MS
  const RATE_LIMIT_ESCALATION_MS: seq<int> := [120_000, 600_000, 3_600_000, 86_400_000]
  const FAILURE_ESCALATION_MS: seq<int> := [600_000, 3_600_000, 21_600_000, 86_400_000]
  const LOOPBACK_COOLDOWN_MS: int := 5_000
  const QUOTA_EXHAUSTED_COOLDOWN_MS: int := 3_600_000
  const MAX_FAILURES_BEFORE_TRIP: nat := 2
  const MAX_PING_HISTORY: nat := 10
  const CREDENTIAL_FAULT_TTL_MS: int := 300_000
  const MIN_RETRY_AFTER_MS: int := 1_000
  const MAX_RETRY_AFTER_MS: int := 900_000

  datatype Source = DefaultRung | Escalation | RetryAfter | Loopback | Quota | ElapsedTime | FailureEscalation

  /** A base URL, with whether its host is this machine. */
  datatype Base = Base(url: string, loopback: bool)

  datatype Target = Target(provider: string, model: Option<string>, kind: string, credentialId: string,
      base: Option<Base>)

  datatype Ping = Ping(ms: Option<int>, code: int, at: int)

  /** A provider-stated quota, one per axis and period. */
  datatype QuotaFact = QuotaFact(axis: nat, period: nat, limit: nat, remaining: nat, resetsAt: Option<int>,
      observedAt: int)

  datatype Cell = Cell(
    target: Target, consecutiveFailures: nat, lastFailureTime: int, cooldownUntil: int, source: Option<Source>,
    unexplained429s: nat, lastStatus: Option<int>, pings: seq<Ping>, quotas: seq<QuotaFact>,
    credentialFailures: nat, lastCredentialStatus: Option<int>, credentialFaultUntil: int)

  function FreshCell(target: Target): Cell {
    Cell(target, 0, 0, 0, None, 0, None, [], [], 0, None, 0)
  }

  predicate OnThisMachine(t: Target) {
    t.base.Some? && t.base.value.loopback
  }

  /**
   * An outcome that reaches the health path, with whether the target reporting it is this machine:
   * the base is not part of a cell's key, so another report may have created the cell.
   */
  datatype Outcome = Outcome(
    ok: bool, status: Option<int>, elapsed: Option<int>, at: int, retryAfter: Option<int>, loopback: bool)

  // ---------------------------------------------------------------- how long a failure cools

  /** `failureCooldown`: a failure slower than the default cools for the time it wasted, up to a ceiling. */
  function FailureCooldown(elapsed: Option<int>): (r: (int, Source))
    ensures DEFAULT_COOLDOWN_MS <= r.0 <= MAX_RETRY_AFTER_MS
    ensures r.1 == ElapsedTime <==> elapsed.Some? && elapsed.value > DEFAULT_COOLDOWN_MS
    ensures r.1 == ElapsedTime ==> r.0 == Min(elapsed.value, MAX_RETRY_AFTER_MS)
    ensures r.1 != ElapsedTime ==> r == (DEFAULT_COOLDOWN_MS, DefaultRung)
  {
    var wasted := if elapsed.Some? then Min(MAX_RETRY_AFTER_MS, Max(0, elapsed.value)) else 0;
    if wasted > DEFAULT_COOLDOWN_MS then (wasted, ElapsedTime) else (DEFAULT_COOLDOWN_MS, DefaultRung)
  }

  /** `failureEscalationMs`: null before the third consecutive failure. */
  function FailureEscalationMs(failures: nat): (r: Option<int>)
    ensures r.Some? <==> failures > MAX_FAILURES_BEFORE_TRIP
    ensures r.Some? ==> r.value == FAILURE_ESCALATION_MS[Min(failures - 3, 3)] >= 600_000
  {
    var index := failures - (MAX_FAILURES_BEFORE_TRIP + 1);
    if index < 0 then None else Some(FAILURE_ESCALATION_MS[Min(index, |FAILURE_ESCALATION_MS| - 1)])
  }

  /** A stated `Retry-After`, kept between one second and fifteen minutes. */
  function Asked(retryAfter: Option<int>): (r: Option<int>)
    ensures r.Some? <==> retryAfter.Some?
    ensures r.Some? ==> MIN_RETRY_AFTER_MS <= r.value <= MAX_RETRY_AFTER_MS
  {
    if retryAfter.None? then None else Some(Min(MAX_RETRY_AFTER_MS, Max(MIN_RETRY_AFTER_MS, retryAfter.value)))
  }

  /** The cooldown a failure arms, if any: its length and the rung it stands on. */
  datatype Rung = Rung(ms: int, source: Source)

  predicate GuessedRateLimit(o: Outcome) {
    o.status == Some(429) && o.retryAfter.None? && !o.loopback
  }

  /** The ladder of `applyHealthOutcome`; `failures` and `guesses` already count this failure. */
  function RungFor(o: Outcome, failures: nat, guesses: nat): Option<Rung> {
    var asked := Asked(o.retryAfter);
    if asked.Some? && (o.status == Some(429) || o.status == Some(402)) then Some(Rung(asked.value, RetryAfter))
    else if o.status == Some(429) then
      if o.loopback then Some(Rung(LOOPBACK_COOLDOWN_MS, Loopback))
      else
        var index := Min(Max(guesses - 1, 0), |RATE_LIMIT_ESCALATION_MS| - 1);
        Some(Rung(RATE_LIMIT_ESCALATION_MS[index], if guesses == 1 then DefaultRung else Escalation))
    else if o.status == Some(402) then
      var escalated := FailureEscalationMs(failures);
      var ms := Max(QUOTA_EXHAUSTED_COOLDOWN_MS, if escalated.Some? then escalated.value else 0);
      Some(Rung(ms, if escalated.Some? && escalated.value > QUOTA_EXHAUSTED_COOLDOWN_MS then FailureEscalation
                else DefaultRung))
    else if asked.Some? then Some(Rung(asked.value, RetryAfter))
    else if failures >= MAX_FAILURES_BEFORE_TRIP then
      var cooling, escalated := FailureCooldown(o.elapsed), FailureEscalationMs(failures);
      if escalated.Some? && escalated.value > cooling.0 then Some(Rung(escalated.value, FailureEscalation))
      else Some(Rung(cooling.0, cooling.1))
    else None
  }

  // ---------------------------------------------------------------- transitions

  function OutcomeCode(o: Outcome): int {
    if o.status.None? then if o.ok then 200 else 500
    else if 200 <= o.status.value < 300 then 200 else o.status.value
  }

  function KeepPings(pings: seq<Ping>): seq<Ping> {
    if |pings| > MAX_PING_HISTORY then pings[1..] else pings
  }

  /** `applyHealthOutcome` on its cell. */
  function Applied(c: Cell, o: Outcome): Cell {
    var seen := c.(lastStatus := if o.status.Some? then o.status else if o.ok then Some(200) else None,
                   pings := KeepPings(c.pings + [Ping(o.elapsed, OutcomeCode(o), o.at)]));
    if o.ok then
      seen.(consecutiveFailures := 0, cooldownUntil := 0, source := None, unexplained429s := 0,
            credentialFailures := 0, credentialFaultUntil := 0, lastCredentialStatus := None)
    else
      var failures := c.consecutiveFailures + 1;
      var guesses := c.unexplained429s + if GuessedRateLimit(o) then 1 else 0;
      var failed := seen.(consecutiveFailures := failures, lastFailureTime := o.at, unexplained429s := guesses);
      var rung := RungFor(o, failures, guesses);
      if rung.None? then failed
      else failed.(cooldownUntil := o.at + rung.value.ms, source := Some(rung.value.source))
  }

  /** `applyHealthOutcome`, field by field as the breaker updates the cell. */
  method ApplyHealthOutcome(cell: Cell, o: Outcome) returns (c: Cell)
    ensures c == Applied(cell, o)
  {
    hide FailureCooldown, FailureEscalationMs, Asked;
    c := cell;
    c := c.(lastStatus := if o.status.Some? then o.status else if o.ok then Some(200) else None);
    c := c.(pings := c.pings + [Ping(o.elapsed, OutcomeCode(o), o.at)]);
    if |c.pings| > MAX_PING_HISTORY { c := c.(pings := c.pings[1..]); }
    if o.ok {
      c := c.(consecutiveFailures := 0, cooldownUntil := 0, source := None, unexplained429s := 0);
      c := c.(credentialFailures := 0, credentialFaultUntil := 0, lastCredentialStatus := None);
      return;
    }
    c := c.(consecutiveFailures := c.consecutiveFailures + 1, lastFailureTime := o.at);
    var asked := Asked(o.retryAfter);
    if o.status == Some(429) {
      if asked.Some? {
        c := c.(cooldownUntil := o.at + asked.value, source := Some(RetryAfter));
      } else if o.loopback {
        c := c.(cooldownUntil := o.at + LOOPBACK_COOLDOWN_MS, source := Some(Loopback));
      } else {
        c := c.(unexplained429s := c.unexplained429s + 1);
        var index := Min(c.unexplained429s - 1, |RATE_LIMIT_ESCALATION_MS| - 1);
        c := c.(cooldownUntil := o.at + RATE_LIMIT_ESCALATION_MS[index]);
        c := c.(source := Some(if c.unexplained429s == 1 then DefaultRung else Escalation));
      }
    } else if o.status == Some(402) {
      if asked.Some? {
        c := c.(cooldownUntil := o.at + asked.value, source := Some(RetryAfter));
      } else {
        var escalated := FailureEscalationMs(c.consecutiveFailures);
        var floor := if escalated.Some? then escalated.value else 0;
        c := c.(cooldownUntil := o.at + Max(QUOTA_EXHAUSTED_COOLDOWN_MS, floor));
        c := c.(source := Some(if escalated.Some? && escalated.value > QUOTA_EXHAUSTED_COOLDOWN_MS
                               then FailureEscalation
                               else DefaultRung));
      }
    } else if asked.Some? {
      c := c.(cooldownUntil := o.at + asked.value, source := Some(RetryAfter));
    } else if c.consecutiveFailures >= MAX_FAILURES_BEFORE_TRIP {
      var cooling, escalated := FailureCooldown(o.elapsed), FailureEscalationMs(c.consecutiveFailures);
      if escalated.Some? && escalated.value > cooling.0 {
        c := c.(cooldownUntil := o.at + escalated.value, source := Some(FailureEscalation));
      } else {
        c := c.(cooldownUntil := o.at + cooling.0, source := Some(cooling.1));
      }
    }
  }

  function FaultApplied(c: Cell, status: int, at: int): Cell {
    c.(credentialFailures := c.credentialFailures + 1, lastCredentialStatus := Some(status),
       credentialFaultUntil := at + CREDENTIAL_FAULT_TTL_MS)
  }

  function FaultCleared(c: Cell): Cell {
    c.(credentialFaultUntil := 0, credentialFailures := 0, lastCredentialStatus := None)
  }

  function CooldownCleared(c: Cell): Cell {
    c.(cooldownUntil := 0, source := None, unexplained429s := 0)
  }

  /** `recordQuotaCooldown`: only ever lengthens. */
  function QuotaCooled(c: Cell, until: int, at: int): Cell {
    if until <= at || c.cooldownUntil >= until then c else c.(cooldownUntil := until, source := Some(Quota))
  }

  function SameBucket(a: QuotaFact, b: QuotaFact): bool {
    a.axis == b.axis && a.period == b.period
  }

  /** One observation merged in: it replaces its bucket in place, or joins at the end. */
  function MergeOne(quotas: seq<QuotaFact>, q: QuotaFact): seq<QuotaFact> {
    if |quotas| == 0 then [q]
    else if SameBucket(quotas[0], q) then [q] + quotas[1..]
    else [quotas[0]] + MergeOne(quotas[1..], q)
  }

  function MergeQuotas(quotas: seq<QuotaFact>, fresh': seq<QuotaFact>): seq<QuotaFact> {
    if |fresh'| == 0 then quotas else MergeOne(MergeQuotas(quotas, fresh'[..|fresh'| - 1]), fresh'[|fresh'| - 1])
  }

  /** What is known about one axis and period. */
  function QuotaIn(quotas: seq<QuotaFact>, axis: nat, period: nat): Option<QuotaFact> {
    if |quotas| == 0 then None
    else if quotas[0].axis == axis && quotas[0].period == period then Some(quotas[0])
    else QuotaIn(quotas[1..], axis, period)
  }

  predicate OneABucket(quotas: seq<QuotaFact>) {
    forall i, j :: 0 <= i < j < |quotas| ==> !SameBucket(quotas[i], quotas[j])
  }

  /** A new observation replaces its own bucket and no other. */
  lemma {:induction false} MergeOneHolds(quotas: seq<QuotaFact>, q: QuotaFact, axis: nat, period: nat)
    requires OneABucket(quotas)
    ensures OneABucket(MergeOne(quotas, q))
    ensures forall x :: x in MergeOne(quotas, q) ==> x == q || (x in quotas && !SameBucket(x, q))
    ensures QuotaIn(MergeOne(quotas, q), axis, period)
            == if q.axis == axis && q.period == period then Some(q) else QuotaIn(quotas, axis, period)
  {
    if |quotas| > 0 && !SameBucket(quotas[0], q) {
      MergeOneHolds(quotas[1..], q, axis, period);
      var r := MergeOne(quotas[1..], q);
      assert MergeOne(quotas, q)[1..] == r;
      forall j | 0 <= j < |r| ensures !SameBucket(quotas[0], r[j]) {
        assert r[j] in r;
      }
    } else if |quotas| > 0 {
      assert MergeOne(quotas, q)[1..] == quotas[1..];
    }
  }

  /** Merging keeps the freshest fact of every axis and period, and one of each. */
  lemma {:induction false} MergeQuotasHolds(quotas: seq<QuotaFact>, fresh': seq<QuotaFact>, axis: nat, period: nat)
    requires OneABucket(quotas)
    ensures OneABucket(MergeQuotas(quotas, fresh'))
    ensures QuotaIn(MergeQuotas(quotas, fresh'), axis, period)
            == if LastIn(fresh', axis, period).Some? then LastIn(fresh', axis, period)
              else QuotaIn(quotas, axis, period)
  {
    if |fresh'| > 0 {
      MergeQuotasHolds(quotas, fresh'[..|fresh'| - 1], axis, period);
      MergeOneHolds(MergeQuotas(quotas, fresh'[..|fresh'| - 1]), fresh'[|fresh'| - 1], axis, period);
    }
  }

  /** The last of some observations about one axis and period. */
  function LastIn(quotas: seq<QuotaFact>, axis: nat, period: nat): Option<QuotaFact> {
    if |quotas| == 0 then None
    else
      var last := quotas[|quotas| - 1];
      if last.axis == axis && last.period == period then Some(last) else LastIn(quotas[..|quotas| - 1], axis, period)
  }

  function QuotasSeen(c: Cell, fresh': seq<QuotaFact>): Cell {
    c.(quotas := MergeQuotas(c.quotas, fresh'))
  }

  // ---------------------------------------------------------------- probes

  /** Which cooldowns a successful probe may end. */
  predicate ProbeEnds(s: Source) {
    s != Quota && s != ElapsedTime
  }

  /** Which cooldowns the ping loop spends a probe on. */
  predicate ReprobeTargets(s: Source) {
    s == DefaultRung || s == Escalation || s == FailureEscalation
  }

  /** `probeDisprovesCooldown`. */
  predicate Disproves(s: Source, status: Option<int>) {
    if s == FailureEscalation then status.Some? && (status.value == 402 || 500 <= status.value <= 599)
    else status == Some(429)
  }

  predicate Endable(c: Cell, at: int) {
    c.cooldownUntil > at && c.source.Some? && ProbeEnds(c.source.value) && Disproves(c.source.value, c.lastStatus)
  }

  predicate Listable(c: Cell, now: int) {
    c.cooldownUntil > now && c.source.Some? && ReprobeTargets(c.source.value) && Disproves(c.source.value, c.lastStatus)
  }

  function ProbeEnded(c: Cell, at: int): Cell {
    if Endable(c, at) then c.(cooldownUntil := 0, source := None) else c
  }

  // ---------------------------------------------------------------- one cell's run

  datatype Event =
    | Health(outcome: Outcome)
    | Quotas(facts: seq<QuotaFact>)
    | Fault(status: int, at: int)
    | ClearFault
    | ClearCooldown
    | QuotaUntil(until: int, at: int)
    | Probe(at: int)

  function Step(c: Cell, e: Event): Cell {
    match e
    case Health(o) => Applied(c, o)
    case Quotas(facts) => QuotasSeen(c, facts)
    case Fault(status, at) => FaultApplied(c, status, at)
    case ClearFault => FaultCleared(c)
    case ClearCooldown => CooldownCleared(c)
    case QuotaUntil(until, at) => QuotaCooled(c, until, at)
    case Probe(at) => ProbeEnded(c, at)
  }

  function Run(c: Cell, es: seq<Event>): Cell {
    if |es| == 0 then c else Step(Run(c, es[..|es| - 1]), es[|es| - 1])
  }

  /** No event is dated before the epoch. */
  predicate Dated(e: Event) {
    match e
    case Health(o) => o.at >= 0
    case Fault(_, at) => at >= 0
    case QuotaUntil(_, at) => at >= 0
    case _ => true
  }

  predicate AllDated(es: seq<Event>) {
    forall i :: 0 <= i < |es| ==> Dated(es[i])
  }

  /** What every reachable cell keeps. */
  predicate CellOk(c: Cell) {
    && (c.source.None? <==> c.cooldownUntil == 0) && c.cooldownUntil >= 0
    && c.consecutiveFailures >= c.unexplained429s
    && (c.source.Some? && c.source.value != Quota ==> c.consecutiveFailures > 0)
    && (c.source == Some(Escalation) ==> c.unexplained429s >= 2)
    && (c.source == Some(FailureEscalation) ==> c.consecutiveFailures >= 3)
    && |c.pings| <= MAX_PING_HISTORY && c.lastFailureTime >= 0 && c.credentialFaultUntil >= 0
  }

  lemma {:induction false} AppliedOk(c: Cell, o: Outcome)
    requires CellOk(c) && o.at >= 0
    ensures CellOk(Applied(c, o))
    ensures !o.ok && c.consecutiveFailures > 0 ==>
              RungFor(o, c.consecutiveFailures + 1,
                      c.unexplained429s + if GuessedRateLimit(o) then 1 else 0).Some?
  {
    hide FailureCooldown, FailureEscalationMs, Asked;
  }

  lemma {:induction false} StepOk(c: Cell, e: Event)
    requires CellOk(c) && Dated(e)
    ensures CellOk(Step(c, e))
  {
    hide Applied, MergeQuotas, RungFor;
    if e.Health? { AppliedOk(c, e.outcome); }
  }

  lemma {:induction false} RunOk(c: Cell, es: seq<Event>)
    requires CellOk(c) && AllDated(es)
    ensures CellOk(Run(c, es))
  {
    hide CellOk, Step, Dated;
    if |es| > 0 {
      var init, e := es[..|es| - 1], es[|es| - 1];
      RunOk(c, init);
      StepOk(Run(c, init), e);
    }
  }

  /** The status of the failure that armed the cooldown in force, by the history of the cell. */
  function ArmedBy(c: Cell, es: seq<Event>): Option<Outcome> {
    if |es| == 0 then None
    else
      var before, last := Run(c, es[..|es| - 1]), es[|es| - 1];
      if last.Health? && !last.outcome.ok
         && RungFor(last.outcome, before.consecutiveFailures + 1,
                    before.unexplained429s + if GuessedRateLimit(last.outcome) then 1 else 0).Some?
      then Some(last.outcome)
      else ArmedBy(c, es[..|es| - 1])
  }

  /**
   * In every reachable state that cools for a reason other than a stated quota, the last status is
   * the status of the failure that armed the cooldown. So a probe is weighed against the right one.
   */
  lemma {:induction false} LastStatusArmedTheCooldown(target: Target, es: seq<Event>)
    requires AllDated(es)
    ensures var c := Run(FreshCell(target), es);
            c.source.Some? && c.source.value != Quota ==>
              ArmedBy(FreshCell(target), es).Some? && c.lastStatus == ArmedBy(FreshCell(target), es).value.status
  {
    hide MergeQuotas, ProbeEnds, Disproves, Applied, Dated;
    if |es| > 0 {
      var init, e := es[..|es| - 1], es[|es| - 1];
      LastStatusArmedTheCooldown(target, init);
      RunOk(FreshCell(target), init);
      var before := Run(FreshCell(target), init);
      if e.Health? { AppliedArms(before, e.outcome); }
    }
  }

  /** One outcome arms a cooldown and is remembered, or leaves none but the one that was there. */
  lemma AppliedArms(c: Cell, o: Outcome)
    requires CellOk(c)
    ensures var rung := RungFor(o, c.consecutiveFailures + 1, c.unexplained429s + if GuessedRateLimit(o) then 1 else 0);
            && (o.ok ==> Applied(c, o).source.None?)
            && (!o.ok ==> Applied(c, o).lastStatus == o.status)
            && (!o.ok && rung.None? ==> c.source.None? || c.source.value == Quota)
            && (!o.ok && rung.None? ==> Applied(c, o).source == c.source)
  {
    hide FailureCooldown, FailureEscalationMs, Asked;
  }

  /** The cooldowns the relay invented: guessed rate limits, and repeated 402s and server errors. */
  predicate Invented(source: Source, status: Option<int>) {
    || ((source == DefaultRung || source == Escalation) && status == Some(429))
    || (source == FailureEscalation && status.Some? && (status.value == 402 || 500 <= status.value <= 599))
  }

  /**
   * A cell is listed for probing exactly while it cools on a rung the relay invented for the very
   * failure that armed it; and every listed cell is one a successful probe would end.
   */
  lemma {:induction false} ListedExactlyWhenInvented(target: Target, es: seq<Event>, now: int)
    requires AllDated(es)
    ensures var c, armed := Run(FreshCell(target), es), ArmedBy(FreshCell(target), es);
            && (Listable(c, now) <==> c.cooldownUntil > now && c.source.Some? && armed.Some?
                                      && Invented(c.source.value, armed.value.status))
            && (Listable(c, now) ==> Endable(c, now) && ProbeEnded(c, now).cooldownUntil == 0
                                     && ProbeEnded(c, now).unexplained429s == c.unexplained429s)
  {
    LastStatusArmedTheCooldown(target, es);
  }

  /** Guessed rate limits climb the ladder: the next one never cools for less than the last. */
  lemma GuessesClimb(o: Outcome, failures: nat, guesses: nat)
    requires GuessedRateLimit(o) && guesses >= 1
    ensures var r, s := RungFor(o, failures, guesses), RungFor(o, failures + 1, guesses + 1);
            r.Some? && s.Some? && r.value.ms <= s.value.ms <= 86_400_000 && (guesses < 4 ==> r.value.ms < s.value.ms)
  {
  }

  /** A failure that trips the cell cools it for at least the time it wasted, up to the ceiling. */
  lemma CooldownOutlastsTheFailure(o: Outcome, failures: nat, guesses: nat)
    requires !o.ok && o.retryAfter.None? && o.status != Some(429) && o.elapsed.Some?
    ensures RungFor(o, failures, guesses).Some? ==>
              RungFor(o, failures, guesses).value.ms >= Min(o.elapsed.value, MAX_RETRY_AFTER_MS)
  {
  }
}
