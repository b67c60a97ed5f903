/**
 * A breaker cell read off its history alone: every field of the cell is a count of, or the last of, the
 * events that reached it, and the cooldown in force follows from those by a table of durations.
 */
module CellHistories {
  import opened Common
  import opened BreakerCells

  // ---------------------------------------------------------------- reading a history

  predicate Succeeded(e: Event) {
    e.Health? && e.outcome.ok
  }

  predicate Failed(e: Event) {
    e.Health? && !e.outcome.ok
  }

  /** A rate limit without a stated end, from another machine. */
  predicate Guessed(e: Event) {
    Failed(e) && e.outcome.status == Some(429) && e.outcome.retryAfter.None? && !e.outcome.loopback
  }

  /** How many events of one kind came after the last event of another. */
  function Since(es: seq<Event>, stop: Event -> bool, counted: Event -> bool): nat {
    if |es| == 0 || stop(es[|es| - 1]) then 0
    else Since(es[..|es| - 1], stop, counted) + if counted(es[|es| - 1]) then 1 else 0
  }

  /** The last event of one kind after the last event of another. */
  function LastSince(es: seq<Event>, stop: Event -> bool, sought: Event -> bool): Option<Event> {
    if |es| == 0 then None
    else if sought(es[|es| - 1]) then Some(es[|es| - 1])
    else if stop(es[|es| - 1]) then None
    else LastSince(es[..|es| - 1], stop, sought)
  }

  /** Failures since the last success. */
  function Failures(es: seq<Event>): nat {
    Since(es, e => Succeeded(e), e => Failed(e))
  }

  /** Guessed rate limits since the last success or clearing. */
  function Guesses(es: seq<Event>): nat {
    Since(es, (e: Event) => Succeeded(e) || e.ClearCooldown?, (e: Event) => Guessed(e))
  }

  /** Credential faults since the last success or clearing. */
  function Faults(es: seq<Event>): nat {
    Since(es, (e: Event) => Succeeded(e) || e.ClearFault?, (e: Event) => e.Fault?)
  }

  function LastFault(es: seq<Event>): (f: Option<Event>)
    ensures f.Some? ==> f.value.Fault?
  {
    match LastSince(es, (e: Event) => Succeeded(e) || e.ClearFault?, (e: Event) => e.Fault?)
    case Some(Fault(status, at)) => Some(Fault(status, at))
    case _ => None
  }

  /** The last outcome, good or bad. */
  function LastOutcome(es: seq<Event>): Option<Outcome> {
    if |es| == 0 then None
    else if es[|es| - 1].Health? then Some(es[|es| - 1].outcome)
    else LastOutcome(es[..|es| - 1])
  }

  function LastFailure(es: seq<Event>): Option<Outcome> {
    if |es| == 0 then None
    else if Failed(es[|es| - 1]) then Some(es[|es| - 1].outcome)
    else LastFailure(es[..|es| - 1])
  }

  /** A success without a status counts as 200. */
  function StatusIn(o: Option<Outcome>): Option<int> {
    if o.None? then None
    else if o.value.status.None? && o.value.ok then Some(200)
    else o.value.status
  }

  /** One ping an outcome: any 2xx reads 200, and so does a success without a status; a failure without one 500. */
  function PingOf(o: Outcome): Ping {
    var code :=
      match o.status
      case Some(s) => if s / 100 == 2 then 200 else s
      case None => if o.ok then 200 else 500;
    Ping(o.elapsed, code, o.at)
  }

  function Pings(es: seq<Event>): seq<Ping> {
    if |es| == 0 then []
    else Pings(es[..|es| - 1]) + if es[|es| - 1].Health? then [PingOf(es[|es| - 1].outcome)] else []
  }

  function LastTen(pings: seq<Ping>): seq<Ping> {
    if |pings| <= 10 then pings else pings[|pings| - 10..]
  }

  /** Every quota fact seen, in order. */
  function QuotaFacts(es: seq<Event>): seq<QuotaFact> {
    if |es| == 0 then []
    else QuotaFacts(es[..|es| - 1]) + if es[|es| - 1].Quotas? then es[|es| - 1].facts else []
  }

  // ---------------------------------------------------------------- the cooldown in force

  /** What one failure cools a cell for; the counts include the failure itself. */
  function Cools(o: Outcome, failures: nat, guesses: nat): Option<(int, Source)> {
    if o.retryAfter.Some? then
      var asked := o.retryAfter.value;
      Some((if asked < 1_000 then 1_000 else if asked > 900_000 then 900_000 else asked, RetryAfter))
    else if o.status == Some(429) then
      if o.loopback then Some((5_000, Loopback))
      else if guesses == 1 then Some((120_000, DefaultRung))
      else if guesses == 2 then Some((600_000, Escalation))
      else if guesses == 3 then Some((3_600_000, Escalation))
      else Some((86_400_000, Escalation))
    else if o.status == Some(402) then
      if failures <= 4 then Some((3_600_000, DefaultRung))
      else if failures == 5 then Some((21_600_000, FailureEscalation))
      else Some((86_400_000, FailureEscalation))
    else
      var wasted := if o.elapsed.None? then 0 else if o.elapsed.value > 900_000 then 900_000 else o.elapsed.value;
      if failures == 1 then None
      else if failures == 2 then Some(if wasted > 60_000 then (wasted, ElapsedTime) else (60_000, DefaultRung))
      else if failures == 3 then Some(if wasted >= 600_000 then (wasted, ElapsedTime) else (600_000, FailureEscalation))
      else if failures == 4 then Some((3_600_000, FailureEscalation))
      else if failures == 5 then Some((21_600_000, FailureEscalation))
      else Some((86_400_000, FailureEscalation))
  }

  /** Until when a cell cools, and why. */
  datatype Standing = Standing(until: int, why: Option<Source>)

  const READY := Standing(0, None)

  /** A probe disproves guessed rate limits, and repeated failures that were 402s or server errors. */
  predicate Disproved(why: Option<Source>, status: Option<int>) {
    match why
    case None => false
    case Some(Quota) => false
    case Some(ElapsedTime) => false
    case Some(FailureEscalation) => status.Some? && (status.value == 402 || status.value / 100 == 5)
    case Some(_) => status == Some(429)
  }

  function InForce(es: seq<Event>): Standing {
    if |es| == 0 then READY
    else
      var init, last, before := es[..|es| - 1], es[|es| - 1], InForce(es[..|es| - 1]);
      match last
      case Health(o) =>
        if o.ok then READY
        else
          (match Cools(o, Failures(es), Guesses(es))
           case None => before
           case Some((ms, why)) => Standing(o.at + ms, Some(why)))
      case ClearCooldown => READY
      case QuotaUntil(until, at) => if until > at && until > before.until then Standing(until, Some(Quota)) else before
      case Probe(at) =>
        if before.until > at && Disproved(before.why, StatusIn(LastOutcome(init))) then READY else before
      case _ => before
  }

  // ---------------------------------------------------------------- the cell is its history

  ghost predicate Tells(c: Cell, target: Target, es: seq<Event>) {
    && c.target == target
    && c.consecutiveFailures == Failures(es) && c.unexplained429s == Guesses(es)
    && c.lastStatus == StatusIn(LastOutcome(es))
    && c.lastFailureTime == (if LastFailure(es).Some? then LastFailure(es).value.at else 0)
    && Standing(c.cooldownUntil, c.source) == InForce(es)
    && c.pings == LastTen(Pings(es))
    && c.credentialFailures == Faults(es)
    && c.lastCredentialStatus == (if LastFault(es).Some? then Some(LastFault(es).value.status) else None)
    && c.credentialFaultUntil == (if LastFault(es).Some? then LastFault(es).value.at + 300_000 else 0)
  }

  /** The ladder of the breaker and the table above agree rung by rung. */
  lemma TableIsTheLadder(o: Outcome, failures: nat, guesses: nat)
    requires failures >= 1 && (GuessedRateLimit(o) ==> guesses >= 1)
    ensures var rung := RungFor(o, failures, guesses);
            Cools(o, failures, guesses) == if rung.None? then None else Some((rung.value.ms, rung.value.source))
  {
  }

  lemma PingsCapped(pings: seq<Ping>, p: Ping)
    ensures KeepPings(LastTen(pings) + [p]) == LastTen(pings + [p])
  {
  }

  /** What one more outcome adds to each reading. */
  lemma OutcomeRead(init: seq<Event>, o: Outcome)
    ensures var es := init + [Health(o)];
            && Failures(es) == (if o.ok then 0 else Failures(init) + 1)
            && Guesses(es) == (if o.ok then 0 else Guesses(init) + if GuessedRateLimit(o) then 1 else 0)
            && Faults(es) == (if o.ok then 0 else Faults(init))
            && LastFault(es) == (if o.ok then None else LastFault(init))
            && LastOutcome(es) == Some(o)
            && LastFailure(es) == (if o.ok then LastFailure(init) else Some(o))
            && Pings(es) == Pings(init) + [PingOf(o)]
  {
    var es := init + [Health(o)];
    assert es[..|es| - 1] == init && es[|es| - 1] == Health(o);
  }

  lemma OutcomeInForce(init: seq<Event>, o: Outcome)
    ensures var es := init + [Health(o)];
            InForce(es) == if o.ok then READY
                           else match Cools(o, Failures(es), Guesses(es))
                                case None => InForce(init)
                                case Some((ms, why)) => Standing(o.at + ms, Some(why))
  {
    hide Cools, Failures, Guesses;
    var es := init + [Health(o)];
    assert es[..|es| - 1] == init && es[|es| - 1] == Health(o);
  }

  lemma OutcomeTells(c: Cell, target: Target, init: seq<Event>, o: Outcome)
    requires Tells(c, target, init)
    ensures Tells(Applied(c, o), target, init + [Health(o)])
  {
    hide RungFor, KeepPings, LastTen, Cools, Failures, Guesses, Faults, LastFault, LastOutcome, LastFailure, Pings,
         InForce;
    OutcomeRead(init, o);
    OutcomeInForce(init, o);
    PingsCapped(Pings(init), PingOf(o));
    if !o.ok { TableIsTheLadder(o, Failures(init + [Health(o)]), Guesses(init + [Health(o)])); }
  }

  /** What any other event does to each reading. */
  lemma EventRead(init: seq<Event>, e: Event)
    requires !e.Health?
    ensures var es := init + [e];
            && Failures(es) == Failures(init)
            && Guesses(es) == (if e.ClearCooldown? then 0 else Guesses(init))
            && Faults(es) == (if e.ClearFault? then 0 else Faults(init) + if e.Fault? then 1 else 0)
            && LastFault(es) == (if e.ClearFault? then None else if e.Fault? then Some(e) else LastFault(init))
            && LastOutcome(es) == LastOutcome(init) && LastFailure(es) == LastFailure(init)
            && Pings(es) == Pings(init)
  {
    var es := init + [e];
    assert es[..|es| - 1] == init && es[|es| - 1] == e;
    assert Pings(init) + [] == Pings(init);
  }

  lemma EventInForce(init: seq<Event>, e: Event)
    requires !e.Health?
    ensures InForce(init + [e])
            == match e
               case ClearCooldown => READY
               case QuotaUntil(until, at) =>
                 if until > at && until > InForce(init).until then Standing(until, Some(Quota)) else InForce(init)
               case Probe(at) =>
                 if InForce(init).until > at && Disproved(InForce(init).why, StatusIn(LastOutcome(init))) then READY
                 else InForce(init)
               case _ => InForce(init)
  {
    hide Cools, Failures, Guesses, Disproved, StatusIn, LastOutcome;
    var es := init + [e];
    assert es[..|es| - 1] == init && es[|es| - 1] == e;
  }

  lemma EventTells(c: Cell, target: Target, init: seq<Event>, e: Event)
    requires Tells(c, target, init) && !e.Health?
    ensures Tells(Step(c, e), target, init + [e])
  {
    hide LastTen, Cools, MergeQuotas, Applied, Failures, Guesses, Faults, LastFault, LastOutcome, LastFailure, Pings,
         InForce;
    EventRead(init, e);
    EventInForce(init, e);
  }

  /**
   * Every field of a cell, after any run of events, is what its history says: the failures since the last
   * success, the guesses since the last success or clearing, the last status, the newest ten pings, the
   * credential faults since they were last cleared, and the cooldown in force with its source.
   */
  lemma {:induction false} CellIsItsHistory(target: Target, es: seq<Event>)
    ensures Tells(Run(FreshCell(target), es), target, es)
  {
    hide Tells, Step, Applied;
    if |es| == 0 {
      FreshTells(target, es);
    } else {
      var init, e := es[..|es| - 1], es[|es| - 1];
      CellIsItsHistory(target, init);
      assert es == init + [e];
      StepIs(Run(FreshCell(target), init), e);
      if e.Health? {
        OutcomeTells(Run(FreshCell(target), init), target, init, e.outcome);
      } else {
        EventTells(Run(FreshCell(target), init), target, init, e);
      }
    }
  }

  lemma StepIs(c: Cell, e: Event)
    ensures e.Health? ==> Step(c, e) == Applied(c, e.outcome)
  {
    hide Applied;
  }

  lemma FreshTells(target: Target, es: seq<Event>)
    requires |es| == 0
    ensures Tells(FreshCell(target), target, es)
  {
  }

  /** After a success nothing demotes the cell: no failures, no cooldown, no credential fault. */
  lemma SuccessClears(target: Target, es: seq<Event>, o: Outcome, now: int)
    requires o.ok && now >= 0
    ensures var c := Run(FreshCell(target), es + [Health(o)]);
            && c.consecutiveFailures == 0 && c.unexplained429s == 0 && c.cooldownUntil <= now && c.source.None?
            && c.credentialFailures == 0 && c.lastCredentialStatus.None? && c.credentialFaultUntil <= now
  {
    var all := es + [Health(o)];
    CellIsItsHistory(target, all);
    assert all[|all| - 1] == Health(o);
    hide Run;
  }

  /** The quotas of a cell hold the last fact seen of every axis and period, one of each. */
  lemma {:induction false} QuotasAreTheLatest(target: Target, es: seq<Event>, axis: nat, period: nat)
    ensures var c := Run(FreshCell(target), es);
            OneABucket(c.quotas) && QuotaIn(c.quotas, axis, period) == LastIn(QuotaFacts(es), axis, period)
  {
    hide Applied, MergeQuotas, LastIn, QuotaIn, OneABucket;
    if |es| == 0 {
      NoQuotas(axis, period);
    } else {
      var init, e := es[..|es| - 1], es[|es| - 1];
      QuotasAreTheLatest(target, init, axis, period);
      var c := Run(FreshCell(target), init);
      if e.Quotas? {
        MergeQuotasHolds(c.quotas, e.facts, axis, period);
        LastInConcat(QuotaFacts(init), e.facts, axis, period);
      } else {
        OtherEventsKeepQuotas(c, e);
        assert QuotaFacts(init) + [] == QuotaFacts(init);
      }
    }
  }

  lemma NoQuotas(axis: nat, period: nat)
    ensures OneABucket([]) && QuotaIn([], axis, period).None? && LastIn([], axis, period).None?
  {
  }

  lemma OtherEventsKeepQuotas(c: Cell, e: Event)
    requires !e.Quotas?
    ensures Step(c, e).quotas == c.quotas
  {
    hide RungFor;
  }

  lemma {:induction false} LastInConcat(xs: seq<QuotaFact>, ys: seq<QuotaFact>, axis: nat, period: nat)
    ensures LastIn(xs + ys, axis, period)
            == if LastIn(ys, axis, period).Some? then LastIn(ys, axis, period) else LastIn(xs, axis, period)
  {
    if |ys| == 0 {
      assert xs + ys == xs;
    } else {
      assert (xs + ys)[..|xs + ys| - 1] == xs + ys[..|ys| - 1];
      LastInConcat(xs, ys[..|ys| - 1], axis, period);
    }
  }
}
