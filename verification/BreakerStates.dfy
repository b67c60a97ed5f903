/** All cells of a breaker by key, and what one finished attempt does to them. */
module BreakerStates {
  import opened Common
  import opened BreakerCells

  /** Cells in the order in which they were created. */
  datatype Cells = Cells(at: map<string, Cell>, order: seq<string>)

  const NO_CELLS := Cells(map[], [])

  /** The cell key: one credential, and one of its models unless the target names none. */
  function KeyOf(t: Target): string {
    if t.model.None? then t.credentialId else t.credentialId + "/" + t.model.value
  }

  predicate CellsOk(s: Cells) {
    && (forall i, j :: 0 <= i < j < |s.order| ==> s.order[i] != s.order[j])
    && (forall k :: k in s.order ==> k in s.at) && (forall k :: k in s.at ==> k in s.order)
    && forall k :: k in s.at ==> KeyOf(s.at[k].target) == k
  }

  function Get(s: Cells, t: Target): Cell {
    if KeyOf(t) in s.at then s.at[KeyOf(t)] else FreshCell(t)
  }

  function Put(s: Cells, k: string, c: Cell): Cells {
    Cells(s.at[k := c], if k in s.at then s.order else s.order + [k])
  }

  lemma PutOk(s: Cells, c: Cell)
    requires CellsOk(s)
    ensures CellsOk(Put(s, KeyOf(c.target), c))
  {
  }

  /** Events that reach the cell of a target, which is created by the first of them. */
  function Apply(s: Cells, t: Target, es: seq<Event>): Cells {
    if |es| == 0 then s else Put(s, KeyOf(t), Run(Get(s, t), es))
  }

  lemma {:induction false} StepKeepsTarget(c: Cell, es: seq<Event>)
    ensures Run(c, es).target == c.target
  {
    if |es| > 0 {
      StepKeepsTarget(c, es[..|es| - 1]);
      hide RungFor, MergeQuotas;
    }
  }

  lemma ApplyOk(s: Cells, t: Target, es: seq<Event>)
    requires CellsOk(s)
    ensures CellsOk(Apply(s, t, es))
    ensures |es| == 0 ==> Apply(s, t, es) == s
    ensures forall k :: k != KeyOf(t) ==> (k in s.at <==> k in Apply(s, t, es).at)
    ensures forall k :: k != KeyOf(t) && k in s.at ==> Apply(s, t, es).at[k] == s.at[k]
  {
    StepKeepsTarget(Get(s, t), es);
    hide Run;
    if |es| > 0 { PutOk(s, Run(Get(s, t), es)); }
  }

  // ---------------------------------------------------------------- what an attempt's end teaches

  datatype Cause = GoneBeforeResponse | GoneMidResponse | RelayAbandoned
  datatype Provenance = Upstream | InvalidEnvelope | Deadline | ClientCancellation | MapperDefect

  datatype Ending =
    | CancelledWith(cause: Cause)
    | SucceededWith(provenance: Provenance, answered: int)
    | FailedWith(provenance: Provenance, status: Option<int>, retryAfter: Option<int>)

  datatype AttemptOutcome = AttemptOutcome(target: Target, ending: Ending, elapsed: Option<int>, at: int)

  /** Headers seen before the end. */
  datatype Observation = Observation(quotas: seq<QuotaFact>, retryAfter: Option<int>)

  /** A 4xx that says nothing about the deployment's health. */
  predicate CallersFault(status: Option<int>) {
    status.Some? && 400 <= status.value < 500 && status.value !in {400, 402, 404, 429}
  }

  /**
   * `applyTerminalOutcome`: what reaches the cell of the target the attempt was begun for. A relay defect and
   * an interrupted answer do not.
   */
  function EventsOf(target: Target, o: AttemptOutcome, seen: Option<Observation>): seq<Event> {
    var here := OnThisMachine(target);
    match o.ending
    case CancelledWith(cause) =>
      if cause == GoneBeforeResponse && o.elapsed.Some? && o.elapsed.value > CANCELLATION_EVIDENCE_MS
      then [Health(Outcome(false, None, o.elapsed, o.at, None, here))] else []
    case SucceededWith(provenance, answered) =>
      QuotaEvents(seen)
      + if provenance == MapperDefect then [] else [Health(Outcome(true, Some(answered), o.elapsed, o.at, None, here))]
    case FailedWith(provenance, status, retryAfter) =>
      QuotaEvents(seen)
      + if provenance == MapperDefect then []
        else if status == Some(401) || status == Some(403) then [Fault(status.value, o.at)]
        else if CallersFault(status) then []
        else
          var stated := if retryAfter.Some? then retryAfter else if seen.Some? then seen.value.retryAfter else None;
          [Health(Outcome(false, status, o.elapsed, o.at, stated, here))]
  }

  function QuotaEvents(seen: Option<Observation>): seq<Event> {
    if seen.Some? && |seen.value.quotas| > 0 then [Quotas(seen.value.quotas)] else []
  }

  /**
   * A cancellation charges a cell exactly when the caller waited longer than the evidence floor
   * for an answer that never began; and then, if it trips the cell, the cell cools for as long as
   * the caller had waited, up to the ceiling.
   */
  lemma CancellationCharges(target: Target, o: AttemptOutcome, seen: Option<Observation>, c: Cell)
    requires o.ending.CancelledWith? && CellOk(c)
    ensures |EventsOf(target, o, seen)| > 0
            <==> o.ending.cause == GoneBeforeResponse && o.elapsed.Some? && o.elapsed.value > DEFAULT_COOLDOWN_MS
    ensures |EventsOf(target, o, seen)| > 0 && c.consecutiveFailures == 1 ==>
              var d := Run(c, EventsOf(target, o, seen));
              d.source == Some(ElapsedTime) && d.cooldownUntil == o.at + Min(o.elapsed.value, MAX_RETRY_AFTER_MS)
  {
    if |EventsOf(target, o, seen)| > 0 {
      var e := EventsOf(target, o, seen)[0];
      assert EventsOf(target, o, seen)[..0] == [];
      assert Run(c, EventsOf(target, o, seen)) == Step(Run(c, []), e);
    }
  }

  /** The pause the headers asked for, if any were seen. */
  function HeaderPause(seen: Option<Observation>): Option<int> {
    match seen
    case Some(o) => o.retryAfter
    case None => None
  }

  /**
   * What the end of an attempt teaches its cell, event by event. A success and a failure are charged
   * as they are, unless the relay's own mapper is at fault; a refused credential is a fault of the
   * credential; any other 4xx but 400, 402, 404 and 429 is the caller's and teaches nothing.
   */
  lemma EndingTeaches(target: Target, o: AttemptOutcome, seen: Option<Observation>)
    ensures forall h: Outcome :: Health(h) in EventsOf(target, o, seen) <==>
              && h.elapsed == o.elapsed && h.at == o.at && h.loopback == OnThisMachine(target)
              && match o.ending
                 case CancelledWith(cause) =>
                   && cause == GoneBeforeResponse && h.elapsed.Some? && h.elapsed.value > 60_000
                   && !h.ok && h.status.None? && h.retryAfter.None?
                 case SucceededWith(origin, answered) =>
                   origin != MapperDefect && h.ok && h.status == Some(answered) && h.retryAfter.None?
                 case FailedWith(origin, status, pause) =>
                   && origin != MapperDefect && !h.ok && h.status == status
                   && (status.None? || status.value < 400 || status.value > 499 || status.value in {400, 402, 404, 429})
                   && h.retryAfter == if pause.Some? then pause else HeaderPause(seen)
    ensures forall s, at :: Fault(s, at) in EventsOf(target, o, seen) <==>
              && o.ending.FailedWith? && o.ending.provenance != MapperDefect && o.ending.status == Some(s)
              && (s == 401 || s == 403) && at == o.at
    ensures forall facts :: Quotas(facts) in EventsOf(target, o, seen) <==>
              !o.ending.CancelledWith? && seen.Some? && facts == seen.value.quotas && |facts| > 0
    ensures forall i :: 0 <= i < |EventsOf(target, o, seen)| ==>
              EventsOf(target, o, seen)[i].Health? || EventsOf(target, o, seen)[i].Fault?
              || (i == 0 && EventsOf(target, o, seen)[i].Quotas?)
    ensures |EventsOf(target, o, seen)| <= 2
  {
  }

  // ---------------------------------------------------------------- clearing a selection

  datatype Selector = Selector(provider: string, model: Option<string>, credentialId: Option<string>)

  /** `matchesClearSelector`. */
  predicate Matches(t: Target, s: Selector) {
    && t.provider == s.provider && (s.model.None? || t.model == s.model)
    && (s.credentialId.None? || t.credentialId == s.credentialId.value)
  }

  /**
   * A selector that names everything selects one cell; leaving out the credential selects those of all
   * credentials, leaving out the model those of all models and the one without a model.
   */
  lemma SelectorsWiden(t: Target, provider: string, model: string, credentialId: string)
    ensures Matches(t, Selector(provider, Some(model), Some(credentialId)))
            <==> t.provider == provider && t.model == Some(model) && t.credentialId == credentialId
    ensures Matches(t, Selector(provider, Some(model), None))
            <==> exists c :: Matches(t, Selector(provider, Some(model), Some(c)))
    ensures Matches(t, Selector(provider, None, Some(credentialId)))
            <==> || (exists m :: Matches(t, Selector(provider, Some(m), Some(credentialId))))
                 || (t.provider == provider && t.model.None? && t.credentialId == credentialId)
    ensures Matches(t, Selector(provider, None, None)) <==> exists c :: Matches(t, Selector(provider, None, Some(c)))
  {
    assert Matches(t, Selector(t.provider, None, Some(t.credentialId)));
    assert Matches(t, Selector(t.provider, t.model, Some(t.credentialId)));
  }

  const CLEARING: seq<Event> := [ClearCooldown, ClearFault]

  /** Every selected cell stops cooling and drops its fault; its history stays. */
  function Cleared(s: Cells, sel: Selector): Cells {
    s.(at := map k | k in s.at :: if Matches(s.at[k].target, sel) then Run(s.at[k], CLEARING) else s.at[k])
  }

  lemma ClearedAt(s: Cells, sel: Selector, k: string)
    requires k in s.at
    ensures Cleared(s, sel).at.Keys == s.at.Keys && Cleared(s, sel).order == s.order
    ensures Cleared(s, sel).at[k] == if Matches(s.at[k].target, sel) then Run(s.at[k], CLEARING) else s.at[k]
  {
    hide Run, Matches;
  }

  lemma ClearedOk(s: Cells, sel: Selector)
    requires CellsOk(s)
    ensures CellsOk(Cleared(s, sel))
  {
    forall k | k in s.at ensures Run(s.at[k], CLEARING).target == s.at[k].target {
      StepKeepsTarget(s.at[k], CLEARING);
    }
    hide Run;
  }

  /** What clearing leaves of a cell: its failures, its pings and its quotas, and nothing that demotes it. */
  lemma ClearingMeans(c: Cell, now: int)
    requires now >= 0
    ensures var d := Run(c, CLEARING);
            && d.cooldownUntil <= now && d.credentialFaultUntil <= now && d.source.None? && d.unexplained429s == 0
            && d.pings == c.pings && d.quotas == c.quotas && d.consecutiveFailures == c.consecutiveFailures
  {
    assert CLEARING[..1] == [ClearCooldown] && CLEARING[..1][..0] == [];
    assert Run(c, []) == c;
    assert Run(c, CLEARING[..1]) == CooldownCleared(c);
    assert Run(c, CLEARING) == FaultCleared(CooldownCleared(c));
  }
}
