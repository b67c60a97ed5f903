/** The vocabulary of accounting events: outcomes, identities, priced spend and token facts. */
module Facts {
  import opened Common
  import opened Cells

  datatype Outcome = Success | Error | Cancelled | Unknown
  datatype Failure = Timeout | ProviderError | AuthError | RateLimit | Aborted | Protocol | UnknownFailure
  datatype Attribution = RelayHeld | CallerOperated | Unattributed
  datatype Role = Serve | Repair

  /**
   * A string the recording side admits. Only some of them are `loadable`: the load-time guard also
   * refuses control characters and unpaired surrogates.
   */
  datatype Label = Label(id: nat, loadable: bool)

  predicate LoadableOrNull(l: Option<Label>) {
    l.None? || l.value.loadable
  }

  /** `isFailureCoherent`: a success names no failure. */
  predicate Coherent(outcome: Outcome, failure: Option<Failure>) {
    outcome == Success ==> failure.None?
  }

  /** `safeFailure`: the failure a record may keep beside its outcome. */
  function SafeFailure(failure: Option<Failure>, outcome: Outcome): (r: Option<Failure>)
    ensures Coherent(outcome, r)
  {
    if outcome == Success then None else failure
  }

  // ---------------------------------------------------------------- priced spend

  datatype PriceCoverage = Full | InputOnly | PartlyPriced

  datatype SpendRecord = SpendRecord(
    amount: Counter, published: bool, reported: bool, coverage: PriceCoverage,
    cacheRead: Option<Counter>, cacheCreation: Option<Counter>, cachedInput: Option<Counter>,
    priceIn: Option<nat>, priceOut: Option<nat>, observedAt: int)

  function ChargeOf(s: SpendRecord): Charge {
    Charge(s.amount, s.observedAt)
  }

  // ---------------------------------------------------------------- token facts

  /**
   * The seven token kinds in folding order: reported input, output and cached input, cache
   * creation, cache read, estimated input, estimated output.
   */
  const KINDS: nat := 7

  const INPUT: nat := 0
  const OUTPUT: nat := 1
  const CACHED_INPUT: nat := 2
  const CACHE_CREATION: nat := 3
  const CACHE_READ: nat := 4
  const ESTIMATED_INPUT: nat := 5
  const ESTIMATED_OUTPUT: nat := 6

  const NO_FACT := Fact(None, 0)

  const EMPTY_CELLS: seq<TokenCell> := [
    EMPTY_TOKEN_CELL, EMPTY_TOKEN_CELL, EMPTY_TOKEN_CELL, EMPTY_TOKEN_CELL,
    EMPTY_TOKEN_CELL, EMPTY_TOKEN_CELL, EMPTY_TOKEN_CELL]

  type TokenFacts = s: seq<Fact> | |s| == KINDS witness [NO_FACT, NO_FACT, NO_FACT, NO_FACT, NO_FACT, NO_FACT, NO_FACT]
  type Tokens = s: seq<TokenCell> | |s| == KINDS witness EMPTY_CELLS

  const EMPTY_TOKENS: Tokens := EMPTY_CELLS

  predicate AreTokens(t: Tokens) {
    forall k :: 0 <= k < KINDS ==> IsTokenCell(t[k])
  }

  /** Cells that have each seen something: what a snapshot of one attempt always holds. */
  predicate AreSnapshots(t: Tokens) {
    AreTokens(t) && forall k :: 0 <= k < KINDS ==> t[k].known + t[k].unknown > 0
  }

  /** `tokenSnapshot`: each fact folded alone into its own cell. */
  function Snapshot(facts: TokenFacts): (t: Tokens)
    ensures AreSnapshots(t)
  {
    seq(KINDS, k requires 0 <= k < KINDS => AddRaw(EMPTY_TOKEN_CELL, facts[k]).0)
  }

  // ---------------------------------------------------------------- events

  /** `request-completed`. */
  datatype RequestEvent = RequestEvent(
    requestId: nat, endedAt: int, outcome: Outcome, failure: Option<Failure>, attribution: Attribution,
    attemptCount: nat, repairIncluded: bool, winningAttemptId: Option<nat>, commitAttemptId: Option<nat>,
    latencyMs: Option<Counter>, commitMs: Option<Counter>,
    provider: Option<Label>, model: Option<Label>, credentialId: Option<Label>,
    tokens: TokenFacts, spend: Option<SpendRecord>, abandonedSpend: seq<SpendRecord>)

  /** `attempt-completed` once it has passed `makeAttempt`: its tokens are already a snapshot. */
  datatype AttemptPacket = AttemptPacket(
    requestId: nat, attemptId: nat, role: Role, startedAt: int, endedAt: int,
    outcome: Outcome, failure: Option<Failure>, attribution: Attribution,
    latencyMs: Option<Counter>, commitMs: Option<Counter>,
    provider: Option<Label>, model: Option<Label>, credentialId: Option<Label>,
    tokens: Tokens, spend: Option<SpendRecord>)

  /** `isAttemptPacket`: the load-time guard of one stored attempt. */
  predicate IsAttemptPacket(p: AttemptPacket) {
    && p.startedAt <= p.endedAt
    && Coherent(p.outcome, p.failure)
    && LoadableOrNull(p.provider) && LoadableOrNull(p.model) && LoadableOrNull(p.credentialId)
    && AreTokens(p.tokens)
    && (p.commitMs.Some? ==> p.role == Serve)
  }
}
