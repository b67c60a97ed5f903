/**
 * One accounted request: attempts are started, at most one of them commits, each completes once,
 * and the request completes once, after all of them. Every refusal of the source (a thrown error)
 * is None here.
 */
module Requests {
  import opened Common
  import opened Cells
  import opened Facts

  /** What an attempt's completion adds to it. */
  datatype End = End(
    endedAt: int, outcome: Outcome, failure: Option<Failure>, latencyMs: Option<Counter>,
    tokens: TokenFacts, spend: Option<SpendRecord>, abandoned: bool)

  /** An attempt is named by its place in the request; its public id is drawn by the id factory. */
  datatype Attempt = Attempt(
    id: nat, role: Role, startedAt: int, attribution: Attribution,
    provider: Option<Label>, model: Option<Label>, credentialId: Option<Label>,
    commitMs: Option<Counter>, done: Option<End>)

  datatype Event =
    | RequestStarted
    | AttemptStarted(index: nat)
    | AttemptCompleted(index: nat, attempt: Attempt)
    | RequestCompleted(event: RequestEvent)

  /** `computeAccountingSpend` with the caller's price port. */
  type PricePort = (Option<Label>, Option<Label>, TokenFacts, int) -> Option<SpendRecord>

  datatype Request = Request(
    id: nat, startedAt: int, client: Option<Label>, attribution: Attribution, price: PricePort,
    attempts: seq<Attempt>, commit: Option<nat>, commitMs: Option<Counter>,
    completed: Option<RequestEvent>, events: seq<Event>)

  /** What a caller may claim about the winner: nothing, that there is none, or which one. */
  datatype WinnerClaim = Unclaimed | NoWinner | Claimed(id: nat)

  datatype Completion = Completion(
    outcome: Option<Outcome>, failure: Option<Failure>, attribution: Option<Attribution>, winner: WinnerClaim)

  /** `deriveLatency` as the ledger keeps it, and `deriveCommitMs`: null for a clock that ran back. */
  function Elapsed(from: int, to: int): Option<Counter> {
    if from <= to && to - from <= MAX then Some(to - from) else None
  }

  predicate AllDone(r: Request) {
    forall i :: 0 <= i < |r.attempts| ==> r.attempts[i].done.Some?
  }

  predicate WonServe(a: Attempt) {
    a.role == Serve && a.done.Some? && a.done.value.outcome == Success
  }

  // ---------------------------------------------------------------- the four operations

  /** `startAttempt`. */
  function StartAttempt(r: Request, a: Attempt): Option<Request> {
    if r.completed.Some? then None
    else Some(r.(attempts := r.attempts + [a.(commitMs := None, done := None)],
                 events := r.events + [AttemptStarted(|r.attempts|)]))
  }

  /** `markAttemptCommitted`: the first open serve attempt to commit, at a usable instant. */
  function MarkCommitted(r: Request, i: nat, at: int): (Request, bool)
    requires i < |r.attempts|
  {
    var a := r.attempts[i];
    if a.done.Some? || a.role != Serve || a.commitMs.Some? || r.commit.Some? then (r, false)
    else
      var ms := Elapsed(a.startedAt, at);
      if ms.None? then (r, false)
      else (r.(attempts := r.attempts[i := a.(commitMs := ms)], commit := Some(i), commitMs := ms), true)
  }

  /** `completeAttempt`: idempotent; refused after the request, or for a success that names a failure. */
  function CompleteAttempt(r: Request, i: nat, outcome: Outcome, failure: Option<Failure>, tokens: TokenFacts,
                           abandoned: bool, at: int): Option<Request>
    requires i < |r.attempts|
  {
    var a := r.attempts[i];
    if a.done.Some? then Some(r)
    else if r.completed.Some? || !Coherent(outcome, failure) then None
    else
      var b := a.(done := Some(End(at, outcome, failure, Elapsed(a.startedAt, at), tokens,
                                   r.price(a.provider, a.model, tokens, at), abandoned)));
      Some(r.(attempts := r.attempts[i := b], events := r.events + [AttemptCompleted(i, b)]))
  }

  /** The place of the attempt with this id. */
  function FindId(attempts: seq<Attempt>, id: nat): (r: Option<nat>)
    ensures r.Some? ==> r.value < |attempts| && attempts[r.value].id == id
    ensures r.None? ==> forall i :: 0 <= i < |attempts| ==> attempts[i].id != id
  {
    if |attempts| == 0 then None
    else
      var init := attempts[..|attempts| - 1];
      var r := FindId(init, id);
      if r.Some? then r else if attempts[|attempts| - 1].id == id then Some(|attempts| - 1) else None
  }

  /** The first successful serve, in the order the attempts started. */
  function FirstWon(attempts: seq<Attempt>): (r: Option<nat>)
    ensures r.Some? ==> r.value < |attempts| && WonServe(attempts[r.value])
    ensures r.None? <==> forall i :: 0 <= i < |attempts| ==> !WonServe(attempts[i])
    ensures r.Some? ==> forall i :: 0 <= i < r.value ==> !WonServe(attempts[i])
  {
    if |attempts| == 0 then None
    else
      var r := FirstWon(attempts[..|attempts| - 1]);
      if r.Some? then r else if WonServe(attempts[|attempts| - 1]) then Some(|attempts| - 1) else None
  }

  /** The commit wins; without one, the claimed attempt; without a claim, the first successful serve. */
  function Winner(r: Request, claim: WinnerClaim): Option<nat> {
    if r.commit.Some? then r.commit
    else match claim
      case Claimed(id) => FindId(r.attempts, id)
      case NoWinner => None
      case Unclaimed => FirstWon(r.attempts)
  }

  /** A claim is refused when it names no attempt, contradicts the commit, or did not win. */
  predicate ClaimOk(r: Request, claim: WinnerClaim) {
    claim.Claimed? ==>
      var i := FindId(r.attempts, claim.id);
      i.Some? && if r.commit.Some? then i == r.commit else WonServe(r.attempts[i.value])
  }

  predicate HasRepair(attempts: seq<Attempt>) {
    exists i :: 0 <= i < |attempts| && attempts[i].role == Repair
  }

  /** What each serve the relay abandoned had cost. */
  function AbandonedSpend(attempts: seq<Attempt>): seq<SpendRecord> {
    if |attempts| == 0 then []
    else
      var a := attempts[|attempts| - 1];
      AbandonedSpend(attempts[..|attempts| - 1])
      + if a.role == Serve && a.done.Some? && a.done.value.abandoned && a.done.value.spend.Some?
        then [a.done.value.spend.value] else []
  }

  function NoTokens(at: int): TokenFacts {
    seq(KINDS, _ => Fact(None, at))
  }

  /** The event of a completed request, once its winner and outcome are settled. */
  function TerminalEvent(r: Request, c: Completion, winner: Option<nat>, outcome: Outcome, at: int): RequestEvent
    requires AllDone(r) && (winner.Some? ==> winner.value < |r.attempts|)
             && (r.commit.Some? ==> r.commit.value < |r.attempts|)
  {
    var w := if winner.Some? then Some(r.attempts[winner.value]) else None;
    var tokens: TokenFacts := if w.Some? then w.value.done.value.tokens else NoTokens(at);
    var provider, model := if w.Some? then w.value.provider else None, if w.Some? then w.value.model else None;
    RequestEvent(
      r.id, at, outcome, c.failure,
      if w.Some? then w.value.attribution else OrElse(c.attribution, r.attribution),
      |r.attempts|, HasRepair(r.attempts),
      if w.Some? then Some(w.value.id) else None,
      if r.commit.Some? then Some(r.attempts[r.commit.value].id) else None,
      Elapsed(r.startedAt, at), r.commitMs,
      provider, model, if w.Some? then w.value.credentialId else None,
      tokens, r.price(provider, model, tokens, at), AbandonedSpend(r.attempts))
  }

  /** `complete`: idempotent; refused while an attempt is open or when the claims contradict the attempts. */
  function CompleteRequest(r: Request, c: Completion, at: int): Option<Request>
    requires r.commit.Some? ==> r.commit.value < |r.attempts|
  {
    if r.completed.Some? then Some(r)
    else if !AllDone(r) || !ClaimOk(r, c.winner) then None
    else
      var winner := Winner(r, c.winner);
      if winner.Some? && c.attribution.Some? && c.attribution.value != r.attempts[winner.value].attribution then None
      else
        var outcome := if c.outcome.Some? then c.outcome
                       else if winner.Some? then Some(r.attempts[winner.value].done.value.outcome) else None;
        if outcome.None? || !Coherent(outcome.value, c.failure) then None
        else if winner.Some? && outcome.value != Success
                && (winner != r.commit || r.attempts[winner.value].done.value.outcome != outcome.value) then None
        else if winner.None? && outcome.value == Success then None
        else
          var e := TerminalEvent(r, c, winner, outcome.value, at);
          Some(r.(completed := Some(e), events := r.events + [RequestCompleted(e)]))
  }

  // ---------------------------------------------------------------- what every run keeps

  predicate DistinctAttempts(attempts: seq<Attempt>) {
    forall i, j :: 0 <= i < j < |attempts| ==> attempts[i].id != attempts[j].id
  }

  /** At most one attempt is committed, it serves, and the request knows it. */
  predicate CommitKept(r: Request) {
    && r.commit.Some? == r.commitMs.Some?
    && (r.commit.Some? ==> r.commit.value < |r.attempts| && r.attempts[r.commit.value].role == Serve)
    && forall i :: 0 <= i < |r.attempts| ==> r.attempts[i].commitMs == if r.commit == Some(i) then r.commitMs else None
  }

  /** The order in which attempts completed. */
  function Completions(events: seq<Event>): seq<nat> {
    if |events| == 0 then []
    else
      var last := events[|events| - 1];
      Completions(events[..|events| - 1]) + if last.AttemptCompleted? then [last.index] else []
  }

  predicate Distinct(s: seq<nat>) {
    forall i, j :: 0 <= i < j < |s| ==> s[i] != s[j]
  }

  /** The terminal event is the last one ever, and each finished attempt was announced once, as it is. */
  predicate LogOk(r: Request) {
    && (forall k :: 0 <= k < |r.events| && r.events[k].RequestCompleted? ==>
          k == |r.events| - 1 && r.completed == Some(r.events[k].event))
    && (r.completed.Some? ==>
          |r.events| > 0 && r.events[|r.events| - 1] == RequestCompleted(r.completed.value) && AllDone(r))
    && (forall k :: 0 <= k < |r.events| && r.events[k].AttemptCompleted? ==>
          r.events[k].index < |r.attempts| && r.events[k].attempt == r.attempts[r.events[k].index]
          && r.attempts[r.events[k].index].done.Some?)
    && Distinct(Completions(r.events))
    && (forall i :: 0 <= i < |r.attempts| && r.attempts[i].done.Some? ==> i in Completions(r.events))
  }

  /** Attempts lie inside the request's interval so far, and inside their own. */
  predicate TimesOk(r: Request, now: int) {
    && r.startedAt <= now
    && forall i :: 0 <= i < |r.attempts| ==>
         && r.startedAt <= r.attempts[i].startedAt <= now
         && (r.attempts[i].done.Some? ==> r.attempts[i].startedAt <= r.attempts[i].done.value.endedAt <= now
                                          && Coherent(r.attempts[i].done.value.outcome,
                                                      r.attempts[i].done.value.failure))
  }

  predicate RequestOk(r: Request, now: int) {
    DistinctAttempts(r.attempts) && CommitKept(r) && LogOk(r) && TimesOk(r, now)
  }

  lemma {:induction false} CompletionsSound(events: seq<Event>, i: nat)
    ensures i in Completions(events)
            <==> exists k :: 0 <= k < |events| && events[k].AttemptCompleted? && events[k].index == i
  {
    if |events| > 0 {
      var init, last := events[..|events| - 1], events[|events| - 1];
      CompletionsSound(init, i);
      if exists k :: 0 <= k < |events| && events[k].AttemptCompleted? && events[k].index == i {
        var k :| 0 <= k < |events| && events[k].AttemptCompleted? && events[k].index == i;
        if k < |init| { assert init[k] == events[k]; }
      }
      if i in Completions(init) {
        var k :| 0 <= k < |init| && init[k].AttemptCompleted? && init[k].index == i;
        assert events[k] == init[k];
      }
    }
  }

  lemma CompletionsStep(events: seq<Event>, e: Event)
    ensures Completions(events + [e]) == Completions(events) + if e.AttemptCompleted? then [e.index] else []
  {
    assert (events + [e])[..|events|] == events;
  }

  lemma {:induction false} StartKeeps(r: Request, a: Attempt, now: int)
    requires RequestOk(r, a.startedAt) && a.startedAt <= now
             && (forall i :: 0 <= i < |r.attempts| ==> r.attempts[i].id != a.id)
    requires r.completed.None?
    ensures RequestOk(StartAttempt(r, a).value, now)
  {
    hide LogOk;
    StartLogged(r, a);
  }

  lemma {:induction false} StartLogged(r: Request, a: Attempt)
    requires LogOk(r) && r.completed.None?
    ensures LogOk(StartAttempt(r, a).value)
  {
    hide Completions, AllDone;
    CompletionsStep(r.events, AttemptStarted(|r.attempts|));
  }

  lemma {:induction false} CommitKeeps(r: Request, i: nat, now: int)
    requires RequestOk(r, now) && i < |r.attempts|
    ensures RequestOk(MarkCommitted(r, i, now).0, now)
    ensures MarkCommitted(r, i, now).1 ==> MarkCommitted(r, i, now).0.commit == Some(i)
    ensures !MarkCommitted(r, i, now).1 ==> MarkCommitted(r, i, now).0 == r
  {
    hide Completions;
  }

  lemma {:induction false} CompletionLogged(r: Request, i: nat, b: Attempt)
    requires LogOk(r) && i < |r.attempts| && r.attempts[i].done.None? && r.completed.None? && b.done.Some?
    ensures LogOk(r.(attempts := r.attempts[i := b], events := r.events + [AttemptCompleted(i, b)]))
  {
    hide Completions, AllDone;
    CompletionsSound(r.events, i);
    CompletionsStep(r.events, AttemptCompleted(i, b));
  }

  lemma {:induction false} CompleteAttemptKeeps(r: Request, i: nat, outcome: Outcome, failure: Option<Failure>,
                                                tokens: TokenFacts, abandoned: bool, now: int)
    requires RequestOk(r, now) && i < |r.attempts|
    ensures var s := CompleteAttempt(r, i, outcome, failure, tokens, abandoned, now);
            s.Some? ==> RequestOk(s.value, now)
  {
    hide LogOk;
    var s := CompleteAttempt(r, i, outcome, failure, tokens, abandoned, now);
    if s.Some? && r.attempts[i].done.None? {
      CompletionLogged(r, i, s.value.attempts[i]);
    }
  }

  /** Completing an attempt finishes it if it was open, and touches nothing else but the log. */
  lemma {:induction false} CompleteAttemptEffect(r: Request, i: nat, outcome: Outcome, failure: Option<Failure>,
                                                 tokens: TokenFacts, abandoned: bool, at: int)
    requires i < |r.attempts|
    ensures var s := CompleteAttempt(r, i, outcome, failure, tokens, abandoned, at);
            && (s.None? <==> r.attempts[i].done.None? && (r.completed.Some? || !Coherent(outcome, failure)))
            && (s.Some? ==>
                  && s.value == r.(attempts := s.value.attempts, events := s.value.events)
                  && |s.value.attempts| == |r.attempts|
                  && (forall j :: 0 <= j < |r.attempts| && j != i ==> s.value.attempts[j] == r.attempts[j])
                  && s.value.attempts[i] == r.attempts[i].(done := s.value.attempts[i].done)
                  && s.value.attempts[i].done.Some?
                  && (if r.attempts[i].done.Some? then s.value == r
                      else && s.value.attempts[i].done.value.outcome == outcome
                           && s.value.attempts[i].done.value.failure == failure))
  {
  }

  lemma {:induction false} TerminalKeeps(r: Request, e: RequestEvent, now: int)
    requires RequestOk(r, now) && AllDone(r) && r.completed.None?
    ensures RequestOk(r.(completed := Some(e), events := r.events + [RequestCompleted(e)]), now)
  {
    hide Completions;
    CompletionsStep(r.events, RequestCompleted(e));
  }

  lemma {:induction false} CompleteRequestKeeps(r: Request, c: Completion, now: int)
    requires RequestOk(r, now)
    ensures var s := CompleteRequest(r, c, now); s.Some? ==> RequestOk(s.value, now) && s.value.completed.Some?
  {
    hide DistinctAttempts, LogOk, TimesOk, TerminalEvent, FindId, FirstWon, WonServe;
    var s := CompleteRequest(r, c, now);
    if s.Some? && r.completed.None? {
      TerminalKeeps(r, s.value.completed.value, now);
    }
  }

  /** Completing a request adds the terminal event and touches nothing else. */
  lemma {:induction false} CompleteRequestEffect(r: Request, c: Completion, at: int)
    requires r.commit.Some? ==> r.commit.value < |r.attempts|
    ensures var s := CompleteRequest(r, c, at);
            && (r.completed.Some? ==> s == Some(r))
            && (s.Some? ==> s.value == r.(completed := s.value.completed,
                                          events := s.value.events) && s.value.completed.Some?)
  {
    hide TerminalEvent, FindId, FirstWon, WonServe;
  }

  // ---------------------------------------------------------------- the object

  class AccountingRequest {
    const id: nat
    const startedAt: int
    const client: Option<Label>
    const attribution: Attribution
    const price: PricePort
    var attempts: seq<Attempt>
    var commit: Option<nat>
    var commitMs: Option<Counter>
    var completed: Option<RequestEvent>
    var events: seq<Event>

    ghost function View(): Request reads this {
      Request(id, startedAt, client, attribution, price, attempts, commit, commitMs, completed, events)
    }

    constructor (id: nat, startedAt: int, client: Option<Label>, attribution: Attribution, price: PricePort)
      ensures View() == Request(id, startedAt, client, attribution, price, [], None, None, None, [RequestStarted])
      ensures RequestOk(View(), startedAt)
    {
      this.id, this.startedAt, this.client, this.attribution, this.price := id, startedAt, client, attribution, price;
      attempts, commit, commitMs, completed, events := [], None, None, None, [RequestStarted];
    }

    method Start(a: Attempt) returns (index: Option<nat>)
      modifies this
      ensures index.Some? <==> StartAttempt(old(View()), a).Some?
      ensures index.Some? <==> old(completed).None?
      ensures index.Some? ==> events == old(events) + [AttemptStarted(index.value)]
      ensures index.Some? ==> index.value == old(|attempts|) && View() == StartAttempt(old(View()), a).value
      ensures index.None? ==> View() == old(View())
    {
      if completed.Some? { return None; }
      attempts := attempts + [a.(commitMs := None, done := None)];
      events := events + [AttemptStarted(|attempts| - 1)];
      return Some(|attempts| - 1);
    }

    method Commit(i: nat, at: int) returns (first: bool)
      requires i < |attempts|
      modifies this
      ensures (View(), first) == MarkCommitted(old(View()), i, at)
    {
      var a := attempts[i];
      if a.done.Some? || a.role != Serve || a.commitMs.Some? || commit.Some? { return false; }
      var ms := Elapsed(a.startedAt, at);
      if ms.None? { return false; }
      attempts := attempts[i := a.(commitMs := ms)];
      commit, commitMs := Some(i), ms;
      return true;
    }

    method CompleteOne(i: nat, outcome: Outcome, failure: Option<Failure>, tokens: TokenFacts, abandoned: bool, at: int)
      returns (ok: bool)
      requires i < |attempts|
      modifies this
      ensures ok <==> CompleteAttempt(old(View()), i, outcome, failure, tokens, abandoned, at).Some?
      ensures View() == if ok then CompleteAttempt(old(View()), i, outcome, failure, tokens, abandoned, at).value
              else old(View())
    {
      var a := attempts[i];
      if a.done.Some? { return true; }
      if completed.Some? || !Coherent(outcome, failure) { return false; }
      var b := a.(done := Some(End(at, outcome, failure, Elapsed(a.startedAt, at), tokens,
                                   price(a.provider, a.model, tokens, at), abandoned)));
      attempts := attempts[i := b];
      events := events + [AttemptCompleted(i, b)];
      return true;
    }

    /** Whether some attempt is still open, by the loop of `complete`. */
    method Open() returns (open: bool)
      ensures open <==> !AllDone(View())
    {
      var i := 0;
      while i < |attempts| && attempts[i].done.Some?
        invariant 0 <= i <= |attempts| && forall j :: 0 <= j < i ==> attempts[j].done.Some?
      {
        i := i + 1;
      }
      open := i < |attempts|;
    }

    method Complete(c: Completion, at: int) returns (ok: bool)
      requires commit.Some? ==> commit.value < |attempts|
      modifies this
      ensures ok <==> CompleteRequest(old(View()), c, at).Some?
      ensures View() == if ok then CompleteRequest(old(View()), c, at).value else old(View())
    {
      hide FindId, FirstWon, AbandonedSpend, HasRepair;
      if completed.Some? { return true; }
      var open := Open();
      var r := Request(id, startedAt, client, attribution, price, attempts, commit, commitMs, completed, events);
      if open || !ClaimOk(r, c.winner) { return false; }
      var winner := Winner(r, c.winner);
      if winner.Some? && c.attribution.Some?
        && c.attribution.value != attempts[winner.value].attribution { return false; }
      var outcome := c.outcome;
      if outcome.None? && winner.Some? { outcome := Some(attempts[winner.value].done.value.outcome); }
      if outcome.None? || !Coherent(outcome.value, c.failure) { return false; }
      if winner.Some? && outcome.value != Success
         && (winner != commit || attempts[winner.value].done.value.outcome != outcome.value) { return false; }
      if winner.None? && outcome.value == Success { return false; }
      var e := TerminalEvent(r, c, winner, outcome.value, at);
      completed, events := Some(e), events + [RequestCompleted(e)];
      return true;
    }
  }
}
