/**
 * What a recorded request says about its own attempts: its measurements, its winner's identity and
 * tokens, the price of those tokens, and what the serves the relay abandoned had cost.
 */
module TerminalEvents {
  import opened Common
  import opened Cells
  import opened Facts
  import opened Requests
  import opened Trackers
  import opened TrackerRuns
  import opened LifecyclePackets

  // ---------------------------------------------------------------- read off the attempts

  /** How long something took; nothing when the clock ran back or the span is no safe integer. */
  predicate Took(from: int, to: int, ms: Option<Counter>) {
    if from <= to <= from + MAX then ms == Some(to - from) else ms.None?
  }

  predicate Served(a: Attempt) {
    a.role == Serve && a.done.Some? && a.done.value.outcome == Success
  }

  /** The committed attempt wins; without one, the first serve that succeeded. */
  predicate Won(attempts: seq<Attempt>, i: nat) {
    && i < |attempts|
    && (attempts[i].commitMs.Some?
        || ((forall j :: 0 <= j < |attempts| ==> attempts[j].commitMs.None?)
            && Served(attempts[i]) && forall j :: 0 <= j < i ==> !Served(attempts[j])))
  }

  /** The two measurements of a request, and what it counts. */
  predicate Measured(r: Request, e: RequestEvent) {
    && Took(r.startedAt, e.endedAt, e.latencyMs)
    && (forall i :: 0 <= i < |r.attempts| && r.attempts[i].commitMs.Some? ==>
          e.commitMs == r.attempts[i].commitMs && e.commitAttemptId == Some(r.attempts[i].id))
    && ((forall i :: 0 <= i < |r.attempts| ==> r.attempts[i].commitMs.None?) ==>
          e.commitMs.None? && e.commitAttemptId.None?)
    && e.requestId == r.id && e.attemptCount == |r.attempts|
    && (e.repairIncluded <==> exists i :: 0 <= i < |r.attempts| && r.attempts[i].role == Repair)
  }

  /** The event carries the winner's name, identity, outcome and tokens. */
  predicate CarriesWinner(e: RequestEvent, a: Attempt) {
    && a.done.Some? && e.winningAttemptId == Some(a.id) && e.outcome == a.done.value.outcome
    && e.attribution == a.attribution && e.provider == a.provider && e.model == a.model
    && e.credentialId == a.credentialId && e.tokens == a.done.value.tokens
  }

  /** Without a winner the event names no one and reports nothing. */
  predicate CarriesNothing(e: RequestEvent) {
    && e.winningAttemptId.None? && e.outcome != Success
    && e.provider.None? && e.model.None? && e.credentialId.None?
    && forall k :: 0 <= k < KINDS ==> e.tokens[k] == Fact(None, e.endedAt)
  }

  ghost predicate Credited(r: Request, e: RequestEvent) {
    && (forall i: nat :: Won(r.attempts, i) ==> CarriesWinner(e, r.attempts[i]))
    && ((forall i: nat :: !Won(r.attempts, i)) ==> CarriesNothing(e))
    && e.spend == r.price(e.provider, e.model, e.tokens, e.endedAt)
  }

  /** A serve the relay gave up on, with a price of its own. */
  predicate GivenUp(a: Attempt) {
    a.role == Serve && a.done.Some? && a.done.value.abandoned && a.done.value.spend.Some?
  }

  /** Exactly the places of the attempts given up on, in the order the attempts started. */
  ghost predicate AreGivenUp(attempts: seq<Attempt>, places: seq<nat>) {
    && (forall k :: 0 <= k < |places| ==> places[k] < |attempts| && GivenUp(attempts[places[k]]))
    && (forall j, k :: 0 <= j < k < |places| ==> places[j] < places[k])
    && (forall i :: 0 <= i < |attempts| && GivenUp(attempts[i]) ==> i in places)
  }

  /** The spends are those of exactly these attempts, one each, in that order. */
  ghost predicate Abandons(attempts: seq<Attempt>, spends: seq<SpendRecord>) {
    exists places: seq<nat> ::
      && AreGivenUp(attempts, places) && |spends| == |places|
      && forall k :: 0 <= k < |places| ==> spends[k] == attempts[places[k]].done.value.spend.value
  }

  /** The event is what the attempts of the request make it. */
  ghost predicate Accounts(r: Request, e: RequestEvent) {
    AllDone(r) && Measured(r, e) && Credited(r, e) && Abandons(r.attempts, e.abandonedSpend)
  }

  // ---------------------------------------------------------------- every recorded event accounts for its attempts

  lemma {:induction false} GivenUpGrows(attempts: seq<Attempt>, a: Attempt, places: seq<nat>)
    requires AreGivenUp(attempts, places)
    ensures AreGivenUp(attempts + [a], places + if GivenUp(a) then [|attempts|] else [])
  {
    hide GivenUp;
    var all, now := attempts + [a], places + if GivenUp(a) then [|attempts|] else [];
    forall i | 0 <= i < |all| && GivenUp(all[i]) ensures i in now {
      if i < |attempts| { assert i in places; }
    }
  }

  lemma {:induction false} AbandonedAre(attempts: seq<Attempt>) returns (places: seq<nat>)
    ensures AreGivenUp(attempts, places) && |AbandonedSpend(attempts)| == |places|
    ensures forall k :: 0 <= k < |places| ==>
              AbandonedSpend(attempts)[k] == attempts[places[k]].done.value.spend.value
  {
    if |attempts| == 0 {
      places := [];
    } else {
      var init, a := attempts[..|attempts| - 1], attempts[|attempts| - 1];
      places := AbandonedAre(init);
      GivenUpGrows(init, a, places);
      assert init + [a] == attempts;
      places := places + if GivenUp(a) then [|init|] else [];
    }
  }

  lemma {:induction false} WinnerIs(r: Request, i: nat)
    requires CommitKept(r)
    ensures Won(r.attempts, i) <==> Winner(r, Unclaimed) == Some(i)
  {
    hide FirstWon;
    var w := Winner(r, Unclaimed);
    assert w.Some? ==> w.value < |r.attempts|;
    assert r.commit.None? && w.Some? ==> Served(r.attempts[w.value]);
    assert r.commit.None? && w.Some? && i < w.value ==> !Served(r.attempts[i]);
    assert r.commit.None? && w.None? && i < |r.attempts| ==> !Served(r.attempts[i]);
    assert r.commit.Some? ==> r.attempts[r.commit.value].commitMs.Some?;
  }

  lemma {:induction false} EventMeasured(r: Request, e: RequestEvent)
    requires EventOk(r) && CommitKept(r) && r.completed == Some(e)
    ensures AllDone(r) && Measured(r, e)
  {
    hide FirstWon, FindId, AbandonedSpend, TimesOk, NoTokens;
  }

  lemma {:induction false} EventCredited(r: Request, e: RequestEvent)
    requires EventOk(r) && CommitKept(r) && r.completed == Some(e)
    ensures Credited(r, e)
  {
    hide FirstWon, FindId, AbandonedSpend, TimesOk, HasRepair, Won;
    var w := Winner(r, Unclaimed);
    forall i: nat ensures Won(r.attempts, i) <==> w == Some(i) {
      WinnerIs(r, i);
    }
    if w.None? { assert CarriesNothing(e); }
  }

  lemma {:induction false} EventAccounts(r: Request, e: RequestEvent)
    requires EventOk(r) && CommitKept(r) && r.completed == Some(e)
    ensures Accounts(r, e)
  {
    EventMeasured(r, e);
    EventCredited(r, e);
    var places := AbandonedAre(r.attempts);
    assert e.abandonedSpend == AbandonedSpend(r.attempts);
    hide Measured, Credited, AbandonedSpend, EventOk;
  }

  /** What a request is given at its start stays. */
  ghost predicate SameStart(a: Request, b: Request) {
    a.id == b.id && a.startedAt == b.startedAt && a.client == b.client && a.attribution == b.attribution
    && a.price == b.price
  }

  lemma {:induction false} CloseAllSame(t: Tracker, left: seq<nat>, at: int)
    requires Within(left, |t.request.attempts|)
    ensures SameStart(CloseAll(t, left, at).request, t.request)
    decreases |left|
  {
    hide Closed;
    if |left| > 0 {
      ClosedEffect(t, left[0], Error, Some(UnknownFailure), NO_USAGE, false, at);
      CloseAllSame(Abandoned(t, left[0], at), left[1..], at);
    }
  }

  lemma {:induction false} FinalizedSame(t: Tracker, at: int)
    requires TrackerOk(t, at)
    ensures SameStart(Finalized(t, at).request, t.request)
  {
    hide TrackerOk, CloseAll, CompleteRequest, Verdict;
    if Ready(t) {
      HeadOpen(t, at);
      ClosedAllOk(t, t.active, at);
      CloseAllSame(t, t.active, at);
      CompleteRequestEffect(CloseAll(t, t.active, at).request, Verdict(CloseAll(t, t.active, at)), at);
    }
  }

  lemma {:induction false} StepSame(t: Tracker, s: Step, at: int)
    requires TrackerOk(t, at)
    ensures SameStart(Apply(t, s, at).request, t.request)
  {
    hide TrackerOk, Closed, Finalized;
    match s
    case Begin(a) =>
    case Commit(i) =>
    case Complete(i, outcome, failure, usage, abandoned) =>
      if i < |t.request.attempts| {
        ClosedOk(t, i, outcome, failure, usage, abandoned, at);
        ClosedEffect(t, i, outcome, failure, usage, abandoned, at);
        FinalizedSame(Closed(t, i, outcome, failure, usage, abandoned, at), at);
      }
    case Finish =>
      EndedOk(t, Finished, at);
      FinalizedSame(Ended(t, Finished), at);
    case Shut(w) =>
      EndedOk(t, if w then Finished else CutOff, at);
      FinalizedSame(Ended(t, if w then Finished else CutOff), at);
  }

  lemma {:induction false} RunSame(t: Tracker, from: int, moves: seq<Move>)
    requires TrackerOk(t, from) && Timed(from, moves)
    ensures SameStart(Run(t, from, moves).request, t.request)
    decreases |moves|
  {
    hide TrackerOk, Apply;
    if |moves| > 0 {
      var init, last := moves[..|moves| - 1], moves[|moves| - 1];
      TimedPrefix(from, moves);
      RunSame(t, from, init);
      TrackerLater(Run(t, from, init), Clock(from, init), last.at);
      StepSame(Run(t, from, init), last.step, last.at);
    }
  }

  lemma CommitKeptOf(r: Request, now: int)
    requires RequestOk(r, now)
    ensures CommitKept(r)
  {
  }

  /** Whatever a run records about a request, the recorded event accounts for the request's attempts. */
  lemma {:induction false} EveryEventAccounts(id: nat, startedAt: int, client: Option<Label>, price: PricePort,
                                              estimate: Counter, moves: seq<Move>)
    requires Timed(startedAt, moves)
    ensures var r := Run(Fresh(id, startedAt, client, price, estimate), startedAt, moves).request;
            r.completed.Some? ==>
              Accounts(r, r.completed.value) && r.id == id && r.startedAt == startedAt && r.price == price
  {
    hide Run, EventOk, Accounts, CommitKept, LogOk, TimesOk, DistinctAttempts, TrackerOk;
    var t := Fresh(id, startedAt, client, price, estimate);
    assert EventOk(t.request) by { UnrecordedIsOk(t.request); }
    RunKeepsEvent(t, startedAt, moves);
    RunSame(t, startedAt, moves);
    var u := Run(t, startedAt, moves);
    RequestOfTracker(u, Clock(startedAt, moves));
    CommitKeptOf(u.request, Clock(startedAt, moves));
    if u.request.completed.Some? { EventAccounts(u.request, u.request.completed.value); }
  }

  // ---------------------------------------------------------------- where the attempts' own records come from

  /** Each figure of a usage is the fact of its own token kind; the estimates count only above zero. */
  predicate Figures(tokens: TokenFacts, u: Usage, estimate: Counter, withOutput: bool, at: int) {
    && tokens[INPUT] == Fact(u.input, at) && tokens[OUTPUT] == Fact(u.output, at)
    && tokens[CACHED_INPUT] == Fact(u.cachedInput, at)
    && tokens[CACHE_CREATION] == Fact(u.cacheCreation, at) && tokens[CACHE_READ] == Fact(u.cacheRead, at)
    && tokens[ESTIMATED_INPUT] == Fact(if estimate > 0 then Some(estimate) else None, at)
    && tokens[ESTIMATED_OUTPUT]
       == Fact(if withOutput && u.estimatedOutput.Some? && u.estimatedOutput.value > 0 then u.estimatedOutput else None,
               at)
  }

  /** What the completion of an attempt records: its own time, figures and price. */
  predicate Records(a: Attempt, price: PricePort, estimate: Counter, counted: bool, c: Step, at: int, d: End)
    requires c.Complete?
  {
    && d.endedAt == at && Took(a.startedAt, at, d.latencyMs)
    && d.outcome == c.outcome && d.failure == c.failure && d.abandoned == c.abandoned
    && Figures(d.tokens, c.usage, if a.role == Serve then estimate else 0, a.role == Repair || counted, at)
    && d.spend == price(a.provider, a.model, d.tokens, at)
  }

  /** The completion the tracker itself makes of an attempt a finished response left open. */
  function LeftOpen(i: nat): Step {
    Complete(i, Error, Some(UnknownFailure), NO_USAGE, false)
  }

  lemma {:induction false} ClosedRecords(t: Tracker, i: nat, outcome: Outcome, failure: Option<Failure>, usage: Usage,
                                         abandoned: bool, at: int)
    requires i < |t.request.attempts|
    ensures var (a, b) := (t.request.attempts[i],
                           Closed(t, i, outcome, failure, usage, abandoned, at).request.attempts[i]);
            && (b.done.Some? <==> a.done.Some? || (t.request.completed.None? && Coherent(outcome, failure)))
            && (a.done.None? && b.done.Some? ==>
                  Records(a, t.request.price, t.estimate, i in t.committed,
                          Complete(i, outcome, failure, usage, abandoned), at, b.done.value))
  {
  }

  lemma {:induction false} CloseAllRecords(t: Tracker, left: seq<nat>, i: nat, at: int)
    requires Within(left, |t.request.attempts|) && i < |t.request.attempts| && t.request.completed.None?
    ensures var (a, b) := (t.request.attempts[i], CloseAll(t, left, at).request.attempts[i]);
            && b == a.(done := b.done) && (a.done.Some? ==> b.done == a.done)
            && (a.done.None? && b.done.Some? ==>
                  Records(a, t.request.price, t.estimate, i in t.committed, LeftOpen(i), at, b.done.value))
            && (i !in left ==> b == a)
    decreases |left|
  {
    hide Closed, Records;
    if |left| > 0 {
      ClosedEffect(t, left[0], Error, Some(UnknownFailure), NO_USAGE, false, at);
      ClosedRecords(t, left[0], Error, Some(UnknownFailure), NO_USAGE, false, at);
      ClosedEstimate(t, left[0], Error, Some(UnknownFailure), NO_USAGE, false, at);
      CloseAllRecords(Abandoned(t, left[0], at), left[1..], i, at);
    }
  }

  lemma ClosedEstimate(t: Tracker, i: nat, outcome: Outcome, failure: Option<Failure>, usage: Usage, abandoned: bool,
                       at: int)
    requires i < |t.request.attempts|
    ensures Closed(t, i, outcome, failure, usage, abandoned, at).estimate == t.estimate
  {
  }

  /** Finalizing closes what is active, and writes on no attempt otherwise. */
  lemma {:induction false} FinalizedRecords(t: Tracker, i: nat, at: int)
    requires TrackerOk(t, at) && i < |t.request.attempts|
    ensures |Finalized(t, at).request.attempts| == |t.request.attempts|
    ensures var (a, b) := (t.request.attempts[i], Finalized(t, at).request.attempts[i]);
            && b == a.(done := b.done) && (a.done.Some? ==> b.done == a.done)
            && (b.done != a.done ==>
                  && Ready(t) && i in t.active && b.done.Some?
                  && Records(a, t.request.price, t.estimate, i in t.committed, LeftOpen(i), at, b.done.value))
  {
    hide TrackerOk, CloseAll, CompleteRequest, Verdict, Records;
    if Ready(t) {
      Unfinished(t, at);
      HeadOpen(t, at);
      ClosedAllOk(t, t.active, at);
      CloseAllRecords(t, t.active, i, at);
      var u := CloseAll(t, t.active, at);
      CompleteRequestEffect(u.request, Verdict(u), at);
    }
  }

  /** What one step does to an attempt that was there. */
  ghost predicate Moves(t: Tracker, s: Step, at: int, i: nat, b: Attempt)
    requires i < |t.request.attempts|
  {
    var a := t.request.attempts[i];
    && b == a.(commitMs := b.commitMs, done := b.done)
    && (a.commitMs.Some? ==> b.commitMs == a.commitMs) && (a.done.Some? ==> b.done == a.done)
    && (a.commitMs.None? && b.commitMs.Some? <==>
          && s == Commit(i) && a.role == Serve && a.done.None? && a.startedAt <= at <= a.startedAt + MAX
          && forall j :: 0 <= j < |t.request.attempts| ==> t.request.attempts[j].commitMs.None?)
    && (a.commitMs.None? && b.commitMs.Some? ==> b.commitMs.value == at - a.startedAt)
    && (s.Complete? && s.index == i && a.done.None? ==>
          (b.done.Some? <==> t.request.completed.None? && Coherent(s.outcome, s.failure)))
    && (a.done.None? && b.done.Some? ==>
          if s.Complete? && s.index == i
          then Records(a, t.request.price, t.estimate, i in t.committed, s, at, b.done.value)
          else && i in t.active && (s.Complete? || s.Finish? || s.Shut?)
               && Records(a, t.request.price, t.estimate, i in t.committed, LeftOpen(i), at, b.done.value))
  }

  /** The first serve attempt to commit does, while it is open and at a usable instant. */
  lemma {:induction false} MarkMoves(r: Request, j: nat, at: int, i: nat)
    requires CommitKept(r) && i < |r.attempts| && j < |r.attempts|
    ensures var (a, b) := (r.attempts[i], MarkCommitted(r, j, at).0.attempts[i]);
            && |MarkCommitted(r, j, at).0.attempts| == |r.attempts|
            && (!MarkCommitted(r, j, at).1 ==> MarkCommitted(r, j, at).0 == r)
            && b == a.(commitMs := b.commitMs) && (a.commitMs.Some? ==> b.commitMs == a.commitMs)
            && (a.commitMs.None? && b.commitMs.Some? <==>
                  && i == j && a.role == Serve && a.done.None? && a.startedAt <= at <= a.startedAt + MAX
                  && forall k :: 0 <= k < |r.attempts| ==> r.attempts[k].commitMs.None?)
            && (a.commitMs.None? && b.commitMs.Some? ==> b.commitMs.value == at - a.startedAt)
  {
    if r.commit.Some? { assert r.attempts[r.commit.value].commitMs.Some?; }
  }

  lemma {:induction false} StepMoves(t: Tracker, s: Step, at: int, i: nat)
    requires TrackerOk(t, at) && i < |t.request.attempts|
    ensures var after := Apply(t, s, at).request.attempts; i < |after| && Moves(t, s, at, i, after[i])
  {
    hide Moves, TrackerOk, Finalized, CommitMarked, Closed, Begun;
    match s
    case Begin(a) => BeginMoves(t, a, at, i);
    case Commit(j) => CommitMoves(t, j, at, i);
    case Complete(j, outcome, failure, usage, abandoned) =>
      if j < |t.request.attempts| { CompleteMoves(t, s, at, i); } else { IdleMoves(t, s, at, i); }
    case Finish =>
      EndedOk(t, Finished, at);
      EndMoves(t, Finish, Finished, at, i);
    case Shut(w) =>
      EndedOk(t, if w then Finished else CutOff, at);
      EndMoves(t, s, if w then Finished else CutOff, at, i);
  }

  lemma BeginMoves(t: Tracker, a: Attempt, at: int, i: nat)
    requires TrackerOk(t, at) && i < |t.request.attempts|
    ensures var after := Apply(t, Begin(a), at).request.attempts; i < |after| && Moves(t, Begin(a), at, i, after[i])
  {
    hide TrackerOk, Records;
  }

  lemma CommitMoves(t: Tracker, j: nat, at: int, i: nat)
    requires TrackerOk(t, at) && i < |t.request.attempts|
    ensures var after := Apply(t, Commit(j), at).request.attempts; i < |after| && Moves(t, Commit(j), at, i, after[i])
  {
    hide TrackerOk, Records, CommitKept, MarkCommitted;
    RequestOfTracker(t, at);
    CommitKeptOf(t.request, at);
    if j < |t.request.attempts| { MarkMoves(t.request, j, at, i); }
  }

  lemma IdleMoves(t: Tracker, s: Step, at: int, i: nat)
    requires i < |t.request.attempts| && s.Complete? && s.index >= |t.request.attempts|
    ensures Moves(t, s, at, i, t.request.attempts[i])
  {
  }

  lemma EndMoves(t: Tracker, s: Step, e: Ending, at: int, i: nat)
    requires i < |t.request.attempts| && (s.Finish? || s.Shut?) && TrackerOk(Ended(t, e), at)
    ensures var after := Finalized(Ended(t, e), at).request.attempts; i < |after| && Moves(t, s, at, i, after[i])
  {
    hide TrackerOk, Finalized, Records;
    FinalizedRecords(Ended(t, e), i, at);
  }

  lemma {:induction false} CompleteMoves(t: Tracker, s: Step, at: int, i: nat)
    requires TrackerOk(t, at) && i < |t.request.attempts| && s.Complete? && s.index < |t.request.attempts|
    ensures var after := Apply(t, s, at).request.attempts; i < |after| && Moves(t, s, at, i, after[i])
  {
    hide TrackerOk, Closed, Finalized, Records, Without;
    ClosedOk(t, s.index, s.outcome, s.failure, s.usage, s.abandoned, at);
    ClosedEffect(t, s.index, s.outcome, s.failure, s.usage, s.abandoned, at);
    ClosedRecords(t, s.index, s.outcome, s.failure, s.usage, s.abandoned, at);
    ClosedEstimate(t, s.index, s.outcome, s.failure, s.usage, s.abandoned, at);
    var u := Closed(t, s.index, s.outcome, s.failure, s.usage, s.abandoned, at);
    ActiveDistinct(t, at);
    WithoutHolds(t.active, s.index);
    FinalizedRecords(u, i, at);
  }

  lemma ActiveDistinct(t: Tracker, at: int)
    requires TrackerOk(t, at)
    ensures Distinct(t.active)
  {
  }

  /** An attempt enters a request as it was begun, at that instant, and only while the request is open. */
  lemma {:induction false} AttemptsGrow(t: Tracker, s: Step, at: int)
    requires TrackerOk(t, at)
    ensures var (before, after) := (t.request.attempts, Apply(t, s, at).request.attempts);
            if s.Begin? && Unused(t.request, s.attempt.id) && !t.finalized && t.ending != Some(CutOff)
            then && |after| == |before| + 1
                 && Apply(t, s, at).request.events == t.request.events + [AttemptStarted(|before|)]
                 && after[|before|] == s.attempt.(startedAt := at, commitMs := None, done := None)
            else |after| == |before|
  {
    hide Finalized;
    match s
    case Begin(a) =>
      if !t.finalized { Unfinished(t, at); }
    case Commit(i) =>
    case Complete(i, outcome, failure, usage, abandoned) =>
      if i < |t.request.attempts| { CompleteMoves(t, s, at, i); CompleteCounts(t, s, at); }
    case Finish =>
      EndedOk(t, Finished, at);
      FinalizedCounts(Ended(t, Finished), at);
    case Shut(w) =>
      EndedOk(t, if w then Finished else CutOff, at);
      FinalizedCounts(Ended(t, if w then Finished else CutOff), at);
  }

  lemma FinalizedCounts(t: Tracker, at: int)
    requires TrackerOk(t, at)
    ensures |Finalized(t, at).request.attempts| == |t.request.attempts|
  {
    hide TrackerOk, CloseAll, CompleteRequest, Verdict;
    if Ready(t) {
      HeadOpen(t, at);
      ClosedAllOk(t, t.active, at);
      CompleteRequestEffect(CloseAll(t, t.active, at).request, Verdict(CloseAll(t, t.active, at)), at);
    }
  }

  lemma CompleteCounts(t: Tracker, s: Step, at: int)
    requires TrackerOk(t, at) && s.Complete? && s.index < |t.request.attempts|
    ensures |Apply(t, s, at).request.attempts| == |t.request.attempts|
  {
    hide TrackerOk, Closed, Finalized;
    ClosedOk(t, s.index, s.outcome, s.failure, s.usage, s.abandoned, at);
    ClosedEffect(t, s.index, s.outcome, s.failure, s.usage, s.abandoned, at);
    FinalizedCounts(Closed(t, s.index, s.outcome, s.failure, s.usage, s.abandoned, at), at);
  }

  // ---------------------------------------------------------------- how a request ends

  /** What the verdict asks for is what the event says. */
  lemma {:induction false} VerdictSays(t: Tracker, at: int)
    requires t.request.completed.None? && t.ending.Some? && CommitInside(t.request)
    requires Concluded(t, at).request.completed.Some?
    ensures var (r, e) := (Concluded(t, at).request, Concluded(t, at).request.completed.value);
            && r.attempts == t.request.attempts && r.commit == t.request.commit && e.endedAt == at
            && (t.ending == Some(CutOff) ==> e.outcome == Cancelled && e.failure == Some(Aborted))
            && (t.ending == Some(Finished) && t.successfulServe ==>
                  e.failure.None? && Winner(t.request, Unclaimed).Some?)
            && (t.ending == Some(Finished) && !t.successfulServe ==>
                  e.outcome == Error && e.failure == Some(t.lastFailure))
            && (Winner(t.request, Unclaimed).None? ==>
                  e.attribution == OrElse(t.committedAttribution, t.lastAttribution))
  {
    hide FindId, FirstWon, AbandonedSpend, HasRepair, AllDone;
  }

  lemma {:induction false} WinnerCarried(r: Request, e: RequestEvent)
    requires CommitKept(r) && Accounts(r, e) && Winner(r, Unclaimed).Some?
    ensures exists i: nat :: Won(r.attempts, i) && CarriesWinner(e, r.attempts[i])
  {
    hide FirstWon, Won, CarriesWinner, Abandons, Measured;
    WinnerIs(r, Winner(r, Unclaimed).value);
  }

  lemma {:induction false} NoneWon(t: Tracker, r: Request, at: int)
    requires TrackerOk(t, at) && CommitKept(r) && forall i: nat :: !Won(r.attempts, i)
    requires r.attempts == t.request.attempts && r.commit == t.request.commit
    ensures Winner(t.request, Unclaimed).None? && t.committedAttribution.None?
  {
    hide FirstWon, Won, CommitKept, LogOk;
    var w := Winner(r, Unclaimed);
    if w.Some? { WinnerIs(r, w.value); }
  }

  /**
   * The verdict of a tracker that is ready: a cut-off response is a cancelled request; after a serve that
   * succeeded the winner speaks; otherwise the request is an error with the last failure heard of.
   */
  lemma {:induction false} EndsAs(t: Tracker, at: int)
    requires TrackerOk(t, at) && Ready(t) && Finalized(t, at).request.completed.Some?
    ensures var (r, e) := (Finalized(t, at).request, Finalized(t, at).request.completed.value);
            && e.endedAt == at && Accounts(r, e)
            && (t.ending == Some(CutOff) ==> e.outcome == Cancelled && e.failure == Some(Aborted))
            && (t.ending == Some(Finished) && t.successfulServe ==>
                  e.failure.None? && exists i: nat :: Won(r.attempts, i) && CarriesWinner(e, r.attempts[i]))
            && (t.ending == Some(Finished) && !t.successfulServe ==>
                  && e.outcome == Error
                  && e.failure == Some(if |t.active| > 0 then UnknownFailure else t.lastFailure))
            && ((forall i: nat :: !Won(r.attempts, i)) ==>
                  if |t.active| == 0 then e.attribution == t.lastAttribution
                  else && t.active[|t.active| - 1] < |t.request.attempts|
                       && e.attribution == t.request.attempts[t.active[|t.active| - 1]].attribution)
  {
    hide TrackerOk, CloseAll, Accounts, EventOk, FindId, FirstWon, AbandonedSpend, HasRepair, Won, CarriesWinner;
    Unfinished(t, at);
    HeadOpen(t, at);
    ClosedAllOk(t, t.active, at);
    var u := CloseAll(t, t.active, at);
    ConcludedEvent(u, at);
    ConcludedOk(u, at);
    var r := Finalized(t, at).request;
    RequestOfTracker(Concluded(u, at), at);
    CommitKeptOf(r, at);
    EventAccounts(r, r.completed.value);
    VerdictSays(u, at);
    if t.ending == Some(Finished) && t.successfulServe { WinnerCarried(r, r.completed.value); }
    if forall i: nat :: !Won(r.attempts, i) { NoneWon(u, r, at); }
  }

  /** What a tracker has heard after a step that did not finalize it. */
  ghost predicate Hears(t: Tracker, s: Step, u: Tracker) {
    var told := s.Complete? && s.index < |t.request.attempts|;
    var begun := |u.request.attempts| > |t.request.attempts|;
    && u.lastFailure
       == (if told && s.outcome != Success && s.failure.Some? then s.failure.value else t.lastFailure)
    && u.lastAttribution
       == (if told then t.request.attempts[s.index].attribution
           else if s.Begin? && begun then s.attempt.attribution
           else t.lastAttribution)
    && (u.successfulServe <==>
          t.successfulServe || (told && s.outcome == Success && t.request.attempts[s.index].role == Serve))
    && u.ending == (if t.ending.Some? then t.ending
                    else match s
                         case Finish => Some(Finished)
                         case Shut(w) => if w then Some(Finished) else Some(CutOff)
                         case _ => None)
    && (forall i: nat :: i in u.active <==>
          (i in t.active && !(told && s.index == i)) || (begun && i == |t.request.attempts|))
    && (forall i: nat :: i in u.committed <==>
          (i in t.committed && !(told && s.index == i)) || (s == Commit(i) && Marks(t, u, i)))
  }

  /** The step marked this attempt as committed. */
  predicate Marks(t: Tracker, u: Tracker, i: nat) {
    && i < |t.request.attempts| && i < |u.request.attempts|
    && t.request.attempts[i].commitMs.None? && u.request.attempts[i].commitMs.Some?
  }

  lemma NotFinal(t: Tracker, at: int)
    requires TrackerOk(t, at) && !Finalized(t, at).finalized
    ensures Finalized(t, at) == t
  {
    hide TrackerOk, CloseAll, CompleteRequest;
  }

  lemma CommitHears(t: Tracker, j: nat, at: int)
    requires CommitKept(t.request) && j < |t.request.attempts|
    ensures Hears(t, Commit(j), CommitMarked(t, j, at))
  {
    assert t.request.commit == Some(j) ==> t.request.attempts[j].commitMs.Some?;
  }

  lemma CompleteHears(t: Tracker, s: Step, at: int)
    requires s.Complete? && s.index < |t.request.attempts| && Distinct(t.active)
    ensures Hears(t, s, Closed(t, s.index, s.outcome, s.failure, s.usage, s.abandoned, at))
  {
    hide CompleteAttempt, Without, AccountingTokens;
    WithoutHolds(t.active, s.index);
    var a := t.request.attempts[s.index];
    var tokens := AccountingTokens(s.usage, if a.role == Serve then t.estimate else 0,
                                   a.role == Repair || s.index in t.committed, at);
    CompleteAttemptEffect(t.request, s.index, s.outcome, s.failure, tokens, s.abandoned, at);
  }

  lemma BeginHears(t: Tracker, a: Attempt)
    ensures Hears(t, Begin(a), Begun(t, a))
  {
  }

  lemma StillHears(t: Tracker, s: Step)
    requires s.Complete? ==> s.index >= |t.request.attempts|
    requires s.Finish? || s.Shut? ==> t.ending.Some?
    requires s.Commit? ==> s.index >= |t.request.attempts|
    ensures Hears(t, s, t)
  {
  }

  lemma EndHears(t: Tracker, s: Step, e: Ending)
    requires (s.Finish? && e == Finished) || (s.Shut? && e == if s.writableFinished then Finished else CutOff)
    ensures Hears(t, s, Ended(t, e))
  {
  }

  /** What a tracker that is not final yet has heard, step by step. */
  lemma {:induction false} Heard(t: Tracker, s: Step, at: int)
    requires TrackerOk(t, at) && !Apply(t, s, at).finalized
    ensures Hears(t, s, Apply(t, s, at))
  {
    hide Hears, TrackerOk, Finalized, CommitMarked, Closed, Begun, Ended;
    match s
    case Begin(a) =>
      if Unused(t.request, a.id) {
        BeginHears(t, a.(startedAt := at));
        RestartHears(t, a, at);
      } else {
        StillHears(t, s);
      }
    case Commit(j) =>
      RequestOfTracker(t, at);
      CommitKeptOf(t.request, at);
      if j < |t.request.attempts| { CommitHears(t, j, at); } else { StillHears(t, s); }
    case Complete(j, outcome, failure, usage, abandoned) =>
      if j < |t.request.attempts| {
        ActiveDistinct(t, at);
        CompleteHears(t, s, at);
        ClosedOk(t, j, outcome, failure, usage, abandoned, at);
        NotFinal(Closed(t, j, outcome, failure, usage, abandoned, at), at);
      } else {
        StillHears(t, s);
      }
    case Finish =>
      EndedOk(t, Finished, at);
      NotFinal(Ended(t, Finished), at);
      EndHears(t, s, Finished);
    case Shut(w) =>
      var e := if w then Finished else CutOff;
      EndedOk(t, e, at);
      NotFinal(Ended(t, e), at);
      EndHears(t, s, e);
  }

  lemma RestartHears(t: Tracker, a: Attempt, at: int)
    requires Hears(t, Begin(a.(startedAt := at)), Begun(t, a.(startedAt := at)))
    ensures Hears(t, Begin(a), Begun(t, a.(startedAt := at)))
  {
    hide Begun, Marks;
  }

  /** A step makes a tracker final exactly when the response has then ended and nothing is left to wait for. */
  lemma FinalExactlyWhen(t: Tracker, s: Step, at: int)
    requires TrackerOk(t, at)
    ensures Apply(t, s, at).finalized
            <==> || t.finalized
                 || (s.Finish? && (t.ending != Some(CutOff) || |t.active| == 0))
                 || (s.Shut? && (|t.active| == 0 || t.ending == Some(Finished)
                                 || (t.ending.None? && s.writableFinished)))
                 || (s.Complete? && s.index < |t.request.attempts| && t.ending.Some?
                     && (t.ending == Some(Finished) || forall j :: j in t.active ==> j == s.index))
  {
    hide TrackerOk, Finalized, Closed;
    assert t.ending.Some? ==> t.ending.value.Finished? || t.ending.value.CutOff?;
    match s
    case Complete(i, outcome, failure, usage, abandoned) =>
      if i < |t.request.attempts| {
        ClosedOk(t, i, outcome, failure, usage, abandoned, at);
        FinalizedWhen(Closed(t, i, outcome, failure, usage, abandoned, at), at);
        ClosedEffect(t, i, outcome, failure, usage, abandoned, at);
        ActiveDistinct(t, at);
        WithoutHolds(t.active, i);
        NoneLeft(t.active, i);
      }
    case Finish =>
      EndedOk(t, Finished, at);
      FinalizedWhen(Ended(t, Finished), at);
    case Shut(w) =>
      EndedOk(t, if w then Finished else CutOff, at);
      FinalizedWhen(Ended(t, if w then Finished else CutOff), at);
    case _ =>
  }

  lemma FinalizedWhen(t: Tracker, at: int)
    requires TrackerOk(t, at)
    ensures Finalized(t, at).finalized
            <==> t.finalized || (t.ending.Some? && (|t.active| == 0 || t.ending == Some(Finished)))
  {
    hide TrackerOk, CloseAll, CompleteRequest;
  }

  lemma NoneLeft(active: seq<nat>, i: nat)
    requires Distinct(active)
    ensures |Without(active, i)| == 0 <==> forall j :: j in active ==> j == i
  {
    WithoutHolds(active, i);
    hide Without;
    var left := Without(active, i);
    if |left| > 0 { assert left[0] in left; }
    if exists j :: j in active && j != i {
      var j :| j in active && j != i;
      assert j in left;
    }
  }

  // ---------------------------------------------------------------- when a completion is accepted

  /** Who wins under a caller's claim: the committed attempt, or the one claimed, or the first served one. */
  predicate WinsUnder(r: Request, claim: WinnerClaim, i: nat) {
    && i < |r.attempts|
    && (r.attempts[i].commitMs.Some?
        || ((forall j :: 0 <= j < |r.attempts| ==> r.attempts[j].commitMs.None?)
            && match claim
               case Claimed(id) => r.attempts[i].id == id
               case NoWinner => false
               case Unclaimed => Served(r.attempts[i]) && forall j :: 0 <= j < i ==> !Served(r.attempts[j])))
  }

  /** What a completion may say about the attempt that wins. */
  predicate AgreesWith(c: Completion, a: Attempt)
    requires a.done.Some?
  {
    var (own, said) := (a.done.value.outcome, OrElse(c.outcome, a.done.value.outcome));
    && (c.attribution.Some? ==> c.attribution.value == a.attribution)
    && (c.winner.Claimed? ==> c.winner.id == a.id && (a.commitMs.Some? || Served(a)))
    && (said == Success || (a.commitMs.Some? && said == own))
    && (c.failure.Some? ==> said != Success)
  }

  lemma {:induction false} WinnerUnder(r: Request, claim: WinnerClaim, i: nat)
    requires CommitKept(r) && DistinctAttempts(r.attempts)
    ensures WinsUnder(r, claim, i) <==> Winner(r, claim) == Some(i)
  {
    hide FirstWon, FindId;
    var w := Winner(r, claim);
    assert w.Some? ==> w.value < |r.attempts|;
    assert r.commit.Some? ==> r.attempts[r.commit.value].commitMs.Some?;
    if claim == Unclaimed { WinnerIs(r, i); }
  }

  /**
   * A request that is still open completes exactly when every attempt is done and the caller's word agrees
   * with the attempt that wins; without one, when the caller names an outcome other than success.
   */
  lemma {:induction false} CompletesExactlyWhen(r: Request, c: Completion, at: int)
    requires CommitKept(r) && DistinctAttempts(r.attempts) && r.completed.None?
    ensures CompleteRequest(r, c, at).Some?
            <==> && AllDone(r)
                 && (forall i: nat :: WinsUnder(r, c.winner, i) ==> AgreesWith(c, r.attempts[i]))
                 && ((forall i: nat :: !WinsUnder(r, c.winner, i)) ==>
                       !c.winner.Claimed? && c.outcome.Some? && c.outcome != Some(Success))
  {
    hide FirstWon, FindId, TerminalEvent, WinsUnder;
    var w := Winner(r, c.winner);
    forall i: nat ensures WinsUnder(r, c.winner, i) <==> w == Some(i) {
      WinnerUnder(r, c.winner, i);
    }
    if c.winner.Claimed? { ClaimedIs(r, c.winner.id); }
  }

  lemma ClaimedIs(r: Request, id: nat)
    requires CommitKept(r) && DistinctAttempts(r.attempts)
    ensures FindId(r.attempts, id).None? && r.commit.None? ==> Winner(r, Claimed(id)).None?
    ensures r.commit.Some? ==> (FindId(r.attempts, id) == r.commit <==> r.attempts[r.commit.value].id == id)
  {
    hide FindId, FirstWon;
  }
}
