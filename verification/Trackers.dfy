/**
 * The per-request accounting of the proxy: it follows the attempts of one request and the end of
 * its response, and completes the request once the response has ended. Completing an attempt and
 * finalizing call each other.
 */
module Trackers {
  import opened Common
  import opened Cells
  import opened Facts
  import opened Requests

  /** How the response ended: finished, or cut off by the client (cancelled). */
  datatype Ending = Finished | CutOff

  datatype Usage = Usage(
    input: Option<Counter>, output: Option<Counter>, cachedInput: Option<Counter>,
    cacheCreation: Option<Counter>, cacheRead: Option<Counter>, estimatedOutput: Option<Counter>)

  const NO_USAGE := Usage(None, None, None, None, None, None)

  /** The state of one tracked request; attempts are named by their place in the request. */
  datatype Tracker = Tracker(
    request: Request, estimate: Counter, active: seq<nat>, committed: set<nat>, ending: Option<Ending>,
    finalized: bool, successfulServe: bool, committedAttribution: Option<Attribution>,
    lastFailure: Failure, lastAttribution: Attribution)

  /** `accountingTokens`. */
  function AccountingTokens(u: Usage, estimate: Counter, includeOutput: bool, at: int): TokenFacts {
    [Fact(u.input, at), Fact(u.output, at), Fact(u.cachedInput, at), Fact(u.cacheCreation, at), Fact(u.cacheRead, at),
     Fact(Positive(Some(estimate)), at), Fact(if includeOutput then Positive(u.estimatedOutput) else None, at)]
  }

  function Without(s: seq<nat>, x: nat): (r: seq<nat>)
    ensures |r| <= |s|
  {
    if |s| == 0 then [] else Without(s[..|s| - 1], x) + if s[|s| - 1] == x then [] else [s[|s| - 1]]
  }

  // ---------------------------------------------------------------- transitions

  /** `start`: refused once the response was cut off or the request is finalized. */
  function Begun(t: Tracker, a: Attempt): Tracker {
    if t.finalized || t.ending == Some(CutOff) || StartAttempt(t.request, a).None? then t
    else t.(request := StartAttempt(t.request, a).value, active := t.active + [|t.request.attempts|],
            lastAttribution := a.attribution)
  }

  function CommitMarked(t: Tracker, i: nat, at: int): Tracker
    requires i < |t.request.attempts|
  {
    var (r, first) := MarkCommitted(t.request, i, at);
    if !first then t
    else t.(request := r, committed := t.committed + {i}, committedAttribution := Some(r.attempts[i].attribution))
  }

  /** The part of `complete` before it tries to finalize. */
  function Closed(t: Tracker, i: nat, outcome: Outcome, failure: Option<Failure>, usage: Usage, abandoned: bool,
        at: int): Tracker
    requires i < |t.request.attempts|
  {
    var a := t.request.attempts[i];
    var tokens := AccountingTokens(usage, if a.role == Serve then t.estimate else 0,
                                   a.role == Repair || i in t.committed, at);
    var r := CompleteAttempt(t.request, i, outcome, failure, tokens, abandoned, at);
    t.(request := if r.Some? then r.value else t.request,
       active := Without(t.active, i), committed := t.committed - {i}, lastAttribution := a.attribution,
       successfulServe := t.successfulServe || (a.role == Serve && outcome == Success),
       lastFailure := if outcome != Success && failure.Some? then failure.value else t.lastFailure)
  }

  function Abandoned(t: Tracker, i: nat, at: int): Tracker
    requires i < |t.request.attempts|
  {
    Closed(t, i, Error, Some(UnknownFailure), NO_USAGE, false, at)
  }

  predicate Within(left: seq<nat>, n: nat) {
    forall k :: 0 <= k < |left| ==> left[k] < n
  }

  /** The attempts a finished response leaves behind, each closed as an unknown error. */
  function CloseAll(t: Tracker, left: seq<nat>, at: int): (u: Tracker)
    requires Within(left, |t.request.attempts|)
    ensures |u.request.attempts| == |t.request.attempts|
    decreases |left|
  {
    if |left| == 0 then t else CloseAll(Abandoned(t, left[0], at), left[1..], at)
  }

  /** What `finalizeIfReady` asks the request to record. */
  function Verdict(t: Tracker): Completion
    requires t.ending.Some?
  {
    var attribution := Some(OrElse(t.committedAttribution, t.lastAttribution));
    if t.ending == Some(CutOff) then Completion(Some(Cancelled), Some(Aborted), attribution, Unclaimed)
    else if t.successfulServe then Completion(None, None, None, Unclaimed)
    else Completion(Some(Error), Some(t.lastFailure), attribution, Unclaimed)
  }

  predicate CommitInside(r: Request) {
    r.commit.Some? ==> r.commit.value < |r.attempts|
  }

  function Concluded(t: Tracker, at: int): Tracker
    requires t.ending.Some? && CommitInside(t.request)
  {
    var r := CompleteRequest(t.request, Verdict(t), at);
    t.(finalized := true, request := if r.Some? then r.value else t.request)
  }

  predicate Ready(t: Tracker) {
    !t.finalized && t.ending.Some? && (|t.active| == 0 || t.ending == Some(Finished))
  }

  /** `finalizeIfReady` without its re-entrance: close what is open, in order, then conclude once. */
  function Finalized(t: Tracker, at: int): Tracker
    requires TrackerOk(t, at)
  {
    if !Ready(t) then t
    else
      ClosedAllOk(t, t.active, at);
      Concluded(CloseAll(t, t.active, at), at)
  }

  // ---------------------------------------------------------------- what every run keeps

  /** The active attempts are open. */
  predicate ActiveOk(attempts: seq<Attempt>, active: seq<nat>) {
    Distinct(active) && Within(active, |attempts|) && forall k :: 0 <= k < |active| ==> attempts[active[k]].done.None?
  }

  predicate TrackerOk(t: Tracker, now: int) {
    && RequestOk(t.request, now) && ActiveOk(t.request.attempts, t.active)
    && t.committedAttribution == (if t.request.commit.Some?
                                  then Some(t.request.attempts[t.request.commit.value].attribution)
                                  else None)
    && (forall i :: 0 <= i < |t.request.attempts| && WonServe(t.request.attempts[i]) ==> t.successfulServe)
    && (t.request.completed.Some? ==> t.finalized)
    && (t.finalized ==> |t.active| == 0 && t.ending.Some?)
  }

  lemma {:induction false} WithoutHolds(s: seq<nat>, x: nat)
    requires Distinct(s)
    ensures Distinct(Without(s, x)) && forall y :: y in Without(s, x) <==> y in s && y != x
    ensures x !in s ==> Without(s, x) == s
  {
    if |s| > 0 {
      var init, last := s[..|s| - 1], s[|s| - 1];
      WithoutHolds(init, x);
      assert s == init + [last];
      var r := Without(init, x);
      forall k | 0 <= k < |r| ensures r[k] != last {
        assert r[k] in r;
      }
    }
  }

  lemma {:induction false} WithoutLength(s: seq<nat>, x: nat)
    requires Distinct(s)
    ensures |Without(s, x)| == |s| - if x in s then 1 else 0
  {
    if |s| > 0 {
      var init, last := s[..|s| - 1], s[|s| - 1];
      WithoutLength(init, x);
      assert s == init + [last];
    }
  }

  lemma {:induction false} WithoutHead(s: seq<nat>)
    requires Distinct(s) && |s| > 0
    ensures Without(s, s[0]) == s[1..]
  {
    var init, last := s[..|s| - 1], s[|s| - 1];
    if |s| > 1 {
      WithoutHead(init);
      assert s[1..] == init[1..] + [last];
    }
  }

  lemma {:induction false} OneLessActive(before: seq<Attempt>, after: seq<Attempt>, active: seq<nat>, i: nat)
    requires ActiveOk(before, active) && |after| == |before| && i < |before|
    requires forall j :: 0 <= j < |before| && j != i ==> after[j] == before[j]
    ensures ActiveOk(after, Without(active, i))
  {
    hide Without;
    WithoutHolds(active, i);
    var remaining := Without(active, i);
    forall k | 0 <= k < |remaining| ensures remaining[k] in active && remaining[k] != i {
      assert remaining[k] in remaining;
    }
  }

  lemma HeadOpen(t: Tracker, at: int)
    requires TrackerOk(t, at)
    ensures Distinct(t.active) && Within(t.active, |t.request.attempts|)
    ensures |t.active| > 0 ==> t.request.attempts[t.active[0]].done.None?
  {
  }

  /** Completing an attempt leaves every other attempt as it was. */
  lemma {:induction false} ClosedEffect(t: Tracker, i: nat, outcome: Outcome, failure: Option<Failure>, usage: Usage,
        abandoned: bool, at: int)
    requires i < |t.request.attempts|
    ensures var u := Closed(t, i, outcome, failure, usage, abandoned, at);
            && u.finalized == t.finalized && u.ending == t.ending && u.committedAttribution == t.committedAttribution
            && u.request == t.request.(attempts := u.request.attempts, events := u.request.events)
            && |u.request.attempts| == |t.request.attempts|
            && (forall j :: 0 <= j < |t.request.attempts| && j != i ==> u.request.attempts[j] == t.request.attempts[j])
            && u.request.attempts[i] == t.request.attempts[i].(done := u.request.attempts[i].done)
            && (t.request.attempts[i].done.Some? || u.request.attempts[i].done.None? ==> u.request == t.request)
            && (t.request.attempts[i].done.None? && u.request.attempts[i].done.Some? ==>
                  u.request.attempts[i].done.value.outcome == outcome)
            && u.active == Without(t.active, i) && u.committed == t.committed - {i}
            && u.successfulServe == (t.successfulServe || (t.request.attempts[i].role == Serve && outcome == Success))
  {
    hide AccountingTokens, Without, CompleteAttempt;
    var a := t.request.attempts[i];
    var tokens := AccountingTokens(usage, if a.role == Serve then t.estimate else 0,
                                   a.role == Repair || i in t.committed, at);
    CompleteAttemptEffect(t.request, i, outcome, failure, tokens, abandoned, at);
  }

  lemma {:induction false} ClosedRequestOk(t: Tracker, i: nat, outcome: Outcome, failure: Option<Failure>,
        usage: Usage, abandoned: bool, at: int)
    requires RequestOk(t.request, at) && i < |t.request.attempts|
    ensures RequestOk(Closed(t, i, outcome, failure, usage, abandoned, at).request, at)
  {
    hide AccountingTokens, Without, CompleteAttempt, RequestOk;
    var a := t.request.attempts[i];
    var tokens := AccountingTokens(usage, if a.role == Serve then t.estimate else 0,
                                   a.role == Repair || i in t.committed, at);
    CompleteAttemptKeeps(t.request, i, outcome, failure, tokens, abandoned, at);
  }

  lemma {:induction false} ClosedOk(t: Tracker, i: nat, outcome: Outcome, failure: Option<Failure>, usage: Usage,
        abandoned: bool, at: int)
    requires TrackerOk(t, at) && i < |t.request.attempts|
    ensures TrackerOk(Closed(t, i, outcome, failure, usage, abandoned, at), at)
  {
    hide RequestOk, Closed, ActiveOk, Without;
    CommitStaysInside(t.request, at);
    ClosedEffect(t, i, outcome, failure, usage, abandoned, at);
    ClosedRequestOk(t, i, outcome, failure, usage, abandoned, at);
    var u := Closed(t, i, outcome, failure, usage, abandoned, at);
    OneLessActive(t.request.attempts, u.request.attempts, t.active, i);
  }

  lemma {:induction false} AbandonedOk(t: Tracker, i: nat, at: int)
    requires TrackerOk(t, at) && i < |t.request.attempts| && !t.finalized && t.request.attempts[i].done.None?
    ensures var u := Abandoned(t, i, at);
            && TrackerOk(u, at) && !u.finalized && u.ending == t.ending && u.successfulServe == t.successfulServe
            && u.request.completed.None? && u.request.commit == t.request.commit
            && |u.request.attempts| == |t.request.attempts|
            && (forall j :: 0 <= j < |t.request.attempts| && j != i ==> u.request.attempts[j] == t.request.attempts[j])
            && u.request.attempts[i].done.Some? && u.request.attempts[i].done.value.outcome == Error
            && u.request.attempts[i].role == t.request.attempts[i].role
            && u.request.attempts[i].attribution == t.request.attempts[i].attribution
            && u.active == Without(t.active, i) && u.committed == t.committed - {i} && u.lastFailure == UnknownFailure
            && u.lastAttribution == t.request.attempts[i].attribution
  {
    hide AccountingTokens, Without, TrackerOk, CompleteAttempt;
    var tokens := AccountingTokens(NO_USAGE, if t.request.attempts[i].role == Serve then t.estimate else 0,
                                   t.request.attempts[i].role == Repair || i in t.committed, at);
    CompleteAttemptEffect(t.request, i, Error, Some(UnknownFailure), tokens, false, at);
    ClosedEffect(t, i, Error, Some(UnknownFailure), NO_USAGE, false, at);
    ClosedOk(t, i, Error, Some(UnknownFailure), NO_USAGE, false, at);
    Unfinished(t, at);
  }

  lemma Unfinished(t: Tracker, at: int)
    requires TrackerOk(t, at) && !t.finalized
    ensures t.request.completed.None?
  {
  }

  /** Every attempt still active ends as an unknown error; every other one stays as it was. */
  lemma {:induction false} ClosedAllOk(t: Tracker, left: seq<nat>, at: int)
    requires TrackerOk(t, at) && left == t.active && !t.finalized
    ensures var u := CloseAll(t, left, at);
            && TrackerOk(u, at) && !u.finalized && u.ending == t.ending && u.successfulServe == t.successfulServe
            && u.request.completed.None? && u.request.commit == t.request.commit && CommitInside(u.request)
            && (forall j :: 0 <= j < |t.request.attempts| && j !in left ==>
                  u.request.attempts[j] == t.request.attempts[j])
            && (forall j :: 0 <= j < |t.request.attempts| && j in left ==>
                  && u.request.attempts[j].done.Some? && u.request.attempts[j].done.value.outcome == Error
                  && u.request.attempts[j].role == t.request.attempts[j].role
                  && u.request.attempts[j].attribution == t.request.attempts[j].attribution)
            && |u.active| == 0 && u.committed <= t.committed && (forall j :: j in left ==> j !in u.committed)
            && (|left| > 0 ==>
                  && u.lastFailure == UnknownFailure
                  && u.lastAttribution == t.request.attempts[left[|left| - 1]].attribution)
            && (|left| == 0 ==> u == t)
    decreases |left|
  {
    hide Without, Abandoned, TrackerOk;
    Unfinished(t, at);
    CommitInsideOf(t, at);
    HeadOpen(t, at);
    if |left| > 0 {
      AbandonedOk(t, left[0], at);
      WithoutHead(left);
      ClosedAllOk(Abandoned(t, left[0], at), left[1..], at);
      assert left == [left[0]] + left[1..];
    }
  }

  lemma CommitInsideOf(t: Tracker, now: int)
    requires TrackerOk(t, now)
    ensures CommitInside(t.request)
  {
  }

  lemma CommitStaysInside(r: Request, now: int)
    requires RequestOk(r, now)
    ensures CommitInside(r)
  {
  }

  lemma {:induction false} BegunOk(t: Tracker, a: Attempt, now: int)
    requires TrackerOk(t, a.startedAt) && a.startedAt <= now
    requires forall i :: 0 <= i < |t.request.attempts| ==> t.request.attempts[i].id != a.id
    ensures TrackerOk(Begun(t, a), now)
  {
    hide RequestOk;
    CommitStaysInside(t.request, a.startedAt);
    if t.request.completed.None? { StartKeeps(t.request, a, now); }
    Later(t.request, a.startedAt, now);
  }

  lemma {:induction false} Later(r: Request, then': int, now: int)
    requires RequestOk(r, then') && then' <= now
    ensures RequestOk(r, now)
  {
    hide LogOk;
  }

  lemma {:induction false} CommitMarkedOk(t: Tracker, i: nat, now: int)
    requires TrackerOk(t, now) && i < |t.request.attempts|
    ensures TrackerOk(CommitMarked(t, i, now), now)
  {
    hide RequestOk;
    CommitStaysInside(t.request, now);
    CommitKeeps(t.request, i, now);
  }

  lemma {:induction false} ConcludedOk(t: Tracker, now: int)
    requires TrackerOk(t, now) && t.ending.Some? && |t.active| == 0 && CommitInside(t.request)
    ensures TrackerOk(Concluded(t, now), now)
  {
    hide RequestOk, CompleteRequest, Verdict;
    CompleteRequestKeeps(t.request, Verdict(t), now);
    CompleteRequestEffect(t.request, Verdict(t), now);
  }

  lemma {:induction false} FinalizedOk(t: Tracker, now: int)
    requires TrackerOk(t, now)
    ensures TrackerOk(Finalized(t, now), now)
  {
    hide TrackerOk, CloseAll, Concluded;
    if Ready(t) {
      HeadOpen(t, now);
      ClosedAllOk(t, t.active, now);
      ConcludedOk(CloseAll(t, t.active, now), now);
    }
  }

  /** The first way the response ends is the one that counts. */
  function Ended(t: Tracker, e: Ending): Tracker {
    if t.ending.None? then t.(ending := Some(e)) else t
  }

  lemma EndedOk(t: Tracker, e: Ending, now: int)
    requires TrackerOk(t, now)
    ensures TrackerOk(Ended(t, e), now)
  {
  }

  // ---------------------------------------------------------------- re-entrance is harmless

  /** Closing the first open attempt and finalizing from there is finalizing. */
  lemma {:induction false} FinalizedStep(t: Tracker, at: int)
    requires TrackerOk(t, at) && Ready(t) && |t.active| > 0
    requires t.active[0] < |t.request.attempts| && TrackerOk(Abandoned(t, t.active[0], at), at)
    ensures Finalized(Abandoned(t, t.active[0], at), at) == Finalized(t, at)
  {
    hide TrackerOk, Concluded, Abandoned, Without;
    HeadOpen(t, at);
    AbandonedOk(t, t.active[0], at);
    WithoutHead(t.active);
  }

  /** Closing an attempt again after everything is final changes only who was heard of last. */
  lemma {:induction false} ClosedAgain(t: Tracker, i: nat, at: int)
    requires i < |t.request.attempts| && t.request.attempts[i].done.Some?
    requires t.lastFailure == UnknownFailure && |t.active| == 0 && i !in t.committed
    ensures Abandoned(t, i, at) == t.(lastAttribution := t.request.attempts[i].attribution)
  {
    hide AccountingTokens;
  }

  /** Concluding twice is concluding once. */
  lemma {:induction false} ConcludedAgain(t: Tracker, at: int)
    requires t.ending.Some? && CommitInside(t.request)
    ensures CommitInside(Concluded(t, at).request) && Concluded(t, at).ending == t.ending
    ensures Concluded(Concluded(t, at), at) == Concluded(t, at)
  {
    hide CompleteRequest;
    CompleteRequestEffect(t.request, Verdict(t), at);
    CompleteRequestEffect(Concluded(t, at).request, Verdict(t), at);
  }

  // ---------------------------------------------------------------- when a terminal event is recorded

  /** The outcome an attempt has once what is open has been closed as an error. */
  function OutcomeAtEnd(a: Attempt): Outcome {
    if a.done.Some? then a.done.value.outcome else Error
  }

  predicate SomeWon(r: Request) {
    exists i :: 0 <= i < |r.attempts| && WonServe(r.attempts[i])
  }

  /**
   * What a caller can check when the response ends: no completion was refused earlier, and the
   * verdict agrees with the commit, or without one with the serves that succeeded.
   */
  predicate Recordable(t: Tracker)
    requires t.ending.Some? && CommitInside(t.request)
  {
    var r := t.request;
    && (forall i :: 0 <= i < |r.attempts| && r.attempts[i].done.None? ==> i in t.active)
    && if t.ending == Some(CutOff)
       then if r.commit.Some? then OutcomeAtEnd(r.attempts[r.commit.value]) == Cancelled else !SomeWon(r)
       else if t.successfulServe then r.commit.Some? || SomeWon(r)
       else r.commit.Some? ==> OutcomeAtEnd(r.attempts[r.commit.value]) == Error
  }

  /** The verdict is recorded exactly when it agrees with the attempts. */
  lemma {:induction false} VerdictAccepted(t: Tracker, now: int)
    requires TrackerOk(t, now) && t.ending.Some? && CommitInside(t.request) && !t.finalized
    ensures CompleteRequest(t.request, Verdict(t), now).Some?
            <==> AllDone(t.request)
                 && if t.ending == Some(CutOff)
                    then if t.request.commit.Some? then OutcomeAtEnd(t.request.attempts[t.request.commit.value])
                    == Cancelled
                         else !SomeWon(t.request)
                    else if t.successfulServe then t.request.commit.Some? || SomeWon(t.request)
                    else t.request.commit.Some? ==> OutcomeAtEnd(t.request.attempts[t.request.commit.value]) == Error
  {
    hide RequestOk, ActiveOk, TerminalEvent;
    if AllDone(t.request) && t.request.commit.None? && SomeWon(t.request) {
      assert FirstWon(t.request.attempts).Some?;
    }
  }

  /**
   * The terminal event is recorded, at the first moment the tracker is ready, exactly when the
   * attempts agree with the way the response ended. Otherwise it is never recorded: see `FinalIsFinal`.
   */
  lemma {:induction false} TerminalExactlyWhen(t: Tracker, now: int)
    requires TrackerOk(t, now) && Ready(t) && CommitInside(t.request)
    ensures Finalized(t, now).finalized
    ensures Finalized(t, now).request.completed.Some? <==> Recordable(t)
  {
    hide TrackerOk, CloseAll, CompleteRequest, Verdict;
    HeadOpen(t, now);
    ClosedAllOk(t, t.active, now);
    var u := CloseAll(t, t.active, now);
    VerdictAccepted(u, now);
    CompleteRequestEffect(u.request, Verdict(u), now);
    assert AllDone(u.request) <==> forall i :: 0 <= i < |t.request.attempts| && t.request.attempts[i].done.None? ==>
             i in t.active;
    OpenStayOpen(t, u, now);
  }

  lemma {:induction false} OpenStayOpen(t: Tracker, u: Tracker, now: int)
    requires TrackerOk(t, now) && |u.request.attempts| == |t.request.attempts| && u.request.commit == t.request.commit
    requires forall j :: 0 <= j < |t.request.attempts| && j !in t.active ==>
               u.request.attempts[j] == t.request.attempts[j]
    requires forall j :: 0 <= j < |t.request.attempts| && j in t.active ==>
               u.request.attempts[j].done.Some? && u.request.attempts[j].done.value.outcome == Error
    ensures SomeWon(u.request) <==> SomeWon(t.request)
    ensures CommitInside(t.request)
    ensures t.request.commit.Some? ==>
              OutcomeAtEnd(u.request.attempts[t.request.commit.value])
              == OutcomeAtEnd(t.request.attempts[t.request.commit.value])
  {
    hide RequestOk;
    CommitStaysInside(t.request, now);
    forall j | 0 <= j < |t.request.attempts|
      ensures OutcomeAtEnd(u.request.attempts[j]) == OutcomeAtEnd(t.request.attempts[j])
              && (WonServe(u.request.attempts[j]) <==> WonServe(t.request.attempts[j]))
    {
      if j in t.active {
        var k :| 0 <= k < |t.active| && t.active[k] == j;
        assert t.request.attempts[t.active[k]].done.None?;
      }
    }
  }
}
