/**
 * The object of the proxy that tracks one request. Completing an attempt tries to finalize, and
 * finalizing completes what is still active: the two methods call each other. Each instant is read
 * once per call from outside.
 */
module RequestStates {
  import opened Common
  import opened Facts
  import opened Requests
  import opened Trackers

  /** After finalizing a finished response, everything that was active is closed for good. */
  lemma {:induction false} GoalHolds(t: Tracker, at: int)
    requires TrackerOk(t, at) && Ready(t) && |t.active| > 0
    ensures var g := Finalized(t, at);
            && g.finalized && |g.active| == 0 && g.lastFailure == UnknownFailure && TrackerOk(g, at)
            && |g.request.attempts| == |t.request.attempts|
            && t.active[|t.active| - 1] < |t.request.attempts|
            && g.lastAttribution == t.request.attempts[t.active[|t.active| - 1]].attribution
            && (forall j :: j in t.active ==>
                  && j < |g.request.attempts| && g.request.attempts[j].done.Some? && j !in g.committed
                  && g.request.attempts[j].attribution == t.request.attempts[j].attribution)
  {
    hide TrackerOk, CloseAll, CompleteRequest, Verdict;
    HeadOpen(t, at);
    ClosedAllOk(t, t.active, at);
    var u := CloseAll(t, t.active, at);
    CompleteRequestEffect(u.request, Verdict(u), at);
    FinalizedOk(t, at);
  }

  lemma HeardOfLast(t: Tracker, x: Attribution, at: int)
    requires TrackerOk(t, at)
    ensures TrackerOk(t.(lastAttribution := x), at)
  {
  }

  /** Closing an attempt that finalization closed already. */
  lemma {:induction false} ClosedAfterGoal(t: Tracker, x: Attribution, i: nat, at: int)
    requires TrackerOk(t, at) && Ready(t) && i in t.active
    ensures var g := Finalized(t, at).(lastAttribution := x);
            && i < |g.request.attempts| && TrackerOk(g, at) && g.request.attempts[i].done.Some?
            && Abandoned(g, i, at) == g.(lastAttribution := g.request.attempts[i].attribution)
            && g.request.attempts[i].attribution == t.request.attempts[i].attribution
            && TrackerOk(Abandoned(g, i, at), at) && Finalized(Abandoned(g, i, at), at) == Abandoned(g, i, at)
  {
    hide TrackerOk, CloseAll, Concluded, Closed;
    GoalHolds(t, at);
    HeadOpen(t, at);
    var goal := Finalized(t, at);
    HeardOfLast(goal, x, at);
    var g := goal.(lastAttribution := x);
    ClosedAgain(g, i, at);
    HeardOfLast(g, g.request.attempts[i].attribution, at);
  }

  class RequestAccountingState {
    const request: AccountingRequest
    const estimate: Counter
    var active: seq<nat>
    var committed: set<nat>
    var ending: Option<Ending>
    var finalized: bool
    var successfulServe: bool
    var committedAttribution: Option<Attribution>
    var lastFailure: Failure
    var lastAttribution: Attribution

    ghost function View(): Tracker reads this, request {
      Tracker(request.View(), estimate, active, committed, ending, finalized, successfulServe, committedAttribution,
              lastFailure, lastAttribution)
    }

    constructor (id: nat, startedAt: int, client: Option<Label>, price: PricePort, estimate: Counter)
      ensures TrackerOk(View(), startedAt) && fresh(request)
      ensures View() == Tracker(Request(id, startedAt, client, Unattributed, price, [], None, None, None,
                                        [RequestStarted]),
                                estimate, [], {}, None, false, false, None, UnknownFailure, Unattributed)
    {
      request := new AccountingRequest(id, startedAt, client, Unattributed, price);
      this.estimate := estimate;
      active, committed, ending, finalized, successfulServe := [], {}, None, false, false;
      committedAttribution, lastFailure, lastAttribution := None, UnknownFailure, Unattributed;
    }

    /** `start`: null once the response was cut off or the request is finalized. */
    method Start(a: Attempt) returns (handle: Option<nat>)
      modifies this, request
      ensures View() == Begun(old(View()), a)
      ensures handle.Some? ==> handle.value == old(|request.attempts|) < |request.attempts| && handle.value in active
    {
      if finalized || ending == Some(CutOff) { return None; }
      handle := request.Start(a);
      if handle.Some? {
        active, lastAttribution := active + [handle.value], a.attribution;
      }
    }

    method MarkCommitted(i: nat, at: int)
      requires i < |request.attempts|
      modifies this, request
      ensures View() == CommitMarked(old(View()), i, at)
    {
      var first := request.Commit(i, at);
      if first {
        committed, committedAttribution := committed + {i}, Some(request.attempts[i].attribution);
      }
    }

    /** The part of `complete` before `finalizeIfReady`; a refused completion is swallowed. */
    method Close(i: nat, outcome: Outcome, failure: Option<Failure>, usage: Usage, abandoned: bool, at: int)
      requires i < |request.attempts|
      modifies this, request
      ensures View() == Closed(old(View()), i, outcome, failure, usage, abandoned, at)
    {
      hide CompleteAttempt, AccountingTokens, Without;
      ghost var next := Closed(View(), i, outcome, failure, usage, abandoned, at);
      var a := request.attempts[i];
      var tokens := AccountingTokens(usage, if a.role == Serve then estimate else 0,
                                     a.role == Repair || i in committed, at);
      var accepted := request.CompleteOne(i, outcome, failure, tokens, abandoned, at);
      active, committed, lastAttribution := Without(active, i), committed - {i}, a.attribution;
      if a.role == Serve && outcome == Success { successfulServe := true; }
      if outcome != Success && failure.Some? { lastFailure := failure.value; }
    }

    /** The verdict of `finalizeIfReady`, and what the request makes of it; a refusal is swallowed. */
    method Conclude(at: int)
      requires ending.Some? && CommitInside(request.View())
      modifies this, request
      ensures View() == Concluded(old(View()), at)
    {
      hide CompleteRequest;
      finalized := true;
      var attribution := Some(OrElse(committedAttribution, lastAttribution));
      var verdict :=
        if ending == Some(CutOff) then Completion(Some(Cancelled), Some(Aborted), attribution, Unclaimed)
        else if successfulServe then Completion(None, None, None, Unclaimed)
        else Completion(Some(Error), Some(lastFailure), attribution, Unclaimed);
      assert verdict == Verdict(old(View()));
      var accepted := request.Complete(verdict, at);
    }

    /** The response's `finish`. */
    method OnFinish(at: int)
      requires TrackerOk(View(), at)
      modifies this, request
      ensures TrackerOk(Ended(old(View()), Finished), at) && View() == Finalized(Ended(old(View()), Finished), at)
    {
      hide TrackerOk, Finalized;
      EndedOk(View(), Finished, at);
      if ending.None? { ending := Some(Finished); }
      FinalizeIfReady(at);
    }

    /** The response's `close`: cut off unless everything had been written. */
    method OnClose(writableFinished: bool, at: int)
      requires TrackerOk(View(), at)
      modifies this, request
      ensures var e := if writableFinished then Finished else CutOff;
              TrackerOk(Ended(old(View()), e), at) && View() == Finalized(Ended(old(View()), e), at)
    {
      hide TrackerOk, Finalized;
      EndedOk(View(), if writableFinished then Finished else CutOff, at);
      if ending.None? { ending := Some(if writableFinished then Finished else CutOff); }
      FinalizeIfReady(at);
    }

    /** `complete`. */
    method Complete(i: nat, outcome: Outcome, failure: Option<Failure>, usage: Usage, abandoned: bool, at: int)
      requires TrackerOk(View(), at) && i < |request.attempts|
      modifies this, request
      ensures TrackerOk(Closed(old(View()), i, outcome, failure, usage, abandoned, at), at)
      ensures View() == Finalized(Closed(old(View()), i, outcome, failure, usage, abandoned, at), at)
      decreases if i in active then |active| - 1 else |active|, 2
    {
      hide TrackerOk, Closed, Finalized, Without;
      HeadOpen(View(), at);
      ClosedOk(View(), i, outcome, failure, usage, abandoned, at);
      ClosedEffect(View(), i, outcome, failure, usage, abandoned, at);
      WithoutLength(active, i);
      Close(i, outcome, failure, usage, abandoned, at);
      FinalizeIfReady(at);
    }

    /** `finalizeIfReady`. */
    method FinalizeIfReady(at: int)
      requires TrackerOk(View(), at)
      modifies this, request
      ensures View() == Finalized(old(View()), at)
      decreases |active|, 1
    {
      hide TrackerOk, Abandoned, Concluded, CloseAll, Verdict, CompleteRequest;
      ghost var t := View();
      if finalized || ending.None? { return; }
      HeadOpen(t, at);
      CommitInsideOf(t, at);
      ClosedAllOk(t, t.active, at);
      if |active| > 0 {
        if ending != Some(Finished) { return; }
        CloseActive(at);
        ConcludedAgain(CloseAll(t, t.active, at), at);
      }
      Conclude(at);
    }

    /**
     * The loop of `finalizeIfReady` over what is active. Closing the first attempt already
     * finalizes through the nested call; the rest of the loop then changes nothing that lasts.
     */
    method CloseActive(at: int)
      requires TrackerOk(View(), at) && Ready(View()) && |active| > 0
      modifies this, request
      ensures View() == Finalized(old(View()), at)
      decreases |active|, 0
    {
      hide TrackerOk, Closed, Concluded, CloseAll, Finalized, Without, CompleteRequest, Verdict;
      ghost var t := View();
      ghost var goal := Finalized(t, at);
      HeadOpen(t, at);
      GoalHolds(t, at);
      var left := active;
      AbandonedOk(t, left[0], at);
      FinalizedStep(t, at);
      Complete(left[0], Error, Some(UnknownFailure), NO_USAGE, false, at);
      var k := 1;
      while k < |left|
        invariant 1 <= k <= |left| && left == t.active
        invariant k > 1 ==> View() == goal.(lastAttribution := t.request.attempts[left[k - 1]].attribution)
        invariant k == 1 ==> View() == goal
      {
        ClosedAfterGoal(t, View().lastAttribution, left[k], at);
        Complete(left[k], Error, Some(UnknownFailure), NO_USAGE, false, at);
        k := k + 1;
      }
    }
  }
}
