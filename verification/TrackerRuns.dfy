/** Whole runs of one tracked request: every interleaving of attempts and the end of the response. */
module TrackerRuns {
  import opened Common
  import opened Facts
  import opened Requests
  import opened Trackers

  datatype Step =
    | Begin(attempt: Attempt)
    | Commit(index: nat)
    | Complete(index: nat, outcome: Outcome, failure: Option<Failure>, usage: Usage, abandoned: bool)
    | Finish
    | Shut(writableFinished: bool)

  predicate Unused(r: Request, id: nat) {
    forall i :: 0 <= i < |r.attempts| ==> r.attempts[i].id != id
  }

  /** A null handle does nothing, and neither does a start for which the id factory finds no fresh id. */
  function Apply(t: Tracker, s: Step, at: int): (u: Tracker)
    requires TrackerOk(t, at)
    ensures TrackerOk(u, at)
  {
    match s
    case Begin(a) =>
      if !Unused(t.request, a.id) then t
      else
        BegunOk(t, a.(startedAt := at), at);
        Begun(t, a.(startedAt := at))
    case Commit(i) =>
      if i >= |t.request.attempts| then t
      else
        CommitMarkedOk(t, i, at);
        CommitMarked(t, i, at)
    case Complete(i, outcome, failure, usage, abandoned) =>
      if i >= |t.request.attempts| then t
      else
        ClosedOk(t, i, outcome, failure, usage, abandoned, at);
        FinalizedOk(Closed(t, i, outcome, failure, usage, abandoned, at), at);
        Finalized(Closed(t, i, outcome, failure, usage, abandoned, at), at)
    case Finish =>
      EndedOk(t, Finished, at);
      FinalizedOk(Ended(t, Finished), at);
      Finalized(Ended(t, Finished), at)
    case Shut(writableFinished) =>
      var e := if writableFinished then Finished else CutOff;
      EndedOk(t, e, at);
      FinalizedOk(Ended(t, e), at);
      Finalized(Ended(t, e), at)
  }

  /** A step and the instant it runs at. */
  datatype Move = Move(step: Step, at: int)

  /** The clock never runs back. */
  predicate Timed(from: int, moves: seq<Move>) {
    (|moves| > 0 ==> from <= moves[0].at) && forall j, k :: 0 <= j < k < |moves| ==> moves[j].at <= moves[k].at
  }

  function Clock(from: int, moves: seq<Move>): int {
    if |moves| == 0 then from else moves[|moves| - 1].at
  }

  /** The tracker after a run. Every reachable one keeps the whole invariant. */
  function Run(t: Tracker, from: int, moves: seq<Move>): (u: Tracker)
    requires TrackerOk(t, from) && Timed(from, moves)
    ensures TrackerOk(u, Clock(from, moves))
    decreases |moves|
  {
    if |moves| == 0 then t
    else
      var init, last := moves[..|moves| - 1], moves[|moves| - 1];
      TimedPrefix(from, moves);
      var before := Run(t, from, init);
      TrackerLater(before, Clock(from, init), last.at);
      Apply(before, last.step, last.at)
  }

  lemma TimedPrefix(from: int, moves: seq<Move>)
    requires Timed(from, moves) && |moves| > 0
    ensures Timed(from, moves[..|moves| - 1])
    ensures Clock(from, moves[..|moves| - 1]) <= moves[|moves| - 1].at
  {
  }

  lemma {:induction false} TrackerLater(t: Tracker, then': int, now: int)
    requires TrackerOk(t, then') && then' <= now
    ensures TrackerOk(t, now)
  {
    hide RequestOk, ActiveOk;
    Later(t.request, then', now);
  }

  function Fresh(id: nat, startedAt: int, client: Option<Label>, price: PricePort, estimate: Counter): (t: Tracker)
    ensures TrackerOk(t, startedAt)
  {
    Tracker(Request(id, startedAt, client, Unattributed, price, [], None, None, None, [RequestStarted]),
            estimate, [], {}, None, false, false, None, UnknownFailure, Unattributed)
  }

  // ---------------------------------------------------------------- safety of every run

  /**
   * In every run at most one terminal event is recorded; it is the last event of all, every attempt
   * had completed before it, each of them once; and at most one attempt was ever committed.
   */
  lemma {:induction false} OneTerminalAtTheEnd(t: Tracker, from: int, moves: seq<Move>, k: nat)
    requires TrackerOk(t, from) && Timed(from, moves) && k < |Run(t, from, moves).request.events|
    requires Run(t, from, moves).request.events[k].RequestCompleted?
    ensures var r := Run(t, from, moves).request;
            && k == |r.events| - 1 && AllDone(r)
            && Distinct(Completions(r.events))
            && (forall i :: 0 <= i < |r.attempts| <==> i in Completions(r.events))
            && forall i, j :: 0 <= i < j < |r.attempts| ==> r.attempts[i].commitMs.None? || r.attempts[j].commitMs.None?
  {
    hide Run;
    var r := Run(t, from, moves).request;
    assert RequestOk(r, Clock(from, moves));
    forall i | i in Completions(r.events) ensures 0 <= i < |r.attempts| {
      CompletionsSound(r.events, i);
    }
    hide Completions;
  }

  /** Once final, a tracker never records anything more, and a recorded request never changes. */
  lemma {:induction false} FinalStep(t: Tracker, s: Step, at: int)
    requires TrackerOk(t, at) && t.finalized
    ensures var u := Apply(t, s, at);
            && u.finalized && u.request.completed == t.request.completed
            && (t.request.completed.Some? ==> u.request == t.request)
  {
    hide RequestOk, Closed, Without, CompleteAttempt, AccountingTokens, Finalized;
    match s
    case Begin(a) =>
    case Commit(i) =>
      if i < |t.request.attempts| { RecordedIsDone(t.request, at); }
    case Complete(i, outcome, failure, usage, abandoned) =>
      if i < |t.request.attempts| {
        ClosedEffect(t, i, outcome, failure, usage, abandoned, at);
        RecordedIsDone(t.request, at);
        ClosedOk(t, i, outcome, failure, usage, abandoned, at);
        FinalizedIdle(Closed(t, i, outcome, failure, usage, abandoned, at), at);
      }
    case Finish =>
      FinalizedIdle(Ended(t, Finished), at);
    case Shut(w) =>
      FinalizedIdle(Ended(t, if w then Finished else CutOff), at);
  }

  lemma FinalizedIdle(t: Tracker, at: int)
    requires TrackerOk(t, at) && t.finalized
    ensures Finalized(t, at) == t
  {
    hide TrackerOk, CloseAll, Concluded;
  }

  lemma RecordedIsDone(r: Request, now: int)
    requires RequestOk(r, now)
    ensures r.completed.Some? ==> AllDone(r)
  {
  }

  lemma {:induction false} FinalIsFinal(t: Tracker, from: int, moves: seq<Move>)
    requires TrackerOk(t, from) && Timed(from, moves) && t.finalized
    ensures var u := Run(t, from, moves);
            && u.finalized && u.request.completed == t.request.completed
            && (t.request.completed.Some? ==> u.request == t.request)
    decreases |moves|
  {
    hide TrackerOk, Apply;
    if |moves| > 0 {
      var init, last := moves[..|moves| - 1], moves[|moves| - 1];
      TimedPrefix(from, moves);
      FinalIsFinal(t, from, init);
      var before := Run(t, from, init);
      TrackerLater(before, Clock(from, init), last.at);
      FinalStep(before, last.step, last.at);
    }
  }

  /**
   * A request whose serve succeeded but never committed, and whose client then left, is never
   * recorded: not when the response closes, and not by anything that happens later.
   */
  lemma {:induction false} CutOffAfterServeIsLost(t: Tracker, at: int, moves: seq<Move>)
    requires TrackerOk(t, at) && !t.finalized && t.ending.None? && |t.active| == 0
    requires t.request.commit.None? && SomeWon(t.request) && Timed(at, moves)
    ensures Run(Apply(t, Shut(false), at), at, moves).request.completed.None?
  {
    hide RequestOk, Finalized;
    var cut := Ended(t, CutOff);
    EndedOk(t, CutOff, at);
    TerminalExactlyWhen(cut, at);
    FinalIsFinal(Apply(t, Shut(false), at), at, moves);
  }

  /** Such a request is reachable: one serve attempt that succeeds, then the client leaves. */
  lemma {:induction false} CutOffAfterServeHappens(id: nat, price: PricePort, a: Attempt, moves: seq<Move>)
    requires a.role == Serve && Timed(2, moves)
    ensures var t := Fresh(id, 0, None, price, 0);
            var run := [Move(Begin(a), 0), Move(Complete(0, Success, None, NO_USAGE, false), 1)];
            && Timed(0, run)
            && var u := Run(t, 0, run);
            && TrackerOk(u, 2) && Run(Apply(u, Shut(false), 2), 2, moves).request.completed.None?
  {
    hide TrackerOk, AccountingTokens, FirstWon, FindId, TerminalEvent;
    var t := Fresh(id, 0, None, price, 0);
    var run := [Move(Begin(a), 0), Move(Complete(0, Success, None, NO_USAGE, false), 1)];
    assert run[..1] == [Move(Begin(a), 0)] && run[..1][..0] == [];
    var t1 := Begun(t, a.(startedAt := 0));
    assert Run(t, 0, run[..1][..0]) == t;
    assert Run(t, 0, run[..1]) == t1;
    TrackerLater(t1, 0, 1);
    var t2 := Closed(t1, 0, Success, None, NO_USAGE, false, 1);
    assert Run(t, 0, run) == t2;
    assert WonServe(t2.request.attempts[0]);
    TrackerLater(t2, 1, 2);
    CutOffAfterServeIsLost(t2, 2, moves);
  }
}
