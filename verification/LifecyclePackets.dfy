/**
 * From the tracker to the ledger: whatever a run records about a request, the ledger can store in
 * full. The ledger sees only the recorded events.
 */
module LifecyclePackets {
  import opened Common
  import opened Cells
  import opened Facts
  import opened Requests
  import opened Trackers
  import opened TrackerRuns
  import opened StorablePackets
  import P = Packets

  /** `makeAttempt`: the stored form of an announced attempt, if it passes its guard. */
  function MakeAttempt(requestId: nat, a: Attempt): (r: Option<AttemptPacket>)
    requires a.done.Some?
    ensures r.Some? ==> IsAttemptPacket(r.value)
  {
    var d := a.done.value;
    if a.startedAt > d.endedAt then None
    else
      var p := AttemptPacket(
        requestId, a.id, a.role, a.startedAt, d.endedAt, d.outcome, SafeFailure(d.failure, d.outcome), a.attribution,
        d.latencyMs, if a.role == Serve then a.commitMs else None, a.provider, a.model, a.credentialId,
        Snapshot(d.tokens), d.spend);
      if IsAttemptPacket(p) then Some(p) else None
  }

  predicate Announced(events: seq<Event>) {
    forall k :: 0 <= k < |events| && events[k].AttemptCompleted? ==> events[k].attempt.done.Some?
  }

  /** `onAttemptCompleted` over a request's events: what is pending for it, in order of completion. */
  function Pending(requestId: nat, events: seq<Event>): seq<AttemptPacket>
    requires Announced(events)
  {
    if |events| == 0 then []
    else
      var before, last := Pending(requestId, events[..|events| - 1]), events[|events| - 1];
      if !last.AttemptCompleted? then before
      else
        var p := MakeAttempt(requestId, last.attempt);
        if p.None? || P.HasAttempt(before, p.value.attemptId) then before else before + [p.value]
  }

  /** Ids and names the load-time guard accepts. */
  predicate Loadable(r: Request) {
    && LoadableOrNull(r.client)
    && forall i :: 0 <= i < |r.attempts| ==>
         && LoadableOrNull(r.attempts[i].provider) && LoadableOrNull(r.attempts[i].model)
         && LoadableOrNull(r.attempts[i].credentialId)
  }

  // ---------------------------------------------------------------- the terminal event

  /** The terminal event is the one its own attempts call for. */
  predicate EventOk(r: Request) {
    r.completed.Some? ==>
      var e, w := r.completed.value, Winner(r, Unclaimed);
      && AllDone(r) && CommitInside(r)
      && e == TerminalEvent(r, Completion(None, e.failure, Some(e.attribution), Unclaimed), w, e.outcome, e.endedAt)
      && Coherent(e.outcome, e.failure) && TimesOk(r, e.endedAt)
      && (if w.None? then e.outcome != Success
          else e.outcome == r.attempts[w.value].done.value.outcome && (e.outcome != Success ==> w == r.commit))
  }

  lemma {:induction false} ConcludedEvent(t: Tracker, at: int)
    requires TrackerOk(t, at) && !t.finalized && t.ending.Some? && CommitInside(t.request)
    ensures EventOk(Concluded(t, at).request)
  {
    hide FindId, FirstWon, LogOk, ActiveOk, CommitKept, DistinctAttempts, HasRepair, AbandonedSpend, NoTokens;
    Unfinished(t, at);
  }

  lemma {:induction false} ApplyKeepsEvent(t: Tracker, s: Step, at: int)
    requires TrackerOk(t, at) && EventOk(t.request)
    ensures EventOk(Apply(t, s, at).request)
  {
    hide TrackerOk, CloseAll, Concluded, Closed, Begun, CommitMarked;
    if t.finalized {
      FinalStep(t, s, at);
      RecordedEventStays(t.request, Apply(t, s, at).request);
    } else {
      match s
      case Begin(a) => BegunUnrecorded(t, a, at);
      case Commit(i) => if i < |t.request.attempts| { CommitUnrecorded(t, i, at); }
      case Complete(i, outcome, failure, usage, abandoned) =>
        if i < |t.request.attempts| {
          ClosedOk(t, i, outcome, failure, usage, abandoned, at);
          ClosedEffect(t, i, outcome, failure, usage, abandoned, at);
          FinalizedEvent(Closed(t, i, outcome, failure, usage, abandoned, at), at);
        }
      case Finish =>
        EndedOk(t, Finished, at);
        FinalizedEvent(Ended(t, Finished), at);
      case Shut(writableFinished) =>
        EndedOk(t, if writableFinished then Finished else CutOff, at);
        FinalizedEvent(Ended(t, if writableFinished then Finished else CutOff), at);
    }
  }

  lemma RecordedEventStays(r: Request, s: Request)
    requires EventOk(r) && s.completed == r.completed && (r.completed.Some? ==> s == r)
    ensures EventOk(s)
  {
  }

  lemma BegunUnrecorded(t: Tracker, a: Attempt, at: int)
    requires TrackerOk(t, at) && !t.finalized
    ensures Begun(t, a.(startedAt := at)).request.completed.None?
  {
  }

  lemma CommitUnrecorded(t: Tracker, i: nat, at: int)
    requires TrackerOk(t, at) && !t.finalized && i < |t.request.attempts|
    ensures CommitMarked(t, i, at).request.completed.None?
  {
  }

  lemma {:induction false} FinalizedEvent(t: Tracker, at: int)
    requires TrackerOk(t, at) && !t.finalized
    ensures EventOk(Finalized(t, at).request)
  {
    hide TrackerOk, CloseAll, Concluded, EventOk;
    Unfinished(t, at);
    UnrecordedIsOk(t.request);
    if Ready(t) {
      HeadOpen(t, at);
      ClosedAllOk(t, t.active, at);
      ConcludedEvent(CloseAll(t, t.active, at), at);
    }
  }

  lemma UnrecordedIsOk(r: Request)
    requires r.completed.None?
    ensures EventOk(r)
  {
  }

  lemma {:induction false} RunKeepsEvent(t: Tracker, from: int, moves: seq<Move>)
    requires TrackerOk(t, from) && EventOk(t.request) && Timed(from, moves)
    ensures EventOk(Run(t, from, moves).request)
    decreases |moves|
  {
    hide TrackerOk, Apply, EventOk;
    if |moves| > 0 {
      var init, last := moves[..|moves| - 1], moves[|moves| - 1];
      TimedPrefix(from, moves);
      RunKeepsEvent(t, from, init);
      var before := Run(t, from, init);
      TrackerLater(before, Clock(from, init), last.at);
      ApplyKeepsEvent(before, last.step, last.at);
    }
  }

  // ---------------------------------------------------------------- what is pending is every attempt

  lemma {:induction false} CompletionsPrefix(events: seq<Event>, n: nat)
    requires n <= |events|
    ensures Completions(events[..n]) <= Completions(events)
    decreases |events|
  {
    if n == |events| {
      assert events[..n] == events;
    } else {
      assert events[..|events| - 1][..n] == events[..n];
      CompletionsPrefix(events[..|events| - 1], n);
    }
  }

  /** The stored form of a finished attempt says what the attempt recorded; a success names no failure. */
  predicate Stores(p: AttemptPacket, requestId: nat, a: Attempt)
    requires a.done.Some?
  {
    var d := a.done.value;
    && p.requestId == requestId && p.attemptId == a.id && p.role == a.role && p.attribution == a.attribution
    && p.startedAt == a.startedAt && p.endedAt == d.endedAt && p.latencyMs == d.latencyMs
    && p.commitMs == a.commitMs && p.outcome == d.outcome
    && p.failure == (if d.outcome == Success then None else d.failure)
    && p.provider == a.provider && p.model == a.model && p.credentialId == a.credentialId && p.spend == d.spend
    && forall k :: 0 <= k < KINDS ==> p.tokens[k] == FoldRaw([d.tokens[k]])
  }

  /** A finished attempt inside its interval, with loadable names, passes the attempt guard. */
  lemma {:induction false} AttemptStorable(r: Request, i: nat, now: int)
    requires TimesOk(r, now) && CommitKept(r) && Loadable(r) && i < |r.attempts| && r.attempts[i].done.Some?
    ensures var p := MakeAttempt(r.id, r.attempts[i]);
            && p.Some? && Stores(p.value, r.id, r.attempts[i])
            && IsAttemptPacket(p.value) && AreSnapshots(p.value.tokens) && p.value.requestId == r.id
            && p.value.attemptId == r.attempts[i].id && p.value.role == r.attempts[i].role
            && r.startedAt <= p.value.startedAt && p.value.endedAt == r.attempts[i].done.value.endedAt <= now
            && p.value.outcome == r.attempts[i].done.value.outcome && p.value.commitMs == r.attempts[i].commitMs
            && p.value.provider == r.attempts[i].provider && p.value.model == r.attempts[i].model
            && p.value.credentialId == r.attempts[i].credentialId
  {
    hide Snapshot, AreSnapshots, FoldRaw;
    SnapshotsAreTokens(r.attempts[i].done.value.tokens);
    SnapshotsAreFolds(r.attempts[i].done.value.tokens);
  }

  lemma SnapshotsAreFolds(facts: TokenFacts)
    ensures forall k :: 0 <= k < KINDS ==> Snapshot(facts)[k] == FoldRaw([facts[k]])
  {
    forall k | 0 <= k < KINDS ensures Snapshot(facts)[k] == FoldRaw([facts[k]]) {
      assert [facts[k]][..0] == [];
      assert FoldRaw([]) == EMPTY_TOKEN_CELL;
    }
  }

  lemma SnapshotsAreTokens(facts: TokenFacts)
    ensures AreTokens(Snapshot(facts))
  {
    hide Snapshot;
  }

  /** Pending, event by event: the stored form of each completed attempt, in order of completion. */
  lemma {:induction false} PendingIs(r: Request, n: nat, now: int)
    requires RequestOk(r, now) && Loadable(r) && n <= |r.events|
    ensures Announced(r.events[..n])
    ensures var ps, cs := Pending(r.id, r.events[..n]), Completions(r.events[..n]);
            && |ps| == |cs|
            && forall k :: 0 <= k < |cs| ==>
                 && cs[k] < |r.attempts| && r.attempts[cs[k]].done.Some?
                 && MakeAttempt(r.id, r.attempts[cs[k]]) == Some(ps[k])
  {
    hide Loadable, MakeAttempt, CommitKept, TimesOk;
    if n > 0 {
      PendingIs(r, n - 1, now);
      assert r.events[..n][..n - 1] == r.events[..n - 1];
      var last := r.events[n - 1];
      var ps, cs := Pending(r.id, r.events[..n - 1]), Completions(r.events[..n - 1]);
      if last.AttemptCompleted? {
        AttemptStorable(r, last.index, now);
        CompletionsPrefix(r.events, n);
        var all := Completions(r.events);
        assert all[|cs|] == last.index && forall k :: 0 <= k < |cs| ==> all[k] == cs[k];
        forall k | 0 <= k < |ps| ensures ps[k].attemptId != r.attempts[last.index].id {
          AttemptStorable(r, cs[k], now);
        }
      }
    }
  }

  lemma {:induction false} CountsAll(cs: seq<nat>, n: nat)
    requires Distinct(cs) && forall i :: i in cs <==> 0 <= i < n
    ensures |cs| == n
    decreases n
  {
    if |cs| == 0 {
      assert n > 0 ==> 0 in cs;
    } else {
      assert cs[0] in cs;
      WithoutHolds(cs, n - 1);
      WithoutLength(cs, n - 1);
      CountsAll(Without(cs, n - 1), n - 1);
    }
  }

  /** The stored form of one of a request's finished attempts. */
  predicate IsRecord(r: Request, p: AttemptPacket) {
    exists i :: 0 <= i < |r.attempts| && r.attempts[i].done.Some? && MakeAttempt(r.id, r.attempts[i]) == Some(p)
  }

  /** Once the request is complete, what is pending is exactly its attempts. */
  lemma {:induction false} PendingIsAll(r: Request, now: int)
    requires RequestOk(r, now) && Loadable(r) && r.completed.Some?
    ensures Announced(r.events)
    ensures var ps := Pending(r.id, r.events);
            && |ps| == |r.attempts| && P.DistinctIds(ps)
            && (forall k :: 0 <= k < |ps| ==> IsRecord(r, ps[k]))
            && (forall i :: 0 <= i < |r.attempts| ==>
                  r.attempts[i].done.Some? && MakeAttempt(r.id, r.attempts[i]).Some?
                  && MakeAttempt(r.id, r.attempts[i]).value in ps)
  {
    hide Loadable, MakeAttempt, CommitKept, TimesOk, Completions, Pending;
    assert r.events[..|r.events|] == r.events;
    PendingIs(r, |r.events|, now);
    var ps, cs := Pending(r.id, r.events), Completions(r.events);
    forall i | i in cs ensures 0 <= i < |r.attempts| {
      var k :| 0 <= k < |cs| && cs[k] == i;
    }
    CountsAll(cs, |r.attempts|);
    forall k | 0 <= k < |ps|
      ensures IsRecord(r, ps[k])
    {
      assert cs[k] < |r.attempts| && r.attempts[cs[k]].done.Some?
             && MakeAttempt(r.id, r.attempts[cs[k]]) == Some(ps[k]);
    }
    forall j, k | 0 <= j < k < |ps| ensures ps[j].attemptId != ps[k].attemptId {
      AttemptStorable(r, cs[j], now);
      AttemptStorable(r, cs[k], now);
      assert cs[j] != cs[k];
    }
    forall i | 0 <= i < |r.attempts|
      ensures r.attempts[i].done.Some? && MakeAttempt(r.id, r.attempts[i]).Some?
              && MakeAttempt(r.id, r.attempts[i]).value in ps
    {
      assert r.attempts[i].done.Some? && i in cs;
      var k :| 0 <= k < |cs| && cs[k] == i;
      assert ps[k] in ps;
    }
  }

  /** What the ledger finds pending when a request completes. */
  function Sorted(r: Request): seq<AttemptPacket>
    requires Announced(r.events)
  {
    P.SortAttempts(Pending(r.id, r.events))
  }

  lemma {:induction false} SortedIsAll(r: Request, now: int)
    requires RequestOk(r, now) && Loadable(r) && r.completed.Some?
    ensures Announced(r.events)
    ensures var all := Sorted(r);
            && |all| == |r.attempts| && P.DistinctIds(all) && P.InOrder(all)
            && (forall k :: 0 <= k < |all| ==> IsRecord(r, all[k]))
            && (forall i :: 0 <= i < |r.attempts| ==>
                  r.attempts[i].done.Some? && MakeAttempt(r.id, r.attempts[i]).Some?
                  && MakeAttempt(r.id, r.attempts[i]).value in all)
  {
    hide Loadable, MakeAttempt, RequestOk, Pending, P.SortAttempts;
    PendingIsAll(r, now);
    var ps, all := Pending(r.id, r.events), Sorted(r);
    assert |all| == |multiset(all)| == |multiset(ps)| == |ps|;
    MultisetDistinct(all, ps);
    forall k | 0 <= k < |all| ensures all[k] in ps {
      assert all[k] in multiset(all);
    }
    forall p | p in ps ensures p in all {
      assert p in multiset(ps);
    }
  }

  // ---------------------------------------------------------------- the theorem

  lemma {:induction false} RepairSeen(r: Request, now: int)
    requires RequestOk(r, now) && Loadable(r) && r.completed.Some?
    ensures Announced(r.events) && (P.SawRepair(Sorted(r)) <==> HasRepair(r.attempts))
  {
    hide Loadable, MakeAttempt, Sorted, LogOk, DistinctAttempts, IsAttemptPacket, IsRecord, HasRepair, P.SawRepair;
    SortedIsAll(r, now);
    if P.SawRepair(Sorted(r)) { RepairStarted(r, now); }
    if HasRepair(r.attempts) { RepairRecorded(r, now); }
  }

  lemma {:induction false} RepairStarted(r: Request, now: int)
    requires RequestOk(r, now) && Loadable(r) && r.completed.Some? && P.SawRepair(Sorted(r))
    ensures HasRepair(r.attempts)
  {
    hide Loadable, MakeAttempt, Sorted, LogOk, DistinctAttempts, IsAttemptPacket;
    SortedIsAll(r, now);
    var all := Sorted(r);
    var k :| 0 <= k < |all| && all[k].role == Repair;
    assert IsRecord(r, all[k]);
    var i :| 0 <= i < |r.attempts| && r.attempts[i].done.Some? && MakeAttempt(r.id, r.attempts[i]) == Some(all[k]);
    AttemptStorable(r, i, now);
  }

  lemma {:induction false} RepairRecorded(r: Request, now: int)
    requires RequestOk(r, now) && Loadable(r) && r.completed.Some? && HasRepair(r.attempts)
    ensures P.SawRepair(Sorted(r))
  {
    hide Loadable, MakeAttempt, Sorted, LogOk, DistinctAttempts, IsAttemptPacket;
    SortedIsAll(r, now);
    var all := Sorted(r);
    var i :| 0 <= i < |r.attempts| && r.attempts[i].role == Repair;
    AttemptStorable(r, i, now);
    var k :| 0 <= k < |all| && all[k] == MakeAttempt(r.id, r.attempts[i]).value;
  }

  lemma {:induction false} AttemptsOfRunFit(r: Request, now: int)
    requires RequestOk(r, now) && EventOk(r) && Loadable(r) && r.completed.Some?
             && |r.attempts| <= P.MAX_PACKET_ATTEMPTS
    ensures Announced(r.events) && AttemptsFit(r.completed.value, r.startedAt, Sorted(r))
  {
    hide Loadable, MakeAttempt, Sorted, LogOk, DistinctAttempts, FirstWon, FindId, AbandonedSpend, IsAttemptPacket,
         HasRepair, P.SawRepair;
    SortedIsAll(r, now);
    RepairSeen(r, now);
    var e, all := r.completed.value, Sorted(r);
    forall k | 0 <= k < |all|
      ensures IsAttemptPacket(all[k]) && all[k].requestId == e.requestId
              && r.startedAt <= all[k].startedAt && all[k].endedAt <= e.endedAt
              && (all[k].commitMs.Some? ==> e.commitAttemptId == Some(all[k].attemptId))
    {
      assert IsRecord(r, all[k]);
      var i :| 0 <= i < |r.attempts| && r.attempts[i].done.Some? && MakeAttempt(r.id, r.attempts[i]) == Some(all[k]);
      AttemptStorable(r, i, e.endedAt);
    }
  }

  lemma {:induction false} ClaimsOfRunFit(r: Request, now: int)
    requires RequestOk(r, now) && EventOk(r) && Loadable(r) && r.completed.Some?
    ensures Announced(r.events) && ClaimsFit(r.completed.value, Sorted(r))
  {
    hide Loadable, MakeAttempt, Sorted, LogOk, DistinctAttempts, FirstWon, FindId, AbandonedSpend, HasRepair,
         P.AttemptOf;
    SortedIsAll(r, now);
    var e, all, w := r.completed.value, Sorted(r), Winner(r, Unclaimed);
    if w.Some? {
      AttemptStorable(r, w.value, now);
      var p := MakeAttempt(r.id, r.attempts[w.value]).value;
      var k :| 0 <= k < |all| && all[k] == p;
      assert P.HasAttempt(all, p.attemptId);
      SameIdSame(all, p, P.AttemptOf(all, p.attemptId));
    }
  }

  /**
   * For every run of a tracked request on a clock that never runs back, with nothing of it dropped
   * on the way and loadable names, the packet the ledger builds from the recorded events exists:
   * it passes every clause of the strictest guard.
   */
  lemma {:induction false} EveryRunIsStorable(id: nat, startedAt: int, client: Option<Label>, price: PricePort,
                                             estimate: Counter, moves: seq<Move>)
    requires Timed(startedAt, moves)
    ensures var r := Run(Fresh(id, startedAt, client, price, estimate), startedAt, moves).request;
            Loadable(r) && r.completed.Some? && |r.attempts| <= P.MAX_PACKET_ATTEMPTS ==>
              && Announced(r.events)
              && P.PacketFor(r.completed.value, Some(P.Start(r.startedAt, r.client)), Sorted(r)).Some?
  {
    hide Run, Loadable, Sorted, P.PacketFor, AttemptsFit, ClaimsFit, P.Assemble;
    var t := Fresh(id, startedAt, client, price, estimate);
    RunKeepsEvent(t, startedAt, moves);
    var u := Run(t, startedAt, moves);
    var r := u.request;
    if Loadable(r) && r.completed.Some? && |r.attempts| <= P.MAX_PACKET_ATTEMPTS {
      var now := Clock(startedAt, moves);
      RequestOfTracker(u, now);
      AttemptsOfRunFit(r, now);
      ClaimsOfRunFit(r, now);
      EndsAfterStart(r);
      ClientLoadable(r);
      PacketStorable(r.completed.value, P.Start(r.startedAt, r.client), Sorted(r));
    }
  }

  lemma RequestOfTracker(t: Tracker, now: int)
    requires TrackerOk(t, now)
    ensures RequestOk(t.request, now)
  {
  }

  lemma EndsAfterStart(r: Request)
    requires EventOk(r) && r.completed.Some?
    ensures r.startedAt <= r.completed.value.endedAt
  {
  }

  lemma ClientLoadable(r: Request)
    requires Loadable(r)
    ensures LoadableOrNull(r.client)
  {
  }
}
