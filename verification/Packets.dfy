/** The stored record of one request: its strict load-time guard and how the ledger builds it. */
module Packets {
  import opened Common
  import opened Cells
  import opened Facts

  const MAX_DETAIL_ATTEMPTS: nat := 32
  const MAX_PACKET_ATTEMPTS: nat := 10_000

  datatype RequestPacket = RequestPacket(
    requestId: nat, startedAt: int, endedAt: int, client: Option<Label>, attribution: Attribution,
    outcome: Outcome, failure: Option<Failure>, attemptCount: nat, repairIncluded: bool,
    winningAttemptId: Option<nat>, commitAttemptId: Option<nat>,
    latencyMs: Option<Counter>, commitMs: Option<Counter>,
    provider: Option<Label>, model: Option<Label>, credentialId: Option<Label>,
    tokens: Tokens, spend: Option<SpendRecord>, attempts: seq<AttemptPacket>, total: nat, stored: nat)

  predicate HasAttempt(attempts: seq<AttemptPacket>, id: nat) {
    exists i :: 0 <= i < |attempts| && attempts[i].attemptId == id
  }

  /** The stored attempt with this id. */
  function AttemptOf(attempts: seq<AttemptPacket>, id: nat): (p: AttemptPacket)
    requires HasAttempt(attempts, id)
    ensures p in attempts && p.attemptId == id
  {
    if attempts[0].attemptId == id then attempts[0]
    else
      assert HasAttempt(attempts[1..], id) by {
        var i :| 0 <= i < |attempts| && attempts[i].attemptId == id;
        assert attempts[1..][i - 1].attemptId == id;
      }
      AttemptOf(attempts[1..], id)
  }

  predicate DistinctIds(attempts: seq<AttemptPacket>) {
    forall i, j :: 0 <= i < j < |attempts| ==> attempts[i].attemptId != attempts[j].attemptId
  }

  predicate SawRepair(attempts: seq<AttemptPacket>) {
    exists i :: 0 <= i < |attempts| && attempts[i].role == Repair
  }

  /** `spendEqual`: null is "no claim" and conflicts with nothing. */
  predicate SpendAgrees(a: Option<SpendRecord>, b: Option<SpendRecord>) {
    a.None? || b.None? || a == b
  }

  /** The attempt list itself: guarded, of this request, in order, inside its interval, unique. */
  predicate AttemptsOk(v: RequestPacket) {
    && |v.attempts| <= MAX_DETAIL_ATTEMPTS && DistinctIds(v.attempts)
    && (forall i :: 0 <= i < |v.attempts| ==>
          && IsAttemptPacket(v.attempts[i]) && v.attempts[i].requestId == v.requestId
          && v.startedAt <= v.attempts[i].startedAt && v.attempts[i].endedAt <= v.endedAt)
    && (forall i, j :: 0 <= i < j < |v.attempts| ==> v.attempts[i].startedAt <= v.attempts[j].startedAt)
  }

  /** The attempt metadata and the repair flag. */
  predicate MetadataOk(v: RequestPacket) {
    && v.total <= MAX_PACKET_ATTEMPTS && v.stored == |v.attempts| <= v.total && v.total == v.attemptCount
    && (v.total == 0 ==> !v.repairIncluded)
    && (v.total == v.stored ==> v.repairIncluded == SawRepair(v.attempts))
  }

  predicate WinnerOk(v: RequestPacket) {
    match v.winningAttemptId
    case None => v.outcome != Success
    case Some(id) =>
      && HasAttempt(v.attempts, id)
      && var w := AttemptOf(v.attempts, id);
      if v.outcome == Success then w.role == Serve && w.outcome == Success && w.failure.None?
      else v.commitAttemptId.Some?
  }

  predicate CommitOk(v: RequestPacket) {
    match v.commitAttemptId
    case None => v.commitMs.None?
    case Some(id) =>
      && v.winningAttemptId == Some(id) && HasAttempt(v.attempts, id)
      && var c := AttemptOf(v.attempts, id);
      && c.role == Serve && c.commitMs.Some? && v.commitMs == c.commitMs && v.outcome == c.outcome
      && (v.outcome == Success ==> c.failure.None?)
  }

  /** The winner's own fields are the request's fields. */
  predicate AuthoritativeOk(v: RequestPacket) {
    v.winningAttemptId.Some? && HasAttempt(v.attempts, v.winningAttemptId.value) ==>
      var w := AttemptOf(v.attempts, v.winningAttemptId.value);
      && w.provider == v.provider && w.model == v.model && w.credentialId == v.credentialId
      && w.attribution == v.attribution && w.tokens == v.tokens && SpendAgrees(w.spend, v.spend)
  }

  /** At most one attempt carries a commit time, and it is the request's committed attempt. */
  predicate SingleCommit(v: RequestPacket) {
    forall i :: 0 <= i < |v.attempts| && v.attempts[i].commitMs.Some? ==>
        v.commitAttemptId == Some(v.attempts[i].attemptId)
  }

  /** `isRequestPacket`: the strictest load-time guard of the ledger. */
  predicate IsRequestPacket(v: RequestPacket) {
    && v.startedAt <= v.endedAt && LoadableOrNull(v.client)
    && Coherent(v.outcome, v.failure) && AreTokens(v.tokens)
    && LoadableOrNull(v.provider) && LoadableOrNull(v.model) && LoadableOrNull(v.credentialId)
    && AttemptsOk(v) && MetadataOk(v) && WinnerOk(v) && CommitOk(v) && AuthoritativeOk(v) && SingleCommit(v)
  }

  // ---------------------------------------------------------------- ordering attempts

  predicate AttemptBefore(a: AttemptPacket, b: AttemptPacket) {
    a.startedAt < b.startedAt || (a.startedAt == b.startedAt && a.attemptId <= b.attemptId)
  }

  predicate InOrder(attempts: seq<AttemptPacket>) {
    forall i, j :: 0 <= i < j < |attempts| ==> AttemptBefore(attempts[i], attempts[j])
  }

  /** One step of the attempt sort: the place of p in an ordered list. */
  function InsertAttempt(sorted: seq<AttemptPacket>, p: AttemptPacket): seq<AttemptPacket> {
    if |sorted| == 0 || AttemptBefore(sorted[|sorted| - 1], p) then sorted + [p]
    else InsertAttempt(sorted[..|sorted| - 1], p) + [sorted[|sorted| - 1]]
  }

  lemma {:induction false} InsertedMembers(sorted: seq<AttemptPacket>, p: AttemptPacket)
    ensures multiset(InsertAttempt(sorted, p)) == multiset(sorted) + multiset{p}
  {
    if |sorted| > 0 {
      InsertedMembers(sorted[..|sorted| - 1], p);
      assert sorted == sorted[..|sorted| - 1] + [sorted[|sorted| - 1]];
    }
  }

  lemma {:induction false} InsertedInOrder(sorted: seq<AttemptPacket>, p: AttemptPacket)
    requires InOrder(sorted)
    ensures InOrder(InsertAttempt(sorted, p))
  {
    if |sorted| > 0 {
      var init, last := sorted[..|sorted| - 1], sorted[|sorted| - 1];
      if AttemptBefore(last, p) {
        assert forall i :: 0 <= i < |init| ==> AttemptBefore(sorted[i], last);
      } else {
        InsertedInOrder(init, p);
        InsertedMembers(init, p);
        var r := InsertAttempt(init, p);
        forall i | 0 <= i < |r| ensures AttemptBefore(r[i], last) {
          assert r[i] in multiset(init) + multiset{p};
        }
      }
    }
  }

  /** `sortedAttempts`: by start, then by id. */
  function SortAttempts(attempts: seq<AttemptPacket>): (r: seq<AttemptPacket>)
    ensures multiset(r) == multiset(attempts) && InOrder(r)
  {
    if |attempts| == 0 then []
    else
      var init, last := attempts[..|attempts| - 1], attempts[|attempts| - 1];
      assert attempts == init + [last];
      InsertedMembers(SortAttempts(init), last);
      InsertedInOrder(SortAttempts(init), last);
      InsertAttempt(SortAttempts(init), last)
  }

  // ---------------------------------------------------------------- building a packet

  function Keep(attempts: seq<AttemptPacket>, ids: set<nat>): (r: seq<AttemptPacket>)
    ensures |r| <= |attempts|
  {
    if |attempts| == 0 then []
    else Keep(attempts[..|attempts| - 1], ids)
         + if attempts[|attempts| - 1].attemptId in ids then [attempts[|attempts| - 1]] else []
  }

  function Skip(attempts: seq<AttemptPacket>, ids: set<nat>): (r: seq<AttemptPacket>)
    ensures |r| <= |attempts|
  {
    if |attempts| == 0 then []
    else Skip(attempts[..|attempts| - 1], ids)
         + if attempts[|attempts| - 1].attemptId in ids then [] else [attempts[|attempts| - 1]]
  }

  /** The retained attempts: the forced ones, then others in order while there is room. */
  function Retained(all: seq<AttemptPacket>, forced: set<nat>): seq<AttemptPacket> {
    var kept, others := Keep(all, forced), Skip(all, forced);
    kept + others[..Min(|others|, Max(0, MAX_DETAIL_ATTEMPTS - |kept|))]
  }

  lemma {:induction false} KeepSkipStep(all: seq<AttemptPacket>, ids: set<nat>, i: nat)
    requires i < |all|
    ensures Keep(all[..i + 1], ids) == Keep(all[..i], ids) + if all[i].attemptId in ids then [all[i]] else []
    ensures Skip(all[..i + 1], ids) == Skip(all[..i], ids) + if all[i].attemptId in ids then [] else [all[i]]
  {
    assert all[..i + 1][..i] == all[..i];
  }

  /** The forced attempts, by a filter over the list. */
  method KeepForced(all: seq<AttemptPacket>, forced: set<nat>) returns (kept: seq<AttemptPacket>)
    ensures kept == Keep(all, forced)
  {
    kept := [];
    for i := 0 to |all|
      invariant kept == Keep(all[..i], forced)
    {
      KeepSkipStep(all, forced, i);
      hide Keep;
      if all[i].attemptId in forced { kept := kept + [all[i]]; }
    }
    assert all[..|all|] == all;
  }

  /** The retention loop of `packetFor`: others join in order until the detail cap. */
  method Retain(all: seq<AttemptPacket>, forced: set<nat>) returns (retained: seq<AttemptPacket>)
    ensures retained == Retained(all, forced)
  {
    var kept := KeepForced(all, forced);
    var others, i := [], 0;
    while i < |all| && |kept| + |others| < MAX_DETAIL_ATTEMPTS
      invariant 0 <= i <= |all|
      invariant others == Skip(all[..i], forced)
      invariant |others| <= Max(0, MAX_DETAIL_ATTEMPTS - |kept|)
    {
      KeepSkipStep(all, forced, i);
      hide Keep, Skip;
      if all[i].attemptId !in forced { others := others + [all[i]]; }
      i := i + 1;
    }
    SkipPrefix(all, forced, i);
    hide Keep, Skip;
    retained := kept + others;
  }

  lemma {:induction false} SkipPrefix(all: seq<AttemptPacket>, ids: set<nat>, i: nat)
    requires i <= |all|
    ensures Skip(all[..i], ids) <= Skip(all, ids)
    ensures i == |all| ==> Skip(all[..i], ids) == Skip(all, ids)
    decreases |all|
  {
    if i == |all| {
      assert all[..i] == all;
    } else {
      assert all[..|all| - 1][..i] == all[..i];
      SkipPrefix(all[..|all| - 1], ids, i);
    }
  }

  datatype Start = Start(startedAt: int, client: Option<Label>)

  function IdSet(a: Option<nat>, b: Option<nat>, all: seq<AttemptPacket>): set<nat> {
    (if a.Some? && HasAttempt(all, a.value) then {a.value} else {})
    + (if b.Some? && HasAttempt(all, b.value) then {b.value} else {})
  }

  function Lookup(all: seq<AttemptPacket>, id: Option<nat>): Option<AttemptPacket> {
    if id.Some? && HasAttempt(all, id.value) then Some(AttemptOf(all, id.value)) else None
  }

  /** The record `packetFor` assembles before it asks the guard. */
  function Assemble(e: RequestEvent, start: Start, all: seq<AttemptPacket>): RequestPacket {
    var total := Max(Min(e.attemptCount, MAX_PACKET_ATTEMPTS), Min(|all|, MAX_PACKET_ATTEMPTS));
    var winner, committed := Lookup(all, e.winningAttemptId), Lookup(all, e.commitAttemptId);
    var sorted := SortAttempts(Retained(all, IdSet(e.winningAttemptId, e.commitAttemptId, all)));
    var retained := sorted[..Min(|sorted|, total)];
    var lead := Either(winner, committed);
    RequestPacket(
      e.requestId, start.startedAt, e.endedAt, start.client,
      if lead.Some? then lead.value.attribution else e.attribution,
      e.outcome, SafeFailure(e.failure, e.outcome), total, e.repairIncluded,
      if winner.Some? then Some(winner.value.attemptId) else None,
      if committed.Some? then Some(committed.value.attemptId) else None,
      e.latencyMs, if committed.Some? then committed.value.commitMs else None,
      Either(if lead.Some? then lead.value.provider else None, e.provider),
      Either(if lead.Some? then lead.value.model else None, e.model),
      Either(if lead.Some? then lead.value.credentialId else None, e.credentialId),
      if lead.Some? then lead.value.tokens else Snapshot(e.tokens),
      if lead.Some? then lead.value.spend else None,
      retained, total, |retained|)
  }

  /** `packetFor`: null without a usable start, a named attempt, or the guard's consent. */
  function PacketFor(e: RequestEvent, start: Option<Start>, all: seq<AttemptPacket>): (r: Option<RequestPacket>)
    ensures r.Some? ==> IsRequestPacket(r.value) && r.value.requestId == e.requestId && r.value.endedAt == e.endedAt
  {
    if start.None? || start.value.startedAt > e.endedAt then None
    else
      var v := Assemble(e, start.value, all);
      var winnerPresent := e.winningAttemptId.None? || HasAttempt(v.attempts, e.winningAttemptId.value);
      var commitPresent := e.commitAttemptId.None? || HasAttempt(v.attempts, e.commitAttemptId.value);
      if !winnerPresent || !commitPresent || (e.outcome == Success && Lookup(all, e.winningAttemptId).None?) then None
      else if IsRequestPacket(v) then Some(v) else None
  }

  /** The attempt of this id, if it is among them, is unique. */
  lemma LookupFinds(all: seq<AttemptPacket>, i: nat)
    requires DistinctIds(all) && i < |all|
    ensures Lookup(all, Some(all[i].attemptId)) == Some(all[i])
  {
    assert HasAttempt(all, all[i].attemptId);
    var p := AttemptOf(all, all[i].attemptId);
    var j :| 0 <= j < |all| && all[j] == p;
  }

  /**
   * A packet says what the event says, and lets its winner speak for whom the request went to, what it
   * took and what it cost; without a winner the event's own names and figures stand, and no cost.
   */
  lemma {:induction false} PacketSays(e: RequestEvent, start: Start, all: seq<AttemptPacket>)
    requires DistinctIds(all) && PacketFor(e, Some(start), all).Some?
    ensures var v := PacketFor(e, Some(start), all).value;
            && v.requestId == e.requestId && v.startedAt == start.startedAt && v.endedAt == e.endedAt
            && v.client == start.client && v.outcome == e.outcome && v.latencyMs == e.latencyMs
            && v.failure == (if e.outcome == Success then None else e.failure) && v.repairIncluded == e.repairIncluded
            && v.winningAttemptId == e.winningAttemptId && v.commitAttemptId == e.commitAttemptId
            && v.total == v.attemptCount
               == Max(Min(e.attemptCount, MAX_PACKET_ATTEMPTS), Min(|all|, MAX_PACKET_ATTEMPTS))
            && (forall i :: 0 <= i < |all| && e.winningAttemptId == Some(all[i].attemptId) ==>
                  && v.attribution == all[i].attribution && v.tokens == all[i].tokens && v.spend == all[i].spend
                  && v.provider == Either(all[i].provider, e.provider) && v.model == Either(all[i].model, e.model)
                  && v.credentialId == Either(all[i].credentialId, e.credentialId))
            && (forall i :: 0 <= i < |all| && e.commitAttemptId == Some(all[i].attemptId) ==>
                  v.commitMs == all[i].commitMs)
            && (e.commitAttemptId.None? ==> v.commitMs.None?)
            && (e.winningAttemptId.None? ==>
                  && v.attribution == e.attribution && v.tokens == Snapshot(e.tokens) && v.spend.None?
                  && v.provider == e.provider && v.model == e.model && v.credentialId == e.credentialId)
  {
    hide IsAttemptPacket, AreTokens, SortAttempts, Retained, AttemptsOk, MetadataOk, WinnerOk, AuthoritativeOk,
         SingleCommit, AttemptOf, Snapshot;
    NamedArePresent(e, start, all);
    forall i | 0 <= i < |all| ensures Lookup(all, Some(all[i].attemptId)) == Some(all[i]) {
      LookupFinds(all, i);
    }
  }

  lemma {:induction false} RetainedAreGiven(all: seq<AttemptPacket>, forced: set<nat>)
    ensures forall p :: p in Retained(all, forced) ==> p in all
  {
    KeepAndSkip(all, forced);
    hide Keep, Skip;
    forall p | p in Retained(all, forced) ensures p in all {
      assert p in multiset(Keep(all, forced)) + multiset(Skip(all, forced));
      assert p in multiset(all);
    }
  }

  /** Every attempt a packet keeps is one it was given. */
  lemma {:induction false} KeptAreGiven(e: RequestEvent, start: Start, all: seq<AttemptPacket>, id: nat)
    requires HasAttempt(Assemble(e, start, all).attempts, id)
    ensures HasAttempt(all, id)
  {
    hide SortAttempts, Retained, AttemptOf, Lookup;
    var v := Assemble(e, start, all);
    var kept := Retained(all, IdSet(e.winningAttemptId, e.commitAttemptId, all));
    var sorted := SortAttempts(kept);
    var i :| 0 <= i < |v.attempts| && v.attempts[i].attemptId == id;
    assert v.attempts[i] == sorted[i] && sorted[i] in multiset(sorted);
    RetainedAreGiven(all, IdSet(e.winningAttemptId, e.commitAttemptId, all));
    assert sorted[i] in multiset(kept) && sorted[i] in kept;
    assert sorted[i] in all;
    var j :| 0 <= j < |all| && all[j] == sorted[i];
  }

  /** Whoever the event names is among the attempts, or there is no packet. */
  lemma {:induction false} NamedArePresent(e: RequestEvent, start: Start, all: seq<AttemptPacket>)
    requires PacketFor(e, Some(start), all).Some?
    ensures e.winningAttemptId.Some? ==> HasAttempt(all, e.winningAttemptId.value)
    ensures e.commitAttemptId.Some? ==> HasAttempt(all, e.commitAttemptId.value)
    ensures PacketFor(e, Some(start), all).value == Assemble(e, start, all)
  {
    hide IsRequestPacket, Assemble, HasAttempt;
    if e.winningAttemptId.Some? { KeptAreGiven(e, start, all, e.winningAttemptId.value); }
    if e.commitAttemptId.Some? { KeptAreGiven(e, start, all, e.commitAttemptId.value); }
  }

  // ---------------------------------------------------------------- what is retained

  /** Two lists hold the entries of a third, each once. */
  ghost predicate Deals(a: seq<AttemptPacket>, b: seq<AttemptPacket>, all: seq<AttemptPacket>) {
    multiset(a) + multiset(b) == multiset(all) && |a| + |b| == |all|
  }

  lemma {:induction false} DealsAppended(
      a: seq<AttemptPacket>, b: seq<AttemptPacket>, all: seq<AttemptPacket>, x: AttemptPacket)
    requires Deals(a, b, all)
    ensures Deals(a + [x], b, all + [x]) && Deals(a, b + [x], all + [x])
  {
  }

  lemma {:induction false} KeepAndSkip(all: seq<AttemptPacket>, ids: set<nat>)
    ensures Deals(Keep(all, ids), Skip(all, ids), all)
  {
    if |all| > 0 {
      var init, x := all[..|all| - 1], all[|all| - 1];
      KeepAndSkip(init, ids);
      KeepStep(all, init, x, ids);
    }
  }

  lemma {:induction false} KeepStep(all: seq<AttemptPacket>, init: seq<AttemptPacket>, x: AttemptPacket, ids: set<nat>)
    requires all == init + [x] && Deals(Keep(init, ids), Skip(init, ids), init)
    ensures Deals(Keep(all, ids), Skip(all, ids), all)
  {
    hide Deals;
    assert all[..|all| - 1] == init && all[|all| - 1] == x;
    DealsAppended(Keep(init, ids), Skip(init, ids), init, x);
    assert Keep(init, ids) + [] == Keep(init, ids) && Skip(init, ids) + [] == Skip(init, ids);
  }

  lemma {:induction false} KeptIds(all: seq<AttemptPacket>, ids: set<nat>, p: AttemptPacket)
    requires p in all && p.attemptId in ids
    ensures p in Keep(all, ids)
  {
    if p != all[|all| - 1] {
      var i :| 0 <= i < |all| && all[i] == p;
      assert all[..|all| - 1][i] == p;
      KeptIds(all[..|all| - 1], ids, p);
    }
  }

  /** With at most `forced` few forced ids, the retained list fills the detail cap or holds everything. */
  lemma {:induction false} RetainedFills(all: seq<AttemptPacket>, forced: set<nat>)
    requires |Keep(all, forced)| <= MAX_DETAIL_ATTEMPTS
    ensures var r := Retained(all, forced);
            && multiset(r) <= multiset(all) && |r| == Min(|all|, MAX_DETAIL_ATTEMPTS)
            && (|r| == |all| ==> multiset(r) == multiset(all))
  {
    KeepAndSkip(all, forced);
    var kept, others := Keep(all, forced), Skip(all, forced);
    hide Keep, Skip;
    var n := Min(|others|, Max(0, MAX_DETAIL_ATTEMPTS - |kept|));
    assert others == others[..n] + others[n..];
    assert multiset(others) == multiset(others[..n]) + multiset(others[n..]);
    if n == |others| { assert others[..n] == others; }
  }
}
