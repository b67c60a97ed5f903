/**
 * What the tracker records can be stored: the packet the ledger builds from any run of a tracked
 * request passes the strictest load-time guard.
 */
module StorablePackets {
  import opened Common
  import opened Cells
  import opened Facts
  import P = Packets

  /** The attempts of one finished request, sorted, as the ledger holds them. */
  predicate AttemptsFit(e: RequestEvent, startedAt: int, all: seq<AttemptPacket>) {
    && P.DistinctIds(all) && P.InOrder(all) && |all| == e.attemptCount <= P.MAX_PACKET_ATTEMPTS
    && (forall i :: 0 <= i < |all| ==>
          && IsAttemptPacket(all[i]) && all[i].requestId == e.requestId
          && startedAt <= all[i].startedAt && all[i].endedAt <= e.endedAt
          && (all[i].commitMs.Some? ==> e.commitAttemptId == Some(all[i].attemptId)))
    && e.repairIncluded == P.SawRepair(all)
  }

  /** The event's own claims, against its winner. */
  predicate ClaimsFit(e: RequestEvent, all: seq<AttemptPacket>) {
    && Coherent(e.outcome, e.failure)
    && (e.commitAttemptId.Some? ==> e.winningAttemptId == e.commitAttemptId)
    && match e.winningAttemptId
       case None => e.outcome != Success && e.provider.None? && e.model.None? && e.credentialId.None?
       case Some(id) =>
         && P.HasAttempt(all, id)
         && var w := P.AttemptOf(all, id);
         && w.role == Serve && w.outcome == e.outcome && (e.outcome != Success ==> e.commitAttemptId.Some?)
         && (e.commitAttemptId.Some? ==> w.commitMs.Some?)
         && e.provider == w.provider && e.model == w.model && e.credentialId == w.credentialId
  }

  // ---------------------------------------------------------------- the retained attempts

  lemma {:induction false} KeepFew(all: seq<AttemptPacket>, ids: set<nat>)
    requires P.DistinctIds(all)
    ensures |P.Keep(all, ids)| <= |ids|
    ensures forall p :: p in P.Keep(all, ids) ==> p in all && p.attemptId in ids
  {
    if |all| > 0 {
      var init, last := all[..|all| - 1], all[|all| - 1];
      KeepFew(init, ids - {last.attemptId});
      KeepFew(init, ids);
      if last.attemptId in ids {
        SameKept(init, ids, last.attemptId);
        assert |ids - {last.attemptId}| == |ids| - 1;
      }
    }
  }

  lemma {:induction false} SameKept(all: seq<AttemptPacket>, ids: set<nat>, id: nat)
    requires forall i :: 0 <= i < |all| ==> all[i].attemptId != id
    ensures P.Keep(all, ids) == P.Keep(all, ids - {id})
  {
    if |all| > 0 { SameKept(all[..|all| - 1], ids, id); }
  }

  lemma {:induction false} MultisetDistinct(some: seq<AttemptPacket>, all: seq<AttemptPacket>)
    requires P.DistinctIds(all) && multiset(some) <= multiset(all)
    ensures P.DistinctIds(some)
  {
    forall i, j | 0 <= i < j < |some| ensures some[i].attemptId != some[j].attemptId {
      if some[i].attemptId == some[j].attemptId {
        assert some[i] in multiset(some) && some[j] in multiset(some);
        SameIdSame(all, some[i], some[j]);
        Twice(some, i, j);
        Once(all, some[i]);
        assert false;
      }
    }
  }

  lemma SameIdSame(all: seq<AttemptPacket>, p: AttemptPacket, q: AttemptPacket)
    requires P.DistinctIds(all) && p in all && q in all && p.attemptId == q.attemptId
    ensures p == q
  {
    var i :| 0 <= i < |all| && all[i] == p;
    var j :| 0 <= j < |all| && all[j] == q;
  }

  lemma {:induction false} Twice(s: seq<AttemptPacket>, i: nat, j: nat)
    requires i < j < |s| && s[i] == s[j]
    ensures multiset(s)[s[i]] >= 2
  {
    assert s == s[..j] + s[j..];
    assert s[i] == s[..j][i] && s[j] == s[j..][0];
    assert s[i] in multiset(s[..j]) && s[i] in multiset(s[j..]);
  }

  lemma {:induction false} Once(all: seq<AttemptPacket>, p: AttemptPacket)
    requires P.DistinctIds(all) && p in all
    ensures multiset(all)[p] == 1
  {
    var k :| 0 <= k < |all| && all[k] == p;
    assert all == all[..k] + [p] + all[k + 1..];
    assert p !in all[..k] && p !in all[k + 1..];
    assert multiset(all) == multiset(all[..k]) + multiset{p} + multiset(all[k + 1..]);
  }

  /** What the packet keeps of the attempts: some of them, in order, the winner among them. */
  lemma {:induction false} KeptAttempts(all: seq<AttemptPacket>, forced: set<nat>)
    requires P.DistinctIds(all) && |forced| <= P.MAX_DETAIL_ATTEMPTS
    ensures var kept := P.SortAttempts(P.Retained(all, forced));
            && P.DistinctIds(kept) && P.InOrder(kept) && |kept| == Min(|all|, P.MAX_DETAIL_ATTEMPTS)
            && (forall i :: 0 <= i < |kept| ==> kept[i] in all)
            && (forall p :: p in all && p.attemptId in forced ==> p in kept)
            && (|kept| == |all| ==> forall p :: p in all ==> p in kept)
  {
    hide P.Retained, P.SortAttempts, P.Keep, P.InOrder, IsAttemptPacket;
    KeepFew(all, forced);
    P.RetainedFills(all, forced);
    var retained := P.Retained(all, forced);
    var kept := P.SortAttempts(retained);
    assert multiset(kept) <= multiset(all);
    assert |kept| == |multiset(kept)| == |multiset(retained)| == |retained|;
    MultisetDistinct(kept, all);
    forall i | 0 <= i < |kept| ensures kept[i] in all {
      assert kept[i] in multiset(kept);
    }
    forall p | p in all && p.attemptId in forced ensures p in kept {
      P.KeptIds(all, forced, p);
      KeepIsRetained(all, forced, p);
      assert p in multiset(retained);
      assert p in multiset(kept);
    }
    if |kept| == |all| {
      forall p | p in all ensures p in kept {
        assert p in multiset(all) && multiset(all) == multiset(kept);
      }
    }
  }

  lemma KeepIsRetained(all: seq<AttemptPacket>, forced: set<nat>, p: AttemptPacket)
    requires p in P.Keep(all, forced)
    ensures p in P.Retained(all, forced)
  {
  }

  // ---------------------------------------------------------------- the assembled packet

  lemma {:induction false} SameAttempt(all: seq<AttemptPacket>, kept: seq<AttemptPacket>, id: nat)
    requires P.DistinctIds(all) && P.DistinctIds(kept) && P.HasAttempt(all, id)
    requires forall i :: 0 <= i < |kept| ==> kept[i] in all
    requires P.AttemptOf(all, id) in kept
    ensures P.HasAttempt(kept, id) && P.AttemptOf(kept, id) == P.AttemptOf(all, id)
  {
    hide P.AttemptOf;
    var p := P.AttemptOf(all, id);
    var k :| 0 <= k < |kept| && kept[k] == p;
    assert P.HasAttempt(kept, id);
    SameIdSame(all, P.AttemptOf(kept, id), p);
  }

  /** Nothing is cut: the packet lists what it retained and counts what there was. */
  lemma {:induction false} AssembledAttempts(e: RequestEvent, start: P.Start, all: seq<AttemptPacket>)
    requires AttemptsFit(e, start.startedAt, all)
    ensures var v := P.Assemble(e, start, all);
            && v.total == |all| && v.stored == |v.attempts|
            && v.attempts == P.SortAttempts(P.Retained(all, P.IdSet(e.winningAttemptId, e.commitAttemptId, all)))
            && |P.IdSet(e.winningAttemptId, e.commitAttemptId, all)| <= 2
  {
    hide P.SortAttempts, P.Retained, IsAttemptPacket, P.DistinctIds, P.InOrder, P.AttemptOf, Snapshot;
    var forced := P.IdSet(e.winningAttemptId, e.commitAttemptId, all);
    ForcedAreFew(e.winningAttemptId, e.commitAttemptId, all);
    KeptAttempts(all, forced);
    var kept := P.SortAttempts(P.Retained(all, forced));
    assert kept[..|kept|] == kept;
  }

  lemma ForcedAreFew(a: Option<nat>, b: Option<nat>, all: seq<AttemptPacket>)
    ensures |P.IdSet(a, b, all)| <= 2
  {
    var x := if a.Some? && P.HasAttempt(all, a.value) then {a.value} else {};
    var y := if b.Some? && P.HasAttempt(all, b.value) then {b.value} else {};
    assert |x| <= 1 && |y| <= 1;
    assert |x + y| <= |x| + |y|;
  }

  lemma {:induction false} ListStorable(e: RequestEvent, start: P.Start, all: seq<AttemptPacket>)
    requires AttemptsFit(e, start.startedAt, all)
    ensures var v := P.Assemble(e, start, all);
            P.AttemptsOk(v) && P.MetadataOk(v) && P.DistinctIds(v.attempts)
            && (forall i :: 0 <= i < |v.attempts| ==> v.attempts[i] in all)
  {
    hide P.SortAttempts, P.Retained, IsAttemptPacket, P.AttemptOf, Snapshot, P.IdSet;
    AssembledAttempts(e, start, all);
    var v := P.Assemble(e, start, all);
    KeptAttempts(all, P.IdSet(e.winningAttemptId, e.commitAttemptId, all));
    assert P.SawRepair(v.attempts) ==> P.SawRepair(all) by {
      if P.SawRepair(v.attempts) {
        var i :| 0 <= i < |v.attempts| && v.attempts[i].role == Repair;
        var j :| 0 <= j < |all| && all[j] == v.attempts[i];
      }
    }
    assert |v.attempts| == |all| && P.SawRepair(all) ==> P.SawRepair(v.attempts) by {
      if |v.attempts| == |all| && P.SawRepair(all) {
        var j :| 0 <= j < |all| && all[j].role == Repair;
        assert all[j] in v.attempts;
        var i :| 0 <= i < |v.attempts| && v.attempts[i] == all[j];
      }
    }
  }

  /** The winner is kept, and is the same attempt in the packet. */
  lemma {:induction false} WinnerKept(e: RequestEvent, start: P.Start, all: seq<AttemptPacket>, id: nat)
    requires AttemptsFit(e, start.startedAt, all) && P.HasAttempt(all, id) && e.winningAttemptId == Some(id)
    ensures var v := P.Assemble(e, start, all);
            P.HasAttempt(v.attempts, id) && P.AttemptOf(v.attempts, id) == P.AttemptOf(all, id)
  {
    hide P.SortAttempts, P.Retained, IsAttemptPacket, P.AttemptOf, P.Assemble, P.InOrder;
    AssembledAttempts(e, start, all);
    var forced := P.IdSet(e.winningAttemptId, e.commitAttemptId, all);
    KeptAttempts(all, forced);
    SameAttempt(all, P.Assemble(e, start, all).attempts, id);
  }

  /** The fields of the packet that come from the winner, or from the event without one. */
  lemma {:induction false} AssembledFields(e: RequestEvent, start: P.Start, all: seq<AttemptPacket>)
    requires ClaimsFit(e, all)
    ensures var v := P.Assemble(e, start, all);
            && v.requestId == e.requestId && v.startedAt == start.startedAt && v.endedAt == e.endedAt
              && v.client == start.client
            && v.outcome == e.outcome && Coherent(v.outcome, v.failure) && v.winningAttemptId == e.winningAttemptId
            && v.commitAttemptId == e.commitAttemptId
            && (e.winningAttemptId.None? ==>
                  && v.tokens == Snapshot(e.tokens) && v.provider.None? && v.model.None? && v.credentialId.None?
                  && v.commitMs.None?)
            && (e.winningAttemptId.Some? ==>
                  var w := P.AttemptOf(all, e.winningAttemptId.value);
                  && v.provider == w.provider && v.model == w.model && v.credentialId == w.credentialId
                  && v.attribution == w.attribution && v.tokens == w.tokens && v.spend == w.spend
                  && v.commitMs == (if e.commitAttemptId.Some? then w.commitMs else None))
  {
    hide P.SortAttempts, P.Retained, IsAttemptPacket, P.IdSet, Snapshot, P.HasAttempt, P.AttemptOf;
  }

  /** A packet assembled from fitting attempts and claims is stored. */
  lemma {:induction false} PacketStorable(e: RequestEvent, start: P.Start, all: seq<AttemptPacket>)
    requires start.startedAt <= e.endedAt && LoadableOrNull(start.client)
    requires AttemptsFit(e, start.startedAt, all) && ClaimsFit(e, all)
    ensures P.PacketFor(e, Some(start), all) == Some(P.Assemble(e, start, all))
  {
    hide P.Assemble, P.DistinctIds, P.InOrder, P.AttemptsOk, P.MetadataOk, P.AttemptOf, P.SawRepair;
    ListStorable(e, start, all);
    AssembledFields(e, start, all);
    var v := P.Assemble(e, start, all);
    assert P.SingleCommit(v) by {
      forall i | 0 <= i < |v.attempts| && v.attempts[i].commitMs.Some?
        ensures v.commitAttemptId == Some(v.attempts[i].attemptId)
      {
        var j :| 0 <= j < |all| && all[j] == v.attempts[i];
      }
    }
    if e.winningAttemptId.Some? {
      var id := e.winningAttemptId.value;
      WinnerKept(e, start, all, id);
      var w := P.AttemptOf(all, id);
      var j :| 0 <= j < |all| && all[j] == w;
      assert IsAttemptPacket(w);
    }
  }
}
