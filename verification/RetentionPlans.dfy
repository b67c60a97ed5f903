/** Which days one retention batch may delete, and where it leaves the cursor. */
module RetentionPlans {
  import opened Common
  import opened Coverages
  import opened Aggregates
  import opened Rollups
  import opened Days

  const BATCH_LIMIT: nat := 127

  /** One bounded batch: the dates it deletes, below a cutoff, from where the cursor stood. */
  datatype Batch = Batch(cutoff: int, start: Option<int>, dates: seq<int>, truncated: bool)

  /** Consecutive days from `from`, `n` of them. */
  function Consecutive(from: int, n: nat): (r: seq<int>)
    ensures |r| == n && forall i :: 0 <= i < n ==> r[i] == from + i
  {
    seq(n, i => from + i)
  }

  /** A batch is a bounded, contiguous run of days from the cursor, all of them below the cutoff. */
  predicate IsBatch(b: Batch) {
    && |b.dates| <= BATCH_LIMIT
    && (forall i :: 0 <= i < |b.dates| ==> b.dates[i] < b.cutoff)
    && (b.start.Some? ==>
          && b.dates == Consecutive(b.start.value, |b.dates|)
          && (b.truncated <==> b.start.value + BATCH_LIMIT < b.cutoff)
          && (b.truncated ==> |b.dates| == BATCH_LIMIT)
          && (!b.truncated ==> |b.dates| == if b.start.value < b.cutoff then b.cutoff - b.start.value else 0))
  }

  /** The range half of `retentionCandidates`: no day is dirty when retention runs. */
  method CandidateRange(start: int, cutoff: int) returns (b: Batch)
    ensures IsBatch(b) && b.cutoff == cutoff && b.start == Some(start)
  {
    var dates, truncated, at := [], false, start;
    while at < cutoff && !truncated
      invariant start <= at && (start < cutoff ==> at <= cutoff) && (cutoff <= start ==> at == start)
      invariant |dates| == at - start <= BATCH_LIMIT
      invariant forall i :: 0 <= i < |dates| ==> dates[i] == start + i
      invariant truncated ==> |dates| == BATCH_LIMIT && at < cutoff
      decreases cutoff - at, !truncated
    {
      if |dates| >= BATCH_LIMIT {
        truncated := true;
      } else {
        dates := dates + [at];
        at := at + 1;
      }
    }
    b := Batch(cutoff, Some(start), dates, truncated);
    assert dates == Consecutive(start, |dates|);
  }

  /** Where the cursor stands after a batch. */
  function CursorAfter(b: Batch, progress: Option<int>): Option<int> {
    if |b.dates| > 0 then Some(b.dates[|b.dates| - 1] + 1)
    else if b.truncated then progress
    else if progress.None? || progress.value < b.cutoff then Some(b.cutoff)
    else progress
  }

  /** The lifetime a batch commits: the cursor moved, the policy stated, the pruning announced. */
  function LifetimeAfter(l: Lifetime, b: Batch, retentionDays: nat): Lifetime {
    var moved := l.coverage.(retentionFrom := CursorAfter(b, l.coverage.retentionFrom),
                             retentionDays := Some(retentionDays));
    var pruned := Mark(moved, RetentionPruned, TruncatedLoss, RetentionField, 1);
    l.(coverage := if b.truncated then Mark(pruned, UnknownReason, TruncatedLoss, RetentionField, 1) else pruned)
  }

  lemma {:induction false} LifetimeAfterGuarded(l: Lifetime, b: Batch, retentionDays: nat)
    requires IsLifetime(l) && 0 < retentionDays <= MAX
    ensures var l' := LifetimeAfter(l, b, retentionDays);
            && IsLifetime(l') && l'.(coverage := l.coverage) == l
            && l'.coverage.retentionFrom == CursorAfter(b, l.coverage.retentionFrom)
            && l'.coverage.retentionDays == Some(retentionDays)
  {
    hide IsAggregate, CursorAfter;
    var moved := l.coverage.(retentionFrom := CursorAfter(b, l.coverage.retentionFrom),
                             retentionDays := Some(retentionDays));
    MarkKeepsGuard(moved, RetentionPruned, TruncatedLoss, RetentionField, 1);
    MarkLeavesCounters(moved, RetentionPruned, TruncatedLoss, RetentionField, 1);
    var pruned := Mark(moved, RetentionPruned, TruncatedLoss, RetentionField, 1);
    CoverageParts(pruned);
    hide IsCoverage;
    MarkKeepsGuard(pruned, UnknownReason, TruncatedLoss, RetentionField, 1);
    MarkLeavesCounters(pruned, UnknownReason, TruncatedLoss, RetentionField, 1);
    hide Mark;
  }

  /** A batch is announced once, and once more when it was cut short; no other marker moves. */
  lemma {:induction false} PruningAnnounced(l: Lifetime, b: Batch, retentionDays: nat, kind: LossKind, field: Field)
    requires AreLosses(l.coverage.losses) && |l.coverage.losses| < MAX_LOSS_MARKERS
    ensures var after := LifetimeAfter(l, b, retentionDays);
            && MarkerOf(after.coverage.losses, kind, field)
               == Raised(Raised(MarkerOf(l.coverage.losses, kind, field),
                                if kind == TruncatedLoss && field == RetentionField then 1 else 0),
                         if kind == TruncatedLoss && field == RetentionField && b.truncated then 1 else 0)
            && after.coverage.state == PartialData
  {
    hide MarkerOf, AreLosses, AddLoss, CursorAfter;
    var moved := l.coverage.(retentionFrom := CursorAfter(b, l.coverage.retentionFrom),
                             retentionDays := Some(retentionDays));
    MarkSays(moved, RetentionPruned, TruncatedLoss, RetentionField, 1, kind, field);
    MarkSays(moved, RetentionPruned, TruncatedLoss, RetentionField, 1, TruncatedLoss, RetentionField);
    var pruned := Mark(moved, RetentionPruned, TruncatedLoss, RetentionField, 1);
    MarkSays(pruned, UnknownReason, TruncatedLoss, RetentionField, 1, kind, field);
  }

  /** No live shard lies below the cursor, and the lifetime's first day bounds them all. */
  predicate CursorBelow(shards: set<int>, l: Lifetime) {
    forall d :: d in shards ==>
      && l.firstRequestAt.Some? && DayOf(l.firstRequestAt.value) <= d
      && (l.coverage.retentionFrom.Some? ==> l.coverage.retentionFrom.value <= d)
  }

  /** Where a batch starts: the cursor, or the first day ever recorded. */
  function StartOf(l: Lifetime): Option<int> {
    if l.coverage.retentionFrom.Some? then l.coverage.retentionFrom
    else if l.firstRequestAt.Some? then Some(DayOf(l.firstRequestAt.value))
    else None
  }

  /** Deleting a batch's days keeps every remaining shard at or above the new cursor. */
  lemma {:induction false} CursorStaysSafe(shards: set<int>, l: Lifetime, b: Batch, retentionDays: nat)
    requires CursorBelow(shards, l) && IsBatch(b) && b.start == StartOf(l)
    ensures CursorBelow(shards - (set i | 0 <= i < |b.dates| :: b.dates[i]), LifetimeAfter(l, b, retentionDays))
  {
    hide Mark;
    CursorOfAfter(l, b, retentionDays);
    hide LifetimeAfter;
    var gone := set i | 0 <= i < |b.dates| :: b.dates[i];
    if b.start.Some? {
      forall d | b.start.value <= d < b.start.value + |b.dates| ensures d in gone {
        assert b.dates[d - b.start.value] == d;
      }
    }
  }

  /** The lifetime of a batch is safe to keep beside the files that are left exactly when none is the batch's. */
  lemma {:induction false} AheadIsSafeExactlyWhen(left: set<int>, l: Lifetime, b: Batch, retentionDays: nat)
    requires CursorBelow(left, l) && IsBatch(b) && b.start == StartOf(l)
    ensures CursorBelow(left, LifetimeAfter(l, b, retentionDays))
            <==> (set i | 0 <= i < |b.dates| :: b.dates[i]) !! left
  {
    var dates := set i | 0 <= i < |b.dates| :: b.dates[i];
    if dates !! left {
      CursorStaysSafe(left, l, b, retentionDays);
      assert left - dates == left;
    } else {
      CursorOfAfter(l, b, retentionDays);
      hide LifetimeAfter;
      var i :| 0 <= i < |b.dates| && b.dates[i] in left;
      assert b.dates[i] < CursorAfter(b, l.coverage.retentionFrom).value;
    }
  }

  lemma {:induction false} CursorOfAfter(l: Lifetime, b: Batch, retentionDays: nat)
    ensures var l' := LifetimeAfter(l, b, retentionDays);
            && l'.firstRequestAt == l.firstRequestAt
            && l'.coverage.retentionFrom == CursorAfter(b, l.coverage.retentionFrom)
  {
    hide CursorAfter, AddLoss, KeepReason;
  }

  /**
   * A truncated batch moves the cursor up by exactly its limit, so the distance to the cutoff
   * strictly decreases and stays positive; an untruncated one leaves nothing below the cutoff.
   */
  lemma {:induction false} BatchesConverge(l: Lifetime, b: Batch)
    requires IsBatch(b) && b.start == StartOf(l) && b.start.Some?
    ensures var cursor := CursorAfter(b, l.coverage.retentionFrom);
            && cursor.Some?
            && (if b.truncated then cursor.value == b.start.value + BATCH_LIMIT < b.cutoff
                else cursor.value >= b.cutoff)
  {
  }

  /** `revisitLateRetentionDate`: a fact behind the cursor takes the cursor back to its day. */
  function Rewound(l: Lifetime, date: int): Lifetime {
    if l.coverage.retentionFrom.Some? && date < l.coverage.retentionFrom.value
    then l.(coverage := l.coverage.(retentionFrom := Some(date)))
    else l
  }

  lemma {:induction false} RewoundKeeps(l: Lifetime, date: int)
    requires IsLifetime(l)
    ensures var l' := Rewound(l, date);
            && IsLifetime(l') && l'.aggregate == l.aggregate && l'.firstRequestAt == l.firstRequestAt
              && l'.months == l.months
            && (l'.coverage.retentionFrom.Some? ==> l'.coverage.retentionFrom.value <= date)
  {
    hide IsAggregate;
  }

  // ---------------------------------------------------------------- nothing is deleted early

  /** Not older than the last so many days that end with `date`. */
  predicate Kept(d: int, date: int, days: nat) {
    date - d < days
  }

  /** Days the policy no longer keeps, going by the latest date the clock has shown. */
  predicate Expired(dates: set<int>, seen: Option<int>, retentionDays: Option<nat>) {
    dates != {} ==>
      retentionDays.Some? && seen.Some? && forall d :: d in dates ==> d + retentionDays.value <= seen.value
  }

  /** A cutoff that lies no later than the policy puts it on that date. */
  predicate Due(cutoff: Option<int>, seen: Option<int>, retentionDays: Option<nat>) {
    cutoff.Some? ==> retentionDays.Some? && seen.Some? && cutoff.value + retentionDays.value <= seen.value + 1
  }

  lemma BatchExpired(b: Batch, seen: Option<int>, retentionDays: Option<nat>)
    requires IsBatch(b) && Due(Some(b.cutoff), seen, retentionDays)
    ensures Expired(set i | 0 <= i < |b.dates| :: b.dates[i], seen, retentionDays)
  {
  }

  lemma OneMoreExpired(dates: set<int>, d: int, more: set<int>, seen: Option<int>, retentionDays: Option<nat>)
    requires Expired(dates, seen, retentionDays) && d in more && Expired(more, seen, retentionDays)
    ensures Expired(dates + {d}, seen, retentionDays)
  {
  }

  lemma ExpiredLater(
    dates: set<int>, cutoff: Option<int>, seen: Option<int>, later: Option<int>, retentionDays: Option<nat>)
    requires Expired(dates, seen, retentionDays) && Due(cutoff, seen, retentionDays) && later == Latest(seen, later)
    ensures Expired(dates, later, retentionDays) && Due(cutoff, later, retentionDays)
  {
  }

  // ---------------------------------------------------------------- rounds of batches

  /** The one batch there is from a start, below a cutoff. */
  function BatchFrom(start: int, cutoff: int): (b: Batch)
    ensures IsBatch(b)
  {
    Batch(cutoff, Some(start), Consecutive(start, Min(BATCH_LIMIT, Max(0, cutoff - start))),
          start + BATCH_LIMIT < cutoff)
  }

  lemma BatchIsFixed(b: Batch)
    requires IsBatch(b) && b.start.Some?
    ensures b == BatchFrom(b.start.value, b.cutoff)
  {
  }

  /** Batches committed one after the other until one is not cut short: the days deleted, the lifetime left. */
  function Rounds(l: Lifetime, cutoff: int, retentionDays: nat): (seq<int>, Lifetime)
    requires StartOf(l).Some?
    decreases cutoff - StartOf(l).value
  {
    var b := BatchFrom(StartOf(l).value, cutoff);
    var l1 := LifetimeAfter(l, b, retentionDays);
    CursorOfAfter(l, b, retentionDays);
    if !b.truncated then (b.dates, l1)
    else var (more, last) := Rounds(l1, cutoff, retentionDays); (b.dates + more, last)
  }

  /**
   * However many batches it takes, the days deleted are all those from the start to the cutoff, each
   * once and in order, and the cursor ends at the cutoff, or stays where it was if it was past it.
   */
  lemma {:induction false} RoundsReachTheCutoff(l: Lifetime, cutoff: int, retentionDays: nat)
    requires StartOf(l).Some?
    ensures var (dates, last) := Rounds(l, cutoff, retentionDays);
            var start := StartOf(l).value;
            && dates == Consecutive(start, Max(0, cutoff - start))
            && last.coverage.retentionFrom
              == Some(if l.coverage.retentionFrom.Some? then Max(start, cutoff) else cutoff)
    decreases cutoff - StartOf(l).value
  {
    hide LifetimeAfter;
    var start := StartOf(l).value;
    var b := BatchFrom(start, cutoff);
    var l1 := LifetimeAfter(l, b, retentionDays);
    CursorOfAfter(l, b, retentionDays);
    if b.truncated {
      RoundsReachTheCutoff(l1, cutoff, retentionDays);
      TwoRuns(start, BATCH_LIMIT, cutoff - start - BATCH_LIMIT);
    }
  }

  lemma TwoRuns(from: int, m: nat, n: nat)
    ensures Consecutive(from, m) + Consecutive(from + m, n) == Consecutive(from, m + n)
  {
  }
}
