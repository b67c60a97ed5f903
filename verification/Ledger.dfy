/**
 * What the accounting store keeps, as a value: the shards in memory and on disk, the lifetime, and
 * the books that say where every completed work is. Each step of the store keeps all of it.
 */
module Ledger {
  import opened Common
  import opened Facts
  import opened Aggregates
  import opened Coverages
  import opened Minutes
  import opened Packets
  import opened RecentList
  import opened Days
  import opened Rollups
  import opened RetentionPlans

  // ---------------------------------------------------------------- what the store keeps

  predicate DaysOk(days: map<int, Day>, spoiled: set<int>) {
    forall d :: d in days ==> days[d].date == d && SoundDay(days[d]) && (d !in spoiled ==> IsDay(days[d]))
  }

  predicate DiskOk(disk: map<int, Day>) {
    forall d :: d in disk ==> disk[d].date == d && SoundDay(disk[d]) && IsDay(disk[d])
  }

  /** A day that is not dirty is what its file says, or was never written, or its file was pruned. */
  predicate CleanOnDisk(days: map<int, Day>, disk: map<int, Day>, dirty: set<int>, pruned: set<int>) {
    forall d :: d in days && d !in dirty ==>
      if d in disk then days[d] == disk[d] else days[d] == EmptyDay(d) || d in pruned
  }

  /** The membership set of a day equals its sorted array. */
  predicate Indexed(membership: map<int, set<nat>>, days: map<int, Day>) {
    forall d :: d in membership ==> d in days && membership[d] == IdsOf(days[d].dedup)
  }

  /** The first work that cost a day its guard, with the day it found. */
  datatype Spoiling = Spoiling(day: Day, work: TerminalWork)

  predicate IsSpoiling(s: Spoiling, limit: nat) {
    SoundDay(s.day) && IsDay(s.day) && IsWork(s.work) && !IsDay(DayAfter(s.day, s.work, limit))
  }

  /**
   * Days in memory that may fail their guard, the work that first caused it, the files already pruned,
   * and every day that ever had a file.
   */
  datatype Scars = Scars(spoiled: set<int>, first: Option<Spoiling>, pruned: set<int>, filed: set<int>)

  predicate SpoilingOk(s: Scars, applied: seq<TerminalWork>, limit: nat) {
    s.spoiled != {} ==> s.first.Some? && IsSpoiling(s.first.value, limit) && s.first.value.work in applied
  }

  /** The shard files and their image in memory. */
  datatype Shards = Shards(
    days: map<int, Day>, disk: map<int, Day>, membership: map<int, set<nat>>,
    dirty: set<int>, scars: Scars)

  /** A day that ever had a file has it still, or was pruned. */
  predicate FilesKept(disk: map<int, Day>, scars: Scars) {
    scars.filed <= disk.Keys + scars.pruned
  }

  predicate ShardsOk(s: Shards) {
    && DaysOk(s.days, s.scars.spoiled) && DiskOk(s.disk) && CleanOnDisk(s.days, s.disk, s.dirty, s.scars.pruned)
    && Indexed(s.membership, s.days) && s.dirty <= s.days.Keys && s.scars.spoiled <= s.dirty
    && FilesKept(s.disk, s.scars)
  }

  /** What the ledger says about a day, wherever it is kept. */
  function FactsOf(s: Shards, d: int): Day {
    if d in s.days then s.days[d] else if d in s.disk then s.disk[d] else EmptyDay(d)
  }

  /** Caching, writing and pruning never change what the ledger says about a day not pruned. */
  ghost predicate SameFacts(a: Shards, b: Shards) {
    a.scars.pruned <= b.scars.pruned && forall d: int :: d !in b.scars.pruned ==> FactsOf(a, d) == FactsOf(b, d)
  }

  lemma {:induction false} SameFactsTrans(a: Shards, b: Shards, c: Shards)
    requires SameFacts(a, b) && SameFacts(b, c)
    ensures SameFacts(a, c)
  {
    hide FactsOf;
  }

  /** What the files alone say about a day. */
  function Durable(s: Shards, d: int): Day {
    if d in s.disk then s.disk[d] else EmptyDay(d)
  }

  predicate Works(ws: seq<TerminalWork>) {
    forall i :: 0 <= i < |ws| ==> IsWork(ws[i])
  }

  /** Where every completed work is; the applied ones in the order they were applied. */
  datatype Books = Books(
    received: multiset<TerminalWork>, applied: seq<TerminalWork>, replayed: multiset<TerminalWork>,
    lost: multiset<TerminalWork>, inHand: multiset<TerminalWork>)

  /** Works have only moved between the queue and the applied or replayed ones. */
  predicate OnlyMoved(a: Books, b: Books) {
    a.received == b.received && a.lost == b.lost && a.inHand == b.inHand && a.applied <= b.applied
  }

  /** Each completed work is in exactly one place, and the lifetime counts each applied one once. */
  predicate Accounted(b: Books, queued: seq<TerminalWork>, requests: nat) {
    && b.received == multiset(b.applied) + b.replayed + b.lost + multiset(queued) + b.inHand
    && requests == Min(|b.applied|, MAX) && Works(queued)
  }

  /** The packets of the works that have one, in their order. */
  function PacketsIn(ws: seq<TerminalWork>): seq<RequestPacket> {
    if |ws| == 0 then []
    else
      var p := PacketOf(ws[|ws| - 1]);
      PacketsIn(ws[..|ws| - 1]) + if p.Some? then [p.value] else []
  }

  lemma {:induction false} PacketsAppend(ws: seq<TerminalWork>, w: TerminalWork)
    ensures PacketsIn(ws + [w]) == PacketsIn(ws) + (if PacketOf(w).Some? then [PacketOf(w).value] else [])
  {
    hide PacketOf;
    assert (ws + [w])[..|ws|] == ws;
  }

  /** No request was applied twice. */
  predicate AppliedOnce(ws: seq<TerminalWork>) {
    forall i, j :: 0 <= i < j < |ws| ==> ws[i].event.requestId != ws[j].event.requestId
  }

  lemma {:induction false} PacketsComeFrom(ws: seq<TerminalWork>, i: nat) returns (j: nat)
    requires i < |PacketsIn(ws)|
    ensures j < |ws| && PacketsIn(ws)[i].requestId == ws[j].event.requestId
  {
    hide PacketOf;
    var init, w := ws[..|ws| - 1], ws[|ws| - 1];
    if i < |PacketsIn(init)| { j := PacketsComeFrom(init, i); } else { j := |ws| - 1; }
  }

  lemma {:induction false} PacketsDistinct(ws: seq<TerminalWork>)
    requires AppliedOnce(ws)
    ensures DistinctRequests(PacketsIn(ws)) && |PacketsIn(ws)| <= |ws|
  {
    hide PacketOf;
    if |ws| > 0 {
      var init := ws[..|ws| - 1];
      PacketsDistinct(init);
      forall i | 0 <= i < |PacketsIn(init)|
        ensures PacketsIn(init)[i].requestId != ws[|ws| - 1].event.requestId
      {
        var j := PacketsComeFrom(init, i);
      }
    }
  }

  /** The abstract state of the store. */
  datatype State = State(
    retentionDays: Option<nat>, dedupLimit: nat, lifetime: Lifetime,
    shards: Shards, queued: seq<TerminalWork>, books: Books)

  predicate CursorOk(s: State) {
    s.retentionDays.Some? ==> CursorBelow(s.shards.disk.Keys + s.shards.dirty, s.lifetime)
  }

  predicate StoreOk(s: State) {
    && (s.retentionDays.Some? ==> 0 < s.retentionDays.value <= MAX) && 0 < s.dedupLimit <= MAX_DEDUP_IDS
    && IsLifetime(s.lifetime) && ShardsOk(s.shards) && CursorOk(s)
    && Accounted(s.books, s.queued, s.lifetime.aggregate.requests)
    && SpoilingOk(s.shards.scars, s.books.applied, s.dedupLimit)
  }

  // ---------------------------------------------------------------- frame lemmas

  /** A loss marked on the lifetime. */
  function Marked(l: Lifetime, reason: Reason, kind: LossKind, field: Field, count: nat): Lifetime {
    l.(coverage := Mark(l.coverage, reason, kind, field, count))
  }

  /** Two lifetimes that agree on what the retention cursor and the request count look at. */
  predicate SameCursor(a: Lifetime, b: Lifetime) {
    && a.firstRequestAt == b.firstRequestAt && a.coverage.retentionFrom == b.coverage.retentionFrom
    && a.aggregate == b.aggregate
  }

  lemma {:induction false} MarkedKeeps(l: Lifetime, reason: Reason, kind: LossKind, field: Field, count: nat)
    requires IsLifetime(l) && 0 < count <= MAX
    ensures IsLifetime(Marked(l, reason, kind, field, count)) && SameCursor(l, Marked(l, reason, kind, field, count))
  {
    hide IsAggregate;
    CoverageParts(l.coverage);
    MarkKeepsGuard(l.coverage, reason, kind, field, count);
    MarkLeavesCounters(l.coverage, reason, kind, field, count);
    hide Mark, IsCoverage;
  }

  lemma {:induction false} EmptyDayOk(date: int)
    ensures SoundDay(EmptyDay(date)) && IsDay(EmptyDay(date))
  {
    EmptyRows(MINUTES_A_DAY);
  }

  lemma {:induction false} EmptyRows(n: nat)
    ensures RowsUpTo(map[], n) == 0
  {
    if n > 0 { EmptyRows(n - 1); }
  }

  function Fresh(retentionDays: Option<nat>, dedupLimit: nat): State {
    State(retentionDays, dedupLimit, EMPTY_LIFETIME, Shards(map[], map[], map[], {}, Scars({}, None, {}, {})), [],
          Books(multiset{}, [], multiset{}, multiset{}, multiset{}))
  }

  lemma {:induction false} FreshOk(retentionDays: Option<nat>, dedupLimit: nat)
    requires (retentionDays.Some? ==> 0 < retentionDays.value <= MAX) && 0 < dedupLimit <= MAX_DEDUP_IDS
    ensures StoreOk(Fresh(retentionDays, dedupLimit))
  {
    hide IsLifetime;
    EmptyMonthGuarded();
  }

  function Evicted(s: State, date: int): State {
    s.(shards := s.shards.(days := s.shards.days - {date}, membership := s.shards.membership - {date}))
  }

  lemma {:induction false} EvictKeeps(s: State, date: int)
    requires StoreOk(s) && date !in s.shards.dirty
    ensures StoreOk(Evicted(s, date)) && SameFacts(s.shards, Evicted(s, date).shards)
  {
    hide SoundDay, IsDay, IdsOf, EmptyDay, IsLifetime, Accounted, SpoilingOk, CursorBelow;
  }

  function Loaded(s: State, date: int): State {
    s.(shards := s.shards.(days := s.shards.days[date := FactsOf(s.shards, date)]))
  }

  lemma {:induction false} LoadKeeps(s: State, date: int)
    requires StoreOk(s)
    ensures StoreOk(Loaded(s, date)) && SameFacts(s.shards, Loaded(s, date).shards)
  {
    hide ShardsOk, FactsOf, SameFacts, IsLifetime, Accounted, SpoilingOk, CursorBelow;
    LoadShards(s.shards, date);
  }

  lemma {:induction false} LoadShards(s: Shards, date: int)
    requires ShardsOk(s)
    ensures var t := s.(days := s.days[date := FactsOf(s, date)]);
            ShardsOk(t) && SameFacts(s, t)
  {
    hide SoundDay, IsDay, IdsOf, EmptyDay, FilesKept;
    EmptyDayOk(date);
    EmptyDayDate(date);
  }

  lemma EmptyDayDate(date: int)
    ensures EmptyDay(date).date == date
  {
  }

  lemma {:induction false} LossKeeps(s: State, reason: Reason, kind: LossKind, field: Field, count: nat)
    requires StoreOk(s) && 0 < count <= MAX
    ensures StoreOk(s.(lifetime := Marked(s.lifetime, reason, kind, field, count)))
  {
    MarkedKeeps(s.lifetime, reason, kind, field, count);
    hide IsLifetime, ShardsOk, Accounted, SpoilingOk, Mark;
  }

  /** The lifetime after the losses `applyTerminal` announces beside a work. */
  function Announced(l: Lifetime, w: TerminalWork, dedupFull: bool, exact: bool): Lifetime {
    var l1 := if PacketOf(w).Some? then l else Marked(l, UnknownReason, TruncatedLoss, DetailPacketField, 1);
    var l2 := if dedupFull then Marked(l1, DedupCap, DedupLoss, DedupField, 1) else l1;
    var l3 := if w.droppedAttempts > 0
              then Marked(l2, UnknownReason, TruncatedLoss, PendingAttemptsField, w.droppedAttempts) else l2;
    if exact then l3 else Marked(l3, CounterOverflow, OverflowLoss, CountersField, 1)
  }

  /** How much of one kind of loss a work announces in one field. */
  function Announces(w: TerminalWork, dedupFull: bool, exact: bool, kind: LossKind, field: Field): nat {
    if kind == TruncatedLoss && field == DetailPacketField then if PacketOf(w).None? then 1 else 0
    else if kind == DedupLoss && field == DedupField then if dedupFull then 1 else 0
    else if kind == TruncatedLoss && field == PendingAttemptsField then w.droppedAttempts
    else if kind == OverflowLoss && field == CountersField then if exact then 0 else 1
    else 0
  }

  /** One loss, announced or not. */
  lemma {:induction false} MarkedIfSays(
    l: Lifetime, on: bool, reason: Reason, kind: LossKind, field: Field, count: nat, k: LossKind, f: Field)
    requires AreLosses(l.coverage.losses) && (on ==> 0 < count <= MAX) && |l.coverage.losses| < MAX_LOSS_MARKERS
    ensures var after := if on then Marked(l, reason, kind, field, count) else l;
            && MarkerOf(after.coverage.losses, k, f)
               == Raised(MarkerOf(l.coverage.losses, k, f), if on && k == kind && f == field then count else 0)
            && AreLosses(after.coverage.losses) && |after.coverage.losses| <= |l.coverage.losses| + 1
            && after.(coverage := l.coverage) == l
  {
    hide Mark, MarkerOf, AreLosses;
    if on { MarkSays(l.coverage, reason, kind, field, count, k, f); }
  }

  /** While there is room for four markers, every loss of a work is announced, each in its own marker. */
  lemma {:induction false} AnnouncedSays(
    l: Lifetime, w: TerminalWork, dedupFull: bool, exact: bool, kind: LossKind, field: Field)
    requires AreLosses(l.coverage.losses) && |l.coverage.losses| + 4 <= MAX_LOSS_MARKERS
    ensures var after := Announced(l, w, dedupFull, exact);
            && MarkerOf(after.coverage.losses, kind, field)
               == Raised(MarkerOf(l.coverage.losses, kind, field), Announces(w, dedupFull, exact, kind, field))
            && after.(coverage := l.coverage) == l
  {
    hide Marked, MarkerOf, AreLosses, PacketOf;
    MarkedIfSays(l, PacketOf(w).None?, UnknownReason, TruncatedLoss, DetailPacketField, 1, kind, field);
    var l1 := if PacketOf(w).Some? then l else Marked(l, UnknownReason, TruncatedLoss, DetailPacketField, 1);
    MarkedIfSays(l1, dedupFull, DedupCap, DedupLoss, DedupField, 1, kind, field);
    var l2 := if dedupFull then Marked(l1, DedupCap, DedupLoss, DedupField, 1) else l1;
    MarkedIfSays(l2, w.droppedAttempts > 0, UnknownReason, TruncatedLoss, PendingAttemptsField, w.droppedAttempts,
                 kind, field);
    var l3 := if w.droppedAttempts > 0
              then Marked(l2, UnknownReason, TruncatedLoss, PendingAttemptsField, w.droppedAttempts) else l2;
    MarkedIfSays(l3, !exact, CounterOverflow, OverflowLoss, CountersField, 1, kind, field);
  }

  // ---------------------------------------------------------------- one work, one unlink, one write

  /** The lifetime after a work, before the losses announced beside it. */
  function LifetimeWith(s: State, w: TerminalWork): Lifetime
    requires DayOf(w.event.endedAt) in s.shards.days
  {
    LifetimeOn(s.lifetime, s.retentionDays, s.shards.days[DayOf(w.event.endedAt)], w)
  }

  /** The same, of the lifetime and the day the work finds. */
  function LifetimeOn(l: Lifetime, retentionDays: Option<nat>, before: Day, w: TerminalWork): Lifetime {
    var added := AddLifetime(l, w);
    AnnounceDropped(if retentionDays.Some? then Rewound(added, DayOf(w.event.endedAt)) else added, w.event.endedAt,
                    NewlyDropped(before, w))
  }

  /** The store after a work whose id its day did not know. */
  function Absorbed(s: State, w: TerminalWork): State
    requires DayOf(w.event.endedAt) in s.shards.days
  {
    var date := DayOf(w.event.endedAt);
    var before := s.shards.days[date];
    var after := DayAfter(before, w, s.dedupLimit);
    var scars := if IsDay(after) then s.shards.scars
                 else s.shards.scars.(spoiled := s.shards.scars.spoiled + {date},
                                      first := if s.shards.scars.spoiled == {} then Some(Spoiling(before, w))
                                        else s.shards.scars.first);
    s.(lifetime := LifetimeWith(s, w),
       shards := s.shards.(days := s.shards.days[date := after], dirty := s.shards.dirty + {date}, scars := scars,
                           membership := s.shards.membership[date := IdsOf(after.dedup)]),
       books := s.books.(applied := s.books.applied + [w], inHand := s.books.inHand - multiset{w}))
  }

  /** What a work leaves alone, and where it writes its new day. */
  lemma {:induction false} AbsorbedParts(s: State, w: TerminalWork)
    requires DayOf(w.event.endedAt) in s.shards.days
    ensures var (t, date) := (Absorbed(s, w), DayOf(w.event.endedAt));
            var after := DayAfter(s.shards.days[date], w, s.dedupLimit);
            && t == s.(lifetime := LifetimeWith(s, w), shards := t.shards, books := t.books)
            && t.shards == s.shards.(days := s.shards.days[date := after], scars := t.shards.scars,
                                     dirty := s.shards.dirty + {date},
                                     membership := s.shards.membership[date := IdsOf(after.dedup)])
  {
    hide DayAfter, DayOf, IdsOf, LifetimeWith, IsDay;
  }

  lemma {:induction false} AbsorbedBooks(s: State, w: TerminalWork)
    requires DayOf(w.event.endedAt) in s.shards.days
    ensures Absorbed(s, w).books.applied == s.books.applied + [w]
  {
    hide DayAfter, DayOf, IdsOf, LifetimeWith, IsDay;
  }

  lemma AbsorbedPruned(s: State, w: TerminalWork)
    requires DayOf(w.event.endedAt) in s.shards.days
    ensures Absorbed(s, w).shards.scars.pruned == s.shards.scars.pruned
  {
    hide DayAfter, DayOf, IdsOf, LifetimeWith, IsDay;
  }

  /** A work changes what the ledger says about its own day, and about no other. */
  lemma {:induction false} AbsorbedFacts(a: Shards, s: State, w: TerminalWork)
    requires DayOf(w.event.endedAt) in s.shards.days && SameFacts(a, s.shards)
             && a.scars.pruned == s.shards.scars.pruned
    requires s.shards.days[DayOf(w.event.endedAt)] == FactsOf(a, DayOf(w.event.endedAt))
    ensures var t := Absorbed(s, w);
            && FactsOf(t.shards, DayOf(w.event.endedAt))
              == DayAfter(FactsOf(a, DayOf(w.event.endedAt)), w, s.dedupLimit)
            && (forall d: int :: d != DayOf(w.event.endedAt) && d !in a.scars.pruned ==>
                  FactsOf(t.shards, d) == FactsOf(a, d))
            && t.shards.dirty == s.shards.dirty + {DayOf(w.event.endedAt)}
            && t.shards.disk == s.shards.disk && t.shards.scars.pruned == s.shards.scars.pruned
            && t.books == s.books.(applied := s.books.applied + [w], inHand := s.books.inHand - multiset{w})
  {
    hide DayAfter, DayOf, IdsOf, LifetimeWith, IsDay;
  }

  lemma {:induction false} SameMembership(a: Shards, b: Shards, c: Shards)
    requires SameFacts(a, b) && c == b.(membership := c.membership)
    ensures SameFacts(a, c)
  {
  }

  lemma {:induction false} LifetimeWithKeeps(s: State, w: TerminalWork)
    requires StoreOk(s) && IsWork(w) && DayOf(w.event.endedAt) in s.shards.days
    ensures var l := LifetimeWith(s, w);
            && IsLifetime(l) && l.aggregate.requests == Bump(s.lifetime.aggregate.requests)
            && l.firstRequestAt == Earlier(s.lifetime.firstRequestAt, Some(FirstInstant(w)))
            && (if s.retentionDays.None? then l.coverage.retentionFrom == s.lifetime.coverage.retentionFrom
                else l.coverage.retentionFrom == Rewound(s.lifetime, DayOf(w.event.endedAt)).coverage.retentionFrom)
  {
    hide IsLifetime, AddLifetime, AnnounceDropped, NewlyDropped, MinuteAfter, DayOf, SoundCell, CursorBelow, Accounted,
         SpoilingOk, IsWork, DiskOk, CleanOnDisk, Indexed, SoundDay, IsDay;
    var date := DayOf(w.event.endedAt);
    LifetimeStaysGuarded(s.lifetime, w);
    RewoundKeeps(AddLifetime(s.lifetime, w), date);
    DroppedFits(s.shards.days[date], w);
    var added := AddLifetime(s.lifetime, w);
    AnnounceKeepsGuard(if s.retentionDays.Some? then Rewound(added, date) else added,
                       w.event.endedAt, NewlyDropped(s.shards.days[date], w));
  }

  lemma {:induction false} DaysMonotone(a: int, b: int)
    requires a <= b
    ensures DayOf(a) <= DayOf(b)
  {
  }

  /** A late fact never leaves a shard below the cursor. */
  lemma {:induction false} CursorAfterWork(shards: set<int>, l: Lifetime, l': Lifetime, w: TerminalWork)
    requires CursorBelow(shards, l)
    requires l'.firstRequestAt == Earlier(l.firstRequestAt, Some(FirstInstant(w)))
    requires l'.coverage.retentionFrom == Rewound(l, DayOf(w.event.endedAt)).coverage.retentionFrom
    ensures CursorBelow(shards + {DayOf(w.event.endedAt)}, l')
  {
    DaysMonotone(FirstInstant(w), w.event.endedAt);
    DaysMonotone(l'.firstRequestAt.value, FirstInstant(w));
    if l.firstRequestAt.Some? { DaysMonotone(l'.firstRequestAt.value, l.firstRequestAt.value); }
    hide DayOf;
  }

  lemma {:induction false} ShardsAbsorb(s: State, w: TerminalWork)
    requires StoreOk(s) && IsWork(w) && DayOf(w.event.endedAt) in s.shards.days
    ensures ShardsOk(Absorbed(s, w).shards)
  {
    hide IsLifetime, LifetimeWith, DayAfter, DayOf, CursorOk, Accounted, IsWork, SoundDay, IsDay, IdsOf, EmptyDay,
         SpoilingOk;
    var date := DayOf(w.event.endedAt);
    var before := s.shards.days[date];
    DayStaysSound(before, w, s.dedupLimit);
  }

  lemma {:induction false} ScarsAbsorb(s: State, w: TerminalWork)
    requires StoreOk(s) && IsWork(w) && DayOf(w.event.endedAt) in s.shards.days
    ensures SpoilingOk(Absorbed(s, w).shards.scars, Absorbed(s, w).books.applied, s.dedupLimit)
  {
    hide IsLifetime, LifetimeWith, DayAfter, DayOf, CursorOk, Accounted, IsWork, SoundDay, IsDay, IdsOf, DiskOk,
         CleanOnDisk, Indexed;
    assert w in s.books.applied + [w];
  }

  lemma {:induction false} BooksAbsorb(b: Books, queued: seq<TerminalWork>, w: TerminalWork, requests: nat)
    requires Accounted(b, queued, requests) && w in b.inHand
    ensures Accounted(b.(applied := b.applied + [w], inHand := b.inHand - multiset{w}), queued, Bump(requests))
  {
    hide Works;
    assert b.inHand == (b.inHand - multiset{w}) + multiset{w};
    assert multiset(b.applied + [w]) == multiset(b.applied) + multiset{w};
  }

  /**
   * With retention switched off, a cursor left from before is not taken back for a late fact: the
   * fact's shard falls below it exactly when there is such a cursor and it lies past the fact's day.
   */
  lemma {:induction false} LateShardFallsBehindExactlyWhen(s: State, w: TerminalWork)
    requires StoreOk(s) && IsWork(w) && DayOf(w.event.endedAt) in s.shards.days
    requires CursorBelow(s.shards.disk.Keys + s.shards.dirty, s.lifetime)
    ensures var (t, from) := (Absorbed(s, w), s.lifetime.coverage.retentionFrom);
            CursorBelow(t.shards.disk.Keys + t.shards.dirty, t.lifetime)
            <==> s.retentionDays.Some? || from.None? || from.value <= DayOf(w.event.endedAt)
  {
    hide IsLifetime, LifetimeWith, DayAfter, DayOf, CursorBelow, Accounted, IsWork, ShardsOk, SpoilingOk, IsDay, IdsOf,
         Rewound;
    var shards, date := s.shards.disk.Keys + s.shards.dirty, DayOf(w.event.endedAt);
    LifetimeWithKeeps(s, w);
    AbsorbedParts(s, w);
    assert shards + {date} == s.shards.disk.Keys + (s.shards.dirty + {date});
    if s.retentionDays.Some? {
      CursorAfterWork(shards, s.lifetime, LifetimeWith(s, w), w);
    } else {
      CursorLeft(shards, s.lifetime, LifetimeWith(s, w), w);
    }
  }

  lemma {:induction false} CursorLeft(shards: set<int>, l: Lifetime, l': Lifetime, w: TerminalWork)
    requires CursorBelow(shards, l)
    requires l'.firstRequestAt == Earlier(l.firstRequestAt, Some(FirstInstant(w)))
    requires l'.coverage.retentionFrom == l.coverage.retentionFrom
    ensures CursorBelow(shards + {DayOf(w.event.endedAt)}, l')
            <==> l.coverage.retentionFrom.None? || l.coverage.retentionFrom.value <= DayOf(w.event.endedAt)
  {
    DaysMonotone(FirstInstant(w), w.event.endedAt);
    DaysMonotone(l'.firstRequestAt.value, FirstInstant(w));
    if l.firstRequestAt.Some? { DaysMonotone(l'.firstRequestAt.value, l.firstRequestAt.value); }
    assert DayOf(w.event.endedAt) in shards + {DayOf(w.event.endedAt)};
    hide DayOf;
  }

  /** Absorbing a work keeps the store's whole invariant. */
  lemma {:induction false} AbsorbKeeps(s: State, w: TerminalWork)
    requires StoreOk(s) && IsWork(w) && w in s.books.inHand && DayOf(w.event.endedAt) in s.shards.days
    ensures StoreOk(Absorbed(s, w))
  {
    hide IsLifetime, LifetimeWith, DayAfter, DayOf, CursorBelow, Accounted, IsWork, ShardsOk, SpoilingOk, IsDay, IdsOf;
    LifetimeWithKeeps(s, w);
    ShardsAbsorb(s, w);
    ScarsAbsorb(s, w);
    BooksAbsorb(s.books, s.queued, w, s.lifetime.aggregate.requests);
    if s.retentionDays.Some? {
      var shards := s.shards.disk.Keys + s.shards.dirty;
      CursorAfterWork(shards, s.lifetime, LifetimeWith(s, w), w);
      assert shards + {DayOf(w.event.endedAt)} == s.shards.disk.Keys + (s.shards.dirty + {DayOf(w.event.endedAt)});
    }
  }

  function Unlinked(s: State, date: int): State {
    s.(shards := s.shards.(disk := s.shards.disk - {date},
                           scars := s.shards.scars.(pruned := s.shards.scars.pruned + {date})))
  }

  lemma {:induction false} UnlinkKeeps(s: State, date: int)
    requires StoreOk(s)
    ensures StoreOk(Unlinked(s, date)) && SameFacts(s.shards, Unlinked(s, date).shards)
  {
    hide SoundDay, IsDay, IdsOf, EmptyDay, IsLifetime, Accounted, IsSpoiling;
  }

  function Written(s: State, date: int): State
    requires date in s.shards.days
  {
    s.(shards := s.shards.(disk := s.shards.disk[date := s.shards.days[date]],
                           scars := s.shards.scars.(filed := s.shards.scars.filed + {date})))
  }

  lemma {:induction false} WriteKeeps(s: State, date: int)
    requires StoreOk(s) && date in s.shards.dirty && date in s.shards.days && IsDay(s.shards.days[date])
    ensures StoreOk(Written(s, date)) && SameFacts(s.shards, Written(s, date).shards)
  {
    hide SoundDay, IsDay, IdsOf, EmptyDay, IsLifetime, Accounted, IsSpoiling;
  }

  function Cleaned(s: State): State {
    s.(shards := s.shards.(dirty := {}, scars := s.shards.scars.(spoiled := {})))
  }

  /** Once every dirty day is guarded and on disk, none is dirty. */
  lemma {:induction false} CleanKeeps(s: State)
    requires StoreOk(s)
    requires forall d :: d in s.shards.dirty ==>
               d in s.shards.days && d in s.shards.disk && s.shards.disk[d] == s.shards.days[d]
               && IsDay(s.shards.days[d])
    ensures StoreOk(Cleaned(s)) && SameFacts(s.shards, Cleaned(s).shards)
  {
    hide SoundDay, IsDay, IdsOf, EmptyDay, IsLifetime, Accounted, CursorBelow, IsSpoiling;
    if s.retentionDays.Some? {
      CursorSubset(Cleaned(s).shards.disk.Keys + Cleaned(s).shards.dirty, s.shards.disk.Keys + s.shards.dirty,
                   s.lifetime);
    }
  }

  lemma {:induction false} CursorSubset(fewer: set<int>, shards: set<int>, l: Lifetime)
    requires fewer <= shards && CursorBelow(shards, l)
    ensures CursorBelow(fewer, l)
  {
  }

  function DateSet(dates: seq<int>): set<int> {
    set i | 0 <= i < |dates| :: dates[i]
  }

  function BatchApplied(s: State, b: Batch): State {
    s.(lifetime := if s.retentionDays.Some? then LifetimeAfter(s.lifetime, b, s.retentionDays.value) else s.lifetime,
       shards := s.shards.(days := s.shards.days - DateSet(b.dates),
                           membership := s.shards.membership - DateSet(b.dates)))
  }

  lemma {:induction false} ForgetKeeps(s: Shards, gone: set<int>)
    requires ShardsOk(s) && s.dirty == {}
    ensures ShardsOk(s.(days := s.days - gone, membership := s.membership - gone))
  {
    hide SoundDay, IsDay, IdsOf, EmptyDay;
  }

  /** Committing a batch whose files are gone keeps the invariant, cursor safety included. */
  lemma {:induction false} RetentionKeeps(s: State, b: Batch)
    requires StoreOk(s) && s.retentionDays.Some? && s.shards.dirty == {}
    requires IsBatch(b) && b.start == StartOf(s.lifetime)
    requires s.shards.disk.Keys !! DateSet(b.dates) && DateSet(b.dates) <= s.shards.scars.pruned
    ensures StoreOk(BatchApplied(s, b)) && SameFacts(s.shards, BatchApplied(s, b).shards)
  {
    hide SoundDay, IsDay, IdsOf, EmptyDay, IsLifetime, CursorBelow, IsBatch, StartOf, LifetimeAfter, Works, IsSpoiling,
         DiskOk, ShardsOk, Accounted;
    ForgetKeeps(s.shards, DateSet(b.dates));
    LifetimeAfterGuarded(s.lifetime, b, s.retentionDays.value);
    var shards := s.shards.disk.Keys + s.shards.dirty;
    CursorStaysSafe(shards, s.lifetime, b, s.retentionDays.value);
    assert shards - DateSet(b.dates) == shards;
  }

  lemma {:induction false} DirtyKnown(s: State, d: int)
    requires StoreOk(s) && d in s.shards.dirty
    ensures d in s.shards.days
  {
  }

  /** A spoiled store can name the work that cost a day its guard. */
  lemma {:induction false} SpoiledWitness(s: State)
    requires StoreOk(s) && s.shards.scars.spoiled != {}
    ensures s.shards.scars.first.Some? && IsSpoiling(s.shards.scars.first.value, s.dedupLimit)
            && s.shards.scars.first.value.work in s.books.applied
            && AtFault(s.shards.scars.first.value.day, s.shards.scars.first.value.work)
  {
    hide IsSpoiling, AtFault;
    SpoilingIsAFault(s.shards.scars.first.value, s.dedupLimit);
  }

  lemma {:induction false} SpoilingIsAFault(s: Spoiling, limit: nat)
    requires IsSpoiling(s, limit) && limit <= MAX_DEDUP_IDS
    ensures AtFault(s.day, s.work)
  {
    hide AtFault, SoundDay, IsDay, IsWork, DayAfter;
    OnlyAFaultSpoils(s.day, s.work, limit);
  }

  /** With no dirty day, the files alone say all the ledger says. */
  lemma {:induction false} CleanIsDurable(s: State)
    requires StoreOk(s) && |s.shards.dirty| == 0
    ensures forall d: int :: d !in s.shards.scars.pruned ==> Durable(s.shards, d) == FactsOf(s.shards, d)
  {
    hide SoundDay, IsDay, IdsOf, EmptyDay, IsLifetime, Accounted, CursorOk, SpoilingOk;
  }

  // ---------------------------------------------------------------- moving works in the books

  /** Moving works that are not yet applied between places keeps the invariant. */
  lemma {:induction false} MoveKeeps(s: State, queued: seq<TerminalWork>, b: Books)
    requires StoreOk(s) && b.applied == s.books.applied && Works(queued)
    requires b.received == multiset(b.applied) + b.replayed + b.lost + multiset(queued) + b.inHand
    ensures StoreOk(s.(queued := queued, books := b))
  {
    hide ShardsOk, IsLifetime, CursorBelow, SpoilingOk, Works;
  }

  lemma PutTake<T>(m: multiset<T>, x: T)
    ensures (m + multiset{x}) - multiset{x} == m
  {
  }

  lemma {:induction false} TakeOne<T>(m: multiset<T>, xs: seq<T>, i: nat)
    requires i < |xs|
    ensures xs[i] in m + multiset(xs[i..])
    ensures (m + multiset(xs[i..])) - multiset{xs[i]} == m + multiset(xs[i + 1..])
  {
    assert xs[i..] == [xs[i]] + xs[i + 1..];
  }

  lemma {:induction false} BooksOf(s: State)
    requires StoreOk(s)
    ensures Accounted(s.books, s.queued, s.lifetime.aggregate.requests)
  {
  }

  lemma {:induction false} MarkSameCursor(l: Lifetime, reason: Reason, kind: LossKind, field: Field, count: nat)
    ensures SameCursor(l, Marked(l, reason, kind, field, count))
  {
    MarkLeavesCounters(l.coverage, reason, kind, field, count);
    hide Mark;
  }

  lemma {:induction false} IndexKeeps(s: State, date: int)
    requires StoreOk(s) && date in s.shards.days
    ensures var ids := IdsOf(s.shards.days[date].dedup);
            && StoreOk(s.(shards := s.shards.(membership := s.shards.membership[date := ids])))
            && (date in s.shards.membership ==> s.shards.membership[date] == ids)
  {
    hide SoundDay, IsDay, IdsOf, EmptyDay, IsLifetime, Accounted, SpoilingOk, CursorBelow;
  }

  lemma SomeElement<T>(s: set<T>) returns (x: T)
    requires |s| != 0
    ensures x in s
  {
    x :| x in s;
  }

  lemma {:induction false} EarliestDate(s: set<int>)
    requires s != {}
    ensures exists d :: d in s && forall e :: e in s ==> d <= e
  {
    var x := SomeElement(s);
    var rest := s - {x};
    if rest == {} {
      assert forall e :: e in s ==> e == x || e in rest;
    } else {
      EarliestDate(rest);
      var d :| d in rest && forall e :: e in rest ==> d <= e;
      assert forall e :: e in s ==> e == x || e in rest;
      var least := if d <= x then d else x;
      assert least in s;
    }
  }

  lemma {:induction false} FactsStay(s: Shards)
    ensures SameFacts(s, s)
  {
  }

  lemma {:induction false} Fewer(s: set<int>, x: int)
    requires x in s
    ensures |s - {x}| == |s| - 1
  {
  }
}
