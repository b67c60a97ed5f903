/**
 * The accounting store: terminal works are folded into day shards, a lifetime and a recent list,
 * queued when their day cannot be opened, written behind, and pruned in bounded batches. Writes,
 * reads and unlinks succeed or fail as the file system pleases.
 */
module Store {
  import opened Common
  import opened Facts
  import opened Aggregates
  import opened Coverages
  import opened Minutes
  import opened Packets
  import opened RecentList
  import opened Days
  import opened Rollups
  import opened RetentionPlans
  import opened FoldLoops
  import opened Ledger

  const TRANSACTION_TARGETS: nat := 128

  datatype Status = NothingToDo | Committed | Refused | Failing
  datatype Fault = NoFault | DayRead | SchemaOrSize | WriteError
  datatype FlushResult = FlushResult(status: Status, fault: Fault)

  datatype ReadResult = Missing | Corrupt | Read(day: Day)

  class AccountingStore {
    const retentionDays: Option<nat>
    const dedupLimit: nat
    const pendingRequestLimit: nat
    const knownDaysCap: nat
    const recent: RecentBook

    var queued: seq<TerminalWork>
    var days: map<int, Day>
    var membership: map<int, set<nat>>
    var knownDays: set<int>
    var dirtyDays: set<int>
    var lifetime: Lifetime
    var dirtyLifetime: bool
    var dirtyRecent: bool
    var pendingRetention: Option<int>
    var trustedDate: Option<int>
    var lowerBoundLoss: bool

    /** The files of the store's directory: one a day, and the two snapshots. */
    var disk: map<int, Day>
    var lifetimeFile: Option<Lifetime>
    var recentFile: Option<Recent>

    /** Every work ever completed is in exactly one of these places, or queued. */
    ghost var books: Books
    ghost var scars: Scars

    /** The latest date the clock has shown. */
    ghost var seen: Option<int>

    /** A batch whose lifetime was written but whose files were not all unlinked. */
    ghost var ahead: Option<Batch>

    ghost function Shard(): Shards
      reads this`days, this`disk, this`membership, this`dirtyDays, this`scars
    {
      Shards(days, disk, membership, dirtyDays, scars)
    }

    ghost function View(): Ledger.State
      reads this`days, this`disk, this`membership, this`dirtyDays, this`scars
      reads this`lifetime, this`queued, this`books
    {
      State(retentionDays, dedupLimit, lifetime, Shard(), queued, books)
    }

    /** Every file unlinked so far, and any that may be next, was past its time by a date the clock has shown. */
    ghost predicate Timely() reads this`scars, this`seen, this`pendingRetention, this`trustedDate {
      && Expired(scars.pruned, seen, retentionDays) && Due(pendingRetention, seen, retentionDays)
      && (trustedDate.Some? ==> seen.Some? && trustedDate.value <= seen.value)
    }

    /** What holds even between a work being folded and its packet reaching the recent list. */
    ghost predicate Sound()
      reads this`days, this`disk, this`membership, this`dirtyDays, this`scars
      reads this`lifetime, this`queued, this`books, this`seen, this`pendingRetention, this`trustedDate, recent
    {
      recent.Valid() && StoreOk(View()) && Timely()
    }

    /** The recent list was given the packets of the applied works, in the order they were applied. */
    ghost predicate Listed() reads this`books, recent`history {
      recent.history == PacketsIn(books.applied)
    }

    /** The lifetime its file says; without a file there is none yet. */
    function FiledLifetime(): Lifetime reads this`lifetimeFile {
      OrElse(lifetimeFile, EMPTY_LIFETIME)
    }

    function FiledRecent(): Recent reads this`recentFile {
      OrElse(recentFile, EMPTY_RECENT)
    }

    /**
     * A snapshot that has not changed since is what its file says; but a batch that could not be finished
     * leaves the file of the lifetime ahead, and the batch is still due.
     */
    ghost predicate Filed()
      reads this`lifetime, this`dirtyLifetime, this`lifetimeFile, this`ahead, this`pendingRetention
      reads this`dirtyRecent, this`recentFile, recent
    {
      && (!dirtyLifetime ==> LifetimeFiled())
      && (!dirtyRecent ==> FiledRecent() == recent.View())
    }

    ghost predicate LifetimeFiled()
      reads this`lifetime, this`lifetimeFile, this`ahead, this`pendingRetention
    {
      match ahead
      case None => FiledLifetime() == lifetime
      case Some(b) =>
        && retentionDays.Some? && IsBatch(b) && b.start == StartOf(lifetime)
        && FiledLifetime() == LifetimeAfter(lifetime, b, retentionDays.value)
        && pendingRetention.Some? && RetentionNeedsWork(pendingRetention.value)
    }

    ghost predicate Valid() reads this, recent {
      Sound() && Listed() && Filed()
    }

    constructor (retentionDays: Option<nat>, dedupLimit: nat, pendingRequestLimit: nat, knownDaysCap: nat,
                 recentLimit: nat, detailLimit: nat)
      requires retentionDays.Some? ==> 0 < retentionDays.value <= MAX
      requires 0 < dedupLimit <= MAX_DEDUP_IDS && Limits(recentLimit, detailLimit)
      ensures Valid() && books.received == multiset{} && books.applied == [] && scars.spoiled == {} && days == map[]
              && queued == []
      ensures fresh(recent)
    {
      hide StoreOk, RecentBook.Valid;
      this.retentionDays, this.dedupLimit := retentionDays, dedupLimit;
      this.pendingRequestLimit, this.knownDaysCap := pendingRequestLimit, knownDaysCap;
      recent := new RecentBook(recentLimit, detailLimit);
      queued, days, membership, knownDays, dirtyDays := [], map[], map[], {}, {};
      lifetime, dirtyLifetime, dirtyRecent := EMPTY_LIFETIME, false, false;
      pendingRetention, trustedDate, lowerBoundLoss, disk := None, None, false, map[];
      lifetimeFile, recentFile, ahead := None, None, None;
      books := Books(multiset{}, [], multiset{}, multiset{}, multiset{});
      scars, seen := Scars({}, None, {}, {}), None;
      new;
      FreshOk(retentionDays, dedupLimit);
    }

    /** While no request is applied twice, the recent list is the top of the packets of the applied works. */
    lemma RecentIsTheTopOfTheApplied()
      requires Valid() && AppliedOnce(books.applied) && |books.applied| <= MAX
      ensures Reflects(recent.View(), PacketsIn(books.applied), recent.limit, recent.detailLimit)
      ensures recent.rows == Take(Ranking(PacketsIn(books.applied)), recent.limit)
      ensures recent.details == ById(Take(recent.rows, recent.detailLimit))
    {
      hide PacketsIn, AppliedOnce, StoreOk, Timely, Ranking, ById, IsRecent, Ordered, DistinctRequests;
      PacketsDistinct(books.applied);
    }

    // -------------------------------------------------------------- the file system

    method ReadDayFile(date: int) returns (r: ReadResult)
      ensures r.Missing? <==> date !in disk
      ensures r.Read? ==> date in disk && r.day == disk[date]
    {
      if date !in disk {
        r := Missing;
      } else {
        var readable: bool := *;
        r := if readable then Read(disk[date]) else Corrupt;
      }
    }

    method WriteDayFile(date: int, day: Day) returns (ok: bool)
      modifies this`disk
      ensures disk == if ok then old(disk)[date := day] else old(disk)
    {
      ok := *;
      if ok { disk := disk[date := day]; }
    }

    method WriteLifetimeFile(l: Lifetime) returns (ok: bool)
      modifies this`lifetimeFile
      ensures lifetimeFile == if ok then Some(l) else old(lifetimeFile)
    {
      ok := *;
      if ok { lifetimeFile := Some(l); }
    }

    method WriteRecentFile(r: Recent) returns (ok: bool)
      modifies this`recentFile
      ensures recentFile == if ok then Some(r) else old(recentFile)
    {
      ok := *;
      if ok { recentFile := Some(r); }
    }

    /** Unlinking a file that is not there is no failure. */
    method UnlinkDayFile(date: int) returns (ok: bool)
      modifies this`disk
      ensures disk == if ok then old(disk) - {date} else old(disk)
      ensures !ok ==> date in disk
    {
      ok := *;
      if date !in disk { ok := true; }
      if ok { disk := disk - {date}; }
    }

    /** Every file there ever was is still there, or was past its time when it was deleted. */
    lemma FilesOutliveTheirTime(d: int)
      requires Valid() && d in scars.filed && d !in disk
      ensures retentionDays.Some? && seen.Some? && d + retentionDays.value <= seen.value
    {
      hide DaysOk, DiskOk, CleanOnDisk, Indexed, IsLifetime, CursorOk, Accounted, SpoilingOk, RecentBook.Valid;
      assert d in scars.pruned;
    }

    /**
     * With nothing dirty, a restart from the files keeps every shard file at or above the cursor exactly
     * when no file of an unfinished batch is left: one that is left would never be found again.
     */
    lemma RestartFindsEveryFileExactlyWhen()
      requires Valid() && retentionDays.Some? && dirtyDays == {} && !dirtyLifetime
      ensures CursorBelow(disk.Keys, FiledLifetime())
              <==> ahead.None? || DateSet(ahead.value.dates) !! disk.Keys
    {
      hide PacketsIn, IsLifetime, ShardsOk, Accounted, SpoilingOk, RecentBook.Valid, Timely, LifetimeAfter, IsBatch,
           CursorBelow, StartOf;
      assert disk.Keys + dirtyDays == disk.Keys;
      if ahead.Some? { AheadIsSafeExactlyWhen(disk.Keys, lifetime, ahead.value, retentionDays.value); }
    }

    /** Today's date by a clock that may be unusable, and may run back. */
    method ClockDate() returns (today: Option<int>)
      requires Timely()
      modifies this`seen
      ensures Timely() && seen == Latest(old(seen), today)
      ensures today.Some? ==> seen.Some? && today.value <= seen.value
    {
      hide Expired, Due;
      var usable: bool, date: int := *, *;
      today := if usable then Some(date) else None;
      ExpiredLater(scars.pruned, pendingRetention, seen, Latest(seen, today), retentionDays);
      seen := Latest(seen, today);
    }

    // -------------------------------------------------------------- caches

    /** `markGlobalLoss`. */
    method MarkGlobalLoss(reason: Reason, kind: LossKind, field: Field, count: nat)
      requires Sound() && 0 < count <= MAX
      modifies this`lifetime, this`dirtyLifetime, this`dirtyRecent, this`lowerBoundLoss, recent`coverage
      ensures Sound() && lifetime == Marked(old(lifetime), reason, kind, field, count) && dirtyLifetime && dirtyRecent
      ensures recent.coverage == Mark(old(recent.coverage), reason, kind, field, count)
      ensures lowerBoundLoss == (old(lowerBoundLoss) || reason == CorruptRecovery)
    {
      hide StoreOk, Mark, Marked, RecentBook.Valid, Timely;
      LossKeeps(View(), reason, kind, field, count);
      recent.MarkLoss(reason, kind, field, count);
      if reason == CorruptRecovery { lowerBoundLoss := true; }
      dirtyLifetime, dirtyRecent := true, true;
      lifetime := Marked(lifetime, reason, kind, field, count);
    }

    /** `loadDayForWrite`: an unreadable shard is an announced loss, never an empty day. */
    method LoadDayForWrite(date: int) returns (loaded: bool)
      requires Valid()
      modifies this`days, this`lifetime, this`dirtyLifetime, this`dirtyRecent, this`lowerBoundLoss, recent`coverage
      ensures Valid() && (loaded <==> date in days)
      ensures days == if loaded then old(days)[date := FactsOf(old(Shard()), date)] else old(days)
      ensures SameFacts(old(Shard()), Shard())
      ensures lifetime
              == if loaded then old(lifetime) else Marked(old(lifetime), CorruptRecovery, CorruptLoss, DayField, 1)
    {
      hide StoreOk, SameFacts, Mark, Marked, RecentBook.Valid, Timely, PacketsIn;
      FactsStay(Shard());
      if date in days {
        loaded := true;
        return;
      }
      LoadKeeps(View(), date);
      var r := ReadDayFile(date);
      loaded := !r.Corrupt?;
      if loaded {
        days := days[date := if r.Missing? then EmptyDay(date) else r.day];
      } else {
        MarkGlobalLoss(CorruptRecovery, CorruptLoss, DayField, 1);
      }
    }

    /** `dedupSet`: the index is rebuilt from the array when the day has none in memory. */
    method DedupSet(date: int) returns (ids: set<nat>)
      requires Valid() && date in days
      modifies this`membership
      ensures Valid() && ids == IdsOf(days[date].dedup) && membership == old(membership)[date := ids]
    {
      hide StoreOk, IdsOf, RecentBook.Valid, Timely;
      IndexKeeps(View(), date);
      if date !in membership {
        membership := membership[date := IdsOf(days[date].dedup)];
      }
      ids := membership[date];
    }

    /** A clean day may leave memory: the ledger still says the same about it. */
    method Evict(date: int)
      requires Valid() && date !in dirtyDays
      modifies this`days, this`membership
      ensures Valid() && days == old(days) - {date} && SameFacts(old(Shard()), Shard())
    {
      hide StoreOk, SameFacts, RecentBook.Valid, Timely;
      EvictKeeps(View(), date);
      days, membership := days - {date}, membership - {date};
    }

    /** `rememberKnownDay`: only clean, unprotected days are ever evicted. */
    method RememberKnownDay(date: int)
      requires Valid()
      modifies this`days, this`membership, this`knownDays
      ensures Valid() && SameFacts(old(Shard()), Shard())
      ensures forall d :: d in dirtyDays && d in old(days) ==> d in days && days[d] == old(days)[d]
    {
      hide Sound, Listed, Filed, SameFacts;
      FactsStay(Shard());
      if date !in days || date in knownDays || knownDaysCap < 1 { return; }
      while |knownDays| >= knownDaysCap
        invariant Valid() && SameFacts(old(Shard()), Shard())
        invariant forall d :: d in dirtyDays && d in old(days) ==> d in days && days[d] == old(days)[d]
        decreases |knownDays|
      {
        // Days with pending work are protected too; which ones is not for this store to say.
        var unprotected: bool := *;
        var candidate := None;
        if d: int :| d in knownDays && d !in dirtyDays && unprotected { candidate := Some(d); }
        ghost var before := Shard();
        if candidate.None? {
          if date !in dirtyDays && unprotected {
            Evict(date);
            SameFactsTrans(old(Shard()), before, Shard());
          }
          return;
        }
        Evict(candidate.value);
        SameFactsTrans(old(Shard()), before, Shard());
        Fewer(knownDays, candidate.value);
        knownDays := knownDays - {candidate.value};
      }
      knownDays := knownDays + {date};
    }

    // -------------------------------------------------------------- retention

    /** The first day kept when `date` is the newest: the days kept are exactly the last so many. */
    function RetentionCutoff(date: int): (cutoff: Option<int>)
      ensures cutoff.Some? <==> retentionDays.Some?
      ensures cutoff.Some? ==> forall d: int :: cutoff.value <= d <==> Kept(d, date, retentionDays.value)
    {
      if retentionDays.None? then None else Some(date - (retentionDays.value - 1))
    }

    predicate RetentionNeedsWork(cutoff: int) reads this`lifetime {
      && retentionDays.Some?
      && (lifetime.coverage.retentionDays != retentionDays
          || lifetime.coverage.retentionFrom.None? || lifetime.coverage.retentionFrom.value < cutoff)
    }

    /** The cutoff of this date leaves files to delete. */
    predicate Demands(date: int) reads this`lifetime {
      RetentionCutoff(date).Some? && RetentionNeedsWork(RetentionCutoff(date).value)
    }

    /** `queueRetentionForDate`: the later cutoff stands, if there is still work below this one. */
    method QueueRetentionForDate(date: int)
      requires Timely() && seen.Some? && date <= seen.value
      modifies this`pendingRetention
      ensures Timely()
      ensures pendingRetention
              == if Demands(date) then Latest(old(pendingRetention), RetentionCutoff(date)) else old(pendingRetention)
    {
      hide Expired;
      var cutoff := RetentionCutoff(date);
      if cutoff.Some? && RetentionNeedsWork(cutoff.value) {
        pendingRetention := Latest(pendingRetention, cutoff);
      }
    }

    /** A trusted date already passed queues what its own cutoff leaves to do. */
    method QueueRecoveredRetention() returns (ghost today: Option<int>)
      requires Timely()
      modifies this`pendingRetention, this`seen
      ensures Timely()
      ensures pendingRetention
              == if trustedDate.Some? && today.Some? && trustedDate.value <= today.value && Demands(trustedDate.value)
                 then Latest(old(pendingRetention), RetentionCutoff(trustedDate.value)) else old(pendingRetention)
    {
      hide Expired, Due;
      today := None;
      if retentionDays.None? || trustedDate.None? { return; }
      var now := ClockDate();
      today := now;
      if now.None? || trustedDate.value > now.value { return; }
      QueueRetentionForDate(trustedDate.value);
    }

    /** `advanceTrustedDate`: future and late facts cannot advance pruning. */
    method AdvanceTrustedDate(committed: set<int>) returns (advanced: Option<int>, ghost today: Option<int>)
      requires Timely()
      modifies this`trustedDate, this`seen
      ensures Timely() && (today.Some? ==> seen.Some? && today.value <= seen.value)
      ensures advanced.Some?
              <==> today.Some? && exists d :: d in committed && d <= today.value
                                              && (old(trustedDate).Some? ==> old(trustedDate).value < d)
      ensures advanced.Some? ==> advanced.value in committed && advanced.value <= today.value && trustedDate == advanced
      ensures advanced.Some? ==> forall d :: d in committed && d <= today.value ==> d <= advanced.value
      ensures advanced.None? ==> trustedDate == old(trustedDate)
    {
      hide Expired, Due;
      var now := ClockDate();
      today := now;
      if now.None? { return None, today; }
      var newest, rest := None, committed;
      while rest != {}
        invariant rest <= committed && (newest.Some? ==> newest.value in committed && newest.value <= now.value)
        invariant forall d :: d in committed && d !in rest && d <= now.value ==> newest.Some? && d <= newest.value
        invariant trustedDate == old(trustedDate) && Timely() && seen.Some? && now.value <= seen.value
        decreases rest
      {
        ghost var some := SomeElement(rest);
        var d :| d in rest;
        if d <= now.value { newest := Latest(newest, Some(d)); }
        rest := rest - {d};
      }
      if newest.None? || (trustedDate.Some? && newest.value <= trustedDate.value) { return None, today; }
      trustedDate := newest;
      return newest, today;
    }

    /** The fallback of `retentionCandidates`: no first day is known, so the known days name the range. */
    method KnownCandidates(cutoff: int) returns (b: Batch)
      ensures IsBatch(b) && b.cutoff == cutoff && b.start.None?
    {
      var rest, dates, truncated := knownDays, [], false;
      while rest != {}
        invariant |dates| <= BATCH_LIMIT && forall i :: 0 <= i < |dates| ==> dates[i] < cutoff
        decreases rest
      {
        EarliestDate(rest);
        var d :| d in rest && forall e :: e in rest ==> d <= e;
        if d < cutoff {
          if |dates| >= BATCH_LIMIT { truncated := true; } else { dates := dates + [d]; }
        }
        rest := rest - {d};
      }
      b := Batch(cutoff, None, dates, truncated);
    }

    method RetentionCandidates(cutoff: int) returns (b: Batch)
      ensures IsBatch(b) && b.cutoff == cutoff && b.start == StartOf(lifetime)
    {
      hide IsBatch;
      var start := StartOf(lifetime);
      if start.Some? { b := CandidateRange(start.value, cutoff); } else { b := KnownCandidates(cutoff); }
    }

    /**
     * The planning half of `commitRetention`: the batch that is due; without one nothing stays pending.
     * Due is the latest of the cutoff already pending, that of the trusted date once it has passed,
     * and that of a newly trusted date.
     */
    method PlanRetention(committed: set<int>) returns (plan: Option<Batch>, ghost today: Option<int>)
      requires Timely()
      modifies this`pendingRetention, this`trustedDate, this`seen
      ensures Timely()
      ensures retentionDays.None? ==> pendingRetention == old(pendingRetention) && trustedDate == old(trustedDate)
      ensures retentionDays.Some? ==>
                var recovered := old(trustedDate).Some? && today.Some? && old(trustedDate).value <= today.value
                                 && Demands(old(trustedDate).value);
                var advanced := trustedDate.Some? && trustedDate != old(trustedDate) && Demands(trustedDate.value);
                var due := Latest(Latest(old(pendingRetention),
                                         if recovered then RetentionCutoff(old(trustedDate).value) else None),
                                  if advanced then RetentionCutoff(trustedDate.value) else None);
                pendingRetention == if due.Some? && RetentionNeedsWork(due.value) then due else None
      ensures trustedDate != old(trustedDate) ==> trustedDate.Some? && trustedDate.value in committed
      ensures plan.None? <==> retentionDays.None? || pendingRetention.None?
      ensures plan.Some? ==> pendingRetention == Some(plan.value.cutoff)
                             && IsBatch(plan.value) && plan.value.start == StartOf(lifetime)
    {
      hide IsBatch, StartOf, Expired;
      today := None;
      if retentionDays.None? { return None, today; }
      today := QueueRecoveredRetention();
      var eligible, _ := AdvanceTrustedDate(committed);
      if eligible.Some? { QueueRetentionForDate(eligible.value); }
      if pendingRetention.None? { return None, today; }
      var cutoff := pendingRetention.value;
      if !RetentionNeedsWork(cutoff) {
        pendingRetention := None;
        return None, today;
      }
      var batch := RetentionCandidates(cutoff);
      return Some(batch), today;
    }

    /** The batch that is due; without one no earlier batch is unfinished either. */
    method NextBatch(committed: set<int>) returns (plan: Option<Batch>)
      requires Valid() && !dirtyLifetime
      modifies this`pendingRetention, this`trustedDate, this`seen
      ensures Valid()
      ensures plan.None? ==> ahead.None?
      ensures plan.Some? ==>
                && retentionDays.Some? && IsBatch(plan.value) && plan.value.start == StartOf(lifetime)
                && pendingRetention == Some(plan.value.cutoff) && RetentionNeedsWork(plan.value.cutoff)
    {
      hide StoreOk, RecentBook.Valid, IsBatch, StartOf, LifetimeAfter, Expired, Due, Listed;
      var due, _ := PlanRetention(committed);
      plan := due;
    }

    /** A batch that was cut short stays queued. */
    method QueueRest(plan: Batch)
      requires Valid() && ahead.None? && pendingRetention == Some(plan.cutoff)
      modifies this`pendingRetention
      ensures Valid() && pendingRetention == if plan.truncated then Some(plan.cutoff) else None
    {
      hide StoreOk, RecentBook.Valid, LifetimeAfter, Expired, Listed;
      pendingRetention := if plan.truncated then Some(plan.cutoff) else None;
    }

    /** Unlinks the files of a batch, stopping at the first one that cannot be unlinked. */
    method UnlinkAll(dates: seq<int>) returns (ok: bool)
      requires Valid() && dirtyDays == {} && Expired(DateSet(dates), seen, retentionDays)
      modifies this`disk, this`scars
      ensures Valid() && SameFacts(old(Shard()), Shard())
      ensures disk.Keys <= old(disk).Keys && old(disk).Keys - disk.Keys <= DateSet(dates)
      ensures ok ==> disk.Keys !! DateSet(dates) && DateSet(dates) <= scars.pruned
      ensures !ok ==> DateSet(dates) * disk.Keys != {}
    {
      hide StoreOk, SameFacts, RecentBook.Valid, Expired, Due, Listed, Filed;
      ok := true;
      var i := 0;
      FactsStay(Shard());
      while i < |dates| && ok
        invariant 0 <= i <= |dates|
        invariant Valid() && SameFacts(old(Shard()), Shard())
        invariant disk.Keys <= old(disk).Keys && old(disk).Keys - disk.Keys <= DateSet(dates)
        invariant ok ==> forall k :: 0 <= k < i ==> dates[k] !in disk && dates[k] in scars.pruned
        invariant !ok ==> i > 0 && dates[i - 1] in disk
      {
        ghost var before := Shard();
        UnlinkKeeps(View(), dates[i]);
        OneMoreExpired(scars.pruned, dates[i], DateSet(dates), seen, retentionDays);
        ok := UnlinkDayFile(dates[i]);
        if ok { scars := scars.(pruned := scars.pruned + {dates[i]}); }
        FactsStay(before);
        SameFactsTrans(old(Shard()), before, Shard());
        i := i + 1;
      }
      if !ok { assert dates[i - 1] in DateSet(dates) * disk.Keys; }
    }

    /**
     * The committing half of `commitRetention`. On success the batch's files are gone and the
     * cursor has moved as the batch says; on failure memory is as it was.
     */
    method ExecuteBatch(plan: Batch) returns (ok: bool)
      requires Valid() && dirtyDays == {} && retentionDays.Some?
      requires IsBatch(plan) && plan.start == StartOf(lifetime) && pendingRetention == Some(plan.cutoff)
      requires RetentionNeedsWork(plan.cutoff) && !dirtyLifetime
      modifies this`disk, this`scars, this`lifetime, this`days, this`membership, this`knownDays,
        this`lifetimeFile, this`ahead
      ensures Valid() && SameFacts(old(Shard()), Shard())
      ensures disk.Keys <= old(disk).Keys && old(disk).Keys - disk.Keys <= DateSet(plan.dates)
      ensures if ok then disk.Keys !! DateSet(plan.dates)
              && lifetime == LifetimeAfter(old(lifetime), plan, retentionDays.value)
              else lifetime == old(lifetime) && days == old(days)
      ensures ok ==> ahead.None?
      ensures !ok ==> || (lifetimeFile == old(lifetimeFile) && disk == old(disk))
                      || (lifetimeFile == Some(LifetimeAfter(lifetime, plan, retentionDays.value))
                          && DateSet(plan.dates) * disk.Keys != {})
    {
      hide Sound, Listed, Filed, SameFacts, IsBatch, StartOf, LifetimeAfter, Expired, DateSet;
      FactsStay(Shard());
      ok := WriteAhead(plan);
      if !ok { return; }
      PlanExpired(plan);
      ok := UnlinkAll(plan.dates);
      if !ok { return; }
      ghost var between := Shard();
      ApplyPlan(plan);
      SameFactsTrans(old(Shard()), between, Shard());
    }

    lemma PlanExpired(plan: Batch)
      requires Sound() && IsBatch(plan) && pendingRetention == Some(plan.cutoff)
      ensures Expired(DateSet(plan.dates), seen, retentionDays)
    {
      hide StoreOk, RecentBook.Valid, IsBatch, Expired;
      BatchExpired(plan, seen, retentionDays);
    }

    /** The lifetime of a batch is written before the batch's files go. */
    method WriteAhead(plan: Batch) returns (ok: bool)
      requires Valid() && retentionDays.Some? && IsBatch(plan) && plan.start == StartOf(lifetime)
      requires pendingRetention == Some(plan.cutoff) && RetentionNeedsWork(plan.cutoff)
      modifies this`lifetimeFile, this`ahead
      ensures Valid() && (ok ==> ahead == Some(plan))
      ensures lifetimeFile == if ok then Some(LifetimeAfter(lifetime, plan, retentionDays.value))
                              else old(lifetimeFile)
    {
      hide Sound, Listed, IsBatch, StartOf, LifetimeAfter;
      ok := WriteLifetimeFile(LifetimeAfter(lifetime, plan, retentionDays.value));
      if ok { ahead := Some(plan); }
    }

    /** `applyRetentionPlan`. */
    method ApplyPlan(plan: Batch)
      requires Valid() && dirtyDays == {} && retentionDays.Some? && IsBatch(plan) && plan.start == StartOf(lifetime)
      requires disk.Keys !! DateSet(plan.dates) && DateSet(plan.dates) <= scars.pruned
      requires lifetimeFile == Some(LifetimeAfter(lifetime, plan, retentionDays.value))
      modifies this`lifetime, this`days, this`membership, this`knownDays, this`ahead
      ensures Valid() && SameFacts(old(Shard()), Shard()) && ahead.None?
      ensures lifetime == LifetimeAfter(old(lifetime), plan, retentionDays.value)
    {
      hide StoreOk, SameFacts, RecentBook.Valid, IsBatch, StartOf, LifetimeAfter, Expired, Due, Listed, DateSet;
      ghost var next := BatchApplied(View(), plan);
      RetentionKeeps(View(), plan);
      lifetime, ahead := LifetimeAfter(lifetime, plan, retentionDays.value), None;
      days, membership := days - DateSet(plan.dates), membership - DateSet(plan.dates);
      knownDays := knownDays - DateSet(plan.dates);
      assert View() == next;
    }

    /** `commitRetention`: one bounded batch; a truncated one stays queued. */
    method CommitRetention(committed: set<int>) returns (r: Option<FlushResult>, ghost batch: Option<Batch>)
      requires Valid() && dirtyDays == {} && !dirtyLifetime
      modifies this`pendingRetention, this`trustedDate, this`seen, this`disk, this`scars, this`lifetime,
        this`days, this`membership, this`knownDays, this`lifetimeFile, this`ahead
      ensures Valid() && SameFacts(old(Shard()), Shard())
      ensures r.Some? <==> batch.Some?
      ensures batch.Some? ==> retentionDays.Some? && IsBatch(batch.value) && batch.value.start == StartOf(old(lifetime))
      ensures disk.Keys <= old(disk).Keys
              && old(disk).Keys - disk.Keys <= (if batch.Some? then DateSet(batch.value.dates) else {})
      ensures r == Some(FlushResult(Committed, NoFault)) ==>
                && disk.Keys !! DateSet(batch.value.dates)
                && lifetime == LifetimeAfter(old(lifetime), batch.value, retentionDays.value)
                && pendingRetention == if batch.value.truncated then Some(batch.value.cutoff) else None
      ensures r != Some(FlushResult(Committed, NoFault)) ==> lifetime == old(lifetime) && days == old(days)
      ensures r.Some? ==> r.value == FlushResult(Committed, NoFault) || r.value == FlushResult(Failing, WriteError)
      ensures r != Some(FlushResult(Failing, WriteError)) ==> ahead.None?
    {
      hide Sound, Listed, Filed, SameFacts, IsBatch, StartOf, LifetimeAfter, DateSet;
      FactsStay(Shard());
      var plan := NextBatch(committed);
      batch := plan;
      if plan.None? { return None, batch; }
      var ok := ExecuteBatch(plan.value);
      if !ok { return Some(FlushResult(Failing, WriteError)), batch; }
      QueueRest(plan.value);
      return Some(FlushResult(Committed, NoFault)), batch;
    }

    /** The pending half of `revisitLateRetentionDate`: an already expired late day queues pruning. */
    method QueueLateRetention(date: int, behind: bool) returns (ghost today: Option<int>)
      requires Sound()
      modifies this`pendingRetention, this`seen
      ensures Sound()
      ensures pendingRetention
              == if retentionDays.Some? && behind && today.Some? && !Kept(date, today.value, retentionDays.value)
                 then Latest(old(pendingRetention), RetentionCutoff(today.value)) else old(pendingRetention)
    {
      hide StoreOk, RecentBook.Valid, Expired;
      today := None;
      if retentionDays.None? || !behind { return; }
      var now := ClockDate();
      today := now;
      if now.None? { return; }
      var cutoff := RetentionCutoff(now.value);
      if cutoff.Some? && date < cutoff.value { pendingRetention := Latest(pendingRetention, cutoff); }
    }

    // -------------------------------------------------------------- terminal works

    /** The assignments of `applyTerminal`, on a day that does not know the request yet. */
    method Install(w: TerminalWork, after: Day, announced: Lifetime)
      requires Sound() && IsWork(w) && w in books.inHand && DayOf(w.event.endedAt) in days
      requires after == DayAfter(days[DayOf(w.event.endedAt)], w, dedupLimit) && announced == LifetimeWith(View(), w)
      modifies this`days, this`membership, this`dirtyDays, this`knownDays, this`lifetime, this`books, this`scars
      ensures Sound() && View() == Absorbed(old(View()), w) && lifetime == announced
    {
      hide StoreOk, RecentBook.Valid, DayAfter, LifetimeWith, IsDay, DayOf, IdsOf, IsWork, Absorbed, Expired, Due;
      var date := DayOf(w.event.endedAt);
      AbsorbKeeps(View(), w);
      AbsorbedParts(View(), w);
      AbsorbedPruned(View(), w);
      ghost var next := Absorbed(View(), w);
      lifetime, days := announced, days[date := after];
      membership := membership[date := IdsOf(after.dedup)];
      dirtyDays, knownDays := dirtyDays + {date}, knownDays - {date};
      scars, books := next.shards.scars, next.books;
      assert View() == next;
    }

    /** The in-memory half of `applyTerminal`, and the losses it announces. */
    method Absorb(w: TerminalWork) returns (ghost today: Option<int>)
      requires Valid() && IsWork(w) && w in books.inHand && DayOf(w.event.endedAt) in days
      modifies this, recent
      ensures Valid() && Shard() == Absorbed(old(View()), w).shards && books == Absorbed(old(View()), w).books
              && queued == old(queued)
      ensures recent.history == old(recent.history) + (if PacketOf(w).Some? then [PacketOf(w).value] else [])
      ensures var (date, from) := (DayOf(w.event.endedAt), old(lifetime).coverage.retentionFrom);
              pendingRetention
              == if retentionDays.Some? && from.Some? && date < from.value && today.Some?
                    && !Kept(date, today.value, retentionDays.value)
                 then Latest(old(pendingRetention), RetentionCutoff(today.value)) else old(pendingRetention)
      ensures dirtyLifetime && dirtyRecent
      ensures var before := old(days)[DayOf(w.event.endedAt)];
              lifetime == Announced(LifetimeWith(old(View()), w), w, |before.dedup.ids| >= dedupLimit,
                                    MinuteAfter(before, w).exact)
    {
      hide StoreOk, RecentBook.Valid, DayAfter, LifetimeWith, IsDay, DayOf, IdsOf, IsWork, MinuteAfter, Absorbed, Sound,
           PacketsIn, PacketOf, Announced, Kept;
      PacketsAppend(books.applied, w);
      AbsorbedBooks(View(), w);
      var date := DayOf(w.event.endedAt);
      var behind := lifetime.coverage.retentionFrom.Some? && date < lifetime.coverage.retentionFrom.value;
      var full := |days[date].dedup.ids| >= dedupLimit;
      var exact := FoldIn(w);
      today := QueueLateRetention(date, behind);
      Announce(w, full, exact);
    }

    /** The facts of a work, folded and installed. */
    method FoldIn(w: TerminalWork) returns (exact: bool)
      requires Sound() && IsWork(w) && w in books.inHand && DayOf(w.event.endedAt) in days
      modifies this`days, this`membership, this`dirtyDays, this`knownDays, this`lifetime, this`books, this`scars
      ensures Sound() && Shard() == Absorbed(old(View()), w).shards && books == Absorbed(old(View()), w).books
      ensures lifetime == LifetimeWith(old(View()), w)
      ensures exact == MinuteAfter(old(days)[DayOf(w.event.endedAt)], w).exact
    {
      hide StoreOk, RecentBook.Valid, DayAfter, LifetimeWith, IsDay, DayOf, IdsOf, IsWork, MinuteAfter, Absorbed,
           Timely;
      var after, announced;
      after, announced, exact := FoldWork(w, DayOf(w.event.endedAt));
      Install(w, after, announced);
    }

    /** The folds of a work over its minute, its day and the lifetime. */
    method FoldWork(w: TerminalWork, date: int) returns (after: Day, announced: Lifetime, exact: bool)
      requires date == DayOf(w.event.endedAt) && date in days
      ensures after == DayAfter(days[date], w, dedupLimit) && announced == LifetimeWith(View(), w)
      ensures exact == MinuteAfter(days[date], w).exact
    {
      hide AnnounceDropped, FoldsOf, MinuteOf, Enclose, DayOf, ApplyAll, AddLifetime, Rewound;
      var day, m := days[date], MinuteOf(w.event.endedAt);
      var rows := CountDayRows(day);
      var cell := if m in day.cells then day.cells[m] else EmptyCell(day.date, m);
      var s := FoldIntoMinute(cell, if rows <= MAX_DAY_ROWS then MAX_DAY_ROWS - rows else 0, FoldsOf(w));
      var before, now := cell.coverage.droppedRows, s.cell.coverage.droppedRows;
      var dropped := if now > before then now - before else 0;
      after := Enclose(day, day.cells[m := s.cell], dropped, w.event.requestId, dedupLimit, s.exact);
      var added := FoldLifetime(lifetime, w);
      if retentionDays.Some? { added := Rewound(added, date); }
      announced := AnnounceDropped(added, w.event.endedAt, dropped);
      exact := s.exact;
    }

    method AddRecent(p: RequestPacket)
      requires Sound() && IsRequestPacket(p)
      modifies recent
      ensures Sound() && recent.history == old(recent.history) + [p]
    {
      hide StoreOk, RecentBook.Valid, IsRequestPacket, Timely;
      recent.Add(p);
    }

    /** The end of `applyTerminal`: an inexact fold is marked, and both snapshots have changed. */
    method MarkFolded(exact: bool)
      requires Sound()
      modifies this`lifetime, this`dirtyLifetime, this`dirtyRecent
      ensures Sound() && dirtyLifetime && dirtyRecent
      ensures lifetime == if exact then old(lifetime)
                          else Marked(old(lifetime), CounterOverflow, OverflowLoss, CountersField, 1)
    {
      hide StoreOk, RecentBook.Valid, Marked, Timely;
      if !exact {
        LossKeeps(View(), CounterOverflow, OverflowLoss, CountersField, 1);
        lifetime := Marked(lifetime, CounterOverflow, OverflowLoss, CountersField, 1);
      }
      dirtyLifetime, dirtyRecent := true, true;
    }

    /** The losses a work announces on the lifetime and the recent list, and its packet. */
    method Announce(w: TerminalWork, dedupFull: bool, exact: bool)
      requires Sound()
      modifies recent, this`lifetime, this`dirtyLifetime, this`dirtyRecent, this`lowerBoundLoss
      ensures Sound() && lifetime == Announced(old(lifetime), w, dedupFull, exact) && dirtyLifetime && dirtyRecent
      ensures recent.history == old(recent.history) + (if PacketOf(w).Some? then [PacketOf(w).value] else [])
    {
      hide Sound, Marked, IsRequestPacket, PacketOf;
      var packet := PacketOf(w);
      if packet.Some? {
        AddRecent(packet.value);
      } else {
        MarkGlobalLoss(UnknownReason, TruncatedLoss, DetailPacketField, 1);
      }
      if dedupFull { MarkGlobalLoss(DedupCap, DedupLoss, DedupField, 1); }
      if w.droppedAttempts > 0 {
        MarkGlobalLoss(UnknownReason, TruncatedLoss, PendingAttemptsField, w.droppedAttempts);
      }
      MarkFolded(exact);
    }

    /**
     * `applyTerminal` once there is room. A work its day already knows changes no fact and no
     * aggregate; any other is folded into its day and its lifetime, and into no other day; a day
     * that cannot be read leaves every fact as it was and the work in hand.
     */
    method Settle(w: TerminalWork) returns (done: bool)
      requires Valid() && IsWork(w) && w in books.inHand
      modifies this, recent
      ensures Valid() && queued == old(queued)
      ensures dirtyDays == old(dirtyDays) || dirtyDays == old(dirtyDays) + {DayOf(w.event.endedAt)}
      ensures disk == old(disk) && scars.pruned == old(scars.pruned)
      ensures var date := DayOf(w.event.endedAt);
              var before := FactsOf(old(Shard()), date);
              if done && w.event.requestId !in IdsOf(before.dedup) then
                && books == old(books).(applied := old(books).applied + [w],
                                        inHand := old(books).inHand - multiset{w})
                && recent.history == old(recent.history) + (if PacketOf(w).Some? then [PacketOf(w).value] else [])
                && lifetime == Announced(LifetimeOn(old(lifetime), retentionDays, before, w), w,
                                         |before.dedup.ids| >= dedupLimit, MinuteAfter(before, w).exact)
                && FactsOf(Shard(), date) == DayAfter(before, w, dedupLimit)
                && forall d: int :: d != date && d !in scars.pruned ==> FactsOf(Shard(), d) == FactsOf(old(Shard()), d)
              else
                && books == (if done then old(books).(replayed := old(books).replayed + multiset{w},
                                                      inHand := old(books).inHand - multiset{w})
                             else old(books))
                && SameFacts(old(Shard()), Shard()) && recent.history == old(recent.history)
                && lifetime == if done then old(lifetime)
                               else Marked(old(lifetime), CorruptRecovery, CorruptLoss, DayField, 1)
    {
      hide StoreOk, RecentBook.Valid, SameFacts, FactsOf, Absorbed, DayAfter, LifetimeOn, DayOf, IdsOf, IsWork, Timely,
           PacketsIn, PacketOf, Announced, MinuteAfter, Marked;
      var date := DayOf(w.event.endedAt);
      done := LoadDayForWrite(date);
      if !done { return; }
      ghost var loaded := Shard();
      var ids := DedupSet(date);
      SameMembership(old(Shard()), loaded, Shard());
      if w.event.requestId in ids {
        Replay(w);
        ghost var before := Shard();
        RememberKnownDay(date);
        SameFactsTrans(old(Shard()), before, Shard());
      } else {
        AbsorbedFacts(old(Shard()), View(), w);
        var _ := Absorb(w);
      }
    }

    ghost method Replay(w: TerminalWork)
      requires Valid() && w in books.inHand
      modifies this`books
      ensures Valid()
      ensures books == old(books).(replayed := old(books).replayed + multiset{w},
                                   inHand := old(books).inHand - multiset{w})
    {
      hide PacketsIn, StoreOk, RecentBook.Valid, Timely;
      BooksOf(View());
      MoveKeeps(View(), queued, books.(replayed := books.replayed + multiset{w}, inHand := books.inHand - multiset{w}));
      books := books.(replayed := books.replayed + multiset{w}, inHand := books.inHand - multiset{w});
    }

    /**
     * `applyTerminal`. The flush it may need drains the queue first, which applies works in turn;
     * each nested flush finds a strictly shorter queue.
     */
    method ApplyTerminal(w: TerminalWork) returns (done: bool)
      requires Valid() && IsWork(w) && w in books.inHand
      modifies this, recent
      ensures Valid() && |queued| <= |old(queued)| && books.received == old(books.received)
              && books.lost == old(books.lost) && old(books).applied <= books.applied
      ensures books.inHand == if done then old(books.inHand) - multiset{w} else old(books.inHand)
      decreases |queued|, 3
    {
      hide PacketsIn, StoreOk, RecentBook.Valid, IsWork, DayOf, DayAfter, IdsOf, SameFacts, FactsOf, Timely;
      var room := EnsureTransactionRoom(DayOf(w.event.endedAt));
      if !room { return false; }
      done := Settle(w);
    }

    /** `ensureTransactionRoom`. */
    method EnsureTransactionRoom(date: int) returns (room: bool)
      requires Valid()
      modifies this, recent
      ensures Valid() && |queued| <= |old(queued)| && OnlyMoved(old(books), books)
      ensures room ==> date in dirtyDays || |dirtyDays| + 3 <= TRANSACTION_TARGETS
      decreases |queued|, 2
    {
      hide PacketsIn, StoreOk, RecentBook.Valid, Refusable, Settled, Timely;
      if date in dirtyDays || |dirtyDays| + 3 <= TRANSACTION_TARGETS { return true; }
      var r := Flush();
      room := (r.status == Committed || r.status == NothingToDo) && |dirtyDays| + 3 <= TRANSACTION_TARGETS;
    }

    /** `drainQueued`: every queued work is tried once; what still cannot be applied is queued again. */
    method DrainQueued()
      requires Valid()
      modifies this, recent
      ensures Valid() && |queued| <= |old(queued)| && OnlyMoved(old(books), books)
      decreases |queued|, 0
    {
      hide PacketsIn, StoreOk, RecentBook.Valid, IsWork, Timely;
      if |queued| == 0 { return; }
      var works := TakeQueue();
      var i := 0;
      while i < |works|
        invariant 0 <= i <= |works| == |old(queued)| && Valid() && |queued| <= i
        invariant books.received == old(books.received) && books.lost == old(books.lost)
        invariant old(books).applied <= books.applied
        invariant books.inHand == old(books.inHand) + multiset(works[i..])
      {
        TakeOne(old(books.inHand), works, i);
        TryOne(works[i]);
        i := i + 1;
      }
    }

    /** One turn of the drain: the work is applied or replayed, or queued again. */
    method TryOne(w: TerminalWork)
      requires Valid() && IsWork(w) && w in books.inHand
      modifies this, recent
      ensures Valid() && |queued| <= |old(queued)| + 1
      ensures books.received == old(books.received) && books.lost == old(books.lost)
              && books.inHand == old(books.inHand) - multiset{w} && old(books).applied <= books.applied
      decreases |queued|, 4
    {
      hide PacketsIn, StoreOk, RecentBook.Valid, IsWork, Timely;
      var done := ApplyTerminal(w);
      if !done { Requeue(w); }
    }

    method TakeQueue() returns (works: seq<TerminalWork>)
      requires Valid()
      modifies this`queued, this`books
      ensures Valid() && works == old(queued) && Works(works) && queued == []
      ensures books == old(books).(inHand := old(books).inHand + multiset(works))
    {
      hide PacketsIn, StoreOk, RecentBook.Valid, IsWork, Timely;
      BooksOf(View());
      works := queued;
      MoveKeeps(View(), [], books.(inHand := books.inHand + multiset(queued)));
      queued, books := [], books.(inHand := books.inHand + multiset(queued));
    }

    method Requeue(w: TerminalWork)
      requires Valid() && IsWork(w) && w in books.inHand
      modifies this`queued, this`books
      ensures Valid() && queued == old(queued) + [w] && books == old(books).(inHand := old(books).inHand - multiset{w})
    {
      hide PacketsIn, StoreOk, RecentBook.Valid, IsWork, Timely;
      BooksOf(View());
      MoveKeeps(View(), queued + [w], books.(inHand := books.inHand - multiset{w}));
      queued, books := queued + [w], books.(inHand := books.inHand - multiset{w});
    }

    // -------------------------------------------------------------- flushing

    /** Some dirty day fails its load-time guard. */
    ghost predicate Refusable() reads this`dirtyDays, this`days {
      exists d :: d in dirtyDays && d in days && !IsDay(days[d])
    }

    /** Nothing is dirty, and the files alone say all the ledger says. */
    ghost predicate Settled() reads this, recent {
      && dirtyDays == {} && !dirtyLifetime && !dirtyRecent
      && FiledLifetime() == lifetime && FiledRecent() == recent.View()
      && forall d: int :: d !in scars.pruned ==> Durable(Shard(), d) == FactsOf(Shard(), d)
    }

    /** The guard of every dirty day, as `flush` parses them before it writes anything. */
    method AllGuarded() returns (ok: bool)
      requires Valid()
      ensures ok <==> !Refusable()
      ensures !ok ==> scars.spoiled != {}
    {
      hide IsDay, SoundDay, RecentBook.Valid, Accounted, IsLifetime, CursorOk, SpoilingOk, IdsOf;
      ok := true;
      var rest := dirtyDays;
      while rest != {} && ok
        invariant rest <= dirtyDays && (ok ==> forall d :: d in dirtyDays && d !in rest ==> IsDay(days[d]))
        invariant !ok ==> Refusable() && scars.spoiled != {}
        decreases |rest|, ok
      {
        EarliestDate(rest);
        var d :| d in rest && forall e :: e in rest ==> d <= e;
        ok := IsDay(days[d]);
        rest := rest - {d};
      }
    }

    method WriteDay(d: int) returns (ok: bool)
      requires Valid() && d in dirtyDays && d in days && IsDay(days[d])
      modifies this`disk, this`scars
      ensures Valid() && SameFacts(old(Shard()), Shard())
      ensures disk == if ok then old(disk)[d := days[d]] else old(disk)
    {
      hide Listed, Filed, IsDay, StoreOk, RecentBook.Valid, SameFacts, Expired, Due;
      WriteKeeps(View(), d);
      FactsStay(Shard());
      ok := WriteDayFile(d, days[d]);
      if ok { scars := scars.(filed := scars.filed + {d}); }
    }

    lemma DirtyIsKnown(d: int)
      requires Valid() && d in dirtyDays
      ensures d in days
    {
      hide Listed, Filed, StoreOk, RecentBook.Valid, Timely;
      DirtyKnown(View(), d);
    }

    /** Writes the dirty days in order, stopping at the first that cannot be written. */
    method WriteDays() returns (ok: bool)
      requires Valid() && !Refusable()
      modifies this`disk, this`scars
      ensures Valid() && SameFacts(old(Shard()), Shard())
      ensures ok ==> forall d :: d in dirtyDays ==> d in days && d in disk && disk[d] == days[d]
    {
      hide Sound, Listed, Filed, IsDay, SameFacts;
      FactsStay(Shard());
      ok := true;
      var rest := dirtyDays;
      while rest != {} && ok
        invariant rest <= dirtyDays && Valid() && SameFacts(old(Shard()), Shard())
        invariant ok ==> forall d :: d in dirtyDays && d !in rest ==> d in days && d in disk && disk[d] == days[d]
        decreases |rest|, ok
      {
        EarliestDate(rest);
        var d :| d in rest && forall e :: e in rest ==> d <= e;
        DirtyIsKnown(d);
        ghost var before := Shard();
        ok := WriteDay(d);
        SameFactsTrans(old(Shard()), before, Shard());
        rest := rest - {d};
      }
    }

    /** The snapshots that have changed, the lifetime first. */
    method WriteSnapshots() returns (ok: bool)
      requires Valid()
      modifies this`lifetimeFile, this`recentFile, this`ahead
      ensures Valid() && (ok ==> LifetimeFiled() && FiledRecent() == recent.View())
    {
      hide Sound, Listed;
      ok := true;
      if dirtyLifetime {
        ok := WriteLifetimeFile(lifetime);
        if ok { ahead := None; }
      }
      if ok && dirtyRecent { ok := WriteRecentFile(Recent(recent.rows, recent.details, recent.coverage)); }
    }

    /** The write half of `flush`: either nothing is dirty any more, or everything still is. */
    method CommitFacts() returns (ok: bool)
      requires Valid() && !Refusable()
      modifies this`disk, this`dirtyDays, this`dirtyLifetime, this`dirtyRecent, this`scars,
        this`lifetimeFile, this`recentFile, this`ahead
      ensures Valid() && SameFacts(old(Shard()), Shard())
      ensures if ok then dirtyDays == {} && !dirtyLifetime && !dirtyRecent
              else dirtyDays == old(dirtyDays) && dirtyLifetime == old(dirtyLifetime) && dirtyRecent == old(dirtyRecent)
    {
      hide Sound, Listed, Filed, LifetimeFiled, IsDay, SameFacts;
      ok := WriteDays();
      if ok { ok := WriteSnapshots(); }
      if !ok { return; }
      ghost var before := Shard();
      DirtyGuarded();
      MarkClean();
      SameFactsTrans(old(Shard()), before, Shard());
    }

    method MarkClean()
      requires Valid() && (forall d :: d in dirtyDays && d in days ==> IsDay(days[d]))
      requires forall d :: d in dirtyDays ==> d in days && d in disk && disk[d] == days[d]
      requires LifetimeFiled() && FiledRecent() == recent.View()
      modifies this`dirtyDays, this`dirtyLifetime, this`dirtyRecent, this`scars
      ensures Valid() && SameFacts(old(Shard()), Shard()) && dirtyDays == {} && !dirtyLifetime && !dirtyRecent
    {
      hide Listed, LifetimeAfter, IsDay, StoreOk, RecentBook.Valid, SameFacts;
      CleanKeeps(View());
      ghost var next := Cleaned(View());
      dirtyDays, dirtyLifetime, dirtyRecent, scars := {}, false, false, scars.(spoiled := {});
      assert View() == next;
    }

    lemma DirtyGuarded()
      requires !Refusable()
      ensures forall d :: d in dirtyDays && d in days ==> IsDay(days[d])
    {
      hide IsDay;
    }

    /**
     * `flush`. It refuses only when a dirty day fails its own guard, so only after a work whose
     * folds cost a day its guard; when it commits, the files alone say all the ledger says.
     */
    method Flush() returns (r: FlushResult)
      requires Valid()
      modifies this, recent
      ensures Valid() && |queued| <= |old(queued)| && OnlyMoved(old(books), books)
      ensures r.status == Refused <==> |queued| == 0 && Refusable()
      ensures r.status == Refused ==>
                scars.spoiled != {} && scars.first.Some? && IsSpoiling(scars.first.value, dedupLimit)
                                      && scars.first.value.work in books.applied
                                      && AtFault(scars.first.value.day, scars.first.value.work)
      ensures r.status == Committed || r.status == NothingToDo ==> |queued| == 0 && Settled()
      decreases |queued|, 1
    {
      hide PacketsIn, StoreOk, RecentBook.Valid, SameFacts, Refusable, Settled, IsDay, IsSpoiling, AtFault, Timely;
      DrainQueued();
      if |queued| > 0 { return FlushResult(Failing, DayRead); }
      r := FlushDrained();
    }

    /** `flush` after the drain: it moves no work, and loses no fact of any day not pruned. */
    method FlushDrained() returns (r: FlushResult)
      requires Valid() && |queued| == 0
      modifies this
      ensures Valid() && books == old(books) && queued == old(queued) && SameFacts(old(Shard()), Shard())
      ensures r.status == Refused <==> Refusable()
      ensures r.status == Refused ==>
                scars.spoiled != {} && scars.first.Some? && IsSpoiling(scars.first.value, dedupLimit)
                                      && scars.first.value.work in books.applied
                                      && AtFault(scars.first.value.day, scars.first.value.work)
      ensures r.status == Committed || r.status == NothingToDo ==> Settled()
    {
      hide Sound, Listed, Filed, Settled, SameFacts, IsDay, IsSpoiling, AtFault;
      FactsStay(Shard());
      if dirtyDays == {} && !dirtyLifetime && !dirtyRecent {
        NothingDirty();
        var retention, batch := CommitRetention({});
        if retention.None? || retention.value.status == Committed { CleanSettles(); }
        return if retention.Some? then retention.value else FlushResult(NothingToDo, NoFault);
      }
      var guarded := AllGuarded();
      if !guarded {
        SpoilerNamed();
        return FlushResult(Refused, SchemaOrSize);
      }
      var committed := dirtyDays;
      var ok := CommitFacts();
      if !ok { return FlushResult(Failing, WriteError); }
      ghost var before := Shard();
      RememberAll(committed);
      SameFactsTrans(old(Shard()), before, Shard());
      ghost var between := Shard();
      var retention, batch := CommitRetention(committed);
      SameFactsTrans(old(Shard()), between, Shard());
      if retention.None? || retention.value.status == Committed { CleanSettles(); }
      r := if retention.Some? then retention.value else FlushResult(Committed, NoFault);
    }

    lemma NothingDirty()
      requires dirtyDays == {}
      ensures !Refusable()
    {
    }

    /** With nothing dirty and no batch unfinished the files alone say all the store says. */
    lemma CleanSettles()
      requires Valid() && dirtyDays == {} && !dirtyLifetime && !dirtyRecent && ahead.None?
      ensures Settled()
    {
      hide StoreOk, RecentBook.Valid, Timely, PacketsIn, Durable, FactsOf;
      CleanIsDurable(View());
    }

    lemma SpoilerNamed()
      requires Valid() && scars.spoiled != {}
      ensures scars.first.Some? && IsSpoiling(scars.first.value, dedupLimit)
              && scars.first.value.work in books.applied && AtFault(scars.first.value.day, scars.first.value.work)
    {
      hide StoreOk, RecentBook.Valid, Timely, PacketsIn, IsSpoiling, AtFault;
      SpoiledWitness(View());
    }

    method RememberAll(committed: set<int>)
      requires Valid() && dirtyDays == {}
      modifies this`days, this`membership, this`knownDays
      ensures Valid() && SameFacts(old(Shard()), Shard())
    {
      hide Sound, Listed, Filed, SameFacts;
      FactsStay(Shard());
      var rest := committed;
      while rest != {}
        invariant Valid() && SameFacts(old(Shard()), Shard())
        decreases |rest|
      {
        EarliestDate(rest);
        var d :| d in rest && forall e :: e in rest ==> d <= e;
        ghost var before := Shard();
        RememberKnownDay(d);
        SameFactsTrans(old(Shard()), before, Shard());
        rest := rest - {d};
      }
    }

    // -------------------------------------------------------------- completed requests

    /**
     * `onRequestCompleted`: the work is applied (or replayed), or queued, or announced as lost; and
     * it is lost only when the queue is full.
     */
    method OnRequestCompleted(w: TerminalWork)
      requires Valid() && IsWork(w)
      modifies this, recent
      ensures Valid() && books.received == old(books.received) + multiset{w} && books.inHand == old(books.inHand)
      ensures books.lost == old(books.lost)
              || (books.lost == old(books.lost) + multiset{w} && |queued| >= pendingRequestLimit)
      ensures |queued| <= |old(queued)| + 1 && old(books).applied <= books.applied
    {
      hide PacketsIn, StoreOk, RecentBook.Valid, IsWork, Marked, Timely;
      PutTake(books.inHand, w);
      Receive(w);
      var done := ApplyTerminal(w);
      if done { return; }
      if |queued| >= pendingRequestLimit {
        GiveUp(w);
      } else {
        Requeue(w);
      }
    }

    ghost method Receive(w: TerminalWork)
      requires Valid() && IsWork(w)
      modifies this`books
      ensures Valid()
      ensures books == old(books).(received := old(books).received + multiset{w},
                                   inHand := old(books).inHand + multiset{w})
    {
      hide PacketsIn, StoreOk, RecentBook.Valid, IsWork, Timely;
      BooksOf(View());
      MoveKeeps(View(), queued, books.(received := books.received + multiset{w}, inHand := books.inHand + multiset{w}));
      books := books.(received := books.received + multiset{w}, inHand := books.inHand + multiset{w});
    }

    /** A work that finds the queue full is announced as a loss. */
    method GiveUp(w: TerminalWork)
      requires Valid() && w in books.inHand
      modifies this`lifetime, this`dirtyLifetime, this`dirtyRecent, this`lowerBoundLoss, recent`coverage, this`books
      ensures Valid() && books == old(books).(lost := old(books).lost + multiset{w},
          inHand := old(books).inHand - multiset{w})
      ensures lifetime == Marked(old(lifetime), UnknownReason, TruncatedLoss, PendingTerminalsField, 1) && dirtyLifetime
    {
      hide PacketsIn, StoreOk, RecentBook.Valid, Marked, Timely;
      MarkGlobalLoss(UnknownReason, TruncatedLoss, PendingTerminalsField, 1);
      Lose(w);
    }

    ghost method Lose(w: TerminalWork)
      requires Valid() && w in books.inHand
      modifies this`books
      ensures Valid()
      ensures books == old(books).(lost := old(books).lost + multiset{w}, inHand := old(books).inHand - multiset{w})
    {
      hide PacketsIn, StoreOk, RecentBook.Valid, Timely;
      BooksOf(View());
      ghost var next := books.(lost := books.lost + multiset{w}, inHand := books.inHand - multiset{w});
      MoveKeeps(View(), queued, next);
      books := next;
    }
  }
}
