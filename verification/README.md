# llm-relay, verified

A Dafny model of the decision-making core of llm-relay, a proxy that relays requests to language-model
providers, and proofs about it. Five parts of the relay are modelled:

- **The accounting ledger** (`src/accounting-store.ts`, `src/accounting-store-schema.ts`): bounded counters that
  saturate or are poisoned, minute cells under row caps, day shards with a dedup index, a lifetime rollup, a recent
  list, a store that folds, queues, writes behind and prunes. What every step keeps is the guard the loader applies to
  files, so the question throughout is which writes can be read back.
- **The request lifecycle** (`src/accounting.ts`, `src/accounting-state.ts`): attempts, commits, the one terminal
  event, a re-entrant finalization, and the price of what was used.
- **The circuit breaker** (`src/circuit-breaker.ts`, `src/breaker-persistence.ts`): cooldown ladders, probes, leases,
  a pruned log of attempt starts read as sliding windows, and restarts.
- **Candidate ordering** (`src/candidate-runner.ts`, `src/credential-select.ts`): bands that are computed by
  classifications with side effects on the breaker, and a sticky pin over credential groups.
- **Two text surfaces** (`src/cli.ts`, `src/config-edit.ts`): the rendered shell line, read back by the token
  recognition of POSIX.1-2017, Shell Command Language, sections 2.2 and 2.3; and the path editor of the configuration
  document.

Records that the source mutates are classes here (`TokenAccumulator`, `MetricAccumulator`, `RecentBook`,
`AccountingStore`, `AccountingRequest`, `RequestAccountingState`, `CircuitBreaker`); their methods are proved against
functions on values, and the theorems are about those functions and about runs of them. Counters are safe integers up to
2^53 - 1; instants and durations are integer milliseconds, days and minutes are counted from the epoch. `dafny verify
dfyconfig.toml` checks the whole project.

Reading order: `Cells`, `Aggregates`, `Minutes`, `Conservation`, `Drifts`, `Days`, `Calendars`, `Rollups`, `Readings`,
`ExactFolds`, `Announcements`, `RetentionPlans`, `Ledger`, `Propagation`, `Store` for the ledger; `Requests`,
`Trackers`, `TrackerRuns`, `RequestStates`, `StorablePackets`, `LifecyclePackets`, `TerminalEvents`, `Pricing` for the
lifecycle; `AttemptLogs`, `BreakerCells`, `CellHistories`, `BreakerStates`, `BreakerRows`, `CredentialIds`, `Breaker`
for the breaker; `Ordering`, `CandidateRunner`; `Shell`; `ConfigPaths`.

## Model

| member | source | states |
|---|---|---|
| Cells.TokenAccumulator.AddRawFact | src/accounting-store.ts:640-658 | the in-place fold of one raw fact leaves exactly the cell, and reports exactly the exactness, that the value function `AddRaw` gives |
| Cells.TokenAccumulator.AddCell | src/accounting-store.ts:682-700 | the same for absorbing another cell, counter by counter |
| Cells.FoldRawMeaning | src/accounting-store.ts:640-658 | folding any list of at most MAX facts shows the order-free tally of the list and keeps the cell guard |
| Cells.FoldRawOrderIndependent | src/accounting-store.ts:640-658 | value, counts and instant of a folded cell never depend on the order of the facts |
| Cells.CellIgnoresOrderExactlyWhen | src/accounting-store.ts:640-658 | every permutation of a list folds to the same whole cell if and only if no fact is unreported or the total is a safe integer |
| Cells.PathsAgree | src/accounting-store.ts:640-718 | folding facts raw and absorbing their one-fact snapshots agree on every field but `lost`, on every list |
| Cells.FoldMergesExactlyWhen | src/accounting-store-schema.ts:1411-1450 | merging two folded cells reads as the fold of the concatenation if and only if no empty list stands beside a certain one; that is also exactly when the merged cell passes its guard |
| Cells.MetricAccumulator.Add | src/accounting-store.ts:719-738 | the in-place latency fold, sample window included, is the value function `AddMetric` |
| Cells.FoldMetricMeaning | src/accounting-store.ts:719-738 | a folded metric sums as a token cell; without overflow its window is the last 25 known values and the rest are counted as dropped |
| Cells.FoldMetricMerges | src/accounting-store-schema.ts:1479-1516 | merging two folded metrics gives a guarded metric that reads as the fold of the concatenation, window and drop count included |
| Cells.FoldSpendMeaning | src/accounting-store.ts:529-543 | below MAX contributors a spend cell states the exact total until the total stops being a safe integer |
| Cells.FoldSpendMerges | src/accounting-store-schema.ts:1367-1386 | merging two folded spend cells is the fold of the concatenation |
| Cells.SpendAmountDroppedExactlyAtTheLast | src/accounting-store.ts:529-543 | a spend fold is inexact exactly from the last countable contributor on, which it counts while dropping its amount; an exact fold loses the amount exactly when the sum is gone or leaves the safe integers |
| Aggregates.AddAggregateKeepsGuard | src/accounting-store.ts:682-700 | absorbing a guarded cell keeps the guard if and only if it is not an empty cell absorbed into a certain one |
| Aggregates.RootRequestGuarded | src/accounting-store.ts:745-785 | folding a request into a root keeps every clause of the load-time guard, exact or not |
| Aggregates.RootAttemptGuarded | src/accounting-store.ts:786-794 | the same for an attempt folded into a root |
| Aggregates.RequestRowGuarded | src/accounting-store.ts:745-785 | a request row that is folded into, even a fresh one and even inexactly, passes the row guard of its own outcome |
| Aggregates.AttemptRowGuarded | src/accounting-store.ts:795-803 | the same for an attempt row |
| Coverages.MarkKeepsGuard | src/accounting-store.ts:472-476 | a mark restores the coherence of a coverage record whatever counters moved before it |
| Coverages.MarkSays | src/accounting-store.ts:462-476 | a loss raises the marker of its own kind and field, up to the safe integers, unless it has none and 32 others fill the record; every other marker, counter and a known reason stay |
| Minutes.ApplyAllSound | src/accounting-store.ts:1438-1507 | the folds of a work keep the row cap, unique keys, the coverage guard and every clause of the row guards but "a row counts something" |
| Minutes.GuardSurvivesExactlyWhen | src/accounting-store-schema.ts:944-960 | after the folds of a work a minute passes its load-time guard if and only if no contribution created a row it then skipped, or one under a label the loader refuses |
| Conservation.Placed | src/accounting-store.ts:844-861 | one exact contribution adds its gain to the root and either to one row or to the announced drops, for every counted measure |
| Conservation.ConservedOverRuns | src/accounting-store.ts:1438-1507 | over any run of exact works the root counts what its rows and announced drops count; with no drop every token measure agrees too |
| Conservation.OverflowLosesTheMinute | src/accounting-store.ts:1458-1485 | two concrete requests after which the minute fails its guard and its balance |
| Drifts.BalanceBreaksExactlyWhen | src/accounting-store.ts:844-861 | one contribution unbalances a balanced minute if and only if the root counts it inexactly while its row is skipped, or it is announced as dropped after an inexact fold |
| Drifts.DriftOverRuns | src/accounting-store.ts:1438-1507 | over any run, exact or not, the root is ahead of rows and drops by the first kind of contribution less the second |
| Days.DayStaysSound | src/accounting-store.ts:1438-1507 | a work keeps its day sound: row caps, sorted index, coverage and announced dedup losses, exact or not |
| Days.DayGuardExactlyWhen | src/accounting-store-schema.ts:980-1001 | a day passes its load-time guard after a work if and only if the minute the work lands in does |
| Days.OnlyAFaultSpoils | src/accounting-store.ts:1438-1507 | a work that costs its day the guard folded inexactly or brought a label that does not load |
| Days.AddDedupIds | src/accounting-store.ts:1626-1640 | the dedup index after a request is its old ids and the new one, or the old ones alone when it is full |
| Rollups.LifetimeStaysGuarded | src/accounting-store.ts:1569-1596 | the lifetime passes its guard after every work, counts it once and widens its interval to it |
| Readings.ChargeReads | src/accounting-store.ts:508-543 | a charge is folded into the cell of its own price source and token basis, each of the four named by its field, and into no other |
| Readings.StepReads | src/accounting-store.ts:745-803 | an exact fold of one contribution adds to what an aggregate reads: its counters, latency, commit, token cells and three spend fields are then the folds of the longer list, read off the events |
| ExactFolds.RequestExactlyWhen | src/accounting-store.ts:745-785 | a request is folded exactly if and only if every counter, cell, window and charge it touches has room |
| ExactFolds.AttemptExactlyWhen | src/accounting-store.ts:786-803 | the same for an attempt, in a root or in a row |
| Readings.MinuteReads | src/accounting-store.ts:1458-1485 | after any run of exact works from an empty minute the root reads every contribution: each of the four cells of its three spend fields is the spend fold of exactly the records with that price source and token basis, latency and commit the metric folds of exactly the known spans; with no row dropped each row reads exactly the contributions of its key |
| Readings.DayReadsItsWorks | src/accounting-store.ts:1438-1507 | a day has a minute for each of its works, and each minute reads exactly the works that end in it, whatever else the day records |
| Announcements.DayAnnounces | src/accounting-store.ts:1489-1500 | a day announces the rows a work dropped, a full index and an inexact fold, each in its own marker and amount |
| Announcements.DropsOnlyWhenFull | src/accounting-store.ts:844-861 | rows are dropped only when the minute or the whole day is full |
| Readings.LifetimeReadsItsWorks | src/accounting-store.ts:1569-1596 | after any list of works folded exactly, the lifetime reads all of them and each month exactly those that ended in it |
| Readings.LifetimeSpansItsWorks | src/accounting-store.ts:1569-1582 | over any list of works the lifetime's interval runs from the first start or end among them to the last end |
| Announcements.LifetimeAnnounces | src/accounting-store.ts:1569-1596 | an inexact fold and a month there is no room for are announced, each in its own marker; after an inexact root no month is folded into, and no other month ever changes |
| Readings.RequestKeySays | src/accounting-store.ts:1462-1473 | the row of a request is named by its client and its ending, and by its winner where it has a packet, by the event itself where it has none |
| Readings.AttemptsShareARowExactlyWhen | src/accounting-store.ts:1475-1487 | two attempts share a row if and only if they agree on role, ending, client, attribution and all three names; none shares a request's row |
| Calendars.MonthOfExactly | src/accounting-store.ts:439-439 | a day falls in a month if and only if it is not before the month's first day nor past its last, counted month by month from January 1970 with leap years |
| Calendars.PlacedExactly | src/accounting-store.ts:437-438 | an instant lies in a minute of a day if and only if the minute has begun by then and not passed |
| Propagation.DayGains | src/accounting-store.ts:1509-1516 | a work adds the rows its minute dropped, in the same amount, to the day and to the sum of its minutes |
| Propagation.LifetimeGains | src/accounting-store.ts:1509-1516 | and to the lifetime and the work's month, and to no other month |
| Propagation.DropsReachEveryRollup | src/accounting-store.ts:1509-1516 | in every state a run of works reaches, each day announces the rows its minutes announce, the lifetime those of all works, each month those of its own; a month without a record met a full table |
| Propagation.DropsSurviveCaching | src/accounting-store.ts:1321-1342 | caching, writing and evicting days keep what they announce |
| Deliveries.EachRequestCountsOnce | src/accounting-store.ts:1438-1446 | however works are redelivered, the day is the one that got each new request once, at its first delivery |
| Deliveries.RedeliveryIsFreeExactlyWhen | src/accounting-store.ts:1626-1640 | a second delivery changes nothing if and only if the id was known or the index had room |
| Packets.Retain | src/accounting-store.ts:1518-1567 | the retained attempts are the forced ones and then others in order while the cap has room |
| Packets.RetainedFills | src/accounting-store.ts:1518-1567 | what is retained fills the detail cap or holds every attempt, each as often as it came |
| Packets.PacketSays | src/accounting-store.ts:1518-1567 | a packet carries the event's measurements and endings; its winner speaks for names, attribution, tokens and cost, its committed attempt for the commit time, and without a winner the event's own names stand and no cost |
| StorablePackets.PacketStorable | src/accounting-store-schema.ts:1163-1264 | a packet assembled from attempts and claims that fit each other passes every clause of the strictest guard |
| RecentList.RankingSorted | src/accounting-store.ts:1598-1624 | the ranking of distinct requests is sorted newest first, ties by id |
| RecentList.StillReflects | src/accounting-store.ts:1598-1624 | after a fresh packet the list is again the top of the whole history, with details of exactly its newest rows |
| RecentList.RecentBook.Add | src/accounting-store.ts:1598-1624 | the in-place list keeps its caps, its guard and, on fresh packets, the top-of-history reading; drops are counted |
| FoldLoops.FoldOne | src/accounting-store.ts:1458-1485 | one contribution on the cell value: root, row lookup and row, with the loop's short circuits, is `ApplyOne`; what that puts where is `Readings.MinuteReads` |
| FoldLoops.FoldIntoMinute | src/accounting-store.ts:1458-1485 | the loop over request and attempts is the fold of all contributions, to which `Readings.MinuteReads` and `Conservation.ConservedOverRuns` apply |
| FoldLoops.FoldLifetime | src/accounting-store.ts:1569-1596 | the loop of the lifetime and its month is `AddLifetime`, to which `Readings.LifetimeReadsItsWorks` applies |
| RetentionPlans.CandidateRange | src/accounting-store.ts:1803-1830 | the candidate loop yields the one bounded, contiguous run of days below the cutoff, and says whether it was cut short |
| RetentionPlans.LifetimeAfterGuarded | src/accounting-store.ts:1833-1840 | the lifetime a batch commits passes its guard, carries the moved cursor and the policy, and nothing else differs |
| RetentionPlans.PruningAnnounced | src/accounting-store.ts:1752-1761 | a batch is announced once on the lifetime, and once more when it was cut short; no other marker moves |
| RetentionPlans.CursorStaysSafe | src/accounting-store.ts:1833-1840 | deleting a batch leaves no live shard below the new cursor |
| RetentionPlans.BatchesConverge | src/accounting-store.ts:1727-1796 | a truncated batch moves the cursor up by exactly its limit, an untruncated one to the cutoff |
| RetentionPlans.RoundsReachTheCutoff | src/accounting-store.ts:1727-1796 | however many bounded batches it takes, exactly the days from the start to the cutoff are deleted, each once and in order, and the cursor ends at the cutoff |
| Ledger.LateShardFallsBehindExactlyWhen | src/accounting-store.ts:1888-1898 | a late work keeps every shard at or above the cursor if and only if retention is on, there is no cursor, or it is not past the work's day |
| Ledger.AbsorbKeeps | src/accounting-store.ts:1438-1507 | absorbing a work keeps the whole store invariant: guards, clean days equal to their files, membership sets, cursor, books |
| Ledger.RetentionKeeps | src/accounting-store.ts:1833-1840 | committing a batch whose files are gone keeps it, and no fact of an unpruned day changes |
| Ledger.CleanIsDurable | src/accounting-store.ts:1055-1131 | with no dirty day the files alone say all the ledger says |
| Ledger.AnnouncedSays | src/accounting-store.ts:1492-1500 | while four markers fit, a missing packet, a full index, dropped attempts and an inexact fold are each announced on the lifetime, in their own marker and in their own amount, and nothing else of it changes |
| Store.AccountingStore.MarkGlobalLoss | src/accounting-store.ts:1956-1967 | one loss is marked on the lifetime and on the recent list |
| Store.AccountingStore.LoadDayForWrite | src/accounting-store.ts:1655-1671 | a day is cached as its file has it; an unreadable one is an announced loss and leaves every fact |
| Store.AccountingStore.DedupSet | src/accounting-store.ts:828-835 | the membership set equals the sorted array, rebuilt or cached |
| Store.AccountingStore.RememberKnownDay | src/accounting-store.ts:1321-1342 | only clean, unprotected days are evicted, and the ledger still says the same about them |
| Store.AccountingStore.AdvanceTrustedDate | src/accounting-store.ts:1926-1936 | the trusted date becomes the newest committed date not past the clock, exactly when one lies past the trusted date |
| Store.AccountingStore.RetentionCutoff | src/accounting-store.ts:1948-1953 | with retention on, the days at or past the cutoff are exactly the last so many that end with the date |
| Store.AccountingStore.QueueLateRetention | src/accounting-store.ts:1888-1898 | a late day behind the cursor queues the cutoff of today if and only if today no longer keeps it |
| Store.AccountingStore.PlanRetention | src/accounting-store.ts:1727-1796 | what is due is the latest of the pending cutoff, that of the trusted date once the clock has passed it and that of a newly trusted date; it is planned, as the batch from the cursor below it, if and only if it leaves work, and otherwise nothing stays pending |
| Store.AccountingStore.ExecuteBatch | src/accounting-store.ts:1727-1796 | on success every file of the batch is gone and the cursor has moved as planned, in memory and on file; on failure memory is as it was, and either nothing was written or the file of the lifetime is ahead and a file of the batch is left |
| Store.AccountingStore.RestartFindsEveryFileExactlyWhen | src/accounting-store.ts:1765-1780 | with nothing dirty, the lifetime on file keeps every shard file at or above its cursor if and only if no file of an unfinished batch is left |
| RetentionPlans.AheadIsSafeExactlyWhen | src/accounting-store.ts:1742-1780 | the lifetime a batch writes ahead is safe beside the files that are left if and only if none of them is the batch's |
| Store.AccountingStore.FilesOutliveTheirTime | src/accounting-store.ts:1926-1953 | in every reachable store a shard file that was ever written is still there, or its day was at least the retention period before a date the clock had shown |
| Store.AccountingStore.CommitRetention | src/accounting-store.ts:1727-1796 | one bounded batch a flush; a truncated one stays queued; facts of unpruned days stay |
| Store.AccountingStore.Absorb | src/accounting-store.ts:1438-1507 | a work new to its day: the day becomes `DayAfter`, the books apply it, the lifetime is `LifetimeWith` and its announced losses, its packet reaches the recent list, and a late day queues pruning |
| Store.AccountingStore.Announce | src/accounting-store.ts:1491-1500 | a packet is added to the recent list and a missing one announced, and so is every other loss of the work |
| Store.AccountingStore.Settle | src/accounting-store.ts:1438-1507 | a work its day knows changes nothing; any other becomes `DayAfter` on its day and on no other, is appended to the applied works, gives the recent list its packet if it has one, and leaves the lifetime it and its losses call for; an unreadable day is an announced loss and leaves the work in hand |
| Store.AccountingStore.ApplyTerminal | src/accounting-store.ts:1438-1507 | through the flushes it may need, each work is in exactly one place, the applied works only grow in order, and the recent list was given exactly their packets |
| Store.AccountingStore.EnsureTransactionRoom | src/accounting-store.ts:1643-1652 | making room moves works only between the queue and the applied or replayed ones |
| Store.AccountingStore.DrainQueued | src/accounting-store.ts:1432-1436 | the queue never grows, works move only between it and the applied or replayed ones, and the nesting of drains and flushes ends |
| Store.AccountingStore.AllGuarded | src/accounting-store.ts:1055-1131 | answers true if and only if every dirty day passes its guard |
| Store.AccountingStore.CommitFacts | src/accounting-store.ts:1055-1131 | either nothing is dirty any more and the files hold it all, the two snapshots included, or everything still is |
| Store.AccountingStore.Flush | src/accounting-store.ts:1055-1131 | it refuses if and only if the queue is empty and a dirty day fails its guard, and then names an applied work that is at fault; when it commits or has nothing to do, nothing is queued or dirty and the files, both snapshots included, say all the store says |
| Store.AccountingStore.FlushDrained | src/accounting-store.ts:1055-1131 | it moves no work and loses no fact of any unpruned day |
| Store.AccountingStore.OnRequestCompleted | src/accounting-store.ts:1393-1404 | each completed work is applied, replayed, queued or announced as lost, and lost only when the queue is full |
| Store.AccountingStore.RecentIsTheTopOfTheApplied | src/accounting-store.ts:1598-1624 | in every reachable store, while no request is applied twice, the recent rows are the newest of the packets of the applied works, with details of exactly the newest of them |
| Requests.AccountingRequest.Start | src/accounting.ts:769-812 | starting an attempt is the value step; nothing starts after completion |
| Requests.AccountingRequest.Commit | src/accounting.ts:820-843 | at most the first open serve attempt at a usable instant is marked as committed |
| Requests.AccountingRequest.CompleteOne | src/accounting.ts:845-895 | an attempt completes once and is announced as it is |
| Requests.AccountingRequest.Complete | src/accounting.ts:897-1001 | the terminal event is the one the attempts allow, once; a contradicting claim is refused and changes nothing; what the event says is `TerminalEvents.EveryEventAccounts` |
| Trackers.TerminalExactlyWhen | src/accounting-state.ts:318-346 | the terminal event is recorded at the first moment the tracker is ready if and only if the attempts agree with the way the response ended |
| Trackers.FinalizedStep | src/accounting-state.ts:318-346 | closing the first open attempt and finalizing from there is finalizing: the nested call of the loop is harmless |
| TrackerRuns.OneTerminalAtTheEnd | src/accounting-state.ts:237-346 | in every run there is at most one terminal event, it is the last event, every attempt completed once before it, and at most one attempt ever committed |
| TrackerRuns.FinalIsFinal | src/accounting-state.ts:318-346 | once final, a tracker never records anything more and a recorded request never changes |
| TrackerRuns.CutOffAfterServeIsLost | src/accounting-state.ts:318-346 | a request whose serve succeeded without committing and whose client then left is never recorded, whatever follows |
| TrackerRuns.CutOffAfterServeHappens | src/accounting-state.ts:166-346 | such a request is reached in two steps |
| TerminalEvents.EveryEventAccounts | src/accounting.ts:897-1001 | in every run the recorded event measures latency from the request's start to its end, absent when the clock ran back, and carries the commit of the one committed attempt, absent without one; names, attribution, outcome and tokens are those of the committed attempt or else of the first serve that succeeded, and absent without one; the spend is the price of those tokens; the abandoned spends are those of exactly the serves given up on, in order |
| TerminalEvents.CompletesExactlyWhen | src/accounting.ts:897-961 | a completion is accepted if and only if every attempt is done and the caller's claim, attribution, outcome and failure agree with the attempt that wins; without one, when an outcome other than success is named |
| TerminalEvents.EndsAs | src/accounting-state.ts:318-346 | a cut-off response is a cancelled, aborted request; after a successful serve the winner speaks and no failure is named; otherwise it is an error with the last failure heard of |
| TerminalEvents.FinalExactlyWhen | src/accounting-state.ts:166-346 | a step makes a tracker final if and only if the response has then ended and, unless it finished, nothing is active any more |
| TerminalEvents.StepMoves | src/accounting.ts:820-895 | an attempt commits only as the first open serve to, in the time since its start, and ends only once, with its own time, its own figures each under its own token kind, and their price |
| TerminalEvents.AttemptsGrow | src/accounting.ts:769-812 | an attempt enters a request as it was begun, at that instant, if and only if the request still takes attempts |
| TerminalEvents.Heard | src/accounting-state.ts:237-316 | until it is final a tracker has heard exactly the last failure named, the last attribution, whether a serve succeeded, and how the response first ended |
| RequestStates.RequestAccountingState.Complete | src/accounting-state.ts:237-286 | the re-entrant method, nested finalization included, is the value step |
| RequestStates.RequestAccountingState.FinalizeIfReady | src/accounting-state.ts:318-346 | so is `finalizeIfReady`, whose loop calls back into it |
| RequestStates.RequestAccountingState.OnFinish | src/accounting-state.ts:166-196 | the response's finish |
| RequestStates.RequestAccountingState.OnClose | src/accounting-state.ts:166-196 | the response's close: cut off unless everything had been written |
| LifecyclePackets.AttemptStorable | src/accounting-store.ts:875-899 | a finished attempt of a run, with loadable names, passes the attempt guard, and its stored form says what it recorded |
| LifecyclePackets.PendingIsAll | src/accounting-store.ts:1373-1391 | once a request is complete, what the store holds pending for it is exactly its attempts |
| LifecyclePackets.EveryRunIsStorable | src/accounting-store-schema.ts:1163-1264 | for every run on a clock that never runs back, with loadable names and nothing dropped, the packet built from the recorded events exists and passes every clause of its guard |
| Pricing.PricedExactlyWhen | src/accounting.ts:544-553 | an amount is the price of a count if and only if it is the nearest integer, ties up |
| Pricing.PricedMonotonely | src/accounting.ts:544-553 | more tokens never cost less |
| Pricing.SplitCostsAtMostOne | src/accounting.ts:544-553 | pricing a count in two parts moves the total by at most one micro-dollar |
| Pricing.ComputeSpend | src/accounting.ts:624-704 | the record states a cost within one micro-dollar of the exact one, names every unpriced token, and is absent if and only if there is nothing to say |
| Pricing.InputConserved | src/accounting.ts:624-704 | what was billed and what was recorded as cached add up to the reported input |
| AttemptLogs.RecordStart | src/circuit-breaker.ts:537-560 | the pruning loop is the value function `Append` |
| AttemptLogs.AttemptsInWindow | src/circuit-breaker.ts:572-590 | the backward walk is the window reading |
| AttemptLogs.WindowOfHistory | src/circuit-breaker.ts:572-590 | read from the pruned log, a window counts what the full history holds up to the cap, is marked saturated if and only if the history holds a capful, and sums the tokens of the history or of its newest capful |
| AttemptLogs.SlidingBoundsFixed | src/circuit-breaker.ts:562-571 | a ceiling kept in every window ending at a start is kept in every window of that width |
| AttemptLogs.TokensNullExactlyWhen | src/circuit-breaker.ts:572-590 | the token sum is null if and only if some start in the window had no estimate |
| BreakerCells.FailureCooldown | src/circuit-breaker.ts:403-408 | a failure cools for the time it wasted between one minute and fifteen, and says which it was |
| BreakerCells.ApplyHealthOutcome | src/circuit-breaker.ts:849-932 | the step-by-step ladder is the value function `Applied`; what a run of those leaves is `CellHistories.CellIsItsHistory` |
| CellHistories.CellIsItsHistory | src/circuit-breaker.ts:849-1076 | after any run of events a cell is its history: the failures since the last success, the guessed rate limits since the last success or clearing, the credential faults since they were cleared, the last status, the newest ten pings, and the cooldown in force with its source, by a table of durations written out |
| CellHistories.TableIsTheLadder | src/circuit-breaker.ts:849-932 | that table and the ladder of the breaker agree rung by rung |
| CellHistories.SuccessClears | src/circuit-breaker.ts:857-866 | after a success no failure is counted and nothing cools or faults the cell |
| CellHistories.QuotasAreTheLatest | src/quota-observation.ts:290-298 | a cell holds the last quota fact seen of every axis and period, one of each |
| BreakerCells.RunOk | src/circuit-breaker.ts:849-932 | every reachable cell: a cooldown has a source, a rung has the failures that earn it, pings are capped |
| BreakerCells.LastStatusArmedTheCooldown | src/circuit-breaker.ts:418-423 | in every reachable cell cooling on anything but a quota, the last status is that of the failure that armed the cooldown |
| BreakerCells.ListedExactlyWhenInvented | src/circuit-breaker.ts:629-644 | a cell is listed for probing if and only if it cools on a rung the relay invented for the failure that armed it; a listed cell is one a probe would end |
| BreakerCells.GuessesClimb | src/circuit-breaker.ts:849-932 | guessed rate limits climb a bounded ladder that never steps down |
| BreakerCells.CooldownOutlastsTheFailure | src/circuit-breaker.ts:403-408 | a failure that trips a cell cools it at least as long as it wasted, up to the ceiling |
| BreakerCells.MergeQuotasHolds | src/quota-observation.ts:290-298 | merging keeps the freshest fact of every axis and period, one of each |
| BreakerStates.CancellationCharges | src/circuit-breaker.ts:829-847 | a cancellation charges a cell if and only if the caller waited past the floor for an answer that never began, and cools it for as long |
| BreakerStates.EndingTeaches | src/circuit-breaker.ts:685-718 | what the end of an attempt teaches its cell: successes and failures unless the mapper is at fault, a refused credential as a fault, a caller's error nothing, quotas of the headers seen |
| BreakerStates.ClearingMeans | src/circuit-breaker.ts:1008-1042 | clearing removes everything that demotes a cell and keeps its failures, pings and quotas |
| BreakerStates.SelectorsWiden | src/circuit-breaker.ts:1008-1042 | a full selector selects one cell; without a credential or a model it selects those of all of them |
| BreakerRows.RestoreAltersNothing | src/circuit-breaker.ts:1144-1171 | a restore never alters, reorders or drops a cell that is there |
| BreakerRows.RestartIsTransparentExactlyWhen | src/breaker-persistence.ts:120-156 | export, validation and restore give back the same cells if and only if every row reads back well; otherwise exactly the well-formed ones |
| BreakerRows.RestartAnywhere | src/circuit-breaker.ts:1101-1171 | a restart anywhere in a well-formed run is not noticed by anything after it |
| BreakerRows.UnmeasuredFailureIsForgotten | src/breaker-persistence.ts:91-100 | one failure of non-finite duration makes a restart forget its whole cell, cooldown included |
| CredentialIds.ParsesExactlyWhatIsMade | src/credential-id.ts:8-27 | an id parses to a provider and a label if and only if it is what they make |
| CredentialIds.ConfiguredKeysNeverCollide | src/circuit-breaker.ts:481-485 | two targets with parseable ids share a cell key if and only if id and model are the same, slashes or not |
| CredentialIds.RawKeysCollideExactlyWhen | src/circuit-breaker.ts:481-485 | for raw ids keys of different deployments coincide if and only if one id, a slash and its model spell out the other id and its model |
| CredentialIds.RawRowsCollide | src/breaker-persistence.ts:120-156 | of two such rows the later one is dropped by a restore |
| CredentialIds.SlashesCollide | src/breaker-persistence.ts:120-156 | an instance: both rows pass the row check and share a key |
| Breaker.CircuitBreaker.BeginAttempt | src/circuit-breaker.ts:512-530 | a fresh handle, one more lease, one more start in the log, and nothing else |
| Breaker.CircuitBreaker.LeasesConserved | src/circuit-breaker.ts:1079-1081 | the in-flight count of a credential is the number of its open handles of this generation |
| Breaker.CircuitBreaker.ObserveHeaders | src/circuit-breaker.ts:646-683 | headers are kept once per open handle of the right target; any other call changes nothing |
| Breaker.CircuitBreaker.CompleteAttempt | src/circuit-breaker.ts:685-718 | a handle counts once, for its own target and generation; a refused completion changes nothing at all |
| Breaker.VerdictMeans | src/circuit-breaker.ts:685-743 | each answer to a handle if and only if it is due: foreign, stale, duplicate, for another target, accepted; the base URL does not matter |
| Breaker.CircuitBreaker.RecordQuotaCooldown | src/circuit-breaker.ts:1065-1076 | declined when the reset has passed, and never shortens a cooldown |
| Breaker.CircuitBreaker.EndRateLimitCooldown | src/circuit-breaker.ts:607-617 | ends a cooldown if and only if a probe may |
| Breaker.CircuitBreaker.ClearCooldownState | src/circuit-breaker.ts:1008-1042 | one pass over the cells clears exactly the selected ones |
| Breaker.CircuitBreaker.RestoreState | src/circuit-breaker.ts:1144-1171 | rows for unknown keys become cells; what is known of their past stays known |
| Breaker.CircuitBreaker.ListedByItsHistory | src/circuit-breaker.ts:629-644 | a cell of the breaker, restored ones included, is listed if and only if its history says so |
| Breaker.CircuitBreaker.CellTellsItsHistory | src/circuit-breaker.ts:849-1076 | in every reachable breaker each cell whose events are known is what those events say |
| Breaker.CircuitBreaker.StandsByItsHistory | src/circuit-breaker.ts:793-796 | a target whose events are known is healthy, and without credential fault, if and only if those events say so; one without a cell is both |
| Breaker.CircuitBreaker.Reset | src/circuit-breaker.ts:1237-1244 | everything is forgotten and every handle issued before is stale |
| Sorting.SortHolds | src/circuit-breaker.ts:643-643 | the sort by lift time is a permutation, in order and stable |
| CandidateRunner.TargetUsability | src/candidate-runner.ts:550-574 | the band of a candidate, and the cooldown the classification records on the way |
| CandidateRunner.OrderByUsability | src/candidate-runner.ts:1337-1397 | although classifying cools cells as it goes, the order is the one the breaker called for at the start |
| Ordering.OrderedIsPermutation | src/candidate-runner.ts:639-734 | ordering drops, adds and duplicates no candidate |
| Ordering.OrderedBands | src/candidate-runner.ts:639-734 | each band is the input's band in its order; cooling candidates stand by lift time |
| Ordering.BandsInOrder | src/candidate-runner.ts:639-734 | the bands stand in their fixed order, probation first, cooling last |
| Ordering.LowestBandWins | src/candidate-runner.ts:550-574 | a candidate stands in the last band that anything speaks for, on probation or live only when nothing speaks against it |
| Ordering.TouchedMeans | src/candidate-runner.ts:550-574 | classifying cools a cell exactly when nothing else cooled it and its allowance is spent, to the stated end, and no other cell |
| Ordering.LiftMeans | src/candidate-runner.ts:639-734 | the lift time is the first instant the breaker no longer cools the candidate, or else the end of its allowance's pause |
| Ordering.OrderingAgainChangesNothing | src/candidate-runner.ts:1337-1397 | ordering an order again, against the breaker the first ordering left, changes neither order nor breaker |
| CandidateRunner.GroupsOfFlat | src/credential-select.ts:231-240 | grouping what groups flatten to gives the groups back |
| CandidateRunner.ReorderedHolds | src/candidate-runner.ts:1252-1289 | moving a deployment to the front keeps every slot, every group and the order of the rest |
| CandidateRunner.ApplyStickyOrdering | src/candidate-runner.ts:1252-1289 | each answer is given exactly when it is due: not in the pool, not live with its band, degraded while a live leader is not, natural when it leads, reordered otherwise; reordered moves exactly one live deployment to the front, any other answer leaves the pool alone |
| Shell.SanitizeRenderedArgument | src/cli.ts:2479-2488 | every control character but tab, newline and return becomes U+FFFD, everything else stays in place |
| Shell.ArgumentReads | src/cli.ts:2514-2523 | a quoted argument is read by the shell as one word, the sanitized argument itself |
| Shell.RenderedLineReadsBack | src/cli.ts:2549-2575 | with plain unset names the rendered line is read as exactly the words it stands for |
| Shell.RenderedLineReadsBackExactlyWhen | src/cli.ts:2549-2575 | with unset names that hold no blank, the line is read as its words if and only if every unset name is plain |
| Shell.BareNameSurvivesExactlyWhen | src/cli.ts:2549-2575 | a bare name alone is read as itself if and only if it is plain |
| Shell.QuoteInAnUnsetNameBreaksTheLine | src/config/routing-parser.ts:1043-1047 | a name config load admits and whose quote never closes on the rendered line |
| ConfigPaths.ParsesExactlyTheNames | src/config-edit.ts:73-79 | a text is a path of some names if and only if it is those names with dots between them, none empty, none forbidden |
| ConfigPaths.IndexPartInjective | src/config-edit.ts:69-71 | two different segments never name the same array element |
| ConfigPaths.ReadConfigPath | src/config-edit.ts:161-168 | the walk is the path reading, a bad path apart |
| ConfigPaths.WriteAcceptedExactlyWhen | src/config-edit.ts:127-189 | a write is accepted if and only if every value on the way lets it pass; a refused one leaves the document as it was |
| ConfigPaths.WriteThenRead | src/config-edit.ts:161-189 | what was written is read back |
| ConfigPaths.WriteLeavesTheRest | src/config-edit.ts:170-189 | every path that parts ways with the written one reads as before |
| ConfigPaths.TextsApartDoNotInterfere | src/config-edit.ts:73-189 | the same stated on the texts an operator types |
| ConfigPaths.ReadThenWrite | src/config-edit.ts:161-189 | writing back what was read changes nothing |
| ConfigPaths.WriteTwice | src/config-edit.ts:170-189 | the second of two writes wins and the first leaves no trace |
| ConfigPaths.DeleteRemovesExactlyThePath | src/config-edit.ts:191-214 | deleting answers true if and only if the path was there, and then removes exactly that child |
| ConfigPaths.WithoutChildMeans | src/config-edit.ts:191-214 | what a removed child leaves: an object without the key, an array with the rest shifted |
| ConfigPaths.DeleteLeavesTheRest | src/config-edit.ts:191-214 | paths that part ways above the container, or inside an object, read as before |
| ConfigPaths.DeleteUndoesAnAddedKey | src/config-edit.ts:170-214 | deleting a key a write had just added takes the write back |

## Findings

Properties a reader would expect and that the code does not have, each with the exact condition under which it has them.

- A minute can become unloadable. A fold that is inexact skips the rows after it, but a new row is still created, and
  the loader refuses a row that counts nothing; a label the recorder admits and the loader refuses does the same
  (`src/accounting-store.ts:844-861`, `src/accounting-store-schema.ts:871-889`). Exactly when:
  `Minutes.GuardSurvivesExactlyWhen`, `Days.DayGuardExactlyWhen`. Two requests are enough:
  `Conservation.OverflowLosesTheMinute`. The store refuses to flush as long as such a day is dirty, and can name a work
  that is at fault: `Store.AccountingStore.Flush`.
- Such a work also unbalances the minute, and by how much is exact: `Drifts.BalanceBreaksExactlyWhen`,
  `Drifts.DriftOverRuns`.
- The overflow bookkeeping of a token cell depends on the order of the facts: `Cells.CellIgnoresOrderExactlyWhen`.
- The empty cell is not neutral when cells are merged or absorbed: `Cells.FoldMergesExactlyWhen`,
  `Aggregates.AddAggregateKeepsGuard`.
- The last countable contributor of a spend cell is counted and its amount is dropped; and a sum of amounts that
  overflows reports an exact fold, although the comment at `src/accounting-store.ts:516-521` says the overflow is
  announced. The model follows the code: `Cells.SpendAmountDroppedExactlyAtTheLast` says when a fold is inexact and when
  an exact one has lost the amount.
- A redelivered work is counted again once the dedup index is full: `Deliveries.RedeliveryIsFreeExactlyWhen`.
- With retention switched off, a cursor left from before is not taken back for a late fact, so its shard lies below the
  cursor and no later batch will find it: `Ledger.LateShardFallsBehindExactlyWhen`.
- Pruning writes the lifetime, cursor moved, before it unlinks the files below the cursor, and a restart cannot scan for
  old shards (`src/accounting-store.ts:1765-1802`). When an unlink fails, the file of the lifetime is ahead of a file
  that is still there until a later flush succeeds; a restart in between never finds that file again. Exactly when:
  `Store.AccountingStore.RestartFindsEveryFileExactlyWhen`; that a failed batch can leave one:
  `Store.AccountingStore.ExecuteBatch`.
- A response whose serve succeeded without committing, and whose client then left, is never recorded: the verdict
  contradicts the attempts, and the refusal is swallowed (`src/accounting-state.ts:326-345`). Exactly when a verdict is
  recorded: `Trackers.TerminalExactlyWhen`; that it can happen: `TrackerRuns.CutOffAfterServeHappens`.
- One failure of non-finite duration makes the whole breaker cell unreadable at the next start:
  `BreakerRows.UnmeasuredFailureIsForgotten`; exactly when a restart is transparent:
  `BreakerRows.RestartIsTransparentExactlyWhen`.
- Cell keys of configured credentials never collide, but the row check takes any non-empty string for an id, and raw ids
  can: `CredentialIds.RawKeysCollideExactlyWhen`, with `a` beside `a/b` as an instance in `CredentialIds.SlashesCollide`.
- The names of unset variables are written bare. Config load refuses blanks in them and little else, so a quote, a dollar
  sign or a leading `#` breaks or changes the rendered line: `Shell.RenderedLineReadsBackExactlyWhen`.

## Left out

- Store.AccountingStore.RememberKnownDay: which clean day is evicted, and which days pending work protects, is left open;
  the pending table and its own eviction are not modelled, completed works arrive with their pending attempts.
- Store.AccountingStore.LoadDayForWrite: a corrupt file and an unreadable one are one case; a read either gives the file
  as it was written or fails.
- Store.AccountingStore.Flush: a crash between two writes and reading the snapshots back at start are not modelled; a
  failed write leaves the old file.
- Store.AccountingStore.EnsureTransactionRoom: timers and retries that call flush later are not modelled.
- Store.AccountingStore.ApplyTerminal: what one work does to its day is stated by `Settle`; through the flush it may need
  first, only the books, the order of the applied works and the whole invariant are stated, because the nested drain
  applies other works too.
- Propagation.DropsReachEveryRollup: its runs book works one after the other; caching, writing and eviction in between
  keep it by `Propagation.DropsSurviveCaching`, pruning a day forgets what it announced.
- Days.DayGuardExactlyWhen: the ceiling on the bytes of a file is not modelled, here or in any guard.
- Cells.FoldMergesExactlyWhen: the label of an estimation method, which a merge may drop, is not modelled.
- LifecyclePackets.EveryRunIsStorable: stated for runs with at most 10,000 attempts and names that load; past the
  pending cap attempts are dropped and the packet is announced as a loss instead.
- TrackerRuns.OneTerminalAtTheEnd: each outside call happens at one instant; attempts of another request and a missing
  request are not modelled.
- RequestStates.RequestAccountingState.Complete: usage accumulators are the token facts they come to.
- Pricing.PricedExactlyWhen: only the integer path is modelled; the floating-point fallback for products past the safe
  integers is not, and where a price comes from is a parameter.
- Readings.MinuteReads: stated for runs whose folds are all exact; what an inexact fold leaves out is
  `Drifts.DriftOverRuns`. Token cells of attempts are the folds of the snapshots the attempts bring.
- Store.AccountingStore.RecentIsTheTopOfTheApplied: stated while no request is applied twice; a request applied again
  replaces its own row.
- Ledger.AnnouncedSays: a fifth kind of marker past the cap of 32 is not announced, by `Coverages.MarkSays`.
- AttemptLogs.WindowOfHistory: starts in order of time, and windows up to the widest one, read no earlier than the last
  start.
- BreakerRows.RestartAnywhere: stated for runs whose instants and durations are finite; a row is a whole cell, and fields
  absent from an old file are not modelled.
- Breaker.CircuitBreaker.ClearCooldownState: the lists of what was cleared, and the variants that clear one kind of
  fault, are not modelled.
- Breaker.CircuitBreaker.RestoreState: the nested records (cells, pings, quotas) are values, so aliasing between them is
  not captured; the same holds for the shards of the store and for the document of the path editor.
- Ordering.OrderedBands: availability, pacing and speed are given as terms of the call; how they are measured, and the
  demotion labels reported beside an order, are not modelled.
- Shell.RenderedLineReadsBack: only the `sh` form; reserved words, assignments and aliases in the first word are not
  modelled, and a line with anything to expand is refused rather than expanded.
- ConfigPaths.WriteLeavesTheRest: a document is a finite tree of JSON values; inherited object properties are not
  modelled.
- Deployment measurement, probe scheduling, header parsing, the HTTP layer and PowerShell rendering are not modelled.
