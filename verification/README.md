# Accord off-chain services: a verified model

Accord is a treasury contract with off-chain services around it. This project models four of them in Dafny and
proves what they promise.

- **The indexer** (`indexer/src`) reads contract events from an RPC node page by page, holds back events whose ledger
  is not final, rewinds when the chain head moves backwards, keeps checkpoints, and has two commands, `backfill` and
  `reindex`, that walk history and hand the range over to the live loop. The chain is a ledger-sorted sequence of
  events; the RPC is a function from call number and request to answer, arbitrary for the safety results and
  consistent with a chain for the coverage results; the store is a class.
  Files: `Finality`, `IndexerStore`, `Rpc`, `Indexing`, `LiveIndexing`, `Coverage`, `BatchPages`, `MissedEvents`,
  `HeldBackEvents`, `Rollbacks`, `Progress`, `History`, `HistoryFinality`, `Walks`, `Reindexing`, `RebuildRuns`,
  `Resuming`, `WalkCounts`, `HistoryGaps`, `LiveGaps`, `MixedRuns`, `EventKeys`.
- **The alert engine and its poller** (`analytics-api/src/alerts.rs`): sliding windows, cooldowns, a storm cap, a
  bounded memory of event keys, and a batch cursor that must not split a ledger.
  Files: `Alerts`, `AlertRuns`, `AlertHistory`, `AlertPoller`, `Intervals`.
- **The rate limiter, the response cache and the middleware that uses them** (`analytics-api/src/limits.rs`).
  Files: `RateLimiting`, `ResponseCaching`, `CacheKeys`, `Guarding`.
- **The outbox and the codecs**: webhook and notification dispatch (`indexer/src/webhooks.js`,
  `indexer/src/notifications.js`), signatures and retry delays, GraphQL cursors, pages and LIKE patterns
  (`analytics-api/src/graphql.rs`), and the two metrics registries.
  Files: `Outbox`, `EventFeed`, `Deliveries`, `Dispatching`, `RetryTimes`, `Backoff`, `Signatures`, `Pagination`, `LikePattern`,
  `Escaping`, `Histograms`, `Labels`, with `Prelude`, `Decimal`, `Hexadecimal` and `Texts` underneath.

What the source does by changing state is a class or a method with loops, proved equal to a specification function;
the lemmas are about those functions. `dafny verify dfyconfig.toml` checks everything.

## Where the code falls short of its description

Each of these is a lemma with the exact condition, a concrete run, or both.

- `indexEventBatch` stores the cursor of a full page even when it held events of that page back. If the batch then
  stops on `maxPages`, those events are never read again, although the README says held back events are re-fetched.
  Which batches lose events can be told from the chain and the heads (`HeldBackEvents.CoverageByInput`);
  `HeldBackEvents.HeldBackEventIsLost` is a run.
- "The indexed state equals the chain state up to the final ledger" fails at the tip exactly when an event that parses
  to something became final after the page it was on had been read (`Progress.TipIsUpToDate`,
  `Progress.RollbackIsUpToDate`); it cannot while the head stands still. `Progress.MovingHeadLeavesFinalEventOut` is a
  run. Everything below the checkpoint is stored all the same (`Coverage.BatchKeepsCoverage`), so a later batch
  fetches the event.
- A rollback to a ledger beyond what had been covered leaves a gap below the rewind point
  (`Rollbacks.RollbackCoverage`, `LiveGaps.RollbackPassesOverUnread`).
- A batch that rewinds the store leaves the old checkpoint on record until it parks. If the RPC fails in between and
  the head returns, the rewound events are gone (`LiveGaps.RefusedRollbackCoverage`,
  `LiveGaps.RefusedRollbackLosesEvent`).
- `walkHistory` claims a range before it has read a page, but leaves the previous range's cursor in place until it
  has. If it fails in between, the next run resumes from the foreign cursor (`Walks.BackfillTellsTruth`,
  `HistoryGaps.StaleCheckpointSkipsHistory`), and completes without what that passed over (`Walks.BackfillIsUnion`).
- Only `reindex` looks at the keys of a pending rebuild: what live batches and backfills add outside its range in the
  meantime is still there when it completes (`RebuildRuns.ReindexExactlyWhen`, `RebuildRuns.LiveBetweenRebuild`).
- A `reindex` whose range is empty clears the store in the middle of a pending rebuild without resetting the rebuild's
  checkpoint (`Reindexing.ReindexIsExact`, `HistoryGaps.EmptyRangeReindexLosesRebuild`).
- `finishHistoryRun` moves the live checkpoint over ledgers a backfill skipped, and keeps it above ledgers a reindex
  dropped (`Reindexing.BackfillExtendsCoverage`, `Reindexing.ReindexHandsOver`). No later batch fills the gap
  (`HistoryGaps.LiveNeverFillsGap`, `HistoryGaps.BackfillAheadOfLiveLosesEvents`,
  `HistoryGaps.ReindexBelowCheckpointLosesEvents`).
- A walk that had already finished starts over when run again, and reports no events (`Resuming.InterruptResume`,
  `HistoryGaps.SecondRunCountsNothing`).
- An event delivered again after more others than the engine remembers is evaluated again, although replays are said
  never to alert twice (`AlertHistory.RedeliveryIsIgnoredExactly`).
- `tick` hands the engine one table after another, so times go back, and the storm cap is then passed: events that come
  `d` late can put more alerts than the cap into a window, though not into an interval shorter by `d`
  (`AlertRuns.LateAlertsPassCap`, `AlertRuns.StormCapHolds`). Whether a late event alerts lies between what the alerts
  standing at its own time and at the latest time say (`AlertRuns.AlertsBetween`).
- `batch_end` gives up on a ledger with more rows than a batch: its surplus rows are never evaluated
  (`AlertPoller.DrainsExactlyOnce`, `AlertPoller.OversizedLedgerLosesRows`).
- A cached answer can be older than the data: until the watcher drops the cache, and also after it, if a request that
  read before stores its answer then (`ResponseCaching.NeverOlderThanDataExactly`,
  `ResponseCaching.ChangeOutdatesAnswer`, `ResponseCaching.NeverStaleExactly`, `ResponseCaching.OldAnswerOutlivesDrop`).
- `retry_after_secs` rounds down, so a client that waits exactly that long can be refused again
  (`RateLimiting.RetryHint`, `RateLimiting.HintIsTooShort`).
- A cacheable answer larger than the cache limit is turned into an error instead of being served uncached
  (`Guarding.UnnoticedExactly`, `Guarding.LargeAnswerIsLost`).
- In SQLite an event that replaces a rolled back one gets an id the webhook cursors have passed, and is never pushed
  (`EventFeed.MissesNothingExactly`, `EventFeed.ReplacementIsNeverCopied`); PostgreSQL identity columns do not reuse ids
  (`EventFeed.EveryEventIsCopied`).
- Two events of one transaction can share a dedupe key when an id is used verbatim (`EventKeys.WhenIdsCollide`).

## Model

| member | source | states |
|---|---|---|
| Finality.FinalLedgerFor | indexer/src/finality.js:59-62 | the newest ledger that `lag` others have closed on top of, or 0 when there is none |
| Finality.DetectReorg | indexer/src/finality.js:88-99 | a rollback is reported exactly when the head fell below the one recorded, and its rewind point is at or below the new head |
| IndexerStore.RefoldIsSum | indexer/src/store/sqlite.js:160-173 | the fold of the balances gives each token the signed sum of its transfers, and an entry exactly when it was transferred |
| IndexerStore.BalanceIsFlow | indexer/src/store/sqlite.js:285-289 | a token's balance is the sum of its inflow amounts less the sum of its outflow amounts |
| IndexerStore.RunningIsFlow | indexer/src/store/sqlite.js:160-173 | a row's running balance is the inflows less the outflows of its token in earlier ledgers and, in its own, up to its insertion |
| IndexerStore.RecordedBalance | indexer/src/store/sqlite.js:285-304 | the balance written with a new transfer is the inflows less the outflows including it |
| IndexerStore.RecordingInOrderKeepsColumn | indexer/src/store/sqlite.js:285-304 | while rows are recorded in ledger order the balance column stays what a recomputation would write |
| IndexerStore.BalancesIgnoreOrder | indexer/README.md:98-102 | balances depend on which rows are stored, not on the order they were ingested in |
| IndexerStore.ReplayReachesRunningBalance | indexer/src/store/sqlite.js:160-173 | replaying in chain order, the total at a row is the sum of its token over the rows no later on chain |
| IndexerStore.ReplayTotalsAreRefold | indexer/src/store/sqlite.js:160-173 | the totals of a replay in chain order are the balances of the table |
| IndexerStore.Store.RecordRow | indexer/src/store/sqlite.js:285-317 | a row whose slot is taken is skipped and reported so; any other is added and moves its token's balance |
| IndexerStore.Store.RecomputeBalances | indexer/src/store/sqlite.js:437-439 | every transfer row gets its running balance in chain order and every token its total, whatever they were |
| IndexerStore.Replay | indexer/src/store/sqlite.js:160-173 | one pass over the rows in chain order gives every token its total and every transfer row its running balance |
| IndexerStore.Store.RewindToLedger | indexer/src/store/sqlite.js:449-460 | rows above the target go, the others stay, balances are those of what stays |
| IndexerStore.Store.ClearHistory | indexer/src/store/sqlite.js:472-482 | the tables and balances are empty and the number removed is reported |
| Rpc.PageShape | indexer/src/indexing.js:52-56 | a consistent page is a contiguous stretch of the visible chain from the position asked for |
| Rpc.IngestEvent | indexer/src/indexing.js:101-105 | one event adds the rows it parses to that are not stored yet, and reports how many |
| Rpc.IngestKeepsTables | indexer/README.md:163-168 | whatever is ingested, slots stay unique, balances stay the fold, rows only grow, and the event's rows are held |
| Rpc.StretchIsSound | indexer/src/indexing.js:93-106 | ingesting a stretch of the chain stores each of its parseable events and nothing that is not on the chain |
| Indexing.IngestPage | indexer/src/indexing.js:93-106 | the page loop ingests exactly the final events, counts the others and finds the lowest ledger held back |
| Indexing.HandleResponse | indexer/src/indexing.js:58-89 | one answer: head bookkeeping, one-time rollback check, rewind and restart, as the step of the protocol prescribes |
| Indexing.ReadPage | indexer/src/indexing.js:91-126 | one page taken, then cursor advanced, checkpoint parked, or the stuck cursor raised |
| Indexing.IndexEventBatch | indexer/src/indexing.js:25-139 | the loop over the mutable store ends in the state, result and error the protocol specification gives, and terminates by pages left and the pending rollback check |
| LiveIndexing.BatchNeverAheadOfFinality | indexer/README.md:198-200 | one completed batch leaves nothing stored beyond the final ledger of the last head seen, whatever the RPC answers |
| LiveIndexing.NeverAheadOfFinality | indexer/README.md:198-200 | the same over any sequence of completed batches at a fixed lag |
| LiveIndexing.TipLeavesPagesOver | indexer/src/indexing.js:51-127 | a caller can tell from the page count whether a batch reached the tip |
| LiveIndexing.CheckpointFallsOnlyOnRollback | indexer/src/indexing.js:39-41 | the checkpoint moves back only in a batch that reports a rollback |
| LiveIndexing.IndexedIsGrowth | indexer/src/indexing.js:101-106 | a completed batch reports exactly as many rows as the store gained on what a rollback left of it |
| LiveIndexing.StuckBatchIsReported | indexer/src/indexing.js:108-116 | a full page whose cursor does not move ends the batch with an error and the checkpoint as it was |
| LiveIndexing.NegativeHeadIsReported | indexer/src/indexing.js:66-73 | a first answer with a negative head is refused with the store untouched |
| LiveIndexing.HeadlessAnswersAreHarmless | indexer/src/indexing.js:58-64 | against an RPC that never names its head no rollback is ever reported and the last head seen stays |
| LiveIndexing.LastSeenIsReported | indexer/src/indexing.js:128-131 | the last head seen is the one reported, except that a head of 0 is not written |
| Coverage.PagesCover | indexer/src/indexing.js:51-127 | loop invariant of a batch on an honest node: everything before its position is stored or held back; at the tip all below the checkpoint is stored |
| Coverage.BatchKeepsCoverage | indexer/src/indexing.js:51-129 | coverage below the checkpoint, and up to the cursor, survives a batch that reaches the tip or stops with nothing held back |
| Coverage.CoverageOverRun | indexer/src/indexing.js:51-129 | coverage over any run of such batches |
| Coverage.RefusedBatchKeepsCoverage | indexer/src/indexing.js:51-56 | a batch that the RPC breaks off before it has held an event back keeps the coverage |
| Coverage.FreshStoreIsCovered | indexer/src/indexing.js:38-38 | an empty store covers the chain from the configured start ledger |
| HeldBackEvents.CoverageByInput | indexer/src/indexing.js:94-126 | a batch without a rollback keeps coverage if and only if a page it may read is not full, or none of the pages it may read shows an event that parses to something and is not final at the head of its page |
| MissedEvents.TakingMisses | indexer/src/indexing.js:94-106 | behind a page is missing exactly what was missing before it and the events on it that parse to something and are beyond finality |
| MissedEvents.BatchMisses | indexer/src/indexing.js:51-127 | the same of a whole batch, however it ends: behind its full pages, and at the tip behind everything visible |
| HeldBackEvents.CoverageUnderSteadyHead | indexer/src/indexing.js:94-126 | with a head that stands still: if and only if the last position the batch may read lies beyond the visible chain, or no event up to it that parses to something is beyond finality |
| HeldBackEvents.CoverageExactly | indexer/src/indexing.js:94-99 | by its outcome: such a batch keeps coverage if and only if it reached the tip or the pages it counts left no such event; the row above says for which inputs |
| BatchPages.FullPagesMeaning | indexer/src/indexing.js:51-127 | the pages before the first short one are full and that one is not |
| BatchPages.BatchEnds | indexer/src/indexing.js:51-127 | a batch that is not refused reads the full pages before the first short one, ends at the tip if and only if there is one it may read, and has held a low event back if and only if one of its pages shows one that is not final at that page's head |
| BatchPages.BatchIsRefused | indexer/src/indexing.js:51-56 | a batch that a refused call breaks off stands right behind its full pages, and has held a low event back if and only if one of them does |
| HeldBackEvents.HeldBackEventIsLost | indexer/README.md:187-189 | a run of two batches in which an event held back at `maxPages` is never fetched again, against the documented policy |
| HeldBackEvents.NodeAtIsHonest | indexer/src/indexing.js:52-56 | the node of that run answers consistently with its chain |
| Rollbacks.RowsBetweenMeaning | indexer/src/indexing.js:101-105 | the rows of a ledger range are exactly the parsed rows of chain events in it |
| Rollbacks.TipMatchesChain | indexer/README.md:198-200 | after a batch that reaches the tip the store holds the chain's rows below the checkpoint, only final rows above it, and their balances |
| Rollbacks.RollbackRebuilds | indexer/src/indexing.js:66-87 | after a rollback and the tip, the store equals the new chain below the new checkpoint, with only final events above it and folded balances |
| Rollbacks.RollbackCoverage | indexer/README.md:190-196 | a rewinding batch ends up covering the new chain if and only if the old store was complete up to the rewind point |
| LiveGaps.RollbackPassesOverUnread | indexer/src/indexing.js:74-85 | a run from an empty store in which it was not: a batch of one page, then a rollback to a ledger it had not read up to, and the unread event is below the checkpoint |
| LiveGaps.RefusedBatchCoverage | indexer/src/indexing.js:51-56 | a batch without a rollback that the RPC breaks off after k pages keeps coverage if and only if none of the k pages shows an event that parses to something and is beyond finality |
| LiveGaps.RefusedRollbackCoverage | indexer/src/indexing.js:66-87 | one that had rewound keeps coverage of the new chain if and only if besides nothing that parses to something lies between its k pages and the old checkpoint, which stays on record |
| LiveGaps.RefusedRollbackLosesEvent | indexer/src/indexing.js:66-87 | a run from an empty store: the head falls, the store is rewound, the RPC fails, the head returns; the next batch sees no rollback and parks above an event that is gone |
| Progress.TipIsUpToDate | indexer/README.md:198-200 | after a batch without a rollback that reached the tip the store holds exactly the rows of the chain up to the final ledger, with their balances, if and only if no event that parses to something became final after its page was read |
| Progress.CheckpointPassesFinal | indexer/src/indexing.js:118-124 | its checkpoint passes the final ledger if and only if the batch began beyond it or no event at all became final after its page was read |
| Progress.UpToDateMeansStored | indexer/README.md:198-200 | holding exactly those rows means, for a store with nothing foreign and nothing beyond finality, that every event up to the final ledger is stored |
| Progress.SteadyHeadLeavesNothing | indexer/README.md:198-200 | while the head stands still no event becomes final after its page was read |
| Progress.RollbackIsUpToDate | indexer/README.md:198-200 | the same equality after a batch that rewound, from the lower of the first ledger covered and the rewind point |
| Progress.RollbackPassesFinal | indexer/src/indexing.js:118-124 | and the same of its checkpoint |
| Progress.MovingHeadLeavesFinalEventOut | indexer/src/indexing.js:118-124 | if the head moves during the batch, an event held back early can be final and still missing when the batch ends at the tip |
| History.IngestHistoryPage | indexer/src/commands.js:141-160 | the page loop ingests exactly the events of the range, counts the rows, tracks the furthest ledger and notices events past the end |
| History.HandlePage | indexer/src/commands.js:133-202 | one page of a walk: its events, then finished, stuck, or checkpointed |
| History.WalkHistory | indexer/src/commands.js:91-205 | the walk over the mutable store ends in the tables, keys, summary and error its specification gives |
| History.RunBackfill | indexer/src/commands.js:216-244 | the command leaves the store its specification gives: walk, then hand-over and refold if complete |
| History.RunReindex | indexer/src/commands.js:254-301 | the command leaves the store its specification gives: resume or clear, walk, then hand-over and refold if complete |
| WalkCounts.BackfillReports | indexer/src/commands.js:91-205 | a backfill reports whether it resumed one of the very same range, and as many events as all its parts added rows |
| WalkCounts.WalkCountsRows | indexer/src/commands.js:132-205 | a walk counts every row it adds and a page for every answer but the last |
| WalkCounts.FurthestMeaning | indexer/src/commands.js:141-160 | the furthest ledger is the largest of the range's events on the page and what it was before |
| WalkCounts.StuckWalkIsReported | indexer/src/commands.js:184-187 | a full page within the range whose cursor does not move ends the walk with an error and the keys as they were |
| Walks.WalkIsTruthful | indexer/src/commands.js:132-205 | a walk that reads from where everything before is stored adds only rows of its range, and if it completes the whole range is stored; its saved keys tell the truth if they did at the start or it saved a page |
| Walks.WalkIsUnionExactly | indexer/src/commands.js:91-205 | a completed walk leaves exactly the old rows and the rows of its range if and only if it started afresh or resumed from keys that told the truth |
| Walks.BackfillIsUnion | indexer/README.md:94-105 | the same for the command, whatever keys another range left: a completed backfill stores the old rows and the rows of its range and no others if and only if it did not resume from keys that were untrue; balances are refolded |
| Walks.BackfillTellsTruth | indexer/src/commands.js:116-128 | the keys a backfill leaves tell the truth if and only if, having taken a walk up, it completed or they told it before, or, having started afresh, its first request was answered or the old position is true of the new range |
| Reindexing.RebuildIsExact | indexer/README.md:107-113 | over a range that is not empty one reindex keeps the rebuild invariant wherever it stops, and if it completes the store is exactly its range |
| Reindexing.ReindexIsExact | indexer/src/commands.js:254-301 | over any range; over an empty one, which clears the store, the invariant survives if and only if no rebuild of another range is pending or its keys are true of an empty store |
| Reindexing.ReindexSurvivesInterruptions | indexer/README.md:109-113 | whatever was stored before and however often it was interrupted or redirected, even to an empty range where that is harmless, a completed reindex is exact |
| RebuildRuns.ReindexExactlyWhen | indexer/src/commands.js:254-301 | whatever came between its parts, a completed reindex whose keys were true holds exactly the chain's rows between its bounds, and nothing else if and only if the store it took up held nothing else |
| RebuildRuns.LiveBetweenRebuild | indexer/src/indexing.js:51-127 | a live batch between the parts of a rebuild leaves its keys true, and the store within the range if and only if every row it adds is |
| RebuildRuns.BackfillBetweenRebuild | indexer/src/commands.js:216-244 | the same for a backfill, finished or not |
| RebuildRuns.RewindBetweenRebuild | indexer/src/indexing.js:74-85 | rewinding keeps the rebuild invariant on the new chain if the pending range lies below the rewind point |
| RebuildRuns.FallBackBetweenRebuild | indexer/src/indexing.js:66-87 | then the batch that rewinds keeps it if and only if the store still lies within the range |
| RebuildRuns.LiveKeepsBackfillTrue | indexer/src/commands.js:116-128 | a live batch leaves the keys of an interrupted backfill as true as they were |
| Reindexing.BackfillHandsOver | indexer/README.md:104-105 | the live checkpoint becomes max(old, end + 1), and coverage from any ledger holds there if and only if every event from that ledger up to it was stored before or lies in the range |
| Reindexing.BackfillExtendsCoverage | indexer/README.md:94-105 | over a covered store: a range that reaches down below the coverage and up to it extends it downwards, if and only if nothing recordable lies unstored between the old checkpoint and the range |
| Reindexing.ReindexHandsOver | indexer/src/commands.js:303-309 | after a rebuild coverage from the range start holds if and only if the chain has nothing to record between the range end and the old checkpoint |
| Resuming.InterruptResume | indexer/src/commands.js:113-205 | stopping after k pages and running again up to m equals one run up to m, if and only if the first run was cut short or had recorded nothing |
| HistoryGaps.SecondRunCountsNothing | indexer/src/commands.js:113-131 | a walk that recorded an event and completed: run again it counts none |
| Resuming.Rewalk | indexer/src/commands.js:132-205 | walking a range again whose events are stored retraces the same pages and records nothing |
| HistoryGaps.StaleCheckpointSkipsHistory | indexer/src/commands.js:116-128 | from an empty store: a backfill cut short after a page, one of a larger range that fails on its first request, and the same one again, which completes without an event of its range |
| HistoryGaps.EmptyRangeReindexLosesRebuild | indexer/src/commands.js:271-275 | from an empty store: a rebuild cut short after a page, a reindex with an empty range, and the rebuild again, which completes without its event |
| HistoryGaps.LiveNeverFillsGap | indexer/src/indexing.js:51-127 | an event below the live checkpoint and cursor that is not stored is stored by none of any number of later batches, completed or not |
| HistoryGaps.ReindexBelowCheckpointLosesEvents | indexer/src/commands.js:303-309 | a rebuild that ends below the live checkpoint drops an event that no later batch brings back |
| HistoryGaps.BackfillAheadOfLiveLosesEvents | indexer/src/commands.js:303-309 | a backfill into a fresh store that starts above the start ledger leaves out an event that no later batch reads |
| MixedRuns.MixedRunKeepsCoverage | indexer/README.md:94-113 | batches, broken-off batches, rollbacks, backfills and rebuilds in any order never lose an event between the current first ledger, which a backfill or rollback may lower, and the live checkpoint |
| HistoryFinality.ResolvedRangeIsFinal | indexer/src/commands.js:16-75 | a resolved range starts at the ledger asked for, else the RPC's oldest, else the configured one, ends at the last ledger that is final and not beyond what was asked for, and is clamped exactly when more was asked for; it is refused exactly when a bound is not positive |
| HistoryFinality.WalkStaysInRange | indexer/src/commands.js:141-160 | whatever the RPC answers, a walk adds only rows of its range |
| HistoryFinality.HistoryNeverAheadOfFinality | indexer/src/commands.js:42-45 | backfill and reindex leave nothing stored beyond the final ledger their range was clamped to, whatever the RPC answers |
| Alerts.DropStale | analytics-api/src/alerts.rs:550-566 | the front of a window leaves it exactly while it is at least a window older than the new sample |
| Alerts.AlertEngine.Push | analytics-api/src/alerts.rs:550-566 | the window becomes what sliding it over the new sample leaves, and the result is its sum |
| Alerts.AlertEngine.ObserveRule | analytics-api/src/alerts.rs:409-540 | one rule's look at one event: its window and its hit |
| Alerts.AlertEngine.CalmDown | analytics-api/src/alerts.rs:366-372 | alerts that left the storm window no longer count |
| Alerts.AlertEngine.EvaluateEvent | analytics-api/src/alerts.rs:330-404 | one event: ignored if seen, else remembered and put to every rule in order, with cooldowns and the cap |
| AlertRuns.AlertsBetween | analytics-api/src/alerts.rs:346-403 | in a stream of any order, a rule that hits alerts if its subject's last alert is a cooldown old and fewer alerts than the cap stand at the time of the event, and only if fewer stand at the latest time seen; otherwise it counts as suppressed |
| AlertRuns.AlertsExactlyWhen | analytics-api/src/alerts.rs:346-403 | for an event no earlier than those before it, in whatever order these came, that is exact |
| AlertRuns.AlertsExactlyInOrder | analytics-api/src/alerts.rs:346-403 | with all times in order, exactly when its subject's last alert is a cooldown old and fewer alerts than the cap are younger than the storm window |
| AlertRuns.EvaluatedInOrder | analytics-api/src/alerts.rs:336-344 | a stream in order is evaluated in order, repeats left out |
| AlertRuns.StormCapHolds | analytics-api/src/alerts.rs:346-404 | in a stream of any order, across all rules and subjects, no interval sees more alerts than the cap that is as long as the storm window less the most by which an event is late |
| AlertRuns.LateAlertsPassCap | analytics-api/src/alerts.rs:1097-1106 | for every window and lateness up to it, a stream in which an interval longer by one tick sees three alerts under a cap of two, and so does the window |
| AlertRuns.RecentNeverExceedsCap | analytics-api/src/alerts.rs:366-373 | for any times at all, the list of recent alerts never outgrows the cap |
| AlertRuns.CooldownSpacing | analytics-api/src/alerts.rs:352-363 | for any times at all, the i-th and j-th alert about one subject of one rule are at least (j - i) cooldowns apart, the rule's own or else the default |
| AlertRuns.RunKeepsStormCap | analytics-api/src/alerts.rs:366-385 | the invariant behind both: what is remembered is the end of all firing times and what was forgotten is a window older than the latest time seen |
| AlertRuns.HitForgetsOldTimes | analytics-api/src/alerts.rs:367-383 | any hit, alerted or held back, cuts the remembered firing times exactly at the window; an event without a hit forgets none |
| AlertRuns.RunKeepsCooldowns | analytics-api/src/alerts.rs:356-384 | the invariant behind the cooldown: the time on record is the last alert's |
| AlertHistory.PushKeepsSamples | analytics-api/src/alerts.rs:550-566 | a pushed window stays the end of the full sample list and its total is the sum of all samples younger than the window |
| AlertHistory.HitsMatchFullHistory | analytics-api/src/alerts.rs:409-540 | as long as no single window goes back in time, a rule hits a fresh event exactly when, and with the value that, its definition over everything evaluated so far says |
| AlertHistory.OffHoursHits | analytics-api/src/alerts.rs:500-535 | an off-hours rule hits an approval exactly when its hour comes fewer hours after the start than the end does, round midnight, and at any hour if the bounds are equal |
| AlertHistory.OffHoursOfDay | analytics-api/src/alerts.rs:500-535 | so over a day it hits exactly (end - start) mod 24 hours, beginning with the start |
| AlertHistory.WindowRulesHit | analytics-api/src/alerts.rs:409-499 | a spend rule hits when the transfers of the token on the contract within the window reach the threshold, an approval rule when the owner's approvals there exceed the limit |
| AlertHistory.TableOrderSuffices | analytics-api/src/alerts.rs:963-1050 | no window goes back in time while each polled table is handled in order, whatever the order between tables and contracts |
| AlertHistory.EveryHitIsAccountedFor | analytics-api/src/alerts.rs:375-403 | alerts plus suppressed equals the number of rules a fresh event hits by that definition |
| AlertHistory.SeenIsBounded | analytics-api/src/alerts.rs:336-344 | set and queue of remembered keys agree, hold no duplicate and at most the capacity |
| AlertHistory.SeenIsRecent | analytics-api/src/alerts.rs:336-344 | what is remembered are the keys of the events evaluated last, in order, as many as fit |
| AlertHistory.NothingForgotten | analytics-api/src/alerts.rs:336-344 | while the distinct keys fit, exactly the keys of the stream are remembered |
| AlertHistory.RedeliveryIsStutter | analytics-api/src/alerts.rs:328-329 | while the distinct keys fit, a stream with repeats gives the engine, alerts and counts of the stream without them |
| AlertHistory.IgnoredExactly | analytics-api/src/alerts.rs:328-344 | whatever came before, an event leaves no trace if and only if its key is among the last evaluated ones, as many as the capacity |
| AlertHistory.RedeliveryIsIgnoredExactly | analytics-api/src/alerts.rs:328-344 | after a stream of different events, one of them delivered again is ignored if and only if it is among the last of them, as many as the capacity |
| AlertPoller.Cursors.CursorOrSeed | analytics-api/src/alerts.rs:889-906 | a stored cursor is used; otherwise it is seeded at 0 or the tip and stored |
| AlertPoller.Cursors.Poll | analytics-api/src/alerts.rs:973-1011 | one poll handles the rows of the batch up to its safe end and moves the cursor there |
| AlertPoller.Cursors.PollPair | analytics-api/src/alerts.rs:963-1050 | transfers, then approvals, each from its own cursor and with the fixed batch size |
| AlertPoller.FirstPollSkipsHistory | analytics-api/src/alerts.rs:889-906 | without cursor and backfill the first poll handles nothing and no poll ever handles a row that is not in a later ledger than all rows then present |
| AlertPoller.FirstPollHandlesWhatFollows | analytics-api/src/alerts.rs:889-906 | rows in later ledgers are handled in order, once, but for the surplus of an oversized ledger |
| AlertPoller.FirstDrain | analytics-api/src/alerts.rs:889-906 | with backfill, draining handles the whole table once and in order if and only if no ledger has more rows than a batch |
| AlertPoller.PollHandles | analytics-api/src/alerts.rs:1055-1069 | a non-empty poll moves the cursor up and handles, in order, at most a batch of each ledger up to it |
| AlertPoller.PollsHandleInOrder | analytics-api/src/alerts.rs:973-1011 | however the table grows past the cursor between polls, exactly the capped rows up to the cursor have been handled, once and in order |
| AlertPoller.LateRowIsNeverHandled | analytics-api/src/alerts.rs:975-983 | a row that turns up at or below the cursor is handled by no later poll |
| AlertPoller.DrainsExactlyOnce | analytics-api/src/alerts.rs:1052-1069 | draining handles every row past the cursor once and in order if and only if no ledger has more rows than a batch; otherwise the first rows of each ledger |
| AlertPoller.OversizedLedgerLosesRows | analytics-api/src/alerts.rs:985-986 | with the fixed batch of 500, a ledger with 501 rows is drained without its last row |
| RateLimiting.RateLimiter.Check | analytics-api/src/limits.rs:133-166 | one request: prune when large, open or reopen the client's window, then count or refuse |
| RateLimiting.PruningIsInvisible | analytics-api/src/limits.rs:138-140 | with times in order, for every pruning threshold the decisions are those of a limiter that never prunes |
| RateLimiting.GrantedExactlyWhen | analytics-api/src/limits.rs:142-165 | a request is granted exactly when its client has no open window or was granted fewer than the limit since it opened, and the remaining count is the limit less those and this one |
| RateLimiting.AtMostTheLimitPerWindow | analytics-api/src/limits.rs:142-165 | in an open window a client has been granted exactly what the window counts, and at most the limit |
| RateLimiting.AtMostTwiceTheLimit | analytics-api/src/limits.rs:109-111 | no interval as long as the window sees more than 2 * limit - 1 requests of a client granted |
| RateLimiting.BoundIsReached | analytics-api/src/limits.rs:109-111 | for every limit and every window of two ticks or more there are requests that attain the bound |
| RateLimiting.RetryHint | analytics-api/src/limits.rs:150-160 | waiting for exactly the hinted seconds suffices if and only if the window closes within a second or after whole seconds |
| RateLimiting.ResetMeaning | analytics-api/src/limits.rs:150-160 | the seconds told, granted or not, are the whole ones left of the window, or one |
| RateLimiting.HintIsTooShort | analytics-api/src/limits.rs:150-160 | three requests, the last of which waited as long as it was told and is refused |
| ResponseCaching.ResponseCache.Lookup | analytics-api/src/limits.rs:199-209 | a fresh entry is returned, a stale one dropped |
| ResponseCaching.ResponseCache.Put | analytics-api/src/limits.rs:211-227 | room is made by dropping stale entries, then an oldest one; the entry is stored |
| ResponseCaching.ResponseCache.Invalidate | analytics-api/src/limits.rs:230-238 | everything is dropped and counted |
| ResponseCaching.LookupDropsStale | analytics-api/src/limits.rs:199-209 | a lookup that finds nothing leaves nothing under its key, and touches no other |
| ResponseCaching.RoomHoldsNothingStale | analytics-api/src/limits.rs:213-217 | after a full cache has made room no entry that is out of date is left |
| ResponseCaching.OldestExists | analytics-api/src/limits.rs:216-224 | a non-empty cache has an entry no other is older than |
| ResponseCaching.BoundedAndCurrent | analytics-api/src/limits.rs:174-179 | over any run the cache holds at most its maximum and only what was last stored under a key since the last drop |
| ResponseCaching.FoundIsCurrent | analytics-api/src/limits.rs:199-209 | what a lookup finds is the last entry stored under its key since the last drop, younger than the TTL |
| ResponseCaching.MissingMeansCrowdedOut | analytics-api/src/limits.rs:211-227 | over any run whose clock does not go back, a fresh entry is missing only if at least the maximum of other keys hold entries as new: eviction takes the oldest |
| ResponseCaching.EvictionIsInvisible | analytics-api/src/limits.rs:211-227 | while no more keys are in use than fit and the clock does not go back, lookups answer as a cache that never evicts |
| ResponseCaching.NeverOlderThanDataExactly | analytics-api/src/limits.rs:5-7 | at no time is a cached answer older than the data, if and only if the data only changes while the cache is empty and no request stores an answer it read before a change |
| ResponseCaching.ChangeOutdatesAnswer | analytics-api/src/limits.rs:5-7 | a run in which the data changes under a stored answer, which stays until the drop |
| ResponseCaching.NeverStaleExactly | analytics-api/src/limits.rs:5-7 | the weaker property that no cached answer is from before the last drop, which holds if and only if no request stores an answer it read before a drop |
| ResponseCaching.OldAnswerOutlivesDrop | analytics-api/src/limits.rs:391-413 | a request in flight across a drop stores an old answer after it, against the module's claim |
| CacheKeys.SortSorts | analytics-api/src/limits.rs:288-288 | sorting arranges exactly the same pairs in order |
| CacheKeys.OrderIsUnique | analytics-api/src/limits.rs:288-288 | only one arrangement of the same pairs is in order |
| CacheKeys.QueryRoundTrip | analytics-api/src/limits.rs:285-290 | pairs written in form encoding are read back, pair for pair |
| CacheKeys.PairsAreRead | analytics-api/src/limits.rs:285-287 | the pairs of a request are those its query was written from; without a query there are none |
| CacheKeys.PieceIsRead | analytics-api/src/limits.rs:285-287 | a query is read piece by piece, empty ones skipped |
| CacheKeys.PairIsRead | analytics-api/src/limits.rs:285-287 | the value is what follows the first equals sign, and nothing if there is none |
| CacheKeys.DecodesByExample | analytics-api/src/limits.rs:285-287 | plus signs, percent sequences and broken ones, by example |
| CacheKeys.KeyIdentifiesRequest | analytics-api/src/limits.rs:283-291 | two requests have one key if and only if path and multiset of parameters are the same |
| CacheKeys.KeyIdentifiesParameters | analytics-api/src/limits.rs:283-291 | with distinct names: if and only if path and parameter map are the same |
| Guarding.Guard.constructor | analytics-api/src/limits.rs:252-261 | limiter and cache are on exactly when their settings are not zero |
| Guarding.Guard.Handle | analytics-api/src/limits.rs:361-434 | refused requests reach neither cache nor handler, probes are not counted, hits cost quota; the answer and the cache afterwards are those of the specification, in which only small successful answers are stored, under their own key |
| Guarding.CachedAnswersAreGenuine | analytics-api/src/limits.rs:391-413 | over any run of requests and drops, a cached answer is one the handler gave to an earlier request with the same key since the last drop, stored less than the TTL ago |
| Guarding.CachedAnswersTheQuestion | analytics-api/src/limits.rs:391-413 | over any run, a cached answer was given by the handler to an earlier request for the same path and the same multiset of parameters, since the last drop and stored less than the TTL ago |
| Guarding.HeldAnswersAreGiven | analytics-api/src/limits.rs:391-399 | a request for the path and parameters of one whose answer is still held and younger than the TTL gets that answer from the cache |
| Guarding.CachedByExample | analytics-api/src/limits.rs:278-281 | reads of proposals and spending go through the cache; other methods, paths and probes do not |
| Guarding.UnnoticedExactly | analytics-api/src/limits.rs:29-30 | when equal requests are answered alike between drops, an answer is the handler's own if and only if it is not a successful one to a cacheable request too large to cache, although the documented limit is on caching |
| Guarding.LargeAnswerIsLost | analytics-api/src/limits.rs:404-420 | a first request to `/proposals` whose answer has one byte too many gets an error |
| Decimal.ValueOfPrint | indexer/src/events.js:31-31 | a printed number reads back |
| Decimal.PrintIsInjective | indexer/src/events.js:31-31 | different numbers print differently |
| Decimal.ParsePrinted | analytics-api/src/graphql.rs:215-218 | a printed integer parses to itself exactly within the signed 64-bit range |
| Decimal.NumbersByExample | analytics-api/src/graphql.rs:215-218 | signs, leading zeros, empty texts and other characters, by example |
| Decimal.RangeByExample | analytics-api/src/graphql.rs:215-218 | the ends of the signed 64-bit range, by example |
| Pagination.UnhexHex | analytics-api/src/graphql.rs:194-211 | text written as hexadecimal bytes is read back |
| Pagination.DecodeCursor | analytics-api/src/graphql.rs:201-219 | a decoded cursor is a non-negative 64-bit offset; anything else is an invalid cursor |
| Pagination.CursorRoundTrip | analytics-api/src/graphql.rs:194-219 | among 64-bit offsets exactly the non-negative ones survive encoding and decoding; the others are refused |
| Pagination.CursorsByExample | analytics-api/src/graphql.rs:201-219 | texts that are no cursor: wrong length, digits, prefix or number |
| Pagination.PageErrors | analytics-api/src/graphql.rs:221-231 | a size outside 1 to 100 is refused whatever the cursor, and with an allowed size exactly a cursor that does not decode |
| Pagination.DefaultSize | analytics-api/src/graphql.rs:222-222 | without a size a page is one of twenty |
| Pagination.PageAt | analytics-api/src/graphql.rs:271-295 | a page holds its slice of the list, says whether there is more, and its cursor leads to its end |
| Pagination.PagesTileTheList | analytics-api/src/graphql.rs:221-296 | following the cursors with any allowed page sizes ends and gives the list, in order and each row once |
| Pagination.PagesFromCursor | analytics-api/src/graphql.rs:221-296 | from any cursor the pages give the rest of the list |
| LikePattern.ReplacementsAreOnePass | analytics-api/src/graphql.rs:243-249 | the three replacements in their order equal escaping every metacharacter in one pass |
| LikePattern.EscapedIsLiteral | analytics-api/src/graphql.rs:242-249 | an escaped value at the front of a pattern matches itself and nothing else |
| LikePattern.WildcardSkips | analytics-api/src/graphql.rs:248-248 | a leading wildcard matches any number of characters |
| LikePattern.PatternFindsSubstrings | analytics-api/src/graphql.rs:242-249 | the pattern for a value matches exactly the texts the value occurs in, for LIKE and for any letter folding of ILIKE |
| Escaping.ThreePassesAreOne | analytics-api/src/graphql.rs:244-247 | three replacements one after another are one pass if they are so on every single character |
| Outbox.OutboxStore.Enqueue | indexer/src/store/sqlite.js:497-506 | rows that are not there yet are inserted, the cursor is moved, the inserts are counted |
| Outbox.OutboxStore.EnqueueNew | indexer/src/webhooks.js:157-186 | for every batch size the loop equals one filter over everything past the cursor; a new subscriber starts at the latest event and is sent nothing that is already there |
| Outbox.OutboxStore.CopyPast | indexer/src/notifications.js:257-286 | the loop from an existing cursor, with the cursor at the last event |
| Outbox.MatchingEvents | indexer/src/webhooks.js:171-173 | the events whose topic is wanted, in order |
| Outbox.InsertAllMeaning | indexer/src/webhooks.js:130-137 | after copying every event copied has exactly one row; earlier rows are untouched and new ones pending and unsent |
| Outbox.SelectedMeaning | indexer/src/webhooks.js:169-175 | selected are exactly the events past the cursor whose topic is listed, or all of them if no topics are |
| EventFeed.ChangeMisses | indexer/src/webhooks.js:157-186 | copying and rolling back lose nothing; an append loses an event exactly when ids are taken from the largest one left, that one is below the cursor, and the event is wanted and has no row |
| EventFeed.MissesNothingExactly | indexer/src/webhooks.js:132-137 | over any run, under either numbering, nothing is missed at any time if and only if no change loses an event in that way |
| EventFeed.RunMissesNothing | indexer/src/webhooks.js:132-137 | where ids are not reused, over any run every wanted event since the subscriber came has a row or is still past the cursor |
| EventFeed.EveryEventIsCopied | indexer/src/webhooks.js:132-137 | and right after a copy every one has exactly one row |
| EventFeed.CopyStaysNumbered | indexer/src/webhooks.js:174-184 | a copy leaves earlier rows alone and the cursor at the last event, never lower |
| EventFeed.OnlyRollbackFallsBehind | indexer/src/store/sqlite.js:449-460 | the last id falls below the cursor exactly in a rollback that takes away every event from the last one copied on |
| EventFeed.PassedIsNeverCopied | indexer/src/webhooks.js:157-186 | an event the cursor has passed without a row never gets one, whatever is appended, rolled back and copied later, unless it is appended anew |
| EventFeed.ReplacementIsNeverCopied | indexer/src/store/sqlite.js:488-495 | after such a rollback the event that takes the place is stored and has no row after any later changes |
| Deliveries.RunIsAccounted | indexer/src/webhooks.js:188-254 | for every row of every run: attempts are its sends, but for one on a subscriber that is gone; they stay within the budget, use it up before the row dies, and it was accepted exactly when delivered |
| Deliveries.SendsAreBounded | indexer/src/webhooks.js:228-232 | between requeues a row is sent at most the configured times, has sends left while pending, and is given up after exactly that many unless its subscriber is gone |
| Deliveries.AcceptedAtMostOnce | indexer/src/webhooks.js:135-136 | a row is accepted at most once, even across requeues, and exactly then delivered |
| Deliveries.RowsAreFixed | indexer/src/webhooks.js:117-118 | one row per subscriber and event over the whole run, and what a row sends never changes |
| Dispatching.ClaimedExactly | indexer/src/store/sqlite.js:508-514 | a row is claimed exactly when it is due and among the oldest that fit the limit |
| Dispatching.Dispatcher.GroupBySubscriber | indexer/src/webhooks.js:258-263 | one group for each subscriber, holding its rows in claimed order |
| Dispatching.Dispatcher.Attempt | indexer/src/webhooks.js:227-253 | one attempt changes its row and one count, by its outcome |
| RetryTimes.SendsAreSpaced | indexer/src/webhooks.js:237-244 | between requeues any two sends of a row lie at least the delay of the earlier one apart |
| RetryTimes.RetriesBackOff | indexer/src/webhooks.js:240-243 | the wait after the s-th send is at least the s-th delay of the policy, jitter and rounding aside |
| RetryTimes.RequeuedAreDue | indexer/src/store/sqlite.js:552-566 | requeued are the dead rows of the subscriber or of all, with a new budget, due from then on and not before |
| Dispatching.ClaimsOf | indexer/src/store/sqlite.js:508-514 | a row can be claimed from its due time on while it is pending, and never otherwise |
| Dispatching.Dispatcher.DeliverDue | indexer/src/webhooks.js:256-269 | the rows sent are an interleaving of the claimed ones and the result tallies their outcomes |
| Dispatching.InterleavingIsPermutation | indexer/src/webhooks.js:265-267 | an interleaving sends exactly the claimed rows, each once |
| Dispatching.InterleavingDoesNotMatter | indexer/src/notifications.js:327-340 | however the groups interleave, outbox and tally come out the same |
| Dispatching.TallyAddsUp | indexer/src/webhooks.js:264-268 | the three counts add up to the rows sent |
| Backoff.BackoffIsNearExponential | indexer/src/webhooks.js:111-115 | a delay is not negative and lies within e * jitter + 1/2 of e = min(max, base * 2^(attempt - 1)) |
| Backoff.ExponentialDoubles | indexer/src/webhooks.js:112-112 | it starts at the base, or the cap if that is lower, and doubles with every attempt up to the cap |
| Backoff.DelayWithoutJitter | indexer/src/webhooks.js:114-114 | without jitter a delay is that, rounded to the nearest millisecond |
| Backoff.JitterSpreads | indexer/src/webhooks.js:113-114 | the jitter takes a delay from one end of its spread to the other as the random number goes from 0 to 1 |
| Backoff.TotalDelayIsBounded | indexer/README.md:235-235 | n delays add up to at most (1 + jitter) * base * (2^n - 1) + n/2, and to at most (1 + jitter) * max * n + n/2 |
| Signatures.ValidExactly | indexer/src/webhooks.js:86-108 | any header text is accepted if and only if its first timestamp reads as a time within the tolerance and one of its signatures decodes to the HMAC of that time and the body |
| Signatures.PartIgnoresBlanks | indexer/src/webhooks.js:91-94 | blanks around a part of the header do not matter |
| Signatures.VerifyExactly | indexer/src/webhooks.js:86-108 | for headers as a sender writes them, with any number of signatures, also which reason a refusal names |
| Signatures.SignedIsAccepted | indexer/src/webhooks.js:78-80 | what was signed verifies within the tolerance and is out of tolerance beyond it |
| Signatures.MessageIsInjective | indexer/src/webhooks.js:69-71 | timestamp and body can be told apart in what is authenticated |
| Signatures.ReplayNeedsCollision | indexer/src/webhooks.js:74-77 | a signature moved to another body or time is accepted only if two different messages share an HMAC |
| Histograms.Histogram.Observe | analytics-api/src/metrics.rs:65-74 | an observation adds one to the first bucket that holds it, and to sum and count |
| Histograms.Histogram.Render | analytics-api/src/metrics.rs:76-86 | the lines are the prefix sums of the buckets |
| Histograms.BoundCounter.Observe | indexer/src/metrics.js:57-72 | an observation adds one under every bound it fits |
| Histograms.HistogramsAgree | analytics-api/src/metrics.rs:65-86 | for ascending bounds the prefix sums are the number of observations at most each bound |
| Histograms.AgreeExactlyWhenAscending | indexer/src/metrics.js:55-55 | for all observations they are so if and only if the bounds ascend |
| Labels.EscapesAgree | indexer/src/metrics.js:9-11 | the two services escape alike, and in one pass |
| Labels.UnescapeEscaped | analytics-api/src/metrics.rs:104-109 | an escaped value reads back, whatever follows its closing quote |
| Labels.ApiLabelRoundTrip | analytics-api/src/metrics.rs:104-109 | the same for the replacements as each service makes them |
| Labels.EscapedIsOneLine | analytics-api/src/metrics.rs:104-109 | an escaped value holds no line break |
| Labels.SeriesKeyIsInjective | indexer/src/metrics.js:13-15 | two label sets of a metric share a series if and only if their values are the same |
| EventKeys.KeyIsInjective | indexer/src/events.js:22-32 | for transactions named without a colon, keys are equal if and only if ledger, transaction and index are |
| EventKeys.ExplicitIndexDecides | indexer/src/events.js:27-31 | an index the RPC gives itself decides, whatever the id |
| EventKeys.ExplicitMatchesSuffix | indexer/src/events.js:27-31 | an explicit index and the number an id ends in give one key |
| EventKeys.KeysByExample | indexer/src/events.js:22-32 | keys of a suffix with leading zeros, an explicit index, an opaque id and no transaction |
| EventKeys.WhenIdsCollide | indexer/src/events.js:17-20 | exactly which ids of one transaction share a key |
| EventKeys.VerbatimIdsCanCollide | indexer/src/events.js:19-20 | two different ids with one key, against the comment that this cannot happen |

## Left out

- Contract behaviour, the frontend, examples, scripts, report and mail output, configuration parsing and request
  plumbing; `contracts/accord/src/lib.rs` is not part of this model.
- SQL text, XDR decoding, HTTP, JSON and the HMAC itself: stores follow their documented contract, parsing is a partial
  function on events, the HMAC and the reading of numbers are parameters. Contract filters, token names and the
  treasury address are part of what an event parses to; the deep copy in `parseAccordEvent` is not modelled.
- Crashes inside a batch and concurrent calls: every command runs to its end or to an error the RPC causes; what a
  walk stored before an error stays.
- RPC clients without `getLatestLedger`, for which a history walk without an end has no last ledger.
- Numbers beyond 2^53 in ledgers, ids and counters, and overflow of `i64` row counts and `i128` sums; cursors and
  signature timestamps are checked against their ranges.
- Rows from before dedupe keys existed, whose key is NULL, and the second unique index on `event_id`.
- State values that are no numbers; an empty one is read as 0, as `Number("")` does.
- `removedEntries` and `removedEvents` are one count, and reconciliation results are not stored.
- Progress callbacks: `onProgress`, `progressFraction`, `onEvent`.
- Alert texts, severities, details, the alert table's own dedupe key and the notification channels; a transfer whose
  amount is not an integer is skipped before the engine sees it.
- The watcher's comparison of the largest stored ledger with the last one it saw: in `ResponseCaching` dropping the
  cache is an event of its own.
- Ties in the sort order of a poll are taken to be broken the same way by every query.
- CacheKeys.KeyIdentifiesRequest: texts are bytes; the replacement of invalid UTF-8 by a placeholder character is not
  modelled, and a path holds no question mark.
- Guarding.Guard.Handle: response headers, metrics and log lines, and `client_key`, whose result is a parameter.
- Patterns that end in a lone backslash, which PostgreSQL refuses and the model lets match nothing; none built here
  ends so. ILIKE is a letter-by-letter folding.
- Lists that change while their pages are read, and the filters of the GraphQL queries.
- Outbox.OutboxStore.EnqueueNew: the clock is read once per call instead of once per batch, and stored bodies are a
  function of subscriber and event.
- The deletion of webhook cursors in `clearHistory`: after a reindex a subscriber starts at the latest event again.
- Groups of due deliveries run one after another in `Dispatcher.DeliverDue`;
  `Dispatching.InterleavingDoesNotMatter` shows that their interleaving makes no difference to rows and counts.
- `tick` and its guard against overlapping ticks, `parseSubscriptions`, destinations and message bodies for Slack,
  Discord and email.
- Floating point rounding of delays, and NaN: milliseconds, bounds and observations are real numbers. The text of a
  histogram line is left out.
- White space other than blank, tab and line ends in a signature header.
