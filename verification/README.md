# Wealthfolio Connect: a model of its imports

This project models, in Dafny, how the self-hosted Connect service imports brokerage
histories that it cannot read at once, and what its database then holds. It covers

- the four resumable import protocols (Steam's watermark and resume cursor, TON's newest
  and tail windows, SnapTrade's durable page offset, Binance's cursor derived from stored
  rows), each as a class whose methods are the steps of the protocol and whose invariant
  holds after every step, with failing requests, failing writes and crashes;
- the sync engine that decides when progress may be published, and the gate that keeps
  overlapping runs apart;
- the SnapTrade and Binance rate limiters;
- Steam's matching of owned assets to evidence, and the evidence that is kept of them;
- TON's clustering of actions by trace, its walk of a message tree, its average-cost basis
  and its conversion prices;
- the activity upsert and the Futu account migration.

Each module follows one component. Code that changes state is a class or a method with
loops, proved against a specification; what the specification promises is proved as
lemmas over every input and every run. Ghost fields (`history`, `upstream`, `log`, ...) record
what happened, so that an invariant can speak of a whole run. Failures are parameters: a
`failAt` says which write fails, a script says what each request is answered.

Upstream lists are sequences, hashes and identifiers are numbers or strings compared for
equality and order, tables are maps, and a database transaction is one step. Times are
integers read from a clock that does not run backwards, money and quantities are reals.

## What does not hold

Where the code does not keep what its comments or documentation say, the model follows
the code, gives an input, and states when the property does hold.

- `ton/client.go:132-160` publishes a staged tail offset whatever became of the rows behind it.
  Later runs can rely on it exactly when it is zero or everything from the start of the tail it
  names up to the run's first count is stored (`Backfill.SnapshotCommitted`, `SafeTailsNeverMiss`).
  That fails for a wallet that the next committed run skipped, and for an edge cluster that
  reaches above the last page, which the comment at `ton/client.go:706-708` says is fetched
  again whole (`Backfill.Sync`). The backfill then reports completion with an action missing
  (`UnsafeTailMisses`, `EdgeClusterRun`, `UnsavedRowsAreReportedComplete`).
- `ton/translate.go:88-92` promises that stored buy totals stay below stored sell totals.
  That is true of exact quantities (`TotalsAreOrdered`), but units are stored with eight
  decimals (`StoredTotalsAreOrdered`, `StoredTotalsCanCross`).
- `steam/reconcile.go:69-76` does not look at what is consumed, so one event can back a weak
  match and later an exact one (`OneEventCanBackTwoAssets`). No event is used twice exactly when
  the run is the one that keeps every snapshot match for its own asset (`WhenAnEventIsReused`);
  `UncontestedMatchesReuseNothing` is a simpler condition that suffices.
- `steam/history.go:335-362` takes an empty page or a null cursor for the end of the history. After
  such a page the cursor can be relied on exactly when every row below the stop is stored
  (`WhenCompletionIsSound`, `SteamImport.Fetch`); otherwise later walks skip what is missing
  (`EarlyEndLosesRows`). If nothing that was read carries the watermark's date, the exact
  condition on later walks is that of `WhenFreshWalksSkip`.
- `persistence/repositories.go:117-119` says that `sync_enabled` is set on insert; the column's
  default makes every inserted account enabled (`NewAccountsStartEnabled`).
- `persistence/activities.go:131-165` is not idempotent in one step on the review flag, only in
  two (`WhenOneApplicationSettles`, `OneApplicationMayNotSettle`).
- `sync/service.go:88-89` says that success means that a client synced. A run that met another
  one, skipped a client or was cancelled reports success too, and nothing else does
  (`WhenSuccessMeansSynced`, `SuccessWithoutASync`).

## Model

| member | source | states |
|---|---|---|
| `SnapTradeLimiter.CapacityNeverExceedsConfigured` | internal/infrastructure/clients/snaptrade/limiter.go:111-128 | a server quota can only tighten a configured limit, and at least one request stays possible |
| `SnapTradeLimiter.PruneWindow` | internal/infrastructure/clients/snaptrade/limiter.go:148-158 | the pruning loop keeps what `Prune` keeps |
| `SnapTradeLimiter.PruneIsLastMinute` | internal/infrastructure/clients/snaptrade/limiter.go:148-158 | pruning an ordered list keeps exactly the stamps of the last minute, as a suffix |
| `SnapTradeLimiter.LocalWaitCountsDown` | internal/infrastructure/clients/snaptrade/limiter.go:130-135 | a window's wait counts down to one fixed deadline, even though stamps are pruned meanwhile |
| `SnapTradeLimiter.DelayIsExact` | internal/infrastructure/clients/snaptrade/limiter.go:79-107 | after any sleep the remaining delay is what was computed minus the time slept, over interval, client, account and server terms together: sleeping the whole delay admits, no shorter sleep does |
| `SnapTradeLimiter.ViewSurvivesPruning` | internal/infrastructure/clients/snaptrade/limiter.go:74-77 | the pruned lists that a rejected pass writes back change no later decision |
| `SnapTradeLimiter.AccountLogIsComplete` | internal/infrastructure/clients/snaptrade/limiter.go:95-100 | with a configured account limit every admission of the account is in its window |
| `SnapTradeLimiter.PruningIsConsistent` | internal/infrastructure/clients/snaptrade/limiter.go:74-77 | after pruning, the kept lists are exactly the last minute of the full admission history, and all lists still agree with it |
| `SnapTradeLimiter.AdmittingIsConsistent` | internal/infrastructure/clients/snaptrade/limiter.go:95-100 | recording an admission keeps list and full history in agreement, for the client and for every account |
| `SnapTradeLimiter.NewestMinuteIsBounded` | internal/infrastructure/clients/snaptrade/limiter.go:79-107 | a minute that ends with an admission holds no more requests than the capacity in force at it, though headers changed the capacity meanwhile |
| `SnapTradeLimiter.EveryMinuteIsBounded` | internal/infrastructure/clients/snaptrade/limiter.go:79-107 | no one-minute window, wherever it starts, holds more requests than the largest capacity ever in force |
| `SnapTradeLimiter.RateLimiter.constructor` | internal/infrastructure/clients/snaptrade/limiter.go:51-68 | limits start within the vendor ceilings and no looser than configured |
| `SnapTradeLimiter.RateLimiter.PruneLists` | internal/infrastructure/clients/snaptrade/limiter.go:74-77 | a pass first replaces its two lists by their last minute and touches nothing else |
| `SnapTradeLimiter.RateLimiter.Admit` | internal/infrastructure/clients/snaptrade/limiter.go:95-102 | an admitted pass is recorded once, under the capacities then in force |
| `SnapTradeLimiter.RateLimiter.Pass` | internal/infrastructure/clients/snaptrade/limiter.go:72-104 | under the lock a pass admits exactly when the computed delay is zero, else leaves only pruned lists behind |
| `SnapTradeLimiter.RateLimiter.Wait` | internal/infrastructure/clients/snaptrade/limiter.go:70-109 | with no other caller, the request is admitted at the first pass at or after the first computed deadline and at none before; a cancelled wait admits nothing |
| `SnapTradeLimiter.RateLimiter.LastMinuteObeysItsCapacity` | internal/infrastructure/clients/snaptrade/limiter.go:79-107 | right after an admission the last minute obeys the client and the account capacity it was admitted under |
| `SnapTradeLimiter.RateLimiter.ConfiguredLimitsHoldInEveryMinute` | internal/infrastructure/clients/snaptrade/limiter.go:70-128 | over a whole run no minute exceeds the configured client limit, nor any account its own |
| `SnapTradeLimiter.RateLimiter.Observe` | internal/infrastructure/clients/snaptrade/limiter.go:160-186 | response headers replace the quotas they carry and change no request list |
| `BinanceWeight.ActiveIsLastMinute` | internal/infrastructure/clients/binance/ratelimit.go:52-66 | the compacted list weighs what the last minute of the full history weighs |
| `BinanceWeight.EveryMinuteWithinBudget` | internal/infrastructure/clients/binance/ratelimit.go:52-66 | requests sent in any 60-second window weigh at most 600 |
| `BinanceWeight.SendingKeepsBudget` | internal/infrastructure/clients/binance/ratelimit.go:59-66 | a request that fits the last minute keeps every window within the budget |
| `BinanceWeight.WeightTransport.Compact` | internal/infrastructure/clients/binance/ratelimit.go:52-60 | compaction in place leaves the events of the last minute, in order, and their total weight |
| `BinanceWeight.WeightTransport.Settle` | internal/infrastructure/clients/binance/ratelimit.go:68-106 | a response moves the cooldown forward or leaves it, never back |
| `BinanceWeight.WeightTransport.RoundTrip` | internal/infrastructure/clients/binance/ratelimit.go:38-106 | a request goes out exactly when it is not cancelled, the cooldown is over and the budget has room; `blockedUntil` never moves back although it is assigned without a maximum |
| `SteamHistory.PageMinTime` | internal/infrastructure/clients/steam/history.go:380-391 | the earliest parsed date of a page, zero when no date parsed |
| `SteamHistory.NewestEventTime` | internal/infrastructure/clients/steam/reconcile.go:1237-1245 | the greatest observed date, zero when none |
| `SteamHistory.AppendUnseen` | internal/infrastructure/clients/steam/history.go:343-349 | each row is collected once by identifier and none of the page is dropped |
| `SteamHistory.PageExtendsRange` | internal/infrastructure/clients/steam/history.go:343-349 | a page joins the range read so far without a gap |
| `SteamHistory.ReadPage` | internal/infrastructure/clients/steam/history.go:338-357 | a page that reaches the watermark holds a dated row at or below it |
| `SteamHistory.FetchHistory` | internal/infrastructure/clients/steam/history.go:308-376 | the walk is the one that the answers decide: which page ends it, whether it is complete, where it can be resumed, how low it read; whatever pages fail, stall or lie about the end, nothing between start and the lowest page read is skipped |
| `SteamHistory.WalkIsUnique` | internal/infrastructure/clients/steam/history.go:308-376 | the answers decide the whole outcome of a walk |
| `SteamHistory.HonestEnd` | internal/infrastructure/clients/steam/history.go:335-362 | unless the page that ended it lied about the end, a complete walk reached the bottom or the watermark |
| `SteamHistory.ResumePoint` | internal/infrastructure/clients/steam/history.go:308-376 | a place to resume never lies below what was read, and each capped walk over pages that move on lowers it by the page cap |
| `SteamHistory.OneByOneStopsAt` | internal/infrastructure/clients/steam/history.go:350-357 | over pages of one row a fresh walk stops at the newest row that meets the watermark |
| `SteamProvenance.MergeKeepsAccounted` | internal/infrastructure/clients/steam/reconcile.go:470-489 | folding a run's outcome into the cursor keeps every row at or below the watermark stored or ahead of the resume point, even if either cursor read of the run failed, as long as what lies below a complete walk is stored |
| `SteamProvenance.HonestEndIsSafe` | internal/infrastructure/clients/steam/reconcile.go:470-489 | below a complete walk that was not lied to everything is stored |
| `SteamProvenance.WhenFreshWalksSkip` | internal/infrastructure/clients/steam/history.go:350-357 | later fresh walks leave an unstored row behind them if and only if some row above it meets the watermark |
| `SteamProvenance.SoundNeverSkips` | internal/infrastructure/clients/steam/reconcile.go:470-489 | a cursor of which the invariant holds lets no later fresh walk skip a row |
| `SteamProvenance.WhenCompletionIsSound` | internal/infrastructure/clients/steam/reconcile.go:470-489 | whoever ended a complete walk, fresh or resumed, the merged cursor accounts for what the walk could see if and only if every row below the stop is stored; once the watermark dates a row that was read, as it does whenever the walk moved it, that is also exactly when any invariant holds of it and when no later walk skips a row |
| `SteamProvenance.NothingBelowWatermarkIsLost` | internal/infrastructure/clients/steam/reconcile.go:470-489 | what the cursor invariant means to a user: a row dated at or before the watermark is stored or still to be walked |
| `SteamProvenance.AccountedSurvives` | internal/infrastructure/clients/steam/reconcile.go:453-489 | new rows on top and further writes disturb no cursor |
| `SteamProvenance.WrittenWalk` | internal/infrastructure/clients/steam/reconcile.go:1205-1218 | a walk whose rows all reached the database |
| `SteamProvenance.NoWalk` | internal/infrastructure/clients/steam/reconcile.go:1205-1218 | a failed row write zeroes the outcome, which claims nothing |
| `SteamProvenance.WatermarkStopIsSafe` | internal/infrastructure/clients/steam/history.go:350-357 | below the page at which a fresh walk met the watermark, everything was stored by an earlier walk |
| `SteamProvenance.SteamImport.RecordEvents` | internal/infrastructure/persistence/steam_model.go:185-201 | rows are written one by one and a failure leaves exactly those before it |
| `SteamProvenance.EarlyEndLosesRows` | internal/infrastructure/clients/steam/history.go:335-362 | an upstream of two rows and one page with a null cursor: the walk it leads to is complete above the older row, and the merged cursor makes later walks skip it |
| `SteamProvenance.SteamImport.Fetch` | internal/infrastructure/clients/steam/reconcile.go:622-689 | one run up to its staged cursor under any failing page, write or cursor read: the invariant holds unless a complete walk ended on a lie, and then if and only if every row below the stop is stored, once the watermark dates a row that was read; with a successful read the watermark does not fall |
| `SteamProvenance.SteamImport.PersistProvenance` | internal/infrastructure/clients/steam/reconcile.go:1205-1232 | rows first, then the second cursor read and the merge; rows that could not be written leave the cursor as it was read |
| `SteamProvenance.SteamImport.SnapshotCommitted` | internal/infrastructure/clients/steam/client.go:255-266 | publishing the staged cursor keeps the invariant exactly when it held of that cursor; failing to publish keeps it, and the watermark does not fall |
| `SteamProvenance.SteamImport.DurableWatermarkIsTrue` | internal/infrastructure/clients/steam/reconcile.go:1205-1232 | in every state in which the invariant holds, which is at any moment unless a cursor from a walk that ended on a lie was staged, every row dated at or before the durable watermark is stored or ahead of the durable resume point |
| `TonBackfill.FetchActionWindow` | internal/infrastructure/clients/ton/actions.go:117-142 | a window returns exactly its pages; a short page means the oldest action was reached, a full last page means truncation |
| `TonBackfill.WindowHasNoGap` | internal/infrastructure/clients/ton/actions.go:117-142 | however many actions arrive between requests and shift the offsets, consecutive pages leave no gap |
| `TonBackfill.MiddleIsStored` | internal/infrastructure/clients/ton/client.go:824-871 | behind a safe offset, what lies between the newest window and the tail window is stored |
| `TonBackfill.RunCovers` | internal/infrastructure/clients/ton/client.go:824-871 | a run from a safe offset has read or already stored every action down to the bottom of its tail, and down to the oldest one when nothing was cut |
| `TonBackfill.MergeUnique` | internal/infrastructure/clients/ton/client.go:852-868 | merging the windows loses nothing and repeats nothing |
| `TonBackfill.TruncatedTailRewinds` | internal/infrastructure/clients/ton/client.go:864-868 | a truncated run stages the top of its last page, so that page is read again whole |
| `TonBackfill.SafeTailsNeverMiss` | internal/infrastructure/clients/ton/client.go:824-871 | an offset is safe exactly when, however the backfill goes on from it, completion is never reported with an action missing |
| `TonBackfill.UnsafeTailMisses` | internal/infrastructure/clients/ton/client.go:824-871 | behind an unsafe offset, for every action missing there are later runs that end in a completion report without it |
| `TonBackfill.Backfill.TailCursor` | internal/infrastructure/clients/ton/client.go:782-803 | uncommitted progress is dropped and an unreadable row restarts the backfill |
| `TonBackfill.Backfill.WalletActionHistory` | internal/infrastructure/clients/ton/client.go:830-871 | when it reports no truncation, every action that existed at its start was fetched by this run or is stored; it stages zero exactly then, otherwise the top of its last page |
| `TonBackfill.Backfill.TailHistory` | internal/infrastructure/clients/ton/client.go:842-871 | the second half of such a run: the tail window from the saved offset, merged with the newest one |
| `TonBackfill.Backfill.SnapshotCommitted` | internal/infrastructure/clients/ton/client.go:132-160 | publishing keeps the offset safe if and only if the published offset is zero or everything from the start of its tail up to the first count of the run is stored; the same for the old row when the write of the new one fails |
| `TonBackfill.Backfill.Sync` | internal/infrastructure/clients/ton/client.go:244-270 | the whole run, from the lookup of the offset over the dropped edge cluster to the commit: rows are saved all or nothing; after a truncated run the published offset is safe if and only if every unsaved row, such as one of the edge cluster, lies within the last page or is stored already; a run that cut nothing leaves every action that existed at its start stored |
| `TonBackfill.Backfill.Restart` | internal/infrastructure/clients/ton/client.go:782-803 | a restart forgets staged progress and keeps the invariant |
| `TonBackfill.EdgeClusterRun` | internal/infrastructure/clients/ton/client.go:705-723 | a concrete run with every request and every write succeeding: a trace that reaches above the last page is dropped as the edge cluster, and the published offset is not safe |
| `TonBackfill.EdgeClusterIsDropped` | internal/infrastructure/clients/ton/client.go:705-723 | in that run action 21200 is fetched, is not saved, and lies above the start of the next tail |
| `TonBackfill.UnsavedRowsAreReportedComplete` | internal/infrastructure/clients/ton/client.go:824-871 | from the offset that this run publishes the next two runs report completion; neither reads that action, nor any of a window that was lost with a skipped wallet |
| `SnapTradeImport.VisibleGrowsAtTheEnd` | internal/infrastructure/clients/snaptrade/client.go:259-321 | on an append-only upstream an offset keeps addressing the same records |
| `SnapTradeImport.MapPage` | internal/infrastructure/clients/snaptrade/client.go:280-304 | every valid record of a page is handed over, with the earliest of their dates |
| `SnapTradeImport.PageExtendsHanded` | internal/infrastructure/clients/snaptrade/client.go:276-321 | one stored page moves the boundary by its length, so pages tile without a gap |
| `SnapTradeImport.EndOfListIsEverything` | internal/infrastructure/clients/snaptrade/client.go:305-321 | at the end of the list nothing is left |
| `SnapTradeImport.IncrementalCompletes` | internal/infrastructure/clients/snaptrade/client.go:235-257 | a later pass from the overlap completes what was complete before |
| `SnapTradeImport.AccountImport.UpdateActivitySyncProgress` | internal/infrastructure/persistence/repositories.go:147-168 | a checkpoint moves only the offset; completion resets it and is never withdrawn; the first date only moves back |
| `SnapTradeImport.AccountImport.PersistActivityPage` | internal/application/sync/service.go:322-339 | the batch is stored before the checkpoint moves, and a failure moves nothing |
| `SnapTradeImport.AccountImport.StreamActivities` | internal/infrastructure/clients/snaptrade/client.go:223-321 | over failing pages, failing writes and crashes the open pass never loses a record below its durable offset; it completes only when the whole list was handed over, and within list length minus offset requests |
| `SnapTradeImport.AccountImport.PassBegins` | internal/infrastructure/clients/snaptrade/client.go:235-257 | a pass resumes where the durable offset says, on a grown upstream too |
| `BinanceTrades.CursorContinuesTheSegment` | internal/infrastructure/clients/binance/trades.go:143-174 | deriving the cursor as greatest stored id plus one skips nothing and repeats nothing |
| `BinanceTrades.AppendingKeepsTheSegment` | internal/infrastructure/clients/binance/trades.go:176-208 | storing what follows an initial segment gives a longer one |
| `BinanceTrades.MapPage` | internal/infrastructure/clients/binance/trades.go:191-203 | a page is mapped in order up to its first unusable record |
| `BinanceTrades.SymbolTrades` | internal/infrastructure/clients/binance/trades.go:176-208 | returned fills directly follow the cursor, also with an error; completeness is reported only when everything visible was read; at most the page budget is spent |
| `BinanceTrades.SavedCursors` | internal/infrastructure/clients/binance/trades.go:143-174 | each pair's cursor is its greatest stored id plus one, and unreadable rows refuse any cursor |
| `BinanceTrades.SearchPairs` | internal/infrastructure/clients/binance/trades.go:61 | the rotation resumes at the first pair not before the saved one |
| `BinanceTrades.SelectPairs` | internal/infrastructure/clients/binance/trades.go:61-65 | a run's pairs are consecutive in the scope, wrapping once, without repetition |
| `BinanceTrades.AllFinished` | internal/infrastructure/clients/binance/trades.go:96-109 | history is complete only when every pair of the scope is finished |
| `BinanceTrades.NextRunContinues` | internal/infrastructure/clients/binance/trades.go:61-95 | the search for the saved pair finds it, so a run starts where the last committed one stopped |
| `BinanceTrades.EnoughVisitsReachEveryPair` | internal/infrastructure/clients/binance/trades.go:61-95 | consecutive committed runs of one scope that together finish more pairs than lie ahead of a pair visit it |
| `BinanceTrades.RotationIsFair` | internal/infrastructure/clients/binance/trades.go:61-95 | committed runs of one scope among which n/10 rounded up finish their budget visit every one of its n pairs, however many others fail in between |
| `BinanceTrades.Fetcher.VisitPair` | internal/infrastructure/clients/binance/trades.go:78-95 | one pair's fills continue what is stored of it |
| `BinanceTrades.Fetcher.Trades` | internal/infrastructure/clients/binance/trades.go:37-110 | the pairs tried are the next ones of the rotation, each takes one or two requests and all together at most 20; the rotation is staged behind those that finished, at least ten or the whole scope unless it failed; whatever fails, the returned batch keeps each pair an initial segment |
| `BinanceTrades.Fetcher.VisitSelected` | internal/infrastructure/clients/binance/trades.go:68-95 | the loop over the selected pairs stops at the budget or at the first failing pair, keeping that pair's fills |
| `BinanceTrades.Fetcher.Persist` | internal/infrastructure/persistence/activities.go:188-200 | the batch is stored whole or not at all, so every pair stays an initial segment of its upstream |
| `BinanceTrades.Fetcher.Sync` | internal/infrastructure/clients/binance/client.go:65-72 | the fetched batch is stored whole or not at all, and the rotation moves on, and is recorded as a committed run, only when it is |
| `BinanceTrades.Fetcher.EveryPairIsVisited` | internal/infrastructure/clients/binance/trades.go:61-95 | over the recorded runs of the fetcher: once n/10 rounded up syncs of one scope were committed without a failure, each of its n pairs has been visited |
| `TonPrices.RoundSigIsClose` | internal/infrastructure/clients/ton/actions.go:565-576 | rounding to twelve significant digits moves a price by at most 5e-12 of it, onto a twelve-digit decimal |
| `TonPrices.SellTotal` | internal/infrastructure/clients/ton/actions.go:551-563 | quantity times sell price is at least the value and above it by no more than 1.1e-10; exactly the value on a one-dollar leg |
| `TonPrices.BuyTotal` | internal/infrastructure/clients/ton/actions.go:551-563 | quantity times buy price is at most the value, by the same margins |
| `TonPrices.TotalsAreOrdered` | internal/infrastructure/clients/ton/actions.go:540-576 | for all positive quantities and values the buy total never exceeds the sell total, and they are within 3e-10 of the value |
| `TonPrices.Round8IsClose` | internal/infrastructure/clients/ton/translate.go:364-371 | storing eight decimals never destroys a quantity and moves it by at most half a unit of the eighth |
| `TonPrices.StoredTotalsAreOrdered` | internal/infrastructure/clients/ton/translate.go:79-92 | with the stored quantities the order holds if rounding favours the bought side by less than the bias leaves, and fails if by more; the two thresholds differ by the twelfth-digit rounding only |
| `TonPrices.StoredTotalsCanCross` | internal/infrastructure/clients/ton/translate.go:88-92 | a pair of legs whose stored totals are in the wrong order |
| `SyncEngine.DisabledAccountsAreUntouched` | internal/application/sync/service.go:215-320 | after any prefix of the writes an account read as disabled is exactly what it was |
| `SyncEngine.PartialHoldingsAreNeverStored` | internal/application/sync/service.go:262-282 | after any prefix no partial holdings have replaced stored ones |
| `SyncEngine.CompletionComesAfterActivities` | internal/application/sync/service.go:284-314 | an account becomes transaction-complete only after every activity batch of the snapshot was stored |
| `SyncEngine.UserPreferenceSurvives` | internal/infrastructure/persistence/repositories.go:117-142 | no prefix of the writes changes a stored `sync_enabled` |
| `SyncEngine.NewAccountsStartEnabled` | internal/infrastructure/persistence/account_model.go:23 | an account that the writes created is enabled, whatever the broker reported |
| `SyncEngine.PartialSnapshotKeepsTotals` | internal/application/sync/service.go:229-250 | a partial snapshot keeps the stored total of a readable account |
| `SyncEngine.MarkMeansDataIsStored` | internal/application/sync/service.go:308-314 | the first completion mark comes after every data write of the run |
| `SyncEngine.Service.ReadAccounts` | internal/application/sync/service.go:228-251 | listed accounts are split into disabled and enabled ones as the database has them |
| `SyncEngine.Service.PersistSnapshot` | internal/application/sync/service.go:215-320 | what took effect is a prefix of the plan, all of it exactly on success, and the client is told of the commit exactly then |
| `SyncGate.Gate.BeginClient` | internal/application/sync/service.go:155-163 | in any interleaving no two workers sync one client, and a free client is always admitted |
| `SyncGate.Gate.EndClient` | internal/application/sync/service.go:165-169 | ending frees that client and no other |
| `SyncGate.Service.RunClient` | internal/application/sync/service.go:137-153 | one client is an error exactly when it was admitted, failed and nothing was cancelled; it moves `lastRun` exactly when it synced and nothing was cancelled |
| `SyncGate.Service.RunOnce` | internal/application/sync/service.go:95-135 | a run that meets another one returns without error and touches nothing; any other fails exactly when there are clients and each of them does, and exactly then `lastRun` stays |
| `SyncGate.WhenSuccessMeansSynced` | internal/application/sync/service.go:88-153 | a run that synced some client reports success; one that synced none reports it if and only if it met another run, had no clients, or some client was skipped as already running or was cancelled |
| `SyncGate.SuccessWithoutASync` | internal/application/sync/service.go:88-153 | a coalesced run, a skipped client and a cancelled client: three inputs that report success without a sync |
| `SteamMatching.MatchMarketPair` | internal/infrastructure/clients/steam/reconcile.go:231-280 | the pair of least time gap within 24 hours among all eligible unconsumed pairs, ties to the lowest event and then the lowest transaction |
| `SteamMatching.BestPairIsUnique` | internal/infrastructure/clients/steam/reconcile.go:226-280 | there is one such pair, so the map's iteration order cannot matter |
| `SteamMatching.MatchEvent` | internal/infrastructure/clients/steam/reconcile.go:197-213 | the first acquisition event of the asset whose class and name do not contradict it |
| `SteamMatching.MatchNewAssetId` | internal/infrastructure/clients/steam/reconcile.go:215-224 | the first trade that echoes the asset's own non-empty identifier |
| `SteamMatching.MatchAttributes` | internal/infrastructure/clients/steam/reconcile.go:291-314 | the first unconsumed acquisition event within 72 hours that agrees in every attribute it carries |
| `SteamMatching.ResolveOne` | internal/infrastructure/clients/steam/reconcile.go:69-117 | the strongest evidence left: snapshot event, trade echo, market pair, attributes, nothing |
| `SteamMatching.Resolve` | internal/infrastructure/clients/steam/reconcile.go:56-124 | one resolution per owned asset in order, each the strongest given what earlier ones used; the unmatched events are exactly those no resolution used, in order |
| `SteamMatching.RunIsUnique` | internal/infrastructure/clients/steam/reconcile.go:56-124 | the whole outcome is determined by the inputs, whatever order the market map is visited in |
| `SteamMatching.NoTransactionIsReused` | internal/infrastructure/clients/steam/reconcile.go:89-107 | a market row backs at most one asset |
| `SteamMatching.ReusedEventIsExact` | internal/infrastructure/clients/steam/reconcile.go:69-117 | an event used again is always a snapshot-exact match, of the asset the event itself names |
| `SteamMatching.UncontestedMatchesReuseNothing` | internal/infrastructure/clients/steam/reconcile.go:69-117 | where no later asset's snapshot match fits an earlier asset that has neither a snapshot match nor a trade echo, no event is used twice: a condition on the inputs, for every pair of assets |
| `SteamMatching.ReservedRunExists` | internal/infrastructure/clients/steam/reconcile.go:56-124 | there is a run in which every snapshot match is kept for its own asset from the start; it depends on the inputs only |
| `SteamMatching.WhenAChoiceIsReused` | internal/infrastructure/clients/steam/reconcile.go:69-117 | as long as a run agrees with that one, its next choice agrees if and only if no later asset uses the same event again |
| `SteamMatching.WhenAnEventIsReused` | internal/infrastructure/clients/steam/reconcile.go:69-117 | for all inputs: a run uses no event twice if and only if it is that run, that is, if and only if that run is what the matcher does |
| `SteamMatching.WithoutASnapshotNothingIsReused` | internal/infrastructure/clients/steam/reconcile.go:69-76 | with no earlier snapshot no event backs two assets |
| `SteamMatching.OneEventCanBackTwoAssets` | internal/infrastructure/clients/steam/reconcile.go:69-76 | inputs on which one event backs a weak match and then an exact one |
| `SteamMatching.UnitCostSharesTheGross` | internal/infrastructure/clients/steam/reconcile.go:92-103 | the cost of a market match is the row's gross shared over its quantity, referenced to that row |
| `SteamAcquisitions.ApplyStoredAcquisitions` | internal/infrastructure/clients/steam/reconcile.go:135-162 | in place, a resolution becomes the stored record exactly when that one is usable and stronger, else it is unchanged |
| `SteamAcquisitions.Store.SaveAcquisitions` | internal/infrastructure/persistence/steam_model.go:298-332 | records at least as strong as the stored ones are written, all or nothing |
| `SteamAcquisitions.SavingNeverWeakens` | internal/infrastructure/persistence/steam_model.go:295-332 | rank and then evidence count of a stored asset never fall, no asset disappears, and each record is one of the candidates whole |
| `SteamAcquisitions.RunsNeverWeaken` | internal/infrastructure/persistence/steam_model.go:295-332 | the same over any number of syncs |
| `SteamAcquisitions.WhenMergeAndWriteAgree` | internal/infrastructure/clients/steam/reconcile.go:126-178 | the record shown is the record kept if and only if no unmatched stored row has more evidence than an unmatched fresh one |
| `SteamAcquisitions.ResolutionsAreTidy` | internal/infrastructure/clients/steam/reconcile.go:66-117 | an unmatched resolution carries no evidence |
| `SteamAcquisitions.SyncKeepsWhatItShows` | internal/infrastructure/clients/steam/reconcile.go:126-195 | so over runs of the matcher the table keeps, for every owned asset, exactly the record that the snapshot shows |
| `SteamAcquisitions.BuildLots` | internal/infrastructure/clients/steam/reconcile.go:358-396 | one lot for each name that two or more assets without exact or high evidence share, in name order, with their whole amount |
| `SteamEmptyProbe.Inventory.ConfirmEmptyInventory` | internal/infrastructure/clients/steam/reconcile.go:572-601 | an empty inventory is confirmed exactly when nothing was held or a probe is not older than the latest complete snapshot; unreadable state never confirms |
| `SteamEmptyProbe.Inventory.SyncInventory` | internal/infrastructure/clients/steam/reconcile.go:642-655 | a stored non-empty inventory is replaced by an empty one only if an empty one was refused before with no complete inventory stored in between |
| `SteamEmptyProbe.ProbeIsConsecutive` | internal/infrastructure/clients/steam/reconcile.go:572-601 | comparing the truncated probe time with the latest snapshot decides that they are consecutive |
| `TonTraces.Fallback` | internal/infrastructure/clients/ton/traces.go:306-321 | an unmatched message falls to the unvisited transaction of least rank at or after its sender on the destination, in any map order |
| `TonTraces.Next` | internal/infrastructure/clients/ton/traces.go:304-326 | where one message leads; following it answers it |
| `TonTraces.Downstream` | internal/infrastructure/clients/ton/traces.go:277-329 | terminates though the queue may repeat entries; lists each transaction once, the start first, every other one caused by an earlier one, and leaves no message of a listed transaction unanswered |
| `TonTraces.EverythingListedIsCaused` | internal/infrastructure/clients/ton/traces.go:277-329 | every listed transaction is reached from the start by a chain of messages |
| `TonTraces.HashEdgesAreFollowed` | internal/infrastructure/clients/ton/traces.go:278-283 | with unique in-hashes the list is closed under message-hash edges |
| `TonTraces.WalkIsReachability` | internal/infrastructure/clients/ton/traces.go:271-329 | with unique in-hashes and no fallback the list is exactly what is reachable |
| `TonTraces.WalletOutflowTx` | internal/infrastructure/clients/ton/traces.go:331-349 | the first of the wallet's transactions in the given order, or the one of least hash, else none |
| `TonTraces.DetectVaultPattern` | internal/infrastructure/clients/ton/traces.go:359-378 | slicing off the start is in range if and only if the start is in the tree; the result is the first downstream account that is neither the wallet's nor a reservoir |
| `TonTraces.AllowedSenders` | internal/infrastructure/clients/ton/actions.go:627-649 | every sender accepted for a receipt is caused by the wallet's own transaction through protocol intake, and the vault is one of them; a deposit is never overlooked in a tree that needs no fallback |
| `TonBasis.AverageBasis` | internal/infrastructure/clients/ton/translate.go:250-295 | each symbol with a remaining quantity gets its cost over quantity, no other symbol gets a basis |
| `TonBasis.LotIsSound` | internal/infrastructure/clients/ton/translate.go:259-287 | quantity and cost stay nonnegative and reach zero together |
| `TonBasis.DisposalKeepsTheAverage` | internal/infrastructure/clients/ton/translate.go:277-285 | a disposal that leaves something leaves the average unchanged |
| `TonBasis.FullExitForgets` | internal/infrastructure/clients/ton/translate.go:243-249 | a full exit makes all earlier lots irrelevant |
| `TonBasis.AverageIsBetweenPricesPaid` | internal/infrastructure/clients/ton/translate.go:243-249 | the average lies between the least and the greatest unit price paid since the last full exit |
| `TonBasis.AverageIsBetweenAllPrices` | internal/infrastructure/clients/ton/translate.go:243-249 | the same over a history without an exit |
| `TonBasis.SymbolsAreIndependent` | internal/infrastructure/clients/ton/translate.go:251-266 | each symbol gets what its own legs alone would give |
| `TonBasis.SortIsStable` | internal/infrastructure/clients/ton/translate.go:251-254 | activities of one date keep their order, for every input |
| `TonBasis.SortedIsAnOrderedPermutation` | internal/infrastructure/clients/ton/translate.go:251-254 | sorting orders by date and loses nothing |
| `TonBasis.VaultAttributions` | internal/infrastructure/clients/ton/translate.go:329-362 | exactly the held tokens without inbound history and with a paid outflow to their master are attributed, at what was spent for each share |
| `TonBasis.AttributionIsTheBasis` | internal/infrastructure/clients/ton/translate.go:298-324 | beside activities without inbound legs the attributed purchase makes the average exactly what was spent for each share, wherever it falls in time |
| `TonGroups.GroupActionsByTrace` | internal/infrastructure/clients/ton/actions.go:144-165 | the clusters of the successful actions in first-seen order |
| `TonGroups.GroupHoldsItsTrace` | internal/infrastructure/clients/ton/actions.go:144-165 | each cluster holds exactly the successful actions of its trace, in order |
| `TonGroups.OneGroupPerTrace` | internal/infrastructure/clients/ton/actions.go:144-165 | one cluster for each trace that occurs among the successful actions, and no other |
| `TonGroups.TracelessStayAlone` | internal/infrastructure/clients/ton/actions.go:144-165 | successful actions without a trace are clusters of one, in order, even when two share an identifier |
| `TonGroups.RemovingWholeClusters` | internal/infrastructure/clients/ton/client.go:705-723 | taking whole clusters out of the list leaves all other clusters as they were, in order |
| `TonGroups.BoundaryIsWhole` | internal/infrastructure/clients/ton/client.go:711-722 | the identifiers that are dropped name exactly the actions of the last cluster, so no cluster is split |
| `TonGroups.TrailingTraceIsTheBoundary` | internal/infrastructure/clients/ton/client.go:705-723 | a trace that is seen only at the old end of the window, in one block, is the cluster that is dropped |
| `TonGroups.DropBoundary` | internal/infrastructure/clients/ton/client.go:705-723 | dropping the boundary of a cut window removes exactly the actions of the last cluster and leaves all others whole |
| `FutuMigration.ChunkStrings` | internal/infrastructure/persistence/migration_futu.go:425-436 | the chunks put together are the list, none empty or over the limit |
| `FutuMigration.Keeper` | internal/infrastructure/persistence/migration_futu.go:235-241 | the primary leg's first copy, or the first copy |
| `FutuMigration.PlanMoves` | internal/infrastructure/persistence/migration_futu.go:218-251 | moves are exactly the kept copies of fills the merged account lacks, drops exactly the other rows, each once |
| `FutuMigration.MovesAndDropsPartition` | internal/infrastructure/persistence/migration_futu.go:218-251 | moves and drops partition the old rows |
| `FutuMigration.OneCopyMoves` | internal/infrastructure/persistence/migration_futu.go:218-251 | of each such fill exactly one copy moves, the primary leg's if it has one |
| `FutuMigration.IndexHoldsThroughout` | internal/infrastructure/persistence/migration_futu.go:277-289 | the unique index over account and source record holds after every chunk |
| `FutuMigration.Ledger.MergeActivities` | internal/infrastructure/persistence/migration_futu.go:255-291 | after the chunked statements the merged account has each source of the legs and of itself exactly once, no leg has rows, and all other rows are untouched |
| `FutuMigration.PlanConserves` | internal/infrastructure/persistence/migration_futu.go:218-291 | carrying out the plan conserves fills |
| `FutuMigration.SecondRunIsIdle` | internal/infrastructure/persistence/migration_futu.go:21-24 | a second run changes nothing |
| `FutuMigration.MergeAccountRow` | internal/infrastructure/persistence/migration_futu.go:111-142 | enabled and complete only if every leg is; times are the latest of complete legs and the earliest first date |
| `FutuMigration.StoreMergedAccount` | internal/infrastructure/persistence/migration_futu.go:156-194 | a disabled leg is never re-enabled, and an existing row keeps its own values |
| `FutuMigration.MaxTimeOf` | internal/infrastructure/persistence/migration_futu.go:403-411 | the latest present time, none if there is none |
| `FutuMigration.MinTimeOf` | internal/infrastructure/persistence/migration_futu.go:414-422 | the earliest present time, none if there is none |
| `FutuMigration.UnionHoldings` | internal/infrastructure/persistence/migration_futu.go:330-394 | every symbol and every option of a readable leg, from the first leg that holds it; balances of the first leg with a snapshot, the latest capture time; nothing exactly when that first one is missing or unreadable |
| `ActivityStore.ApplyFingerprintIdentity` | internal/infrastructure/persistence/activities.go:108-129 | an item is flagged exactly when its fingerprint belongs to another record, judged over the whole batch |
| `ActivityStore.Store.LookUp` | internal/infrastructure/persistence/activities.go:147-167 | the stored identity of a fingerprint is the greatest record that carries it |
| `ActivityStore.Collapse` | internal/infrastructure/persistence/activities.go:169-180 | one row per record of the batch, its last occurrence, with the verdict on it |
| `ActivityStore.Store.UpsertBatch` | internal/infrastructure/persistence/activities.go:131-205 | the chunks store the collapsed batch as one upsert, or nothing when the lookup or a statement fails |
| `ActivityStore.InsertedJoin` | internal/infrastructure/persistence/activities.go:188-200 | consecutive chunks are one statement over their rows |
| `ActivityStore.NothingIsDropped` | internal/infrastructure/persistence/activities.go:131-135 | each record of the batch has one row, holding its last occurrence |
| `ActivityStore.SecondKeepsColumns` | internal/infrastructure/persistence/activities.go:131-205 | re-applying a batch changes no column but the review flag |
| `ActivityStore.TwoApplicationsSettle` | internal/infrastructure/persistence/activities.go:131-205 | from the second application on nothing changes |
| `ActivityStore.WhenOneApplicationSettles` | internal/infrastructure/persistence/activities.go:108-129 | one application is enough if and only if the owners of the batch's fingerprints are settled, read off the table and the batch beforehand |
| `ActivityStore.OneApplicationMayNotSettle` | internal/infrastructure/persistence/activities.go:140-165 | a batch whose review flags swap on the second application |

## Left out

- Parsing of upstream JSON, HTML and amounts, request signing, logins, configuration, HTTP handlers and logging.
- Float64 rounding: prices, quantities and costs are reals, and the twelve-digit and eight-decimal roundings are explicit.
- Real sleeping and wall clocks: the limiters take the clock readings as arguments.
- SQL and GORM: a transaction takes effect whole or not at all, and the unique index over account and source record is a precondition that is proved at each statement; other constraints are not modelled.
- Mutexes: every locked region is one method, so interleavings are sequences of calls; `runMu` is a parameter of the run, cancellation one of each client's attempt, and the scheduler loops are not modelled.
- Steam market and trade cursors: the history cursor is modelled, the other two follow the same merge.
- SteamHistory.FetchHistory: the upstream history does not change while it is walked.
- SteamProvenance.SteamImport.DurableWatermarkIsTrue: new rows are dated more than a second after the newest row they follow, which the one-second margin of the walk needs.
- TonBackfill.Backfill.WalletActionHistory: from the first request of the last committed run on, at most 2000 actions arrive up to the second request of a run and at most 20000 up to its last, one wallet at a time; that a trace split between two windows never emits is not claimed, since only the last cluster of the merged windows is dropped.
- TonBackfill.SafeTailsNeverMiss: the later runs are ones during which nothing arrives and whose rows all reach storage; runs with arrivals are the subject of `Backfill.Sync`.
- SnapTradeImport.AccountImport.StreamActivities: the upstream list is append-only and reports its true length, and once the first pass is complete new records are dated within the overlap before the last sync.
- BinanceTrades.RotationIsFair: for a scope of pairs that does not change between the runs; deriving the scope from balances is not modelled.
- TonPrices.StoredTotalsAreOrdered: between its two thresholds, which are 4e-11 apart, the order depends on how the twelfth digit of each price was rounded, and is left open.
- SteamMatching.RunIsUnique: history events have distinct identifiers, as the deduplicated history has.
- TonTraces.Fallback: that the candidate has least rank is stated for trees without an empty transaction hash, because the code uses the empty string for "none".
- TonTraces.AllowedSenders: that a deposit is not overlooked is stated for trees whose walk does not depend on the order of a map, since the source walks a tree twice.
- FutuMigration.UnionHoldings: the sort of the legs by market priority; legs come in priority order.
- FutuMigration.Ledger.MergeActivities: one real account; the deletion of the retired account and holdings rows that follows is not modelled.
- ActivityStore.Store.UpsertBatch: a row's primary key and immutable reference are one column; a clash of primary keys between records is not modelled.
- `classifyActionGroup`, `conversionLegs`, `traceMints` and the correlation of deposits beyond the accepted senders.
- The OKX fills cursor, the IBKR, Futu and SnapTrade field mappers, Steam pricing, and the price caches.
- The SnapTrade connection refresh and the choice of accounts to sync.
