# Synkro, modelled and proved in Dafny

Synkro is a set of services for orders, stock, sign-in, analytics and predictions. This project models the parts
where correctness is not obvious from one function, and proves what they promise:

- **Orders and stock** (`logistics-engine`). `OrderLines` holds the guarded decrement of `create_order` as values,
  `LineOrder` when the order of its lines matters.
  `OrderTransactions` runs any number of `create_order` transactions at once, step by step, over a PostgreSQL-like
  database: row locks, rows written but not yet visible, commit, rollback, and database failures at any point.
  `OrderDeadlock` says exactly which sets of orders can block each other.
  `OrderStore` is the same service one call at a time, with cancellation, adjustments and the inventory ledger.
  `OrderRefinement` proves that the interleaved transactions refine it.
- **Sessions** (`api-gateway-auth`, `frontend-dashboard`). `TokenServer` is token validation and the pruned set of
  logged-out tokens. `SessionCache` is the dashboard's ten-second verdict, composed with the server while requests are
  in flight.
- **SQL splitting** (`ai-ml-predictions`). `SqlText` has the Python string operations, `SqlMask` the masked text,
  `SqlSplitter` the program, `SqlSegments` the text cut at its `$$`, and `SqlScanner` the one-pass scanner the program
  is compared with.
- **Order producer** (`logistics-engine`). `OrderProducer` is the start/stop protocol with its spawned task.
- **Charts** (`frontend-dashboard`). `TimeSeries` and `TransactionVolume` are the bucketing of points and rows;
  `ChartMetadata` is the metadata normaliser.
- **Reservations and reports** (`inventory-sync-service`). `StockReservation` and `InventoryReport`.
- **Name migration** (`api-gateway-auth`). `NameMigration`.

`Reordering` holds two facts about permuted sequences that the order and chart modules share, `Options` the type of
a value that may be missing.

Code that changes state is modelled by classes and loops proved against functions, and the theorems are about those
functions. Protocols with several parties are state machines: a run is any sequence of steps, and a step that is not
enabled changes nothing, so "for every sequence" is "for every interleaving". `dafny verify dfyconfig.toml` checks
everything.

## What the code does that its comments do not say

- The out-of-stock path of `create_order` says it keeps the order with status OutOfStock. The rollback before it removes
  the order, so the update that follows finds no row and the caller gets an error. The model follows the code.
- Line quantities carry a "minimum 1" annotation, but nothing on the way to `create_order` evaluates it. The model
  takes any integer; `TotalsDecideExactly` says for which line lists the summed demand decides, and
  `OrderIrrelevantExactly` for which lists the order of the lines does not matter.
- Line by line locking can deadlock: `DeadlockFreeExactly` says for which sets of orders it cannot.
- `create_transaction` stores the ledger entry before it rejects an unknown kind (`UnknownKindIsKept`), and does not
  guard against negative stock (`UnguardedRemoval`); `NeverNegativeExactly` says on which runs stock stays non-negative all the same.
- A logged-out token whose not-before claim lies ahead is pruned at once and validates later
  (`LoggedOutStaysOutExactly` gives the exact condition; tokens the service issues have no such claim).
- Signing in with another token does not drop the dashboard's stored verdict (`VerdictOutlivesToken`), so a token can be
  answered `true` from the cache ten seconds and more after its logout at the server (`LoggedOutAnsweredTrue`).
  `RevocationBoundExactly` says for which sets of tokens the ten-second bound holds.
- `stop` does not wait for the task it aborts. A task that is being polled at that moment can still write the flag
  after `stop` has returned, even after a later `start` (`FlagGoesWrong`). The flag and the bound of one task hold exactly
  when no aborted task is still being polled when `stop` returns (`FlagRightExactly`, `OneTaskExactly`), the silence
  after `stop` exactly when no such task is still in its loop (`QuietExactly`).
- The splitter masks by text, not by place: a gap between two blocks that repeats a body, other than the body right
  before it, is hidden with it (`RepeatedGapBreaksSplitter`), a `DO` block that does not end in `END ` runs into a
  later block (`OpenDoBreaksSplitter`), and a quote that is never closed is split at its semicolons
  (`UnclosedBreaksSplitter`). `SplitterRefinesScannerExactly` says when none of this happens.

## Modelling assumptions

- A row locked `FOR UPDATE` is not changed by another transaction until the holder ends (section 13.3.2 of the
  PostgreSQL documentation); a statement sees committed rows and its own transaction's writes.
- Order ids are fresh. Product, user and item ids are numbers. Integer widths are not modelled.
- Signature verification is a fixed function from tokens to claims; `exp` and `nbf` are as in sections 4.1.4 and 4.1.5
  of RFC 7519. Server and dashboard read one clock that never goes back.
- Aborting a task marks it: a task at rest takes no further step, one that a worker thread is polling goes on until
  it would wait (the service runs on a multi-threaded runtime, logistics-engine/src/main.rs:36).
- Chart values are exact numbers, and a period is any function from a time to its period's start.

## Model

| member | source | states |
|---|---|---|
| `OrderLines.PlaceByPrefixes` | logistics-engine/src/services/order_service.rs:203-272 | the guarded update loop accepts, for any integer quantities, exactly when every line's running total fits, and then each product's stock drops by its summed demand |
| `OrderLines.TotalsDecideExactly` | logistics-engine/src/services/order_service.rs:203-272 | summed demand decides acceptance on every stock if and only if no running total exceeds its final total |
| `OrderLines.AcceptedByTotals` | logistics-engine/src/services/order_service.rs:204-272 | with the quantities the DTO asks for, an order with repeated products is accepted exactly when each product's sum is at most its stock |
| `OrderLines.ShortNamesFirst` | logistics-engine/src/services/order_service.rs:204-266 | a refused order names the product of the first line whose running total does not fit, and only that |
| `LineOrder.PlacePermutes` | logistics-engine/src/services/order_service.rs:204-272 | where each product's quantities are all non-negative or all equal, neither the verdict nor the resulting stock depends on the order of the lines |
| `LineOrder.OrderIrrelevantExactly` | logistics-engine/src/services/order_service.rs:204-272 | for any integer quantities: the verdict is the same on every stock and for every reordering if and only if each product's quantities are all non-negative or all equal |
| `LineOrder.MixedSignsDependOnOrder` | logistics-engine/src/services/order_service.rs:204-272 | a list with a negative quantity whose verdict depends on line order |
| `OrderLines.PlaceKeepsNonNegative` | logistics-engine/src/services/order_service.rs:206-219 | the guard keeps stock non-negative for any quantities |
| `OrderTransactions.Serializable` | logistics-engine/src/services/order_service.rs:146-275 | every interleaving of transactions has the outcomes and the committed stock of running the orders one by one in the order they ended, and each ended transaction is recorded once |
| `OrderTransactions.NeverOversold` | logistics-engine/src/services/order_service.rs:146-275 | at every point of every interleaving, committed stock is the start less what committed orders took, and never negative |
| `OrderTransactions.StepKeeps` | logistics-engine/src/services/order_service.rs:159-275 | begin, lock, insert, update, commit, reject and failure each keep the protocol invariant (locks cover what was written, pending rows are a partial run on committed stock) |
| `OrderTransactions.EndKeepsOthers` | logistics-engine/src/services/order_service.rs:203-275 | committing or rolling back one transaction does not disturb another that is half done |
| `OrderTransactions.NeverWaitsAfterLocking` | logistics-engine/src/services/order_service.rs:159-178 | after its locking loop a transaction never waits: its update, rejection or commit is enabled |
| `OrderDeadlock.DeadlockFreeExactly` | logistics-engine/src/services/order_service.rs:161-178 | for every set of line lists: no interleaving of orders from it deadlocks if and only if no orders from it can be stopped so that they hold disjoint products and each wants a product another holds |
| `OrderDeadlock.Progress` | logistics-engine/src/services/order_service.rs:161-178 | if all orders list products in one common order, no reachable state is a deadlock |
| `OrderDeadlock.CommonFirstProduct` | logistics-engine/src/services/order_service.rs:161-178 | nor if all orders begin with the same stocked product, whatever order follows |
| `OrderDeadlock.OppositeOrdersDeadlock` | logistics-engine/src/services/order_service.rs:161-178 | two orders that begin with any two stocked products in opposite orders, whatever the quantities, can reach a state where neither can move |
| `OrderRefinement.InterleavingRefinesStore` | logistics-engine/src/services/order_service.rs:146-275 | every interleaving leaves the stock and the committed orders of the sequential service after the same calls in the order the transactions ended |
| `OrderStore.LogisticsService.CreateOrder` | logistics-engine/src/services/order_service.rs:145-275 | the transaction commits stock and order together, or changes nothing and names the short product |
| `OrderStore.LogisticsService.UpdateOrder` | logistics-engine/src/db/repository/order_repository.rs:226-284 | sets the status of a stored order and does nothing for an unknown id |
| `OrderStore.LogisticsService.UpdateOrderStatus` | logistics-engine/src/services/order_service.rs:428-607 | unknown order, same status, cancellation with restored stock, and plain change |
| `OrderStore.LogisticsService.AdjustItem` | logistics-engine/src/services/inventory_service.rs:87-110 | adds the delta unless the item is unknown or would go negative |
| `OrderStore.LogisticsService.CreateTransaction` | logistics-engine/src/services/inventory_service.rs:242-290 | records the entry, then adjusts by its sign or rejects its kind |
| `OrderStore.StockEquation` | logistics-engine/src/services/order_service.rs:203-275 | on every run, stock is the start plus effective adjustments, less accepted lines, plus the lines of each step into Cancelled, plus all "add" and "release" quantities and less all "remove" and "allocate" quantities the ledger gained |
| `OrderStore.LedgerMovesStock` | logistics-engine/src/services/inventory_service.rs:242-290 | for every quantity, "add" and "release" raise the item by it, "remove" and "allocate" lower it, and the entry is recorded |
| `OrderStore.BalanceEquation` | logistics-engine/src/services/order_service.rs:444-520 | on every run, stock plus demand of open orders less the ledger moves only by adjustments and by orders that leave Cancelled |
| `OrderStore.StockAndDemandConserved` | logistics-engine/src/services/order_service.rs:444-520 | with no adjustment and no order leaving Cancelled, stock plus open demand is conserved up to the ledger |
| `OrderStore.ReopeningBreaksConservation` | logistics-engine/src/services/order_service.rs:444-607 | taking an order out of Cancelled adds exactly its demand without taking stock |
| `OrderStore.CreateThenCancelRestores` | logistics-engine/src/services/order_service.rs:451-520 | cancelling a just accepted order restores the stock; a rejected one changed nothing |
| `OrderStore.CancelTwice` | logistics-engine/src/services/order_service.rs:443-446 | cancelling twice in a row is cancelling once |
| `OrderStore.CreateStores` | logistics-engine/src/services/order_service.rs:145-275 | an accepted order is stored last, pending, with its lines, under the id returned; stock drops by its demand |
| `OrderStore.RefusalNamesFirst` | logistics-engine/src/services/order_service.rs:229-266 | the error names the first product that does not fit |
| `OrderStore.StatusIsSet` | logistics-engine/src/services/order_service.rs:428-607 | an unknown order is answered so; otherwise exactly that order gets exactly the asked status and keeps its lines |
| `OrderStore.OrderIsLastSet` | logistics-engine/src/services/order_service.rs:428-607 | on every run an order keeps its lines and has the status it was last given |
| `OrderStore.AdjustAnswers` | logistics-engine/src/services/inventory_service.rs:87-110 | an adjustment is refused exactly when the item is unknown or would go negative, each with its own answer |
| `OrderStore.RejectedOrderIsNotKept` | logistics-engine/src/services/order_service.rs:229-266 | an order is refused exactly when some running total does not fit, and then leaves no order and no stock change behind |
| `OrderStore.UnknownKindIsKept` | logistics-engine/src/services/inventory_service.rs:242-290 | a transaction of an unknown kind is refused exactly when its item and warehouse exist, and its entry stays in the ledger |
| `OrderStore.UnguardedRemoval` | logistics-engine/src/services/inventory_service.rs:242-290 | removing from an empty item through the ledger succeeds and leaves negative stock |
| `OrderStore.SafeExactly` | logistics-engine/src/services/inventory_service.rs:242-290 | from non-negative stock one call keeps it so if and only if a ledger entry takes no more than is left and the lines given back by a cancellation, whose quantities may be negative, do not either |
| `OrderStore.NeverNegativeExactly` | logistics-engine/src/services/order_service.rs:203-275 | stock is non-negative after every call of a run if and only if each call is safe in the state it meets |
| `OrderStore.OnlyLedgerGoesNegative` | logistics-engine/src/services/inventory_service.rs:242-290 | with the quantities the DTO asks for, the ledger entries alone decide that |
| `TokenServer.IsValidTokenFormat` | api-gateway-auth/src/modules/auth/auth.service.ts:118-134 | the loop decides the format |
| `TokenServer.ValidFormatIsCompact` | api-gateway-auth/src/modules/auth/auth.service.ts:118-134 | the accepted shape is exactly three non-empty parts of the 64 base64url characters with dots between, the compact serialization of section 7.1 of RFC 7515 |
| `TokenServer.AuthService.CleanupInvalidatedTokens` | api-gateway-auth/src/modules/auth/auth.service.ts:182-207 | deleting while iterating leaves exactly the well-formed tokens that still verify |
| `TokenServer.AuthService.InvalidateToken` | api-gateway-auth/src/modules/auth/auth.service.ts:136-180 | refuses the empty token, leaves everything for a known one, and otherwise adds it and keeps exactly the well-formed tokens that still verify |
| `TokenServer.AuthService.ValidateToken` | api-gateway-auth/src/modules/auth/auth.service.ts:68-112 | answers the user exactly when the token is not invalidated, is well formed and signed, the time is before its expiry and not before its not-before claim, and its subject is a known and active user |
| `TokenServer.CheckedExactly` | api-gateway-auth/src/modules/auth/auth.service.ts:68-94 | a validation looks up the subject of a token that is not invalidated, well formed and within its life, and nobody otherwise |
| `TokenServer.FinishedExactly` | api-gateway-auth/src/modules/auth/auth.service.ts:94-105 | on every run a validation passes exactly when it found a user who by the time of the lookup is known and was last made active |
| `TokenServer.DeactivatedRefused` | api-gateway-auth/src/modules/auth/auth.service.ts:96-101 | after a user is deactivated and until activated again, every validation for that user fails, whenever it was started |
| `TokenServer.IssuedForAnHour` | api-gateway-auth/src/modules/auth/auth.service.ts:209-218 | an issued token names its user and verifies until an hour after its issue, to the second |
| `TokenServer.NeverAgainExactly` | api-gateway-auth/src/modules/auth/auth.service.ts:182-199 | a token is unacceptable for good exactly when it is unacceptable now and no not-before claim will wake it |
| `TokenServer.PruningUnobservable` | api-gateway-auth/src/modules/auth/auth.service.ts:68-207 | over every run whose logouts are of tokens with no not-before claim still ahead, with validations in flight, the pruned server replies what a server that never forgets replies |
| `TokenServer.PruningUnobservableExactly` | api-gateway-auth/src/modules/auth/auth.service.ts:136-207 | for every set of tokens, pruning goes unobserved on all runs that log out only those if and only if none of them has a not-before claim still ahead |
| `TokenServer.LoggedOutStaysOutExactly` | api-gateway-auth/src/modules/auth/auth.service.ts:136-207 | after a logout no later validation passes on any run, if and only if the token's not-before claim did not still lie ahead |
| `TokenServer.IssuedTokensStayOut` | api-gateway-auth/src/modules/auth/auth.service.ts:209-218 | a token the service issued never validates again once logged out |
| `SessionCache.AuthService.BeginValidation` | frontend-dashboard/src/services/auth.service.ts:103-125 | clears exactly without a token or when the exp of the token, in seconds, is below the time in whole seconds; answers exactly with a verdict stored less than 10000 ms ago; otherwise asks about the stored token |
| `SessionCache.AuthService.CompleteValidation` | frontend-dashboard/src/services/auth.service.ts:127-144 | a passing verdict is stored under the start time of the call beside the token; a refusal removes token, time and verdict |
| `SessionCache.AuthService.SetAuth` | frontend-dashboard/src/services/auth.service.ts:175-181 | changes the token and nothing else |
| `SessionCache.AuthService.ClearAuth` | frontend-dashboard/src/services/auth.service.ts:183-192 | removes all session keys |
| `SessionCache.ClearedOnlyWhenDead` | frontend-dashboard/src/services/auth.service.ts:106-110 | on every run, a call that signs the user out over a token means the token no longer verifies at the server |
| `SessionCache.ExpiredIsCleared` | frontend-dashboard/src/services/auth.service.ts:106-110 | on every run, a call that finds its token a second past its expiry signs the user out and asks nobody, whatever verdict is stored |
| `SessionCache.AsksServer` | frontend-dashboard/src/services/auth.service.ts:112-131 | without a verdict of the last ten seconds a live token is asked about, once, under the current time |
| `SessionCache.ServerAnswers` | api-gateway-auth/src/modules/auth/auth.service.ts:68-112 | token and set are looked at at one time, the user at another; the verdict passes exactly when that user is then known and active |
| `SessionCache.ReplyStored` | frontend-dashboard/src/services/auth.service.ts:133-147 | what each reply, a lost reply and signing out leave stored |
| `SessionCache.CachedAnswerIsTrue` | frontend-dashboard/src/services/auth.service.ts:118-142 | under every interleaving "false" is never left stored, so a cached answer is true |
| `SessionCache.CachedTrueIsFresh` | frontend-dashboard/src/services/auth.service.ts:103-149 | under every interleaving a cached `true` rests on a server check that passed less than ten seconds ago |
| `SessionCache.StaleVerdictEnds` | frontend-dashboard/src/services/auth.service.ts:103-149 | after a logout at the server, a cached `true` that rests on that token is served for less than ten seconds more |
| `SessionCache.RevocationBoundExactly` | frontend-dashboard/src/services/auth.service.ts:103-181 | for every set of tokens the dashboard signs in with: on no run is a token answered from the cache ten seconds after its logout at the server, if and only if no two of them can be swapped (the first found good within ten seconds of the second being served, the second logged out ten seconds before and not past its expiry) |
| `SessionCache.RevocationReachesDashboard` | frontend-dashboard/src/services/auth.service.ts:103-149 | with one token, ten seconds after its logout no cached `true` is left, whatever was in flight |
| `SessionCache.VerdictOutlivesToken` | frontend-dashboard/src/services/auth.service.ts:175-181 | after signing in with any other token the old verdict is still served, unless the token is empty or expired |
| `SessionCache.LoggedOutAnsweredTrue` | frontend-dashboard/src/services/auth.service.ts:103-181 | for any two tokens and any time ten seconds or more after the second is logged out, if the first is good then and neither past its expiry, a run on which the second is answered from the cache at that time |
| `SqlSplitter.SplitSqlStatements` | ai-ml-predictions/app/core/config/database.py:125-153 | the three loops compute the masked text, split it, trim, drop empty pieces and unmask; every statement is non-empty with no whitespace character (all 29 listed) at either end, and for text without '#' the statements are, in order, the cores of the pieces, joined by ';', that make up the text, those of whitespace alone left out |
| `SqlSplitter.SplitterRoundTrip` | ai-ml-predictions/app/core/config/database.py:128-153 | for every text without '#', the untrimmed pieces, unmasked and joined with ';', are the input |
| `SqlSplitter.OnlySpaceIsLost` | ai-ml-predictions/app/core/config/database.py:144-153 | the statements are those pieces trimmed and the empty ones dropped: nothing but outer whitespace and empty pieces is lost |
| `SqlSplitter.MarkIsRewritten` | ai-ml-predictions/app/core/config/database.py:149-151 | a text that spells the mark comes back as a semicolon, so '#' has to be kept out |
| `SqlSplitter.MaskedSqlMasks` | ai-ml-predictions/app/core/config/database.py:128-142 | whatever the two loops hide, the masked text still stands for the input |
| `SqlScanner.SplitterRefinesScannerExactly` | ai-ml-predictions/app/core/config/database.py:125-153 | for every text without '#' in which every `$$` stands alone, paired or not: the statements are those of a one-pass scanner that splits only outside dollar quotes if and only if no gap with a semicolon repeats a body other than the one right before it, a quote left open at the end holds no semicolon, and no match of the second loop spans an unquoted semicolon |
| `SqlScanner.SplitterRefinesScanner` | ai-ml-predictions/app/core/config/database.py:125-153 | in particular if every `DO $$` opens a block whose body ends in `END ` and the other two conditions hold |
| `SqlScanner.MaskedIsScannedExactly` | ai-ml-predictions/app/core/config/database.py:128-142 | under the same condition, and only then, the two loops hide exactly the quoted semicolons |
| `SqlScanner.StatementsTellMask` | ai-ml-predictions/app/core/config/database.py:144-153 | for every text without '#' the statements agree with the scanner's only if the hidden semicolons do |
| `SqlSegments.FirstLoopExactly` | ai-ml-predictions/app/core/config/database.py:130-135 | the replacement loop over dollar quotes masks every quoted segment and no gap if and only if no gap with a semicolon repeats a body other than the one right before it and a quote left open holds no semicolon |
| `SqlScanner.SecondLoopExactly` | ai-ml-predictions/app/core/config/database.py:137-142 | the loop over DO blocks leaves its text alone if and only if no match holds a semicolon |
| `SqlScanner.RepeatedGapBreaksSplitter` | ai-ml-predictions/app/core/config/database.py:130-135 | whatever stands around them, a gap with a semicolon that repeats a body other than the one right before it makes the splitter return other statements than the scanner |
| `SqlScanner.RepeatedGapExample` | ai-ml-predictions/app/core/config/database.py:130-135 | a text on which it does |
| `SqlScanner.OpenDoBreaksSplitter` | ai-ml-predictions/app/core/config/database.py:137-142 | so does a DO block not closed by `END `, then a gap with a semicolon, then a body that ends in `END ` |
| `SqlScanner.UnclosedBreaksSplitter` | ai-ml-predictions/app/core/config/database.py:130-142 | so does a semicolon in a quote that is never closed |
| `OrderProducer.AtMostOneTask` | logistics-engine/src/services/order_producer_service.rs:95-158 | under every interleaving in which no `stop` returned while the task it aborted was being polled, at most one task is alive |
| `OrderProducer.FlagIsLastCall` | logistics-engine/src/services/order_producer_service.rs:95-162 | on those runs the flag always tells which of start and stop wrote it last |
| `OrderProducer.RunsUntilStop` | logistics-engine/src/services/order_producer_service.rs:95-162 | on those runs, from a completed start until the next call of stop, the flag is true, even if the task panics |
| `OrderProducer.QuietUntilStart` | logistics-engine/src/services/order_producer_service.rs:110-158 | on those runs, after stop has returned no task takes a loop step until the next call of start |
| `OrderProducer.TaskNeverWritesFalse` | logistics-engine/src/services/order_producer_service.rs:123-132 | on those runs the task's final write of false is not reached |
| `OrderProducer.FlagRightExactly` | logistics-engine/src/services/order_producer_service.rs:110-158 | when stop is about to return, the flag stays right on every run up to the return of the next stop if and only if no aborted task is still being polled |
| `OrderProducer.OneTaskExactly` | logistics-engine/src/services/order_producer_service.rs:110-158 | under the same condition, and only then, at most one task that was not aborted is alive on all those runs |
| `OrderProducer.QuietExactly` | logistics-engine/src/services/order_producer_service.rs:110-158 | no task takes a loop step before the next call of start if and only if the aborted task has ended or has left its loop |
| `OrderProducer.FlagGoesWrong` | logistics-engine/src/services/order_producer_service.rs:110-158 | a run on which, after a completed start and no later stop, the flag is false because an aborted task wrote it late |
| `OrderProducer.LateStartWrites` | logistics-engine/src/services/order_producer_service.rs:110-112 | an aborted task that had not begun can still write true after stop has returned |
| `OrderProducer.OlderTaskCanLeave` | logistics-engine/src/services/order_producer_service.rs:101-103 | where two tasks run, the second start has dropped the sender of the first, which can leave its loop |
| `OrderProducer.WaitSettles` | logistics-engine/src/services/order_producer_service.rs:116-128 | a task that waits is at rest, and a marked one ends there |
| `OrderProducer.PanicEndsTask` | logistics-engine/src/services/order_producer_service.rs:116-128 | a panic in the loop ends the task and leaves the flag |
| `OrderProducer.StopSends` | logistics-engine/src/services/order_producer_service.rs:146-148 | stop leaves one message in its channel, closes it and touches no other |
| `OrderProducer.AtRestSettles` | logistics-engine/src/services/order_producer_service.rs:150-154 | if every abort meets a task that is not being polled, as on a current-thread runtime, the condition holds throughout |
| `OrderProducer.StopSendHasRoom` | logistics-engine/src/services/order_producer_service.rs:140-148 | on every run the channel stop sends on is open and empty, so the send does not wait |
| `TimeSeries.GroupByPeriod` | frontend-dashboard/src/utils/chartHelpers.ts:102-143 | each group holds exactly the items of its period in input order, with their sum and count |
| `TimeSeries.SortKeys` | frontend-dashboard/src/utils/chartHelpers.ts:145-148 | the keys, strictly ascending |
| `TimeSeries.AggregateTimeSeries` | frontend-dashboard/src/utils/chartHelpers.ts:102-182 | strictly ascending non-empty buckets, one per period that occurs, each with its items, sum, count and average |
| `TimeSeries.BucketingUnique` | frontend-dashboard/src/utils/chartHelpers.ts:102-182 | that specification has one result |
| `TimeSeries.ValuesConserved` | frontend-dashboard/src/utils/chartHelpers.ts:139-143 | bucket values add up to the values of the data |
| `TimeSeries.CoarseningComposes` | frontend-dashboard/src/utils/chartHelpers.ts:108-143 | aggregating by a fine period and its points by a coarser one gives the periods and values of aggregating by the coarser one directly |
| `TimeSeries.AggregationPermutes` | frontend-dashboard/src/utils/chartHelpers.ts:102-182 | any reordering of the data gives the same periods and values |
| `TransactionVolume.TransformTransactionVolumeData` | frontend-dashboard/src/utils/chartHelpers.ts:188-285 | sorts, picks the count field and the period, aggregates, and lists period and count |
| `TransactionVolume.SortByHourSorts` | frontend-dashboard/src/utils/chartHelpers.ts:193-201 | the sort by hour is a sorted permutation |
| `TransactionVolume.ChartPermutes` | frontend-dashboard/src/utils/chartHelpers.ts:188-285 | any reordering of uniformly shaped rows gives the same chart |
| `TransactionVolume.ChartConservesTotal` | frontend-dashboard/src/utils/chartHelpers.ts:188-285 | whichever period is chosen, the chart's counts add up to the count field over all rows; the earliest row decides the field, and for uniform rows any row names the same |
| `TransactionVolume.ChartOfRows` | frontend-dashboard/src/utils/chartHelpers.ts:188-285 | the chart from the rows alone: transaction_count, transactionCount, count, value or the named field, the first that the earliest row has; months above 100 rows, weeks above 50, else months, weeks, days or hours by the span in days (60, 14, 2); one ascending point for each period in which a row falls, with the sum of the field over its rows |
| `TransactionVolume.ChartAddsUp` | frontend-dashboard/src/utils/chartHelpers.ts:206-285 | the counts add up to the sum of that field over all rows |
| `TransactionVolume.SnakeUndoesCamel` | frontend-dashboard/src/utils/chartHelpers.ts:62-78 | turning a snake_case name into camelCase and back gives the name again |
| `TransactionVolume.FieldInOtherStyle` | frontend-dashboard/src/utils/chartHelpers.ts:56-82 | a snake_case field that is absent is read under its camelCase name, and else counts zero |
| `TransactionVolume.CamelFoundAsSnake` | frontend-dashboard/src/utils/chartHelpers.ts:72-78 | a camelCase field that is absent is read under its snake_case name |
| `TransactionVolume.UtcNests` | frontend-dashboard/src/utils/chartHelpers.ts:111-120 | in universal time hours nest in days, in weeks that start on Sunday and in calendar months |
| `StockReservation.InventoryService.AllocateInventory` | inventory-sync-service/src/services/inventory.go:163-184 | moves the quantity from available to reserved, or fails and changes nothing |
| `StockReservation.InventoryService.CheckAndReserveStock` | inventory-sync-service/src/services/inventory.go:388-494 | the loop, with its error return and its crash on a failed level lookup |
| `StockReservation.ReservationFold` | inventory-sync-service/src/services/inventory.go:392-494 | one entry per line in order: an unknown item, a short one with what there was, a failed allocation, or a grant with what is left, each judged by what the lines before it took; stock moves by exactly the granted lines; success exactly when no entry has a problem |
| `StockReservation.EndsExactly` | inventory-sync-service/src/services/inventory.go:399-444 | a normal return exactly when every line has an identifier and no level lookup of a found item fails; the first such line decides between the error and the crash |
| `StockReservation.StockConserved` | inventory-sync-service/src/services/inventory.go:388-494 | however the call ends, available plus reserved is unchanged and available does not turn negative |
| `StockReservation.ReservesWhatOrderTakes` | inventory-sync-service/src/services/inventory.go:396-480 | with no failure and every item found, success and remaining stock are those of creating the order |
| `StockReservation.SucceedsByTotals` | inventory-sync-service/src/services/inventory.go:396-480 | then, with non-negative quantities, it succeeds exactly when every product's summed demand fits |
| `InventoryReport.GetInventoryReport` | inventory-sync-service/src/services/inventory.go:291-365 | the rows are the levels of known items of the category, below ten available if only those are asked for, and the totals are theirs; the counts are of all such levels below ten and at zero; out-of-stock never exceeds low-stock, low-stock-only makes the item count the low-stock count, and balanced levels give balanced totals |
| `InventoryReport.PrefilterAgrees` | inventory-sync-service/src/services/inventory.go:291-318 | prefiltering by category and looking items up again is one combined filter |
| `InventoryReport.OutWithinLow` | inventory-sync-service/src/services/inventory.go:320-330 | out-of-stock levels never outnumber low-stock ones |
| `InventoryReport.LowStockOnlyCounts` | inventory-sync-service/src/services/inventory.go:332-335 | with the low-stock filter on, the item count is the low-stock count |
| `InventoryReport.ReportBalances` | inventory-sync-service/src/services/inventory.go:351-365 | if every level has available equal to quantity less reserved, so do the totals |
| `ChartMetadata.ValidateChartData` | frontend-dashboard/src/hooks/useAnalytics.ts:25-225 | the statements compute the staged normalisation |
| `ChartMetadata.ValidatedTwice` | frontend-dashboard/src/hooks/useAnalytics.ts:25-225 | validating twice is validating once, and the data rows are unchanged |
| `ChartMetadata.ValidatedIsComplete` | frontend-dashboard/src/hooks/useAnalytics.ts:70-218 | every result of a known type has all the fields that type needs |
| `ChartMetadata.MislabelledBecomesPie` | frontend-dashboard/src/hooks/useAnalytics.ts:48-68 | a sankey chart with status nodes, a count value and both in its first row becomes a pie chart of counts by status |
| `ChartMetadata.SankeyFilled` | frontend-dashboard/src/hooks/useAnalytics.ts:70-77 | any other sankey chart stays one and gets the names source, target and value where unset |
| `ChartMetadata.PieFilled` | frontend-dashboard/src/hooks/useAnalytics.ts:79-112 | an unset dimension is the first text field of the first row, an unset metric the first numeric one, with the fixed names only where there is none |
| `ChartMetadata.FunnelFilled` | frontend-dashboard/src/hooks/useAnalytics.ts:114-148 | the same for a funnel, with stage and count to fall back on |
| `ChartMetadata.FunnelMetrics` | frontend-dashboard/src/hooks/useAnalytics.ts:149-167 | an unset list of metrics becomes the numeric fields in order when there are several |
| `ChartMetadata.LineFilled` | frontend-dashboard/src/hooks/useAnalytics.ts:169-209 | a line or area chart takes its axes in either spelling; else x is the first date text, the first text or xAxis, and y the first numeric field, count, or yAxis without rows |
| `ChartMetadata.StackedBarFilled` | frontend-dashboard/src/hooks/useAnalytics.ts:211-218 | a stacked bar chart takes its three fields in either spelling, and else their own names |
| `ChartMetadata.SetFieldsKept` | frontend-dashboard/src/hooks/useAnalytics.ts:33-218 | otherwise no field that was set is changed |
| `NameMigration.UpUndoesDown` | api-gateway-auth/src/migrations/1740697481045-combine-name-fields.ts:9-43 | rolling back and migrating again keeps every name |
| `NameMigration.DownUndoesUpExactly` | api-gateway-auth/src/migrations/1740697481045-combine-name-fields.ts:9-43 | migrating and rolling back keeps a row exactly when both parts are null or the first name is not null and holds no space |
| `NameMigration.UpJoins` | api-gateway-auth/src/migrations/1740697481045-combine-name-fields.ts:9-18 | both parts with a space between, or the one part there is, or null |
| `NameMigration.DownSplits` | api-gateway-auth/src/migrations/1740697481045-combine-name-fields.ts:34-43 | cut at the first space, the rest kept whole; no last name without a space |

## Left out

- SplitterRefinesScannerExactly: for texts without '#' in which every `$$` stands alone; `$$$` and text that uses the mark itself are not compared with the scanner.
- UpdateOrder: the notes, tracking number and time stamp that the same statement sets are not modelled; no modelled branch reads them.
- PruningUnobservable: for runs whose logouts are of tokens without a not-before claim that lies ahead; PruningUnobservableExactly and LoggedOutStaysOutExactly have the exact conditions.
- CheckAndReserveStock: 32-bit truncation of the reported quantities is not modelled.
- TransformTransactionVolumeData: rows are keyed by `hour`; other x-axis fields, label formatting and text values are not modelled.
- Concurrent cancellation: the old status is read outside the transaction, so cancelling is a step of the sequential store only.
- `update_order`, `update_order_item`, `delete_order_item` and deleting items: they change orders or items without touching stock.
- The gRPC inventory check, event publishing and the release of reservations inside the order service: best-effort network calls whose failures are only logged.
- Missing products in `create_order`: the foreign key on order items may refuse the insert before the update finds no row; either way nothing is stored, and the model shows the second.
- Answers of the dashboard's `validateToken` after a network error (it answers true and stores nothing).
- Loss of the invalidated set on restart, signatures and password hashing.
- Calendar, time zone and daylight-saving detail of the period starts.
- Random order contents of the producer, RabbitMQ set-up, configuration, routes, metrics and generated code.
- Machine-learning code, feature engineering and the prediction cache: their behaviour lies in libraries.
- React, Vue and Astro components, chart drawing, mock data and the CRUD services: they would add only easy members.
