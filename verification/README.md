# Verified models of banbot

These Dafny modules model the parts of banbot whose correctness is hardest to see from the code, and prove what those parts
are for. Prices, amounts and rates are real numbers, timestamps are integers in milliseconds, and database tables are maps
from start time or id to row. `dafny verify dfyconfig.toml` checks everything.

* **K-line store** (`Bars`, `Rollup`, `RollupRuns`, `RollupGaps`): incremental rollup of minute bars to five and fifteen minutes
  and of hours to days. `KlineStore` updates its tables in place; the main results are that any run of contiguous insertions
  leaves the coarser tables equal to grouping the source from scratch, and which rows they lack when insertions leave gaps.
* **Holes** (`Spans`, `HoleScan`, `HoleMerge`, `HoleTable`, `HoleUpdate`): finding missing bars, taking out the times without
  trading, merging with the stored records and writing back, and the whole update.
* **Downloads** (`Series`, `Paging`, `DownPlan`): which ranges are fetched, and the pages they are fetched in.
* **Replay** (`KlineQuery`, `CursorState`, `KlineCursor`, `CursorRuns`, `StaleHours`, `Replay`, `BarFeed`): the batched cursor
  over a table, as a loader and as a state machine on values that determines which unfinished rows it meets; whole runs of reads;
  the merge of many cursors in the order of time and symbol; and the hand-over of finished bars.
* **Price path** (`PricePath`): the simulated path of the price inside a bar, the time at which an order is filled on it, and
  the bar that is left after that time.
* **Wallet** (`Wallet`, `Margins`, `Wallets`, `Withdrawal`, `WalletRuns`, `WalletSteps`): reservations, margins, profits and
  withdrawals of the contract wallet, each as an operation on objects tied to a function of the wallet's value; the books over
  whole runs; and the operations that carry out the steps of the books.
* **Orders** (`Orders`, `ExitAlloc`, `Surplus`, `ExternalFill`): cutting orders, exiting an amount from many orders, closing what
  the exchange does not hold, and spreading an outside fill.
* **Trades** (`TradeStream`, `TradeRuns`, `TradeDone`): the messages of the exchange about one order, reordered and repeated, and
  what they leave behind.

## Where the code and its intent differ

* Cutting an order copies its fees whole to the part (orm/ormo/order.go:935-952). The identity of the wallet therefore holds
  exactly up to the entry fees of the entered orders that were cut (`WalletRuns.LedgerIdentity`,
  `WalletRuns.CutFeeComesBackTwice`).
* The check of the final report subtracts neither those fees nor the withdrawals (opt/reports.go:252); `WalletRuns.FinalBalance`
  states by how much it is off.
* The last stretch of the price path is scaled by 1.3 in one direction of the calculation only, so that an order that waits for
  it is filled at another price (`PricePath.RoundTrip`, `PricePath.LateOrderMissesPrice`). A sell order that rests inside the
  first swing of a rising bar, and a trigger at the open of a falling bar, are filled later than the path first has their price
  (`PricePath.FirstHit`). With an earliest rate behind the swing an order skips the way back over it (`PricePath.FirstHitFrom`).
* On a falling bar, biz/odmgr_local.go:710 assigns the close to a variable that is not used afterwards, so that the high of the
  bar that is left is not lowered (`PricePath.DescentKeepsHigh`). The first swing may leave the bar (`PricePath.CutSound`).
* The pauses of an overnight market begin with the first day, whose hours after midnight are taken for a pause
  (`HoleScan.OvernightHeadIsMissed`).
* Hole records are compared by whole seconds (`HoleTable.CompareExactly`); the results on sorted input ask for whole seconds,
  which all time frames have.
* The recorded range of a table is the span of its bars (orm/kline.go:702-747), not of the downloads. A request whose ends have
  no bars is fetched again at these ends each time it is made (`DownPlan.RepeatExactly`, `DownPlan.EmptyEndsAreFetchedAgain`).
* The cursor queries with the unfinished bar (data/feeder.go:889), which comes along whatever the end of the query is; it is
  handed out later in place of the finished one (`CursorRuns.ReadsAreFinished`, `StaleHours.StaleHour`). A loader of hours that
  is read at the beginning of each hour hands out every second hour that way (`StaleHours.EverySecondIsStale`).
* When the first insertion that completes a bucket comes after a gap, the buckets before it that have bars are never grouped
  (`RollupGaps.DayIsLost`).
* A backward download whose range begins at or before time zero stops early (`Paging.FetchApiOHLCV`, `Paging.BarAtZeroIsLost`).
* An order without an amount makes what is left of an exit request zero by zero if nothing is left, and then all later orders
  exit (`ExitAlloc.RestExitsToo`, `ExitAlloc.MetRequestExitsAll`).
* `SetMargin` drops a negative frozen amount when it fails although profit covers the margin (`Wallet.MarginFailure`,
  `WalletRuns.FailureForgetsDebt`), and a wallet below zero is never liquidated (`Margins.LiquidationBySign`).
* Since a cut fills its part first, on the exit too, closing a surplus or applying an outside fill misses its amount when an exit
  is partly filled (`Surplus.OneFilledExactly`, `ExternalFill.FillMovesPosition`).
* A partial fill with a later time than the full fill keeps an order open, and so does a full fill whose type names a stop or
  take-profit order, unless it had waited for the order (`TradeRuns.ConvergesIff`, `TradeRuns.ConvergesIffWaiting`). An exit
  brought up by a stop order skips the older trade that brought it up (`TradeRuns.TriggeredExit`).
* The comment on an exit request says that an amount overrides the rate; the code prefers a proper rate (`ExitAlloc.Requested`).

## Model

| member | source | states |
|---|---|---|
| Bars.GroupMeaning | orm/kline.go:43-49 | Bars grouped over a time range have the open of the earliest, the close of the latest, the highest high, the lowest low, the total volume, and the extra column summed or taken from the latest bar |
| Bars.GroupNone | orm/kline.go:1013-1018 | A group is missing exactly when no bar starts in its range |
| Bars.TwoStep | orm/kline.go:31-40 | Grouping a finer table and grouping the result again gives the same bars as grouping once, with bars missing anywhere and for both ways of treating the extra column |
| Rollup.KlineStore.UpdateKLineRange | orm/kline.go:702-747 | The recorded range becomes the range of the stored bars widened by the given one; without bars the given one is recorded |
| Rollup.RangeHolds | orm/kline.go:702-747 | The recorded range encloses every stored bar and the given range, both of its ends are ends of one of these, and what was recorded before does not matter; an empty table records the given range |
| Rollup.KlineStore.RefreshAgg | orm/kline.go:990-1040 | A refresh writes the groups of the buckets from one frame before the start, or from the recorded stop, and records the range; nothing happens while the bucket is unfinished |
| Rollup.GroupedExactly | orm/kline.go:1013-1026 | The grouping query has a row for a bucket exactly when a bar of its range starts there, made of the bars of the range that do |
| Rollup.SkipsExactly | orm/kline.go:992-998 | A refresh does nothing exactly when no bucket ends within the changed times |
| Rollup.RefreshExactly | orm/kline.go:999-1026 | A refresh replaces the rows of the changed buckets, of the one before, and of all between these and the recorded range on either side, by the groups of their bars; rows before and behind that do not change |
| Rollup.ChooseJobs | orm/kline.go:937-953 | The tables to refresh are those fed by the table or by one chosen before, whose current bucket the insertion completes, finest first |
| Rollup.KlineStore.UpdateBigHyper | orm/kline.go:934-988 | The chosen tables are refreshed one after the other |
| Rollup.KlineStore.InsertKLinesAuto | orm/kline.go:574-626 | An insertion adds its bars, records the range and brings the coarser tables along; when a row of it exists already, all rows of its span are replaced by its bars; an empty or locked one changes nothing |
| Rollup.InsertedExactly | orm/kline.go:545-562 | Every bar of a batch is stored at its time; outside the span nothing changes, and inside a row at another time stays if and only if no time of the batch was stored |
| RollupRuns.InsertionStores | orm/kline.go:574-626 | After any insertion, with all its refreshes, the bars of the batch are stored and the rest of the table outside its span is as it was; without aggregation no other table changes |
| RollupRuns.RegroupSynced | orm/kline.go:990-1026 | Regrouping from the recorded stop, or earlier, brings a coarser table to the new aligned end, because the source changed only from there on |
| RollupRuns.RefreshLinked | orm/kline.go:990-1034 | One refresh keeps a table equal to the groups of its source up to the aligned end, with the recorded stop at that end |
| RollupRuns.CompletesNested | orm/kline.go:942-952 | An insertion that completes a bucket of the coarser frame completes one of the finer frame, so that the finer table is refreshed first |
| RollupRuns.AppendKeepsUpToDate | orm/kline.go:574-626 | A contiguous append keeps every dependent table equal to the groups of its source, on every bucket up to the aligned end and nowhere else |
| RollupRuns.RunKeepsUpToDate | orm/kline.go:574-597 | So does any sequence of contiguous appends |
| RollupRuns.MinuteRun | orm/kline.go:31-37 | After any such run of minute bars, the five and fifteen minute tables equal grouping the whole minute table from scratch |
| RollupRuns.HourRun | orm/kline.go:38-39 | The same for the daily table of hourly bars |
| RollupGaps.GappedRun | orm/kline.go:574-626 | After any run of insertions in time order, with gaps of any size, the table grouped directly from them holds exactly the groups of the buckets from one before the first completing insertion up to the end of the last completing one |
| RollupGaps.LacksExactly | orm/kline.go:990-1008 | A bucket that has bars and has ended lacks its row, if and only if it is before or behind those buckets |
| RollupGaps.ReachGrows | orm/kline.go:1000-1008 | Where they begin is settled by the first completing insertion, and their end never falls |
| RollupGaps.DayIsLost | orm/kline.go:997-1008 | An hour of the second day and then all of the fifth: whatever is inserted later, the second day never gets its row |
| HoleScan.FindGaps | orm/kline.go:757-781 | The gaps between stored bars, before the first one, and behind the last one if the last full frame is more than five frames later |
| HoleScan.GapsInExact | orm/kline.go:757-781 | A time is in a gap exactly when it is in the window, no bar holds it, and it lies before the last bar, or behind it and before the last full frame, which is more than five frames later; without bars every time of the window is |
| HoleScan.GapsInApart | orm/kline.go:757-781 | The gaps are not empty and do not touch, so that each is a longest stretch without bars |
| HoleScan.SubtractInPlace | orm/kline.go:801-827 | The loop that rewrites the current hole and steps back ends, and leaves the subtraction of the rest periods |
| HoleScan.SubtractExact | orm/kline.go:801-827 | The subtraction is the exact set difference |
| HoleScan.SubtractOrdered | orm/kline.go:801-827 | What is left is in order and does not overlap |
| HoleScan.RestPeriods | orm/kdata.go:900-918 | The loop over days and sessions lists the pauses between sessions |
| HoleScan.RestExact | orm/kdata.go:900-918 | A time is in a listed pause exactly when no listed session holds it, between the first listed time and the stop |
| HoleScan.RestIsNonTrading | orm/kdata.go:873-918 | For the full-calendar query the listed pauses are the non-trading times, if and only if the head of an overnight session on the first day is left aside |
| HoleScan.RestIsNonTradingByDay | orm/kdata.go:873-918 | Without overnight sessions they are the non-trading times, with no exception |
| HoleScan.OvernightHeadIsMissed | orm/kdata.go:900-911 | A concrete overnight market for which the hours after midnight of the first day are taken for a pause |
| HoleScan.SessionHoles | orm/kdata.go:863-919 | Always-open venues have no pauses, the others those of every day of the range |
| HoleScan.TradableExactly | orm/kdata.go:863-911 | A market that is always open or lists no sessions trades at every time, another one in its sessions, but for one that began on the day before the range |
| HoleScan.TradingHoles | orm/kline.go:757-827 | The gaps without the pauses, and whether there was any gap |
| HoleScan.MissingExactly | orm/kline.go:755-827 | The holes left after the subtraction contain a time exactly when it is in a gap and tradable, up to the end of the window |
| HoleScan.DropSmall | orm/kline.go:828-850 | For minute bars only, holes not wider than the venue's least width are dropped, in order, and nothing else |
| HoleScan.WideExactly | orm/kline.go:828-850 | A minute hole is kept exactly when the minute after as many missing ones as the limit is missing, too |
| HoleScan.DetectHoles | orm/kline.go:749-850 | The holes to record are those left after the subtraction, for minute bars the wide ones of them, in order |
| HoleMerge.MergeHoles | orm/kline.go:875-907 | The pass that extends and trims the records in place computes the fold of the merge step |
| HoleMerge.MergeNormal | orm/kline.go:875-907 | The merged list is in order, without empty or overlapping records, and touching neighbours differ in their flag, for any input |
| HoleMerge.MergeSound | orm/kline.go:875-907 | Every merged time is covered by an input with the same flag |
| HoleMerge.MergeComplete | orm/kline.go:875-907 | For input sorted by start, every time covered by an input is covered by the result |
| HoleMerge.MergeIds | orm/kline.go:877-904 | Every stored record is kept or deleted, exactly once |
| HoleMerge.MergeFixed | orm/kline.go:875-907 | Merging a merged list again changes nothing |
| HoleMerge.MergeMeaning | orm/kline.go:862-907 | All of the above together, for the whole list |
| HoleTable.CompareIsBefore | orm/kline.go:862-874 | For records on whole seconds the comparison is the order by start, with the confirmed holes first |
| HoleTable.CompareExactly | orm/kline.go:862-865 | On any starts the comparison puts one record before or level with another exactly when it comes first by start and flag, or starts less than a second later |
| HoleTable.SortHoles | orm/kline.go:862-874 | The sorted list has the same records, and is in the order by start and flag if they start at whole seconds |
| HoleTable.KHoleTable.Record | orm/kline.go:851-931 | Recording new holes keeps every time that a stored record or a new hole covers and adds no other, each recorded time has the flag of a row that held it or of the new holes, rows outside the window stay, and the rows written back are in normal form with distinct ids |
| HoleUpdate.UpdateKHoles | orm/kline.go:749-932 | After the update of a window a time is recorded exactly when it was recorded before or lies in a missing stretch that is wide enough, with the flag of an earlier row or of the update; a time newly recorded is tradable and without a bar, behind the last bar too if the last full frame is well behind it, and but for minute bars every such time is recorded; without any such time no row changes |
| HoleUpdate.MissingTimes | orm/kline.go:749-850 | Only tradable times without a bar are recorded, and apart from minute bars all of them, between and behind the bars |
| HoleUpdate.MinuteExactly | orm/kline.go:828-850 | At an always-open venue a missing minute is recorded, if and only if it lies in a stretch without bars that is one minute longer than the limit |
| Paging.WindowFits | orm/kdata.go:78-82 | The market has no more bars in a window than its number of whole frames, which is what the request asks for |
| Paging.TrimTail | orm/kdata.go:83-86 | After the tail is cut off, a page holds exactly the bars of its window |
| Paging.FetchPages | orm/kdata.go:72-97 | The windows go on from where the last one ended, and the loop ends when the range is used up, a request fails, or the next window of a backward range would begin at or before time zero |
| Paging.FetchApiOHLCV | orm/kdata.go:37-99 | The windows tile the range up to the aligned end without overlap, each of exactly a full batch unless it reaches the far end; no request is for more than a batch; without a failure the emitted bars are exactly those of the market in the range, each once, except for a backward range that begins at or before time zero, whose first part is lost |
| Paging.BarAtZeroIsLost | orm/kdata.go:77 | Every backward download of a range that holds a bar at time zero loses that bar |
| DownPlan.PlanDownload | orm/kdata.go:127-176 | The planned downloads and the span of the insert job, for every request and recorded range |
| DownPlan.PlanFillsHull | orm/kdata.go:127-176 | What is planned is exactly the part of the smallest interval around the record and the request that is not recorded; ranges do not overlap, and nothing is planned exactly when the record holds the request, the request ends by the listing, the symbol is combined or delisted, or there is no network |
| DownPlan.JobSpansPlan | orm/kdata.go:149-176 | The insert job locks the smallest span around the planned ranges, and only the range before the record is fetched backward |
| DownPlan.RecordIsSpan | orm/kline.go:702-747 | What is recorded after a download is the span of the stored bars, as the widening of the recorded range by the first and last new bar gives it |
| DownPlan.LoadedExactly | orm/kdata.go:125-177 | A request downloads exactly the finished bars of the market that lie between the record and its far ends; those of the record are not downloaded |
| DownPlan.StepKeeps | orm/kdata.go:113-305 | A request keeps the record free of missing bars and downloads no stored bar |
| DownPlan.RunLoadsOnce | orm/kdata.go:113-305 | Over any sequence of requests a bar is downloaded once if it comes to be stored and never otherwise, and no bar of the market is missing inside the record |
| DownPlan.RunCovers | orm/kdata.go:113-305 | After any sequence of requests every bar of every request that was not refused, finished when it was asked for, is stored |
| DownPlan.AgainExactly | orm/kdata.go:125-177 | A time that a request plans is planned again when the request is repeated, if and only if the reachable bars of the market do not lie on both sides of it |
| DownPlan.SettledExactly | orm/kdata.go:127-134 | Repeating a request plans nothing, if and only if reachable bars begin by its start and end at its stop or later |
| DownPlan.EnclosedStaysSettled | orm/kdata.go:125-177 | A time with stored bars on both sides is never planned by any later request |
| DownPlan.RepeatExactly | orm/kdata.go:125-177 | A request that is made n times plans a time of its first plan once if reachable bars enclose it, and n times if not |
| DownPlan.EmptyEndsAreFetchedAgain | orm/kdata.go:228-270 | A request of four minutes with bars in the two inner ones only: its ends are fetched again, and the record does not come to hold it |
| KlineCursor.TfKlineLoader.GetBar | data/feeder.go:762-768 | The bar at the reading position, or none before and after the reading |
| KlineCursor.TfKlineLoader.Reset | data/feeder.go:785-794 | The cursor is empty at the given time, or at the least timestamp for zero, and its series is the table |
| KlineCursor.TfKlineLoader.SetSeek | data/feeder.go:770-773 | The cursor stands before the first bar of the table at or after the given time; offset, cache and series are exactly those of a refill from there, with the unfinished bar of the query if that comes along |
| KlineCursor.TfKlineLoader.SetNext | data/feeder.go:861-903 | The position moves by one bar of the series read so far; inside the cache nothing else changes, behind it offset, cache and series are exactly those of a refill, which rows, batch size, end, clock and unfinished row determine |
| KlineCursor.TfKlineLoader.ReadTo | data/feeder.go:796-825 | Offset, cache, end and series are exactly those of the refills that the read goes through; the bars handed out are the run of the series from the position to the first bar that ends after the rounded-down time, or to where the reading ends; a forced read that is on time reaches all bars that end by then; without an unfinished bar the series is the table and the end bounds the reading too |
| KlineQuery.RowsOf | orm/kline.go:78-119 | The rows of a query are the bars, from the offset on, of every series that agrees with the table there, up to the end, the clock and the batch size |
| KlineQuery.RowsExactly | orm/kline.go:78-119 | A query finds the stored bars of its times, all of them or as many of the earliest ones as it asks for |
| KlineQuery.QueryOf | orm/kline.go:136-143 | A query goes on where the last one ended; the unfinished bar is put into the series, behind the rows, exactly when these lead up to it, at any end of the query, and otherwise the series stays as it was |
| CursorState.ReadKeeps | data/feeder.go:796-903 | Through all refills of a read the series stays in order and agrees with the table from the offset on, grows by at most the unfinished bar behind the position, and stays on time, or plain, if it was |
| CursorRuns.ReadsAreFlat | data/feeder.go:796-903 | After a seek, any sequence of forced reads with growing ends, none in the future, hands out, in order and each once, the bars of the series from the seek time that end by the last rounded-down end |
| CursorRuns.ReadsAreComplete | data/feeder.go:796-903 | A bar of the series is handed out exactly when it starts at or after the seek time and ends by the last rounded-down end |
| CursorRuns.SeekAndRead | data/feeder.go:770-825 | The loader itself, placed and read any number of times, is in the state of the plan after each read and hands out that flat list |
| CursorRuns.ReadsAreFinished | data/feeder.go:796-903 | For every table, batch size, seek, ends, clocks and unfinished rows: the reads hand out the finished bars of the table, if and only if no query meets an unfinished row, other than the finished bar, that ends by the last end; such a row is handed out |
| StaleHours.MeetsExactly | data/feeder.go:861-903 | A read up to the present frame or beyond meets the unfinished row, if and only if there is one, the reading has not ended, and the bar before that frame is stored and not read yet, for any batch size |
| StaleHours.SameHourReadsNothing | data/feeder.go:796-825 | Reading again up to the same hour leaves offset, cache, end and series as they were, whatever row has come by then |
| StaleHours.EverySecondHour | data/feeder.go:502-505 | A loader of hours that is read at the beginning of every hour meets an unfinished hour in exactly every second read |
| StaleHours.EverySecondIsStale | data/feeder.go:502-505 | When these rows differ from the finished bars, exactly every second of the hours handed out is one that was not over |
| StaleHours.StaleHour | data/feeder.go:770-903 | A loader of the hours nine and ten that is placed at nine o'clock at half past ten and read at eleven hands out the second hour as it was at half past ten |
| Replay.Seek | data/feeder.go:628-634 | A feeder that is placed for a replay is ready, with all bars of its table from that time on and before its end still to come |
| Replay.InsertFeeder | data/provider.go:387-402 | The binary-search insertion keeps the list sorted and adds exactly the feeder |
| Replay.SortFeeders | data/provider.go:404-412 | The sorted list has the same feeders in the order of next time and symbol |
| Replay.RunHistFeeders | data/provider.go:331-385 | Whatever the order of the feeders, the replay emits bars of the feeders in strictly increasing order of end time and symbol, each once; it goes on past no request to stop and no failed callback, finishes only when none is left, and a rebuild on a new version continues the same order |
| Replay.RunsAgree | data/provider.go:331-385 | Two complete replays of the same bars emit the same sequence, and of any two replays one is a beginning of the other |
| BarFeed.PairTFCache.OnStateOhlcvs | data/feeder.go:200-225 | The bars handed to the strategies, the bar kept back and the next new time, for every delivery |
| BarFeed.FinishedExactly | data/feeder.go:200-225 | Wherever a delivery in order begins and whatever is kept back, exactly the new bars among its own and an earlier one kept back are handed out, but for an unfinished last one |
| BarFeed.NothingTwice | data/feeder.go:200-225 | Over any deliveries of bars on the grid of the time frame, overlapping or repeated, what is handed out is in order and no time is handed out twice |
| BarFeed.NothingLost | data/feeder.go:200-225 | If every delivery goes on where the last one ended, every bar is handed out in its latest version, but for an unfinished last one |
| BarFeed.AlignedFeed | data/feeder.go:200-225 | Both hold for bars whose start times have one remainder by the time frame |
| BarFeed.WaitingStaysExactly | data/feeder.go:203-214 | The time of the bar kept back, if it is new, is handed out or still kept back, if and only if the delivery is empty, does not begin before it, or brings a bar of that time |
| BarFeed.EarlierDeliveryDropsBar | data/feeder.go:205-208 | A delivery that begins before the bar kept back and does not bring it again loses that bar |
| PricePath.ZigzagIsWay | biz/odmgr_local.go:676-718 | On each of the four stretches the interpolated price is linear in the distance covered, with slope one except on the last, which runs at 1/1.3 |
| PricePath.SimIsPath | biz/odmgr_local.go:645-726 | The simulated price at a rate is the price of the path at that share of its length |
| PricePath.Chosen | biz/odmgr_local.go:736-901 | The rate of an order stands for the distance at which one of the stretches passes its price; the last stretch is chosen only when the one before is too early |
| PricePath.RoundTrip | biz/odmgr_local.go:645-726 | Before the last thousandth, an order is simulated to fill at its own price, if and only if not all of this holds: the way back to the close is considered for it, the second stretch passes its price before the earliest rate, and the way back passes it later; without an earliest rate it always is; from the last thousandth on the fill is at the close |
| PricePath.LateOrderMissesPrice | biz/odmgr_local.go:765-901 | A limit order to sell at 15, not before half of the bar, is simulated to fill above 16 |
| PricePath.LateFill | biz/odmgr_local.go:658-660 | From 99.9% on the fill is at the close, which is off the price by at most a thousandth of the path |
| PricePath.FirstHit | biz/odmgr_local.go:765-901 | No earlier rate has the price of the order, except for a limit order to sell into the swing of a rising bar and a trigger at the open of a falling bar, and in those two cases an earlier rate does |
| PricePath.PassedUnfilled | biz/odmgr_local.go:765-901 | A bar and an order for each of the two cases |
| PricePath.FirstHitFrom | biz/odmgr_local.go:765-901 | From any earliest rate on, no rate before the chosen one has the price, except when the swing was over too early for the order and the path leads back over the price, or the order may not take the swing, and in these cases one has |
| PricePath.PassedOnTheWayBack | biz/odmgr_local.go:765-901 | A bar and a trigger for the first of these cases |
| PricePath.KeepsMinRate | biz/odmgr_local.go:765-901 | The rate is at or after the earliest one asked for, if and only if the last stretch considered passes the price after it |
| PricePath.WaitsExactly | biz/odmgr_local.go:740-765 | A trigger that is not filled at once has its price on the path, and waits exactly then if the swing stays inside the bar; a limit order waits exactly when the opening price is worse than its own |
| PricePath.FlatBar | biz/odmgr_local.go:740-770 | For a bar of one price every order that waits is dated to the middle and filled at that price, a limit order too that the price never reaches |
| PricePath.CutContents | biz/odmgr_local.go:728-734 | A cut bar opens at the simulated price, closes as before, lacks the volume of the part before it, and begins by the whole milliseconds of that part later |
| PricePath.CutWellFormed | biz/odmgr_local.go:728-734 | A cut bar has its open and close between low and high |
| PricePath.CutSound | biz/odmgr_local.go:645-734 | Every price from the cut on lies in the cut bar, if and only if the swing is over at the cut or stays inside the bar |
| PricePath.CutTight | biz/odmgr_local.go:645-734 | The low of a cut bar is still to come, and so is its high, if and only if the bar is not a falling one on its descent |
| PricePath.SwingLeavesBar | biz/odmgr_local.go:645-734 | On a rising bar whose swing goes beyond its high, the price is at one rate above the high, which the bar cut at its start keeps as its own |
| PricePath.SwingBeyondHigh | biz/odmgr_local.go:645-660 | A bar that closes where it opens, at its high, is such a bar |
| PricePath.DescentKeepsHigh | biz/odmgr_local.go:708-718 | On the descent of a falling bar the cut bar keeps the old high, although all prices to come stay below it |
| Wallets.ItemWallet.Used | biz/wallet.go:92-111 | The sum of all reservations and frozen amounts, or of the entry for everything where there is one |
| Wallets.ItemWallet.Total | biz/wallet.go:81-90 | The balance with all that is reserved and frozen, and with unrealized profit if asked for |
| Wallet.TotalIsLedger | biz/wallet.go:81-111 | With the withdrawals and the entries that an entry for everything hides, the total is the sum of the wallet |
| Wallets.ItemWallet.SetMargin | biz/wallet.go:127-183 | Success and the new wallet are those of the closed form: profit that is not used yet pays first, the balance pays the rest beyond what is frozen already |
| Wallet.MarginLedger | biz/wallet.go:127-183 | A margin keeps the sum of the wallet, except for the one loss stated; a success keeps the balance at or above zero, and a failure of an order with a frozen amount of zero or more changes nothing |
| Wallet.MarginFailure | biz/wallet.go:140-148 | A failing call changes the wallet exactly when unused profit covers the margin and the order has a frozen amount, which is then negative |
| Wallets.ItemWallet.SetFrozen | biz/wallet.go:194-225 | The frozen amount is set from the balance or the reservation if that side can pay the difference |
| Wallet.FreezeExactly | biz/wallet.go:194-225 | An amount can be frozen if and only if it is no more than what is frozen already, or that and the paying side reach it together; else nothing happens |
| Wallet.FreezeLedger | biz/wallet.go:194-225 | Setting a frozen amount keeps the sum of the wallet, and the balance at or above zero |
| Wallets.ItemWallet.Reset | biz/wallet.go:227-235 | Everything is emptied but what was withdrawn |
| Wallets.BanWallets.Get | biz/wallet.go:264-275 | The wallet of a coin, an empty new one if there was none |
| Wallets.BanWallets.CostAva | biz/wallet.go:285-311 | The cost is the amount, the whole balance if that is more than the least share of it, or refused; only the wallet of the coin changes |
| Wallet.AffordableExactly | biz/wallet.go:287-305 | An entry is paid if and only if its amount is available, may go negative, or the balance exceeds the least share of it; it gets what there is of the amount, and the balance is what is left of it, not below zero |
| Wallet.ReserveLedger | biz/wallet.go:306-309 | A reservation keeps the sum of the wallet but for an earlier one under the same key, which is forgotten |
| Wallets.BanWallets.ConfirmPending | biz/wallet.go:363-395 | A reservation is turned into an amount of another coin, or the same one, if it exists; for two coins or one |
| Wallet.TakeLedger | biz/wallet.go:378-387 | Using a reservation takes exactly the used amount out of the sum of the wallet |
| Wallet.GiveLedger | biz/wallet.go:388-393 | What is given adds to the sum; a frozen amount forgets the one under the same key |
| Wallets.BanWallets.Cancel | biz/wallet.go:402-430 | What is locked for an order goes back to the balance with the added amount |
| Wallet.ReleaseLedger | biz/wallet.go:402-430 | The sum of the wallet changes by the added amount only |
| Wallets.BanWallets.CutPart | biz/wallet.go:623-642 | A share of what one key locks moves to another key |
| Wallet.MovedSum | biz/wallet.go:630-640 | Moving a share keeps the sum of a map and of the two keys, and changes nothing between a key and itself |
| Margins.NeedExactly | biz/wallet.go:689-727 | Times the leverage the margin of a position is its nominal value, with exactly the loss added, if and only if the position loses against the price and its loss reaches the share of the margin beyond the least one |
| Margins.OnePosition | biz/wallet.go:689-738 | What the update of one filled position does to the wallet, in nominal value and leverage |
| Wallets.ItemWallet.Update | biz/wallet.go:673-739 | One update marks the profit, liquidates, or sets the margins of all filled positions in order, up to the first one the exchange cannot answer for |
| Wallets.ReportsExactly | biz/wallet.go:673-726 | It liquidates if and only if the positions lose more than 99% of the money in the wallet, or anything of an empty one, and else ends at the first filled position that loses and whose least margin is not known, if there is one |
| Wallets.UnfilledStays | biz/wallet.go:689-692 | Without liquidation only the keys of filled positions change what is frozen |
| Wallets.BanWallets.UpdateOds | biz/wallet.go:657-740 | The same on the wallet of the currency, the other wallets staying as they are; without orders all wallets forget their profit |
| WalletSteps.UpdateOrders | biz/wallet.go:657-740 | The update of the wallet object is the step of the books, over as many positions as it got through |
| Margins.LiquidationBySign | biz/wallet.go:679-687 | With money in the wallet it is liquidated exactly when the loss exceeds 99% of it; a wallet below zero never is |
| Margins.GreedyClosedForm | biz/wallet.go:689-738 | If no margin is refused, the profit spent is the smaller of the sum of margins and the profit above zero, the orders have the rest frozen, and the balance follows from the sums |
| Margins.OrderIsIrrelevant | biz/wallet.go:689-738 | Then neither depends on the order of the positions |
| Margins.CoveredInAnyOrder | biz/wallet.go:689-738 | If the balance covers what profit leaves of the sum of margins, and nothing negative is frozen, no margin is refused in any order of the positions, with the same balance and profit spent |
| Margins.ShortageDependsOnOrder | biz/wallet.go:733-737 | When money is short the order decides which position is refused |
| Wallets.BanWallets.EnterContract | biz/wallet.go:443-509 | The margin of a contract entry is reserved in the settlement coin |
| Wallets.BanWallets.ConfirmContractEnter | biz/wallet.go:511-527 | The reservation becomes the frozen margin less the fee |
| Wallets.BanWallets.ConfirmContractExit | biz/wallet.go:593-597 | The frozen margin is released with the profit and the entry fee |
| Wallets.EntryInValue | biz/wallet.go:443-527 | Times price and leverage the reservation of an entry is its amount at the average or market price, or its legal cost if it has no amount, and its margin is the amount at the price it is filled at |
| Wallets.EntryRoundTrip | biz/wallet.go:443-597 | Whatever was reserved, a filled entry takes its value divided by the leverage from the balance, all of it but the fee is frozen, and closing it gives that back with the profit and leaves no trace |
| Wallets.CostBuysMargin | biz/odmgr_local.go:297-304 | The amount that a reserved cost buys, at the price of the fill and with the leverage, has that cost as its margin |
| WalletSteps.FillEntry | biz/odmgr_local.go:275-340 | An entry that is reserved and filled at once by the wallet objects is the step of the books |
| WalletSteps.CloseOrder | biz/wallet.go:593-597 | Closing an order is that step of the books |
| WalletSteps.CutOrder | biz/wallet.go:623-642 | Cutting an entered order is that step of the books |
| Wallets.BanWallets.WithdrawLegal | biz/wallet.go:812-832 | Every coin is drawn by its share of the legal amount, at most to its balance |
| Withdrawal.WithdrawExact | biz/wallet.go:812-832 | With balances at or above zero the legal value falls by exactly the amount, but not below zero, every coin keeps the sum of balance and withdrawal, and other coins stay as they are |
| WalletRuns.StepBalances | biz/odmgr_local.go:275-374 | Every step of a run keeps the books balanced: the sum of the wallet is the initial amount, with the profits of the closed orders, without the entry fees of the open ones, with the fees copied by cuts, without what was forgotten |
| WalletRuns.RunBalances | biz/wallet.go:285-642 | So does every run from an initial amount; the copied fees are those of the entered orders that were cut |
| WalletRuns.CarefulStep | biz/wallet.go:285-642 | A step with a fresh key, a fee within the margin, and without liquidation forgets nothing; what is frozen stays at or above zero and belongs to entered orders |
| WalletRuns.LedgerIdentity | biz/wallet.go:285-642 | Over such runs the sum of the wallet is the initial amount with the profits of the closed and without the entry fees of the open orders, if and only if the fees of the cut orders sum up to zero |
| WalletRuns.FinalBalance | opt/reports.go:242-252 | When all orders are closed nothing is locked, balance and withdrawals are the initial amount with the profits and the copied fees, and the report's check is off by the copied fees less the withdrawals, over the initial amount |
| WalletRuns.CutFeeComesBackTwice | biz/wallet.go:623-642 | A run that opens, fills, cuts and closes one order without profit, and ends with one entry fee too much |
| WalletRuns.FailureForgetsDebt | biz/wallet.go:140-148 | An entry with a fee above its margin leaves a negative frozen amount, which a later failing call forgets |
| Orders.InOutOrder.HoldAmount | orm/ormo/order.go:120-129 | What is entered less what has left, zero if nothing is entered |
| Orders.InOutOrder.CutPart | orm/ormo/order.go:385-450 | The order becomes the rest and the new one the part, and the rest moves on by a millisecond so that its key differs |
| Orders.CutConserves | orm/ormo/order.go:385-450 | A cut splits amounts and fills of entry and exit exactly, the part filling up first; the exit goes along as far as it no longer fits the rest; the fees are written on both orders |
| Orders.ExitCutExactly | orm/ormo/order.go:385-450 | A cut that names an amount of the exit splits the exit by exactly that, the part filling up first, and both keep the reason |
| Orders.CutTags | orm/ormo/order.go:385-450 | A part without an exit is not marked as exiting |
| Orders.InOutOrder.SetExit | orm/ormo/order.go:287-329 | The first exit sets the reason; a new exit covers what is entered |
| Orders.ExitCovers | orm/ormo/order.go:287-378 | A new exit asks for all that the order holds and marks it, an exit that is there stays, a second one changes nothing, and closing at once leaves nothing |
| Orders.InOutOrder.LocalExit | orm/ormo/order.go:338-378 | Nothing is held any more afterwards |
| ExitAlloc.ExitOrder | biz/odmgr.go:702-722 | Below 99% a part of that share is cut off and exits whole, and the request then asks for all of it; otherwise the order exits itself and the request stays; the whole state of part and rest is given |
| ExitAlloc.TakeFrom | biz/odmgr.go:646-666 | An order gives what is left of the request below 99% of its amount, and its whole amount from there on, or when what is left is no number; the request falls by that, not below zero; an order without an amount gives nothing |
| ExitAlloc.TakeMatched | biz/odmgr.go:634-666 | The same when only filled amounts may leave, where the filled part comes first |
| ExitAlloc.Requested | biz/odmgr.go:542-557 | The amount asked for: a proper rate of all, all, or the amount |
| ExitAlloc.ExitOpenOrders | biz/odmgr.go:541-669 | The exited orders have, in order, the amounts that the allocation of the request takes from each order; an order that gives nothing stays as it was, and another one loses what it gives or exits whole; the amounts sum up to the allocation |
| ExitAlloc.NumberLostExactly | biz/odmgr.go:646-665 | What is left of the request stops being a number, if and only if the loop comes to an order without an amount when nothing is left |
| ExitAlloc.RestExitsToo | biz/odmgr.go:613-665 | From there on every closable order exits whole, although the request is met |
| ExitAlloc.MetRequestExitsAll | biz/odmgr.go:646-665 | A request for five of two filled orders of five, with an order without an amount between them, exits both |
| ExitAlloc.ExitBound | biz/odmgr.go:612-669 | For any orders and request, as long as what is left is a number, what is exited differs from the request, or from all that can leave, by at most 1% of a single order |
| ExitAlloc.FullExit | biz/odmgr.go:612-669 | A request that covers everything takes every order that can be closed, whole |
| ExitAlloc.RequestIsMet | biz/odmgr.go:541-669 | A rate below one exits its share of what is not exiting yet, whatever amount is given too, an amount itself, and neither of them all, each up to what can leave and within 1% of one order |
| ExitAlloc.DefaultExitsAll | biz/odmgr.go:542-557 | A request without rate and amount covers everything |
| Surplus.SyncLocalOrders | biz/odmgr_live.go:171-239 | After the loop the local orders hold the position and the surplus that is left; each order is closed, cut by the surplus at its turn, or as it was, as that surplus and what it holds tell; nothing changes if there is nothing to do or the newest order is too young; one closed order, which holds nothing, is reported for each order closed or cut |
| Surplus.CutHold | biz/odmgr_live.go:218-222 | A cut closes the surplus less the exit fills that go with the part, and what the order held is what part and rest hold |
| Surplus.CutIsExact | biz/odmgr_live.go:218-222 | It closes the surplus exactly, if and only if the exit has no fill or still fits the rest |
| Surplus.SurplusBound | biz/odmgr_live.go:196-234 | For orders of any sizes and fills the local total ends no lower than 1% of the surplus below the position, and no higher above it than 0.1% of the surplus, the dust of all orders, or the largest exit fill; without exit fills the first two bound it |
| Surplus.LeavesMoreExactly | biz/odmgr_live.go:196-234 | More than 0.1% of the surplus and the dust is left, if and only if some order is cut for which the exit fills that go with the part exceed, by more than that, what the later orders hold |
| Surplus.FirstCutExactly | biz/odmgr_live.go:208-222 | The first order that is cut is the first one that holds more than 1% above what the orders before it leave of the surplus, and it is cut by that |
| Surplus.OneFilledExactly | biz/odmgr_live.go:196-234 | With one partly filled exit, more than the bound is left, if and only if its order is the first to be cut and the exit fills that go with the part exceed, by more than the bound, what the later orders hold; a condition on amounts and fills alone |
| Surplus.PartlyFilledExitStays | biz/odmgr_live.go:218-222 | With a half-filled exit the whole surplus can stay |
| ExternalFill.TakesExactly | biz/odmgr_live.go:889-907 | An order takes all of a fill, or all that its exit still lacks, or without an exit all that it has entered, and never more than any of these |
| ExternalFill.TryFillExit | biz/odmgr_live.go:877-956 | The order, or the part cut off from it, carries the fill, its share of the fees and its time; the rest of the fill and the remaining share of the fees are returned |
| ExternalFill.FreshExit | biz/odmgr_live.go:905-950 | A part that is cut off for a fill without an exit is closed completely, and an order that is not divided exits for all of its entry |
| ExternalFill.FillMovesPosition | biz/odmgr_live.go:877-956 | The local position falls by the fill less the earlier exit fill that is written over |
| ExternalFill.WholeCloseIsNearlyComplete | biz/odmgr_live.go:891-905 | An order without an exit is divided exactly when the fill is below 99% of what it entered, and then takes all of the fill; closed whole it lacks at most 1% |
| ExternalFill.HalfFilledExitStays | biz/odmgr_live.go:930-937 | With a half-filled exit the fill of the other half leaves the local position as it was |
| ExternalFill.FeesStayProportional | biz/odmgr_live_exgs.go:46-58 | At every iteration the remaining fees are to the fees as the remaining amount is to the amount |
| ExternalFill.Distribute | biz/odmgr_live_exgs.go:46-58 | In their order the orders take what fits, up to the one at which the loop ends, and the others stay as they were; what they carry and what is left add up to the fill, with or without fees; if there is a fee, the fees add up too and every order pays in proportion to what it takes |
| ExternalFill.EndsExactly | biz/odmgr_live_exgs.go:46-58 | The loop ends as soon as less than the dust is left, or for the other loop no more than the dust |
| TradeStream.LiveOrder.UpdateByMyTrade | biz/odmgr_live.go:1319-1442 | The order after a trade, for every state and side, with the exit that a stop order brings up |
| TradeStream.LiveOrder.HandleMyTrade | biz/odmgr_live.go:1114-1185 | A trade that is done, whose order is, or whose type names a stop or take-profit order changes nothing; any other updates the order |
| TradeRuns.RunMonotone | biz/odmgr_live.go:1114-1282 | Whatever arrives, is taken up or is tried again, the update time of a side never goes back, and a closed side stays as it is |
| TradeRuns.Converges | biz/odmgr_live.go:1319-1442 | If the full fill comes to the order and is the latest trade of its side that does, every order of delivery with any repetitions ends with its amount, average, price, status and time, whatever stop-loss or take-profit is planned, and with any trades of the other side that do nothing there; an exit with a closed entry is finished and called back exactly once |
| TradeRuns.ConvergesIff | biz/odmgr_live.go:1114-1185 | Every delivery of arriving trades closes the side, if and only if the full fill is not ignored for its type and no partial fill that is not ignored is later than it |
| TradeRuns.ConvergesIffWaiting | biz/odmgr_live.go:1806-1835 | If trades may also have waited for the order, where types are not looked at, every delivery in which the full fill comes to the order closes it, if and only if no partial fill is later |
| TradeRuns.IgnoredFillIsLost | biz/odmgr_live.go:1157-1161 | A full fill that only arrives, and is of an ignored type, never closes the order |
| TradeRuns.LaterTradeLosesFill | biz/odmgr_live.go:1362-1375 | A later partial fill that comes to the order first keeps it open, whatever follows |
| TradeRuns.TriggeredExit | biz/odmgr_live.go:1348-1375 | An exit brought up by a stop order dates from the moment its first trade comes; a stream whose latest trade is the full fill closes it, finished and called back once, if and only if the full fill is not older than that moment |
| TradeRuns.FillsAreTotals | biz/odmgr_live.go:1375-1407 | After any run the amounts of a side are those it began with, or those of one delivered fill that is no later than the side; they are never added up |
| TradeRuns.LatestFillShows | biz/odmgr_live.go:1362-1407 | Of fills delivered in any order and with any repetitions, an open side shows the latest one that has come, with the amounts that it reports |
| TradeRuns.CancelledSide | biz/odmgr_live.go:1408-1417 | A cancelled or expired entry is closed with the amounts it has, and is entered if that is anything, else over, finished and called back once; a cancelled exit is closed and the order stays as it was |
| TradeDone.DoneExactly | biz/odmgr_live.go:1114-1161 | A delivery that is turned away changes nothing, and any other one marks its trade as done, also if the side skips it |
| TradeDone.FinishLeaves | biz/odmgr_live.go:1421-1441 | Every delivery finishes an order once, together with the callback, its exchange orders done and its stop orders forgotten, or leaves all of these alone |
| TradeDone.FinishIsFinal | biz/odmgr_live.go:1114-1161 | After that no trade of its entry or exit changes anything, until the lists are cleaned up |
| TradeDone.AmountStays | biz/odmgr_live.go:1375-1378 | Whatever is delivered, the amount of a side is taken over once and not changed any more |
| TradeDone.ExitIsDated | biz/odmgr_live.go:1382-1388 | The first fill of an exit dates it, and no other trade does |
| TradeDone.ExitBroughtUp | biz/odmgr_live.go:1348-1361 | The trade of a stop order at the exchange, and no other one, brings up an exit, for all that is filled of the entry, with the date of the fill or of that moment |

## Left out

- Networking, database sessions and their errors, locks, logging, configuration files and the user interface; each handler call
  is one atomic step, and calls into the database succeed.
- Bars that are not finished at the time of insertion (`updateUnFinish`, orm/kline.go:954-977), and the hole records of the
  coarser tables during a rollup; both are separate from the tables modelled here.
- Whole runs of the rollup with insertions that go back in time, of the second table of a chain after gaps, and after downloads,
  which pass the start of the last bar as the end of their range (orm/kdata.go:270); what a single refresh does is stated for all
  of them (`Rollup.RefreshExactly`).
- `utils.AlignTfMSecs` is not part of this repository; it is taken as rounding down to a multiple of the time frame.
- Floating-point rounding, overflow and the values beyond the finite numbers. Where the source divides by zero and goes on, the
  operation asks for a divisor that is not zero, except in `ExitAlloc` and `ExternalFill`.
- Wallets.BanWallets.WithdrawLegal: asks for a total that is not zero, which the only caller (opt/backtest.go:129-131) has
  checked; the source would write values that are no numbers.
- ExternalFill.TryFillExit: asks for a positive fill. Without a fee the source multiplies all later fees by zero over zero; the
  model then leaves them open.
- ExternalFill.Distribute: asks for a positive fill, and promises only the amounts when there is no fee.
- HoleTable.SortHoles: sorts by insertion, since the sorting algorithm of the library is not part of the repository; other starts
  than whole seconds have no order by this comparison.
- Surplus.SyncLocalOrders: takes the orders of one symbol and direction in any order, so that sorting them does not matter, and
  exits that succeed.
- ExitAlloc.ExitOpenOrders: takes the matching orders in any order; an exit that exists already has an amount. Setting take-profit
  orders instead of exiting (biz/odmgr.go:648-659) moves no amounts and is not modelled.
- ExitAlloc.ExitOrder: a part is only asked for of an order that has an amount; the part of another one is no number.
- Orders.InOutOrder.CutPart: leaves out the status, the cost and the texts of an order.
- DownPlan.RunCovers: each request runs to its end, and the exchange has all bars of the market; a download that ends with an
  error stores a part of them.
- KlineCursor.TfKlineLoader.ReadTo: one call sees one clock and one unfinished bar, and every bar that is over is stored.
- Replay.RunHistFeeders: reads the past, where every bar before the end is finished; a new version rebuilds the list from the
  same feeders, and a different set of feeders starts another replay.
- PricePath.RoundTrip: leaves out orders that are filled at once and bars of one price; see `PricePath.WaitsExactly` and
  `PricePath.FlatBar`.
- TradeStream.LiveOrder.HandleMyTrade: the words that mark stop and take-profit types belong to the exchange library, which is not
  part of this repository; they are parameters.
- TradeRuns.Converges: the time of the exit, the amount of an order that had none, and fees that the full fill does not carry depend
  on the first trades to arrive (`TradeDone.ExitIsDated`, `TradeDone.AmountStays`); cancelled and expired states read the filled
  amount before them (`TradeRuns.CancelledSide`).
- WalletRuns.StepBalances: an error between the reservation and the confirmation of an entry ends a backtest and is not a step.
- Spot wallets (`CostFrozen`, `ExitOd` and the spot branches of the confirmations): the entry fee is paid in the base coin while
  the exit deducts the full amount.
- Strategies, indicators, reports, factor adjustment (`ApplyAdj`) and the limit on open orders: they rest on code outside the
  repository or on rules that are simple to read.
- Cleaning the registries of trades and orders is modelled as forgetting any entries at any time, which is more than the source does.
