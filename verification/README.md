# Verified model of p300's bookkeeping

p300 runs a fleet of paper-trading bots over one SQLite file, feeds it with market
data from several venues, and draws charts from it. This project models the part of
it that must keep books: a trade ledger, time-series tables, chart folds, a process
registry, a tick log, backups and two table repairs. Each is proved correct over every
input, run or schedule. `dafny verify dfyconfig.toml` checks the whole project.

Prices, quantities and money are reals; stamps are integers (epoch seconds, or
milliseconds for the one-minute table). A SQL table is a map or a sequence with its key
constraint; a transaction is one step, except where the code reads outside it, which is
then several steps that interleave. A venue is a list of rows that answers range
queries. A nullable column is an `Option`.

## Layout

- **The ledger.** `TradeLedger` has the rows, the events and each operation as a
  function; `PaperLedger` performs the same operations in place. `LedgerEffects` says what
  each writes, column by column, without the functions that compute it; `LedgerLaws` proves
  what one operation keeps, `LedgerRuns` lifts it to every run, `CashFlow` relates
  booked P&L to the cash of the fills, `CloseRace` interleaves closers that read
  without a lock, `TradeIdentity` covers the text forms of ids and keys. `GrossBudget`
  and `FixedRisk` add the two sizing rules on top of the ledger's open.
- **Gaps, pages and healing.** `Prelude`, `GridMath` and `SortedSets` are shared.
  `Gaps` finds and counts missing stretches, `RowAccounting` classifies them, `Backfill` fills them,
  `NullRepair` re-fetches incomplete bars, `PageWalk` and `BackwardPages` are the
  refreshes of the other feeds.
- **Folds.** `Profile` (delta by price), `BarFolds` and `Flow` (bars, carried series,
  incremental fetches), `BarTallies` and `FlowReadings` (what a bar and a line show, in the
  stored rows), `Resample` (5s bars), `AggBins` (trade tiers).
- **Processes and the log.** `Heartbeat`, `TickLog`.
- **Retention and repair.** `Retention`, `MinuteRepair`, `OiRestamp`.

Where the code changes an object or a table step by step the model is a class or a
method with loops, proved against a function or a predicate; the laws are lemmas about
that function or predicate.

## What the code does not give

Each has the exact condition, or a concrete case, as a lemma.

- A resize keeps booked P&L equal to cash flow except when its booking branch is
  skipped: a reduction with no positive basis, or an increase that leaves the quantity
  at or below zero (`CashFlow.ScaleConservesIff`, `CashFlow.OversoldLeaks`). The fee of
  an increase is never booked.
- `apply_scale` reads the row before its transaction and does not look at the number of
  rows its UPDATE changed: it breaks the ledger exactly when the row was closed or
  resized in between (`CloseRace.StaleResizeIff`). An unlocked close does so exactly when
  the quantity or realized P&L it read is no longer current (`CloseRace.StaleCloseIff`).
  Two writers that do: `CloseRace.TwoResizesBreak`, `CloseRace.ResizeAndCarryCloseBreak`.
- The idempotency key joins its fields with `|` and does not escape it. It names one trade
  exactly when sleeve, asset and time hold no bar and the variant has none before a part
  that could be a sleeve (`TradeIdentity.KeyIdentifiesIff`, `TradeIdentity.BarsCollide`).
- A hole of one bar at the floor is not reported (`Gaps.OneBarHeadIsSilent`).
- The Coinbase refresh is complete because its 6 hour window fits in a page; a window as
  long as a page would miss the newest boundary (`PageWalk.FullPageWindowMisses`). The
  Coinalyze chunks skip a stamp for sub-hour intervals (`PageWalk.SubHourChunksMiss`).
- After an outage the CoinDesk refresh heals exactly when no missing bar is older than
  its lookback (`BackwardPages.RefreshHealsIff`).
- `/api/flow` with `after` does not always equal the tail of the full fetch. It does
  exactly when the stored rows and open interest around the first bar meet a condition
  (`Flow.IncrementalIff`); a long hole before it (`Flow.HoleIff`) and a daily bar cut by
  the window (`Flow.DailyFirstBarDiffers`) can break it.
- A second run of the open-interest restamp is accepted exactly when a block row is left
  an hour or more after the seam and the first of them has a close
  (`OiRestamp.SecondRunIff`), and its backup replaces the first
  (`OiRestamp.RevertAfterTwo`). Without a row at the hour before the seam the restamp
  fails while printing, before anything is written; the model answers `Crashed`.

## Model

| member | source | states |
|---|---|---|
| `PaperLedger.Ledger.NextSjId` | strategies/trades.py:71-84 | the id minted is one above the largest stored number, 1 on an empty table |
| `PaperLedger.Ledger.FindKey` | strategies/trades.py:217-228 | finds the row that holds an idempotency key, and reports none exactly when no row does |
| `PaperLedger.Ledger.RecordAdjustment` | strategies/support/trade_adjustments.py:85-159 | appends the event at the trade's next seq, or returns false and changes nothing when (trade, date, type) is taken |
| `PaperLedger.Ledger.OpenPaperTrade` | strategies/trades.py:185-293 | in place equals the open of the specification: one row and one OPEN event per key, with the sleeve in upper case in key and row, the holder's id on a repeat, nothing when the bot stands down |
| `PaperLedger.Ledger.ApplyScale` | strategies/trades.py:657-743 | in place equals the resize of the specification; a refused duplicate leaves both tables as they were; row and ledger keep agreeing |
| `PaperLedger.Ledger.ApplyLeverageAdjust` | strategies/trades.py:746-799 | the same for a leverage change |
| `PaperLedger.Ledger.ApplyFlip` | strategies/trades.py:802-914 | the same for a flip: the old leg closed and the new row opened in one transaction, or nothing |
| `PaperLedger.Ledger.PersistCloseRow` | strategies/trades.py:372-454 | closes an open row and books its CLOSE event once; on any other row it changes nothing and says so |
| `PaperLedger.Ledger.ClosePerpTrade` | strategies/trades.py:474-581 | the locked close, with its exit-time refusal |
| `PaperLedger.Ledger.CloseCarryTrade` | strategies/trades.py:584-651 | the carry close |
| `LedgerLaws.AppendKeepsAgreement` | strategies/trades.py:421-448 | when appending one event leaves row and ledger in agreement: quantity and realized P&L move by exactly the event's deltas |
| `LedgerLaws.NoEndWhileOpen` | strategies/trades.py:415-448 | an open trade's ledger holds no CLOSE and no FLIP, so the event that ends it is never refused as a duplicate |
| `LedgerLaws.ScaleLaw` | strategies/trades.py:693-741 | a resize keeps agreement, refuses a repeated day and type without a trace, and moves the cash-flow imbalance by the branch's leak only |
| `LedgerLaws.LeverageLaw` | strategies/trades.py:765-797 | a leverage change keeps agreement and moves no cash |
| `LedgerLaws.PersistCloseLaw` | strategies/trades.py:401-451 | a close keeps agreement, appends one CLOSE event, and changes nothing on a row that is not open |
| `LedgerLaws.ClosePerpLaw` | strategies/trades.py:492-571 | a perp close keeps agreement; its imbalance is the closing funding |
| `LedgerLaws.CloseCarryLaw` | strategies/trades.py:600-642 | a carry close keeps agreement; what separates it from the price fills is stated exactly |
| `LedgerLaws.OpenLaw` | strategies/trades.py:213-290 | an open keeps agreement and key uniqueness, returns the holder of a taken key, and otherwise mints a fresh largest id |
| `LedgerLaws.FlipLaw` | strategies/trades.py:843-911 | a flip keeps agreement, on both the closed leg and the new row |
| `LedgerLaws.FlipRows` | strategies/trades.py:880-911 | which rows a flip writes: the old leg and one new row with a larger id |
| `LedgerRuns.RunAgrees` | strategies/trades.py:276-290 | in every state reached by any sequence of operations the row and the ledger agree: quantities, realized P&L, final P&L, the last quantity, one OPEN first and one end last |
| `LedgerRuns.RunExtends` | strategies/trades.py:415-448 | over any run no row disappears, identities and keys never change and each ledger only grows at its end |
| `LedgerRuns.OpenIsIdempotent` | strategies/trades.py:213-290 | after any later operations a second open with the same key returns the first id and changes nothing |
| `LedgerRuns.NewIdsIncrease` | strategies/trades.py:71-84 | a newly minted id is above every id that was ever stored |
| `LedgerRuns.StepLeavesOthers` | strategies/trades.py:715-722 | an operation leaves every other trade and its ledger alone |
| `LedgerRuns.NewRowBalanced` | strategies/trades.py:276-290 | a row starts with its P&L equal to its cash flow |
| `LedgerRuns.StepMovesImbalance` | strategies/trades.py:693-722 | each operation moves the distance between booked P&L and cash flow by a stated leak |
| `LedgerRuns.RunMovesImbalance` | strategies/trades.py:693-722 | over any run that distance is the sum of the leaks |
| `LedgerRuns.PerpCloseIsLatest` | strategies/trades.py:500-530 | a perp close cannot be backdated: its event is the latest of its trade and not in the future |
| `LedgerEffects.OpenWrites` | strategies/trades.py:213-290 | in stored columns: a new key inserts one open row with the caller's variant, sleeve in capitals, asset, direction, times, price and leverage, at the size that capital, allocation and leverage multiply out to, and one OPEN event that buys or sells the whole of it; a taken key writes nothing |
| `LedgerEffects.ScaleWrites` | strategies/trades.py:693-741 | a resize is recorded exactly on an open row, for a real change and a day and kind not taken; it then writes the new quantity and size, the weighted basis of an increase or the profit of a reduction against the old basis less the fee, and one event with those numbers |
| `LedgerEffects.LeverageWrites` | strategies/trades.py:765-797 | a leverage change writes the new leverage and the notional at its price, and an event whose margin delta is the notional over the new leverage less the notional over the old |
| `LedgerEffects.ClosePerpWrites` | strategies/trades.py:335-360 | a perp close happens exactly on an open LONG or SHORT row at a time no earlier than its entry and its events and not in the future; its event charges fees and slippage on the current size, and books the profit of the whole position less that plus the funding; the row's percentage is that over the size |
| `LedgerEffects.CloseCarryWrites` | strategies/trades.py:600-642 | a carry close books the funding less fees and slippage, all on the entry size, and their net percentage |
| `LedgerEffects.FlipWrites` | strategies/trades.py:824-911 | a flip happens exactly on an open row that is not already that way; the old row is closed at the price less half the fee, and the successor has the other direction, the same quantity, leverage, asset and strategy, its parent's id and its own OPEN event with the other half |
| `CashFlow.RunSound` | strategies/trades.py:693-713 | well-priced operations on a set of trades keep their quantities non-negative and their bases positive over any run, whatever is done to the others |
| `CashFlow.BookedPnlIsCashFlow` | strategies/trades.py:335-360 | for every run whose opens, resizes, leverage changes, flips and perp close on one trade and those it was flipped from are well priced, LONG or SHORT, the closed trade's P&L is the signed cash of all its fills less the costs of reductions and of the close plus the closing funding; operations on any other trade are free |
| `CashFlow.BookedPnlOfAnyRun` | strategies/trades.py:335-360 | over any run, at any prices and with any operations, a closed trade's P&L is its cash flow less costs plus the sum of the operations' leaks, each a stated function of the row it met |
| `CashFlow.ScaleConservesIff` | strategies/trades.py:693-713 | one resize keeps that identity if and only if its booking branch is taken or the price makes the difference vanish |
| `CashFlow.OversoldLeaks` | strategies/trades.py:693-713 | a concrete resize that does not: a position sold below zero and partly bought back |
| `CashFlow.BasisIsWeightedAverage` | strategies/trades.py:699-709 | after an increase the basis is the quantity-weighted average of the fills and lies between them |
| `CashFlow.MarginsTrackNotional` | strategies/trades.py:724-737 | over any run in which a trade is opened or born of a flip and then only resized, among operations on other trades, its margin deltas add up to its current notional |
| `TradeIdentity.IdRoundTrip` | strategies/trades.py:71-84 | the number read back from SJ-NNNN is the one it was made from, at every width |
| `TradeIdentity.IdIs` | strategies/trades.py:71-84 | an id has four digits at least, and no zero before a longer number |
| `TradeIdentity.KeyIdentifiesIff` | strategies/trades.py:118-128 | no other trade shares a key if and only if sleeve, asset and time hold no bar and the variant holds none before a part that upper-casing leaves alone |
| `TradeIdentity.KeyIdentifies` | strategies/trades.py:118-128 | an unmistakable trade's key is shared by none that differs in variant, upper-cased sleeve, asset or time, whatever the other's fields hold |
| `TradeIdentity.BarsCollide` | strategies/trades.py:118-128 | a concrete pair: two variants and sleeves that a bar can be read either way make one key |
| `CloseRace.CloseRaceIsSafe` | strategies/trades.py:401-451 | in every interleaving of any locked and unlocked closers at most one wins, losers change nothing and lose to a winner, only a locked closer raises, and row and ledger agree at the end |
| `CloseRace.ExactlyOneCloses` | strategies/trades.py:401-451 | once every closer has finished and one did not raise, exactly one has won, every other lost or is a locked one that raised, and the ledger holds one CLOSE |
| `CloseRace.ClosedOnce` | strategies/trades.py:401-451 | one close adds its P&L once and leaves one CLOSE event in the whole ledger |
| `CloseRace.WinnerBooksOnce` | strategies/trades.py:492-571 | what a race leaves is exactly the winner's booking, one CLOSE event in all |
| `CloseRace.StaleResizeIff` | strategies/trades.py:715-741 | a resize from a row read earlier keeps row and ledger in agreement if and only if the row is still open with the quantity that was read |
| `CloseRace.StaleCloseIff` | strategies/trades.py:401-451 | a close from values read earlier keeps agreement if and only if they are still current |
| `CloseRace.StaleResizeWrites` | strategies/trades.py:693-741 | what a resize from a row read earlier writes: the columns computed from that read, with its realized P&L added to what the row holds by then, or only its event when the row has been closed |
| `CloseRace.SecondResizeBreaks` | strategies/trades.py:693-741 | of two resizes from the same read the second to be recorded always leaves row and ledger in disagreement |
| `CloseRace.CloseAfterResizeBreaks` | strategies/trades.py:600-642 | and so does a close from a read that a resize has overtaken |
| `CloseRace.TwoResizesBreak` | strategies/trades.py:693-741 | concretely: 1 grown to 2 and then, from the old read, set to 0.5 |
| `CloseRace.ResizeAndCarryCloseBreak` | strategies/trades.py:600-642 | concretely: a carry close priced before a growth |
| `GrossBudget.SizedIsOpened` | bots/r4/runner.py:96-123 | the resized intent multiplied out by the ledger's open gives back exactly the capped notional, within the budget and at least the minimum |
| `GrossBudget.SizedAs` | bots/r4/runner.py:96-123 | a fifth of the capital at the sleeve's leverage capped at 7.5, or what is left of three times the capital when that is less, and nothing under 250; the sleeve's leverage is kept when the budget does not bind |
| `GrossBudget.FireKeepsBudget` | bots/r4/runner.py:104-123 | one fire keeps the open notional within the budget |
| `GrossBudget.GrossNeverExceedsBudget` | bots/r4/runner.py:271-282 | after any schedule of ticks, fires and closes the variant's open notional is at most GROSS_MAX_X times capital, or what it was at the start |
| `GrossBudget.OpenGrossUsdt` | botlib.py:799-813 | the scan returns the sum of the open sizes of the variant |
| `GrossBudget.FireOnce` | bots/r4/runner.py:104-123 | sizes one fire against the ledger in place and opens it when anything is left |
| `GrossBudget.EntryLoop` | bots/r4/runner.py:271-282 | the entry loop of a tick: each fire is sized against what the earlier ones left; the ids returned are those of the fires opened, in order, and the exhausted ones exactly those sized to None |
| `GrossBudget.FireBooked` | bots/r4/runner.py:271-291 | a fire with an id has the trade with its own key in the ledger at the end of the loop; a fire without one found less than the minimum left of the budget by the fires before it |
| `GrossBudget.FireWrites` | bots/r4/runner.py:271-291 | a fire's row has the bot's variant and the fire's sleeve, asset, direction, price and time, at the notional and leverage it was sized to |
| `FixedRisk.OpenedAtNotional` | botlib.py:771-784 | the leverage returned makes the ledger open exactly the sized notional |
| `FixedRisk.SizedIff` | botlib.py:771-784 | sized exactly when there is a capital and a stop away from a positive entry; the notional times the stop distance is the risked share of capital, or the notional is the cap and that product less |
| `FixedRisk.StopLosesFixedR` | botlib.py:758-784 | opened at the entry and closed at the stop, a trade loses exactly the risked share of capital, LONG or SHORT, and strictly less exactly when the cap binds |
| `Gaps.FindGaps` | data/sources/binance.py:464-509 | the query and its three additions return the windows of the specification |
| `Gaps.InteriorExact` | data/sources/binance.py:476-490 | the interior windows cover exactly the absent grid stamps between the first and the last |
| `Gaps.GapsExact` | data/sources/binance.py:464-509 | a grid stamp is covered exactly when it is to be filled: absent inside, after a stale tail, before a late head |
| `Gaps.GapsDisjoint` | data/sources/binance.py:464-509 | the windows are in order, non-empty, disjoint and start on the grid |
| `Gaps.MissingCountExact` | data/sources/binance.py:512-513 | the count is the number of grid stamps the windows cover |
| `Gaps.OneBarHeadIsSilent` | data/sources/binance.py:503-509 | a hole of one bar right at the floor is never reported |
| `RowAccounting.SplitKeepsCount` | health.py:107-113 | however the known windows split the gaps, fillable and unfillable rows add up to the missing ones |
| `RowAccounting.UnfillableIff` | health.py:354-384 | a gap is unfillable exactly when every stamp of it lies in one and the same known window |
| `RowAccounting.RowsAccountedFor` | health.py:354-384 | stored + fillable missing + unfillable missing = (last - first) / cadence + 1 |
| `RowAccounting.NoGapsIff` | health.py:354-384 | there is no gap if and only if the stored rows number what is expected |
| `RowAccounting.Classify` | health.py:420-449 | the classification loop computes exactly that split |
| `Backfill.FetchExact` | data/sources/binance.py:594-633 | a page holds every row of the range up to its last one, and the whole range when it is not full |
| `Backfill.NoRowSkipped` | data/sources/binance.py:610-625 | with the venue on the grid no row lies between a page and the next cursor |
| `Backfill.Table.FillGap` | data/sources/binance.py:594-633 | walking one window page by page terminates, writes only venue rows inside it, and stores all of them when no request from inside the window fails |
| `Backfill.Table.FillAll` | data/sources/binance.py:594-633 | the same for all windows: every venue row of a window in which nothing fails is stored, whatever fails in the others |
| `Backfill.Table.BackfillKlines` | data/sources/binance.py:813-860 | a backfill stores every venue row of the detected windows in which no request fails, so all that was to be filled when none does, leaves every other grid row as it was, and returns the number of rows it wrote: all that were to be filled when nothing fails, never more |
| `Backfill.StoredIsNotToFill` | data/sources/binance.py:464-509 | a stored stamp is never one to fill, so a backfill overwrites no grid row |
| `NullRepair.RangesExact` | data/sources/binance.py:697-718 | the ranges cover exactly the stamps with null taker volumes |
| `NullRepair.RangesShape` | data/sources/binance.py:697-718 | the ranges are in order, disjoint and on the grid |
| `NullRepair.RangesCount` | data/sources/binance.py:738-741 | the expected row count is the number of null rows |
| `NullRepair.Table.FindNullRanges` | data/sources/binance.py:697-718 | the start/prev loop computes the ranges |
| `NullRepair.Table.UpdateNulls` | data/sources/binance.py:757-776 | a page changes only null rows, each into the venue's bar |
| `NullRepair.Table.FillRange` | data/sources/binance.py:745-784 | one range in which no request fails, walked to its end, has every null row the venue holds there cleared |
| `NullRepair.Table.Repair` | data/sources/binance.py:721-792 | the whole repair touches null rows only, its ranges cover exactly the null rows, it fills all that the venue has in every range where no request fails, and reports the number of rows that went from null to filled |
| `PageWalk.WalkCompleteIff` | data/sources/coinbase.py:139-150 | a paged walk asks for every grid stamp of its range if and only if it starts on the grid or ends before its first miss |
| `PageWalk.FirstMissIsMissed` | data/sources/coinbase.py:139-150 | the grid stamp between the first page of an unaligned walk and its second is asked for by no page |
| `PageWalk.Pull` | data/sources/coinbase.py:139-150 | the cursor loop stores every grid row of the pages it asks for and touches nothing else |
| `PageWalk.RefreshWalkComplete` | data/sources/coinbase.py:153-175 | a start off the grid always fits in one page, for windows shorter than a page |
| `PageWalk.RefreshAsset` | data/sources/coinbase.py:153-175 | after one refresh every hour boundary the venue holds, of the trailing hours and of all that follows the last stored bar up to now, is stored, and nothing else is touched, off-boundary rows included |
| `PageWalk.OutageInRange` | data/sources/coinbase.py:165-175 | every boundary after the last stored bar lies in that range, whatever the outage |
| `PageWalk.FullPageWindowMisses` | data/sources/coinbase.py:153-175 | a trailing window as long as a page misses the newest boundary whenever now is off the hour |
| `PageWalk.LimitNeverTruncates` | data/sources/binance_quarterly.py:212-232 | grid rows of a range never exceed one more than its whole steps, so such a limit cuts nothing |
| `PageWalk.QuarterlyLimitSuffices` | data/sources/binance_quarterly.py:212-232 | the explicit limit of a page never truncates it |
| `PageWalk.QuarterlyPage` | data/sources/binance_quarterly.py:212-232 | one limited request returns every venue row of its span |
| `PageWalk.RefreshSeries` | data/sources/binance_quarterly.py:196-234 | the same for the quarterly series, each page under its explicit limit |
| `PageWalk.LiqChunksComplete` | fetch_coinalyze.py:342-406 | each span starts on the grid or fits one chunk, for the hourly and coarser intervals |
| `PageWalk.SubHourChunksMiss` | fetch_coinalyze.py:342-406 | with a sub-hour interval the chunks of the rolling window skip a stamp |
| `PageWalk.FetchLiquidations` | fetch_coinalyze.py:304-416 | every closed bar of the spans that the source holds is stored; the aged-out span is reported |
| `PageWalk.TrailingSpanReaches` | fetch_coinalyze.py:342-371 | the spans reach every closed bar after the last stored one that the source still keeps |
| `PageWalk.SpansAre` | fetch_coinalyze.py:342-376 | the stamps pulled are all closed ones the venue still serves for an empty table, else those from two bars before the newest stored one on, and in the daily series those before the oldest |
| `PageWalk.LostIs` | fetch_coinalyze.py:361-372 | reported lost is what lies between the newest stored bar and the last whole bar before the day on which the venue's window starts |
| `BackwardPages.PaginateBackward` | data/sources/coindesk.py:149-210 | the backward walk only adds closed on-grid bars above the stored history, never overwrites, returns the true number of new rows, makes no more than its budget of requests, and is complete when the rows after the stored history fit the budget and none of the requests for them fails, however long the venue's history |
| `BackwardPages.FetchLiquidationsBackward` | data/sources/coindesk.py:270-287 | every bar added is a closed, well-formed bar of the lookback and, unless history is extended, later than all that was stored; every such bar of the venue is stored when the rows fit the 30 requests, or 60 for an extension, and none of them fails, and so for any lookback that fits |
| `BackwardPages.LookbackFits` | data/sources/coindesk.py:270-287 | a lookback of so many hours asks for at most two rows more, however long the venue's history |
| `BackwardPages.RefreshHealsIff` | data/sources/coindesk.py:270-287 | a refresh asks for every closed bar after the last stored one if and only if none of them is at or below the lookback floor |
| `Profile.PrefixIsBelowEdge` | dashboard/market.py:746-768 | the first m buckets of a bar hold exactly the part of its delta traded below the m-th edge |
| `Profile.DeltaConserved` | dashboard/market.py:746-768 | for any bars, degenerate ones included, and any number of buckets the buckets add up to the total taker delta |
| `Profile.KidxHolds` | dashboard/market.py:741-745 | the clamped index of a price is the bucket that contains it |
| `Profile.OutsideIsZero` | dashboard/market.py:754-757 | the buckets the loop skips would receive nothing |
| `Profile.AddBar` | dashboard/market.py:749-757 | the inner loop adds each bucket its share of the bar and no more |
| `Profile.Accumulate` | dashboard/market.py:746-757 | the bar loop fills every bucket with the sum of its shares, and the total with the sum of deltas |
| `Profile.ProfileBars` | dashboard/market.py:734-768 | price range, width, buckets, last price and largest bucket of the bars |
| `Profile.RangedIs` | dashboard/market.py:736-773 | lowest and highest price and last close are those of the stored rows that have all four numbers |
| `Profile.UsableIs` | dashboard/market.py:736-758 | the n-th row with all four numbers is the n-th bar: its own range and close, and bought less sold |
| `Profile.DeltaIsNet` | dashboard/market.py:756-759 | the total is all that was bought less all that was sold in those rows |
| `Profile.ProfileRows` | dashboard/market.py:715-777 | the endpoint: a bad window refused, empty exactly when no row has all four numbers, else the total bought less sold, the price range and the last close of the stored rows, and the buckets of their bars |
| `Profile.ShownAddUp` | dashboard/market.py:758-768 | the buckets returned add up to the total returned |
| `BarFolds.FoldGroups` | dashboard/market.py:169-200 | on ordered rows the loop yields one bar per key, in order, each the tally of exactly the rows with that key |
| `BarFolds.FoldSplits` | dashboard/market.py:169-200 | a fold of two stretches that share no bar is the two folds side by side |
| `BarFolds.FoldRows` | dashboard/market.py:169-205 | the loop with its current bucket, and the pops of unfinished ones, computes the fold whose bars TallyIs describes |
| `BarTallies.TallyIs` | dashboard/market.py:169-200 | every bar has rows and counts them: its delta is bought less sold over those with both sides, marked incomplete exactly when one lacks a side, its close the last row's; and the same three of the spot rows at those stamps |
| `BarTallies.RowHasBar` | dashboard/market.py:180-188 | every row is in a bar that spans its stamp |
| `BarFolds.PopUnfinished` | dashboard/market.py:202-205 | popping from the end keeps exactly the finished bars of an ascending list |
| `BarFolds.CandleRows` | dashboard/queries.py:776-797 | the candle loop, with its pops, computes the candles of its fold |
| `BarFolds.CandleGroups` | dashboard/queries.py:776-797 | on ordered rows there is one candle per bar that has rows, in order, each made of exactly its rows |
| `BarFolds.CandleIs` | dashboard/queries.py:776-797 | a candle's open is its bar's first row's, its high and low the greatest and least of its rows, its close the last row's |
| `BarFolds.TimesMatch` | dashboard/queries.py:757-801 | from the same rows the flow fold and the candle fold have exactly the same bar times |
| `Flow.AttachedIsNewest` | dashboard/market.py:208-227 | a bar carries the newest value of its validity window, and nothing if and only if the window is empty |
| `Flow.AttachAll` | dashboard/market.py:208-227 | the bisection per bar finds that value among those a fetch reads |
| `FlowReadings.LineReads` | dashboard/market.py:473-499 | each line in stored terms: the sums of its bar's rows, shown only when no part is missing, the spot-perp spread of the last closes, the newest open interest and funding still carried into it, the change of open interest from the line before, and the quadrant of the two moves past their thresholds; no unfinished bar is shown |
| `FlowReadings.RowIsShown` | dashboard/market.py:202-205 | every row read whose bar has ended is in a line |
| `FlowReadings.AfterIsTail` | dashboard/market.py:455-461 | an incremental answer is the lines from its bar on of a full fetch that starts earlier |
| `FlowReadings.Reaches` | dashboard/market.py:108-117 | open interest is carried for an hour, funding for eight, or for one bar when that is longer; an incremental fetch starts one carry and one bar earlier |
| `Flow.ReachWithinDay` | dashboard/market.py:108-117 | one day of lead-in covers both carries on every timeframe |
| `Flow.ShownAgree` | dashboard/market.py:468-499 | two fetches from any two starts agree from a bar on, except possibly in that bar's OI delta |
| `Flow.SuffixIff` | dashboard/market.py:455-499 | an incremental fetch differs from the full one in its first bar's OI delta or not at all |
| `Flow.IncrementalIff` | dashboard/market.py:455-499 | an incremental fetch equals the full one from its bar on if and only if, in stored terms, no bar is shown, or the first has no open interest, or the bar before it gives neither fetch, or both, a value to compare with; on every frame and for any holes |
| `Flow.IncrementalEqualsFull` | dashboard/market.py:455-499 | and it does whenever a stored row lies in the bars re-read before T and T is past the full fetch's first bar (on the daily frame: past a first bar cut by the window) |
| `Flow.HoleIff` | dashboard/market.py:455-499 | with no row re-read before T they agree if and only if no bar is shown, the first has no open interest, the full fetch reads no row before T, or it sees no non-zero open interest in the bar before T |
| `Flow.DailyFirstBarDiffers` | dashboard/market.py:453-461 | the daily exception is real: a concrete hourly feed where the two differ |
| `Flow.PanesLineUp` | dashboard/queries.py:734-754 | for the same request, full or incremental, flow lines and candles have the same times |
| `Flow.LineUp` | dashboard/market.py:473-497 | the line loop with its carried previous open interest computes the lines |
| `Flow.FlowLines` | dashboard/market.py:436-499 | the endpoint in both modes computes the lines that LineReads describes |
| `Resample.UnitsAgree` | data/sources/binance_klines_5s.py:97-109 | any moment from 1973 to 5138 reads as its second in s, ms, us and ns alike |
| `Resample.SummedAnyOrder` | data/sources/binance_klines_5s.py:174-182 | the sums of a bin depend only on the multiset of rows |
| `Resample.BarUnique` | data/sources/binance_klines_5s.py:151-182 | one bin's bar is fixed by its rows, in any order, when stamps are distinct |
| `Resample.OrderFree` | data/sources/binance_klines_5s.py:122-183 | with distinct stamps the bars are the same for every permutation of the file |
| `Resample.ParseAndResample` | data/sources/binance_klines_5s.py:142-183 | the one-pass loop yields for every bin the earliest open, highest high, lowest low, latest close and the sums |
| `Resample.RepeatedStampShowsOrder` | data/sources/binance_klines_5s.py:166-169 | with a repeated stamp the later line gives both the open and the close, so the order shows |
| `AggBins.AddTradeBins` | data/sources/binance_agg_trades.py:160-172 | one trade is added to exactly one bin, in one tier and side, and counted once |
| `AggBins.CoarseIsFine` | data/sources/binance_agg_trades.py:141-173 | in every column the trades of a coarse bin are those of its fine bins |
| `AggBins.TablesNest` | data/sources/binance_agg_trades.py:141-173 | on the resulting tables every column of a coarse row is the sum over the fine rows it spans, so 15m = sum of 1m = sum of 5m |
| `AggBins.ParseAndAggregate` | data/sources/binance_agg_trades.py:119-173 | one pass fills all bar lengths: one bin for every start with a trade, each column the sum of its trades |
| `Heartbeat.Process.Beat` | botlib.py:287-335 | one upsert: a beat reports a duplicate exactly when a different pid wrote the row since this process's own last beat, and stands the process down or up accordingly |
| `Heartbeat.ScheduleHistory` | botlib.py:287-335 | what the shared row and every process memory hold after any schedule with restarts |
| `Heartbeat.FlaggedIff` | botlib.py:287-335 | in every schedule a beat is flagged if and only if another process beat since its own previous one |
| `Heartbeat.StatusSays` | botlib.py:296-335 | the row says error exactly when the beat that wrote it was flagged, a restart lets a process enter again, and nobody else's flag changes |
| `Heartbeat.FirstBeatIsFree` | botlib.py:287-335 | a process that has just started is never flagged |
| `Heartbeat.ResumesBySecondBeat` | botlib.py:318-335 | once the others stop, a process is free again by its second beat |
| `Heartbeat.TurnsAreFlagged` | botlib.py:287-335 | two processes taking turns are both flagged from their second beat on |
| `TickLog.Recorder.RecordTick` | botlib.py:432-472 | one transaction counts every tick and stores those worth a row; a failed write leaves tables and memory as they were |
| `TickLog.StoredIff` | botlib.py:451-466 | a tick of a recording gets a row exactly when its status is not the last one this process committed for the variant, or it is not ok, or it signalled, opened or closed |
| `TickLog.NoStatusLost` | botlib.py:432-472 | over any run with restarts and failed writes every committed tick's status can be read from the log |
| `TickLog.StatusRecoverable` | botlib.py:432-472 | namely from the newest row of its variant at or before it |
| `TickLog.CountersExact` | botlib.py:432-472 | each daily counter is the number of committed ticks of its day, variant and status |
| `Retention.PruneThenAdd` | backup.py:75-94 | prune(prune(S) + {x}) = prune(S + {x}) |
| `Retention.NightlyIsOnePrune` | backup.py:75-94 | after any number of nights the survivors are one prune of all copies ever made |
| `Retention.NewestSurvives` | backup.py:82-93 | the newest copy always survives |
| `Retention.SurvivorsBounded` | backup.py:82-93 | at most keep_daily + keep_weekly unprotected copies survive, and at least keep_daily when there are as many |
| `Retention.KeepIsTop` | backup.py:84-86 | the last k of the sorted listing are the k newest, also for k = 0 |
| `Retention.BackupDir.Unlink` | backup.py:87-93 | the deletion loop removes exactly the copies that are neither kept nor protected |
| `Retention.BackupDir.Prune` | backup.py:75-94 | the directory afterwards is the pruned set, and the names returned are exactly those deleted, oldest first |
| `MinuteRepair.Database.FindMislabeled` | data/repair_minute_candles.py:59-78 | the audit lists exactly the proven clones, in order, and fails exactly when there is nothing to compare with |
| `MinuteRepair.ParseArchive` | data/repair_minute_candles.py:93-138 | the scan accepts an archive if and only if all of its stamps are in the month, increasing, and every requested minute is there, aligned and valid; it then returns exactly those |
| `MinuteRepair.Database.ReadReplacements` | data/repair_minute_candles.py:180-192 | read exactly when the archive of every month that has clones is sound: then one replacement for every clone that lies in a month, valid and as its archive lists it |
| `MinuteRepair.Database.PrepareRepair` | data/repair_minute_candles.py:165-213 | a stage covers exactly the clones, each with a valid, published and different candle; there is one only when there are clones, all in months whose archives are sound, and always then if no published candle equals its clone; the table is not touched |
| `MinuteRepair.JoinedIsHeld` | data/repair_minute_candles.py:245-249 | the join equals a list of rows if and only if the table holds all of them |
| `MinuteRepair.UpdatedExactly` | data/repair_minute_candles.py:251-253 | the update changes the staged minutes and no other, and neither adds nor removes a row |
| `MinuteRepair.Database.Replace` | data/repair_minute_candles.py:250-261 | the checks after the update: all of its changes are kept or all rolled back |
| `MinuteRepair.Database.ApplyRepair` | data/repair_minute_candles.py:216-266 | the transaction's answer and the table it leaves |
| `MinuteRepair.AllOrNothing` | data/repair_minute_candles.py:216-266 | the table is unchanged, or exactly the staged minutes are replaced, with the same rows and no clone left |
| `MinuteRepair.ReapplyIsNoOp` | data/repair_minute_candles.py:216-249 | an applied stage answers a second run with 0 and changes nothing |
| `MinuteRepair.ChangedOriginalRefused` | data/repair_minute_candles.py:245-249 | a single changed original refuses the whole repair |
| `MinuteRepair.NoCloneLeft` | data/repair_minute_candles.py:59-78 | replacing all clones leaves none and makes no new one |
| `MinuteRepair.PreparedApplies` | data/repair_minute_candles.py:165-266 | a stage applied to the table it was prepared from always succeeds and replaces every clone |
| `OiRestamp.DropsAtMostOne` | data/migrations/2026_09_19_oi_close_of_hour.py:147-156 | at most one row of an hourly block is dropped |
| `OiRestamp.DropIsSeam` | data/migrations/2026_09_19_oi_close_of_hour.py:147-156 | on hourly stamps the dropped row is the one at the seam, if there is one |
| `OiRestamp.ShiftedValues` | data/migrations/2026_09_19_oi_close_of_hour.py:142-156 | where every value is after the move: one hour earlier in the block, unchanged before the seam |
| `OiRestamp.NewestVacated` | data/migrations/2026_09_19_oi_close_of_hour.py:142-156 | nothing is left under the newest stamp |
| `OiRestamp.RevertRestores` | data/migrations/2026_09_19_oi_close_of_hour.py:102-112 | a revert right after a move restores the table exactly |
| `OiRestamp.RevertAfterWrites` | data/migrations/2026_09_19_oi_close_of_hour.py:102-112 | a later revert also restores it, whatever was written from the hour before the seam on |
| `OiRestamp.SecondRunIff` | data/migrations/2026_09_19_oi_close_of_hour.py:114-156 | a second run on an accepted table is accepted if and only if a block row is left an hour or more after the seam and the first of them has a close |
| `OiRestamp.AcceptedTwice` | data/migrations/2026_09_19_oi_close_of_hour.py:114-156 | a concrete table accepted twice |
| `OiRestamp.RevertAfterTwo` | data/migrations/2026_09_19_oi_close_of_hour.py:142-146 | and its backup replaces the first, so a revert then stops at the once-moved table, which is not the original |
| `OiRestamp.Store.Inspect` | data/migrations/2026_09_19_oi_close_of_hour.py:119-131 | the block checks in order: point snapshots, one hourly run, the row before the seam |
| `OiRestamp.Store.Move` | data/migrations/2026_09_19_oi_close_of_hour.py:142-156 | the transaction: backup, delete, insert or ignore, with true counts of moved and dropped rows |
| `OiRestamp.Store.Restamp` | data/migrations/2026_09_19_oi_close_of_hour.py:95-157 | the script's answer in every case, and no change unless it moved |
| `OiRestamp.Store.Revert` | data/migrations/2026_09_19_oi_close_of_hour.py:102-112 | the revert: refused on a live feed, failing without a backup, otherwise the block restored |

## Left out

- Floating-point rounding, `round()` in API payloads and non-finite numbers: money and prices are exact reals.
- HTTP clients, retries, rate limits, ZIP, CSV and XML parsing, checksums and API keys: a source is a list of rows that answers range queries, and parsed rows are the input.
- SQLite itself: tables are maps or sequences, transactions are steps, unique keys are refusals.
- The dashboard server, rendering, printed reports, alerts and Telegram.
- Strategy signals, stop resolvers, funding accrual and regimes: their results are parameters of an operation.
- Order ids, notes, regime, allocation and created_at columns of a trade, and the leverage_before/leverage_after columns of an event: no operation reads them back.
- PaperLedger.Ledger.OpenPaperTrade: the fallback on an IntegrityError after the pre-check is not modelled, because the pre-check and the insert are one write transaction.
- CloseRace.StaleResizeIff: the interleavings of a resize are stated for one stale read against any later state, not as a whole schedule; a flip's stale read is not modelled.
- CashFlow.BookedPnlIsCashFlow: stated for trades whose own operations are well priced (positive prices, reductions that do not go below zero); BookedPnlOfAnyRun covers every other run with its leaks, and ScaleConservesIff says exactly when one resize leaks.
- CashFlow.MarginsTrackNotional: margin deltas do not telescope through a leverage change, which moves collateral, or a close after a resize, which records the entry size, so the sum is stated for opens, flips and resizes.
- TradeIdentity.KeyIdentifiesIff: upper-casing is modelled on the letters a to z; other letters count as caseless.
- LedgerRuns.RunAgrees: starts from a database in agreement, so events without a row at ids not yet minted are assumed absent.
- Backfill.Table.BackfillKlines: when the table, the floor and the venue are not on one grid, the number returned is not specified.
- PageWalk.RefreshAsset: the last stored bar is not pulled again after an outage longer than the window, because the walk starts one bar after it; a bar stored while it was forming then stays as it was.
- NullRepair.Table.Repair: the row's other columns (quote volumes) move with the bar and are not separate fields; off the hourly grid the number reported is not specified.
- Flow.FlowLines: the thresholds of the label are a parameter; the tape, the squeeze gauge and the positioning tile are separate readings. The chart's start time is a parameter.
- BarFolds.CandleRows: prices of a candle other than its close are taken as non-null, as the comparisons in the code require.
- Profile.ProfileRows: the rows of the time window are the input.
- AggBins.ParseAndAggregate: bar lengths are distinct and positive, as every caller passes them.
- Heartbeat.FlaggedIff: heartbeats are atomic and come at strictly increasing times; two beats in the same second are not told apart by the code.
- TickLog.NoStatusLost: ticks of one variant come at distinct times, one process per bot; the compacted detail text is not modelled.
- Retention.BackupDir.Prune: one file per date; names that do not parse are not copies.
- MinuteRepair.Database.PrepareRepair: months are given as spans with their archives; downloads, the cache and the recovery file are not modelled, and nothing to repair is not told apart from a failure.
- MinuteRepair.PreparedApplies: assumes the quarter-hour table on its own 900 second grid.
- OiRestamp.Store.Restamp: the comparison with the archive only prints and is not modelled.
- The close sweep `close_due_trades`: it only calls other modules' closers in a loop.
- Freshness thresholds, alert branches, calendars and configuration: lookups and comparisons that keep no state.
