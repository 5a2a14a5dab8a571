# Shortfire ingest: a verified model

Shortfire ingests market data. This project models the logic of its ingest pipeline in Dafny
and proves what that logic promises over whole runs. Time is integer milliseconds (seconds for
the alerter and the dump calendar), prices and quantities are real numbers, a database table is
a map from its conflict key to its row.

| module | subject |
|---|---|
| `Store` | the one write path: staging, merge, first write wins |
| `LiveCandles`, `MinuteRuns`, `LiveLoop`, `TradeTape` | trades to one-minute candles, the buffered loops, the raw tape |
| `Grid`, `Rollup` | time buckets and the 5m/15m/1h/4h aggregates |
| `Backfill`, `Overrun`, `Rejects`, `ConcurrentBackfill` | paginated backfill, the end of its window, its rejects, its tasks under a semaphore |
| `Gap`, `Writers` | gap rows, all writers racing on one table |
| `DumpKeys`, `Retention`, `RetentionRuns` | dump names, the civil calendar, the retention sweep over runs, with faults |
| `KvState`, `RoundRobin` | the persisted cursor, round-robin fairness, crash and replay |
| `Universe` | daily snapshots, the symbol table, point-in-time queries, tiers |
| `Freshness` | the edge-triggered alerter |
| `Market` | row types and the order-book validators |
| `Sets` | sizes of finite sets |

Code that updates state in place is a class or a method here (the aggregator, the loops, the
hypertable and its staging table, the bucket, the run log, the cursor dict, the symbol table, the
alerter); each such method is proved against a function of the old state, and the theorems about
runs are about that function. Iteration over a Python set or dict whose order does not matter is
iteration in an arbitrary order. Widths, limits, thresholds, prefixes and flags are named once, and
the main results write them out in figures.

## Where the code differs from what is said about it

- `flag_gap` documents its result as the number of rows inserted, 0 if all conflicted. It is the
  size of the batch, which is the number inserted exactly when no grid point of the window had a row
  (`Gap.CountIsInsertedIff`, from `Store.InsertedCount`). A rerun of a backfill does insert 0 rows,
  as documented, but reports the size of its pages.
- A page made up only of invalid rows ends a backfill as if the data had ended. Coverage therefore
  holds under a condition, which is exact for full pages (`Backfill.CoverageExact`) and exact over
  all exchanges (`Backfill.CoverageForEveryExchange`).
- `until` is documented as exclusive, but a page request does not send it, so rows at or past it are
  written when the page that leads there contains them (`Overrun.UntilExample`).
  `Overrun.UntilRespectedIff` says exactly for which feeds and windows that cannot happen. At most one
  page of rows is passed (`Overrun.OverrunBounded`), and a whole page can be (`Overrun.WholePagePast`).
- A row can be dead-lettered twice (`Rejects.RejectedTwice`). A run rejects each row once exactly when
  every page that is followed by another one ends with a valid row (`Rejects.RejectedOnceIff`;
  `Rejects.RejectedOnceForEveryExchange` says for which feeds and windows that is so on every exchange).
- A trade that arrives after its symbol has left its minute re-opens the minute, and its candle is
  then dropped by first-write-wins. Streaming equals batch exactly when this never happens.
- `max(quality_flag)` does not carry the worst flag: `ok` sorts above `gap_detected`, and the zero
  sentinels of a gap row reach `min(low)`.
- Adjacent gap windows need not compose: they do exactly when every point on just one of the two
  grids has a row already (`Gap.FlagComposes`), as when the second window starts on the grid of the
  first. A gap row is never replaced by real data that arrives later.
- A sweep that raises is logged and swallowed. Sweeping the same bucket again makes up for it
  (`RetentionRuns.SweepResumes`), but the next sweep comes after a newer dump, and a promotion that
  was not copied by then is lost (`RetentionRuns.LostPromotion`).
- One name under `daily/` that does not parse and sorts highest stops retention for good
  (`RetentionRuns.StuckForGood`, `RetentionRuns.BoundedAfterSweepIff`).
- The listed symbols can be wrong after a missed day (stale symbols stay) and after two runs on one
  date with different tickers (a symbol just seen can stay delisted); the exact conditions are
  `Universe.SeenIsListedIff` and `Universe.ListedIsSeenIff`. They are also wrong after a run that
  raised between writing its snapshot and updating the symbols: its new symbols stay unlisted
  (`Universe.UnlistedForGood`, `Universe.AfterHalfStepIff`) unless a rerun on the same date repairs it
  (`Universe.RerunRepairs`).
- `recompute_tier1` documents that without candle data every symbol gets tier 2. It returns before both
  updates, so an old tier 1 stays (`Universe.NoDataKeepsFirstTier`); the promise holds exactly when all
  listed symbols had tier 2 already (`Universe.NoDataTierTwoIff`, `Universe.FirstTierWithinTopIff`).
- A dump that fails after its upload leaves a truncated object that takes up a daily place
  (`RetentionRuns.FailedDumpTakesPlace`).
- A delisted symbol with recent volume takes up a place among the top symbols
  (`Universe.FirstTierIsTop`).
- A gauge that is reset to zero, or disappears, is announced as recovered
  (`Freshness.RecoveredIff`, `Freshness.ResetIsRecovered`).
- A trade delivered twice is stored once in the tape but counted twice in the candles.

## Assumptions

- The exchange's rows for a symbol are at least one timeframe step apart; a page holds at most
  1000 of them, the earliest at or after the cursor, in order, and is empty only when there are none.
- The staging table is scanned in insertion order.
- Prometheus holds one sample per label combination.
- `strftime("%Y")` pads to four digits, also before the year 1000.
- Checks of the alerter do not overlap.

## Model

| member | source | states |
|---|---|---|
| `Rollup.EndToEnd` | src/shortfire/ingest/mexc/live_candles.py:71-213 | For every interleaving of symbols and every schedule of messages, failed receives and flushes, if no symbol's minutes go backwards, the roll-up of stored, buffered and open minutes over a bucket that held no rows before is first/max/min/last/sum of the trades of that bucket; the bucket has a row exactly when it had a trade |
| `Rollup.PublishedRollUps` | alembic/versions/0014_continuous_aggregates_5m_15m_1h_4h.py:64-108 | The four published widths, 300 000, 900 000, 3 600 000 and 14 400 000 ms: a bucket is shown exactly when its symbol traded in it, as the first, highest, lowest and last price and the total quantity of those trades, from mexc_native and ok, when no symbol goes back to an earlier minute |
| `Rollup.TwoStage` | alembic/versions/0014_continuous_aggregates_5m_15m_1h_4h.py:47-59 | Rolling up to one width and then to a multiple of it gives the same table as rolling up at once, for every table |
| `Rollup.RollMeaning` | alembic/versions/0014_continuous_aggregates_5m_15m_1h_4h.py:51-57 | A bucket has a row exactly when some row falls into it; its open and close come from the earliest and latest row, its high and low bound all rows and are attained, its volume is the total over its rows, its flag is the alphabetically greatest |
| `Rollup.RankIsAlphabetical` | alembic/versions/0014_continuous_aggregates_5m_15m_1h_4h.py:57-57 | The order of flags is the order of their stored texts |
| `Rollup.ViewConservesVolume` | alembic/versions/0014_continuous_aggregates_5m_15m_1h_4h.py:51-56 | The total volume of a roll-up is that of its source table: every row falls into exactly one bucket |
| `Rollup.LiveRolls` | alembic/versions/0014_continuous_aggregates_5m_15m_1h_4h.py:47-59 | Over any stretch of minutes absent from the starting table, the roll-up of the live candles is the bar of the trades themselves |
| `Rollup.GapShownOnlyIfAllGaps` | alembic/versions/0014_continuous_aggregates_5m_15m_1h_4h.py:57-57 | Exactly when a bucket shows gap_detected (every row is a gap row) and exactly when it shows ok; the flag is not the worst one of the bucket |
| `Rollup.GapHiddenExample` | alembic/versions/0014_continuous_aggregates_5m_15m_1h_4h.py:29-34 | A bucket with one traded minute and one gap minute is published as ok with low and close 0: the worst-flag claim of the migration's comment is false |
| `Rollup.GapReachesLow` | alembic/versions/0014_continuous_aggregates_5m_15m_1h_4h.py:54-54 | Any gap row pulls the low of its bucket to 0 or below |
| `Grid.FloorUnique` | alembic/versions/0014_continuous_aggregates_5m_15m_1h_4h.py:51-51 | The time bucket of a timestamp is the only grid point less than one width below it |
| `LiveCandles.MinuteAggregator.OnTrade` | src/shortfire/ingest/mexc/live_candles.py:71-111 | One trade: its symbol ends with an open bucket at the multiple of 60 000 ms that the trade falls into; a bucket is finalized, unchanged, exactly when the symbol had one open for another such minute; otherwise open, high, low, close and volume take the trade in; no other symbol is touched |
| `LiveCandles.MinuteBounds` | src/shortfire/ingest/mexc/live_candles.py:71-72 | A minute is the one multiple of 60 000 ms less than 60 000 ms below the timestamp |
| `LiveCandles.LiveCandle` | src/shortfire/ingest/mexc/live_candles.py:71-111 | For any order of trades, the candle of a minute is the bar of exactly those trades that arrived before the symbol first left that minute, and rows already stored stay |
| `LiveCandles.StreamingRefinesBatch` | src/shortfire/ingest/mexc/live_candles.py:71-111 | Finalized candles plus open buckets equal the per-(symbol, minute) group-by of the trades if no minute is re-opened, and with positive quantities only then |
| `LiveCandles.LateVolumeMissing` | src/shortfire/ingest/mexc/live_candles.py:87-98 | A re-opened minute is stored with a volume short by exactly the volume of the trades that came late |
| `LiveCandles.KeptOrLate` | src/shortfire/ingest/mexc/live_candles.py:86-111 | The trades of a minute, each with its multiplicity, are the kept ones and the late ones together, and so are their volumes |
| `LiveCandles.BarMeaning` | src/shortfire/ingest/mexc/live_candles.py:100-110 | The bar of a run of trades opens and closes with its first and last price, bounds every price, attains its high and low, has its total quantity as volume, and is well formed: low <= open, close <= high, volume >= 0 |
| `LiveCandles.SumIsAdditive` | src/shortfire/ingest/mexc/live_candles.py:107-110 | Volume is the one additive sum that gives a single trade its quantity |
| `MinuteRuns.RunsAreMaximal` | src/shortfire/ingest/mexc/live_candles.py:86-98 | Cutting a symbol's trades where the minute changes gives the maximal runs of one minute, losing and reordering nothing |
| `MinuteRuns.RunsAreCandles` | src/shortfire/ingest/mexc/live_candles.py:71-111 | For any order of trades, the finalized candles of a symbol are the bars of its runs but the last, in order, and the open bucket is the bar of the last run |
| `MinuteRuns.VolumeConserved` | src/shortfire/ingest/mexc/live_candles.py:100-110 | Volume emitted plus volume held open equals volume traded, late trades included |
| `MinuteRuns.CandlesAreOhlc` | src/shortfire/domain/market.py:57-69 | Every finalized candle satisfies low <= open, low <= close, open <= high, close <= high and volume >= 0 for non-negative quantities |
| `MinuteRuns.CandlesInOrder` | src/shortfire/ingest/mexc/live_candles.py:86-98 | If minutes never go backwards, a symbol's candles come out strictly increasing in time, all before its open bucket |
| `LiveLoop.TradesAggregatorLoop.OnDelivery` | src/shortfire/ingest/mexc/live_candles.py:143-213 | One turn of the loop: aggregate each trade, dead-letter what does not parse, flush on the timer; a failed receive changes nothing |
| `LiveLoop.TradesAggregatorLoop.OnWire` | src/shortfire/ingest/mexc/live_candles.py:157-185 | One element of a message: aggregate, buffer what is finalized, or dead-letter |
| `LiveLoop.BufferTransparency` | src/shortfire/ingest/mexc/live_candles.py:143-213 | After any run, the table with the buffer folded in is the fold of everything emitted so far, in order, and the open buckets and dead letters are those of the whole input |
| `LiveLoop.FlushedWhenDue` | src/shortfire/ingest/mexc/live_candles.py:187-213 | Candles still buffered after a message mean the last flush is less than the interval ago, the table is written only at a flush that was due, and a failed receive changes nothing |
| `LiveLoop.NothingDropped` | src/shortfire/ingest/mexc/live_candles.py:157-185 | The trades are exactly the elements that parse, the dead letters exactly those that do not, and together they are as many as were received |
| `LiveLoop.SettledRun` | src/shortfire/ingest/mexc/live_candles.py:143-213 | Table, buffer and open buckets together do not depend on when flushes happened |
| `Store.CopyIntoHypertable` | src/shortfire/ingest/storage/copy.py:61-104 | Whatever the staging table held before, the target becomes the fold of insert-if-absent over the batch and the result is the batch size |
| `Store.MergeMeaning` | src/shortfire/ingest/storage/copy.py:97-102 | Old rows are untouched; every other key of the batch gets the first value the batch holds for it; no other key appears |
| `Store.InsertedCount` | src/shortfire/ingest/storage/copy.py:53-54 | The size of a batch is the number of rows it inserts if and only if its keys are pairwise distinct and absent from the table; otherwise fewer are inserted |
| `Store.Split` | src/shortfire/ingest/storage/copy.py:61-104 | Splitting a batch anywhere gives the same table |
| `Store.ReplayPrefix` | src/shortfire/ingest/storage/copy.py:56-59 | Replaying a batch, or a start of it, before or after it, changes nothing |
| `Store.DisjointCommute` | src/shortfire/ingest/storage/copy.py:61-104 | Batches over disjoint keys commute |
| `Backfill.FetchOhlcv` | src/shortfire/ingest/mexc/client.py:109-123 | Every candle returned is a row of the page with low <= open, low <= close, open <= high, close <= high and volume >= 0; a row of the page is rejected exactly when its fields do not parse or one of these fails; each row is the one or the other, in order |
| `Backfill.PageContract` | src/shortfire/ingest/mexc/client.py:92-108 | What is assumed of the exchange: at most 1000 rows, the earliest from the requested time on, in order, none skipped, and as many as the page may hold unless there are no more |
| `Backfill.BackfillOhlcv` | src/shortfire/ingest/mexc/backfill.py:91-140 | For every page schedule of the exchange, the rows written are the valid rows from since up to where the cursor stops, each counted once, and the dead letters are the rejects of its pages; timeframes without a table do nothing |
| `Backfill.CursorAdvances` | src/shortfire/ingest/mexc/backfill.py:130-132 | Every page with a candle moves the cursor forward by at least one step, so end_ms - cursor strictly decreases |
| `Backfill.PageCovers` | src/shortfire/ingest/mexc/backfill.py:111-132 | A page writes exactly the valid rows between the old and the new cursor |
| `Backfill.WritesOnlyTheFeed` | src/shortfire/ingest/mexc/backfill.py:116-127 | A row is written exactly when the exchange offers a valid candle for its time in the interval, and it is that candle: nothing earlier than since |
| `Overrun.UntilRespectedIff` | src/shortfire/ingest/mexc/backfill.py:84-132 | Over all exchanges that keep the page contract, nothing at or past the exclusive end is written if and only if the window is empty or every valid row there lies behind a full page of rows from none of which the loop goes on |
| `Overrun.UntilExample` | src/shortfire/ingest/mexc/backfill.py:84-84 | A window of one minute with a candle at each end writes the candle at its exclusive end |
| `Overrun.OverrunBounded` | src/shortfire/ingest/mexc/backfill.py:107-132 | At most one page of rows at or past the end is passed, and less than a page when the exchange has a row in the last step of the window |
| `Overrun.WholePagePast` | src/shortfire/ingest/mexc/backfill.py:107-132 | The bound is attained: a window without rows in front of a full page of valid rows writes all of that page |
| `Rejects.DeadLettersMean` | src/shortfire/ingest/mexc/client.py:110-122 | Over a run only invalid rows from since on are dead-lettered, and every invalid row the cursor has passed is, at least once |
| `Rejects.RejectedOnceIff` | src/shortfire/ingest/mexc/backfill.py:107-132 | A run dead-letters every row at most once if and only if every page that is followed by another one ends with a valid row |
| `Rejects.RejectedOnceForEveryExchange` | src/shortfire/ingest/mexc/backfill.py:107-132 | Over all exchanges that keep the page contract, no row is dead-lettered twice if and only if no valid row from which the loop goes on, with an invalid row behind it, is within reach of a page that holds both |
| `Rejects.RejectedTwice` | src/shortfire/ingest/mexc/backfill.py:130-132 | A witness: three rows in pages of two, of which the invalid one is dead-lettered twice |
| `Backfill.CoveredUnlessBadPage` | src/shortfire/ingest/mexc/backfill.py:107-132 | Whatever the page lengths, a run that does not end on a page of invalid rows only leaves every valid candle of [since, until) in the table |
| `Backfill.CoverageExact` | src/shortfire/ingest/mexc/backfill.py:107-132 | With pages of a fixed length, every valid candle of [since, until) is stored if and only if no valid row of the window follows a full page of invalid rows |
| `Backfill.CoverageForEveryExchange` | src/shortfire/ingest/mexc/backfill.py:107-132 | Over all exchanges that keep the page contract, the window is covered if and only if no invalid row precedes a valid one in it |
| `Backfill.RerunAfterAbort` | src/shortfire/ingest/mexc/backfill.py:74-75 | Aborting after any page and rerunning against differently cut pages leaves the rows up to the further of the two cursors |
| `Backfill.RestartIsUninterrupted` | src/shortfire/ingest/mexc/backfill.py:74-75 | Aborting after any page and rerunning with the same pages gives the table of one uninterrupted run |
| `ConcurrentBackfill.SemaphoreRespected` | src/shortfire/ingest/mexc/backfill.py:106-107 | In every reachable state at most max_concurrency tasks are inside the pagination loop, and the free slots are the rest |
| `ConcurrentBackfill.NoDeadlock` | src/shortfire/ingest/mexc/backfill.py:174-184 | With at least one slot, some task can move until all are done |
| `ConcurrentBackfill.MovingIsBounded` | src/shortfire/ingest/mexc/backfill.py:107-132 | A schedule in which every step moves a task is no longer than two steps per task plus one per exchange row from since on |
| `ConcurrentBackfill.CanFinish` | src/shortfire/ingest/mexc/backfill.py:174-187 | With at least one slot, every reachable state leads to one with all tasks done |
| `ConcurrentBackfill.FinishedAsAlone` | src/shortfire/ingest/mexc/backfill.py:174-187 | A finished task has the cursor and count it would have had alone |
| `ConcurrentBackfill.Deterministic` | src/shortfire/ingest/mexc/backfill.py:174-189 | Any two interleavings that finish leave the same two tables and the same counts |
| `ConcurrentBackfill.FinalTables` | src/shortfire/ingest/mexc/backfill.py:116-132 | What both tables hold when all tasks are done: the rows they started with, and for each one-minute or one-day task the exchange's valid rows from since up to where its pages stop, as they are, from mexc_native and ok; nothing else |
| `Gap.FlagGap` | src/shortfire/ingest/gap.py:67-100 | Rows that were there stay; on every free point of the window's grid, and nowhere else, there is now a row flagged gap_detected with the given source and open, high, low, close and volume 0; nothing for an empty window or a non-positive step |
| `Gap.FlagCompletes` | src/shortfire/ingest/gap.py:74-100 | After flagging every grid point of the window has a row; it is a gap row exactly where there was none; nothing else changes |
| `Gap.CountIsInsertedIff` | src/shortfire/ingest/gap.py:64-65 | The count returned is the number of rows inserted if and only if no grid point of the window had a row |
| `Gap.FlagTwice` | src/shortfire/ingest/gap.py:51-52 | Flagging twice is flagging once |
| `Gap.FlagComposes` | src/shortfire/ingest/gap.py:71-89 | In any table, two adjacent windows flag what their union flags if and only if every point on just one of the two grids already has a row |
| `Gap.AlignedComposes` | src/shortfire/ingest/gap.py:71-89 | They do when the second window starts on the grid of the first |
| `Gap.BackfillThenFlag` | src/shortfire/ingest/gap.py:67-100 | After a covering backfill and a flag, each grid point holds the old row, else the exchange's candle, else a gap row |
| `Writers.MarkDivergence` | src/shortfire/ingest/mexc/streams.py:176-184 | No row appears, vanishes or changes its candle or source; the only flag that can change is that of the key, from ok to ws_rest_divergence |
| `Writers.CrossRestCheck` | src/shortfire/ingest/mexc/streams.py:140-184 | With at least two REST candles and a positive close r of the last but one, the ok row of that candle's minute becomes ws_rest_divergence exactly when its close is below 0.995 r or above 1.005 r; every other row, and every row otherwise, stays as it is |
| `Writers.DivergesMeans` | src/shortfire/ingest/mexc/streams.py:166-171 | Relative distance above 0.5% of a positive reference is a close below 0.995 or above 1.005 times it; a reference of zero or less convicts nothing |
| `Writers.CheckIsTwoEvents` | src/shortfire/ingest/mexc/streams.py:151-184 | The compare and mark events of the transition system, back to back, change a table exactly as one turn of the check does |
| `Writers.RunEvolves` | src/shortfire/ingest/mexc/streams.py:176-184 | In every interleaving of flushes, pages, gap fills and checks, a stored row never disappears and its candle and source never change |
| `Writers.FlagChangesOnce` | src/shortfire/ingest/mexc/streams.py:176-184 | A flag changes at most once, only from ok to ws_rest_divergence, and only by the update of a divergence found for that key |
| `Writers.FlagsJustified` | src/shortfire/ingest/mexc/streams.py:151-184 | Although the read and the update are separate transactions, every flagged row differs from a REST close that was compared with it |
| `Writers.NewRows` | src/shortfire/ingest/gap.py:71-89 | In any interleaving a new row is a candle as the writer was given it, from mexc_native and ok, or a zero row of the filler, marked gap_detected, on the grid of its window |
| `DumpKeys.KeyOrder` | src/shortfire/ingest/backup/pg_dump_r2.py:242-243 | Under one prefix, the order of dump names as strings is the order of their times, and names are equal only for equal times |
| `DumpKeys.ParseFormatted` | src/shortfire/ingest/backup/pg_dump_r2.py:198-210 | Parsing the name of a dump returns its time to the second |
| `DumpKeys.KeyExample` | src/shortfire/ingest/backup/pg_dump_r2.py:264-264 | One dump name, character for character |
| `DumpKeys.ParseDotted` | src/shortfire/ingest/backup/pg_dump_r2.py:204-208 | Parsing reads what stands between the last slash and the first dot after it, whatever surrounds them |
| `DumpKeys.WeekdaysAdvance` | src/shortfire/ingest/backup/pg_dump_r2.py:278-279 | The day count and the weekday advance by one from each day to the next over month ends, leap days and year ends, and 5 January 2026 is a Monday |
| `DumpKeys.YearStarts` | src/shortfire/ingest/backup/pg_dump_r2.py:278-286 | The first of January of year 1 is day 1, and years have 365 or in leap years 366 days |
| `DumpKeys.MonthStarts` | src/shortfire/ingest/backup/pg_dump_r2.py:278-286 | In every year the months start 31, 59, 90, ... 334 days after the first of January, one more from March on in leap years |
| `Retention.BackupBucket.ListSortedDesc` | src/shortfire/ingest/backup/pg_dump_r2.py:234-243 | Lists exactly the stored names with the prefix, strictly descending |
| `Retention.BackupBucket.CopyTo` | src/shortfire/ingest/backup/pg_dump_r2.py:262-275 | The target name gets the newest dump, unless a stored name starts with it, in which case nothing changes |
| `Retention.BackupBucket.DeleteOld` | src/shortfire/ingest/backup/pg_dump_r2.py:295-300 | Deletes from one prefix the names with at least keep names above them, newest first, all of them or as many as a fault allows |
| `Retention.BackupBucket.SundownSweep` | src/shortfire/ingest/backup/pg_dump_r2.py:245-300 | The sweep with its two early returns, three promotions and three deletions refines Sweep, also when it raises at any copy or deletion; RetentionByCalendar says in figures what that leaves over a run |
| `Retention.BackupBucket.DailyDump` | src/shortfire/ingest/backup/pg_dump_r2.py:104-189 | The bucket after an upload is the sweep, complete or not, of the old bucket with the object added under its timestamped name; when pg_dump then proves to have failed there is no sweep |
| `Retention.KeptCount` | src/shortfire/ingest/backup/pg_dump_r2.py:296-298 | What a prune of n keeps are the first n entries of the descending listing, or all of them |
| `Retention.SweepByTier` | src/shortfire/ingest/backup/pg_dump_r2.py:245-300 | In any bucket, what one sweep does to each tier wherever it ends; annual/ is never pruned and other names are untouched |
| `Retention.WhereDeletionStops` | src/shortfire/ingest/backup/pg_dump_r2.py:295-300 | A sweep that raises while deleting: tiers before that one are cut to 7, 4 and 6 names, in it exactly so many names are gone from the 8th, 5th or 7th newest on, later tiers lose nothing |
| `RetentionRuns.RetentionUnderFaults` | src/shortfire/ingest/backup/pg_dump_r2.py:179-186 | For any dumps with strictly increasing times and sweeps raising anywhere: whenever a sweep has ended, daily holds exactly the 7 newest dumps, weekly and monthly the 4 and 6 newest of the due dumps whose sweep got to copy them, annual all of those, with their contents, and nothing else |
| `RetentionRuns.RetentionOverRuns` | src/shortfire/ingest/backup/pg_dump_r2.py:289-300 | Without faults: daily the 7 newest dumps, weekly the 4 newest Monday dumps, monthly the 6 newest first-of-month dumps, annual every January 1 dump, and nothing else |
| `RetentionRuns.RetentionByCalendar` | src/shortfire/ingest/backup/pg_dump_r2.py:276-300 | The same in figures: daily/ holds exactly the 7 newest dumps, weekly/ the 4 newest whose day is a whole number of weeks from 5 January 2026, monthly/ the 6 newest of a day 1, annual/ those of month 1 and day 1, each with its content; every name has one of these prefixes |
| `RetentionRuns.RunBackups` | src/shortfire/ingest/backup/pg_dump_r2.py:121-189 | The program itself, over a whole run with faults, leaves that bucket |
| `RetentionRuns.PromotedCopySurvives` | src/shortfire/ingest/backup/pg_dump_r2.py:276-300 | The last dump of a run, if due by the calendar and its sweep got past that copy, is in the tier with its content wherever the sweep ended |
| `RetentionRuns.LostPromotion` | src/shortfire/ingest/backup/pg_dump_r2.py:179-186 | A dump whose sweep raised before the first, second or third copy is never in weekly/, monthly/ or annual/ later |
| `RetentionRuns.FailedDumpTakesPlace` | src/shortfire/ingest/backup/pg_dump_r2.py:110-116 | A dump that failed after its upload holds one of the seven daily places until seven newer ones are there, and is never promoted |
| `RetentionRuns.FreshCopySurvivesIff` | src/shortfire/ingest/backup/pg_dump_r2.py:276-300 | In any bucket, a fresh weekly or monthly copy survives its sweep if and only if fewer than 4 or 6 names of its tier are above it |
| `RetentionRuns.SweepTwice` | src/shortfire/ingest/backup/pg_dump_r2.py:213-302 | In any bucket, a second sweep changes nothing |
| `RetentionRuns.SweepResumes` | src/shortfire/ingest/backup/pg_dump_r2.py:213-302 | In any bucket, wherever a sweep raised, sweeping again leaves what the sweep would have left had it not raised |
| `RetentionRuns.BoundedAfterSweepIff` | src/shortfire/ingest/backup/pg_dump_r2.py:245-258 | A sweep leaves daily, weekly and monthly within 7, 4 and 6 names if and only if there is a newest daily name that parses or they were within those bounds |
| `RetentionRuns.StuckForGood` | src/shortfire/ingest/backup/pg_dump_r2.py:255-258 | A name under daily/ that does not parse and sorts above the dumps to come stops all deletion for good |
| `RoundRobin.StartOf` | src/shortfire/ingest/mexc/oi.py:61-62 | The starting index is in range for the current list whatever cursor was stored |
| `RoundRobin.RoundFromFront` | src/shortfire/ingest/mexc/oi.py:58-64 | From cursor 0, ceil(n/batch) steps poll each symbol exactly once, in order, and return to 0 |
| `RoundRobin.RoundsRepeat` | src/shortfire/ingest/mexc/oi.py:108-110 | Over any number of rounds the polling is the list over and over |
| `RoundRobin.RoundFromAnywhere` | src/shortfire/ingest/mexc/oi.py:61-64 | From any stored cursor the current round is finished and then the whole list is polled in order |
| `RoundRobin.AllWithinTwoRounds` | src/shortfire/ingest/mexc/oi.py:61-64 | From any stored cursor every symbol is polled within 2*ceil(n/batch) steps |
| `RoundRobin.OiRoundRobinStep` | src/shortfire/ingest/mexc/oi.py:58-110 | From the stored cursor modulo the list length on, up to batch symbols: every row of their replies is stored under (symbol, time), new rows carry its amount or 0, mexc_native and ok; exactly the symbols whose fetch failed are dead-lettered; the cursor is the end of the slice, or 0 at the end of the list |
| `RoundRobin.RepliesStored` | src/shortfire/ingest/mexc/oi.py:69-103 | The records of a slice merge into exactly the rows of its replies, in figures, and the dead letters are the symbols that failed |
| `RoundRobin.MexcOiPollJob` | src/shortfire/ingest/scheduler/jobs.py:340-350 | A poll is such a step of 10 symbols from a loaded cursor and always ends with the next cursor saved, even when every fetch fails |
| `RoundRobin.CoinglassJob` | src/shortfire/ingest/scheduler/jobs.py:178-199 | A run that crashes after some items leaves their rows and no save; a run that completes saves the next cursor after the whole slice |
| `RoundRobin.RunIsStep` | src/shortfire/ingest/scheduler/jobs.py:178-199 | While save times increase, a run is one step of the state made of the table and the cursor saved last |
| `RoundRobin.CrashReplay` | src/shortfire/ingest/scheduler/jobs.py:178-199 | After any mix of crashes and completed runs the cursor is that of the crash-free job and the table is its table plus some start of the slice to be polled again; after a completed run they are equal |
| `RoundRobin.AtLeastOnce` | src/shortfire/ingest/scheduler/jobs.py:178-199 | Once a round of runs has completed from the front, with any crashes in between, the table is that of one crash-free pass over the whole list |
| `KvState.LogIsRegister` | src/shortfire/ingest/state/kv_state.py:39-55 | With increasing row times a load returns exactly the last save |
| `KvState.LoadsTheSaveIff` | src/shortfire/ingest/state/kv_state.py:42-48 | For any row times, a save is sure to be what is loaded next if and only if a save of the same state is later than every save of another state |
| `KvState.RunLog.Load` | src/shortfire/ingest/state/kv_state.py:39-55 | Nothing exactly when no row of the job carries a state; otherwise the state of a row of the job that no other such row is later than |
| `KvState.RunLog.Save` | src/shortfire/ingest/state/kv_state.py:72-104 | Appends one row and leaves what any other job may load unchanged, in every log |
| `Universe.FilterQualifyingTickers` | src/shortfire/ingest/universe/snapshot.py:57-80 | Keeps exactly the symbols ending in :USDT, each with its numeric volume or 0 and its numeric last price or none; qualifying exactly when the volume is a number above 500000 |
| `Universe.UniverseSnapshotJob` | src/shortfire/ingest/universe/snapshot.py:128-249 | One run of the job: failed fetch and empty filter change nothing; otherwise snapshot rows are inserted if absent and the symbol table is updated from the difference with yesterday, or not at all when that transaction raises |
| `Universe.RunOfSymbol` | src/shortfire/ingest/universe/snapshot.py:173-227 | One run symbol by symbol: new ones get a tier 2 row first seen now, known ones that are back are listed again, gone ones are delisted now unless they were, and no other field of any row changes |
| `Universe.RunOfDay` | src/shortfire/ingest/universe/snapshot.py:139-171 | One run's snapshot: what it saw, under its date, where that date had no row yet; no other snapshot row changes |
| `Universe.ListedAfter` | src/shortfire/ingest/universe/snapshot.py:173-227 | From any state and for any date, exactly who is listed after a run |
| `Universe.SeenIsListedIff` | src/shortfire/ingest/universe/snapshot.py:183-227 | Every symbol a run sees is listed after it if and only if those in yesterday's snapshot too were listed before |
| `Universe.ListedIsSeenIff` | src/shortfire/ingest/universe/snapshot.py:183-227 | The listed set equals what the run saw if and only if, besides, every listed symbol it did not see was in yesterday's snapshot |
| `Universe.SeenIsListed` | src/shortfire/ingest/universe/snapshot.py:128-227 | With at most one run a day and any days missed or failed, every symbol the latest run saw is listed |
| `Universe.ListedIsSeen` | src/shortfire/ingest/universe/snapshot.py:128-227 | With a run every day since the first, the listed set is exactly what the last run saw |
| `Universe.SnapshotIsWhatWasSeen` | src/shortfire/ingest/universe/snapshot.py:152-171 | With at most one run a day, the snapshot of a date is what its run saw |
| `Universe.RerunIsNoOp` | src/shortfire/ingest/universe/snapshot.py:152-227 | Running again on one date with the same tickers changes nothing, from any state |
| `Universe.RerunRepairs` | src/shortfire/ingest/universe/snapshot.py:152-227 | After a run that raised between its two commits, a rerun on the same date with the same tickers leaves what it would have left alone |
| `Universe.AfterHalfStepIff` | src/shortfire/ingest/universe/snapshot.py:173-227 | After such a run, the next day's run lists everything it sees if and only if what it shares with the raising run's snapshot was listed before |
| `Universe.UnlistedForGood` | src/shortfire/ingest/universe/snapshot.py:173-227 | A symbol new in such a run stays unlisted on all the days in a row on which it is seen after it |
| `Universe.SymbolsNeverVanish` | src/shortfire/ingest/universe/snapshot.py:211-226 | Symbol rows never vanish; only the delisting time of a row changes |
| `Universe.UniverseAtAfter` | src/shortfire/ingest/universe/snapshot.py:252-270 | A run changes the answer for a date only when it runs on that date, and then only by qualifying symbols the date had no row for |
| `Universe.PointInTime` | src/shortfire/ingest/universe/snapshot.py:252-270 | The answer for a date is unchanged by any run on other dates |
| `Universe.MissedDayKeepsStale` | src/shortfire/ingest/universe/snapshot.py:173-184 | After a missed day a symbol that vanished meanwhile stays listed |
| `Universe.RerunLeavesDelisted` | src/shortfire/ingest/universe/snapshot.py:173-184 | Two runs on one date with different tickers can leave a symbol just seen delisted |
| `Universe.RecomputeTier1` | src/shortfire/ingest/universe/tier1.py:49-67 | Every symbol keeps its row but for the tier; a listed symbol gets tier 1 if the query returned it and 2 if not; a delisted one, and every one when the query is empty, keeps its tier |
| `Universe.FirstTierIsTop` | src/shortfire/ingest/universe/tier1.py:34-67 | With data, no listed symbol of tier 2 outranks one of tier 1, tier 1 has at most n symbols, and it has as many as the query returned if and only if all of those are listed; without data nothing changes |
| `Universe.FirstTierWithinTopIff` | src/shortfire/ingest/universe/tier1.py:27-51 | Tier 1 lies within the query's answer after a rerank if and only if there is data or tier 1 was empty |
| `Universe.NoDataTierTwoIff` | src/shortfire/ingest/universe/tier1.py:27-51 | Without candle data every listed symbol has tier 2 afterwards if and only if every one had it before |
| `Universe.NoDataKeepsFirstTier` | src/shortfire/ingest/universe/tier1.py:27-51 | A witness: a tier 1 symbol keeps its tier when there is no candle data |
| `Freshness.Alerter.Check` | src/shortfire/ingest/freshness/alerter.py:86-148 | A key is degraded afterwards exactly when some sample of ours with its labels, updated above 0, is older than twice the expected lag; degraded events and alerts go to the keys that became so, recovered events to those that stopped, once each |
| `Freshness.Thresholds` | src/shortfire/ingest/freshness/alerter.py:33-45 | The thresholds of all feeds in seconds |
| `Freshness.EdgesMean` | src/shortfire/ingest/freshness/alerter.py:109-142 | Which keys are announced and alerted when the degraded set changes |
| `Freshness.RecoveredIff` | src/shortfire/ingest/freshness/alerter.py:128-142 | A check announces a recovery exactly for the degraded keys not over threshold now, and such a feed is fresh if and only if its gauge still counts |
| `Freshness.ResetIsRecovered` | src/shortfire/ingest/freshness/alerter.py:100-102 | A gauge that drops to zero is announced as recovered without being fresh |
| `Freshness.EventsAlternate` | src/shortfire/ingest/freshness/alerter.py:107-148 | Over any run of checks the events of a key alternate, degraded first, and the last one tells whether it is degraded |
| `Freshness.AlertsAreRises` | src/shortfire/ingest/freshness/alerter.py:110-126 | A key is alerted exactly once for each check that finds it newly stale |
| `Freshness.RunChecks` | src/shortfire/ingest/freshness/alerter.py:68-148 | Calling the job over and over yields such a history, each check ending with the keys over threshold |
| `TradeTape.TradesPersistLoop.OnDelivery` | src/shortfire/ingest/mexc/trades.py:59-122 | One turn of the tape loop: complete trades are buffered, the others dead-lettered, and the buffer is flushed when the interval has passed |
| `TradeTape.TapeTransparency` | src/shortfire/ingest/mexc/trades.py:59-122 | For every schedule, table plus buffer is the fold of all records received, and every element is one record or one dead letter |
| `TradeTape.FlushedWhenDue` | src/shortfire/ingest/mexc/trades.py:97-122 | Trades still buffered after a message mean the last flush is less than the interval ago, and the table is written only at a flush that was due |
| `TradeTape.TapeHolds` | src/shortfire/ingest/mexc/trades.py:75-113 | For every schedule the tape holds each complete trade under (symbol, time, id) as side, price and quantity of the first such trade unless the row was there before, and no other rows; the dead letters are exactly the incomplete elements |
| `TradeTape.RedeliveryLeavesTape` | src/shortfire/ingest/mexc/trades.py:113-113 | Elements delivered again leave the tape as it is |
| `TradeTape.RedeliveryAddsToCandles` | src/shortfire/ingest/mexc/live_candles.py:100-110 | Any trades delivered again add exactly their volume to what the aggregator puts out and holds |
| `Market.ValidateBook` | src/shortfire/domain/market.py:113-140 | The adjacent-pair loops and the top-of-book test accept exactly the books whose bids are pairwise strictly descending, asks pairwise strictly ascending and every bid below every ask; which error is raised first |

## Left out

- Retention.BackupBucket.DailyDump: an upload that raises, and so stores nothing and sweeps nothing, is not modelled.
- DumpKeys.ParseFormatted: non-ASCII digits and the space-padded day that `strptime` also accepts are not read by the model's parser.
- Backfill.BackfillOhlcv: retries, rate limits and a fetch that raises are left to `RerunAfterAbort`, which starts from any page boundary.
- Backfill.RestartIsUninterrupted: the rerun gets the same page lengths; with other lengths the result is `RerunAfterAbort`.
- ConcurrentBackfill.Deterministic: a task that raises cancels the task group, which is not modelled.
- LiveLoop.TradesAggregatorLoop.OnDelivery: a flush that raises, and a process that ends with candles in its buffer, are not modelled.
- Rollup.EndToEnd: refresh policies, start and end offsets and compression of the continuous aggregates; the view is the current state of its source table.
- KvState.RunLog.Save: the other columns of a run row, derived from the job name, carry no cursor.
- RoundRobin.CoinglassJob: progress when a fetch keeps raising, which the job does not have; only the MEXC poll contains failures per symbol.
- RoundRobin.AtLeastOnce: the symbol list and the source's data are fixed during the round.
- Universe.FilterQualifyingTickers: not-a-number volumes, for which the comparison raises.
- Universe.RecomputeTier1: the seven-day volume query is a parameter, any answer that breaks ties in any way.
- Freshness.Alerter.Check: sending an alert cannot fail or interleave with another check.
- Numeric columns: rounding to NUMERIC(28,10), Decimal contexts and the float conversion of timestamps.
- HTTP, websocket, ccxt, boto3 and database clients, retries, scheduling, Telegram, metrics, logging, settings and the record schemas: only the events they deliver appear.
- Order-book capture, funding, liquidations, long/short ratio parsing and CoinGecko enrichment: they repeat the write path modelled here.
- The heartbeat watchdog and the shutdown of the websocket loops: no termination is claimed.
