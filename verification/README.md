# mctrader-data, modelled and proved in Dafny

A Dafny 4.11 model of the parts of mctrader-data that must not lose, reorder or invent market
data, with proofs over every input, every run or every interleaving.  `dafny verify dfyconfig.toml`
checks the whole project.

## What is modelled

**WAL to L1 to NAS durability** (`Durability.dfy`, `Compactor.dfy`).  The file system, the bucket,
the retry queue and the clock form the state of a protocol whose steps are single file-system and
network operations.  Any number of compactions, cleanup workers (a timed-out one keeps running),
garbage collectors and retry drains interleave, any of them may crash between two steps, and a path
may be sealed again at any time, as the collector does when it reconnects within a five-minute
bucket.  The methods of `Compactor.Node` are the code; each is shown to be a run of that protocol,
with other workers in flight.

**Point-in-time order book** (`Scan.dfy`, `ScanResults.dfy`, `RowLookahead.dfy`, `Replay.dfy`,
`Baselines.dfy`, `ReplayProperties.dfy`, `Witnesses.dfy`).
Partition scan, clock filter, sort, multi-node dedup, choice of baseline, and the fold with its gap
checks.

**Tier merge** (`Merge.dfy`, `NasMerge.dfy`).  Ordering files by content, streaming batches through
the monotonic check, publishing or quarantining; on NAS also the alias dedup and the size-gated cache.

**Bars** (`Bars.dfy`, `BarRuns.dfy`, `TimeBars.dfy`).  The four aggregators as one class with a rule,
against batch definitions that do not mention their state.

**Dedup** (`Dedup.dfy`, `CandleDedup.dfy`, `TickDedupV11.dfy`, `Limiter.dfy`).  The tick and order
book passes run one loop over their own key, so one generic pass models both.

**Control state** (`DrMode.dfy`, `IngestBlocker.dfy`, `ReaderCache.dfy`), each against a rule over
its whole history.

`Basics.dfy` and `Sorting.dfy` hold the option type, the stable sort and list facts.

## How it is modelled

- Clock readings are parameters: `time.monotonic()` and `datetime.now()` at each call, and the marker
  age.  The DR breaker takes up to three readings per failure, one for the entry, one for the check
  and one for the transition.
- The network is a parameter: each HEAD and PUT of a call comes with how it ends (`Compactor.Net`),
  and a listing may fail.  NAS objects are not deleted, and hashes recorded on NAS are truthful.
- SHA-256 is an injective digest.  Parquet files are sequences of rows; the merge keeps row groups,
  since the sort key depends on their statistics.  `iter_batches` is any cutting of a file into batches.
- Decimals are scaled integers, timestamps are integer microseconds, ratios and latencies are reals.
- A dictionary whose order matters is a map with its list of keys.
- The stream cache admits a total equal to its threshold, as the code does; its docstring says below.
- Partition files are listed by path as strings; the code sorts path objects, which orders the same
  names component by component.
- Locks make each method of the control classes atomic; the model has the methods without the lock.

## Where the code does less than it promises

- **Sealing a path again.**  A reconnect closes the ingester and opens the same path
  (`collector.py:345-361`, `wal/ingester.py:144-156`, `wal/ingester.py:182-219`), and the rename replaces
  what is sealed there.  A first piece that is not compacted yet is lost (`ResealLoses`); a second piece
  sealed beside the marker of the first is never picked up and is collected with it
  (`MarkedResealLoses`); and a piece that is on NAS only under a flat key without a hash is overwritten
  there (`OverwriteLoses`).
- **Promotion without a hash.**  `promote_l1` compares SHA-256 only if the NAS object carries one
  (`promotion.py:96-214`).  A legacy object without a hash, of the same size and other content, makes
  the sweep delete the only copy (`CollisionLoses`).
- `DurableExactly` puts the two together: every run is durable if and only if, for every path, either
  one Parquet file only can come of what is sealed there and no unhashed legacy object passes for it,
  or all that may be sealed there is already on NAS where no upload replaces it.
- **Lookahead.**  File offsets restart with each date partition and a day's scan also reads the next
  date's, so a hidden file can reorder visible rows that tie across partitions.  `HiddenFileChangesBook`
  shows two books; `LookaheadExactly` and `RowsLookaheadExactly` give the condition;
  `NoLookaheadWhenFiled` shows it never happens when no row is filed under a later date than its own,
  which a writer that files a buffer under its first row's date keeps on a time-ordered stream.
- **Mid-day snapshots.**  A later snapshot group clears only the side of its first row, because
  `last_ts` is updated after it.  `RebaselinesExactly` says when the group still replaces the book.
- **Ties in the merge.**  Equal minimum timestamps fall back to listing order, which can quarantine
  files another order would publish (`TieQuarantines`); `PublishesExactly` has the condition.
- **Conflicting payloads.**  The hash-keyed tick dedup replaces only the first listed row of the
  losing hash, so two hashes of one trade can be emitted (`TwoHashesEmitted`); `OneHashExactly` says
  for which rows that can happen.
- **Rate limit.**  `admit` may emit one artifact more than its cap in a window (`CapPlusOne`): exactly
  when that window and an earlier one both have more calls than the cap (`ExceedsExactly`), since
  every window after the first overflow opens on a pending batch.
- **Forced block.**  A comment at `ingest_blocker.py:126-131` says a forced block can be released; no
  code does so, and the history rule says it is permanent.

## Model

| member | source | states |
|---|---|---|
| Durability.SafeRuns | src/mctrader_data/compactor/runner.py:122-224 | for every interleaving, every crash and every resealing of safe paths, each piece ever sealed is in the WAL file, the L1 file or a NAS object, and no sealed file goes before its marker is 24 h old |
| Durability.InvStep | src/mctrader_data/compactor/l1.py:128-169 | every single step of every process keeps the protocol invariant, including what every other running process relies on |
| Durability.MatchMeansHeld | src/mctrader_data/compactor/promotion.py:140-214 | a local file that passes the hash and size checks has all its path's pieces on NAS |
| Durability.InvPromote | src/mctrader_data/compactor/promotion.py:96-214 | an unlink after HEAD, compare and second HEAD keeps the invariant with any other process between those steps |
| Durability.GuardStops | src/mctrader_data/compactor/promotion.py:181-196 | an object that changed or went between the two HEADs ends the promotion before the unlink |
| Durability.InvCollect | src/mctrader_data/compactor/gc.py:14-29 | collecting in two unlinks keeps the invariant, also when the process dies between them or another compaction re-creates the marker |
| Durability.InvPut | src/mctrader_data/nas_storage/nas_uploader.py:543-732 | hashing, HEAD, upload, queueing and giving up keep the invariant |
| Durability.InvDrain | src/mctrader_data/nas_storage/retry_queue.py:301-411 | draining the retry queue keeps the invariant |
| Durability.DrainStores | src/mctrader_data/nas_storage/retry_queue.py:301-411 | a drain that uploads leaves the item's own bytes and hash under its key and takes it off the queue |
| Durability.DrainSkips | src/mctrader_data/nas_storage/retry_queue.py:301-411 | over an object with a hash a drain writes nothing, and takes the item off the queue only if the hash is its own |
| Durability.Recompact | src/mctrader_data/compactor/l1.py:128-169 | from whatever earlier runs and crashes left, compacting again without upload ends with the Parquet file and the marker; the same file unless a piece with another was sealed before |
| Durability.InvSeal | src/mctrader_data/wal/ingester.py:210-219 | sealing over a safe path, whatever it holds, keeps the invariant |
| Durability.CollisionLoses | src/mctrader_data/compactor/promotion.py:140-214 | a colliding unhashed legacy object loses its segment: the run that does it |
| Durability.ResealLoses | src/mctrader_data/wal/ingester.py:144-156 | a second piece sealed before the first is compacted loses the first |
| Durability.MarkedResealLoses | src/mctrader_data/wal/segment.py:55-64 | a second piece sealed under the first one's marker is collected unread: the run that does it |
| Durability.OverwriteLoses | src/mctrader_data/nas_storage/nas_uploader.py:568-605 | a piece under an unhashed flat key is overwritten by the piece sealed over it |
| Durability.UnsafeLoses | src/mctrader_data/wal/ingester.py:182-219 | every path that is not safe loses a piece in some run |
| Durability.DurableExactly | src/mctrader_data/compactor/promotion.py:96-214 | all runs are durable if and only if every path is safe: one file and no collision, or everything pinned on NAS |
| Durability.RowsSurvive | src/mctrader_data/compactor/l1.py:128-169 | on every channel, flattened or not, some surviving copy holds exactly the rows of the sealed records, each as often |
| Durability.ParquetInOrder | src/mctrader_data/compactor/l1.py:146-156 | the Parquet file holds the rows of the records, each as often, in time order |
| Compactor.Node.HeadWithRetry | src/mctrader_data/compactor/promotion.py:237-291 | one retry, only after a connection error; an answer is the object's own head |
| Compactor.Node.PromoteL1 | src/mctrader_data/compactor/promotion.py:96-214 | the local file goes if and only if both HEADs answer, hash and size agree and the unlink succeeds; the other outcomes |
| Compactor.PromotionExactly | src/mctrader_data/compactor/promotion.py:96-291 | each outcome if and only if its requests, hash, size and unlink end so, with the one retry spelled out |
| Compactor.Node.PutL1 | src/mctrader_data/nas_storage/dual_writer.py:416-522 | the whole new state of an L1 upload under any network, unlink and retry-queue behaviour |
| Compactor.UploadLeaves | src/mctrader_data/nas_storage/dual_writer.py:330-522 | an upload touches one key and removes the local file only when that key carries its hash |
| Compactor.UploadStores | src/mctrader_data/nas_storage/nas_uploader.py:543-732 | the bucket changes if and only if the file is sent and acknowledged, and then by its own bytes and hash under its flat key |
| Compactor.UploadQueues | src/mctrader_data/nas_storage/dual_writer.py:330-522 | the retry queue grows by the file if and only if the upload was queued or stored bytes were not confirmed; the file goes if and only if they were |
| Compactor.Node.CompactSegment | src/mctrader_data/compactor/l1.py:128-200 | the whole new state, also on what a crash left behind; fails only without Parquet and sealed file |
| Compactor.CompactLeaves | src/mctrader_data/compactor/l1.py:128-200 | after any compaction the marker is set and the L1 file is in place or on NAS under its own hash; nothing else changed |
| Compactor.CompactReaches | src/mctrader_data/compactor/l1.py:128-200 | a compaction, with any other workers in flight, is a run of the protocol, so all its invariants hold after it |
| Compactor.RerunLeaves | src/mctrader_data/compactor/l1.py:128-200 | a rerun after a crash, under any network, ends with the marker and every piece of the path stored |
| Compactor.Node.RunGc | src/mctrader_data/compactor/gc.py:14-29 | a marker and its sealed file go if and only if the marker is 86400 s old; the call is a run of the protocol |
| Compactor.Node.RunGcWithExtension | src/mctrader_data/compactor/gc_daemon.py:48-116 | with the failed-archive sentinel a segment goes if and only if its marker is 7 * 86400 s old, without it at 86400 s; alerts are exactly the former; the call is a run of the protocol |
| Compactor.CollectReaches | src/mctrader_data/compactor/gc_daemon.py:48-116 | collecting any set of aged segments, with other workers in flight, is a run of the protocol |
| Compactor.ExtensionReaches | src/mctrader_data/compactor/gc_daemon.py:86-103 | the extended grace time is never shorter, so that pass is a run of the protocol too |
| Compactor.Node.ScanAndCleanupLegacy | src/mctrader_data/compactor/runner.py:462-558 | at most the limit is tried, each file counted as what became of it, gone ones included, and exactly the verified files go |
| Compactor.TallyExactly | src/mctrader_data/compactor/runner.py:462-558 | the three counts are the numbers of files promoted or gone, not verified, and not unlinked |
| Compactor.CleanReaches | src/mctrader_data/compactor/runner.py:462-558 | a cleanup sweep, with other workers in flight, is a run of the protocol |
| Compactor.ReachesSafe | src/mctrader_data/compactor/runner.py:147-224 | every call that is a run of the protocol keeps the invariant, durability and the grace time |
| Scan.ScanStore | src/mctrader_data/orderbook_replay.py:275-339 | the scan loop yields the filtered, sorted, deduplicated rows, under any dedup clock |
| Scan.ScanFile | src/mctrader_data/orderbook_replay.py:298-308 | the row loop over one file collects exactly the rows that pass |
| Scan.ScanDay | src/mctrader_data/orderbook_replay.py:178-197 | the file loop over one partition does so with each file's offset |
| Scan.ScanSorted | src/mctrader_data/orderbook_replay.py:309-339 | whatever branch is taken, rows come out in time order |
| ScanResults.CollectsExactly | src/mctrader_data/orderbook_replay.py:295-308 | a row is collected if and only if its partition is in the date range, its time in the half-open window and its receipt not after the clock |
| ScanResults.CollectsOnce | src/mctrader_data/orderbook_replay.py:178-197 | and only once |
| ScanResults.ScansInOrder | src/mctrader_data/orderbook_replay.py:309-309 | in order of time, receipt, file offset, row, and then date |
| ScanResults.OneNodeYieldsAll | src/mctrader_data/orderbook_replay.py:311-320 | rows of one node are all yielded, as often as they occur, in that order |
| ScanResults.NodesDeduplicated | src/mctrader_data/orderbook_replay.py:311-339 | rows of two nodes or more yield each logical key that occurs exactly once |
| ScanResults.YieldedWasCollected | src/mctrader_data/orderbook_replay.py:317-339 | every yielded row was collected |
| ScanResults.YieldedSurvives | src/mctrader_data/orderbook_replay.py:322-339 | the row yielded for a key is the first scanned or of a node that ranks before it, and no later one with another payload ranks before its own |
| Scan.ScanNoLookahead | src/mctrader_data/orderbook_replay.py:275-339 | rows received after the clock never change the scan when no visible rows tie across partitions |
| Scan.LookaheadExactly | src/mctrader_data/orderbook_replay.py:178-339 | over stores that directories can hold, the scan order is out of reach of hidden rows if and only if no visible rows tie across partitions |
| RowLookahead.RowsLookaheadExactly | src/mctrader_data/orderbook_replay.py:298-318 | for the rows of one node's day: out of reach of hidden rows if and only if rows of the two partitions that tie are equal |
| RowLookahead.EqualTiesHarmless | src/mctrader_data/orderbook_replay.py:298-318 | where such ties are equal, the scan is a function of the visible rows |
| RowLookahead.DifferingTieShows | src/mctrader_data/orderbook_replay.py:178-197 | for any such tie that differs, two stores the clock cannot tell apart whose scans differ |
| Scan.DayRowsDoNotTie | src/mctrader_data/orderbook_replay.py:77-83 | rows not filed under a later date than their own never tie across the partitions of a day |
| Replay.LoadBaselineFromD14 | src/mctrader_data/orderbook_replay.py:342-392 | the baseline is the group with the highest sequence of the day |
| Baselines.StoredBaseline | src/mctrader_data/orderbook_replay.py:371-392 | none without rows; else the time of the first row of the highest sequence and, side by side and price by price, the quantity of its last row that quotes the level |
| Baselines.StoredRows | src/mctrader_data/storage.py:533-571 | those rows are the collected ones by time, sequence, and then date, file and row |
| Baselines.StartsAfterStored | src/mctrader_data/orderbook_replay.py:436-444 | from a stored baseline the fold starts at the first delta after its time, and nothing skipped is one |
| Baselines.StartsAtGroup | src/mctrader_data/orderbook_replay.py:445-474 | without one: an error exactly without events or without snapshots; else the first whole snapshot group, level by level, and the events behind it |
| Replay.LoadBaselineFromEvents | src/mctrader_data/orderbook_replay.py:452-474 | the first snapshot group of the stream, and where it ends |
| Replay.FoldForward | src/mctrader_data/orderbook_replay.py:476-508 | the fold loop over the two dicts and `last_ts` |
| Replay.GetOrderbookAt | src/mctrader_data/orderbook_replay.py:395-515 | the outcome, book or error, is a function of the day's visible rows and the time |
| Replay.AskLevels | src/mctrader_data/orderbook_replay.py:510-515 | every level once, strictly ascending |
| Replay.BidLevels | src/mctrader_data/orderbook_replay.py:510-515 | every level once, strictly descending |
| ReplayProperties.NoLookahead | src/mctrader_data/storage.py:502-585 | adding, dropping or altering snapshot or event rows received after the clock never changes the outcome, given no cross-partition tie |
| ReplayProperties.NoLookaheadWhenFiled | src/mctrader_data/orderbook_replay.py:395-515 | the same with no condition on ties when no event is filed under a later date than its own |
| Witnesses.HiddenFileChangesBook | src/mctrader_data/orderbook_replay.py:298-309 | two stores the clock cannot tell apart whose books differ |
| Witnesses.TiedStoreIsOrdinary | src/mctrader_data/orderbook_replay.py:178-197 | the first of them meets every hypothesis of the two exact theorems and fails their condition |
| ReplayProperties.FailsExactlyOnGap | src/mctrader_data/orderbook_replay.py:476-508 | with a baseline, success if and only if no folded gap exceeds the threshold; the non-monotonic error is unreachable |
| ReplayProperties.GapNamed | src/mctrader_data/orderbook_replay.py:476-488 | the error names the two times of the first gap that exceeds the threshold |
| ReplayProperties.Composes | src/mctrader_data/orderbook_replay.py:395-515 | within a day the state at t2 is the state at t1 folded over the events in (t1, t2]; an error recurs identically |
| ReplayProperties.LastWriterWins | src/mctrader_data/orderbook_replay.py:490-495 | on delta-only suffixes a level holds the last delta's quantity, else the baseline's, and is absent after zero |
| ReplayProperties.EveryLevel | src/mctrader_data/orderbook_replay.py:476-515 | for every mix of events, each level of the book is what the last event that touches it made of it, or else the baseline's |
| ReplayProperties.BookShape | src/mctrader_data/orderbook_replay.py:510-515 | bids strictly descending, asks strictly ascending, no zero level, all positive when quantities are not negative |
| ReplayProperties.BaselinePositive | src/mctrader_data/orderbook_replay.py:375-392 | both kinds of baseline hold positive quantities only |
| ReplayProperties.GroupEffect | src/mctrader_data/orderbook_replay.py:497-508 | what a mid-day snapshot group does: one side cleared, then its rows overlaid |
| ReplayProperties.RebaselinesExactly | src/mctrader_data/orderbook_replay.py:497-508 | the group replaces the book if and only if it quotes every level it did not clear |
| Witnesses.StaleAskSurvives | src/mctrader_data/orderbook_replay.py:497-508 | a store whose last snapshot group quotes one bid and whose book still shows an earlier ask |
| Merge.ExtractMinTs | src/mctrader_data/compactor/sort_key.py:25-65 | least timestamp over all row groups if all have statistics, else the first row's, none without rows |
| Merge.CheckBatch | src/mctrader_data/compactor/l2.py:122-132 | the row loop flags a violation if and only if the rows so far with the batch are unsorted |
| Merge.CompactLocal | src/mctrader_data/compactor/l2.py:77-152 | the nested loops end as specified for every listing and every batching |
| Merge.MergeSpec | src/mctrader_data/compactor/l3.py:74-150 | publishes exactly the concatenation of the non-empty files when it is sorted, with no row lost; a quarantined file is the sorted batches before the first bad one |
| Merge.PublishesExactly | src/mctrader_data/compactor/l2.py:79-152 | publishes if and only if there are rows, some file order is sorted and no tie of minimum timestamps puts a longer file first |
| Merge.DistinctMinsPublish | src/mctrader_data/compactor/l3.py:74-150 | with distinct minimum timestamps, quarantine only if no file order is sorted |
| Merge.ListingOrderIrrelevant | src/mctrader_data/compactor/l2.py:227-243 | with distinct minimum timestamps the listing order changes neither rows nor verdict, so NAS and local merge agree |
| Merge.TieDecides | src/mctrader_data/compactor/l2.py:85-85 | for every such tied pair, one listing order is published and the other quarantined |
| Merge.TieQuarantines | src/mctrader_data/compactor/l2.py:85-85 | two concrete files, quarantined in one order and published in the other, whatever the batches |
| NasMerge.StreamCache.GetOrFetch | src/mctrader_data/compactor/_nas_stream_cache.py:40-58 | returns the object, with one GET on a miss and none on a hit, and keeps it if it fits |
| NasMerge.GateKept | src/mctrader_data/compactor/_nas_stream_cache.py:29-58 | after any reads the total is within the gate, a cached object was fetched once, an uncached one does not fit |
| NasMerge.FetchedOnce | src/mctrader_data/compactor/l2.py:227-247 | when all objects fit, each is fetched exactly once across sort, schema and write phases |
| NasMerge.SourceKeys | src/mctrader_data/compactor/l2.py:196-222 | one raw key per object, flat when present, and no other |
| NasMerge.SourceExactly | src/mctrader_data/nas_storage/nas_key.py:257-271 | which raw keys are read, key by key, through prefixes and the `l1/` strip |
| NasMerge.CutoverStable | src/mctrader_data/compactor/l2.py:249-255 | however objects are spread over flat and legacy keys, the `run_id` input is the same list, and with distinct minimums the outcome too |
| NasMerge.RunIdExactly | src/mctrader_data/compactor/l2.py:249-255 | the hashed list names every object of the partition that has rows, once, in order, and no other |
| NasMerge.RunIdTellsSources | src/mctrader_data/compactor/l2.py:249-255 | two merges hash the same list if and only if their objects with rows have the same names |
| NasMerge.ReadingOrder | src/mctrader_data/compactor/l3.py:190-215 | keys are read by minimum timestamp and then as listed, each with rows once |
| NasMerge.MergeKeys | src/mctrader_data/compactor/l2.py:227-305 | the NAS merge ends as the local merge of the same contents |
| NasMerge.CompactHourNas | src/mctrader_data/compactor/l2.py:154-305 | sources, outcome and GETs of an hour; the `run_id` input is exactly the names of the objects with rows, sorted and distinct; a failed listing yields nothing |
| NasMerge.CompactDayNas | src/mctrader_data/compactor/l3.py:152-265 | the same for a day, whose `run_id` input is exactly the listed keys with rows in reading order |
| Bars.Create | src/mctrader_data/aggregation/core.py:183-192 | no aggregator for a threshold or timeframe the constructors reject |
| Bars.Aggregator.DefaultProcess | src/mctrader_data/aggregation/core.py:148-166 | states and all bars so far are those of the whole stream |
| Bars.Aggregator.ProcessTime | src/mctrader_data/aggregation/core.py:215-256 | the same for time bars |
| Bars.Isolated | src/mctrader_data/aggregation/core.py:79-80 | in every interleaving a symbol's state and bars are those of its own ticks, for all four rules |
| Bars.SymbolIsolation | src/mctrader_data/aggregation/core.py:148-166 | a new aggregator on one symbol's ticks emits exactly that symbol's bars |
| BarRuns.ThresholdBars | src/mctrader_data/aggregation/core.py:94-166 | bars and open state are first, max, min, last and sums of any split into runs no proper prefix of which reaches the threshold |
| BarRuns.SplitExists | src/mctrader_data/aggregation/core.py:281-284 | every stream has such a split |
| BarRuns.SplitUnique | src/mctrader_data/aggregation/core.py:305-336 | and only one |
| BarRuns.Conserved | src/mctrader_data/aggregation/core.py:107-112 | quantity and notional of bars plus open state equal the stream's, for all four rules |
| BarRuns.TickBarCount | src/mctrader_data/aggregation/core.py:290-307 | n ticks make n div N bars with n mod N open |
| TimeBars.TimeBarsOfGroups | src/mctrader_data/aggregation/core.py:215-256 | on any tick order a bar gathers from one tick later than all before to the next such tick, with its window and the flushing tick's exchange |
| TimeBars.TimeWindows | src/mctrader_data/aggregation/core.py:200-256 | on any tick order windows are aligned, strictly increasing and do not overlap |
| TimeBars.GroupBy | src/mctrader_data/aggregation/core.py:200-256 | on time-ordered ticks the bars are the group-by on the window, one for every window with ticks except the last |
| TimeBars.WindowEdge | src/mctrader_data/aggregation/core.py:200-209 | a tick is before a window's end exactly when its own window is no later |
| Grouping.HomogeneousExactly | src/mctrader_data/aggregation/core.py:228-231 | bars mix no windows if and only if the ticks' windows come in order |
| Limiter.BackpressureLimiter.AdmitRecord | src/mctrader_data/dedup.py:248-274 | the new limiter state and what is handed out |
| Limiter.BackpressureLimiter.Flush | src/mctrader_data/dedup.py:276-283 | hands out the whole batch |
| Limiter.AdmitAllConserves | src/mctrader_data/dedup.py:232-287 | under every clock trace each record is handed out or batched exactly once |
| Limiter.ExceedsExactly | src/mctrader_data/dedup.py:248-274 | at most cap + 1 artifacts per window, and more than cap if and only if it and an earlier window both have more than cap calls |
| Limiter.TraceReflected | src/mctrader_data/dedup.py:248-274 | window, count and pending batch after any trace, by the times of its calls alone |
| Limiter.HandsOutExactly | src/mctrader_data/dedup.py:248-274 | which records wait after any trace, and what each call hands out: the whole pending batch when a window opens on one, else its own record within the cap |
| Limiter.CapPlusOne | src/mctrader_data/dedup.py:248-274 | and that bound is reached |
| Dedup.DeduplicateByKey | src/mctrader_data/dedup.py:366-442 | rows, counts and records under any clock; every mismatch recorded exactly once despite batching |
| Dedup.DedupConserves | src/mctrader_data/dedup.py:571-636 | input = emitted + skipped + quarantined; emitted rows are input rows in time order, one per key that occurs |
| Dedup.EmittedInOrder | src/mctrader_data/dedup.py:437-442 | rows of one time are emitted as their keys first occur, whichever row survives |
| Dedup.RecordsExactly | src/mctrader_data/dedup.py:396-428 | one record for each row that conflicts with the row of its key live before it, of the two in that order, and no other |
| Dedup.QuarantineExactly | src/mctrader_data/dedup.py:396-428 | a key is quarantined if and only if a later row conflicts with its first; otherwise the first row is kept |
| Dedup.SurvivorStands | src/mctrader_data/dedup.py:420-426 | the survivor is the first row or outranks it, and no later row of the key has another payload and a node that outranks its own |
| Dedup.DefaultRanksLast | src/mctrader_data/dedup.py:188-200 | a row without a node ranks behind every node whose name starts below `z` |
| Dedup.MismatchesReal | src/mctrader_data/dedup.py:402-416 | every record is a payload conflict between two input rows of one key |
| Dedup.KeyIsolation | src/mctrader_data/dedup.py:586-630 | a key's survivor is decided by that key's rows alone |
| CandleDedup.DeduplicateCandles | src/mctrader_data/dedup.py:306-359 | one row per key that occurs, in time order, none of the key received later, nor at the same time by a node that sorts first; input = emitted + skipped |
| CandleDedup.AbsorbedBest | src/mctrader_data/dedup.py:329-359 | over every input the kept row of a key was received, or else opened, no earlier than any other, ties going to the node that sorts first |
| CandleDedup.EmittedInOrder | src/mctrader_data/dedup.py:355-359 | candles of one time are emitted as their keys first occur, whichever row wins |
| CandleDedup.OrderDoesNotMatter | src/mctrader_data/dedup.py:188-359 | any permutation gives the same keys, counts and winners up to full ties |
| TickDedupV11.DeduplicateTicksV11 | src/mctrader_data/dedup.py:450-563 | distinct full keys in time order, counts that add up, every mismatch recorded exactly once |
| TickDedupV11.AbsorbedInv | src/mctrader_data/dedup.py:479-563 | the two indexes stay in step, so the delete never misses; input = emitted + skipped + quarantined |
| TickDedupV11.EmittedInOrder | src/mctrader_data/dedup.py:530-563 | rows of one time are emitted in the order they came in, a replacing row at its own place |
| TickDedupV11.MismatchesReal | src/mctrader_data/dedup.py:508-533 | every record pairs two input rows of one trade with different payload hashes |
| TickDedupV11.EmittedOrRecorded | src/mctrader_data/dedup.py:496-550 | every input row's full key is emitted or its trade is in quarantine |
| TickDedupV11.ConflictSettled | src/mctrader_data/dedup.py:518-539 | of two conflicting rows the one whose node sorts first is live afterwards and the other is not |
| TickDedupV11.LosersExplained | src/mctrader_data/dedup.py:496-550 | an input row whose full key is not emitted is the losing row of some record |
| TickDedupV11.TwoHashesEmitted | src/mctrader_data/dedup.py:525-535 | four rows of one trade of which two payload hashes are emitted |
| TickDedupV11.OneHashExactly | src/mctrader_data/dedup.py:450-563 | no sequence of the rows that may be sent emits two hashes for one trade if and only if no two of them share trade and hash while a third has another hash and a node that sorts before |
| DrMode.DRMode.RecordFailure | src/mctrader_data/io/dr_mode.py:126-138 | the whole new state of a failure |
| DrMode.DRMode.RecordSuccess | src/mctrader_data/io/dr_mode.py:117-124 | the whole new state of a success |
| DrMode.DRMode.CurrentState | src/mctrader_data/io/dr_mode.py:109-115 | the state, half open once the delay is over |
| DrMode.DRMode.SetMode | src/mctrader_data/io/dr_mode.py:140-162 | the whole new state of an override |
| DrMode.DRMode.CheckThresholds | src/mctrader_data/io/dr_mode.py:164-207 | pops, counts and opens as specified, from any state |
| DrMode.DRMode.Transition | src/mctrader_data/io/dr_mode.py:219-239 | the whole new state of a transition, none to the current state |
| DrMode.WindowRefinesHistory | src/mctrader_data/io/dr_mode.py:176-207 | over every run the deque is a time-sorted suffix of everything recorded, and the counter is the trailing run of failures |
| DrMode.OpensExactly | src/mctrader_data/io/dr_mode.py:126-207 | a failure in CLOSED opens if and only if the trailing failures, or the number of 5xx failures or of slow calls recorded within the window, reach their thresholds |
| DrMode.ClosedStaysBelow | src/mctrader_data/io/dr_mode.py:176-239 | without override, CLOSED keeps consecutive failures below the threshold |
| DrMode.HalfOpenExactly | src/mctrader_data/io/dr_mode.py:209-217 | without override, HALF_OPEN is entered if and only if the state is looked at after the full delay since the failure that opened it |
| DrMode.ProbeDecides | src/mctrader_data/io/dr_mode.py:117-138 | CLOSED is entered if and only if a call succeeds in HALF_OPEN or an operator sets it; a failure there opens again from its own time |
| DrMode.OverrideHolds | src/mctrader_data/io/dr_mode.py:117-162 | an operator's mode is set as given and OPEN counts from then; calls in OPEN or any further mode move nothing |
| IngestBlocker.BlocksExactly | src/mctrader_data/ingest_blocker.py:106-247 | blocked if and only if critical was ever signalled, or a report reached critical and none since fell below the unblock level |
| IngestBlocker.FreshClimb | src/mctrader_data/ingest_blocker.py:140-168 | once released, blocking again needs a new report at critical or a forced block |
| IngestBlocker.LevelExactly | src/mctrader_data/ingest_blocker.py:106-247 | the level in full: blocked by the history rule, draining if and only if the last report or warning to an open gate says so, else normal |
| IngestBlocker.Gatekeeper.ShouldBlock | src/mctrader_data/ingest_blocker.py:87-184 | the answer is that of the whole history, this report included |
| IngestBlocker.Gatekeeper.OnCapacityWarn | src/mctrader_data/ingest_blocker.py:209-222 | keeps the history rule |
| IngestBlocker.Gatekeeper.OnCapacityCritical | src/mctrader_data/ingest_blocker.py:224-237 | keeps the history rule |
| IngestBlocker.Gatekeeper.ReadBlocked | src/mctrader_data/ingest_blocker.py:244-247 | the same answer between reports |
| IngestBlocker.Gatekeeper.ReadState | src/mctrader_data/ingest_blocker.py:239-242 | the level that the whole history gives |
| ReaderCache.LRUReaderCache.Get | src/mctrader_data/compactor/reader_cache.py:57-63 | a hit is the value last put and not invalidated and moves to the end; a miss is a key not cached and changes nothing |
| ReaderCache.LRUReaderCache.Put | src/mctrader_data/compactor/reader_cache.py:65-85 | the other entries but for the shortest oldest part that makes room, then the new one; the byte counter follows |
| ReaderCache.LRUReaderCache.Invalidate | src/mctrader_data/compactor/reader_cache.py:87-92 | exactly the other entries are left, in order, and the counter follows |
| ReaderCache.LRUReaderCache.CurrentBytes | src/mctrader_data/compactor/reader_cache.py:94-97 | the sum of the entries, within budget unless a single entry is held |
| ReaderCache.LruOverRuns | src/mctrader_data/compactor/reader_cache.py:57-92 | over every run entries stand in order of use, hold the last put value, and every evicted, never re-put key was used before every cached key |
| ReaderCache.EvictsShortest | src/mctrader_data/compactor/reader_cache.py:79-81 | put evicts the shortest oldest prefix that makes room, or everything |
| ReaderCache.CallsLeave | src/mctrader_data/compactor/reader_cache.py:57-92 | after any run, exactly which entries each call leaves and in which order |
| ReaderCache.WithinBudget | src/mctrader_data/compactor/reader_cache.py:79-85 | over every run the total is within budget unless a single entry is held |

## Left out

- Wall clock steps: marker ages assume a clock that does not run backwards.
- NAS objects deleted or overwritten by anyone but the uploader, and recorded hashes that are untruthful to begin with.
- A retry-queue payload that differs from the hash stored with it, which takes a reseal between hash and copy: on a safe path with two files the flat key then carries a hash, so no drain writes it.
- Path derivation of an L1 file and its NAS keys from strings: a segment's components are its identity.
- ReplayProperties.NoLookahead: the condition on ties is sufficient for one outcome; it is necessary and sufficient for the scan order.
- RowLookahead.RowsLookaheadExactly: for one node and one day; with several nodes the dedup comes in between, where NoLookahead holds without ties and LookaheadExactly is exact for the order before dedup.
- Compactor.Node.ScanAndCleanupLegacy: a file that another worker removes in the middle of its promotion is a step of the protocol, not of this method.
- ReplayProperties.LastWriterWins: stated for suffixes without later snapshot events; EveryLevel covers those.
- Dedup: independence of the order of tick and order book rows is not claimed; each row is compared with the row kept so far only.
- DrMode.ClosedStaysBelow: for runs without `set_mode`, which does not reset the counter.
- DrMode.HalfOpenExactly: for runs without `set_mode`.
- Bars: labels, threshold columns and the Pydantic model of a bar; Decimal context rounding.
- Merge: the output path, `hour_utc` in it, schema propagation and the move to the quarantine directory.
- Rows without a timestamp, time zone checks and schema errors that raise before any of this logic.
- Metrics, logging, lineage records, manifests, heartbeat, CLI, API routes and the collector.
- Eventual completion of the cleanup sweep, which rescans preserved files first.
- `historical_reclaim.py`, whose deletions rest on key counts.
- `get_streaming` ranges: section 2.1 of RFC 7233 is not part of this model.
- Arrow, Parquet, DuckDB, Polars, boto3, Redis and FastAPI internals.
