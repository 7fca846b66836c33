# super-chart core in Dafny

super-chart is a browser app that plots very large CSV time series. A worker
holds the parsed rows in fixed-size column chunks. React hooks ask it for a
window of rows, and a second worker reduces that window to at most a
threshold number of buckets, each with a mean line and a min/max band. Small
hooks keep the view state and drive playback, and the chart component turns
the four downsampled series into the plotted band.

This project models that core as pure functions over immutable values and
proves properties of it:

- **Downsampling** (`Downsample`, `Stats`). This covers the bucket count,
  the base aligned to the absolute stride grid, each bucket's local range,
  the midpoint x, and the running min/max that start from the bucket's first
  sample.
- **Downsampler callers** (`DownsampleHooks`). The parameter normalisation
  and even-stride rule that both hooks share. The external hook's
  reqId/version response filter. The local hook's dispatch step.
- **Two-pass aggregation** (`Aggregates`). A reference definition, the
  loop-shaped method proved equal to it, and the aggregates worker's message
  dispatch. `AggregatesHook` models the single-in-flight, latest-queued
  coalescing of `useAggregates`.
- **CSV worker** (`ChunkStore`, `CsvWorker`). The chunked column store, the
  row-validation loop, `READ_WINDOW`, `CSV_AGG_REQ` (with its own loops over
  the store), `CSV_RELEASE`, and the completion rules of a file load.
- **Windows** (`WindowSlice`, `WindowFetch`). The local clamp-and-slice of
  `useWindowData` and `useWindowRows`. The request/retry protocol of
  `useWindowExternal` and `useExternalWindow`, which are the same logic
  under two names, so one model serves both.
- **View state** (`ViewStore`, `Playback`, `TargetPoints`, `ChartBand`).
  The store's clamping setters, the playback tick, the target-point formula
  and the chart's lo/hi band.

Data values are JavaScript numbers: `JsMath.Num = Fin(real) | PosInf |
NegInf | NaN`. `Less` is JavaScript `<`, so every comparison with NaN is
false. Sums, means and variances are exact reals. Indices and counts are
unbounded integers. Worker messaging, animation frames and React effects
become explicit state records with step functions: `WindowFetch.Hook`,
`DownsampleHooks.ExtHook`, `AggregatesHook.Coalescer` and
`ViewStore.State`.

Three behaviours of the code are worth stating on their own:

- **Bucket ordering needs a finite first sample.** The running extremes
  start from the bucket's first sample, not from +/-Infinity. A bucket whose
  first sample is NaN therefore reports NaN as both yMin and yMax while its
  mean comes from the finite samples, so it does not satisfy
  `min <= mean <= max` (`Downsample.NaNFirstSampleMasksExtremes`). For a
  bucket whose first sample is finite, yMin, yLine and yMax are the least,
  mean and greatest of its finite samples
  (`Downsample.DownsampleBucketOrdered`). The chart draws a NaN bucket as
  the bare line (`ChartBand.NaNBucketBandCollapses`).
- **A load with no valid row empties the store.** Storage is reset before
  parsing, so a non-empty file with no valid row leaves the store empty
  and the earlier dataset is gone (`CsvWorker.LoadReport`).
- **Negative starts.** A `READ_WINDOW` or `CSV_AGG_REQ` with a negative
  start and a non-empty range indexes a chunk that does not exist, and the
  handler throws. The model gives no reply in that case.

## Model

| member | source | states |
|---|---|---|
| Downsample.Downsample | src/worker/downsampleWorker.ts:34-49 | Up to the threshold, the window passes through as `(x, y, y, y)`. Above it, all four series have length `min(threshold, ceil(n / stride))`, so they never exceed the threshold. |
| Downsample.BaseAlignedOnGrid | src/worker/downsampleWorker.ts:52 | baseAligned is a multiple of the stride, with `startIndex - stride < baseAligned <= startIndex`. |
| Downsample.BucketStartFormula | src/worker/downsampleWorker.ts:54-56 | Bucket 0 starts at local index 0. Bucket i >= 1 starts at `i * stride - startIndex mod stride`. |
| Downsample.BucketInBounds | src/worker/downsampleWorker.ts:54-65 | Every bucket below the count has `0 <= start < end <= n` and `start <= midIdx < end`, so no read is out of bounds. |
| Downsample.FirstBucketsOverlap | src/worker/downsampleWorker.ts:55-57 | When the start is off the grid, bucket 0 covers `[0, stride)` and bucket 1 starts inside it, so the buckets do not partition the window. |
| Downsample.GridStable | src/worker/downsampleWorker.ts:52-57 | For i >= 1, bucket i's absolute start is `baseAligned + i * stride`, the same for any two starts in one stride block. |
| Downsample.DownsampleMidpointX | src/worker/downsampleWorker.ts:63-65 | Output x is the raw sample at `start + floor((end - start) / 2)`. |
| Downsample.BucketOrdered | src/worker/downsampleWorker.ts:67-85 | On a range with a finite first sample, the running min and max are the least and greatest finite sample, the mean lies between them, and every finite sample lies between them too. |
| Downsample.DownsampleBucketOrdered | src/worker/downsampleWorker.ts:67-85 | For output bucket i with a finite first sample, yMin[i], yLine[i] and yMax[i] are exactly the least, the mean and the greatest of the bucket's finite samples. They are finite, in that order, and bracket every finite sample of the bucket. |
| Downsample.DownsampleBucketNoFinite | src/worker/downsampleWorker.ts:70-85 | A bucket with no finite sample reports `y[start]` as line, min and max. |
| Downsample.NaNFirstSampleMasksExtremes | src/worker/downsampleWorker.ts:70-84 | A NaN first sample survives as yMin and yMax even when the bucket holds finite samples, and yMin <= yLine then fails. |
| Stats.MinFold | src/worker/downsampleWorker.ts:70-81 | The `<`-driven running minimum equals an independent outcome: the least finite entry when the start value is finite or +Infinity, and the start value itself when it is NaN or -Infinity or nothing is finite. |
| Stats.MaxFold | src/worker/downsampleWorker.ts:71-81 | The mirror of the running minimum for the running maximum. |
| DownsampleHooks.Stride | src/hooks/useDownsampleExternal.ts:58-59 | The stride is even and at least 2, with `rawStride <= stride <= rawStride + 1`, and `t` strides cover the n rows. |
| DownsampleHooks.StrideExamples | src/hooks/useDownsampleExternal.ts:58-59 | n = 1000 gives stride 6 at t = 200 and stride 10 at t = 100. |
| DownsampleHooks.StrideBoundsBuckets | src/hooks/useDownsampleExternal.ts:58-59 | With that stride, `ceil(m / stride) <= t` for any window of at most n rows, so the worker's bucket count is never capped by the threshold. |
| DownsampleHooks.NormalizeExternal | src/hooks/useDownsampleExternal.ts:40-42 | s is the start if finite, else 0. n is the size if finite and positive, else 1. t is `max(3, floor(threshold))` if finite, else 3. |
| DownsampleHooks.OnParams | src/hooks/useDownsampleExternal.ts:39-75 | Without a worker nothing happens. Otherwise reqId and version each go up by one. An empty window shows four empty series and posts nothing. A non-empty window posts its columns with the normalised t, the derived stride, s and the new token. |
| DownsampleHooks.OnMessage | src/hooks/useDownsampleExternal.ts:23-30 | The state changes only for an `AGG_RES` with the current reqId and version and non-empty x, and such a result is shown. |
| DownsampleHooks.StaleResponseDropped | src/hooks/useDownsampleExternal.ts:46-56 | After a newer parameter change (empty window or not), a response carrying the older token changes nothing. |
| DownsampleHooks.LatestTokenWins | src/hooks/useDownsampleExternal.ts:25-29 | After tokens T1 and T2 are issued, both arrival orders of their responses end in the same state, showing T2's result if it is acceptable. |
| DownsampleHooks.LocalStep | src/hooks/useDownsample.ts:45-65 | A missing window shows empty series, and no proxy means no dispatch. Otherwise the window is dispatched with `t = max(3, threshold)` and the stride `Stride(max(1, len), t)`. That stride is even, at least 2, and its bucket count is at most t. |
| DownsampleHooks.ApplyCompletions | src/hooks/useDownsample.ts:61-64 | Results are applied in completion order with no token check, so the last one to complete is shown, whichever request it answers. |
| DownsampleHooks.ApplyCompletionsAppend | src/hooks/useDownsample.ts:61-64 | Applying completions in two batches is the same as applying them all at once. |
| DownsampleHooks.OvertakenResultContrast | src/hooks/useDownsample.ts:61-64 | Request A is issued, then B, and B's result arrives first. The local hook ends up showing A's stale result, while the external hook keeps B's. |
| DownsampleHooks.ExternalMatchesLocal | src/hooks/useDownsampleExternal.ts:40-59 | When the window size is the window's length and the threshold a whole number, the external hook posts the same t and stride that the local hook dispatches. |
| DownsampleHooks.ExternalRequestUncapped | src/hooks/useDownsampleExternal.ts:40-59 | When the window has no more rows than the normalised size, a posted request's bucket count is `ceil(m / stride)`, at most t. The threshold cap never cuts it short. |
| DownsampleHooks.LocalDispatchBounded | src/hooks/useDownsample.ts:49-62 | A dispatched local request yields at most t points. |
| Aggregates.Aggregate | src/worker/aggregatesWorker.ts:26-86 | count is the number of finite entries, and the record is all zeros iff count is 0, including for empty input. min and max are finite entries that bracket every finite entry, with `min <= average <= max` and variance >= 0. One sample gives variance 0. |
| Aggregates.FirstPass | src/hooks/useAggregates.ts:70-84 | The first loop's count and sum are those of the finite entries, and its running extremes from +/-Infinity are the folds above. |
| Aggregates.SquaredDiffs | src/hooks/useAggregates.ts:98-106 | The second loop sums the squared deviations of the finite entries only. |
| Aggregates.CalculateAggregates | src/hooks/useAggregates.ts:59-117 | The two-pass code, with its early returns, equals the reference statistics on every input. |
| Aggregates.HandleAggregatesMessage | src/worker/aggregatesWorker.ts:88-111 | A `CALCULATE_AGGREGATES` message aggregates `data` and a `CALCULATE_AGGREGATES_XY` message aggregates `y`. The reply echoes reqId. A message of any other type gets no reply. |
| Aggregates.XYIgnoresX | src/worker/aggregatesWorker.ts:91-94 | The x column of an XY request never affects the reply, which equals the reply to a plain request over y. |
| AggregatesHook.OnWindow | src/hooks/useAggregates.ts:20-45 | With no window, nothing happens. While a computation runs, the window overwrites the single queued slot. Otherwise it is dispatched at once. At most one computation is ever in flight. |
| AggregatesHook.OnSettled | src/hooks/useAggregates.ts:22-36 | A success shows its result. The queued payload, if any, is dispatched and the slot cleared. |
| AggregatesHook.LatestWins | src/hooks/useAggregates.ts:39-44 | Of two windows arriving during a computation, only the second is ever dispatched. |
| ChunkStore.Grow | src/worker/csvWorker.ts:23-24 | Adds one zero chunk to each column and keeps every stored cell. |
| ChunkStore.EnsureCapacity | src/worker/csvWorker.ts:20-26 | Afterwards the index has a slot. Exactly `max(old, floor(i / CHUNK_SIZE) + 1)` chunks exist, the two lists stay parallel, old cells are kept and new ones read 0. |
| ChunkStore.WriteRow | src/worker/csvWorker.ts:28-34 | Row i holds `(x, y)` and no other cell changes. |
| ChunkStore.ReadWindow | src/worker/csvWorker.ts:47-57 | Returns `max(0, min(totalRows, start + count) - start)` rows, element k being stored row `start + k`. It fails exactly when a negative start meets a non-empty range. |
| CsvWorker.IngestRow | src/worker/csvWorker.ts:134-147 | A non-array, a short row or a non-finite field bumps the skip count. A valid row is written at index `next`, which then advances. Earlier rows are untouched. |
| CsvWorker.IngestRowsStore | src/worker/csvWorker.ts:132-147 | After a parse, the valid rows sit at consecutive indices in file order, and every row is counted once as written or skipped. |
| CsvWorker.IngestRowsAppend | src/worker/csvWorker.ts:132-134 | Where the parser splits the rows into chunks does not change the result. |
| CsvWorker.CsvAgg | src/worker/csvWorker.ts:62-67 | The range aggregates fail exactly when the matching window read fails. |
| CsvWorker.RangeFirstPass | src/worker/csvWorker.ts:68-82 | The handler's first loop over the store gives the count, sum and running extremes of the window's values. |
| CsvWorker.RangeSquaredDiffs | src/worker/csvWorker.ts:86-95 | The handler's second loop gives the sum of squared deviations of the window's values. |
| CsvWorker.CsvAggregates | src/worker/csvWorker.ts:62-100 | The `CSV_AGG_REQ` loops over the chunks equal the reference aggregates of the window a `READ_WINDOW` with the same bounds returns. |
| CsvWorker.Handle | src/worker/csvWorker.ts:40-172 | Reads and aggregates leave the store alone. A reply carries the `READ_WINDOW` rows or the range aggregates with the reqId echoed, and `DOWNSAMPLE` gets no reply. Release empties the store and acknowledges. An empty file reports an error and keeps the store. A non-empty file publishes the number of valid rows. |
| CsvWorker.LoadThenRead | src/worker/csvWorker.ts:146-156 | After a load, a read at any start >= 0 returns exactly the valid rows from that index, up to count of them. |
| CsvWorker.LoadReport | src/worker/csvWorker.ts:155-166 | With valid rows, the load reports ready with their number, plus the skipped count iff some were skipped. With none, it reports an error carrying the first parse error, if any, and nothing is readable. |
| CsvWorker.PartialLoadInvisible | src/worker/csvWorker.ts:120-156 | During a parse `totalRows` is still 0, so any read served meanwhile returns no rows. |
| CsvWorker.AggMatchesRead | src/worker/csvWorker.ts:62-100 | A `CSV_AGG_REQ` replies with the aggregates of exactly the y values the same `READ_WINDOW` returns, and both fail together. |
| CsvWorker.AggOfLoadedRows | src/worker/csvWorker.ts:62-100 | After a load, the range aggregates are those of the valid rows' y values in that range. |
| WindowSlice.WindowOf | src/hooks/useWindowData.ts:9-17 | Returns nothing iff a column is missing or empty. Otherwise the slice starts at the start clamped into `[0, total - 1]`, has 1 to `max(1, size)` rows (exactly that many when they fit), and element k is row `s + k` of both columns. |
| WindowSlice.WindowOfExample | src/__tests__/useWindowData.test.ts:8-13 | Columns 1..5 and 10..50 give `[2,3,4]` and `[20,30,40]` at (1, 3), and x = `[3,4,5]` at (2, 10). |
| WindowSlice.WindowRows | src/hooks/useWindowRows.ts:16-31 | External mode or a missing or empty column gives no rows. Otherwise there are `max(0, min(start + N, total) - start)` rows from the clamped start, row i pairing `x[start + i]` and `y[start + i]`. |
| WindowSlice.RowsZipWindow | src/hooks/useWindowRows.ts:26-30 | For N >= 1, the rows are the zip of the window slice for the same S and N. |
| TargetPoints.TargetPoints | src/hooks/useTargetPoints.ts:5 | At least 1, at most the width when width >= 1, and the whole width at ratio 1 or below. |
| TargetPoints.TargetPointsAntitone | src/hooks/useTargetPoints.ts:5 | A larger ratio never asks for more points. |
| TargetPoints.TargetPointsDefault | src/hooks/useTargetPoints.ts:3-5 | Width 1000 at ratio 2 asks for 500 points. |
| WindowFetch.HalfCount | src/hooks/useWindowExternal.ts:48 | The retry asks for at least 1 row and fewer than the first request. |
| WindowFetch.Rerun | src/hooks/useWindowExternal.ts:13-22 | A parameter change cancels the previous run, mints a strictly larger reqId, and schedules a frame with the normalised start and size. |
| WindowFetch.Unmount | src/hooks/useWindowExternal.ts:59-62 | The cleanup marks every run cancelled, and no pending frame remains. |
| WindowFetch.FireFrame | src/hooks/useWindowExternal.ts:22-57 | A pending frame starts listening for its own reqId and posts `READ_WINDOW` with its start and size. A cancelled frame never fires. |
| WindowFetch.Listener | src/hooks/useWindowExternal.ts:27-28 | Finds the run awaiting a given reqId, or reports that none is. |
| WindowFetch.Deliver | src/hooks/useWindowExternal.ts:23-54 | Only a `CSV_WINDOW` with an awaited reqId is taken. It can change the window or trigger a retry only for the live, uncancelled run. A retry happens only for an empty first reply to a request for more than one row, and goes out with a fresh id and half the rows. |
| WindowFetch.ReplyApplied | src/hooks/useWindowExternal.ts:31-53 | A reply to the live run is shown as received, with no new request. This covers a non-empty reply, an empty reply to a request for one row or fewer, and any reply to the retry. |
| WindowFetch.EmptyReplyRetriedOnce | src/hooks/useExternalWindow.ts:33-46 | An empty first reply for n > 1 rows is retried once, from the same start with `max(1, floor(n / 2))` rows, and the retry's reply is shown even when empty. |
| WindowFetch.RerunSupersedes | src/hooks/useWindowExternal.ts:27-29 | After a parameter change, no reply to an earlier request changes the window or triggers a request. |
| WindowFetch.UnmountSilences | src/hooks/useWindowExternal.ts:59-61 | After unmount, no reply changes the window or triggers a request. |
| ViewStore.SetN | src/store.ts:61-70 | With data, N is the request clamped into `[1, total]`, and S becomes `min(S, total - N)`. S is pulled back only as far as `S + N <= total` needs. Without data, N is `max(1, N)` and S is `min(S, 0)`. Nothing else changes. |
| ViewStore.SetNIdempotent | src/store.ts:61-70 | Setting the same size twice is the same as once. |
| ViewStore.JumpToEnd | src/store.ts:102-107 | S becomes `max(0, total - N)`, so a window that fits ends on the last row. |
| ViewStore.SetDownsampleRatio | src/store.ts:75 | The ratio is at least 1 and is the floor of any value >= 1. |
| ViewStore.SetTotalRows | src/store.ts:77 | Negative counts are stored as 0, and others as given. |
| ViewStore.SetCsvProcessMs | src/store.ts:78 | Negative durations are stored as 0, and others as given. |
| ViewStore.BumpDataVersion | src/store.ts:81 | The version goes up by exactly one, and nothing else changes. |
| ViewStore.Reset | src/store.ts:82 | S becomes 0, and nothing else changes. |
| ViewStore.ResetControls | src/store.ts:83-101 | Playback and view settings return to their defaults with external mode off. N becomes `min(5000, previous total)` (5000 without data). The columns, load status and data version are kept. |
| ViewStore.ResetControlsLocalIdempotent | src/store.ts:83-101 | In local mode, resetting twice is the same as once. |
| ViewStore.StoreExamples | src/__tests__/store.test.ts:13-27 | 100 rows at S = 90 with `setN(20)` give N = 20 and S = 80. 1234 external rows with `setN(200)` and then `jumpToEnd` give S = 1034. |
| Playback.Advance | src/hooks/usePlayback.ts:30-43 | With wrap, S moves on by `max(1, P)` modulo `maxStart + 1`, staying in `[0, maxStart]`, and playing continues. Without wrap, S becomes `min(S + max(1, P), maxStart)` and playing stops exactly when it reaches maxStart. |
| Playback.Frame | src/hooks/usePlayback.ts:25-52 | Before `max(1, T)` ms nothing changes. After that the state advances once, and the current time is recorded exactly when the step wraps or stays short of maxStart. A non-wrapping step that reaches maxStart stops without recording it. Another frame is requested iff still playing. |
| Playback.StoppedFrameStillSteps | src/hooks/usePlayback.ts:36-51 | A frame firing after playback was stopped short of the end still moves S on by `max(1, P)` and records the time, but requests no further frame. |
| Playback.JumpToEndIsLastStart | src/store.ts:102-107 | `jumpToEnd` lands on playback's last start `max(0, total - N)`, and a non-wrapping advance from there stays put and stops playing. |
| Playback.StopsAtEnd | src/hooks/usePlayback.ts:36-42 | Without wrap, playback stops within `max(1, maxStart - S)` advances, on maxStart. |
| Playback.WrapKeepsPlaying | src/hooks/usePlayback.ts:33-35 | With wrap, playback never stops by itself and S stays in `[0, maxStart]`. |
| ChartBand.BandAt | src/components/Chart.tsx:32-36 | The pair is the two fallback values in some order. It is ordered unless one of them is NaN. Finite ordered extremes pass through, and two non-finite extremes collapse to the line. |
| ChartBand.Align | src/components/Chart.tsx:22-41 | No data or a zero aligned length keeps the previous plot. Otherwise x and the line pass through untruncated, and the band has one pair per row up to the shortest of the four series. Each pair satisfies `BandAt`'s guarantees. |
| ChartBand.BandOfBucket | src/components/Chart.tsx:31-37 | On a downsampled bucket with a finite first sample, the band is exactly yMin..yMax and contains the line. |
| ChartBand.NaNBucketBandCollapses | src/components/Chart.tsx:34-36 | A bucket whose extremes are NaN is drawn as the bare line value. |
| ChartBand.PassthroughBandIsLine | src/components/Chart.tsx:22-41 | A window small enough to pass through is drawn with lo = hi = the line. |

## Left out

- CSV text decoding by Papa Parse is a foreign library. The model takes the parsed rows with their cells already converted by unary `+`, as `CsvWorker.RawRow`, and the parser's error list as a plain list of messages.
- The parser's `error` callback and the `try`/`catch` around parsing are left out. They post a message about a failure inside the library, which the model does not contain.
- `performance.now()`, `elapsedMs` and the aggregates worker's timing log are clock reads. `Playback.Frame` takes the frame time as a parameter instead.
- IEEE-754 rounding is left out: sums, means and variances are exact reals, and no bit-exact float result is claimed.
- JavaScript `| 0` int32 truncation is left out, along with the int32 wrap-around of huge values. Starts, counts, sizes and thresholds are unbounded integers.
- `DownsampleHooks.LocalStep` takes `threshold | 0` as an integer threshold.
- Fractional starts are not modelled. A typed start such as 2.5 can reach `useDownsampleExternal`, which posts it unchanged, and the worker then indexes at fractional positions. `DownsampleHooks.AggReq` carries the start as a real, but `Downsample.Downsample` takes an integer start.
- `WindowSlice.WindowOf` takes `startIndex | 0` and `windowSize | 0` as integers.
- `CsvWorker.Handle` takes start, count and reqId after `| 0`, as integers.
- A file load is one atomic step of `CsvWorker.Handle`. Papa Parse delivers chunks asynchronously, so a `CSV_RELEASE` or a second upload can be handled mid-parse, and `useCSVWorker` posts both for every new file. That interleaving is not modelled: neither the old parse regrowing zero-filled chunks after a release, nor two parses writing into one store with separate row counters.
- `CsvWorker.PartialLoadInvisible` states only that a read during a parse returns no rows (or fails, for a negative start). It says nothing about the half-written chunks.
- Worker creation, `postMessage` transfer lists, Comlink proxies and `getCSVWorker` are plumbing and are left out. Posted messages are returned values.
- The `useCSVWorker` event wiring is left out for the same reason.
- `requestAnimationFrame` scheduling is left out. Frames and replies are explicit steps the caller applies in any order.
- React dependency-array comparison, which decides when an effect re-runs, is left out. Each step is one effect run.
- `Playback.Starts` gives the start condition of the loop (playing and non-empty data), but the effect's cancel-on-stop is left out. Only the per-frame update has contracts.
- The chart's fps/EMA bookkeeping, draw hooks and uPlot options are rendering only and are left out.
- The other UI components and the CSV generator script are left out as rendering and file I/O.
- The plain store setters (`setS`, `setP`, `setT`, `setIsPlaying`, `setWrap`, `setUseExternalStorage`, `setCsvProcessing`, `setCsvError`, `setXY`) are not modelled as functions. They store their argument unchanged, and record update on `ViewStore.State` expresses each one.
- `CHUNK_SIZE` is the source's 1,000,000. The proofs never depend on its value beyond its being positive.
