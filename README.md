# Anomaly enrichment job — a Dafny model

This project models the daily anomaly-enrichment batch job of the leaders2022 API service and
the small stores and helpers it depends on:

- **The pipeline** (`Enrichment`, `EnrichmentProperties`). One run of
  `EnrichRequestsWithAnomaliesUsecase.Execute` does the following:
  - reads the one-row checkpoint `last_anomaly_check_job`;
  - gives up with "already active" when the row's flag is set;
  - otherwise raises the flag and takes the stored watermark as the window start;
  - counts the requests closed in `[watermark, now]`;
  - walks them in pages of 20000, ordered by `root_id`. For each page it sends the page to
    the scoring model and upserts the verdicts;
  - finally, in a deferred call, clears the flag. The watermark moves to `now` only if no
    step failed; otherwise the call passes nil.

  `EnrichRequestsWithAnomalies` is a class holding the checkpoint row, the anomaly store and
  the request table. `Execute` is proved to follow the pure function `Expected`, and the
  lemmas in `EnrichmentProperties` state what the job promises about `Expected`.
- **The checkpoint row** (`LastAnomalyCheckJob`): a class with the two fields `ts` and
  `isActive`. It has the read and the two `UPDATE … RETURNING ts` transitions.
- **The request source** (`RequestSource`). The two queries over `requests` that the job uses
  are the count and the `ORDER BY root_id LIMIT … OFFSET …` page. They are modelled as
  filter / sort / slice over a sequence of rows.
- **The anomaly store** (`AnomalyStore`). It has two tables keyed by `root_id`: model verdicts
  and operator overrides. The class offers the transactional batch upsert, the single upsert,
  the override upsert, and the joined read.
- **The scheduler wrapper** (`AnomaliesDailyJob.Run`). It calls the job at most five times.
  After each call that reports "already active" it sleeps `FibonacciRecursion(k+1)` minutes.
- **`FibonacciRecursion`** (`Fibonacci`).
- **The anomalies endpoint's query parsing** (`GetRequestsAnomaliesHandler`). This covers
  `splitToInts` and the derivation of the id list and case filter from the two query
  parameters. Go's `strings.Split` and `strconv.Atoi` are modelled as functions.

How inputs that the code does not control are modelled:
- `time.Now()` is the parameter `now`.
- The scoring service is a function parameter `predict`.
- Which calls to the database or the model fail is given by the `Faults` value. It holds one
  flag per single step, and the sets of page indices whose fetch, prediction or upsert fails.
  It also holds `fetchCut`, which maps a page index to the number of rows read before an error
  ended the streaming of that page. The page query does not report that error.
- `Execute` also returns the sequence of calls it made (`calls`). The properties about "no
  further calls", "exactly one release" and "pages fetched" are stated over that sequence.
- Times are integers. Go's zero `time.Time{}` is 0.

The code does the following, and the model follows it:
- `now` is taken before the checkpoint is read.
- Checking the flag and raising it are two separate, unconditional statements, not one atomic
  compare-and-set.
- The release runs whenever the activation succeeded. This includes the zero-count exit, where
  it passes `now`.

## Model

| member | source | states |
|---|---|---|
| `Fibonacci.BaseCase` | utils/fibonacci.go:8-11 | F(n) = n for every n <= 1, negative n included |
| `Fibonacci.Recurrence` | utils/fibonacci.go:13 | F(n) = F(n-1) + F(n-2) for n >= 2 |
| `Fibonacci.Bounds` | utils/fibonacci.go:8-14 | F(n) >= 0 for n >= 0 and F(n) >= 1 for n >= 1 |
| `Fibonacci.Monotone` | utils/fibonacci.go:8-14 | F is non-decreasing on the non-negative integers |
| `Fibonacci.FirstValues` | utils/fibonacci.go:8-14 | F(1..5) = 1, 1, 2, 3, 5 |
| `Fibonacci.FibonacciIterative` | utils/fibonacci.go:8-14 | a two-accumulator loop computes the same value as the recursion, for every n |
| `AnomaliesDailyJob.Run` | framework/scheduler/anomaliesDailyJob.go:37-62 | with k the counter of the first call that returns false (5 if none), Run makes k+1 calls (5 when k = 5) and records exactly the sleeps F(1), ..., F(k) |
| `AnomaliesDailyJob.FirstFalseFacts` | framework/scheduler/anomaliesDailyJob.go:46-61 | the stopping counter is at most 5, every earlier call returned true, and the call at the counter (if below 5) returned false |
| `AnomaliesDailyJob.DelaysAt` | framework/scheduler/anomaliesDailyJob.go:52-58 | one sleep per true result, and the sleep after the call with counter m lasts F(m+1) minutes |
| `AnomaliesDailyJob.DelaysSum` | framework/scheduler/anomaliesDailyJob.go:52-58 | the sleeps after n true results add up to F(n+2) - 1 minutes |
| `AnomaliesDailyJob.CallsAndSleepsBounded` | framework/scheduler/anomaliesDailyJob.go:37-58 | the number of sleeps equals the number of true results, which is at most 5, and all those results came first |
| `AnomaliesDailyJob.FirstFalseStops` | framework/scheduler/anomaliesDailyJob.go:52-61 | when the call with counter k is the first to return false, the loop stops there after exactly k sleeps |
| `AnomaliesDailyJob.AllActiveDelays` | framework/scheduler/anomaliesDailyJob.go:46-58 | five true results give the sleeps [1, 1, 2, 3, 5], including one after the last attempt |
| `AnomaliesDailyJob.TotalSleepBounded` | framework/scheduler/anomaliesDailyJob.go:37-58 | one run sleeps at most 12 minutes in total |
| `LastAnomalyCheckJob.CheckpointRow.GetLastTimestamp` | usecase/repository/lastAnomalyCheckJobPostgresRepository.go:25-36 | returns the stored (ts, is_active) and changes nothing; a failed scan gives the zero time, false and an error |
| `LastAnomalyCheckJob.CheckpointRow.SetJobAsActive` | usecase/repository/lastAnomalyCheckJobPostgresRepository.go:38-59 | sets the flag whatever it was, keeps ts and returns it; a failed statement gives the zero time and an error and leaves the row unchanged |
| `LastAnomalyCheckJob.CheckpointRow.SetJobAsInactive` | usecase/repository/lastAnomalyCheckJobPostgresRepository.go:61-83 | clears the flag and sets ts to the new time, or keeps it for nil, and returns the resulting ts; a failed statement gives the zero time and an error and leaves the row unchanged |
| `LastAnomalyCheckJob.MarkActiveIdempotent` | usecase/repository/lastAnomalyCheckJobPostgresRepository.go:38-47 | activating twice equals activating once; activation keeps ts |
| `LastAnomalyCheckJob.ActivateThenReleaseNil` | usecase/repository/lastAnomalyCheckJobPostgresRepository.go:38-47 | activation followed by a nil release restores the original ts with the flag cleared |
| `LastAnomalyCheckJob.ReleaseWithTime` | usecase/repository/lastAnomalyCheckJobPostgresRepository.go:61-71 | a release with time t leaves exactly (t, inactive), whatever the row held |
| `RequestSource.Candidates` | usecase/repository/hcsPostgresRepository.go:472-474 | the selected rows are exactly the table rows whose closure date is non-null and inside [from, to], both ends included; no row is added |
| `RequestSource.CandidatesCounts` | usecase/repository/hcsPostgresRepository.go:472-474 | each row inside the window appears in the selection exactly as many times as in the table, and every other row not at all |
| `RequestSource.SortCorrect` | usecase/repository/hcsPostgresRepository.go:475 | ordering by root_id keeps the same rows (as a multiset) and yields a sequence sorted by root_id |
| `RequestSource.RootIdLeqTotal` | usecase/repository/hcsPostgresRepository.go:475 | any two root_ids are comparable in the order used |
| `RequestSource.RootIdLeqTransitive` | usecase/repository/hcsPostgresRepository.go:475 | the order used on root_ids is transitive |
| `RequestSource.WindowCharacterised` | usecase/repository/hcsPostgresRepository.go:471-475 | the ordered result set is the rows the WHERE clause selects, as a multiset, sorted by root_id; a row is in it iff it is a table row matching the WHERE clause |
| `RequestSource.CountRequestsByClosureTime` | usecase/repository/hcsPostgresRepository.go:377-397 | the count is the number of rows with a non-null closure date in [from, to], which is also the size of the page query's ordered result set; a failed scan is an error |
| `RequestSource.Slice` | usecase/repository/hcsPostgresRepository.go:476-477 | LIMIT/OFFSET over n ordered rows: the page has min(limit, n - offset) rows, none when offset >= n, and is the run of the ordered set that starts at position offset |
| `RequestSource.PrefixOfSlice` | usecase/repository/hcsPostgresRepository.go:499-579 | the first m rows of a LIMIT L OFFSET o page are the page with LIMIT min(m, L) at the same offset |
| `RequestSource.GetRequestsByClosureTime` | usecase/repository/hcsPostgresRepository.go:481-580 | the query as written, for a non-negative limit. A failed query gives an error. A negative offset, which PostgreSQL rejects only while the rows stream, gives a successful empty page. Otherwise a failed row scan gives an error, and a success holds at most limit rows, a prefix of the LIMIT/OFFSET slice of the ordered window; with no fault it is the whole slice. An error while the rows stream is not reported, so the call succeeds with the rows read before the error |
| `RequestSource.GetRequestsByClosureTimeChecked` | usecase/repository/hcsPostgresRepository.go:499-579 | the query with `rows.Err()` checked after the loop: it succeeds iff the offset is non-negative and no fault occurs, a page that comes back is always the whole LIMIT/OFFSET slice, and a negative offset is reported as an error unless the query call itself failed |
| `RequestSource.InterruptedPageIsShort` | usecase/repository/hcsPostgresRepository.go:499-579 | an error after `read` rows of a longer page: the query as written succeeds with `read` rows, fewer than the page holds; the checked query reports the error |
| `RequestSource.NegativeOffsetLooksEmpty` | usecase/repository/hcsPostgresRepository.go:481-580 | a negative offset: the query as written returns an empty page with no error, as for an empty window; the checked query reports the rejection |
| `RequestSource.CeilDiv` | usecase/enrichRequestsWithAnomaliesUsecase.go:96 | the page count q is the least q with q * 20000 >= count (0 for a zero count) |
| `RequestSource.ConcatPagesRange` | usecase/enrichRequestsWithAnomaliesUsecase.go:96-99 | the pages at offsets L*i, ..., L*(k-1), concatenated, are exactly the ordered rows between positions L*i and L*k |
| `RequestSource.CeilDivCovers` | usecase/enrichRequestsWithAnomaliesUsecase.go:96 | ceil(n/L) pages of L rows reach past the last row |
| `RequestSource.PagesCoverWindow` | usecase/repository/hcsPostgresRepository.go:383-384 | count and page use the same predicate, so the pages at offsets 0, L, ..., (ceil(n/L)-1)*L of an unchanged table are the ordered window: every counted row once, in order |
| `AnomalyStore.UpsertAllAt` | usecase/repository/requestAnomaliesPostgresRepository.go:48-56 | after a batch upsert every key of the batch holds the row of its last entry, the keys are the old ones plus the batch's, and every other row is unchanged |
| `AnomalyStore.UpsertAllIdempotent` | usecase/repository/requestAnomaliesPostgresRepository.go:48-56 | upserting the same batch twice leaves the table as upserting it once |
| `AnomalyStore.UpsertAllReplaces` | usecase/repository/requestAnomaliesPostgresRepository.go:52-55 | what a batch writes for its keys does not depend on the previous rows: rows are replaced, not merged |
| `AnomalyStore.UpsertAllAppend` | usecase/repository/requestAnomaliesPostgresRepository.go:78-88 | upserting two batches in turn equals upserting their concatenation |
| `AnomalyStore.AnomalyStore.UpsertAnomalies` | usecase/repository/requestAnomaliesPostgresRepository.go:66-101 | on commit the verdicts become the batch upsert of the old table; a failure at begin, batch close or commit returns an error and leaves the table as it was; overrides are untouched |
| `AnomalyStore.AnomalyStore.UpsertAnomaly` | usecase/repository/requestAnomaliesPostgresRepository.go:48-64 | three arguments for four placeholders: every call fails with an argument-count error and writes nothing |
| `AnomalyStore.AnomalyStore.SetCustomRequestAnomaly` | usecase/repository/requestAnomaliesPostgresRepository.go:161-175 | inserts or replaces the override for one key and changes no model verdict; a failure changes nothing |
| `AnomalyStore.AnomalyStore.GetAnomaliesByRootIds` | usecase/repository/requestAnomaliesPostgresRepository.go:103-159 | the read as written. A failed query or row scan gives an error. Otherwise it returns the requested keys that have a stored verdict whose stored model cases meet a non-empty filter: all of them, or, after an unreported error while the rows stream, only those delivered before it. In each row is_anomaly is the override when present, a false override empties the cases, and is_custom says whether an override exists |
| `AnomalyStore.AnomalyStore.GetAnomaliesByRootIdsChecked` | usecase/repository/requestAnomaliesPostgresRepository.go:142-158 | the read with `rows.Err()` checked after the loop: it succeeds iff no fault occurs, and then returns exactly the selected keys |
| `AnomalyStore.AnomalyStore.InterruptedReadDropsRow` | usecase/repository/requestAnomaliesPostgresRepository.go:142-158 | a selected row not delivered before a streaming error: the read as written succeeds without it, and the checked read reports the error |
| `Enrichment.ConversionsAreInverse` | usecase/enrichRequestsWithAnomaliesUsecase.go:142 | the entity/DTO conversions are type conversions: each is undone by the other, both ways round |
| `Enrichment.RequestEntitiesToDtos` | usecase/enrichRequestsWithAnomaliesUsecase.go:138-146 | the slice filled index by index has the input's length and converts back to the input element by element |
| `Enrichment.ResponseDtosToEntities` | usecase/enrichRequestsWithAnomaliesUsecase.go:148-156 | the slice filled index by index has the input's length and converts back to the input element by element |
| `Enrichment.EnrichRequestsWithAnomalies.ProcessPage` | usecase/enrichRequestsWithAnomaliesUsecase.go:97-132 | one loop iteration: fetches page i at offset 20000*i, predicts it, upserts the verdicts, and stops at the first failing step with the store unchanged by that page |
| `Enrichment.EnrichRequestsWithAnomalies.ProcessWindow` | usecase/enrichRequestsWithAnomaliesUsecase.go:77-133 | counts, returns at once for a failed or zero count, walks ceil(count/20000) pages and stops at the first failing page; the time handed to the release is nil exactly on failure |
| `Enrichment.EnrichRequestsWithAnomalies.Execute` | usecase/enrichRequestsWithAnomaliesUsecase.go:37-136 | the result, the checkpoint row, the verdict table and the calls made are those of `Expected`; overrides are untouched |
| `EnrichmentProperties.EarlyExits` | usecase/enrichRequestsWithAnomaliesUsecase.go:43-65 | a failed read, an active row or a failed activation end the run: row and verdicts unchanged, "already active" only for an active row, no call after the read (or after the activation), no release |
| `EnrichmentProperties.ReleaseExactlyOnce` | usecase/enrichRequestsWithAnomaliesUsecase.go:57-75 | once the activation succeeded the row is released exactly once, as the last call |
| `EnrichmentProperties.WatermarkAdvancesIffAllSucceeded` | usecase/enrichRequestsWithAnomaliesUsecase.go:38-131 | the release passes now iff the count and every fetch, prediction and upsert succeeded, else nil; so the watermark becomes now iff all succeeded (and the release went through) |
| `EnrichmentProperties.ZeroCountAdvances` | usecase/enrichRequestsWithAnomaliesUsecase.go:89-92 | with nothing closed in the window no page is fetched, nothing is predicted or upserted, and the watermark still advances to now |
| `EnrichmentProperties.PagesFetched` | usecase/enrichRequestsWithAnomaliesUsecase.go:96-99 | the fetches are pages 0, 1, ... of window [watermark returned by the activation, now], limit 20000, offset 20000*i, up to ceil(count/20000) pages or the first failing page |
| `EnrichmentProperties.FetchCallsAt` | usecase/enrichRequestsWithAnomaliesUsecase.go:97-99 | the m-th fetch of pages i..k-1 is page i+m, with limit 20000 and offset 20000*(i+m) |
| `EnrichmentProperties.FirstFailureStops` | usecase/enrichRequestsWithAnomaliesUsecase.go:96-133 | the verdicts are those of the pages before the first failing page, upserted in order, and no later page reaches the store. The model was sent the rows fetched for the pages before it, then the failing page's rows unless its fetch failed, and nothing later. A failed count changes nothing and sends nothing |
| `EnrichmentProperties.FullSuccessCoversWindow` | usecase/enrichRequestsWithAnomaliesUsecase.go:96-123 | on full success, with no page cut short by an unreported streaming error, the model was sent every request of the window exactly once, in root_id order |
| `EnrichmentProperties.SilentCutAdvancesWatermark` | usecase/enrichRequestsWithAnomaliesUsecase.go:96-131 | with the page query as written: a one-page window whose streaming fails after n of its rows sends only n rows to the model, yet the release passes `now` and the watermark moves to `now` |
| `EnrichmentProperties.CheckedFaults` | usecase/repository/hcsPostgresRepository.go:499-579 | the faults as a job with checked page queries meets them: a page cut short becomes a failed fetch, and no page is cut |
| `EnrichmentProperties.CheckedFetchAgrees` | usecase/repository/hcsPostgresRepository.go:499-579 | the checked page query under the faults succeeds exactly when the query as written does under CheckedFaults, with the same rows |
| `EnrichmentProperties.CheckedFullSuccessCoversWindow` | usecase/enrichRequestsWithAnomaliesUsecase.go:96-131 | with checked page queries, whenever the release passes `now` the model was sent every request of the window exactly once, in root_id order, whatever the faults |
| `EnrichmentProperties.FirstFailureFacts` | usecase/enrichRequestsWithAnomaliesUsecase.go:100-131 | the stopping page is the least failing page, or the page count exactly when no page fails |
| `GetRequestsAnomaliesHandler.Split` | framework/api/getRequestsAnomaliesHandler.go:16 | a split always has at least one piece |
| `GetRequestsAnomaliesHandler.SplitPiecesFree` | framework/api/getRequestsAnomaliesHandler.go:16 | no piece of a split holds the separator |
| `GetRequestsAnomaliesHandler.JoinSplit` | framework/api/getRequestsAnomaliesHandler.go:16 | joining the pieces with the separator gives the string back |
| `GetRequestsAnomaliesHandler.SplitJoin` | framework/api/getRequestsAnomaliesHandler.go:16 | splitting a join of separator-free pieces gives the pieces back |
| `GetRequestsAnomaliesHandler.Atoi` | framework/api/getRequestsAnomaliesHandler.go:20 | a parsed value fits in int64 and the text starts with a sign or a digit |
| `GetRequestsAnomaliesHandler.AtoiItoa` | framework/api/getRequestsAnomaliesHandler.go:20 | every int64 read back from its decimal rendering is itself |
| `GetRequestsAnomaliesHandler.SplitToInts` | framework/api/getRequestsAnomaliesHandler.go:15-30 | the values are those of the split pieces that parse, in order; pieces that fail to parse are skipped |
| `GetRequestsAnomaliesHandler.ParsedIntsLength` | framework/api/getRequestsAnomaliesHandler.go:16-27 | there are no more values than pieces |
| `GetRequestsAnomaliesHandler.ParsedIntsAppend` | framework/api/getRequestsAnomaliesHandler.go:19-27 | parsing two runs of pieces is parsing each and concatenating the results |
| `GetRequestsAnomaliesHandler.ParsedIntsMembers` | framework/api/getRequestsAnomaliesHandler.go:19-27 | a value is in the result iff some piece parses to it |
| `GetRequestsAnomaliesHandler.ParsedIntsAllParse` | framework/api/getRequestsAnomaliesHandler.go:19-27 | when every piece parses there is one value per piece, in order |
| `GetRequestsAnomaliesHandler.EmptyInputNoValues` | framework/api/getRequestsAnomaliesHandler.go:16-24 | the empty string is one empty piece, which does not parse, so it gives no values |
| `GetRequestsAnomaliesHandler.RoundTrip` | framework/api/getRequestsAnomaliesHandler.go:15-30 | int64 values rendered in decimal and joined by commas parse back to the same list |
| `GetRequestsAnomaliesHandler.DeriveFilters` | framework/api/getRequestsAnomaliesHandler.go:67-80 | ids are the comma split of root_ids and never empty, so the empty-ids branch cannot run; cases are empty for an empty parameter and otherwise the parsed split, which also agrees for the empty one |

## Left out

- Mutual exclusion across processes. The flag is read and then raised in two separate
  statements, with no atomicity. The model is single-threaded and sequential.
- Real time and sleeping. `time.Now()` is a parameter. `time.Sleep` is recorded as a list of
  delays in minutes. The cron library and the timezone set-up of the scheduler are not modelled.
- `math.Ceil` over `float64` for the page count is modelled as integer ceiling division. The two
  agree for every count below 2^53.
- The HTTP clients for the scoring model and the plot service, the random mock predictor and
  the file service. These are network I/O and randomness. The scoring model is a function
  parameter whose call may fail.
- Logging through `zap` and `log.Print`.
- The dashboard aggregate queries of both repositories, and the points and full-request queries
  of the request repository.
- HTTP binding and validation, the router, the server, dependency wiring, configuration and the
  database pool. The pass-through services are left out too; the one with logic,
  `requestAnomaliesService.GetAnomaliesByRootIds`, only replaces an empty case list by an empty
  one, which changes nothing in the model.
- The definitions of the model DTOs are not part of this model. They are taken to carry the same
  fields as the entities they are converted from, as the type conversions require.
- `RequestSource.Request` keeps only the key, the closure date, the previous closure date and the
  other columns as text. The remaining columns of the 70-column row are not modelled one by one.
- `RequestSource.SortCorrect`: `ORDER BY root_id` is modelled as code-point order on the key,
  with ties kept in table order. The database collation and its order among equal keys are not
  modelled.
- `RequestSource.PagesCoverWindow`: the table is taken to be unchanged during a run. Offset
  paging over a table that changes between pages can skip or repeat rows, and that is not
  modelled. Coverage also depends on rows with equal root_id keeping the same relative order
  in every separate LIMIT/OFFSET query. PostgreSQL does not guarantee that, and the fixed tie
  order of `SortCorrect` (the line above) assumes it.
- The `pgx.ErrNoRows` branches after `Pool.Query` (hcsPostgresRepository.go:490-491 and
  requestAnomaliesPostgresRepository.go:133-134) are not modelled. `Pool.Query` does not return
  that error, so the branches never run.
- `RequestSource.GetRequestsByClosureTime` requires a non-negative limit. Go's `make` at
  hcsPostgresRepository.go:486 panics on a negative capacity before any query is sent, and a
  panic is not modelled. The job only ever passes 20000.
- `netProbability` (a Go `*float32`) is modelled as an optional real number. The value is only
  passed through, so float32 rounding and NaN are not modelled.
- `LastAnomalyCheckJob.CheckpointRow.GetLastTimestamp`: the read has no `WHERE name =
  'anomaly_job'`, only `LIMIT 1`, while the two updates select that row by name. The table is
  taken to hold only the `anomaly_job` row.
- `AnomalyStore.AnomalyStore.GetAnomaliesByRootIds` returns a map keyed by root_id rather than a
  list, because the statement has no ORDER BY. The map does not fix an order of the rows.
- `GetRequestsAnomaliesHandler.Split` covers a one-character separator only. Every call site
  uses ",".
- `Fibonacci.FibonacciIterative` and the delays use unbounded integers. Go's `int` would overflow
  beyond F(92), far from the arguments 1 to 5 used here.
- Failures of the database and of the model are given as an input (`Faults`), not produced by
  the model. The model does not say why a call fails.
- The job model (`Expected`, `Execute`) uses the page query as written. The job with checked
  page queries is `Expected` under `CheckedFaults`, which `CheckedFetchAgrees` justifies; no
  separate method models it.

## Findings

| source | as written | input that shows it | evidently intended | confidence | as-written member | corrected member |
|---|---|---|---|---|---|---|
| usecase/repository/hcsPostgresRepository.go:499-579 | the loop over `rows.Next()` ends on a streaming error and `rows.Err()` is never checked, so the page comes back shortened with a nil error; the job then treats the page as whole and moves the watermark to `now` | a window of at most 20000 rows whose stream fails after n rows, n below the window size; or a negative offset, which comes back as an empty page | report the error after the loop, so that the page fails, the job releases with nil and the rows are retried next run | high (not executed) | `RequestSource.InterruptedPageIsShort`, `RequestSource.NegativeOffsetLooksEmpty`, `EnrichmentProperties.SilentCutAdvancesWatermark` | `RequestSource.GetRequestsByClosureTimeChecked`, `EnrichmentProperties.CheckedFullSuccessCoversWindow` |
| usecase/repository/requestAnomaliesPostgresRepository.go:142-158 | the same loop shape: a streaming error ends the loop and the rows read so far come back with a nil error | a requested, selected root_id whose row was not delivered before the stream failed | report the error after the loop | high (not executed) | `AnomalyStore.AnomalyStore.InterruptedReadDropsRow` | `AnomalyStore.AnomalyStore.GetAnomaliesByRootIdsChecked` |
