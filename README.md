# Trel contributed sensors, modelled in Dafny

This project models five sensors of the Trel contributed-code repository. A sensor
offers the catalogue new datasets through `get_new_datasetspecs`. Each offer is a
`(load_info, datasetspec)` pair. Later, `save_data_to_path(load_info, uri)` writes the
data of one offer to the URI the orchestrator chose.

- **Twitter** (`twitter.py`). The sensor walks a cron schedule backwards and offers
  every closed window that is not yet catalogued, newest first. It writes the tweets of
  one window to `part-00000` and uploads that folder. Between calls it keeps a live
  crawler, so the next, older window resumes where the last one stopped.
- **ODBC table load** (`odbc_table_load.py`). The URI scheme picks an S3 or a BigQuery
  destination. The sensor prepares it and streams the query's rows into staging files
  of up to twenty `fetchmany(batch_rows // 20)` fetches each. It transfers every file
  and then finishes.
- **Finnhub** (`finnhub_sensor.py`). For every configured ticker it queries the stock
  candles of one cron window, in order. It writes the rows and loads them into BigQuery
  with a fixed schema.
- **BigQuery table** (`sensor_bigquery_table.py`). It registers the tables of a dataset
  whose ids carry a timestamp after an optional prefix. Each table is considered once
  per sensor process.
- **Local file** (`sensor_local_file.py`). It offers every regular file of a folder that
  is neither known nor catalogued, and uploads an offered file.

## Modelling conventions

- Instants are integer seconds. `croniter` becomes a `Cron` value holding `prev` and
  `next` functions. `str(datetime)` is a `render` function.
- The source compares `created_ts` with `str(ts)` as strings. For `str(datetime)` that
  order agrees with time order, so the model compares integers.
- Generators are modelled run to the end. The tweet generator is a `CrawlLog` of
  requests, pages and yielded tweets. The crawler kept between `save_data_to_path` calls
  is the sequence of tweets it has still to yield.
- Every new crawler of one Twitter sensor yields the same sequence (`Twitter.NewCrawl`).
  The search API is an oracle, a fixed function of the request, and the crawl ignores
  its `until` argument (twitter.py line 125 passes it, the generator never reads it). The
  run lemmas of `Cursor` and `Twitter` rely on this: each call that starts a new crawler
  sees the same crawl.
- External services are function parameters (oracles):
  - the tweet search API;
  - Finnhub's `stock_candles`;
  - `strptime`;
  - the folder listing and the BigQuery table listing;
  - the rows a pyodbc cursor holds.
- Uploads, loads and table operations become entries of a transfer log, which the
  contracts state in full.
- A Python exception becomes a `Failure` or `Fail` carrying the exception's message.

One note on the ODBC staging files. Counting them as `n // (20 * fetch_rows) + 1`, for
`n` rows, is right only when `n % (20 * fetch_rows) <= 19 * fetch_rows`. Otherwise the
loop writes one more file, which is empty. So `append_data` runs
`(n + fetch_rows - 1) // (20 * fetch_rows) + 1` times in all.
`Batching.CountAgainstFloor` and `Batching.LastBatchSize` state both cases.

## Model

| member | source | states |
|---|---|---|
| `Text.Take` | sensors/twitter_s3/twitter.py:97 | Python's `s[:n]`: the first `n` elements, or all of a shorter `s`, and always a prefix of `s` |
| `Text.TakeNests` | sensors/twitter_s3/twitter.py:77-97 | truncating to a key length via a longer truncation gives the same key |
| `Text.Pad5Spec` | sensors/odbc_table_load/odbc_table_load.py:212-214 | `f"{n:>05}"` is all digits, at least five long, exactly five below 100000, and denotes `n` |
| `Text.Pad5Injective` | sensors/odbc_table_load/odbc_table_load.py:212-214 | different batch numbers give different padded numerals |
| `Text.DecimalValue` | sensors/odbc_table_load/odbc_table_load.py:212-214 | the numeral `str(n)` denotes `n` |
| `Schedule.KeyLength` | sensors/twitter_s3/twitter.py:75 | the key length exists exactly for D, H, M and S, and is one of 10, 13, 16 or 19; any other letter is a lookup error |
| `Schedule.KeyLengthsIncrease` | sensors/twitter_s3/twitter.py:75 | D, H, M and S keep 10, 13, 16 and 19 characters |
| `Schedule.ExistingKeys` | sensors/twitter_s3/twitter.py:77 | succeeds exactly when every dataset of the sensor's precision has an `instance_ts`; then a key is existing exactly when it is the truncated `instance_ts` of such a dataset |
| `Schedule.WalkChain` | sensors/twitter_s3/twitter.py:92-99 | the walk starts at `from`, each instant is `prev` of the one before, all lie in `(floor, from]`, and it stops at the first instant at or before `floor` |
| `Schedule.WalkTiles` | sensors/twitter_s3/twitter.py:87-99 | with an aligned cron, the window of each visited instant ends where the newer one begins, and the newest ends at the cron instant before `now` |
| `Schedule.MissingSpec` | sensors/twitter_s3/twitter.py:96-103 | the missing instants lie in `(floor, from]`, are not catalogued, strictly descend, and are exactly the uncatalogued instants of the walk |
| `Schedule.MissingBounds` | sensors/twitter_s3/twitter.py:96-98 | every missing instant lies in `(floor, from]` and has an uncatalogued key |
| `Schedule.MissingDescending` | sensors/twitter_s3/twitter.py:96-99 | the missing instants strictly descend |
| `Schedule.MissingMembers` | sensors/twitter_s3/twitter.py:96-99 | an instant is missing exactly when the walk visits it and its key is uncatalogued |
| `Schedule.WalkDescending` | sensors/twitter_s3/twitter.py:96-99 | the walk visits strictly older instants |
| `Schedule.MaxOf` | sensors/twitter_s3/twitter.py:103 | returns an element of the set that is at least every other element |
| `Schedule.SortDescending` | sensors/twitter_s3/twitter.py:103 | `sorted(s, reverse=True)`: strictly descending, with exactly the set's elements |
| `Schedule.DescendingUnique` | sensors/twitter_s3/twitter.py:103 | two strictly descending sequences with the same elements are equal |
| `TweetCrawl.ScanPageLoop` | sensors/twitter_s3/twitter.py:31-41 | the inner `for tweet in res` loop computes `ScanPage` |
| `TweetCrawl.ScanPageSpec` | sensors/twitter_s3/twitter.py:31-41 | a page yields a prefix of its parsed tweets, dropping unparsable dates; all of them unless a tweet older than `since_id` stops it; never an id below `since_id` |
| `TweetCrawl.Crawl` | sensors/twitter_s3/twitter.py:10-47 | the generator's `while` loop, run to the end, produces `CrawlFrom` from `tweet_count = 0` and no `min_id` |
| `TweetCrawl.CrawlUnfold` | sensors/twitter_s3/twitter.py:18-46 | one turn of the loop: request `min(max_tweets - count, tweets_per_query)` below `min_id`; stop on an empty page or a `since_id` stop, otherwise go on from the new count and the page's last id |
| `TweetCrawl.CrawlStep` | sensors/twitter_s3/twitter.py:18-46 | after what earlier turns logged, one more turn logs its request, its page and the page's tweets, then the generator ends on an empty page or a `since_id` stop, or the rest follows |
| `TweetCrawl.CrawlCons` | sensors/twitter_s3/twitter.py:18-46 | one turn's request and page come first, then the rest of the generator's |
| `TweetCrawl.JoinAssoc` | sensors/twitter_s3/twitter.py:18-46 | joining logs is associative, with the empty log as unit |
| `TweetCrawl.CrawlPages` | sensors/twitter_s3/twitter.py:18-29 | one page per request, each the search API's answer to it, and no request once the budget is spent |
| `TweetCrawl.BudgetedCons` | sensors/twitter_s3/twitter.py:18-21 | a budgeted request followed by budgeted later ones is budgeted |
| `TweetCrawl.CrawlBudget` | sensors/twitter_s3/twitter.py:18-45 | no request once `tweet_count` reaches `max_tweets`; each asks for the smaller of what is left and `tweets_per_query`, counting every tweet of earlier pages |
| `TweetCrawl.ChainedCons` | sensors/twitter_s3/twitter.py:19-46 | a request chained to the next page's `max_id` keeps the chain |
| `TweetCrawl.CrawlMaxIds` | sensors/twitter_s3/twitter.py:19-46 | the first request carries the starting `max_id`, and each later one asks for one below the last id of the previous page |
| `TweetCrawl.CrawlYields` | sensors/twitter_s3/twitter.py:28-41 | the generator yields a prefix of the parsed tweets of the fetched pages, all with `id >= since_id`, and all of them without `since_id` |
| `TweetCrawl.ParsedAppend` | sensors/twitter_s3/twitter.py:36-41 | parsing distributes over concatenation of tweets |
| `Cursor.FirstBelow` | sensors/twitter_s3/twitter.py:144-150 | the first tweet older than the bound: every earlier one is at or after it |
| `Cursor.Pull` | sensors/twitter_s3/twitter.py:135-154 | the `while True` loop writes only crawled tweets inside `[ts, ts_next)` and leaves a valid cursor |
| `Cursor.PullWritten` | sensors/twitter_s3/twitter.py:135-154 | the loop writes the window's tweets among those before the first tweet older than `ts`, in crawl order |
| `Cursor.PullParks` | sensors/twitter_s3/twitter.py:135-154 | the loop parks just past the first tweet older than `ts` and holds it, or clears the crawler on `StopIteration` |
| `Cursor.PullWindow` | sensors/twitter_s3/twitter.py:135-154 | on tweets that come newest first, a pull writes exactly the window |
| `Cursor.StepAsWritten` | sensors/twitter_s3/twitter.py:115-154 | one call as written: on reuse the carried last tweet is written first |
| `Cursor.StepAsWrittenLeaks` | sensors/twitter_s3/twitter.py:131-134 | windows `[100, 110)` then `[80, 90)`: the tweet of 95 lands in the `[80, 90)` partition as written, but not in the corrected call |
| `Cursor.Step` | sensors/twitter_s3/twitter.py:115-154 | one call, with the carried tweet held to the window: it writes only tweets inside `[ts, ts_next)` |
| `Cursor.StepWritten` | sensors/twitter_s3/twitter.py:115-154 | a call from no crawler, or from one parked at a bound at or after `ts_next`, writes exactly the window: a carried tweet at or after `ts_next` is dropped and the pull skips the rest of the gap |
| `Cursor.StepParks` | sensors/twitter_s3/twitter.py:115-154 | such a call leaves the cursor parked at `ts` |
| `Cursor.RunDescending` | sensors/twitter_s3/twitter.py:109-154 | over windows newest first with gaps allowed between them, the calls write each window's tweets in turn and park at the oldest window's start |
| `Cursor.RunDescendingStep` | sensors/twitter_s3/twitter.py:109-154 | in such a run from a fresh cursor, each call writes exactly the tweets of its own window |
| `Cursor.PartitionsCount` | sensors/twitter_s3/twitter.py:140-146 | over such windows, a tweet of the crawl is written as often as the crawl holds it when it falls in one of them, and never otherwise |
| `Cursor.Run` | sensors/twitter_s3/twitter.py:109-154 | consecutive calls keep the cursor valid |
| `Cursor.InWindowSplit` | sensors/twitter_s3/twitter.py:140-146 | on tweets newest first, the window `[lo, hi)` is `[mid, hi)` followed by `[lo, mid)` |
| `Cursor.InWindowCount` | sensors/twitter_s3/twitter.py:140-146 | a tweet appears in a window's output as often as in the crawl when it falls in the window, and otherwise never |
| `Cursor.RunPartition` | sensors/twitter_s3/twitter.py:109-154 | over consecutive windows, newest first, the calls together write exactly the tweets of the whole span, and the cursor ends parked at its start |
| `Cursor.RunAsWritten` | sensors/twitter_s3/twitter.py:109-154 | consecutive calls as written keep the cursor valid, and a call that reuses the crawler writes the carried tweet first |
| `Cursor.StepAsWrittenAgrees` | sensors/twitter_s3/twitter.py:128-154 | from a cursor with no crawler, or one parked at `ts_next`, the call as written and the corrected call give the same output and the same cursor |
| `Cursor.RunAsWrittenAgrees` | sensors/twitter_s3/twitter.py:109-154 | over consecutive windows from a fresh or parked cursor, the calls as written and the corrected calls agree |
| `Cursor.RunAsWrittenPartition` | sensors/twitter_s3/twitter.py:109-154 | so over consecutive windows from a fresh cursor, the source as written also writes exactly the tweets of the whole span |
| `Cursor.RunExactlyOnce` | sensors/twitter_s3/twitter.py:109-154 | every tweet created in the span is written exactly as often as the crawl holds it, and no other tweet is written |
| `Twitter.Windows` | sensors/twitter_s3/twitter.py:111-112 | each instant's window is `[t, next(t))`, in the same order |
| `Twitter.TwitterSensor.constructor` | sensors/twitter_s3/twitter.py:64-71 | the backfill horizon is `max_instance_age_seconds - 1`; locking defaults to 600; no crawler yet |
| `Twitter.TwitterSensor.GetNewDatasetSpecs` | sensors/twitter_s3/twitter.py:73-107 | an unknown precision is a `KeyError`, a matching dataset without `instance_ts` a type error; otherwise the offers are exactly the missing instants, newest first, each with `instance_ts = str(t)` |
| `Twitter.TwitterSensor.PullLoop` | sensors/twitter_s3/twitter.py:135-154 | the loop over the live crawler writes and parks as `Pull` says, changing nothing else |
| `Twitter.TwitterSensor.SaveDataToPath` | sensors/twitter_s3/twitter.py:109-163 | reuse or a new crawl as the source decides, with the carried tweet held to the window (the corrected call); the window `[ts, next(ts))` goes to `part-00000`; the folder is uploaded to the URI without its trailing `/`, and a URI without one fails the assertion |
| `Twitter.WalkWindows` | sensors/twitter_s3/twitter.py:84-99 | the instants the scheduler visits give consecutive windows, the newest ending at the cron instant before `now` |
| `Twitter.BackfillPartition` | sensors/twitter_s3/twitter.py:96-154 | backfilling every window of the walk, newest first, from a fresh sensor writes exactly the crawl's tweets from the oldest window's start up to the cron instant before `now`; the walk's windows are every offer when nothing is catalogued yet |
| `Twitter.MissingWindows` | sensors/twitter_s3/twitter.py:84-107 | the offered instants, which skip the catalogued ones, give windows newest first, each ending at or before the start of every newer one |
| `Twitter.BackfillMissing` | sensors/twitter_s3/twitter.py:96-154 | backfilling the offered windows newest first from a fresh sensor: each call writes exactly its own window's tweets, even with catalogued gaps between offers, and the run writes the windows' tweets one window after another |
| `Twitter.BackfillMissingOnce` | sensors/twitter_s3/twitter.py:96-154 | over the offered windows, a tweet is written as often as the crawl holds it when it falls in an offered window, and never otherwise |
| `Sink.TypeMapping` | sensors/odbc_table_load/odbc_table_load.py:228-266 | every listed SQL type maps, and only those; exactly the interval types map to INTERVAL |
| `Sink.Names` | sensors/odbc_table_load/odbc_table_load.py:178-180 | the column names, in column order |
| `Sink.FirstUnmapped` | sensors/odbc_table_load/odbc_table_load.py:279-280 | the first column whose type the table does not list |
| `Sink.Schema` | sensors/odbc_table_load/odbc_table_load.py:279-288 | succeeds exactly when every column type is listed, else the `KeyError` of the first unlisted one; one field per column, REQUIRED exactly when not nullable |
| `Sink.Sparse` | sensors/odbc_table_load/odbc_table_load.py:194 | `dict(filter(..., zip(col_names, row)))`: no null values, never more pairs than names or cells |
| `Sink.SparseCons` | sensors/odbc_table_load/odbc_table_load.py:194 | the pairing is the first name and cell, if not null, then the rest |
| `Sink.GetCons` | sensors/odbc_table_load/odbc_table_load.py:194 | a lookup hits the first pair or looks further |
| `Sink.SparseKeys` | sensors/odbc_table_load/odbc_table_load.py:194 | a name that is not a column name is never a key |
| `Sink.SparseLookup` | sensors/odbc_table_load/odbc_table_load.py:194 | with distinct names, key `col_names[i]` holds cell `i` exactly when that cell is not null |
| `Sink.BaseCell` | sensors/odbc_table_load/odbc_table_load.py:191-193 | a `datetime` becomes its `str`; every other cell stays |
| `Sink.BqCell` | sensors/odbc_table_load/odbc_table_load.py:296-303 | nulls stay null; DATE, TIME, DATETIME and INTERVAL cells become their `str`; BYTES become base64; others stay |
| `Sink.Scheme` | sensors/odbc_table_load/odbc_table_load.py:165 | succeeds exactly when the URI has a `:`, giving the colon-free text before the first one |
| `Sink.SchemeFailure` | sensors/odbc_table_load/odbc_table_load.py:165 | a URI without `:` fails to unpack |
| `Sink.SchemeSelects` | sensors/odbc_table_load/odbc_table_load.py:165 | a colon-free name is the scheme exactly when the URI starts with it and a colon |
| `Sink.SchemeOfPrefix` | sensors/odbc_table_load/odbc_table_load.py:165 | only one colon-free scheme can start a URI |
| `Sink.ProtocolOfSpec` | sensors/odbc_table_load/odbc_table_load.py:162-170 | `s3:` URIs select S3 and `bq:` URIs BigQuery, and no other URI selects either |
| `Sink.ProtocolOfError` | sensors/odbc_table_load/odbc_table_load.py:162-170 | any other scheme raises the message naming it and `['bq', 's3']`; a URI without `:` raises the unpacking error |
| `Sink.PartNamesDistinct` | sensors/odbc_table_load/odbc_table_load.py:208-220 | two staging objects have the same name exactly when their batch numbers agree, and none is named `_SUCCESS` |
| `Sink.CellAt` | sensors/odbc_table_load/odbc_table_load.py:190-193 | S3 converts a cell as the base class does; BigQuery converts it by its column's type, failing where the column or the type is missing |
| `Sink.FirstBadCell` | sensors/odbc_table_load/odbc_table_load.py:296-303 | the first cell that cannot be converted |
| `Sink.Dump` | sensors/odbc_table_load/odbc_table_load.py:194 | `json.dump` succeeds on a line exactly when every value can be written, giving the line back; otherwise it raises the `TypeError` naming the type of a value it cannot write |
| `Sink.SparseSerializable` | sensors/odbc_table_load/odbc_table_load.py:194 | every value of the sparse pairing can be written exactly when every paired cell can, since the dropped nulls can be |
| `Sink.EncodeRowTotal` | sensors/odbc_table_load/odbc_table_load.py:295-305 | after a successful `prepare`, with a row no wider than the columns, every cell converts, and the row encodes exactly when every converted cell paired with a name can be written by `json.dump` |
| `Sink.S3Encodes` | sensors/odbc_table_load/odbc_table_load.py:190-195 | an S3 row encodes exactly when no cell paired with a name is `bytes`, `date`, `time`, `Decimal` or `timedelta`, because only `datetime.datetime` is turned into text |
| `Sink.BqDecimalRaises` | sensors/odbc_table_load/odbc_table_load.py:295-305 | a `Decimal` in a `DECIMAL` or `NUMERIC` column is left unconverted, so a BigQuery row holding one with a name always raises |
| `Sink.EncodeRowConverted` | sensors/odbc_table_load/odbc_table_load.py:295-305 | a row whose every cell converts encodes to `json.dump` of the sparse pairing of the converted cells |
| `Sink.FirstUnmappedAt` | sensors/odbc_table_load/odbc_table_load.py:279-280 | the first unlisted column is where the lookup loop stops |
| `Sink.FirstBadCellAt` | sensors/odbc_table_load/odbc_table_load.py:296-303 | the first bad cell is where the conversion loop stops |
| `Sink.EncodeRowFails` | sensors/odbc_table_load/odbc_table_load.py:296-303 | when cell `i` is the first that cannot be converted, the row raises that cell's error |
| `Sink.SchemaFields` | sensors/odbc_table_load/odbc_table_load.py:284-288 | a successful schema holds one field per column, in order |
| `Sink.Destination.constructor` | sensors/odbc_table_load/odbc_table_load.py:172-174 | a new destination keeps its URI and sensor settings and has made no transfer |
| `Sink.Destination.BatchLog` | sensors/odbc_table_load/odbc_table_load.py:183-185 | one transfer per staging file |
| `Sink.Destination.BatchLogAt` | sensors/odbc_table_load/odbc_table_load.py:183-185 | transfer `i` is that of staging file `k + i` |
| `Sink.Destination.BatchLogAppend` | sensors/odbc_table_load/odbc_table_load.py:183-185 | one more file adds its transfer at the end |
| `Sink.Destination.Prepare` | sensors/odbc_table_load/odbc_table_load.py:176-181 | resets the counter, records the column names, then runs the class's own preparation; for BigQuery, an unlisted type or a format other than JSON raises before the table is dropped, leaving the schema as it was, and otherwise the schema is built and the table re-created |
| `Sink.Destination.CheckTypes` | sensors/odbc_table_load/odbc_table_load.py:279-282 | the lookup loop finds the first unlisted column |
| `Sink.Destination.BuildSchema` | sensors/odbc_table_load/odbc_table_load.py:284-288 | the `schema.append` loop builds `Schema(columns)` |
| `Sink.Destination.AppendData` | sensors/odbc_table_load/odbc_table_load.py:183-185 | the class's transfer of staging file `batch_num` is logged, then the counter moves on |
| `Sink.Destination.Finish` | sensors/odbc_table_load/odbc_table_load.py:187-188 | logs the class's finish: the empty `_SUCCESS` object for S3, nothing for BigQuery |
| `Sink.Destination.GetNextBatchNum` | sensors/odbc_table_load/odbc_table_load.py:197-198 | the current batch counter |
| `Sink.Destination.WriteRowToFile` | sensors/odbc_table_load/odbc_table_load.py:190-195 | converts the row array in place, left to right, then pairs it with the names and dumps it, raising `json.dump`'s `TypeError` for a value it cannot write; on a conversion error the cells before it stay converted (the BigQuery override is lines 295-305) |
| `Batching.FileTake` | sensors/odbc_table_load/odbc_table_load.py:134-140 | a staging file never takes more rows than remain |
| `Batching.CapIsProduct` | sensors/odbc_table_load/odbc_table_load.py:134-136 | `slots` full fetches hold `slots * fetch_rows` rows |
| `Batching.CapMono` | sensors/odbc_table_load/odbc_table_load.py:134-136 | more fetches hold more rows |
| `Batching.FileTakeClosedForm` | sensors/odbc_table_load/odbc_table_load.py:134-140 | a file takes all the rows up to `slots * fetch_rows`, and ends the loop exactly when an earlier fetch already held them all |
| `Batching.FileIsTwentyFetches` | sensors/odbc_table_load/odbc_table_load.py:134-140 | the closed form is what twenty fetches do |
| `Batching.Batches` | sensors/odbc_table_load/odbc_table_load.py:131-142 | the loop always produces at least one staging file |
| `Batching.NoRowsFetched` | sensors/odbc_table_load/odbc_table_load.py:122 | with `fetch_rows == 0` the loop writes one empty file and stops |
| `Batching.BatchesConcat` | sensors/odbc_table_load/odbc_table_load.py:131-142 | the staging files hold every row exactly once, in cursor order |
| `Batching.BatchesSizes` | sensors/odbc_table_load/odbc_table_load.py:131-142 | every file holds at most `20 * fetch_rows` rows, and every file but the last more than `19 * fetch_rows` |
| `Batching.BatchesShape` | sensors/odbc_table_load/odbc_table_load.py:131-142 | the number of files and the size of the last follow the loop |
| `Batching.FileCountClosedForm` | sensors/odbc_table_load/odbc_table_load.py:131-142 | that number is `(n + fetch_rows - 1) // (20 * fetch_rows) + 1` |
| `Batching.LastSizeClosedForm` | sensors/odbc_table_load/odbc_table_load.py:131-142 | the last file holds `n % (20 * fetch_rows)` rows when that is at most `19 * fetch_rows`, else none |
| `Batching.BatchesCount` | sensors/odbc_table_load/odbc_table_load.py:131-142 | `append_data` runs `(n + fetch_rows - 1) // (20 * fetch_rows) + 1` times |
| `Batching.CountAgainstFloor` | sensors/odbc_table_load/odbc_table_load.py:131-142 | that count is `n // (20 * fetch_rows) + 1` when the remainder is at most `19 * fetch_rows`, and one more otherwise |
| `Batching.LastBatchSize` | sensors/odbc_table_load/odbc_table_load.py:131-142 | the last staging file holds the remainder modulo `20 * fetch_rows`, or is empty when the remainder exceeds `19 * fetch_rows` |
| `Odbc.RowsRun` | sensors/odbc_table_load/odbc_table_load.py:136-138 | rows written one after the other give one line per row |
| `Odbc.FirstFailing` | sensors/odbc_table_load/odbc_table_load.py:136-138 | the first row that cannot be encoded |
| `Odbc.RowsRunSpec` | sensors/odbc_table_load/odbc_table_load.py:136-138 | writing succeeds exactly when every row encodes, and then line `i` is row `i`'s; otherwise the first failing row's error is raised |
| `Odbc.RowsRunAppend` | sensors/odbc_table_load/odbc_table_load.py:136-138 | writing `a + b` is writing `a` and then `b`, unless `a` raises |
| `Odbc.WriteMore` | sensors/odbc_table_load/odbc_table_load.py:136-138 | writing `t` more rows appends their lines |
| `Odbc.FailedPrefix` | sensors/odbc_table_load/odbc_table_load.py:136-138 | once a prefix of the rows raises, every longer prefix raises the same error |
| `Odbc.BatchesStep` | sensors/odbc_table_load/odbc_table_load.py:131-142 | one turn of `while not done` writes the first staging file, then the rest follow |
| `Odbc.FileRun` | sensors/odbc_table_load/odbc_table_load.py:133-140 | a file takes no more rows than remain, takes some unless it ends the loop, and takes them all when it does |
| `Odbc.LoadRunSpec` | sensors/odbc_table_load/odbc_table_load.py:131-142 | the load loop writes the lines of all the rows cut into `Batches`, or raises the first row error |
| `Odbc.FetchStep` | sensors/odbc_table_load/odbc_table_load.py:134-140 | one `fetchmany` of the file's loop extends the written prefix, or raises the file's error |
| `Odbc.WithinFile` | sensors/odbc_table_load/odbc_table_load.py:134 | rows that fit in at most twenty fetches fit in the file |
| `Odbc.FileEnd` | sensors/odbc_table_load/odbc_table_load.py:134-140 | the loop stops after an empty fetch or after twenty, where the closed form says |
| `Odbc.OdbcCursor.constructor` | sensors/odbc_table_load/odbc_table_load.py:130 | the cursor holds the query's rows |
| `Odbc.OdbcCursor.FetchMany` | sensors/odbc_table_load/odbc_table_load.py:136 | `fetchmany(n)` returns the next `n` rows, or all that remain, and drops them from the cursor |
| `Odbc.OdbcSensor.constructor` | sensors/odbc_table_load/odbc_table_load.py:92-94 | `batch_rows` defaults to 100000, `output_format` to "json", `compression` to "gz" |
| `Odbc.OdbcSensor.FetchRows` | sensors/odbc_table_load/odbc_table_load.py:122 | `batch_rows // 20`, but at least one |
| `Odbc.OdbcSensor.SaveDataToPath` | sensors/odbc_table_load/odbc_table_load.py:106-144 | a missing or unregistered scheme raises before anything else; otherwise a fresh destination of that protocol is prepared and loaded, leaving the log prepare, one transfer per staging file, finish, or raising a prepare or row error |
| `Odbc.OdbcSensor.PrepareAndLoad` | sensors/odbc_table_load/odbc_table_load.py:119-144 | `prepare`, then the load loop and `finish`, as `Saved` states |
| `Odbc.OdbcSensor.LoadSaved` | sensors/odbc_table_load/odbc_table_load.py:119-144 | a passed `prepare` and the loop's result give `Saved` |
| `Odbc.OdbcSensor.Load` | sensors/odbc_table_load/odbc_table_load.py:131-144 | the `while not done` loop and `finish` drain the cursor and log one transfer per staging file, numbered from 0, then finish; or raise the first row error |
| `Odbc.OdbcSensor.FillFile` | sensors/odbc_table_load/odbc_table_load.py:133-140 | one staging file of up to twenty fetches, as `FileRun` says |
| `Odbc.OdbcSensor.FetchBatch` | sensors/odbc_table_load/odbc_table_load.py:135-140 | one fetch writes its rows and tells whether it was empty |
| `Odbc.OdbcSensor.WriteRows` | sensors/odbc_table_load/odbc_table_load.py:136-138 | the rows of one fetch written one after the other, or the first error |
| `Odbc.OdbcSensor.WriteRow` | sensors/odbc_table_load/odbc_table_load.py:138 | `write_row_to_file` on one row encodes it |
| `Odbc.PrefixEmpty` | sensors/odbc_table_load/odbc_table_load.py:136-138 | nothing written before leaves the result unchanged |
| `Odbc.PrefixPrefix` | sensors/odbc_table_load/odbc_table_load.py:136-138 | lines written in two steps are the lines written at once |
| `Odbc.FilesEmpty` | sensors/odbc_table_load/odbc_table_load.py:131-142 | no earlier file leaves the result unchanged |
| `Odbc.FilesFiles` | sensors/odbc_table_load/odbc_table_load.py:131-142 | files written in two steps are the files written at once |
| `Finnhub.TickAt` | sensors/finnhub_bq/finnhub_sensor.py:35-36 | row `i` has every response key but `s`, plus `ticker`, each holding its list's element `i` |
| `Finnhub.Ticks` | sensors/finnhub_bq/finnhub_sensor.py:15-37 | `no_data` yields nothing; any status other than `ok` raises the Finnhub error; `ok` yields one row per element of `t`, or fails when a list is shorter |
| `Finnhub.Crawl` | sensors/finnhub_bq/finnhub_sensor.py:15-40 | the `for i in range(len(res['t']))` loop computes `Ticks` |
| `Finnhub.FirstRaising` | sensors/finnhub_bq/finnhub_sensor.py:95-100 | the first ticker whose crawl raises |
| `Finnhub.PullAllSpec` | sensors/finnhub_bq/finnhub_sensor.py:95-100 | the tickers are queried in order with the same bounds, up to and including the first that raises; then its error is raised |
| `Finnhub.PullAllAppend` | sensors/finnhub_bq/finnhub_sensor.py:95-100 | the rows come in blocks, in ticker order |
| `Finnhub.AfterEmpty` | sensors/finnhub_bq/finnhub_sensor.py:95-100 | nothing done before leaves the rest of the loop unchanged |
| `Finnhub.AfterAfter` | sensors/finnhub_bq/finnhub_sensor.py:95-100 | one ticker moved from the rest of the loop to what is done |
| `Finnhub.FinnhubSchema` | sensors/finnhub_bq/finnhub_sensor.py:107-115 | seven distinctly named fields, REQUIRED exactly for `ticker` and `t` |
| `Finnhub.FinnhubSensor.constructor` | sensors/finnhub_bq/finnhub_sensor.py:69-77 | the horizon is `max_instance_age_seconds - 1`; locking defaults to 600; the delay is 30 |
| `Finnhub.FinnhubSensor.BoundsCover` | sensors/finnhub_bq/finnhub_sensor.py:93-94 | a second is inside `[min_ts, max_ts]` exactly when it falls in `[ts, next(ts))` |
| `Finnhub.FinnhubSensor.SaveDataToPath` | sensors/finnhub_bq/finnhub_sensor.py:83-117 | every ticker is queried over the window's bounds in order; a crawl error is raised, and otherwise all rows are loaded into the URI with the fixed schema |
| `BigQueryTable.Drop` | sensors/bigquery_table/sensor_bigquery_table.py:52 | Python's `s[n:]`: what follows the first `n` characters, or nothing |
| `BigQueryTable.LoadsAppend` | sensors/bigquery_table/sensor_bigquery_table.py:62-67 | one more offer adds its table id |
| `BigQueryTable.BigQueryTableSensor.constructor` | sensors/bigquery_table/sensor_bigquery_table.py:21-33 | locking defaults to 30 seconds and nothing is known yet |
| `BigQueryTable.BigQueryTableSensor.FindMonitoredTables` | sensors/bigquery_table/sensor_bigquery_table.py:35-41 | a table is monitored exactly when it is listed and there is no prefix or its id starts with it |
| `BigQueryTable.BigQueryTableSensor.Suffix` | sensors/bigquery_table/sensor_bigquery_table.py:52 | a monitored id is the prefix followed by the suffix; without a prefix the suffix is the whole id |
| `BigQueryTable.BigQueryTableSensor.ConsiderSpec` | sensors/bigquery_table/sensor_bigquery_table.py:51-67 | a table is offered exactly when its suffix parses and is not older than `round_now` minus the maximum age; the offer carries `str(instance_ts)` and `bq://project/dataset/table` |
| `BigQueryTable.BigQueryTableSensor.GetNewDatasetSpecs` | sensors/bigquery_table/sensor_bigquery_table.py:43-67 | every monitored table becomes known; the offered ids are exactly the monitored, previously unknown tables that `Consider` keeps, each once and as `Consider` makes it; a second pass over a known listing offers nothing |
| `BigQueryTable.BigQueryTableSensor.OfferedStep` | sensors/bigquery_table/sensor_bigquery_table.py:49-67 | considering one more table keeps the offers exact, distinct and as `Consider` makes them |
| `BigQueryTable.BigQueryTableSensor.KeptAdd` | sensors/bigquery_table/sensor_bigquery_table.py:49-67 | one more considered table is kept exactly when `Consider` keeps it |
| `BigQueryTable.BigQueryTableSensor.KeptAll` | sensors/bigquery_table/sensor_bigquery_table.py:45-67 | the tables kept are the monitored, unknown ones that `Consider` keeps |
| `LocalFile.MonitoredFiles` | sensors/local_file/sensor_local_file.py:29-31 | a name is monitored exactly when the listing holds it as a regular file |
| `LocalFile.Prefixes` | sensors/local_file/sensor_local_file.py:36 | exactly the instance prefixes of the catalogued datasets |
| `LocalFile.NewFilesSpec` | sensors/local_file/sensor_local_file.py:37-43 | a file is offered exactly when it is listed, not known and not catalogued |
| `LocalFile.NewFilesAppend` | sensors/local_file/sensor_local_file.py:37-48 | offers keep listing order |
| `LocalFile.MatchedSpec` | sensors/local_file/sensor_local_file.py:40-41 | a file becomes known exactly when it is listed and catalogued |
| `LocalFile.OfferedAgain` | sensors/local_file/sensor_local_file.py:37-43 | marking the catalogued files known changes no offer, so an uncatalogued file is offered again on every pass |
| `LocalFile.NewFilesKnown` | sensors/local_file/sensor_local_file.py:38-43 | knowledge matters only for files with a matching dataset |
| `LocalFile.LocalFileSensor.constructor` | sensors/local_file/sensor_local_file.py:18-27 | locking defaults to 86400; nothing known or uploaded yet |
| `LocalFile.LocalFileSensor.OfferFor` | sensors/local_file/sensor_local_file.py:44-48 | the file name is load info and instance prefix; an instance time exactly when the sensor inserts one |
| `LocalFile.LocalFileSensor.Offers` | sensors/local_file/sensor_local_file.py:45-48 | one offer per file, in order |
| `LocalFile.LocalFileSensor.GetNewDatasetSpecs` | sensors/local_file/sensor_local_file.py:33-48 | the unknown, uncatalogued files are offered in listing order; the catalogued ones become known, and offered ones do not |
| `LocalFile.LocalFileSensor.SaveDataToPath` | sensors/local_file/sensor_local_file.py:50-55 | uploads `folder/load_info` to `uri + load_info` |

## Findings

| source | as written | input that shows it | evidently intended | confidence | as-written member | corrected member |
|---|---|---|---|---|---|---|
| sensors/twitter_s3/twitter.py:131-134 | on reuse, the carried last tweet is written when `created_ts >= str(ts)`, with no check against `ts_next` | windows `[100, 110)`, then `[80, 90)`, with the crawl holding tweets of 105 and 95: the first call stops at 95, and the second writes it into the `[80, 90)` partition | the carried tweet is written only when it falls inside `[ts, ts_next)`, like every other tweet | high, not executed | `Cursor.StepAsWrittenLeaks` | `Cursor.Step` |
| sensors/odbc_table_load/odbc_table_load.py:122 | `fetch_rows = batch_rows // 20` | `batch_rows = 10`: `fetch_rows` is 0 and no row is ever fetched, so the load uploads one empty file | at least one row per fetch | medium, not executed | `Batching.NoRowsFetched` | `Odbc.OdbcSensor.FetchRows` |

The rest of the model uses the corrected members. `Cursor.StepAsWritten` is the call as
the source writes it, and `Cursor.StepAsWrittenLeaks` exhibits the leak on it.
`Twitter.TwitterSensor.SaveDataToPath` and the partition lemmas are about `Cursor.Step`.
`Cursor.RunAsWrittenAgrees` shows that the two differ only when a run of windows has a gap:
over consecutive windows the source as written partitions the tweets too (`Cursor.RunAsWrittenPartition`).
Over the offered windows, where catalogued windows leave gaps, the corrected calls each write
exactly their own window (`Twitter.BackfillMissing`).
As written, a `batch_rows` below 20 gives `fetch_rows == 0`, and
`Batching.NoRowsFetched` shows that the loop then writes a single empty file.
`Odbc.OdbcSensor.Saved` and `Odbc.OdbcSensor.SaveDataToPath` use the corrected
`FetchRows`.

## Left out

- Network, disk and process I/O are not modelled as such. This covers the pyodbc connection, `print` and logging, temporary files and folders, the text `json.dump` writes, `gzip`, `rm -rf` and `sleep`. The `TypeError` of `json.dump` is modelled by `Sink.Dump`; the part of a line written before it raises is not. Each transfer becomes a log entry instead.
- `crawl` (Twitter): the `TweepError` retry after 30 seconds (lines 22-26) is left out, because a search call is an oracle that always answers. The `until` argument is accepted by the source and never used.
- Generators are modelled run to the end, so the lazy interleaving of yields with the caller is not captured.
- The `treldev` base class is not part of this model. It supplies the ODBC and Finnhub `get_new_datasetspecs_with_cron_and_precision`, `round_now` and `max_instance_age_seconds`, which BigQuery table takes as inputs. The cron walk in `Schedule` follows the Twitter sensor's own copy of that scheduler, at twitter.py lines 73-107.
- ODBC: `custom_sql`, `str.format` of the query, `cursor.execute`, the credential lookup and the BigQuery URI parsing are left out. The rows the cursor holds are an input, and the table columns are an input.
- ODBC: a negative `batch_rows` is excluded by its `nat` type.
- Odbc.OdbcSensor.Load: it requires `fetch_rows > 0`, which holds for the corrected `FetchRows`. The as-written zero case is `Batching.NoRowsFetched`.
- Odbc.OdbcSensor.FillFile: it requires `fetch_rows > 0`, for the same reason.
- ODBC: the S3 credentials and `S3Commands`, and BigQuery's `delete_table`, `create_table` and `load_file`, appear only as log entries. `Sink.KeyName` renders an `ObjectKey` as the object name.
- ODBC: the `assert output_format == 'json'` of the BigQuery `prepare_inner` is modelled as a failing `prepare`. Otherwise the output format plays no part, since every staging file is newline-delimited JSON.
- ODBC: the `AttributeError` that `write_row_to_file` would raise before `prepare` cannot happen in the model, because a destination is always prepared first.
- ODBC: duplicate column names are allowed. `Sink.SparseLookup` states the lookup only for distinct names, because Python's `dict` keeps the last duplicate.
- Sink.Dump: with duplicate column names the dumped `dict` holds only the last cell of each name, while `Sink.Dump` checks every paired cell, so a duplicate whose earlier cell cannot be written raises in the model but not in the source.
- Sink.Dump: the error names one value it cannot write, the first in pairing order; Python reports the first in the `dict`'s key order, which differs only with duplicate names.
- Twitter.TwitterSensor.SaveDataToPath: writes the carried last tweet only when it is before `ts_next` (the corrected call of the first finding); as written, lines 131-133 also write it when it is at or after `ts_next`. `Cursor.RunAsWrittenAgrees` shows the two agree over consecutive windows.
- Odbc.OdbcSensor.SaveDataToPath: on a row error, the transfers already made are not stated, only the raised error.
- Finnhub: `time.mktime` is taken as the identity on integer seconds. A response without `'s'` (a `KeyError`) is not representable, because `Candles` always has a status. The credentials and client open and close are left out, and so is the BigQuery URI parsing of `gcputils.BigQueryURI(uri)` (line 105), which can raise before the load; `SaveDataToPath` passes the raw `uri` to the load.
- BigQuery table: `save_data_to_path` does nothing (lines 69-71), so it has no model.
- BigQuery table: the catalogued `datasets` and `existing_tss` are computed but unused, and the model's `datasets` parameter is likewise unused.
- BigQuery table: Python's set iteration order is not specified, so the loop picks tables in an unspecified order. `strptime` and `str(datetime)` are oracle parameters.
- Local file: line 44 calls `datetime.datetime.now()` without importing `datetime`, so with `insert_instance_ts` set the source raises `NameError`. The model takes the current time as the input `now`. `os.path.expanduser` is assumed already applied to the folder, and `isfile` is a flag of each listing entry.
- Time zones, string formatting of datetimes and the string order of `created_ts` are abstracted to integers, as described above.
- The `lifecycle/` and `job_examples/` code and the `unittest` classes are not part of this model.
