# ctcityscraper core, modelled in Dafny

ctcityscraper collects Connecticut property and business records. A source
knows how to list the entries of a scope (a city, or the business registry),
scrape one entry and flatten the results into per-table rows. The engine runs
a source over its entries. It writes append-only parquet batches keyed by a
row hash, keeps a JSON checkpoint to resume from, and stops after too many
consecutive errors. An older code path writes VGSI property pages into DuckDB
as slowly changing dimension (type 2) tables.

This project models that core as pure functions over immutable values. Python
dicts are maps from column names to `Base.Value`. Ordered dicts whose
iteration order matters are association lists. Clocks, MD5, uuid formatting,
float parsing and HTTP replies are parameters or oracles.

| file | module | models |
|---|---|---|
| base.dfy | Base | Python values and rows, `Result`/`Option`, `str.strip`, `int()` on ASCII decimal text, `range`, zero padding |
| row_hash.dfy | RowHash | `compute_row_hash` (src/engine/hash.py) and the legacy `_compute_row_hash`: the canonical form each digest is taken of |
| parquet_writer.dfy | ParquetWriter | the append-only `ParquetWriter` (src/engine/database.py): batch numbering, file names, hash skipping, stats, a `write_batch` that raises part-way, JSON checkpoints, compaction |
| rate_limiter.dfy | RateLimit | the slot arithmetic of the engine's `RateLimiter` and of the legacy one (src/vgsi/parallel.py) |
| retry.dfy | Retry | the retry loops with exponential backoff shared by the fetch functions |
| batching.dfy | Batching | the result buffer of the loops and the checkpoint cadence |
| engine.dfy | Engine, EngineEffects | `run_load` and `run_refresh`: resume slicing, the consecutive-error rule, the success count, the final checkpoint; and their effect on a `ParquetWriter` |
| ct_data.dfy | CtData | the CT data source: datasets, pagination, renames, incremental fetch, flatten, entry list |
| vgsi_parse.dfy | VgsiParse | the value coercions and `parse_table_rows` of scrapers/vgsi/source.py, which the legacy scraper repeats verbatim (src/vgsi/scraper.py:100-123, 390-437) |
| vgsi_source.dfy | VgsiSource | the VGSI page fetch, `generate_uuid`, `make_load_iter`, the `scraped_at` ordering and version rule of `get_property_history` and `flatten_vgsi` |
| tables.dfy | Tables | the `defaultdict(list)` of per-table rows used by the flatten functions |
| scd_writer.dfy | ScdWriter | the legacy DuckDB writer (src/vgsi/database.py): the five versioned upserts, the history inserts, the batch with its uuid dedup, checkpoints |
| legacy_loader.dfy | LegacyLoader | `load_city_parallel` (src/vgsi/parallel.py): validation, URL normalisation, resume, counting, checkpoints |
| legacy_scraper.dfy | LegacyScraper | src/vgsi/scraper.py: the page fetch, the insertion-order uuid, building-slot probing, `scrape_property` |

Where a function's contract only describes its result, the lemmas next to it
connect it to a partner: an inverse (checkpoint save and load, integer
printing and parsing), an invariant (SCD version chains, rate-limiter
spacing), or an independent reference definition (the rows a flatten should
produce, the captures the history query should keep).

## Model

| member | source | states |
|---|---|---|
| RowHash.SortedKeys | src/engine/hash.py:36 | `sorted(...)` lists every key exactly once, in strictly increasing code-point order |
| RowHash.SortedMembers | src/engine/hash.py:39 | the members `json.dumps(..., sort_keys=True)` writes are exactly the dict's pairs, in strictly increasing key order |
| RowHash.SortedMembersInjective | src/engine/hash.py:39 | two dicts that serialise to the same sorted member list are the same dict |
| RowHash.HashData | src/engine/hash.py:33-38 | a key survives into the hashed dict iff it is not excluded and its value is not None, and it then maps to `str(v)` |
| RowHash.HashDataEqualIff | src/engine/hash.py:33-38 | two rows give the same hashed dict iff they agree on every visible (non-excluded, non-None) key's `str` value |
| RowHash.CanonicalEqualIff | src/engine/hash.py:27-40 | two rows have the same canonical JSON iff they agree on every key outside the default and extra exclusions, None counting as absent |
| RowHash.ExcludedKeyIgnored | src/engine/hash.py:7-24 | adding, changing or removing any excluded key (metadata, ids, timestamps, photo paths, extra excludes) leaves the hash unchanged |
| RowHash.NoneIsAbsent | src/engine/hash.py:37 | a key whose value is None hashes as if the key were absent |
| RowHash.ExtraExcludeDropsKeys | src/engine/hash.py:33 | hashing with extra exclusions equals hashing the row with those keys removed |
| RowHash.ValueChangeDetected | src/engine/hash.py:27-40 | changing a visible key to a value with a different `str` changes the canonical text, and so the hash whenever MD5 is injective |
| RowHash.RemovalDetected | src/engine/hash.py:33-38 | removing a visible key changes the canonical text |
| RowHash.LegacyExcludedKeyIgnored | src/vgsi/database.py:380-403 | the legacy hash ignores its eight fixed metadata keys and any `exclude_fields`, and treats None as absent |
| RowHash.FromItems | src/engine/hash.py:28-32 | a dict built from items has exactly the items' keys |
| RowHash.FromItemsValue | src/engine/hash.py:28-32 | with distinct keys, each item's key maps to that item's value |
| RowHash.InsertionOrderIrrelevant | src/engine/hash.py:28-32 | the same items inserted in any order give the same dict and the same hash |
| ParquetWriter.BatchPathMatchesGlob | src/engine/database.py:157 | every batch file `{session_ts}_{n:04d}.parquet` matches the session's compaction glob `{session_ts}_*.parquet` |
| ParquetWriter.CompactPathOutsideGlob | src/engine/database.py:239-251 | the compacted file `{session_ts}.parquet` does not match the session glob, so a second compaction does not pick it up |
| ParquetWriter.BatchPathInjective | src/engine/database.py:157 | different batch numbers of one session give different file names, even past 9999 where the padding stops |
| ParquetWriter.SessionsDoNotMix | src/engine/database.py:56 | a batch file of another session whose stamp has the same length is neither in this session's glob nor its compacted file |
| ParquetWriter.Member | src/engine/database.py:212 | a key is found in a decoded JSON object iff some member carries it (the last one wins) |
| ParquetWriter.NewWriter | src/engine/database.py:43-60 | a new writer starts at batch 0, with no hash cache and zero counters, over the files already on disk |
| ParquetWriter.GetWriteStats | src/engine/database.py:107-112 | the stats report exactly the written and skipped counters |
| ParquetWriter.HashesOf | src/engine/database.py:76-79 | `SELECT DISTINCT row_hash` yields exactly the hashes stored in the rows |
| ParquetWriter.LoadExistingHashes | src/engine/database.py:64-83 | the loaded set is exactly the hashes of the rows in the table's `.parquet` files; a missing directory gives the empty set |
| ParquetWriter.PreloadHashes | src/engine/database.py:85-105 | after preloading, the cache has one entry per table directory, holding that table's stored hashes, and nothing else changes |
| ParquetWriter.Stamp | src/engine/database.py:134-136 | a stamped row gains `scraped_at` and `row_hash`, keeps every other field, and its hash is that of the row as it was before stamping (`scraped_at` is excluded) |
| ParquetWriter.StampedHashIgnoresTime | src/engine/database.py:135-136 | hashing after setting `scraped_at` gives the same digest for every timestamp |
| ParquetWriter.StampAll | src/engine/database.py:134-136 | every row of the table is stamped, in order |
| ParquetWriter.FilterUnknown | src/engine/database.py:141 | the kept rows are exactly those whose hash is not known, and an empty known set keeps everything |
| ParquetWriter.Kept | src/engine/database.py:138-148 | without a hash cache every stamped row is kept; with one, exactly the rows with unseen hashes |
| ParquetWriter.RecordSkips | src/engine/database.py:139-148 | with a cache, the skipped counter grows by the dropped rows and the table's known set gains the kept hashes; without one nothing changes |
| ParquetWriter.StoreBatch | src/engine/database.py:150-159 | the kept rows become the table's batch file and the written counter grows by their number; no other table changes |
| ParquetWriter.WriteTable | src/engine/database.py:130-162 | per table, every stamped row is counted exactly once, as written or as skipped, and skipping happens only with a cache |
| ParquetWriter.WriteTableFrame | src/engine/database.py:130-162 | one table's write keeps every existing file, adds only the current batch's file, and only grows the known hashes |
| ParquetWriter.WriteTables | src/engine/database.py:130-162 | over all flattened tables, written plus skipped grows by the total number of rows; existing files are kept |
| ParquetWriter.WriteBatch | src/engine/database.py:114-162 | an empty result list changes nothing; otherwise the batch number advances by one and every flattened row is written or skipped |
| ParquetWriter.NewWriterFresh | src/engine/database.py:56 | a writer whose directories hold no file of its own session starts fresh |
| ParquetWriter.WriteBatchNeverOverwrites | src/engine/database.py:114-162 | write_batch never changes or removes an existing file, and keeps the session fresh for the next batch |
| ParquetWriter.WriteTableOtherName | src/engine/database.py:130-162 | writing one table leaves every other table's files and known hashes alone |
| ParquetWriter.WriteTableLocal | src/engine/database.py:130-162 | the effect of writing a table depends only on that table's own files and cache entry |
| ParquetWriter.WriteTableEffect | src/engine/database.py:138-159 | the new batch file holds exactly the kept rows, exists iff some row was kept, and the known set gains all the table's hashes |
| ParquetWriter.WriteTablesIsolated | src/engine/database.py:130 | with distinct table names, each table ends as if it had been written alone |
| ParquetWriter.UntouchedByOthers | src/engine/database.py:130 | a table not named in the batch is left as it was |
| ParquetWriter.WriteBatchTable | src/engine/database.py:114-162 | per flattened table, the batch's file holds exactly the rows whose hash was unseen, and is absent when none was |
| ParquetWriter.KeptIgnoresBatchNum | src/engine/database.py:126-128 | reserving the batch number does not change which rows are kept |
| ParquetWriter.WriteTablesTable | src/engine/database.py:130-162 | for each table of the loop, the batch file holds exactly its kept rows, and the known set gains all of its hashes |
| ParquetWriter.SameTableViews | src/engine/database.py:130-162 | two writer states that agree on a table show the same files, rows and known hashes for it |
| ParquetWriter.FailedWrite | src/engine/database.py:114-159 | a write_batch that raises at a table takes a batch number and fully writes the tables before it; as written, the failing table's rows are counted, while the corrected one counts none of them; no existing file changes and only the reserved batch can appear |
| ParquetWriter.FailedWriteFresh | src/engine/database.py:125-159 | a failed write_batch keeps the session fresh for the next batch |
| ParquetWriter.FailedWriteKeepsEarlier | src/engine/database.py:130-159 | the tables before the failing one keep their batch files, holding exactly their kept rows |
| ParquetWriter.FailedWriteTable | src/engine/database.py:137-159 | as written, the failing table gets no file, yet every hash of its rows is recorded as known |
| ParquetWriter.FixedFailedWriteTable | src/engine/database.py:137-159 | corrected, the failing table's files and known hashes are as before the call |
| ParquetWriter.RestampedHashes | src/engine/database.py:133-135 | rows stamped at two different times carry the same hashes |
| ParquetWriter.AllKnownKept | src/engine/database.py:138-140 | rows whose hashes are all known are all skipped |
| ParquetWriter.RetryAfterFailedWriteSkips | src/engine/database.py:137-159 | as written, with hashes preloaded, retrying a batch whose write raised at a table writes none of that table's rows (also src/engine/engine.py:242-246) |
| ParquetWriter.FixedRetryWritesRows | src/engine/database.py:137-159 | corrected, the retry writes exactly the rows of that table that were unseen before the failed call |
| ParquetWriter.SessionFiles | src/engine/database.py:239 | the session files are exactly the directory's files that match the session glob |
| ParquetWriter.ReadAll | src/engine/database.py:253-256 | reading the glob yields every row of the files read and no other |
| ParquetWriter.FileContents | src/engine/database.py:253-256 | the rows of each file read, one sequence per file in the order read |
| ParquetWriter.ReadAllConcat | src/engine/database.py:253-256 | reading is concatenation: each file's rows whole and in their own order, one file after another in the order read |
| ParquetWriter.CopySession | src/engine/database.py:253-256 | the copy adds the compacted file and changes no other file |
| ParquetWriter.DeleteSession | src/engine/database.py:261-262 | unlinking removes exactly the session files and changes no other file |
| ParquetWriter.CompactTable | src/engine/database.py:239-241 | a table with at most one session file is left alone |
| ParquetWriter.Compact | src/engine/database.py:225-267 | every table directory is compacted independently, and nothing else changes |
| ParquetWriter.CopyKeepsSessionFiles | src/engine/database.py:253-262 | the session files still hold their rows after the copy, before they are unlinked |
| ParquetWriter.CompactTableEffect | src/engine/database.py:239-262 | after compacting, no session batch file remains, the compacted file holds every row of the session files and no other, and files of other sessions are untouched |
| ParquetWriter.CompactedContents | src/engine/database.py:239-256 | the compacted file is the concatenation of the session files' rows, each session file exactly once, in sorted file-name order, so no row is lost or duplicated |
| ParquetWriter.CompactIdempotent | src/engine/database.py:225-267 | compacting twice is compacting once |
| ParquetWriter.SaveCheckpoint | src/engine/database.py:187-199 | saving writes the scope's checkpoint file and leaves other scopes' files alone |
| ParquetWriter.GetLastCheckpoint | src/engine/database.py:201-215 | a missing or undecodable file gives (None, 0); a decoded value that is not an object raises |
| ParquetWriter.CheckpointRoundTrip | src/engine/database.py:187-215 | reading back a saved checkpoint gives `str(last_entry_id)` and the total; other scopes read as before |
| ParquetWriter.CheckpointMissingKey | src/engine/database.py:212-215 | an object without `last_entry_id` reads as (None, 0) |
| RateLimit.MinInterval | src/engine/engine.py:40 | the minimum interval is the reciprocal of a positive rate, and zero (no limiting) otherwise |
| RateLimit.NewLimiter | src/engine/engine.py:38-44 | a new limiter has no last request, no requests and no wait, and limits iff the rate is positive |
| RateLimit.Acquire | src/engine/engine.py:47-69 | with limiting, the granted slot is the later of now and one interval after the last slot, the caller waits exactly until it, and the counters grow by one request and that wait; without limiting nothing changes |
| RateLimit.SpacedExtend | src/engine/engine.py:53-63 | a slot one interval after the last keeps the slot sequence spaced |
| RateLimit.AcquireAll | src/engine/engine.py:47-69 | over any sequence of calls, no call is granted before it asked, consecutive slots are at least one interval apart, and the counters add up the requests and the waits |
| RateLimit.SpacedApart | src/engine/engine.py:29-36 | slots k calls apart are at least k intervals apart, so no window of length k intervals holds more than k requests |
| RateLimit.LegacyAcquire | src/vgsi/parallel.py:44-63 | the legacy limiter waits iff less than one interval passed since the last request; its slot is the wake-up time, one interval or more after the last when the sleep does not end early |
| RateLimit.LegacyAcquireAll | src/vgsi/parallel.py:44-63 | over any sequence of calls the legacy limiter counts every request and keeps the slots one interval apart |
| RateLimit.GetStats | src/engine/engine.py:73-84 | the average wait times the request count gives the total wait, it is 0 when no request was made, and it is never negative for a non-negative total |
| RateLimit.WaitNonNegative | src/engine/engine.py:53-68 | the total waiting time is never negative, since no slot precedes its request |
| Retry.RetryFrom | scrapers/vgsi/source.py:214-257 | from any attempt, the loop makes at least one more attempt and never more than `max_retries + 1` in all |
| Retry.RetryLoop | scrapers/ct_data/source.py:66-102 | with `max_retries < 0` no request is made and the fallback error is raised; otherwise between 1 and `max_retries + 1` attempts |
| Retry.RetryFromSpec | scrapers/ct_data/source.py:69-102 | every attempt before the last raised a retried error; the last attempt's value or error is the result; a retried error ends the loop only at the last allowed attempt |
| Retry.RetryFromSleepCount | scrapers/vgsi/source.py:246-252 | the loop sleeps once after every attempt but the last |
| Retry.RetryFromSleeps | scrapers/vgsi/source.py:246-252 | the first sleep is the current delay and each next one is the previous times the backoff factor |
| Retry.RetryLoopSpec | scrapers/ct_data/source.py:66-102 | the whole fetch: attempt count, one sleep between attempts, delays `initial_delay * factor^i`, and the result is the last attempt's |
| Retry.RetrySucceedsIff | scrapers/vgsi/source.py:214-257 | the fetch succeeds iff some attempt within the budget succeeds after only retried failures |
| Retry.InvalidEntryNotRetried | scrapers/vgsi/source.py:238-239 | an invalid-entry error (missing PID page, bad dataset status) ends the loop at once and is re-raised |
| Batching.EmptyBuffer | src/engine/engine.py:187 | the batch starts empty, with nothing written or attempted |
| Batching.Attempt | src/engine/engine.py:242-246 | a write attempt clears the batch exactly when it succeeds, appending the batch to what was written, logs the batch as attempted either way, keeps the written batches exactly the successful attempts, and loses no result |
| Batching.SucceededAll | src/engine/engine.py:242-246 | when no attempt fails, every attempted batch was written, in order |
| Batching.Push | src/engine/engine.py:239-246 | appending keeps every result; a write is attempted exactly when the batch reaches `batch_size`; a failed write keeps the batch for the next attempt; the written batches stay exactly the successful attempts |
| Batching.Flush | src/engine/engine.py:297-302 | the final flush attempts one write iff the batch is non-empty, loses no result, and keeps the written batches exactly the successful attempts |
| Batching.FlushWritesAll | src/engine/engine.py:239-302 | when no write fails, the batches written are, concatenated, exactly the results pushed, in order |
| Batching.PeriodicSaves | src/engine/engine.py:248-258 | at most one checkpoint per handled result |
| Batching.PeriodicSavesIff | src/engine/engine.py:249-250 | the k-th success is checkpointed (with total `k + previous`) iff `k % checkpoint_every == 0` |
| Batching.PeriodicSavesBounds | src/engine/engine.py:252-256 | each saved checkpoint names the entry whose success reached the saved total |
| Batching.PeriodicSavesOrdered | src/engine/engine.py:248-256 | the saved totals strictly increase |
| Batching.PeriodicSavesMembers | src/engine/engine.py:248-256 | membership, bounds and order of the periodic checkpoints together |
| Batching.PeriodicSavesCount | src/engine/engine.py:249-250 | with a positive interval, exactly `successes / checkpoint_every` checkpoints are saved |
| Batching.PeriodicSavesZero | src/engine/engine.py:248-286 | with `checkpoint_every == 0` no periodic checkpoint is saved: the modulo raises after the count was taken, and the loop's `except Exception` swallows it |
| CtData.Lookup | scrapers/ct_data/source.py:121 | `DATASETS.get` finds a value iff the key is listed, and the value is the one listed with it |
| CtData.PageParams | scrapers/ct_data/source.py:129 | every page request carries `$limit=50000` and the offset; the incremental fetch adds `$where create_dt > 'since'` (also lines 180-184) |
| CtData.PageAttempt | scrapers/ct_data/source.py:71-86 | an attempt succeeds iff the reply is HTTP 200 with a JSON list; a non-200 status or a non-list body is the dataset error |
| CtData.ErrorStatusNotRetried | scrapers/ct_data/source.py:72-75 | an HTTP error status is raised at the first attempt, with no retry and no sleep (also lines 88-89) |
| CtData.TransientErrorsRetried | scrapers/ct_data/source.py:57-102 | with the defaults, four failing transport or decode attempts sleep 1, 2 and 4 seconds and raise the last error |
| CtData.FetchPages | scrapers/ct_data/source.py:127-142 | a completed walk fetched at least one page, the first at the starting offset |
| CtData.PagesWalkedComplete | scrapers/ct_data/source.py:127-142 | a completed walk visits consecutive offsets 50000 apart, each page is what the server returned there, every page but the last is full and the last is short |
| CtData.PagesWalkedFailed | scrapers/ct_data/source.py:127-142 | a failed walk visits consecutive offsets over full pages and stops with the error of the page that failed |
| CtData.Window | scrapers/ct_data/source.py:127 | a server's page at an offset holds at most 50000 consecutive rows, and fewer only at the end of the data |
| CtData.FetchPagesComplete | scrapers/ct_data/source.py:127-142 | against a server that pages its data faithfully, the walk collects exactly the data from the starting offset, in order, even when the data is an exact multiple of the page size |
| CtData.FaithfulServerPages | scrapers/ct_data/source.py:71-86 | a server that answers every page with 200 and its rows makes every page fetch succeed with those rows |
| CtData.ToRows | scrapers/ct_data/source.py:146-151 | every fetched object becomes one row, in order |
| CtData.DatasetUrl | scrapers/ct_data/source.py:124 | the URL is the base URL, the dataset id and `.json` |
| CtData.FetchRows | scrapers/ct_data/source.py:124-157 | a loaded dataset carries the requested id and its table name |
| CtData.FetchDataset | scrapers/ct_data/source.py:105-157 | an id not in `DATASETS` raises "Unknown dataset ID" before any request; a loaded dataset names its id and its table |
| CtData.FetchDatasetIncremental | scrapers/ct_data/source.py:158-220 | the same for the incremental fetch |
| CtData.FetchDatasetComplete | scrapers/ct_data/source.py:105-157 | against a faithful server, fetch_dataset returns every row of the dataset, renamed, in order |
| CtData.UnknownDatasetNoRequest | scrapers/ct_data/source.py:120-122 | for an unknown id the outcome does not depend on the server at all, and both fetches raise the same error (also lines 172-174) |
| CtData.IncrementalRequests | scrapers/ct_data/source.py:176-177 | `name_changes` is always fetched in full; other tables are fetched with the `create_dt` filter |
| CtData.DatasetTables | scrapers/ct_data/source.py:32-38 | exactly the five listed ids resolve, each to its table |
| CtData.RenameSpec | scrapers/ct_data/source.py:146-151 | rows of tables other than businesses are the objects as they are; a businesses row has `id` moved to `business_id` |
| CtData.RenamedItems | scrapers/ct_data/source.py:149-151 | renaming each member in order builds the same dict as moving `id` after building it |
| CtData.AddRowsSpec | scrapers/ct_data/source.py:233-239 | adding a result's rows appends them to its table, creating the table only when there are rows, and leaves other tables alone |
| CtData.FlattenGet | scrapers/ct_data/source.py:223-240 | each table holds the rows of every result for it, in result order, and no table is empty |
| CtData.FlattenCtDataSpec | scrapers/ct_data/source.py:223-240 | the flattened tables are distinct, present exactly when some result has rows for them, and hold those rows in order |
| CtData.MakeLoadIter | scrapers/ct_data/source.py:247-258 | the given dataset ids are yielded as given; none or an empty list yields every known id, in `DATASETS` order |
| CtData.AsOutcome | scrapers/ct_data/source.py:277-283 | a loaded dataset is a scraped entry; the dataset error is an invalid entry, not an engine error |
| Engine.Start | src/engine/engine.py:186-191 | the loop starts with an empty batch, no completions, no errors and no checkpoints |
| Engine.Handle | src/engine/engine.py:218-258 | an error bumps both error counters and aborts once `max_consecutive_errors > 0` consecutive errors are reached; any other completion resets the consecutive count; a non-None result is batched, counted, and checkpointed with total `count + previous` when the count is a multiple of `checkpoint_every` |
| Engine.RunLoop | src/engine/engine.py:271-292 | the loop handles completions in order and stops only on an abort, so without one it handles all of them |
| Engine.SuccessIds | src/engine/engine.py:248-256 | one id per successful completion |
| Engine.LoopCounts | src/engine/engine.py:218-249 | after the loop, the consecutive count is the run of errors at the end of what was handled, the completed count is the number of successes and the error total the number of errors |
| Engine.LoopStops | src/engine/engine.py:224-232 | the loop aborts iff the handled prefix trips the threshold, and no shorter prefix does: it stops at the first point the rule fires (also lines 277-284) |
| Engine.HandleTrips | src/engine/engine.py:221-232 | one more completion aborts the loop iff the extended prefix ends with a run of errors that reaches the threshold |
| Engine.LoopBuffer | src/engine/engine.py:236-246 | everything batched is exactly the successes handled, in order, every batch written held at least `batch_size` results, and the batches written are exactly the attempts that did not fail |
| Engine.HandleBuffer | src/engine/engine.py:236-246 | one completion adds exactly its result, if any, to what was batched, and keeps the written batches exactly the successful attempts |
| Engine.LoopSaves | src/engine/engine.py:248-258 | the periodic checkpoints of the loop are exactly those of its successes, in order |
| Engine.HandleSaves | src/engine/engine.py:248-258 | one completion extends the periodic checkpoints exactly as one more success id does |
| Engine.SavesStep | src/engine/engine.py:249-256 | one more success adds a checkpoint iff the new count is a multiple of the interval |
| Engine.TrailingFailuresRun | src/engine/engine.py:221-234 | the consecutive count is at least t iff the last t completions were all errors |
| Engine.AbortIff | src/engine/engine.py:218-284 | the load aborts iff the threshold is positive and some t consecutive completions were errors; it stops right after the first such run |
| Engine.PrefixRun | src/engine/engine.py:221-226 | a run of t errors makes the consecutive count reach t where it ends |
| Engine.SuccessIdsFrom | src/engine/engine.py:248-256 | every success id is the id of a handled successful completion |
| Engine.FirstMatch | src/engine/engine.py:154-158 | the resume position is the first entry whose `str` equals the checkpoint id, and none exists iff no entry matches |
| Engine.Resume | src/engine/engine.py:146-176 | the remaining entries are a suffix of the list; without resuming, or with no checkpoint id, all entries remain |
| Engine.ResumeFromId | src/engine/engine.py:152-171 | with a checkpoint id that matches, exactly the entries after its first match remain and the previous total is kept; with none matching, all remain and the total resets to 0 |
| Engine.Items | src/engine/engine.py:262-276 | each remaining entry is paired with its scrape outcome, in submission order, the order in which the loops take completions |
| Engine.RunLoadWith | src/engine/engine.py:96-331 | an empty list, or nothing left after resuming, does nothing; otherwise the loop runs over the remaining entries from the previous total, the batch is flushed, and the checkpoints are the periodic ones then the final one |
| Engine.RunLoad | src/engine/engine.py:304-313 | as written, the final checkpoint names the last remaining entry, with the total of successes, even after an abort |
| Engine.RunLoadFixed | src/engine/engine.py:304-313 | as corrected, an aborted run saves no final checkpoint, and a complete run saves the last entry with its total |
| Engine.RunRefresh | src/engine/engine.py:334-489 | a refresh with no known entries does nothing; otherwise it runs the same loop over the known entries without resuming and without checkpoints |
| Engine.LoadOutcome | src/engine/engine.py:96-331 | the returned count is the number of successes handled, everything batched is exactly those results, the batches written are exactly the attempts that did not fail, and when no write fails they are all written in order |
| Engine.LoadCheckpoints | src/engine/engine.py:248-258 | the periodic checkpoints of a load are those of its handled successes, with totals offset by the previous total |
| Engine.AbortedLoadSkipsRest | src/engine/engine.py:304-313 | an example: with a threshold of 2 and three failing entries, the load aborts after two yet checkpoints the third, and the next resume finds nothing to do |
| Engine.AbortedAfterTwo | src/engine/engine.py:218-313 | three failing entries with a threshold of 2 abort after two and save a checkpoint at the third |
| Engine.ResumedFromThird | src/engine/engine.py:146-181 | resuming from the third and last entry leaves nothing to do |
| Engine.LoadResumesPastEnd | src/engine/engine.py:304-313 | with distinct ids, after any load as written the next resume starts past the end, whether or not the run aborted |
| Engine.ResumeAtEnd | src/engine/engine.py:154-181 | resuming from the last entry, with distinct ids, leaves nothing |
| Engine.FixedLoadKeepsUnhandled | src/engine/engine.py:248-313 | with the corrected final checkpoint and entries completing in submission order, the next resume still covers every entry the run did not handle |
| Engine.ShapeKeepsUnhandled | src/engine/engine.py:248-313 | the same for any run whose last checkpoint names a handled entry |
| Engine.FixedRunShape | src/engine/engine.py:248-313 | every corrected run's last checkpoint names a handled entry of the remaining list |
| Engine.RanShape | src/engine/engine.py:248-313 | a run built from the resume, the loop and the corrected final checkpoint has that shape |
| Engine.ResumeAfter | src/engine/engine.py:154-160 | resuming from a handled entry at position p leaves at least everything after the first h entries |
| EngineEffects.LastSavePosition | src/engine/engine.py:248-313 | the last checkpoint of a corrected run names a handled entry |
| EngineEffects.WriteAll | src/engine/engine.py:239-302 | batch writes that all succeed advance the batch number once each and account for every flattened row |
| EngineEffects.WriteAttempts | src/engine/engine.py:239-302 | every write attempt, failed or not, reaches the writer; each advances the batch number at most once, and none touches checkpoints or the session stamp (also src/engine/database.py:114-159) |
| EngineEffects.AttemptsWithoutFailures | src/engine/engine.py:239-302 | when no attempt fails, the attempts are exactly the successful writes of every attempted batch |
| EngineEffects.AttemptsStayFresh | src/engine/database.py:125-159 | failed or not, no write attempt overwrites a file of the session: later batch numbers stay unused |
| EngineEffects.RetriedBatchLosesTable | src/engine/database.py:137-159 | with hashes preloaded, a batch whose first write raises at a table and whose retry succeeds leaves no file with that table's rows, though the batch number advanced twice (also src/engine/engine.py:297-302) |
| EngineEffects.FixedRetriedBatchWritesTable | src/engine/database.py:137-159 | with hashes recorded only after the file is written, the retry writes that table's new rows, exactly as if the first attempt had never happened |
| EngineEffects.SaveAll | src/engine/engine.py:250-313 | the checkpoints are saved in order, each overwriting the scope's file |
| EngineEffects.SaveAllFrame | src/engine/database.py:187-199 | which checkpoint files the saves leave depends only on the files before |
| EngineEffects.LoadEffect | src/engine/engine.py:96-331 | a load with nothing to do leaves the writer alone; otherwise, whatever its write attempts did, the checkpoint files are those its saves leave |
| EngineEffects.RefreshEffect | src/engine/engine.py:357-489 | a refresh never touches checkpoints and always preloads the hash cache when it runs, failed write attempts included |
| EngineEffects.RefreshWithoutFailures | src/engine/engine.py:420-473 | when no write attempt of a refresh fails, it writes exactly the batches its buffer reports written |
| EngineEffects.LoadLeavesLastSave | src/engine/engine.py:304-313 | a later load reads back the last checkpoint this one saved, as `(str(id), total)` |
| LegacyLoader.Normalise | src/vgsi/parallel.py:135-137 | the URL ends with "/", and one that already did is unchanged |
| LegacyLoader.NormaliseIdempotent | src/vgsi/parallel.py:135-137 | normalising twice is normalising once |
| LegacyLoader.ResolveUrlSpec | src/vgsi/parallel.py:126-138 | the load fails iff no URL was given and the database has none (or an empty one) for the city; a given URL wins; the URL used always ends with "/" |
| LegacyLoader.StartPid | src/vgsi/parallel.py:140-147 | after a checkpoint with a positive pid the scan starts just past it; otherwise at `pid_min` |
| LegacyLoader.WorkerSpec | src/vgsi/parallel.py:157-183 | a worker yields nothing iff the scrape raised (any exception) or found no property; otherwise the same result with `vgsi_url` set to the parcel URL and nothing else changed |
| LegacyLoader.DrainAccounting | src/vgsi/parallel.py:185-227 | after handling any completions, the results written and still batched are, in order, the earlier ones plus every successful result, and the count grows by their number |
| LegacyLoader.HandleAccounting | src/vgsi/parallel.py:185-205 | one successful result is batched (and written or kept), never lost, and counted once |
| LegacyLoader.HandleCheckpoints | src/vgsi/parallel.py:199-205 | one result appends a checkpoint for this city and pid, with the new count, exactly when the count is due, and keeps the earlier ones |
| LegacyLoader.DrainKeepsCheckpoints | src/vgsi/parallel.py:199-205 | handling completions only appends checkpoints, all for this city |
| LegacyLoader.DrainCheckpoints | src/vgsi/parallel.py:199-205 | the totals checkpointed while handling completions are exactly the due counts passed, in order |
| LegacyLoader.DrainCountGrows | src/vgsi/parallel.py:199-200 | the count never decreases |
| LegacyLoader.CadenceStep | src/vgsi/parallel.py:199-205 | one more count extends the checkpointed totals by that count when it is due |
| LegacyLoader.CadenceSpec | src/vgsi/parallel.py:201 | the due totals between two counts are exactly the multiples of `checkpoint_every` between them, increasing |
| LegacyLoader.FlushAccounting | src/vgsi/parallel.py:236-241 | the final flush loses no result and counts nothing |
| LegacyLoader.LoadCityFails | src/vgsi/parallel.py:118-134 | the load raises iff `pid_max` is missing or no URL can be resolved |
| Base.Range | src/vgsi/parallel.py:211 | `range(lo, hi)` yields exactly the integers from `lo` below `hi` |
| Base.RangeCount | src/vgsi/parallel.py:211 | `range(lo, hi)` yields each of its integers exactly once |
| LegacyLoader.SuccessesAppend | src/vgsi/parallel.py:221-238 | the successes of two runs of completions, one after the other, are the successes of each, one after the other |
| LegacyLoader.CancelOne | src/vgsi/parallel.py:209-221 | removing one element from two permutations of each other leaves two permutations of each other |
| LegacyLoader.SuccessesPermutation | src/vgsi/parallel.py:209-221 | two completion orders of the same pids give the same successful results, up to order |
| LegacyLoader.LoadCityScrapesRange | src/vgsi/parallel.py:209-221 | when the pool completes each submitted pid once, a run scrapes every pid from its first pid to `pid_max` exactly once, and its written and unwritten results are the successes of that range, up to completion order (also lines 243-264) |
| LegacyLoader.LoadCityAccounting | src/vgsi/parallel.py:207-264 | the results written plus those left unwritten are exactly the successful scrapes in completion order, and the returned count is their number |
| LegacyLoader.HandleStamps | src/vgsi/database.py:980-989 | with a monotone clock, every checkpoint time stays at or before the current clock reading |
| LegacyLoader.DrainStamps | src/vgsi/database.py:980-989 | the same after handling any completions |
| LegacyLoader.LoadCityFinalCheckpoint | src/vgsi/parallel.py:243-247 | after a load, the checkpoint read back is `(pid_max, count)` |
| LegacyLoader.ResumeAfterRunSkipsRange | src/vgsi/parallel.py:140-147 | a resumed load of the same city after a completed one starts at `pid_max + 1`, whatever the earlier run failed to scrape (also lines 243-247) |
| LegacyScraper.Backoff | src/vgsi/scraper.py:139-141 | with the default delay 1 and factor 2, every backoff delay is at least one second (also lines 185-186) |
| LegacyScraper.NoAttemptRaisesNone | src/vgsi/scraper.py:150-194 | with `max_retries < 0` no request is made and the bare `raise last_exception` raises on None |
| LegacyScraper.NetworkFailuresExhaust | src/vgsi/scraper.py:150-194 | when every attempt fails on the network, the fetch makes `max_retries + 1` attempts, sleeps `initial_delay * backoff_factor^i` between them, and raises the last failure |
| LegacyScraper.SleepsFollowBackoff | src/vgsi/scraper.py:185-186 | delays that start at the initial delay and multiply by the factor are the closed-form backoff |
| LegacyScraper.InvalidPidNotRetried | src/vgsi/scraper.py:158-175 | a page whose form posts to the error action raises "PID … doesn't exist" at once, after only the network failures before it |
| LegacyScraper.InsertionOrderChangesUuid | src/vgsi/scraper.py:129-133 | the legacy uuid hashes `f"{pid}{data}"`, so the same fields inserted in another order give a different uuid, unlike the engine's sorted-JSON uuid |
| LegacyScraper.ParseProperty | src/vgsi/scraper.py:207-247 | the property dict holds the coerced span fields plus `uuid` (from the pid and the fields as they stood) and `pid` |
| LegacyScraper.FoundSpec | src/vgsi/scraper.py:267-281 | the probed slots that hold a building are exactly those whose year or area span exists, in increasing order |
| LegacyScraper.Probed | src/vgsi/scraper.py:262-267 | `building_count + 3` slots are probed, a None count counting as 0, and none when that is negative |
| LegacyScraper.ParseBuildingsSound | src/vgsi/scraper.py:250-335 | every building parsed comes from an occupied probed slot and carries its slot index as `bid` |
| LegacyScraper.ParseBuildingsComplete | src/vgsi/scraper.py:267-281 | every occupied probed slot yields a building, including those beyond the announced count, and a missing one inside it is skipped without ending the probe |
| LegacyScraper.ParseBuildingsOrdered | src/vgsi/scraper.py:267 | the buildings come in slot order: their `bid`s strictly increase (also line 329) |
| LegacyScraper.StampAllSpec | src/vgsi/scraper.py:471-517 | every table row keeps its fields and gains the property's uuid and pid |
| LegacyScraper.ScrapePropertySpec | src/vgsi/scraper.py:443-526 | the scrape fails iff the fetch fails, with the same error; otherwise the property carries the uuid and pid, every building and every table row is tagged with both, and each table is parsed with its money columns |
| VgsiParse.CleanString | scrapers/vgsi/source.py:169-173 | the result is None or a non-empty string with no whitespace at either end, and None stays None |
| VgsiParse.CleanStringIdempotent | scrapers/vgsi/source.py:169-173 | cleaning twice is cleaning once |
| VgsiParse.CleanStringBlank | scrapers/vgsi/source.py:169-173 | a string becomes None exactly when it is all whitespace |
| VgsiParse.MoneyText | scrapers/vgsi/source.py:137 | the cleaned money text holds no "$" and no "," |
| VgsiParse.HandleMoney | scrapers/vgsi/source.py:133-144 | a money value is None or a float |
| VgsiParse.HandleMoneySpec | scrapers/vgsi/source.py:133-144 | None stays None; text is None iff it is empty after removing "$" and "," or does not parse as a float, and otherwise that float |
| VgsiParse.HandleInt | scrapers/vgsi/source.py:158-166 | an int value is None or an int, and an int is kept as it is |
| VgsiParse.HandleIntRoundTrip | scrapers/vgsi/source.py:158-166 | the decimal text of any integer, padded with whitespace, converts back to that integer |
| VgsiParse.HandleIntBlank | scrapers/vgsi/source.py:161-165 | whitespace-only text converts to None |
| VgsiParse.StripPadded | scrapers/vgsi/source.py:164 | stripping whitespace padding recovers text that has no whitespace at its ends |
| VgsiParse.NormalizeHeader | scrapers/vgsi/source.py:463-464 | a header name has no space, no "&" and no upper-case letter |
| VgsiParse.Headers | scrapers/vgsi/source.py:461-465 | the headers are the normalised texts of every cell of the first row, `th` or `td` |
| VgsiParse.TdTexts | scrapers/vgsi/source.py:474-475 | a data row's values come from its `td` cells only |
| VgsiParse.ParseRow | scrapers/vgsi/source.py:477-484 | a row dict has exactly the headers that have a value at their position |
| VgsiParse.ParseRowValue | scrapers/vgsi/source.py:477-484 | with distinct headers, each header maps to its value converted as money or as a cleaned string |
| VgsiParse.ParseBody | scrapers/vgsi/source.py:473-484 | one dict per data row, in order |
| VgsiParse.KeptIndices | scrapers/vgsi/source.py:486-487 | the positions of the rows kept: exactly the rows with some value, ascending |
| VgsiParse.KeepNonEmptyOrder | scrapers/vgsi/source.py:486-487 | the kept rows are the rows at the kept positions, in table order, none repeated |
| VgsiParse.KeepNonEmptySpec | scrapers/vgsi/source.py:486-487 | exactly the rows with all values None are dropped; every other row is kept |
| VgsiParse.ParseTableRowsSpec | scrapers/vgsi/source.py:448-489 | a missing table, one whose text contains "No Data", one with fewer than two rows or with no header gives no rows; otherwise the parsed data rows that have some value, in table order |
| VgsiSource.PageUrl | scrapers/vgsi/source.py:211 | the page URL is the base URL, then `Parcel.aspx?pid=`, then the pid |
| VgsiSource.PageAttempt | scrapers/vgsi/source.py:216-228 | one attempt returns the page iff the reply is a page with no HTTP error whose form action is not the error page; the error page raises InvalidEntry and a connection failure or HTTP error raises a network error |
| VgsiSource.MissingPidNotRetried | scrapers/vgsi/source.py:225-236 | a missing pid raises "PID … doesn't exist" after one attempt and no sleep |
| VgsiSource.UnexpectedNotRetried | scrapers/vgsi/source.py:213-242 | an exception outside the retried kinds escapes after one attempt and no sleep |
| VgsiSource.NetworkFailuresRetried | scrapers/vgsi/source.py:201-257 | with the default three retries, four network failures make four attempts, sleep 1, 2 and 4 seconds, and raise the last failure |
| VgsiSource.NoAttemptRaisesRuntimeError | scrapers/vgsi/source.py:257 | a negative retry count makes no attempt and raises the "no recorded exception" RuntimeError |
| VgsiSource.UuidInsertionOrderIrrelevant | scrapers/vgsi/source.py:181-195 | the uuid does not depend on the order the dict's items were inserted in |
| VgsiSource.UuidDeterminesInput | scrapers/vgsi/source.py:181-195 | unless the digest collides, equal uuids come from equal pids and equal data |
| VgsiSource.MakeLoadIterSpec | scrapers/vgsi/source.py:772-780 | without a maximum the iterator raises ValueError; otherwise it yields every pid from the minimum to the maximum inclusive, once each, in increasing order |
| VgsiSource.CapturesOf | scrapers/vgsi/source.py:826-827 | the captures of a uuid are exactly the rows whose "uuid" column is that uuid |
| VgsiSource.InsertByTime | scrapers/vgsi/source.py:822-823 | inserting a capture into captures sorted by `scraped_at` keeps them sorted and adds exactly that capture |
| VgsiSource.ByTime | scrapers/vgsi/source.py:822-823 | `ORDER BY scraped_at` within a uuid: the captures sorted by time, a permutation of the input |
| VgsiSource.CapturesByTime | scrapers/vgsi/source.py:822-827 | the captures a history is built from are sorted by time and are exactly the uuid's rows, whatever order the files are read in |
| VgsiSource.History | scrapers/vgsi/source.py:822-832 | the history has no more versions than there are captures |
| VgsiSource.SqlKeepsIff | scrapers/vgsi/source.py:829 | a capture is kept iff it is the first, the one before has a NULL hash, or its hash is non-NULL and differs from the one before |
| VgsiSource.SqlKeepsPrefix | scrapers/vgsi/source.py:822-829 | whether a capture is kept does not depend on the captures after it |
| VgsiSource.HistorySound | scrapers/vgsi/source.py:822-830 | every history entry is a kept capture under its row number, and the entries are in increasing version order |
| VgsiSource.HistoryComplete | scrapers/vgsi/source.py:822-830 | every kept capture appears in the history under its row number |
| VgsiSource.HistoryExact | scrapers/vgsi/source.py:822-830 | the history holds exactly the captures the filter keeps |
| VgsiSource.HistorySnoc | scrapers/vgsi/source.py:822-830 | one more capture adds at most itself, under its row number, to the end of the history |
| VgsiSource.PropertyHistorySpec | scrapers/vgsi/source.py:815-832 | version `v` of the property history is the `v`-th capture of the uuid by `scraped_at`; it is listed iff the filter keeps it, and versions ascend |
| VgsiSource.ByTimeSwaps | scrapers/vgsi/source.py:822-823 | two captures read newest first are sorted oldest first |
| VgsiSource.HistoryOfTwo | scrapers/vgsi/source.py:822-832 | two captures with different hashes are versions 1 and 2 |
| VgsiSource.ReadOrderIrrelevant | scrapers/vgsi/source.py:815-832 | two captures with different hashes read newest first are still numbered oldest first |
| VgsiSource.FirstCaptureKept | scrapers/vgsi/source.py:829 | the first capture is version 1 of the history |
| VgsiSource.SameHashDropped | scrapers/vgsi/source.py:829 | a capture whose non-NULL hash equals the one before it is not in the history |
| VgsiSource.UnchangedCollapses | scrapers/vgsi/source.py:822-830 | captures that all share one non-NULL hash give a history of just version 1 |
| VgsiSource.ApplyCnsHas | scrapers/vgsi/source.py:600-604 | a building has a column iff it had it or some mapping entry's source key is in its construction and maps to that column |
| VgsiSource.ApplyCnsLast | scrapers/vgsi/source.py:91-121 | a column two source keys map to (the `flr` and `floor` spellings) holds the value of the later entry present |
| VgsiSource.ApplyCnsKeeps | scrapers/vgsi/source.py:600-604 | a column no present entry maps to keeps the building's own value |
| VgsiSource.ExtraConstruction | scrapers/vgsi/source.py:605-607 | the extra construction fields are exactly those whose key the mapping does not know, with their values |
| VgsiSource.FlatBuildingExtra | scrapers/vgsi/source.py:593-609 | unknown construction keys go, with their values, into `extra_fields` as key-sorted JSON; with none, the flat row is the building with the mapped columns and no `extra_fields` |
| VgsiSource.FlatBuildingKeeps | scrapers/vgsi/source.py:593-596 | a building field that is not a construction column or `extra_fields` passes through unchanged |
| VgsiSource.SubAreaRows | scrapers/vgsi/source.py:613-619 | the sub-area rows exist iff the building has its `property_uuid` and `pid` (otherwise KeyError), one row per sub-area |
| VgsiSource.SubAreaTags | scrapers/vgsi/source.py:613-619 | each sub-area row is the sub-area with the building's `property_uuid`, `pid` and `bid` (None when missing) written over it |
| VgsiSource.Accepted | scrapers/vgsi/source.py:584-587 | the accepted results are a selection of the input |
| VgsiSource.FlatsSnoc | scrapers/vgsi/source.py:589-611 | the buildings rows follow the buildings in order |
| VgsiSource.TableNamesDistinct | scrapers/vgsi/source.py:589-623 | the properties, buildings, sub_areas and the five history table names are pairwise different |
| VgsiSource.AddBuildingSpec | scrapers/vgsi/source.py:611-619 | one building appends its flat row to `buildings` and its sub-area rows to `sub_areas`, and changes no other table |
| VgsiSource.AddBuildingsOk | scrapers/vgsi/source.py:589-619 | the buildings loop raises nothing when every building can tag its sub-areas |
| VgsiSource.AddBuildingsSpec | scrapers/vgsi/source.py:589-619 | the buildings loop appends all flat rows, in order, to `buildings` and all sub-area rows to `sub_areas`, creating a table only when something is appended |
| VgsiSource.AddHistoryDistinct | scrapers/vgsi/source.py:621-622 | extending the history tables keeps one entry per table name |
| VgsiSource.AddHistoryGet | scrapers/vgsi/source.py:621-622 | each history table gains the rows the result carries under its key |
| VgsiSource.AddHistoryHas | scrapers/vgsi/source.py:621-622 | every history table is created, even when it receives no rows |
| VgsiSource.HistSumDistinct | scrapers/vgsi/source.py:621 | with distinct table names a table receives only its own key's rows |
| VgsiSource.AcceptStepOk | scrapers/vgsi/source.py:584-622 | a well-formed result with a new uuid is accepted and its uuid is recorded as seen |
| VgsiSource.RowsOfPhases | scrapers/vgsi/source.py:589-622 | an accepted result contributes its property, its buildings' flat and sub-area rows and its history rows, each to its own table |
| VgsiSource.AcceptStepAt | scrapers/vgsi/source.py:584-622 | accepting a result appends exactly its rows to each table and creates properties, buildings and the history tables |
| VgsiSource.FirstOfPrefix | scrapers/vgsi/source.py:584-586 | whether a result is the first of its uuid does not depend on later results |
| VgsiSource.SeenSnoc | scrapers/vgsi/source.py:584-587 | the seen set grows by the uuid of each non-empty property |
| VgsiSource.FirstIffUnseen | scrapers/vgsi/source.py:584-587 | a result is accepted iff its property is non-empty and its uuid has not been seen before |
| VgsiSource.FlattenFromOk | scrapers/vgsi/source.py:572-624 | on well-formed results flattening raises nothing, and the seen set is the uuids of all non-empty properties |
| VgsiSource.FlattenFromGet | scrapers/vgsi/source.py:572-624 | every table holds, in order, the rows of the accepted results |
| VgsiSource.GetAfterAccept | scrapers/vgsi/source.py:584-622 | accepting the next result keeps every table equal to the rows of the accepted results |
| VgsiSource.FlattenFromHas | scrapers/vgsi/source.py:572-624 | a table exists iff some result was accepted and it is always created, or it received rows |
| VgsiSource.HasAfterAccept | scrapers/vgsi/source.py:584-622 | accepting the next result keeps the table-exists characterisation |
| VgsiSource.CollectedSnoc | scrapers/vgsi/source.py:589-622 | the rows of accepted results are collected in result order |
| VgsiSource.SkipKeepsState | scrapers/vgsi/source.py:585-586 | a result with an empty property or an already seen uuid changes nothing |
| VgsiSource.FlattenVgsiOk | scrapers/vgsi/source.py:572-624 | flattening well-formed results gives one entry per table name |
| VgsiSource.FlattenVgsiGet | scrapers/vgsi/source.py:572-624 | each returned table holds, in order, the rows the accepted results contribute to it |
| VgsiSource.FlattenVgsiHas | scrapers/vgsi/source.py:572-624 | a table is returned iff it was created by an accepted result or received rows |
| VgsiSource.AcceptedDistinct | scrapers/vgsi/source.py:584-587 | accepted results have non-empty properties with pairwise different uuids, all in the seen set |
| VgsiSource.AcceptedCovers | scrapers/vgsi/source.py:584-587 | every seen uuid belongs to some accepted result |
| VgsiSource.NoLiveNoTables | scrapers/vgsi/source.py:584-585 | results with no non-empty property give no tables at all |
| VgsiSource.ErrorSticks | scrapers/vgsi/source.py:583-624 | once a KeyError is raised, flattening the longer list also raises |
| VgsiSource.MissingUuidRaises | scrapers/vgsi/source.py:587 | the first non-empty property without a "uuid" key raises KeyError |
| ScdWriter.Project | src/vgsi/database.py:405-413 | an insert stores exactly the listed columns that have a non-None value, with those values |
| ScdWriter.FirstCurrent | src/vgsi/database.py:538-545 | the lookup finds the first version marked current, or reports that there is none |
| ScdWriter.CurrentIsLast | src/vgsi/database.py:538-580 | in a versioned table a key has a current version iff it has a chain, and that version is the chain's last |
| ScdWriter.TouchKeepsChain | src/vgsi/database.py:550-560 | refreshing `updated_at` of the current version keeps the version chain well formed |
| ScdWriter.BumpKeepsChain | src/vgsi/database.py:562-583 | expiring the current version and inserting version n+1 from the same instant keeps the chain well formed |
| ScdWriter.UpsertVersioned | src/vgsi/database.py:538-583 | every upsert keeps each key's chain numbered 1, 2, … with exactly its last version current and each expired one ending where the next begins |
| ScdWriter.ReplaceChainVersioned | src/vgsi/database.py:538-583 | a well-formed chain under a NULL-free key keeps the table versioned |
| ScdWriter.UpsertFrame | src/vgsi/database.py:538-583 | an upsert changes no other key's versions, and with a NULL-free key it adds no unkeyed row |
| ScdWriter.FirstWriteInsertsVersion1 | src/vgsi/database.py:572-583 | the first write of a key inserts version 1, current, open-ended, from now, with the new hash and data |
| ScdWriter.SameHashAddsNoVersion | src/vgsi/database.py:550-560 | an unchanged hash adds no version and changes at most the current version's `updated_at` |
| ScdWriter.ChangedHashBumpsVersion | src/vgsi/database.py:562-583 | a changed hash closes the current version at now and appends version n+1, current, with the new hash and data, leaving older versions as they were |
| ScdWriter.NullKeyNeverVersioned | src/vgsi/database.py:803-825 | a key with a NULL part matches nothing, so every write inserts a fresh version 1 beside the keyed chains |
| ScdWriter.FoldPreserves | src/vgsi/database.py:437-507 | an invariant each statement keeps holds after a run of statements that succeeds |
| ScdWriter.FoldSnoc | src/vgsi/database.py:437-507 | a run of statements is the run of all but the last, then the last unless an earlier one failed |
| ScdWriter.SubAreaVersioned | src/vgsi/database.py:797-854 | a sub-area upsert keeps the sub-area table versioned |
| ScdWriter.SubAreasVersioned | src/vgsi/database.py:790-795 | a building's sub-area upserts keep the sub-area table versioned |
| ScdWriter.InsertBuildingVersioned | src/vgsi/database.py:639-795 | inserting a building keeps both the building and sub-area tables versioned |
| ScdWriter.PropertyVersioned | src/vgsi/database.py:518-637 | a property upsert keeps the property table versioned |
| ScdWriter.CodedVersioned | src/vgsi/database.py:856-976 | an extra-feature or outbuilding upsert keeps its table versioned |
| ScdWriter.UpsertLastHash | src/vgsi/database.py:538-583 | after an upsert the key's newest version carries the written hash and no version starts after now |
| ScdWriter.SameHashLastHash | src/vgsi/database.py:550-560 | the unchanged-hash branch keeps the written hash on the newest version |
| ScdWriter.ChangedHashLastHash | src/vgsi/database.py:562-583 | the changed-hash branch puts the written hash on the new newest version |
| ScdWriter.HashIgnoresUpdatedAt | src/vgsi/database.py:380-403 | dicts differing only in `updated_at` hash alike |
| ScdWriter.PropertyWriteHash | src/vgsi/database.py:518-583 | after a property write the uuid's newest version carries the hash of the written dict |
| ScdWriter.UnchangedPropertyAddsNoVersion | src/vgsi/database.py:538-560 | writing a property whose hash equals the current version's adds no version |
| ScdWriter.RewriteAddsNoVersion | src/vgsi/database.py:447-448 | writing the same property again in a later batch, which only restamps `updated_at`, adds no version |
| ScdWriter.BuildingsConsistent | src/vgsi/database.py:449-451 | a result's buildings keep the building and sub-area tables versioned |
| ScdWriter.RowsAppendOnly | src/vgsi/database.py:405-422 | the ownership and valuation inserts only append, keeping every earlier row in place |
| ScdWriter.Histories | src/vgsi/database.py:453-502 | the ownership, appraisal and assessment inserts touch no other table |
| ScdWriter.HistoriesAppendOnly | src/vgsi/database.py:453-502 | the ownership, appraisal and assessment tables only grow by appending |
| ScdWriter.CodedAllVersioned | src/vgsi/database.py:504-508 | a result's extra-feature or outbuilding upserts keep the table versioned |
| ScdWriter.WriteResultConsistent | src/vgsi/database.py:447-508 | writing one result keeps every versioned table versioned |
| ScdWriter.WriteBatchConsistent | src/vgsi/database.py:424-516 | a committed batch keeps every versioned table versioned |
| ScdWriter.WriteResultKeepsCheckpoints | src/vgsi/database.py:447-508 | writing a result saves no checkpoint |
| ScdWriter.WriteBatchKeepsCheckpoints | src/vgsi/database.py:424-516 | a batch saves no checkpoint |
| ScdWriter.FoldErrSticks | src/vgsi/database.py:511-516 | once a statement fails, the batch fails whatever follows |
| ScdWriter.FailedBatchStaysFailed | src/vgsi/database.py:511-516 | a batch that fails still fails with more results appended |
| ScdWriter.BatchStepSeen | src/vgsi/database.py:438-442 | one result adds exactly its uuid to the seen set, when its property is non-empty |
| ScdWriter.SeenUuidsIff | src/vgsi/database.py:435-442 | a uuid is seen iff some result's non-empty property carries it |
| ScdWriter.BatchSeen | src/vgsi/database.py:435-442 | after the loop the seen set is the uuids of all non-empty properties |
| ScdWriter.DuplicateSkipped | src/vgsi/database.py:439-440 | a result whose uuid appeared earlier in the batch changes nothing |
| ScdWriter.MissingPropertySkipped | src/vgsi/database.py:444-445 | a result without a property changes nothing |
| ScdWriter.EmptyPropertyAbortsBatch | src/vgsi/database.py:439-448 | an empty property dict passes both skips, then fails on its missing uuid and aborts the whole batch |
| ScdWriter.Latest | src/vgsi/database.py:993-997 | the newest checkpoint of a city has the latest time among that city's rows, and there is none iff the city has no row |
| ScdWriter.GetLastCheckpoint | src/vgsi/database.py:991-1005 | a city without checkpoints resumes from (0, 0); otherwise from the last pid and total of a newest checkpoint of that city |
| ScdWriter.CheckpointRoundTrip | src/vgsi/database.py:980-1005 | the checkpoint just saved is the one read back |
| ScdWriter.CheckpointOtherCity | src/vgsi/database.py:980-1005 | saving one city's checkpoint does not change what another city resumes from |
| ScdWriter.CheckpointKeepsData | src/vgsi/database.py:980-989 | a checkpoint appends one row and touches no other table |
| Tables.IndexOf | scrapers/vgsi/source.py:579 | the lookup finds the position of a table with that name, or reports that none has it |
| Tables.GetSpec | scrapers/vgsi/source.py:579 | with one entry per name, reading a table gives its rows, a table exists iff some entry has its name, and a missing table reads as empty |
| Tables.ExtendSpec | scrapers/vgsi/source.py:579 | appending to a table creates it if needed, adds the rows to it alone and keeps one entry per name |
| Tables.ExtendExisting | scrapers/vgsi/source.py:579 | appending to an existing table adds the rows to it alone and creates nothing |
| Tables.ExtendNew | scrapers/vgsi/source.py:579 | appending to a missing table creates it holding just those rows |

## Left out

- HTTP, HTML and the DOM: a reply is an oracle value (`VgsiSource.Reply`, `CtData` answers), and a parsed page is reduced to the cells, spans and tables its parsers read.
- DuckDB, parquet and JSON files: tables, files and checkpoint files are in-memory maps and sequences. The SQL schema, its indexes and the current-row views carry no behaviour here.
- UNIQUE constraints of the legacy schema are not modelled: no write in the model inserts two versions of one key from the same instant, apart from NULL keys, which SQL lets through anyway.
- The clock: each writer call takes one `now`. `_upsert_property` and `_insert_building` read their own `datetime.now()`; the model uses the batch's instant for all of them.
- `created_at` is not stored in the model; it is excluded from every hash and no lookup reads it.
- A failed legacy `write_batch` has already stamped `updated_at` into the caller's result dicts before rolling back; the model returns the error and leaves the inputs as they were.
- Threads, `as_completed`, semaphores, locks and timeouts: the loops are folds over the completions in one order, and the rate limiters are functions of an abstract clock.
- Progress bars, logging and `time.sleep` itself (the sleeps are returned as a list of delays).
- A checkpoint save that raises is not modelled in the engine or the legacy loader; both catch and log it.
- `download_photo`, `fetch_vgsi_cities`, `store_cities`, `get_city_url`, `get_known_entry_ids`, `get_current_properties` and `get_property_at_date`: network, filesystem or SQL glue outside the core.
- Checkpoints with equal `checkpoint_time`: SQL returns one of them in no fixed order; `ScdWriter.Latest` takes the later row.
- `ScdWriter.Columns`: the insert column lists are a parameter of the writer, with the schema's lists given as constants; schema type conversions are not modelled.
- `CtData.FetchPages`: pagination runs with a fuel bound; a server that sends full pages forever is reported as out of fuel rather than looping.
- JSON escaping, `str()` of floats and `repr` of dicts: serializations are structured values that are injective by construction, and digests are applied to them.
- Floating point: `float()` on text, `float()` of an int and `int()` of a float are the oracle `VgsiParse.Floats`; `_handle_float` is not modelled.
- MD5 and `uuid.UUID`: uninterpreted functions; properties that depend on them hold modulo collisions and say so.
- VgsiSource.ByTime: captures with equal `scraped_at` keep the order they were read in, where SQL leaves their order open; `scraped_at` itself is the parameter `time`.
- Engine.Items: the engine loops take completions in submission order; an arbitrary `as_completed` order is not modelled for `run_load` and `run_refresh`.
- Engine.FixedLoadKeepsUnhandled: proved only for entries completing in submission order. Under out-of-order completion a periodic checkpoint can name an entry completed ahead of one still in flight, and an abort then leaves that entry behind the resume point; the corrected final-checkpoint rule does not cover it.
- ParquetWriter.CompactedContents: takes DuckDB to read the sorted glob file by file and to keep insertion order on `COPY`, its default setting.
- VgsiParse.HandleInt: `int()` on text is restricted to an optional sign and ASCII digits; Python also accepts `_` between digits and non-ASCII decimal digits, which give None here.
- VgsiParse.NormalizeHeader: lower-cases ASCII letters only; Python's `str.lower()` also lowers non-ASCII capitals, which are kept here.
- EngineEffects.WriteAttempts: whether an attempt raises, and at which flattened table, are oracles (`fails`, `point`). A raise while stamping or hashing, before that table's hashes are recorded, is treated like one in `mkdir` or `_write_parquet`. A `point` at a table with nothing left to write stands for no run of the source. A partial file left by a raising write is not modelled: the failing table gets no file.

## Findings

| source | as written | input that shows it | evidently intended | confidence | as-written member | corrected member |
|---|---|---|---|---|---|---|
| src/engine/engine.py:304-313 | after a TooManyErrors abort the loop breaks, and the final checkpoint still records the last id of the whole remaining list | three entries that all fail, `max_consecutive_errors` 2: the run aborts after two, checkpoints the third, and the next resume starts past the end and never retries any of them | an aborted run keeps the last periodic checkpoint, so the next run resumes at the entries it did not handle (proved for entries completing in submission order) | medium, not executed | Engine.AbortedLoadSkipsRest | Engine.FixedLoadKeepsUnhandled |
| src/engine/database.py:137-159 | `write_batch` counts a table's skipped and written rows and adds their hashes to the known set before `_write_parquet`, which can raise; the engine catches the error and retries the same batch later | `run_refresh` with `batch_size` 1 and one entry whose result flattens to one table with one unseen row: the first write raises, the final flush retries, the row's hash is already known, so it is skipped; `rows_written` is 1 and `rows_skipped` 1, yet no file holds the row | a failed write leaves the failing table's hashes and counts untouched, so the retry writes its rows | medium, not executed | ParquetWriter.RetryAfterFailedWriteSkips | ParquetWriter.FixedRetryWritesRows |
