# A verified model of the migration engine

This project models the database migration engine and proves what it promises: which rows end
up in the destination whatever fails on the way, what the counters and the progress figures
mean, what a plan accounts for, and which states the persisted job record can reach.

## What is modelled

**Copying** (`Destination`, `Executor`, `Copying`, `Counting`, `Endings`, `Tables`, `KeylessTables`,
`Runs`, `Restarts`, `JobRestarts`, `Redelivery`). A destination table is a sequence of rows with a rule saying which
arriving rows it ignores (`INSERT OR IGNORE` and its relatives, module `ConflictRules`). Every call
to a database takes its fate from a list the executor cannot see: it returns, raises, or the process
dies there. A failing insertion may have applied any prefix of its batch, and what it applied may
have been committed or may be pending until the next commit, so a store has a *live* view and a
*durable* one; closing the connection goes back to the durable view. `MigrationExecutor` has the
loops and retry counters of the original; each of its methods is proved equal to a function of the
state before the call, and the theorems are about those functions. A trace (fetches, insertions,
seconds slept, reports, delivered batches, and the store after every single call) turns "at every
step" into a statement about the trace. Launches of a job may follow one another, each planning against
what the earlier ones left (`Restarts`, `JobRestarts`), or, after a redelivery, any number of workers
may empty and copy the same table at once (`Redelivery`).

**Planning and mapping** (`Schema`, `Text`, `Mapper`, `Validator`, `Planner`, `SqliteSchema`,
`Replanning`). The validator's two loops, column mappings and value coercion, the planner, SQLite's
type normalisation, `CREATE TABLE` and schema reading, and what changes when a worker plans again.

**The job record** (`Lifecycle`, `JobStatus`, `Finality`, `Progress`). Any number of API handlers and
workers act on one record, each first loading it and later committing; between the two anybody else
may act. A commit writes only the columns that differ from what was loaded, as the ORM's flush does.
`Deployment` carries out any interleaving step by step, each write as load, assign, commit.

**Together** (`EndToEnd`). Plan, run, and what a COMPLETED job means for every requested table.

### Assumptions

- A source table delivers the same rows in the same order on every fetch of a run (the SQL has no
  ORDER BY), and its row count is exact where totals are compared.
- Truncating or creating a table touches that table only.
- A *keyed* table is one in which each admissible mapped row conflicts with its own copy: it has a
  unique key without NULLs in that row (`SqliteSchema.KeyedExactly`). A *keyless* table has no
  unique constraint at all.
- Type names are ASCII strings. Time is an integer clock, and ratios are exact rationals, not floats.
- `json.dumps` is an arbitrary function from documents to strings.
- Batch size and retry limit are any natural numbers; the request schema admits 100 to 50000 and 0
  to 10 (app/schemas/migration.py:10-16).

### What turned out not to hold

- CANCELLED is not final: a worker not stopped in time completes the job
  (`Finality.CancelledCanComplete`). COMPLETED and CANCELLED are final exactly when nothing is
  outstanding (`Finality.FinalExactly`).
- A start request can commit after its worker finished, and the job is then RUNNING with nobody
  working on it (`Finality.CanBeStuckRunning`). A RUNNING job stays as it is until somebody cancels
  it exactly when nothing is outstanding (`Finality.StuckExactly`); such a late start and the loss
  of the last worker are the only ways there (`Finality.AttendedExactly`, `Finality.NeverStuck`).
- `completed_at` survives a restart, so a restarted job reports speed 0 and remaining time 0
  (`JobStatus.EveryRestartHides`, reached in `JobStatus.RestartHidesSpeed`); a record shows no speed
  whatever it processed exactly when its recorded end is not after its start
  (`JobStatus.SpeedHiddenExactly`).
- A table that passed validation need not be copied: if it shares no column with an existing
  destination, no mapping is active and the raw rows are sent and refused
  (`EndToEnd.ValidatedButRefused`). When nothing fails, the copy completes exactly if some column is
  shared (`EndToEnd.CopyCompletesExactly`).
- Replanning after `create_table` may change the rows sent: MySQL reports a column declared INTEGER as
  INT, so a SQLite INTEGER column that holds 1.5 is sent as 1 by the first launch and as 1.5 by a
  restarted one (`Replanning.MySqlChangesRows`). The rows stay the same exactly under the condition
  of `Replanning.ReplannedFeedExactly`, which a SQLite destination always meets for the cells that
  sources deliver (`Replanning.SqliteKeepsRows`). The mappings stay the same exactly when the type
  names are stable (`SqliteSchema.ReplanStable`), as all names read from SQLite are.
- A job that truncates can report success with rows missing: a redelivered worker empties the table
  after the first one counted rows, and is lost (`Redelivery.TruncationLoses`). What is left, and when
  it is the whole source, is exact (`Redelivery.TruncationCostsExactly`).
- With batch size 0 every table "completes" without a row (`Tables.TableOutcome`); the request schema
  excludes it, the executor does not.

## Model

| member | source | states |
|---|---|---|
| ConflictRules.InsertConcat | app/providers/sqlite_provider.py:193-196 | inserting two batches one after the other equals inserting their concatenation |
| ConflictRules.ArrivedIsRejected | app/providers/sqlite_provider.py:193-196 | once a row of a keyed table arrived, any further copy of it is ignored for good |
| ConflictRules.NoOpExactly | app/providers/sqlite_provider.py:193-196 | an insertion changes nothing iff every one of its rows is ignored |
| ConflictRules.Replay | app/migration/executor.py:150-164 | over a keyed table that already took T[..j], sending T[i..k] again (i <= j) leaves T[..max(j, k)] inserted once |
| ConflictRules.GrowthPlusIgnored | app/providers/sqlite_provider.py:193-197 | rows the table grew by plus rows silently ignored are the rows sent |
| ConflictRules.NothingIgnoredExactly | app/providers/sqlite_provider.py:193-197 | nothing is ignored iff every row is admissible and conflicts neither with the table nor with an earlier row sent; then the rows are appended |
| ConflictRules.KeylessAppends | app/providers/sqlite_provider.py:193-197 | without unique constraints an insertion appends the admissible rows, repeated ones too |
| Mapper.TruncateTowardZero | app/migration/mapper.py:88-89 | int() of a finite float is the nearest integer toward zero |
| Mapper.CoerceActsExactly | app/migration/mapper.py:72-96 | a coercion leaves a value alone except ints and strings for BOOLEAN, floats for integer types, documents for string types |
| Mapper.CoerceMeets | app/migration/mapper.py:72-96 | unless it raises, a coercion gives exactly the value required: for BOOLEAN, int i becomes i != 0 and a string whether it spells one of 1, true, yes, t in any case; for an integer type a float loses its fraction; for a string type a document becomes its dump; everything else stays |
| Mapper.CoerceFailsExactly | app/migration/mapper.py:88-89 | a coercion raises iff a non-finite float meets an integer type |
| Mapper.CoerceTwice | app/migration/mapper.py:72-96 | coercing a coerced value again changes nothing |
| Mapper.CoerceAgreesExactly | app/migration/mapper.py:77-96 | coercions of a value to two types agree iff the types are of one kind or neither coercion does anything |
| Mapper.BuildColumnMappings | app/migration/mapper.py:18-50 | the loop yields one mapping per source column, in order, included iff the destination is missing or has the name |
| Mapper.MappingTypes | app/migration/mapper.py:37-48 | a mapping has the source column's name and type, and the type of a destination column of that name if it is included and there is a destination |
| Mapper.BuiltMappingsPreserveNames | app/migration/mapper.py:37-48 | distinctly named columns give mappings that keep names and never write a column twice |
| Mapper.ApplyMappings | app/migration/mapper.py:53-69 | the nested loops transform a batch row by row, and raise iff some row's coercion raises |
| Mapper.MapRowKeys | app/migration/mapper.py:61-68 | every transformed row has the same key set |
| Mapper.MapRowAt | app/migration/mapper.py:65-67 | each included column receives the coerced value of its own source column |
| Mapper.MappedCells | app/migration/mapper.py:53-96 | each cell of a mapped batch is what its source cell must become; no column and no row is added, missing or moved |
| Mapper.MapRowTwice | app/migration/mapper.py:53-96 | applying the mappings to a transformed row changes nothing |
| Mapper.ProjectionPushdown | app/migration/executor.py:106-129 | mapping a row fetched with only the requested columns equals mapping the whole row |
| Mapper.MapRowsConcat | app/migration/mapper.py:53-69 | mapping distributes over concatenated batches, failures included |
| Mapper.MapSlice | app/migration/executor.py:113-131 | mapping a slice of the table gives the slice of the mapped table, and raises iff the slice reaches an unmappable row |
| Destination.RecordsLoseNothingExactly | app/providers/sqlite_provider.py:190-194 | taking the columns from the first row's keys loses no value iff all rows share one key set |
| Destination.RecordsFill | app/providers/sqlite_provider.py:190-194 | each record has the first row's columns, with NULL where its own row has none |
| Destination.FailedInsert | app/providers/sqlite_provider.py:193-196 | an insertion that fails after k rows leaves exactly those k, committed iff the failure committed; inserting the others afterwards leaves what an insertion without failure leaves |
| Destination.ReturnsExactly | app/providers/sqlite_provider.py:181-197 | an insertion returns iff nothing is to be inserted, or the call goes well, the table exists and has all columns the first row names, at least one; refused rows change nothing |
| Destination.FetchedExactly | app/providers/sqlite_provider.py:127-141 | a batch holds the rows from the offset on up to the limit, each with exactly the columns asked for and its own values |
| Destination.SQLiteProvider.CreateTable | app/providers/sqlite_provider.py:159-179 | new state and reply of CREATE TABLE IF NOT EXISTS under every fate: an existing table keeps its rows |
| Destination.SQLiteProvider.InsertBatch | app/providers/sqlite_provider.py:181-197 | row by row the batch is inserted up to where its fate strikes; committed only if the call commits; an empty batch does nothing |
| Destination.SQLiteProvider.TruncateTable | app/providers/sqlite_provider.py:199-202 | the table is emptied unless the call fails before; a missing table raises |
| Destination.SQLiteProvider.Finish | app/providers/sqlite_provider.py:196 | a commit makes everything pending on the connection durable |
| Destination.SQLiteProvider.Disconnect | app/providers/sqlite_provider.py:64-67 | closing the connection goes back to the committed rows |
| Executor.FeedUniform | app/migration/executor.py:128-132 | the mappable rows sent to the destination share one key set |
| Executor.BatchIsSlice | app/migration/executor.py:106-129 | fetching the projected batch and mapping it yields exactly the slice of the mapped table at that offset, or raises iff the slice reaches an unmappable row |
| Executor.MigrationExecutor.InsertAttempt | app/migration/executor.py:152-162 | one attempt: success ends the loop, a failure sleeps 2^attempt unless it was the last |
| Executor.MigrationExecutor.InsertWithRetry | app/migration/executor.py:150-164 | the loop computes InsertWithRetrySpec from attempt 0 |
| Executor.MigrationExecutor.NextBatch | app/migration/executor.py:106-131 | the fetched, projected and transformed batch is the feed's slice at the offset |
| Executor.MigrationExecutor.ReportBatch | app/migration/executor.py:138-145 | a delivered batch is counted once and then reported |
| Executor.MigrationExecutor.CopyTurn | app/migration/executor.py:113-145 | the body of the copy loop computes TurnSpec |
| Executor.MigrationExecutor.CopyData | app/migration/executor.py:102-148 | the copy loop terminates and computes CopySpec from offset 0 |
| Executor.MigrationExecutor.Prepare | app/migration/executor.py:84-99 | create, then truncate: a failed creation fails the table, a failed truncation does not |
| Executor.MigrationExecutor.MigrateTable | app/migration/executor.py:80-148 | the three steps of a table, with their early returns |
| Executor.MigrationExecutor.Run | app/migration/executor.py:53-76 | the main loop: skipped, completed, failed lists, early stop, aborts, and the returned total |
| Copying.PartArrives | app/migration/executor.py:150-164 | any part of a batch arriving over a prefix of the source leaves a prefix that ends inside the batch |
| Copying.InsertOpKeeps | app/providers/sqlite_provider.py:193-196 | one insertion of a batch, however it ends, keeps both views at a prefix within the batch; a returning one delivers and commits it whole |
| Copying.RetryKeeps | app/migration/executor.py:150-164 | the same over all attempts, at every snapshot between them |
| Copying.TurnKeeps | app/migration/executor.py:113-145 | a turn of the copy loop keeps the prefix invariant and the count in step |
| Copying.CopyKeeps | app/migration/executor.py:109-164 | prefix invariant: at every step both views hold the base rows plus T[..k], offset <= k <= min(offset + batch size, n); a completed copy delivered and committed all of T |
| Endings.RetryEnds | app/migration/executor.py:150-164 | all attempts for a batch but the last raised or were refused; the last one decides, and giving up took r + 1 |
| Endings.CopyEnds | app/migration/executor.py:109-148 | one call ends a copy and every earlier one was survived: it completed by a fetch that found nothing left; it was aborted by a death, by an on_progress that raised, or by a row that cannot be mapped; it failed by r + 1 calls in a row that raised or were refused, so retries of one batch never count against another |
| Endings.OneEnding | app/migration/executor.py:109-148 | no call can end a copy in two of these ways |
| Endings.TransientFaults | app/migration/executor.py:113-164 | as long as no r + 1 consecutive calls raise and nothing dies, the copy of mappable rows into a table with their columns completes, however many calls raise, unless on_progress raises |
| Counting.BatchesIsCeiling | app/migration/executor.py:113-141 | the number of batches is the ceiling of n / b |
| Counting.RetryBounds | app/migration/executor.py:150-164 | one batch makes at most r + 1 insertions and sleeps at most 2^r - 1 seconds |
| Counting.RetryExhausts | app/migration/executor.py:150-164 | giving up on a batch took exactly r + 1 insertions and slept exactly 2^r - 1 seconds |
| Counting.FetchesExhaust | app/migration/executor.py:114-122 | if no fetch succeeds, the table fails after exactly r + 1 fetches and 2^(r+1) - 2 seconds, unchanged |
| Counting.CopyBounds | app/migration/executor.py:113-162 | at most (m + 1)(r + 1) fetches, m(r + 1) insertions, and (m + 1)(2^(r+1) - 2) + m(2^r - 1) seconds slept, for m = ceil(n / b) batches |
| Counting.CopyCounts | app/migration/executor.py:138-145 | reported totals strictly increase, no row is counted twice, a completed copy counted all rows and delivered exactly the batches of the plain walk |
| Counting.CopyReports | app/migration/executor.py:138-145 | every report names its table, and its rows in the table and its running total advance together |
| Counting.FaultFreeCompletes | app/migration/executor.py:113-148 | a copy in which no call fails completes |
| Counting.StreamTable | app/providers/sqlite_provider.py:143-155 | advancing by the batch size yields the batches of the plain walk over the projected table |
| Counting.ChunkListIsWalk | app/utils/helpers.py:38-40 | chunk_list yields the same batches |
| Counting.ChunksConcat | app/utils/helpers.py:38-40 | those batches concatenate to the table |
| Counting.CopyCommits | app/providers/sqlite_provider.py:195-196 | a completed copy leaves nothing pending, unless it had nothing to deliver |
| KeylessTables.RetryKeyless | app/migration/executor.py:150-164 | a delivered batch is stored and committed, at least once without keys, exactly once if failing calls apply nothing |
| KeylessTables.KeylessCopy | app/migration/executor.py:109-164 | at-least-once: a completed keyless copy has committed every admissible row on top of the old ones, exactly once if failing calls apply nothing |
| KeylessTables.CopyGrows | app/migration/executor.py:109-164 | a keyless copy, however it ends, adds each row at most r + 1 times and loses none |
| KeylessTables.KeylessRestarts | app/workers/celery_app.py:20-21 | after any launches a keyless table lost no row and gained each source row at most once per insertion that may have been attempted; if the last launch completed it, at least once in that launch |
| Tables.MigrateFrames | app/migration/executor.py:80-148 | migrating a table leaves every other table's rows alone; at most its pending rows get committed |
| Tables.PrepareExactly | app/migration/executor.py:84-99 | a preparation fails iff the creation raises, and aborts iff one of its calls dies; the rows are gone exactly if a truncation took effect; what is committed was visible before or is now |
| Tables.CompletedExactly | app/migration/executor.py:80-148 | a completed keyed table holds exactly its whole source inserted over what steps 1 and 2 left, committed unless there was nothing to copy |
| Tables.PassArrives | app/migration/executor.py:80-164 | one more pass over a table that already holds a prefix over the initial or emptied rows leaves both views in such a state |
| Tables.TableOutcome | app/migration/executor.py:80-164 | at every step of a table, failed and killed ones too, a prefix of the source over the old or emptied rows; with data excluded no row is added |
| Tables.CountVersusGrowth | app/migration/executor.py:138-141 | a completed copy counts n rows = growth + ignored; count equals growth iff the source conflicts neither with the table nor within itself |
| Runs.RunFrames | app/migration/executor.py:61-73 | a run leaves every table alone that it does not migrate |
| Runs.RunTrace | app/migration/executor.py:53-76 | there are worlds, each left by its plan's own turn, such that completed, failed and skipped are exactly the names, in order, of the plans whose turn completed, failed, or that are skipped; the run goes on after each but the last, and aborts iff the last turn did |
| Runs.RunSucceeds | app/migration/executor.py:53-76 | a run in which every call succeeds fails no table and completes every unskipped one, under any settings |
| Runs.RunOutcome | app/migration/executor.py:53-76 | whole run, for every keyed table, requested once, repeatedly or never: untouched if the run never turned to it; its whole source over exactly the base left by the truncations if no turn failed; else a prefix; no row added without data |
| Runs.RunAccounts | app/migration/executor.py:61-73 | the three result lists split the plans reached, in order |
| Runs.RunStops | app/migration/executor.py:61-73 | the whole plan is reached with continue_on_error or without failures; otherwise the run ends at its single failed table |
| Runs.SplitsCovers | app/migration/executor.py:54-73 | lists that split the plans cover every one of them and add up |
| Runs.RunTotals | app/migration/executor.py:138-141 | the running total never exceeds the planned rows, equals them if nothing fails, and stays 0 without data |
| Restarts.LaunchJob | app/workers/migration_tasks.py:86-145 | opening the connection, running the executor and closing it leaves committed, and returns, what RunOnce says |
| Restarts.LaunchJobs | app/workers/celery_app.py:20-21 | launching again and again, each on what the last launch left committed, ends at AfterLaunches |
| Restarts.LaunchOutcome | app/migration/executor.py:80-164 | what one launch leaves committed in a keyed table, truncated or not: a prefix over the initial or emptied rows, or everything over exactly its base if it completes the table |
| Restarts.UntruncatedLaunch | app/migration/executor.py:80-164 | without truncation the base is the initial rows, and completing the table once in the run is enough |
| Restarts.RestartConverges | app/workers/celery_app.py:20-21 | after any failed, aborted or killed launches, one that completes the table leaves the original rows plus the whole source, as one faultless launch would |
| Restarts.FaultTransparency | app/migration/executor.py:94-164 | two launches that complete a table leave the same rows whenever their bases agree (always, without truncation), for any fates, retries, batch sizes and other tables |
| Redelivery.WorkersConverge | app/workers/celery_app.py:20-21 | any number of workers empty and copy the same keyed table at once: as long as no truncation takes effect when somebody has counted rows, the committed rows are a prefix of the source, over the initial or emptied table, that holds all rows anybody counted; without truncation it never shrinks |
| Redelivery.DeliveredOnceForAll | app/workers/celery_app.py:20-21 | once one worker delivered its last batch, and until somebody truncates, the table holds exactly what one undisturbed worker would leave over the initial or emptied rows |
| Redelivery.TruncationCostsExactly | app/migration/executor.py:94-148 | a worker that had counted a rows when another's truncation was committed, and then delivers the rest alone, ends with exactly the rows from number a on; for a source without conflicts that is the whole source iff a = 0 |
| Redelivery.TruncationLoses | app/migration/executor.py:94-148 | moves after which a worker has counted every row of the source and the table lacks the first one |
| Redelivery.RetryMirrors | app/migration/executor.py:150-164 | the attempts to insert one batch are such moves of one worker |
| Redelivery.CopyMirrors | app/migration/executor.py:109-164 | the copy loop, whatever happens to it, makes such moves of one worker and leaves committed what they leave; a completed one has counted every row |
| Tables.RawRowsRefused | app/migration/executor.py:107-135 | raw rows with a column the destination lacks store nothing, and the copy cannot complete |
| Validator.ValidateSchemaCompatibility | app/migration/validator.py:42-107 | the two loops collect all warnings in order or raise the first fatal finding |
| Validator.VerdictExactly | app/migration/validator.py:54-107 | validation raises iff there is no source column, a shared column has two different known families, or an unmatched destination column is NOT NULL without default |
| Validator.RefusalExactly | app/migration/validator.py:54-101 | a refused schema is refused for its first offending column in order: an empty source, the first conflicting pair with its own two types, or else the first required destination column without a source |
| Validator.WarningsExactly | app/migration/validator.py:66-107 | after a successful validation a column is reported as skipped iff the destination lacks it, as defaulted iff the source lacks it, as truncated iff its length exceeds a non-zero destination length, with these two lengths |
| Validator.WarningsInOrder | app/migration/validator.py:66-107 | the warnings are the findings of the columns in the order of the two loops, one each |
| Validator.FamilyExactly | app/migration/validator.py:16-39 | a type is of a family iff its name, in upper case and without parameters, is listed there; no name is listed twice |
| Validator.OrderFree | app/migration/validator.py:54-107 | permuting either schema's distinctly named columns keeps the verdict and the multiset of warnings |
| Validator.MappingsCover | app/migration/validator.py:66-101 | after a successful validation the included mappings are the common columns, join no two families, and cover every destination column that must be given a value |
| Planner.ReadDestination | app/migration/planner.py:43-56 | the destination schema is read only if the table exists; an unreadable one is a warning and counts as missing |
| Planner.BuildPlan | app/migration/planner.py:26-91 | the loop appends, table by table, what PlanTable contributes |
| Planner.PlanAccounts | app/migration/planner.py:31-91 | planned tables are the readable requested ones in order, the others each have their own warning, the total counts the tables to be copied, and every skip, mapping and warning is justified by the verdict |
| Planner.RequestedCovers | app/migration/planner.py:31-41 | every requested table is planned or reported |
| Planner.PlanWarningsExactly | app/migration/planner.py:31-85 | the plan warns of an unreadable source, an unreadable destination, an incompatibility or a finding of the validator iff that is so for a requested table |
| Planner.PlanRaisesExactly | app/migration/planner.py:43-56 | planning raises iff the destination does not say whether some readable requested table exists, and then for the first such table |
| SqliteSchema.NormaliseTwice | app/providers/sqlite_provider.py:100-101 | type normalisation is idempotent on every ASCII type string |
| SqliteSchema.FamilyKept | app/providers/sqlite_provider.py:18-41 | normalisation never moves a type of a known family into another family |
| SqliteSchema.KeysExactly | app/providers/sqlite_provider.py:18-41 | the type table knows exactly these 22 names |
| SqliteSchema.IntegerAliases | app/providers/sqlite_provider.py:18-41 | the integer names that mean another type |
| SqliteSchema.OtherAliases | app/providers/sqlite_provider.py:18-41 | the other names that mean another type |
| Text.LettersExactly | app/providers/sqlite_provider.py:100-101 | case conversion exchanges the letters of the two alphabets and leaves every other character alone |
| Text.StripExactly | app/providers/sqlite_provider.py:100-101 | stripping takes away the white space around a string and nothing else |
| SqliteSchema.CreateTable | app/providers/sqlite_provider.py:159-177 | the loop builds one definition per column, inline key only for single keys |
| SqliteSchema.GetTableSchema | app/providers/sqlite_provider.py:96-115 | the loop builds columns and primary keys in order |
| SqliteSchema.KeyDeclaredOnce | app/providers/sqlite_provider.py:161-176 | CREATE TABLE names the primary key once: inline for one column, as a clause with all columns in order for several |
| SqliteSchema.ColumnsRead | app/providers/sqlite_provider.py:96-115 | each column is read with what the database reports about it, in order; only the type is normalised |
| SqliteSchema.RoundTrip | app/providers/sqlite_provider.py:90-179 | creating a table from a schema and reading it back keeps names, order, nullability and keys, normalises types, forgets defaults and lengths |
| SqliteSchema.ReplanStable | app/migration/validator.py:66-107 | a schema validated against its own copy gives no finding; its mappings are those without a destination iff its types are stable |
| SqliteSchema.ReadSchemasAreStable | app/providers/sqlite_provider.py:100-101 | every schema read from SQLite has stable types |
| SqliteSchema.KeyedExactly | app/providers/sqlite_provider.py:193 | the rows of a table are keyed iff each admissible one has a unique key without NULLs |
| SqliteSchema.StoredExactly | app/providers/sqlite_provider.py:193 | a row is ignored iff it lacks a required value or agrees with a stored or an earlier row on all columns of some key, none of them NULL |
| SqliteSchema.CreatedExactly | app/providers/sqlite_provider.py:161-176 | the created table wants a value in each NOT NULL column and takes two rows for the same iff they agree on the whole primary key, none of it NULL |
| SqliteSchema.CreatedTablesAreKeyed | app/providers/sqlite_provider.py:161-176 | a created table with a NOT NULL primary key is keyed for any rows; one without a primary key never ignores a conflict |
| Progress.RoundHalfEven | app/utils/helpers.py:35 | round(): nearest integer, ties to even |
| Progress.Ceiling | app/utils/helpers.py:21 | math.ceil(): least integer not below |
| Progress.ProgressExactly | app/utils/helpers.py:31-35 | progress is in 0..100, within half a point of the exact ratio below 100, and 100 iff at least 99.5 percent are done |
| Progress.ProgressMonotone | app/utils/helpers.py:31-35 | more rows never give less progress |
| Progress.EtaIsLeast | app/utils/helpers.py:11-21 | the estimate is the least integer e with e * processed >= remaining * elapsed |
| Progress.EtaZeroExactly | app/utils/helpers.py:11-21 | with rows done and time elapsed the estimate is 0 iff nothing is left |
| Progress.EtaAntitone | app/utils/helpers.py:11-21 | at fixed elapsed time the estimate does not grow with the rows done |
| Progress.SpeedNonNegative | app/utils/helpers.py:24-28 | speed is never negative |
| Progress.EtaNonNegative | app/utils/helpers.py:11-21 | the estimate is never negative |
| Progress.ReportedProgress | app/workers/migration_tasks.py:97-113 | over a run, reported totals strictly increase and percentages never fall and stay in 0..100 |
| Lifecycle.Deployment.constructor | app/services/migration_service.py:70-82 | a created job is PENDING with the given totals and otherwise empty, nothing is in progress, and the invariant holds |
| Lifecycle.Deployment.CommitStart | app/services/migration_service.py:169-174 | a start request makes the job RUNNING whatever was committed since its load, with the new start and task unless these were loaded; every other column stays |
| Lifecycle.Deployment.CommitCancel | app/services/migration_service.py:190-192 | a cancel request makes the job CANCELLED even if it was finished since the load, with the new end unless that was loaded; every other column stays |
| Lifecycle.Deployment.CommitRunning | app/workers/migration_tasks.py:76-79 | a status committed since the load survives exactly if RUNNING had been loaded; the start is new unless it was loaded; every other column stays |
| Lifecycle.Deployment.CommitProgress | app/workers/migration_tasks.py:104-109 | rows and table are the reported ones unless these were loaded; every other column stays, so a report undoes no cancellation |
| Lifecycle.Deployment.CommitResult | app/workers/migration_tasks.py:162-172 | each column of the outcome (tables, rows, current table, end, error naming the failed tables) is set unless its value was loaded; the status overwrites any committed meanwhile unless it was loaded; start, task and totals stay |
| Lifecycle.Deployment.CommitFailure | app/workers/migration_tasks.py:41-49 | _mark_failed sets FAILED, the end and the first 2000 characters of the error, each unless it was loaded; every other column stays |
| Lifecycle.Deployment.Perform | app/workers/migration_tasks.py:62-172 | one step of anybody: the new state is that of Step, the invariant is kept and nothing recorded is taken back |
| Lifecycle.Deployment.Serve | app/services/migration_service.py:160-194 | any interleaving, step by step, ends in the state of Run and keeps the invariant |
| Lifecycle.CommitKeeps | app/workers/migration_tasks.py:41-49 | no commit of a stale update breaks the record invariant or takes back what was recorded |
| Lifecycle.StartShows | app/services/migration_service.py:160-177 | undisturbed, a start is refused unless the job is PENDING or FAILED; else it is RUNNING from now on under the new task, one message is queued, and nothing else changes |
| Lifecycle.CancelShows | app/services/migration_service.py:181-194 | undisturbed, a cancel is refused unless the job is RUNNING; else it is CANCELLED now and nothing else changes |
| Lifecycle.ProgressShows | app/workers/migration_tasks.py:97-113 | undisturbed, a progress report shows its rows and table whatever the status is, and nothing else changes |
| Lifecycle.CloseShows | app/workers/migration_tasks.py:162-172 | undisturbed, the final step shows the outcome's figures, whatever the status was |
| Lifecycle.FailureShows | app/workers/migration_tasks.py:31-49 | undisturbed, a failure at any point, marked once or twice, leaves FAILED with the first 2000 characters of the error |
| Lifecycle.JoinedParts | app/workers/migration_tasks.py:171 | the names in the error are separated by a comma and a blank, and only by that |
| Lifecycle.StepKeeps | app/workers/migration_tasks.py:62-172 | every step of any handler or worker keeps the invariant of record and activities |
| Lifecycle.AlwaysOk | app/services/migration_service.py:70-194 | over all interleavings: PENDING means untouched, RUNNING has started_at, COMPLETED, FAILED and CANCELLED have completed_at, completed_tables <= total_tables, totals never change |
| JobStatus.StatusInRange | app/services/migration_service.py:89-117 | every status answer has progress in 0..100 and non-negative speed and remaining time |
| JobStatus.StatusExactly | app/services/migration_service.py:89-117 | status and rows are the record's; progress is the percentage done to half a point below 100 and 100 iff at least 99.5 percent; speed is the rows per second to the nearest integer, ties to even; the remaining time is the least whole number of seconds the rest takes at that rate |
| JobStatus.SpeedHiddenExactly | app/services/migration_service.py:96-103 | no speed is shown, whatever was processed and whenever asked, iff there is no start or the recorded end is not after it; no remaining time iff so or at most one row is to be copied |
| JobStatus.EveryRestartHides | app/services/migration_service.py:160-174 | in every run, the start request of a failed job leaves a RUNNING record whose old completion time hides the speed |
| JobStatus.HiddenStays | app/workers/migration_tasks.py:76-109 | it stays hidden until a cancel, final or failure commit records a new end |
| JobStatus.RestartHidesSpeed | app/services/migration_service.py:160-174 | a run of any job with at least one table that reaches such a record |
| Finality.FinalExactly | app/services/migration_service.py:160-194 | COMPLETED and CANCELLED never change again iff no worker, message or handler is outstanding |
| Finality.CancelledCanComplete | app/workers/migration_tasks.py:162-172 | a run in which a cancelled job becomes COMPLETED |
| Finality.CanBeStuckRunning | app/services/migration_service.py:169-174 | a run that ends RUNNING with a completion time and nobody working |
| Finality.StuckExactly | app/services/migration_service.py:160-186 | a RUNNING record changes only by a new cancel request iff no worker, message or handler is outstanding |
| Finality.AttendedExactly | app/workers/migration_tasks.py:62-172 | a RUNNING job keeps a worker that will finish it through any step, exactly unless a start request commits after every such worker made its last load, or the last such worker is lost |
| Finality.RedeliveryAttends | app/workers/celery_app.py:20-21 | a worker whose task was delivered again beforehand is not the last one, so losing it does no harm |
| Finality.NeverStuck | app/workers/migration_tasks.py:62-172 | a run without such late starts and such losses never leaves a RUNNING job to nobody |
| Finality.CompletedByCleanClose | app/workers/migration_tasks.py:162-172 | over all interleavings, a COMPLETED record was written by the final step of a run without failed tables |
| EndToEnd.JobAccounts | app/workers/migration_tasks.py:164-166 | the outcome fits total_tables, and a job without failed tables completed, skipped or dropped with a warning each requested table |
| EndToEnd.JobTotals | app/migration/planner.py:61-74 | rows migrated never exceed the planned total; without failures they equal it and progress is 100 |
| EndToEnd.JobRecordShows | app/workers/migration_tasks.py:162-172 | if nobody else commits meanwhile, the closed record shows the number of tables completed and the rows migrated by the run, fails iff some table failed and names those; where every table was copied its rows are the planned ones and every later query answers 100 percent |
| EndToEnd.PlansAreConsistent | app/migration/planner.py:31-85 | every entry of a plan is what its table alone would give, so a table requested twice gets the same entry |
| EndToEnd.CompletedJobCopies | app/workers/migration_tasks.py:164-168 | without truncation, a job without failures left in each copied keyed table the old rows plus the whole mapped source, committed |
| JobRestarts.ReplannedAlike | app/workers/migration_tasks.py:90-93 | the plan a worker rebuilds sends the same rows for a table that was there all along, or that an earlier launch created with types that keep the rows; it skips the table only if the first plan had to or the types are incompatible |
| Replanning.NormaliseCoercesExactly | app/providers/sqlite_provider.py:100-101 | coercions to a declared type and to the one SQLite reports agree iff the types are of one kind or the reported one leaves the value alone |
| Replanning.SqliteKeepsRows | app/providers/mysql_provider.py:18-22 | over a SQLite destination, with the integers that MySQL delivers in INT, MEDIUMINT and TINYINT columns, replanning sends the same rows |
| Replanning.MySqlChangesRows | app/providers/mysql_provider.py:17-48 | over a MySQL destination it need not: a SQLite INTEGER column holding 1.5 passes validation both times, and is sent as 1 at first and as 1.5 after the table was created |
| Replanning.ReadBackMappings | app/migration/planner.py:43-72 | a created table passes validation if the destination reports compatible types, and every column is mapped, with the reported type |
| Replanning.MapRowRaisesExactly | app/migration/mapper.py:61-69 | a row cannot be mapped iff some cell cannot be coerced |
| Replanning.ReplannedFeedExactly | app/workers/migration_tasks.py:90-93 | for any types the destination reports, replanning sends the same rows iff each row either cannot be mapped both before and after, or has only cells whose declared and reported types are of one kind or leave them alone |
| Runs.RunKeepsTables | app/migration/executor.py:53-76 | no run drops a table |
| JobRestarts.FoundAgain | app/migration/planner.py:43-56 | each later planner finds, in the tables that earlier launches left, the table of the first plan or the one created from its schema |
| JobRestarts.RestartedJobConverges | app/workers/migration_tasks.py:62-145 | a job started any number of times, each start planning against the tables the earlier ones left and ending anyhow: if the last one completes a keyed table, it holds its former rows plus the whole source; if the job created it, provided the reported types keep the rows |
| JobRestarts.SqliteJobConverges | app/workers/migration_tasks.py:62-145 | over SQLite, with the cells that sources deliver, the reported types always do |
| EndToEnd.NothingInCommon | app/migration/executor.py:106-131 | with no shared column nothing is stored, whatever the calls do, and only an empty source completes |
| EndToEnd.CopyCompletesExactly | app/migration/executor.py:106-148 | when every call succeeds and the rows can be mapped, the copy of a non-empty source into an existing table completes iff some column is shared |
| EndToEnd.ValidatedButRefused | app/migration/validator.py:66-107 | a pair of schemas that passes validation with two warnings and whose copy does not complete although every call succeeds |

## Left out

- Postgres: `TRUNCATE ... CASCADE` empties other tables and its row counts are estimates; both are
  excluded by assumption where totals or other tables are spoken of.
- NOT NULL violations: an inadmissible row is dropped, as SQLite does; MySQL stores a default instead
  and Postgres raises.
- SQLite's automatic values for NULL in an INTEGER PRIMARY KEY column.
- Redelivery: workers that copy at once are modelled on one keyed table, as the truncations and
  insertions they attempt; a writer with uncommitted rows locks out the others, as in SQLite.
- SQLite's automatic rollback after some errors (disk full, I/O): it undoes what earlier calls left
  pending, an uncommitted truncation among it. No fate of a call does that here.
- What a MySQL server reports for a declared type is a parameter, except that INTEGER is stored as int.
- Logging: `_log` and `on_log` do nothing here. In the original a raising log callback also aborts a
  run; the store is then one of those already listed in the trace.
- Real SQL text, drivers, connection pools and tests, identifier quoting, `table_exists`.
- Foreign keys, triggers and column defaults of the destination.
- Encryption, URL building, credentials, WebSocket broadcasts, HTTP routes, settings, log pages.
- Wall-clock time and float rounding; negative batch sizes and retry limits.
- `_universal_type`, `safe_int` and `Timer`, which the engine does not use or only times with.
- The text of warnings and errors other than the job's own error message.
- The `create_table`, `get_table_schema` and type tables of the MySQL and Postgres providers.
- Whether an absent task is ever delivered: nothing is claimed about progress of the queue.
- Counting.FaultFreeCompletes: requires that the table exists and has the columns of the rows, since
  the copy fails otherwise.
