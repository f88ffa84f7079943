# db-migration: a Dafny model of the migration-consistency engine

The engine applies versioned `.sql` scripts to a database exactly once, in the order their files were first committed. To do that it reconciles two histories:

- the execution ledger, the append-only `sqlScriptExec` table. Each row is `{sno, scriptName, completed, endofbatch, lastgitid}`. The checkpoint is the `lastgitid` of the end-of-batch row with the greatest `sno`;
- the `git diff` between that checkpoint and HEAD.

One run does the following:

1. checks that the scripts directory is inside a git work tree;
2. creates the ledger table if needed;
3. reads the checkpoint;
4. runs the operator's list of missed scripts, if one is configured;
5. refuses to go on when a script executed before was modified or deleted since the checkpoint;
6. refuses to go on when a row after the checkpoint records a failure;
7. discovers the `.sql` paths the diff names (added, modified, deleted or renamed alike), ordered by first-add time;
8. runs the pending ones, each in its own transaction, flagging only the last as end of batch;
9. stops at the first failure.

The project has one module per part of the engine:

- `Common`: Option, Result and Outcome, and the error taxonomy.
- `Text`: the Go `strings`, `filepath` and `strconv` behaviour the engine relies on: `Split`, `Join`, `Fields`, `TrimSpace`, `Base`, `Dir` and `ParseInt`.
- `Git`: the git adapter. Every git invocation is an oracle answer held in a `Repo` value.
- `Tracker`: the ledger.
  - `Database` is a class holding the rows in `sno` order and the AUTO_INCREMENT counter. It also holds the statement batches committed to the target schema, and one open transaction whose rows and batches become durable on commit and vanish on rollback.
  - `Tracker` is a class over that database with the queries and the inserts.
- `Validator`: the tamper check and the failed-batch check.
- `Batch`: what executing scripts does to the ledger and to the schema, as functions of the driver's and the file system's answers:
  - one script, a batch that stops at its first failure;
  - the missed-scripts list;
  - the pending filter;
  - what a clean or failed batch means for the next run.
- `Migrator`: the orchestrator, a class whose methods change the database. `Run` is proved against the `Batch` functions.

The following are parameters of the model:

- git's answers (`Git.Repo`);
- the database driver's answers per script name (`Batch.Driver`);
- the file contents (`Batch.FileSystem`);
- the current time `now` used when git gives no first-add time.

Three behaviours of the code worth noting:

- **The failure row is not always written.** After a statement error, the failure row is inserted outside the transaction while that transaction is still open; it is rolled back afterwards by the deferred `Rollback`. The insert's error is ignored, so when that insert fails no row is written (internal/migration/migrator.go:180-184, `Batch.StepRows`).
- **The missed-scripts pass runs before the checks.** It runs before the tamper and failed-batch checks, so those checks see the ledger the pass left. The checkpoint is still the one read before the pass (internal/migration/migrator.go:59-104, `Migrator.Migrator.Run`).
- **The missed pass can close a batch.** Its last entry is flagged end of batch by its index in the whole list. When it runs and completes, it closes a batch at HEAD (`Batch.MissedLastRuns`); when it fails, or an earlier name fails first, or it is skipped, no row closes the batch (internal/migration/migrator.go:241-256, `Batch.MissedLastSkipped`).

## Model

| member | source | states |
|---|---|---|
| Git.Run | internal/git/git.go:24-35 | git's output trimmed of white space, or the failure as an error; nothing else |
| Git.DiffFileNames | internal/git/git.go:49-73 | Ok exactly when the base revision (the empty tree when there is no checkpoint) and the diff succeed; empty output gives no paths; otherwise the paths joined by newlines give back the output and none holds a newline |
| Git.StatusOfKeys | internal/git/git.go:95-103 | a path is in the status map exactly when some line has at least two fields and names it second; lines with fewer fields add nothing |
| Git.StatusOfLastWins | internal/git/git.go:95-103 | a path's status is the first field of the last line naming it; a later line overwrites an earlier one |
| Git.DiffFileStatus | internal/git/git.go:76-106 | the map the loop fills is the status table: the empty-tree base for a missing checkpoint, an empty map for empty output, git's failure as the error |
| Git.TimestampOfPrinted | internal/git/git.go:116-134 | when git prints a 64-bit integer `n` (with any surrounding white space) the first-add time is `n` |
| Git.TimestampFallback | internal/git/git.go:118-131 | when git fails or prints something that is not a 64-bit decimal integer, the time is `now`; the lookup never fails |
| Git.SqlPaths | internal/git/git.go:145-149 | no more paths than were given, and a path is kept exactly when it was listed and ends in `.sql` |
| Git.Discovered | internal/git/git.go:145-171 | one script per `.sql` path, in diff order, each named by the path's base name with its path and first-add time |
| Git.DiscoveredPaths | internal/git/git.go:166-170 | every discovered script comes from a listed `.sql` path and its name is that path's base name |
| Git.SortByTimestamp | internal/git/git.go:174-176 | the array ends sorted oldest first and is a permutation of what it held; the order of equal times is unspecified |
| Git.CollectScripts | internal/git/git.go:145-171 | the loop builds exactly the discovered scripts |
| Git.GetChangedScripts | internal/git/git.go:137-179 | fails exactly when the diff fails, with its error; otherwise the result is sorted by time, is a permutation of the discovered scripts, and holds only `.sql` paths of the diff named by their base names |
| Git.ScopeTestNeverExcludes | internal/git/git.go:151-159 | the loop as written succeeds exactly when no `.sql` path makes the scope test slice out of range (the path's UTF-8 length below that of the scripts directory's base name, when the directory test fails), and then keeps every `.sql` path |
| Git.ScopeTestPanicExample | internal/git/git.go:152-154 | `init.sql` at the repository root with scripts in `db/migrations` makes the loop as written panic |
| Git.ScopeTestPanicWide | internal/git/git.go:152-154 | `abcde.sql` with scripts in `db/迁移脚本` makes the loop as written panic: nine characters, but the base name has four characters and twelve bytes |
| Git.WideByteLength | internal/git/git.go:154 | `len` of the four CJK characters `迁移脚本` is twelve bytes |
| Git.FileSet | internal/git/git.go:193-196 | the set holds exactly the listed files |
| Git.CheckModifications | internal/git/git.go:182-212 | nothing without a checkpoint; the diff's error when it fails; otherwise `modified` and `deleted` are exactly the listed files with status `M` and `D`, and other statuses are ignored |
| Text.JoinSplit | internal/git/git.go:71 | joining the pieces of `strings.Split` with the separator gives the text back |
| Text.SplitJoin | internal/git/git.go:71 | separator-free pieces joined and split again give the same pieces |
| Text.FieldsOfJoin | internal/git/git.go:97 | space-free words separated by one white-space character split back into exactly those words, as a `git diff --name-status` line does |
| Text.TrimSpacePadded | internal/git/git.go:34 | trimming a text surrounded by white space gives the text back |
| Text.ParseFormat | internal/git/git.go:128 | `strconv.ParseInt` of the decimal form of any 64-bit integer gives that integer back |
| Text.BaseOfJoin | internal/git/git.go:167 | the base name of `dir/name` is `name`, and a name without a slash is its own base name |
| Text.DirOfJoin | internal/git/git.go:152 | the directory of `dir/name`, for a slash-free name, is `dir` (the root for an empty one) |
| Text.ByteLength | internal/git/git.go:154 | Go's `len` of a string counts UTF-8 bytes: between one and four per character, and exactly one per character only for ASCII text |
| Tracker.LastBatchIndex | internal/migration/tracker.go:61-66 | the position of the last end-of-batch row, none when no row closes a batch |
| Tracker.LastBatchHasGreatestSno | internal/migration/tracker.go:61-66 | in `sno` order, the last end-of-batch row has the greatest `sno` among end-of-batch rows |
| Tracker.CompletedNames | internal/migration/tracker.go:85-106 | a name is in the set exactly when some row of any batch names it and is completed |
| Tracker.AppendNumbered | internal/migration/tracker.go:109-136 | a row numbered with the counter keeps the rows ascending and numbered below the advanced counter |
| Tracker.AppendWithoutBatchEnd | internal/migration/tracker.go:140-164 | rows that close no batch leave the checkpoint and its position unchanged, and join the rows after it |
| Tracker.AppendBatchEnd | internal/migration/tracker.go:60-82 | rows whose last one closes a batch make that row's git id the checkpoint, with no row after it |
| Tracker.CompletedNamesAppend | internal/migration/tracker.go:85-106 | the completed names of appended rows are the old ones plus those of the new rows |
| Tracker.AfterCheckpointBySno | internal/migration/tracker.go:149-166 | a row's `sno` exceeds the checkpoint row's (0 when there is none) exactly when the row comes after the checkpoint row |
| Tracker.AfterCheckpointRows | internal/migration/tracker.go:140-182 | the rows after the checkpoint row are exactly the rows with a greater `sno`, in ascending order |
| Tracker.ScanAfter | internal/migration/tracker.go:159-179 | the scan keeps exactly the rows above the floor, in order |
| Tracker.Database.Begin | internal/migration/migrator.go:173-176 | a transaction opens, empty, exactly when the driver allows; nothing durable changes |
| Tracker.Database.ExecuteSQL | internal/migration/migrator.go:180 | a successful batch is buffered in the transaction; a failed one leaves nothing |
| Tracker.Database.Commit | internal/migration/migrator.go:192-194 | on success the buffered rows and batches are appended; on failure nothing durable changes; the transaction ends either way |
| Tracker.Database.Rollback | internal/migration/migrator.go:177 | the buffered rows and batches are discarded and nothing durable changes |
| Tracker.Tracker.constructor | internal/migration/tracker.go:29-34 | the tracker works on the given database |
| Tracker.Tracker.EnsureTable | internal/migration/tracker.go:37-56 | the table exists afterwards when creation succeeds, and creating it again changes nothing; no existing row is touched; a failure is a schema error |
| Tracker.Tracker.GetLastSuccessfulCommit | internal/migration/tracker.go:60-82 | the git id of the end-of-batch row with the greatest `sno`; "" when no row closes a batch or its id is NULL |
| Tracker.Tracker.GetExecutedScriptNames | internal/migration/tracker.go:85-106 | exactly the names of completed rows, over all batches |
| Tracker.Tracker.RecordExecution | internal/migration/tracker.go:109-121 | inside the open transaction, exactly one row with the given fields and the next `sno` is buffered, or nothing on failure; the durable rows do not change |
| Tracker.Tracker.RecordExecutionDirect | internal/migration/tracker.go:124-136 | exactly one row with the given fields and a fresh, larger `sno` is appended durably, or nothing on failure; no existing row changes |
| Tracker.Tracker.GetHalfCommittedScripts | internal/migration/tracker.go:140-182 | in ascending `sno` order, exactly the rows whose `sno` exceeds that of the last end-of-batch row; with no such row, every row |
| Tracker.Tracker.HasRecords | internal/migration/tracker.go:185-195 | true exactly when the table has a row; an empty table has no checkpoint and no completed script |
| Tracker.Tracker.GetAllScripts | internal/migration/tracker.go:198-221 | every row, in ascending `sno` order |
| Validator.ValidateScriptsDirectory | internal/migration/validator.go:107-112 | passes exactly when `git rev-parse --git-dir` succeeds; otherwise fails with the repository error |
| Validator.CheckFileModifications | internal/migration/validator.go:27-77 | passes without a checkpoint; fails with git's error when the diff fails; otherwise fails exactly when a file known by full path or base name is marked `M` or `D`; the model's `Tampered` error carries exactly those files, as the two sets the console lists (Go's error itself carries only their counts); the outcome is `TamperVerdict` |
| Validator.TamperVerdict | internal/migration/validator.go:27-77 | the tamper check's verdict passes exactly when no executed file is marked `M` or `D` (and always without a checkpoint); a tamper error only comes with a readable status diff |
| Validator.FirstIncomplete | internal/migration/validator.go:96-100 | the first row that did not complete: every earlier row completed; none when every row completed |
| Validator.FirstIncompleteAt | internal/migration/validator.go:96-100 | a failed row with only completed rows before it is the first failed row |
| Validator.FirstIncompleteAfter | internal/migration/validator.go:96-100 | completed rows in front shift the first failed row by their number |
| Validator.CheckHalfCommittedFiles | internal/migration/validator.go:81-104 | passes exactly when every row completed (so an empty list passes); otherwise fails naming the first failed row in list order |
| Batch.JoinPathParts | internal/migration/migrator.go:162 | a slash-free name joined to the scripts directory is the base name of the joined path, and its directory is the scripts directory without trailing slashes |
| Batch.ReadScript | internal/migration/migrator.go:161-170 | the contents at `scriptsDir/name` when readable, otherwise exactly what reading the script's own path gives; none only when neither is readable |
| Batch.Step | internal/migration/migrator.go:160-197 | the script is unreadable exactly when neither path reads; it is done exactly when it reads, begins, executes, records and commits |
| Batch.StepResult | internal/migration/migrator.go:160-197 | the error returned passes exactly when the script is done |
| Batch.StepRows | internal/migration/migrator.go:177-194 | one run leaves at most one row: the completed row flagged `isLast` when done; the failed row, never end of batch, after a statement error when the direct insert succeeds; nothing otherwise |
| Batch.StepApplied | internal/migration/migrator.go:180-194 | the script's statements reach the schema exactly when it is done, and then exactly the text that was read |
| Batch.FirstFailure | internal/migration/migrator.go:133-146 | the position of the first job that does not complete; every earlier job completes; none when all complete |
| Batch.BatchStopsAtFailure | internal/migration/migrator.go:138-146 | nothing after the first failure runs: the batch's rows and batches are those of the prefix that contains the failure |
| Batch.BatchAtFailure | internal/migration/migrator.go:138-146 | a batch failing at job `k` leaves the rows of the clean prefix and then those of job `k` |
| Batch.CleanBatchRows | internal/migration/migrator.go:133-150 | a batch without skips that runs to the end leaves one completed row per job, in order, flagged end of batch exactly where the job is |
| Batch.NoBatchEnd | internal/migration/migrator.go:134 | jobs none of which both runs and is flagged last write no end-of-batch row |
| Batch.CleanRun | internal/migration/migrator.go:133-150 | a discovered batch that runs to the end leaves one completed row per script carrying the commit, and only the last closes the batch |
| Batch.MainPrefixRows | internal/migration/migrator.go:133-150 | when no script before position `k` fails, the first `k` pending scripts leave one completed row each, in order, none closing the batch |
| Batch.FailedRun | internal/migration/migrator.go:133-146 | a discovered batch failing at script `k` leaves the completed rows of the scripts before it, then at most the row of script `k`, and none closes the batch |
| Batch.ListedNames | internal/migration/migrator.go:211-216 | the kept names are non-blank and no `#` comment, and there are no more than the lines |
| Batch.ListedFromLines | internal/migration/migrator.go:211-216 | every kept name is some line, trimmed, that is neither blank nor a comment |
| Batch.LineListed | internal/migration/migrator.go:211-216 | every line that trims to a non-blank, non-comment name is kept |
| Batch.ListedNamesOfNames | internal/migration/migrator.go:211-216 | names that need no trimming and are no comment are kept as they are, in order |
| Batch.MissedNamesOfJoin | internal/migration/migrator.go:209-216 | names written one per line are read back as the same names, in order |
| Batch.MissedLastRuns | internal/migration/migrator.go:241-256 | when no listed script fails and the last name was not completed before, the pass closes a batch: its commit becomes the checkpoint, with no row after it |
| Batch.MissedLastSkipped | internal/migration/migrator.go:241-248 | when the last listed name was already completed, the missed-scripts pass closes no batch |
| Batch.Pending | internal/migration/migrator.go:114-119 | the discovered scripts whose names are not completed, and only those |
| Batch.NothingPending | internal/migration/migrator.go:114-124 | discovered scripts that are all completed leave nothing pending |
| Batch.PendingCount | internal/migration/migrator.go:113-119 | filtering drops every copy of a completed script and keeps every copy of any other |
| Batch.PendingAppend | internal/migration/migrator.go:113-119 | filtering keeps the discovered order: the pending scripts of two runs of scripts, one after the other, are those of the first followed by those of the second |
| Batch.PendingSorted | internal/migration/migrator.go:106-119 | scripts sorted oldest first leave pending scripts sorted oldest first |
| Batch.CleanRunIsIdempotent | internal/migration/migrator.go:113-124 | after a batch that ran to the end, the same scripts leave nothing pending, so a re-run appends no row |
| Batch.CleanRunCheckpoint | internal/migration/migrator.go:133-150 | a discovered batch that ran to the end makes its commit the checkpoint, with no row after it |
| Batch.FailedRunCheckpoint | internal/migration/migrator.go:138-146 | a discovered batch that failed leaves the checkpoint where it was, and its rows join the rows after it |
| Batch.SqlFailureRows | internal/migration/migrator.go:180-184 | a batch stopped by a recorded statement error leaves completed rows and then exactly one failed row naming the script |
| Batch.SqlFailureBlocksNextRun | internal/migration/migrator.go:180-184 | after such a batch, the next run's failed-batch check fails naming that script |
| Migrator.ShortRevision | internal/migration/migrator.go:68 | the first eight characters of an id, or the whole of a shorter one; always a prefix |
| Migrator.ShortRevisionAsWritten | internal/migration/migrator.go:68 | the slice `id[:8]` succeeds exactly on ids of at least eight characters, and then agrees with the display above |
| Migrator.ManualCheckpointPanics | internal/migration/migrator.go:270-273 | the id `manual` that a single-script run records cannot be displayed as written; shortened, it is shown whole |
| Migrator.ScanMissedList | internal/migration/migrator.go:209-216 | the scanner loop yields exactly the kept names of the list's lines |
| Migrator.PlanPending | internal/migration/migrator.go:106-119 | after sorting and filtering, the pending scripts are exactly the discovered ones not completed, each as often as it was discovered, oldest first; none pending means every discovered script is completed |
| Migrator.FilterPending | internal/migration/migrator.go:113-119 | the loop yields exactly the pending filter of the discovered scripts |
| Migrator.Migrator.constructor | internal/migration/migrator.go:28-41 | the migrator works on the given directory, list file, database and oracles |
| Migrator.Migrator.ExecuteScript | internal/migration/migrator.go:160-197 | the error is that of the script's outcome; the ledger gains exactly that outcome's row and the schema exactly its batch |
| Migrator.Migrator.ExecuteInTransaction | internal/migration/migrator.go:172-196 | once read: a refused `Begin` fails and changes nothing; otherwise as above |
| Migrator.Migrator.ExecuteInOpenTransaction | internal/migration/migrator.go:179-196 | inside the transaction: a statement error goes to the failure path, success to record and commit, and the ledger gains exactly the outcome's row |
| Migrator.Migrator.RecordFailure | internal/migration/migrator.go:180-184 | a statement error appends the failure row outside the transaction (or nothing when that insert fails), rolls back, and fails naming the script |
| Migrator.Migrator.RecordAndCommit | internal/migration/migrator.go:186-196 | the success row goes into the transaction; a failed insert rolls back with nothing recorded |
| Migrator.Migrator.CommitExecution | internal/migration/migrator.go:191-196 | a successful commit makes the success row and the script's batch durable together; a failed one leaves neither |
| Migrator.Migrator.ExecuteSingleScript | internal/migration/migrator.go:269-281 | runs the named script as a batch of its own against HEAD, or `manual` when HEAD cannot be resolved; the ledger gains exactly that script's row and the schema exactly its statements, the table flag is untouched, and on success that id becomes the checkpoint |
| Migrator.Migrator.RunJob | internal/migration/migrator.go:241-262 | a skipped job passes and changes nothing; any other runs its script, and passes exactly when it completes |
| Migrator.Migrator.RunJobs | internal/migration/migrator.go:133-150 | the loop stops at the first job that fails and returns its error; the ledger gains exactly the batch's rows and the schema its batches |
| Migrator.Migrator.ExecuteMissedScripts | internal/migration/migrator.go:200-266 | an unreadable list and git's error for HEAD fail and change nothing; an empty list passes and changes nothing. Otherwise the listed names run as a batch against HEAD, completed ones skipped: the ledger gains exactly that batch's rows and the schema its statement batches, and the pass succeeds exactly when no job fails, else reports the first failing name with its cause |
| Migrator.Migrator.Prepare | internal/migration/migrator.go:47-76 | each of the repository and schema failures stops the run with nothing changed; the checkpoint is read before the missed-scripts pass; without a list it passes with nothing changed, with one its effect and outcome are those of the missed-scripts pass |
| Migrator.Migrator.CheckHistory | internal/migration/migrator.go:91-104 | passes exactly when the history is untampered and no row after the checkpoint failed; the error is the tamper check's when it fails, and otherwise the failed-batch check's |
| Migrator.Migrator.ChecksVerdict | internal/migration/migrator.go:84-111 | the checks in step order (HEAD, tamper, failed batch, diff) pass exactly when all of them pass; the first to fail gives its own error |
| Migrator.Migrator.ModifiedScriptStopsRun | internal/migration/migrator.go:91-95 | an executed script marked modified since the checkpoint stops the run with the tamper error, which lists it |
| Migrator.Migrator.SqlFailureStopsNextRun | internal/migration/migrator.go:97-104 | after a batch stopped by a recorded statement error, the next run over an untampered history stops with the failed-batch error naming that script |
| Migrator.Migrator.Inspect | internal/migration/migrator.go:78-119 | without a HEAD, git's error; a plan exactly when HEAD resolves, the history is untampered, no row after the checkpoint failed and the diff succeeds; its scripts a sorted permutation of the discovered ones and its pending ones their filter; a tamper error only over a tampered history; any error is the first failing check's, as `ChecksVerdict` orders them |
| Migrator.Migrator.ExecutePending | internal/migration/migrator.go:121-156 | the pending scripts run as one batch against HEAD. A clean batch records every discovered script, moves the checkpoint to HEAD and counts every pending script as succeeded. A failed one names the script, leaves the checkpoint where it was, and counts the scripts before it as succeeded and one failure. Either way `skipped = total - pending` |
| Migrator.Migrator.MigrateFrom | internal/migration/migrator.go:78-156 | steps 5 to 12: when a check fails, the run returns the first failing check's error, nothing changes and no counts are reported. Otherwise the batch is the discovered scripts not completed, each once per discovery, oldest first; nothing pending passes with nothing changed; a batch leaves exactly its rows and statement batches, passes exactly when no pending script fails, reports the counts (total, succeeded, one or no failure, skipped), and either moves the checkpoint to HEAD or fails naming the first failed script with the checkpoint where it was |
| Migrator.Migrator.RunPlan | internal/migration/migrator.go:113-156 | the same, once the checks have passed and the plan is known; the batch that runs is the plan's pending list |
| Migrator.Migrator.RunBatch | internal/migration/migrator.go:126-156 | the same, for a non-empty pending list |
| Migrator.Migrator.NothingToRun | internal/migration/migrator.go:121-124 | when every discovered script is completed, the run passes with nothing changed and no counts |
| Migrator.Migrator.Run | internal/migration/migrator.go:44-157 | the ledger only grows. A repository or schema failure changes nothing. Otherwise the checkpoint shown is the one read first; the missed-scripts pass (when configured) has its effect and outcome as above, and its failure ends the run; after it, the ledger, the schema, the outcome (a failed check's own error included) and the counts are those of `MigrateFrom` from the checkpoint read first |

## Left out

- Database read errors (a failing `SELECT`, `rows.Scan` or `rows.Next`) are not modelled: the ledger queries always succeed, so `GetLastSuccessfulCommit`, `GetExecutedScriptNames` and `GetHalfCommittedScripts` never return an error.
- NULL `completed` and `endofbatch` columns are not modelled: the engine only writes booleans there. A NULL `lastgitid` is modelled (`None`).
- The `createddatetime` and `modifieddatetime` columns are not modelled; no logic reads them.
- `filepath.Join`, `filepath.Dir` and `filepath.Base` model only what `filepath.Clean` does to trailing slashes (and `Join` dropping an empty element); `..`, `.` and repeated slashes inside or between the elements are kept as they are.
- MySQL statements that commit implicitly (DDL inside the script transaction) are not modelled: a script's statements take effect only when its transaction commits.
- The scanner's line-length limit and `scanner.Err` are not modelled: the list file is read whole, and only a file that cannot be opened fails.
- Time stamps are whole seconds (`time.Unix(n, 0)` and `now` as an integer), and `now` is one value for the whole run.
- The driver answers per script name, so a script that appears twice in one batch gets the same answers both times.
- Error texts are not modelled: each error is an `Error` constructor carrying the values the engine reports, and `fmt.Errorf` wrapping (`failed to get current commit: %w` and the like) keeps the wrapped error unchanged. Three constructors differ from the message Go builds:
  - `ScriptFailed(name)` carries the script's name, which `script execution error: %w` (internal/migration/migrator.go:183) does not show; the statement error itself is not modelled;
  - `Tampered(modified, deleted)` carries the two sets the console lists, where Go's error shows only their sizes (internal/migration/validator.go:72-74);
  - `GitFailed(stderr)` carries git's error output but not the command arguments that `git %s failed: %s` shows (internal/git/git.go:30).
- Console output is not modelled, except the shortened revisions and the summary counts that `Run` reports in `Report`.
- `beginTrackerTransaction` is unused and not modelled.
- Tracker.Tracker.RecordExecutionDirect: it requires that the open transaction hold no ledger row, which is always the case where the source calls it. Lock contention between the two connections is not modelled.
- The CLI (`cmd/db-migration/main.go`), configuration loading and `internal/db/db.go` are not part of this model.

## Findings

| source | as written | input that shows it | evidently intended | confidence | as-written member | corrected member |
|---|---|---|---|---|---|---|
| internal/git/git.go:151-159 | the scope test slices `file[:len(scriptsBase)]` whenever the path's directory neither contains nor equals the scripts directory's base name, and its body repeats the suffix test, so it can exclude nothing | `GetChangedScripts` over a diff listing `init.sql` with scripts directory `db/migrations`: `len("init.sql") = 8 < len("migrations") = 10`, and the slice panics; `len` counts bytes, so `abcde.sql` against `db/迁移脚本` (9 bytes against 12) panics as well | keep every `.sql` path of the diff without panicking | not executed | Git.ScopeTestPanicExample | Git.GetChangedScripts |
| internal/migration/migrator.go:68 | the checkpoint is displayed as `lastGitID[:8]` (HEAD, at migrator.go:89, as `currentCommit[:8]`; `Report` shows both with the corrected display) | `ExecuteSingleScript` succeeding while HEAD cannot be resolved records the checkpoint `manual` (migrator.go:270-273); the next `Run` slices a six-character id and panics | show the whole id when it is shorter than eight characters | not executed | Migrator.ManualCheckpointPanics | Migrator.ShortRevision |
