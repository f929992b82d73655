# Verified model of the caption archive and its search index

The program records JSONL lines from upstream streams into archive files, keeps a SQLite search index over those
files, and answers boolean searches from it. The files are the only truth; the index is a cache that is brought up to
date a few bytes at a time while writers keep appending, and that can be rebuilt from nothing. This project models
that pipeline, and the queries on top of it, in Dafny, and proves what it is for.

`dafny verify dfyconfig.toml` checks everything.

## How the model is laid out

| part | modules | in one sentence |
|---|---|---|
| bytes and lines | `Lines`, `Stream`, `TextOrder`, `Sets`, `Wrappers` | splitting at newlines, whole or in chunks; text order |
| the index as tables | `SearchTables`, `SearchContent`, `SearchIndex` | each SQL statement as a function on maps, and the ingest code as a class whose methods are proved against those functions and keep the full-text indexes in step |
| what a pass keeps | `IndexInvariant`, `IngestPass`, `ResumeExactness` | consistency of the tables, and what a row says about the bytes read so far |
| runs and rebuilds | `IndexRuns`, `Collisions`, `Rebuild`, `RebuildCases`, `Hazards` | any run of appends, passes, unlinks and cleanups against a rebuild |
| writers and indexer | `Maintenance`, `SystemCases`, `CatchingUp` | writers and the background indexer interleaved, with dirty generations, and exactly when an undisturbed indexer comes to rest |
| recording | `Recording`, `RecordingRuns`, `RecordingSections`, `Retention` | which file a line goes to, also when writing fails; how the streams' critical sections interleave; when a file may be deleted |
| all together | `WholeSystem`, `RecordedArchive`, `SearchAtRest` | recording, indexing and garbage collection as one machine; what the index at rest shows of the lines recorded; what a search over it returns |
| search | `Expressions`, `FtsQuery`, `FtsIndex`, `Search` | from the words typed to the rows found |
| results | `Ranking`, `SearchResults`, `CaptionPages`, `Timestamps` | ranking, grouping, merging, paging, time bounds |
| smaller machines | `SocketBind`, `Markers` | the socket bind protocol and the document marker rewriter |

Files are byte sequences. Path parsing, JSON decoding and text normalization are parameters (`Reader`, `Recorder`,
`normalize`): the theorems hold for every choice of them. A transaction that fails is rolled back and is no step.
Views of the index are compared under `(stream, recording_started_at)`, because a rebuild may number programs
differently.

## What turned out not to hold, and exactly when it does

* **Incremental indexing equals a rebuild, unless one of three kinds of step was taken.** The code decides a collision
  of two files with the same stream and start time by the greater path, but `upsert_program` does not compare paths
  (`src/search_db/ingest.rs:235-256`) and the loser check runs only for a path without a row
  (`src/search_db/ingest.rs:416-428`). So a smaller path that was indexed before it held an EIT takes the program over
  later; unlinking the winner leaves its duplicates set aside; and a path first seen between the winner's deletion and
  the cleanup is set aside for nothing. There are two exact conditions, both for one key at a time. For one step:
  `Collisions.Hazard` tells these steps apart before they are taken, and `Collisions.FaithfulUnlessHazard` shows that
  exactly they leave some duplicate of the key not outranked by a present winner. For one state:
  `Rebuild.ShowsArchiveIff` shows that a caught-up index differs from a rebuild under a key exactly when such a
  duplicate's file holds an EIT. (The step condition also counts duplicates whose file holds none yet; those alone make
  no difference.) `Hazards` has a legal run for each kind and any two colliding files. Keys that only one file can have
  need no condition on steps, and neither do keys whose files are first indexed with an EIT in them, as long as either
  no file of the key was unlinked or none of them is left: garbage collection that gets around to all files of a key
  leaves no trace.
* **The startup scan is never repeated.** A file of an earlier run that the scan fails on stays unindexed until it is
  written to again. So an indexer left to itself comes to rest if and only if no such file is present that nobody has
  marked since (`CatchingUp.RestIsReachableIff`), and then every undisturbed pass gets there, whatever its order
  (`CatchingUp.EveryWholePassRestsIff`).
* **Retention is safe from one nanosecond below `delay + 1 s`**, and not below that, where `delay` bounds the time from
  naming a file to activating it: the filename keeps whole seconds only.
* **A program recorded again within one second** goes to `NAME.1.jsonl` beside `NAME.jsonl`, and '1' comes before 'j':
  the first capture has the greater path, so it keeps the program and the later one is set aside as a duplicate.
* **Clearing a dirty path** takes it off the list exactly when the marks since the snapshot are a multiple of 2^64. That
  is safe without marks, and loses lines with any positive multiple.
* **Chunked lines fail** exactly when some chunk ends more than 1 MiB behind the last newline, so a body with a longer
  line may or may not pass, depending on how it is cut.
* **Timestamps order like time, also across leap seconds**, but a date given as upper bound ends at `23-59-59` and so
  leaves out a recording named for a leap second; counting seconds without leap seconds agrees with text order except
  there.
* **Marker rewriting is idempotent** when the generated text is clean: followed by its end marker, it contains that
  marker no earlier. For a document that is one section this is exact: rewriting what was written changes nothing if
  the text is clean and fails if it is not. For documents with several sections clean text is shown to suffice.

## Model

| member | source | states |
|---|---|---|
| Lines.SplitJoins | src/search_db/ingest.rs:456-460 | Every byte string is its newline-terminated lines followed by a remainder without a newline. |
| Lines.SplitUnique | src/search_db/ingest.rs:456-460 | No other lines and remainder join to the same bytes, so the split is the only one. |
| Lines.SplitAppend | src/stream.rs:19-45 | Splitting in two steps with the remainder carried over equals splitting the concatenation. |
| Lines.ResumeSplit | src/search_db/ingest.rs:452-460 | Reading on from a line boundary yields exactly the further lines. |
| Lines.CompleteLinesGrow | src/search_db/ingest.rs:456-460 | Appending to a file keeps its complete lines as a prefix. |
| Stream.LineBuffer.PushChunk | src/stream.rs:19-45 | The loop over the buffer delivers the complete lines of what was pending plus the chunk, each decoded without the one carriage return it may end in and otherwise as it is, keeps exactly the unfinished tail, and fails exactly when that tail exceeds 1 MiB. |
| Stream.ChunkingInvariance | src/stream.rs:19-45 | However a body is cut into chunks, successful pushes deliver the lines of the whole body and keep its tail; they all succeed exactly when no chunk ends more than the limit behind the last newline. |
| Stream.ShortSegmentsNeverFail | src/stream.rs:19-45 | If every newline-separated segment fits the limit, no way of cutting the body fails. |
| Stream.LongSegmentCanFail | src/stream.rs:38-42 | If some segment does not fit, some way of cutting the body fails. |
| TextOrder.TextLessTotal | src/search_db/ingest.rs:157-159 | The path order used for collisions is total. |
| TextOrder.TextLessIff | src/search_db/ingest.rs:157-159 | One text is less than another exactly when, where they first differ, it ends or goes on with the smaller character; lengths do not decide. |
| SearchTables.AllocateRowid | migrations/20260713000000_search_schema.sql:1-2 | A new row gets one more than the largest id in use. |
| SearchTables.RecordReads | src/search_db/ingest.rs:466-471 | A line is decoded without the carriage returns at its end, however many, and is skipped when nothing is left. |
| SearchIndex.SearchIndex.SupersedeOtherPath | src/search_db/ingest.rs:235-256 | The caption and program indexes stay exactly those of the tables (`Valid()`) while the previous holder of a key loses its captions and has its path marked as duplicate. |
| SearchIndex.SearchIndex.WriteProgram | src/search_db/ingest.rs:258-316 | The caption and program indexes stay exactly those of the tables (`Valid()`) through the upsert, whichever of its two conflict clauses applies. |
| SearchIndex.SearchIndex.UpsertProgram | src/search_db/ingest.rs:226-341 | One EIT leaves the caption and program indexes exactly those of the tables (`Valid()`); its statements, in order, do to the tables what `SearchTables.UpsertProgram` says, of which `IndexInvariant` proves what it achieves. |
| IndexInvariant.InsertKeeps | src/search_db/ingest.rs:343-388 | Writing a caption keeps the tables consistent and every other path's row and program as they are. |
| SearchIndex.SearchIndex.IngestLines | src/search_db/ingest.rs:454-516 | The read loop applies every complete line once, with its line number and start byte, stops before an unterminated last line, and ends at the byte and line count of the complete lines. |
| SearchIndex.SearchIndex.IngestFile | src/search_db/ingest.rs:390-529 | One transaction: unparseable path, skipped status, lost collision, shrunken file, unchanged size, and reading on from the stored offset. |
| SearchIndex.SearchIndex.IngestPaths | src/search_db/ingest.rs:531-579 | Every path is attempted in its own transaction, a failed one changes neither tables nor full-text indexes, and the path reported is that of an attempt that failed after none before it had, or none when all were committed. |
| SearchIndex.CleanupOneMore | src/search_db/ingest.rs:611-619 | Deleting one more path, with cascades and nulled references, is one more step of removing all missing paths at once. |
| SearchIndex.SearchIndex.CleanupDeleted | src/search_db/ingest.rs:622-646 | Deleting one missing path after another amounts to removing all of them at once, and the count is that of the missing known paths. |
| SearchContent.ContentTables.UpsertCaption | migrations/20260713000000_search_schema.sql:164-179 | Inserting a caption or updating the row of its line, through the triggers, keeps the caption index exactly the caption rows. |
| SearchContent.ContentTables.DeleteCaptionsOf | migrations/20260713000000_search_schema.sql:169-172 | Deleting the captions of programs keeps the caption index exactly the caption rows. |
| SearchContent.ContentTables.PutProgram | migrations/20260713000000_search_schema.sql:181-203 | Inserting or updating a program keeps the program index exactly the programs' titles and descriptions. |
| SearchContent.ContentTables.DeletePrograms | migrations/20260713000000_search_schema.sql:186-192 | Deleting programs takes their captions along and keeps both indexes exact. |
| SearchContent.ContentInserted | src/search_db/ingest.rs:352-371 | A row under a program and line number, new or replaced, leaves every caption row with one id of its own and its text indexed under it. |
| IndexInvariant.UpsertKeeps | src/search_db/ingest.rs:226-341 | An EIT keeps unique paths and keys and all program references in step, makes the path own its key, and touches another path only to turn it into a duplicate. |
| IndexInvariant.UpsertOwners | src/search_db/ingest.rs:235-256 | An EIT changes the owner of its own key and of no other. |
| IndexInvariant.UpsertWrites | src/search_db/ingest.rs:261-338 | The program row becomes that of the EIT column by column, and its genres exactly the EIT's, under the id that the path or else the key already had, or a new one; captions stay if the path already owned the row and are gone if it took it over. |
| IndexInvariant.ApplyLinesMirrors | src/search_db/ingest.rs:454-516 | Resuming after some lines and applying more leaves exactly the rows that all of them together amount to. |
| IndexInvariant.ApplyLinesOwner | src/search_db/ingest.rs:486-503 | Lines make their path the owner of its key exactly when one of them is an EIT. |
| IngestPass.IngestFileKeeps | src/search_db/ingest.rs:390-529 | Every committed pass, over any bytes whatever, keeps the tables consistent and other paths' rows as they are or turned into duplicates. |
| IngestPass.PassReadsEverything | src/search_db/ingest.rs:430-527 | A pass that reads accounts for every complete line, with the true offset and line count, and the size that was taken. |
| IngestPass.PassReturnsEarly | src/search_db/ingest.rs:410-450 | A pass that does not read changes at most its own row: a shrunken file's into an error, a lost collision's into a duplicate, and nothing otherwise. |
| IngestPass.AttemptsStandAlone | src/search_db/ingest.rs:531-579 | Failed attempts stop nothing and leave nothing behind: every path whose attempt is committed gets its row, and a path without a committed attempt keeps its row and program or is superseded. |
| IngestPass.FrameKeepsReads | src/search_db/ingest.rs:390-529 | What was read of other files stays read. |
| IngestPass.PassOwner | src/search_db/ingest.rs:390-529 | A pass makes its path the owner of its key exactly when it goes on to read and finds a new EIT. |
| ResumeExactness.LastEitExact | src/search_db/ingest.rs:486-503 | The EIT that describes a program is the last one of the lines read. |
| ResumeExactness.CaptionRowsExact | src/search_db/ingest.rs:505-515 | The caption rows are exactly the caption lines after the first EIT, one row each. |
| ResumeExactness.LineStart | src/search_db/ingest.rs:462-464 | The start byte of a line is a line boundary with as many newlines before it as the line number says, and the line's bytes follow there. |
| ResumeExactness.RowIsExact | src/search_db/ingest.rs:430-527 | In every reachable state a row's offset is a line boundary, its line count is the newlines before it, and its program's captions are exactly those between the first EIT and there, with true numbers and bytes. |
| IndexRuns.StepKeeps | src/search_db/ingest.rs:390-529 | Appending, committing a pass, unlinking and cleaning up each keep the tables consistent and every row true to its file. |
| IndexRuns.RunKeeps | src/search_db/ingest.rs:531-579 | The same for every legal run. |
| IndexRuns.CleanupKeepsPresent | src/search_db/ingest.rs:622-646 | Cleanup leaves rows for exactly the known paths still present, and those as they were. |
| IndexRuns.CleanupConsistent | src/search_db/ingest.rs:611-646 | Cleanup keeps the tables consistent. |
| IndexRuns.PointsToOwnProgram | src/search_db/ingest.rs:77-127 | A file row's program has that same path and owns its key. |
| Collisions.OwnerPointsBack | src/search_db/ingest.rs:226-341 | The owner of a key has a file row that points to its program. |
| Collisions.CleanupKeepsOwner | src/search_db/ingest.rs:611-646 | Cleanup takes a key from its owner exactly when the owner's file is gone. |
| Collisions.FaithfulUnlessHazard | src/search_db/ingest.rs:129-186 | For every key, a step keeps each of the key's duplicates outranked by a present winner if and only if it is not one of three hazards to that key that can be told beforehand. |
| Collisions.RunFaithful | src/search_db/ingest.rs:129-186 | A run without hazards to a key keeps every duplicate of it outranked by a present winner. |
| Rebuild.OwnerShowsItsFile | src/search_db/ingest.rs:430-527 | Once caught up, what the index shows for an owner is what its file amounts to. |
| Rebuild.ShowsArchiveIff | src/search_db/ingest.rs:129-186 | Once caught up, the index shows what the archive amounts to if and only if every duplicate is outranked. |
| Rebuild.FullScanCatchesUp | src/search_db/ingest.rs:591-606 | One pass over every file catches the index up, from any reachable state whose deleted files are cleaned away. |
| Rebuild.CleanUpRemovesDeletedOwners | src/search_db/ingest.rs:622-646 | After cleanup no deleted file owns a key. |
| Rebuild.RebuildShowsArchive | src/search_db/indexer.rs:186-210 | A rebuild shows what the archive amounts to, in whatever order it walks the files. |
| Rebuild.FaithfulShowsArchive | src/search_db/ingest.rs:390-529 | A caught-up index shows under every key whose duplicates are outranked what the archive amounts to. |
| Rebuild.IncrementalEqualsRebuild | src/search_db/indexer.rs:186-210 | From any state in which a key's duplicates are outranked, say with none of its files present, after any legal run of appends, passes, unlinks and cleanups without a hazard to the key the caught-up index shows under it (winning path, metadata, genres, captions) what a rebuild shows. |
| RebuildCases.CollisionFreeEqualsRebuild | src/search_db/ingest.rs:390-529 | The same for every legal run, with no condition on steps, under every key that only one file can have. |
| RebuildCases.EitFirstEqualsRebuild | src/search_db/ingest.rs:414-428 | The same for colliding files first indexed with an EIT in them, in any order and any increments, under every key of which no file was unlinked, and under every key of which no file is left, whatever happened to it before. |
| RebuildCases.GreatestPathOwnsTheKey | src/search_db/ingest.rs:136-186 | At every moment of a run whose files of a key are first indexed with an EIT and not unlinked, the greatest path of the key indexed so far owns it and all others are duplicates without a program. |
| RebuildCases.FirstCaptureKeepsTheProgram | src/archive.rs:280-305 | When a program is recorded again within the second it was first recorded in, in such a run the first capture keeps the program and the later ones are duplicates, in whatever order they are indexed. |
| Hazards.OvertakingBreaks | src/search_db/ingest.rs:416-428 | For any two colliding files there is a legal run in which the smaller, indexed while empty, takes the program over and the index differs from a rebuild. |
| Hazards.UnlinkingWinnerBreaks | src/search_db/ingest.rs:408-412 | For any two colliding files, unlinking the winner leaves the loser set aside and the index different from a rebuild. |
| Hazards.LosingToDeletedBreaks | src/search_db/ingest.rs:144-159 | For any two colliding files, a loser first indexed between the winner's deletion and the cleanup is lost. |
| Maintenance.ActRefines | src/search_db/indexer.rs:32-79 | Every action of writers and indexer, the startup scan and its end included, is one legal archive event or leaves files and index alone. |
| Maintenance.NothingLost | src/archive.rs:91-106 | No action forgets a complete line: it stays indexed, marked, about to be marked or still to be scanned. |
| Maintenance.ClearsIffMultiple | src/archive.rs:95-106 | Clearing takes a path off the dirty list if and only if the marks since the snapshot are a multiple of 2^64. |
| Maintenance.ClearIsSafe | src/archive.rs:95-101 | Clearing a path loses nothing unless it was marked a positive multiple of 2^64 times since the snapshot. |
| Maintenance.ActKeeps | src/search_db/indexer.rs:32-92 | Every action keeps the invariant of the interleaved system. |
| Maintenance.NoLostUpdate | src/search_db/indexer.rs:32-49 | In every reachable state a file with complete lines beyond its row is marked dirty, has a writer between writing and marking, or is of an earlier run and has not been indexed since the process started. |
| Maintenance.SystemStaysFaithful | src/search_db/indexer.rs:51-92 | A run of the interleaved system without hazards to a key keeps its duplicates outranked. |
| Maintenance.QuiescentEqualsRebuild | src/search_db/indexer.rs:51-92 | Whenever no present file is marked, waits for a mark or is still to be indexed since the start, and deleted files are cleaned away, the index after a run without hazards to a key shows under it what the files of that moment amount to, as a rebuild does. |
| Maintenance.WrapAroundLosesUpdate | src/archive.rs:103-106 | Any positive multiple of 2^64 marks before a clear does lose their lines. |
| SystemCases.CollisionFreeSystemEqualsRebuild | src/search_db/indexer.rs:32-92 | The interleaved system equals a rebuild at rest, with no condition on steps, under every key that only one file can have. |
| SystemCases.EitFirstSystemEqualsRebuild | src/search_db/indexer.rs:32-92 | The same for colliding files first indexed with an EIT, under every key of which no file was unlinked or none is left. |
| CatchingUp.EveryPassClears | src/search_db/indexer.rs:32-49 | Once an undisturbed run of the indexer has dealt with a snapshot, in whatever order, no present file is dirty. |
| CatchingUp.EveryWholePassRestsIff | src/search_db/indexer.rs:51-92 | With no writer between newline and mark, every undisturbed run of the indexer's task with a whole pass in it ends at rest if and only if at its start no present file was missed by the scan and unmarked since. |
| CatchingUp.RestIsReachableIff | src/search_db/indexer.rs:51-92 | From such a state undisturbed actions of the indexer can lead to rest at all if and only if no file was so missed. |
| CatchingUp.QuietKeepsMissed | src/search_db/indexer.rs:60-77 | No action of the undisturbed indexer indexes a missed file, and none makes another file missed. |
| CatchingUp.FailedScanMisses | src/search_db/ingest.rs:591-606 | Whatever file is present at the start, a failure while the scan reads it makes it missed. |
| CatchingUp.EveryWholePassEqualsRebuild | src/search_db/indexer.rs:109-182 | After any run of writers and indexer that has missed nothing, every whole undisturbed pass makes the index equal a rebuild under every key that only one file can have. |
| WholeSystem.RemovedIsNotWritten | src/archive.rs:592-630 | With enough retention, a file that collection may remove is not being written, whether appended to or just started. |
| WholeSystem.CreatedHasNoRows | src/archive.rs:266-306 | A new file's name is that of no file whose rows are still in the index. |
| WholeSystem.IndexSideActs | src/archive.rs:173-208 | What recording and collection do to files and index is always something the machine of writers and indexer can do, with the same effect. |
| WholeSystem.ActionKeeps | src/search_db/indexer.rs:109-182 | Every action of recording, indexing and collection together keeps their common invariant. |
| WholeSystem.WholeSystemIsSafe | src/search_db/indexer.rs:109-182 | In every reachable state of all of them together active files exist, no complete line is forgotten, removal meets no writer, and new files meet no rows. |
| WholeSystem.IndexerRun | src/search_db/indexer.rs:109-182 | Leaving out what concerns collection alone, every such run is a run of writers and indexer made of the same actions. |
| WholeSystem.CollisionFreeWholeEqualsRebuild | src/search_db/indexer.rs:109-182 | With garbage collection running, the index at rest equals a rebuild under every key that only one file can have. |
| WholeSystem.EitFirstWholeEqualsRebuild | src/search_db/indexer.rs:109-182 | With garbage collection running over colliding files first indexed with an EIT, the index at rest equals a rebuild under every key of which collection has removed no file or has left none. |
| RecordedArchive.IndexShowsTheRun | src/search_db/ingest.rs:456-527 | For every interleaving of lines, failed writes and reconnections: where the index shows the archive, it shows of a recorded file whose path is the greatest of its key the last EIT of the lines recorded into it and every caption line among them, under its line number and start byte. |
| RecordedArchive.RecordedUnder | src/archive.rs:266-291 | A reader that finds in paths what the recorder puts there indexes a file under its own stream and the time its first line arrived. |
| RecordedArchive.WholeSystemShowsTheRun | src/search_db/indexer.rs:109-182 | The whole system at rest, garbage collection included, shows so every recorded file still present whose key no other file can have, under the key of the stream it was recorded for and the time of the line that started it. |
| Recording.ArchiveStore.OpenArchiveFile | src/archive.rs:266-306 | The suffix loop ends and creates the first of the numbered names that does not exist, all smaller ones being taken; if the file system refuses, no file changes. |
| Recording.TakenBounded | src/archive.rs:283-305 | Suffixes give different names, so only as many can be taken as there are files. |
| Recording.ArchivePathInjective | src/archive.rs:283-305 | Different suffixes never give the same path. |
| Recording.FirstCaptureIsGreatest | src/archive.rs:283-305 | A path with a collision suffix is less than the one without. |
| Recording.DecimalReadsBack | src/archive.rs:284-288 | A suffix is the decimal number without leading zeros. |
| RecordingRuns.ExtendedRun | src/archive.rs:108-134 | What arrives of a line, all of it or a part, extends the last run of its stream and leaves the stream's other files as they are. |
| Recording.ArchiveStore.HandleLine | src/archive.rs:173-208 | One line: skip invalid JSON, append or skip without an EIT, append to the same program, or start a file; a file is marked and made active only after its line is written, and a write that fails or breaks off leaves marks and active files as they were. |
| Recording.ArchiveStore.ClearDirtyPathIfUnchanged | src/archive.rs:95-101 | Removes a path exactly when its generation is still the given one. |
| Recording.ArchiveStore.ActivePaths | src/archive.rs:141-146 | The set of the paths that streams are recording into. |
| RecordingRuns.FilesAreRuns | src/archive.rs:173-208 | For every interleaving of lines, failed writes and reconnections each stream's files, in start order, hold exactly its runs, each followed by what arrived of a line that failed; no file is used twice or shared, and the active file is the last. |
| RecordingRuns.FilesLieWhereStarted | src/archive.rs:203-306 | Every file of a stream lies in the directory of that stream and of the time of the line that started it, is named by that time and the title of that line's program, and begins with that line. |
| RecordingRuns.MarksCountLines | src/archive.rs:103-138 | Exactly the files that lines were recorded into are marked, and the generation of each is the number of its complete lines modulo 2^64: no line is written without its mark. |
| RecordingRuns.NothingElseIsWritten | src/archive.rs:266-306 | Files from before stay as they are, and a new file that is none of the streams' holds no complete line. |
| RecordingRuns.ActiveFilesDiffer | src/archive.rs:136-147 | Two streams never record into one file. |
| RecordingRuns.RunsAreSinglePrograms | src/archive.rs:118-134 | Every file begins with a present EIT and all its present EITs name one program. |
| RecordingRuns.RunsAreKeptLines | src/archive.rs:156-208 | A stream's files concatenated are exactly its valid lines that could be written, seen from a written present EIT until the next reconnection, in order. |
| RecordingRuns.SkippedIsReported | src/archive.rs:179-194 | A line is reported as skipped exactly when it is not to be kept, with the right reason, and as failed exactly when it was to be kept but could not be written. |
| RecordingRuns.RecordedFileReadsBack | src/search_db/ingest.rs:456-503 | The indexer reads a recorded file back one record per line of its run, an EIT first, and stops before what arrived of a line that failed. |
| RecordingSections.SectionsRefineLines | src/archive.rs:195-207 | However the critical sections of different streams interleave, the files hold what whole lines have written, each taken at its first section; once no line is between its two sections, marks and active files agree too. |
| Retention.RunKeeps | src/archive.rs:592-630 | With enough retention every interleaving of naming, creating, activating and collecting keeps active files in place. |
| Retention.TooShortRetentionUnlinksActive | src/archive.rs:659-672 | With less, a run exists that unlinks a file just before it becomes active. |
| Retention.RetentionIsSafeIff | src/archive.rs:592-630 | Active files are safe in every run if and only if retention is at least the activation delay plus one second less a nanosecond. |
| Expressions.ParseSearchExpression | src/search_db/text.rs:34-97 | The streaming parser succeeds exactly when every operand of the grammar normalizes to something; then every operand has become, clause by clause and in order, the normalization of its words run together in reading order. Otherwise it reports the error of the first operand that fails. |
| Expressions.OperandsExact | src/search_db/text.rs:54-84 | The grammar: the words are cut at every OR and nowhere else, and each part at every AND and nowhere else. |
| Expressions.OperatorSpellings | src/search_db/text.rs:55-61 | The operators are the eight spellings of AND and the four of OR, and no other word. |
| Expressions.ConcatRunsTogether | src/search_db/text.rs:44-45 | Run together, word i begins where the words before it end, and nothing is left over. |
| Expressions.RunTogetherOnce | src/search_db/text.rs:44-45 | No other text has the words so. |
| Expressions.ErrorMeans | src/search_db/text.rs:64-94 | Each error tells what is wrong at its place: nothing typed, an operator where a term is due, an operator at the end, or words that normalize to nothing. |
| Expressions.FailsOnce | src/search_db/text.rs:64-94 | There is only one such place and so only one possible error. |
| Expressions.ParsedIsNonempty | src/search_db/text.rs:43-53 | A parsed expression has a clause, no clause is empty and no term is. |
| FtsQuery.CompiledTextParses | src/search_db/query.rs:142-169 | Read back by FTS5's rules for strings, AND, OR and parentheses, the compiled text is exactly the intended expression. |
| FtsQuery.LexExpression | src/search_db/query.rs:142-169 | The compiled text breaks into exactly the intended tokens. |
| FtsIndex.FtsTable.Insert | migrations/20260713000000_search_schema.sql:164-167 | The insert trigger keeps the postings those of the rows. |
| FtsIndex.FtsTable.Delete | migrations/20260713000000_search_schema.sql:169-172 | The delete trigger keeps the postings those of the rows. |
| FtsIndex.FtsTable.Update | migrations/20260713000000_search_schema.sql:174-179 | The update trigger keeps the postings those of the rows. |
| FtsIndex.FtsTable.DeleteAll | migrations/20260713000000_search_schema.sql:186-192 | Deleting many rows, as a cascade does, keeps the postings those of the rows. |
| FtsIndex.PhraseMeansSubstring | src/search_db/text.rs:21-29 | With one token per character a phrase occurs at a position exactly when the term is a substring there. |
| FtsIndex.SearchMeansSubstring | src/search_db/query.rs:142-169 | The compiled query matches a row exactly when some clause has all its terms as contiguous substrings, each within one column. |
| FtsIndex.DeletedRowNeverMatches | migrations/20260713000000_search_schema.sql:169-172 | A deleted row matches no query. |
| Search.SearchFindsWhatIsAsked | src/search_db/text.rs:34-97 | From the words typed to the rows found: the grammar's OR of ANDs of substrings, each the normalization of an operand's words in reading order, over the texts as they were before normalization and indexing. |
| SearchAtRest.QueryFindsTheArchive | src/search_db/query.rs:171-185 | Over a caught-up index a query finds under every key exactly the archive's caption lines and program texts that its words ask for. |
| SearchAtRest.IndexBacks | migrations/20260713000000_search_schema.sql:147-203 | Hands the `Valid()` that `UpsertProgram`, `IngestLines`, `IngestFile`, `IngestPaths` and `CleanupDeleted` each ensure to the search theorems: the full-text postings searched are those of the index's own tables. |
| SearchAtRest.FoundIsWanted | src/search_db/query.rs:345-383 | The two searches find a program exactly when it is the archive's and its metadata or a caption is asked for, and then every column of the result is that of the archive's program. |
| SearchAtRest.GeneralSearchShowsTheArchive | src/search_db/query.rs:351-383 | The general search returns the `limit` of those programs with the latest starts, latest first and once each, and the hits of each are exactly its first `inner_hits` caption lines in the archive that the words ask for, in line order. |
| Ranking.TopOfTops | src/search_db/query.rs:351-383 | The newest k of the newest k of two sets are the newest k of both. |
| Ranking.TopSize | src/search_db/query.rs:202-230 | The newest k are at least k many, or everything. |
| Ranking.TruncatedIsTop | src/search_db/query.rs:376-382 | Truncating a newest-first list keeps exactly the newest. |
| Ranking.TopIsLatest | src/search_db/query.rs:376-382 | A newest-first list of the newest `limit` holds, by start time and id, the latest of all: no entry starts before the next, the larger id goes first at equal times, and whatever is missing starts earlier than every entry, or at the same time with a smaller id, and is missing only from a full list. |
| Ranking.LatestInTime | src/search_db/query.rs:211-222 | Where the recording starts are timestamps, earlier and later are those of time. |
| SearchResults.GroupRows | src/search_db/query.rs:110-140 | The loop groups neighbouring rows of one program, in order. |
| SearchResults.GroupingFlattensBack | src/search_db/query.rs:110-140 | Flattening the groups gives the rows back, in order. |
| SearchResults.GroupingInvertsFlattening | src/search_db/query.rs:110-140 | Grouping the flattened rows of proper groups gives the groups back. |
| SearchResults.RankedGroupsExact | src/search_db/query.rs:202-230 | Ranking, limiting and grouping yields the `limit` matching programs with the latest starts (the larger id first at equal starts), once each, with exactly their first `inner_hits` matching lines in order. |
| SearchResults.MergeResults | src/search_db/query.rs:351-383 | The two loops collect caption results and then the unseen metadata results, sorted and truncated; a limit of zero or less leaves nothing. |
| SearchResults.GeneralSearchExact | src/search_db/query.rs:345-383 | Merging the newest `limit` of each search gives the `limit` matches with the latest starts, latest first, and every returned program with a caption match carries its hits. |
| CaptionPages.GetCaptionPage | src/search_db/query.rs:437-499 | Fetching one row too many and dropping it yields the first `limit` rows and whether there are more. |
| CaptionPages.GetProgramCaptions | src/query_service.rs:470-518 | One request: an unavailable database, then invalid names and a bad start line, then a missing program; the line to go on from; and a page of as many captions as asked for, between 1 and 500 and 100 by default, when more are left, otherwise no more than that. |
| CaptionPages.PageThenRest | src/query_service.rs:508-512 | A page and everything from where it says to go on are everything from its start, also in a table that has grown; it says to go on exactly when rows are left. |
| CaptionPages.FromExact | src/search_db/query.rs:437-499 | What comes from a line is every caption with that number or a later one, and no other. |
| CaptionPages.FollowingCovers | src/query_service.rs:481-512 | Following the pages with any limits delivers every caption once, in order, also while captions are appended. |
| CaptionPages.FollowingEnds | src/query_service.rs:508-512 | On a fixed table every page but the last delivers a row, so following ends. |
| Timestamps.TextOrderIsTime | src/search_db/text.rs:101-133 | Timestamps of the checked shape compare as text exactly as the moments they name compare in time. |
| Timestamps.TimestampsAreWritten | src/search_db/text.rs:121-129 | The accepted timestamps are exactly the moments up to the year 9999 written as YYYY-MM-DD_HH-MM-SS, leap seconds included, and each is read as the moment it is written from. |
| Timestamps.DatesAreWritten | src/search_db/text.rs:113-119 | The accepted dates are exactly the days of the calendar up to the year 9999 written as YYYY-MM-DD. |
| Timestamps.DaysBeforeYearClosed | src/search_db/text.rs:113-119 | Leap years are every fourth, less the hundredths, plus the four hundredths. |
| Timestamps.CalendarRepeats | src/search_db/text.rs:113-119 | Any 400 years have 146097 days, and leap years come back after them. |
| Timestamps.MonthLengths | src/search_db/text.rs:113-119 | The months have 31, 30, 28 or 29 days, and make up their year. |
| Timestamps.SecondsOrderIff | src/archive.rs:544-552 | Text order agrees with a plain count of seconds if and only if the pair is not a leap second and the start of the minute after it. |
| Timestamps.ExpansionIsExact | src/search_db/text.rs:101-133 | A bound expands exactly when it is a date or a timestamp: a date to its first or last second, 00-00-00 or 23-59-59, a timestamp to itself. |
| Timestamps.SelectsTheInterval | src/search_db/query.rs:187-190 | Accepted bounds select exactly the recordings of the closed interval from the first moment of `from` to the last of `to`. |
| Timestamps.RefusedExactly | src/query_service.rs:398-412 | Bounds are refused exactly when one is malformed or the interval is reversed in time, with the error that says so; an empty bound counts as absent. |
| Timestamps.DatesSelectWholeDays | src/search_db/text.rs:101-112 | Two dates select the whole days between them, except a recording named for a leap second ending the last day. |
| SocketBind.RunKeeps | src/serve.rs:438-495 | The invariant of lock, path and listeners holds in every reachable state. |
| SocketBind.OneLiveListener | src/serve.rs:404-408 | At most one listener is live, a serving process is reached through the path, and removing the path never removes a live listener's socket. |
| SocketBind.RefusesWithoutTouching | src/serve.rs:462-495 | A file that is no socket, a listener that answers and a path that has changed meanwhile make a process give up, and the lock with it, without touching the path. |
| SocketBind.OneLockHolder | src/serve.rs:441-461 | Two processes never hold the lock at once. |
| SocketBind.StaleSocketIsReplaced | src/serve.rs:474-494 | After a crash the next process that takes the lock gets through to serving. |
| Markers.RewriteMarkers | src/docs_gen.rs:35-92 | The cursor loop equals the recursive rewriting, errors included. |
| Markers.OpeningExact | src/docs_gen.rs:43-61 | A section opens at the first opening marker and its id ends at the first closing arrow after it; the markers spelled out. |
| Markers.TrimSlice | src/docs_gen.rs:57-58 | Trimming an id takes spaces, and only spaces, off both ends until neither end is one. |
| Markers.EverySectionRegenerated | src/docs_gen.rs:46-91 | Rewriting succeeds exactly when the markers match up and there is one section for every known id and no other, each of which can be rendered; with clean text every section of the result then holds exactly what is rendered for its id, in the order of the document. |
| Markers.RewriteFails | src/docs_gen.rs:46-91 | When rewriting fails, the error names a reason that holds of the document. |
| Markers.RewriteIsIdempotent | src/docs_gen.rs:35-92 | With clean generated text, rewriting a rewritten document changes nothing, and all text outside markers is preserved. |
| Markers.FindsSectionAgain | src/docs_gen.rs:46-66 | In rewritten text a section is found where it was, with its id trimmed. |
| Markers.OneSectionIff | src/docs_gen.rs:67-84 | For one section and every text, rewriting what was written changes nothing if the text is clean and fails if it is not. |
| Markers.EndNeverOverlaps | src/docs_gen.rs:67-76 | An end marker never overlaps a copy of itself. |

## Left out

* JSON decoding, NFKC normalization and lowercasing, lossy UTF-8 and path-component sanitizing are opaque functions.
* `locate` stands for parsing a path into stream, month, filename and start time.
* `mtime` and `last_error` texts are not kept; `size_bytes` is kept but nothing is claimed of its freshness.
* The recording store's lock is modelled by making each critical section one step. In `RecordingRuns` and
  `RecordingSections` a new file is written in the step that names it; `WholeSystem` lets its writer stop at any byte.
* `WholeSystem` does not say which lines a writer writes; `RecordedArchive` joins it with `RecordingRuns` through what
  the files hold.
* `IndexRuns`, `Maintenance` and `Retention` each state what they ask of the others; `WholeSystem` discharges it, assuming
  that a new file is activated or given up within `delay` and that a process starts with rows only of files that are
  present or were removed for their age.
- Maintenance.NoLostUpdate: says nothing of files of an earlier run that have not been indexed since the process
  started, because the code scans once; `CatchingUp` says exactly what follows.
* FTS5 query syntax is modelled as far as the compiler uses it; implicit AND, NOT, NEAR, column filters and prefix
  queries are left out. Every normalized character is taken to be one token.
* Splitting a search text at whitespace is left to the caller: the parser takes the words.
* Whether a stream name and a start time are valid is a parameter of a caption request.
* Stream, time and genre filters and `search_combined` narrow the set of matching rows in one more conjunct each; the
  time conditions are modelled in `Timestamps` only.
* A search request's choice of mode, and the clamping of its limits, which makes both at least 1.
* Top-k merging is stated on one database snapshot, although the two queries do not share a transaction.
* The sort of merged results is its specification, a stable insertion sort.
* Archive suffixes and generations other than the dirty counter are unbounded; the integer columns are too.
* Month-directory removal, dry runs, the walk of the archive directories and the schedule of collection.
* The lock file and the socket path are assumed not to be removed by strangers while a process holds the lock.
* HTTP, MCP and OpenAPI routing, live broadcast, reconnection, configuration, the command line and terminal output.
* Line numbers in the marker rewriter's error messages.
