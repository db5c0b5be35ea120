# noobDB: what its core algorithms guarantee

A Dafny model of the self-contained algorithms inside noobDB, a desktop database client, and proofs of the
guarantees its code and documentation make about them. The model follows the source function by function; the
theorems say what a reader would not see from one function body: how the SQL scanner, the splitter and the safety
checks read the same text, what holds on every run of a protocol or a timed buffer, and when two forms of the same
computation agree.

`Common` holds what most modules share. To verify the project, use `dafny verify dfyconfig.toml` with Dafny 4.11.

| part | modules | sources |
|---|---|---|
| SQL masking, splitting, safety checks | `Text`, `MaskSpec`, `MaskScanner`, `MaskLocality`, `SqlScript`, `SqlScriptLaws`, `SplitLaws`, `ScriptRoundTrip`, `ScriptTheorems`, `ScriptBatch`, `DangerousSql`, `DangerLaws`, `DangerTheorems`, `MaskGrammar`, `MaskReading`, `ScriptMeaning`, `DangerMeaning` | `src/dangerousSql.ts`, `src/sqlScript.ts` |
| what a deletion takes with it | `CascadeSpec`, `Cascade`, `CascadeSearch`, `DeletedKeys` | `src/refImpact.ts`, `src/fkNavigation.ts` |
| the JSON store shared by processes | `StoreProtocol`, `StoreHistory` | `src-tauri/src/store_lock.rs`, `json_store.rs`, `atomic_write.rs` |
| keyset paging | `Keyset`, `KeysetPlan`, `KeysetPaging`, `KeysetTies`, `KeysetRequests` | `src/keysetPagination.ts`, `src/pagination.ts`, `src/components/serverBrowse.ts`, `src/App.tsx` |
| buffered streaming, rotating log | `StreamFlusher`, `LogStore` | `src/streamRowFlusher.ts`, `src-tauri/src/logs.rs` |
| result differences and refresh patches | `ResultDiff`, `RefreshPatch`, `RefreshRanks`, `RefreshBuilder` | `src/resultDiff.ts`, `src/refreshPatch.ts`, `src-tauri/src/db/refresh_diff.rs` |
| change scripts between generations | `TimelapseDml`, `ScriptGaps`, `TimelapseScript` | `src/tableTimelapse.ts` |
| saved tabs and panes | `Workspace`, `WorkspaceReading` | `src/tabPersistence.ts` |
| table cloning | `CloneTokens`, `CloneSpelling`, `CloneNames`, `CloneStatements`, `CloneSegments`, `CloneForeignKeys` | `src/tableClone.ts` |
| DDL capture, scrubber, savepoints | `DdlCoalescer`, `Scrubber`, `Savepoints` | `src/schemaDrift.ts`, `src/timelapseScrubber.ts`, `src/savepoints.ts` |

How the model stands to the source:

- Loops and mutable objects are methods and classes proved against specification functions; the run theorems are
  about those functions. Failures, clocks, timers and the answers of the database are parameters or nondeterministic
  steps.
- Text is ASCII. The scanner's regular expressions are character classes and word-boundary predicates.
- The log's bytes are known by their place among all bytes accepted, so "suffix" and "no hole" are exact.

Where the promise of the code is not kept in every case, the exact condition is proved and a concrete input shows
the failure:

- **Masking a piece on its own** (`MaskIsLocal`): equal to the script's mask of the piece if and only if that mask does
  not end in a surviving `--`. Only MySQL's rule for `--` lets one survive.
- **Splitting the joined statements again** (`SplitOfJoin`): gives the same list if and only if each statement still has
  something to execute when masked alone. `DashesAloneAreLost` is the input: a lone `--` before a `;` under MySQL.
- **The danger check** needs no such exception: losing a final `--` never changes a kind (`DangerKindsAgree`).
- **What the log shows** (`StepReadsTail`): a tail of the bytes since the last clear, kept by every operation except two
  clears: one that empties the active file but fails to open it again while the backup holds bytes and the active file
  held some, and one that cannot remove a backup that holds bytes. `ClearCanLeaveAHole` is a run that loses bytes from
  the middle, although the comments at `src-tauri/src/logs.rs:129-157` treat both failures as safe. A read that fails to
  open the active file shows no tail either if both files hold bytes (`ShownIsTail`). A read that goes on while the log is
  written shows one if and only if the backup got no more bytes between the reading of the two files, or one of them
  gave nothing (`ReadDuringWrites`); `ReadWhilePendingCanMissAByte` and `ReadDuringClearHasAHole` are the runs.
- **Keyset pages and OFFSET pages** (`OffsetPagesIffSettled`): the same on every run from page 1, whatever order the
  server gives to tied rows, if and only if the chosen sort column tells the filtered rows apart; sorting by a primary
  key of one column does (`WholeKeySettles`). The OFFSET query orders by at most that column, while the keyset adds the
  primary key. `DefaultViewSkipsARow` is the input: a table opened with no sort whose server lists row 2 first.
- **A new page size** (`SizeTakesEffect`): kept if and only if the request is forced or leads to another page. Choosing a
  size asks for page 1 without forcing (`src/App.tsx:5998-6001`), and a request for the page shown returns early
  (`src/App.tsx:5887`), so on page 1 the choice does nothing (`SizeOnPageOneIsIgnored`).
- **No lost update in the JSON store** (`NoLostUpdate`): every committed update is applied to what the updates before it
  left if and only if no call that missed the file in its existence test committed over another document than the
  default. `path.exists()` is also false when the test itself fails; `MissedFileLosesUpdates` is the run.
- **The text of a change script** (`ScriptReadsAsWritten`): read as one text it shows each statement as it is read alone,
  and nothing to run between them, if and only if the comment lines between two statements are idle as a whole and leave
  no comment or literal open. Notes show keys as they are, and only the heading is split at line breaks.
  `KeyBreakMakesLiveLine` and `KeyBreakHidesStatements` are inputs for the two ways to fail: a key whose second line is a
  statement, and one whose second line opens a block comment over everything behind it. Without a line break in the key
  of a skipped row neither happens (`UnbrokenKeysAreIdle`).
- **Removed rows and their count** (`RemovedRowsMatchCount`): equal if and only if no previous row is hidden behind a
  later one with the same key that the next result still has. `RepeatedKeyIsMiscounted` is the input.

## Model

| member | source | states |
|---|---|---|
| MaskScanner.MaskUncached | src/dangerousSql.ts:115-260 | the in-place scan computes `Mask`: each character belongs to the token a left-to-right lexer reaches and is blanked exactly in that token's blanked part, newlines excepted; what the tokens are is told by `MaskGrammar` and `MaskReading` |
| MaskGrammar.MaskOfScript | src/dangerousSql.ts:115-314 | a script written in pieces (code, comments, literals, quoted names), each spelled as its driver spells it, is masked piece by piece, for every driver and option |
| MaskReading.MaskIsToldByPieces | src/dangerousSql.ts:115-314 | every text at all is written in such pieces, so its mask is told by how drivers spell comments and literals: doubled quotes everywhere, `\'` and `\\` in MySQL's quotes and PostgreSQL's `E'…'` only, `#` to the end of the line except under PostgreSQL and SQLite, `--` under MySQL only before a gap, `[…]` under SQLite only |
| MaskReading.ValueIsMasked | src/dangerousSql.ts:223-260 | the literal of any text, escaped as the driver does, is masked as its quotes around blanks (newlines kept), and the scan goes on right behind it |
| MaskReading.LiteralFits | src/dangerousSql.ts:223-260 | such a literal may stand before anything but its own quote |
| MaskReading.BackslashQuote | src/dangerousSql.ts:295-297 | the same characters under each driver: `\'` stays inside MySQL's literal and ends any other one |
| MaskSpec.MaskShape | src/dangerousSql.ts:115-260 | the mask keeps the length and every newline, and any other position is unchanged or a space |
| MaskSpec.SurvivorIsPlain | src/dangerousSql.ts:115-260 | a surviving character that is no word character or delimiter is read as a token of its own, so splitters may trust it |
| MaskSpec.TokenSurvivor | src/dangerousSql.ts:115-260 | what a comment or literal leaves unblanked is only its delimiters or word characters |
| MaskScanner.CacheKeyIsInjective | src/dangerousSql.ts:53-76 | two requests share a cache key only when text, driver and all options agree |
| MaskScanner.CacheStaysValid | src/dangerousSql.ts:53-76 | every request keeps the cache at 8 entries or fewer, keys distinct, each entry the mask of its own request |
| MaskScanner.MaskCache.MaskLiterals | src/dangerousSql.ts:53-76 | after any history of requests the answer is the mask of this request, hit or miss |
| MaskLocality.TokenInWindow | src/dangerousSql.ts:115-260 | between surviving separators each token is the token of the whole text cut at the edge, the searches for a closing tag or bracket and the look-behind for `E'` and `$` included |
| MaskLocality.MaskOfPiece | src/dangerousSql.ts:115-260 | the mask of a piece alone is the script's mask of it with a lost final `--` blanked |
| MaskLocality.MaskIsLocal | src/sqlScript.ts:19-23 | a piece is masked alone exactly as inside the script if and only if the script's mask shows no `--` at its end |
| SqlScript.SplitSqlStatementRanges | src/sqlScript.ts:58-82 | the loop returns the trimmed ranges of the segments between surviving `;` that hold something to execute |
| ScriptMeaning.StatementsAreTold | src/sqlScript.ts:58-131 | for every script the statements are, in order, the stretches between surviving `;` that are more than white space and ends of version comments, without the white space around them |
| SqlScript.StatementAtOffset | src/sqlScript.ts:102-109 | the statement at a cursor is the first whose end is not before it, or the last one; none only for a script without statements |
| SqlScriptLaws.StatementRangesInOrder | src/sqlScript.ts:58-82 | ranges are ordered, disjoint, trimmed, non-empty and equal to their slices of the source |
| SqlScriptLaws.RangeIsPiece | src/sqlScript.ts:58-82 | every statement's range is a piece in the sense of locality |
| ScriptTheorems.StatementMask | src/sqlScript.ts:19-23 | a statement keeps what can be executed when masked alone unless a final `--` carried it |
| ScriptRoundTrip.MaskOfJoined | src/sqlScript.ts:58-123 | the mask of statements joined by newline, `;`, newline is their masks joined the same way |
| ScriptTheorems.SplitOfJoin | src/sqlScript.ts:58-123 | splitting the joined statements returns exactly those still executable alone: all of them if and only if each one is, and always when no MySQL statement ends in `--` |
| ScriptTheorems.DashesAloneAreLost | src/dangerousSql.ts:309-314 | the exception is real: under MySQL a lone `--` before `;` is a statement, and a comment alone |
| ScriptBatch.BatchSplits | src/sqlScript.ts:117-123 | the text from the cursor's statement on splits into that statement and all later ones if and only if the last one has something to execute alone |
| SplitLaws.ExecutableOfPadded | src/sqlScript.ts:129-131 | white space around a fragment does not change whether it holds anything to execute |
| DangerousSql.HasTopLevelWhere | src/dangerousSql.ts:344-358 | the depth-counting loop finds a `where` exactly when the word stands outside all parentheses |
| DangerousSql.AnalyzeDangerousSql | src/dangerousSql.ts:484-496 | the loop lists the kind of danger of every segment of the mask, in order; which kind that is, is told by `DangerMeaning` |
| DangerMeaning.KindIsListed | src/dangerousSql.ts:408-476 | if and only if, per kind: after white space and `(` the statement begins with `delete` or `update` and no word `where` stands outside all parentheses; it begins with `truncate` or `drop`; it is an `alter table` whose first `drop` that removes a column or a constraint removes the one or the other; nothing else is listed |
| DangerMeaning.FindingsAreListed | src/dangerousSql.ts:484-496 | for every script the findings are, in order, exactly those the words of its statements call for |
| DangerousSql.TrimTrailingSeparators | src/dangerousSql.ts:796-808 | one scan from the end drops exactly the trailing white space and `;` |
| DangerLaws.ClassifyPadded | src/dangerousSql.ts:442-476 | white space around a statement and a `--` at its end leave its kind of danger alone |
| DangerTheorems.PieceKind | src/dangerousSql.ts:442-496 | a piece masked alone has the kind of danger its part of the script's mask has |
| DangerTheorems.DangerKindsAgree | src/dangerousSql.ts:484-496 | the danger kinds of a script are those of its split statements, each checked alone, in order, for every script and driver |
| DangerTheorems.ReadOnlyIsSafe | src/dangerousSql.ts:714-750 | whatever the read-only gate accepts is one split statement and has no danger finding, under both readings of `--` when the driver is unknown |
| DangerMeaning.GateIsTold | src/dangerousSql.ts:714-750 | a script is accepted if and only if its masked text, trimmed, begins with a reading word, has no `;` and no writing word, and passes the remaining tests, for an unknown driver under both readings of `--` |
| CascadeSpec.KeyPredsCover | src/refImpact.ts:275-292 | cutting the keys into IN lists loses no child row, and counts none twice when the keys are distinct |
| CascadeSpec.KeyPredsAreChunks | src/refImpact.ts:275-292 | the lists hold the values in order, 500 each, and none is empty |
| CascadeSpec.KeysTellApart | src/refImpact.ts:325-424 | two foreign keys are one to the search exactly when table, columns and schema agree, no schema and an empty one being the same |
| Cascade.PredsReach | src/refImpact.ts:325-424 | the nested subqueries of a chain of foreign keys select exactly the rows the deletion reaches through it |
| Cascade.RootRowsAreTold | src/refImpact.ts:275-292 | the first level reaches exactly the child rows whose column holds one of the deleted values |
| Cascade.NextRowsAreTold | src/refImpact.ts:386-424 | each further level reaches exactly the child rows that refer to a row reached before |
| Cascade.CountIsReached | src/refImpact.ts:129-180 | the summed count is positive exactly when the chain reaches rows, never below their number, and equal to it for unique referenced columns and disjoint first predicates |
| Cascade.SumRefCounts | src/refImpact.ts:169-179 | result rows are added up by edge number without losing earlier sums |
| Cascade.CountLevel | src/refImpact.ts:129-179 | counting in queries of at most 100 branches gives each edge its own count, or nothing when a query fails |
| CascadeSearch.LoadCascadeImpacts | src/refImpact.ts:325-424 | the search ends within max(roots, 24) edges; impacts name distinct foreign keys and tell of chains that really reach rows; when it says nothing was skipped or unverified every such chain has its impact; it says that there is more only if there is a chain of four keys, two chains ending in one key, more than 24 chains or a key listed twice; it leaves a table unverified only if fetching its keys or counting its level fails; it gives up only if the first level cannot be counted |
| CascadeSearch.ImpactIsExact | src/refImpact.ts:325-424 | an impact names its chain's last key, the table the key refers to and its depth, and counts its rows, exactly when keys are unique |
| DeletedKeys.CollectDeletedKeyValues | src/refImpact.ts:76-118 | each referenced column gets the distinct non-null values of the deleted rows up to the limit, and `partial` says exactly that a column is missing or that some column has more values than fit |
| DeletedKeys.DeletedValueIsTold | src/refImpact.ts:76-118 | a deleted row's value for a column is the one in the first column of that name, and NULL is none |
| DeletedKeys.FirstLevelIsExact | src/refImpact.ts:76-118 | when the collected keys are not partial, the first level of the search reaches exactly the child rows that refer to a deleted row, and counts each once |
| StoreProtocol.StepKeepsInv | src-tauri/src/json_store.rs:49-101 | every step of every thread, an existence test that misses the file included, keeps the invariant over locks, temporary files and commits |
| StoreProtocol.CrashKeepsInv | src-tauri/src/store_lock.rs:41-56 | a crash of any process at any step keeps it as well |
| StoreProtocol.CommitsInOrder | src-tauri/src/json_store.rs:49-101 | after any interleaving and crashes the file is what the last commit wrote and each call commits at most once; each commit was applied to what the earlier ones left, so that the file stands for all of them in order, if and only if none missed the file in its existence test and committed over another document than the default |
| StoreHistory.RunDoesWhatWasAsked | src-tauri/src/json_store.rs:49-101 | told from the actions: each commit is of an update its thread began, with the very function it was begun with; a read is never in the log; a finished call did what it was begun for, a read returning what stood at some moment since it began |
| StoreHistory.NoLostUpdate | src-tauri/src/json_store.rs:49-101 | on every run the file stands for the functions the callers passed, applied in commit order each to what the ones before it left, if and only if no call missed the file in its existence test and committed over another document than the default; a call reports a commit exactly when the log has it |
| StoreHistory.MissedFileLosesUpdates | src-tauri/src/json_store.rs:67-70 | the exception is real: for every change and thread, a call whose existence test misses the file commits that change of the default over the stored document and reports success |
| StoreHistory.LaterUpdateCommits | src-tauri/src/atomic_write.rs:14-60 | leftover temporary files block a later update only as often as their names come up: each try takes the next number, and the first free one commits the change of what the file stands for |
| StoreHistory.ReadSucceeds | src-tauri/src/json_store.rs:49-101 | a read with nothing in its way returns what the file stands for and sets only an unreadable file aside |
| StoreHistory.StepTouchesOwnTemp | src-tauri/src/atomic_write.rs:14-60 | a step touches no temporary file but its call's own; the whole content is in it before the rename takes it away, and a failure leaves it only if it cannot be removed |
| StoreHistory.CommitsStay | src-tauri/src/json_store.rs:92-101 | no commit is taken back later, crashes included |
| StoreProtocol.ActionIsAtomic | src-tauri/src/atomic_write.rs:14-60 | the meaning of the file changes only at a rename, by one whole update of what its call loaded: the value the file still has, or the default if it was missed |
| StoreProtocol.NeverQuarantined | src-tauri/src/json_store.rs:67-101 | a file that starts absent or readable is never set aside; an unreadable one stays or is set aside once, if and only if no call that missed it committed over it |
| StoreProtocol.MutualExclusion | src-tauri/src/store_lock.rs:41-56 | no two threads of any processes hold the file lock at once |
| StoreProtocol.SomeoneCanMove | src-tauri/src/store_lock.rs:41-56 | no deadlock: while a call is unfinished some thread inside a call can take a step |
| Keyset.RowCmpIsAfter | src/keysetPagination.ts:126-143 | with one direction the row value comparison means "strictly after the anchor" key by key |
| Keyset.ConditionMeansAfter | src/keysetPagination.ts:126-143 | single comparison, row value comparison and OR expansion all mean "strictly after the anchor in the direction of the move", mixed directions and NULLs included |
| Keyset.ReadKeysetAnchor | src/keysetPagination.ts:93-108 | the loop returns the key values of the anchor row exactly when the row exists and none of them is missing or NULL |
| Keyset.OrderingIsUnique | src/keysetPagination.ts:126-143 | a set of rows has at most one listing in the strict order of the keys |
| Keyset.FlippedOrder | src/keysetPagination.ts:118-120 | reversing all directions reverses the order |
| KeysetPlan.ResolveKeysetPlan | src/keysetPagination.ts:60-87 | there is no plan exactly when columns, primary key, sort column, orderability or the result lack something; otherwise the keys are the sort column, first, and all primary key columns, once each, in one direction |
| KeysetPlan.PlanOrdersRows | src/keysetPagination.ts:60-87 | the keys of a plan list any rows with non-null columns and a unique primary key in exactly one order |
| KeysetPaging.ResolvedPlanFits | src/keysetPagination.ts:60-87 | any plan the resolver returns orders the rows of the table, however filtered, beginning with the sort column |
| KeysetPaging.KeysetAnswer | src/keysetPagination.ts:152-174 | the keyset query, filter included, answers with the rows next to the anchor in the order of the plan, in either direction, whatever order OFFSET queries list them in |
| KeysetPaging.SettledIsInPlanOrder | src/components/serverBrowse.ts:206-218 | if the sort column tells the filtered rows apart, every answer ordered by it alone is in the order of the plan |
| KeysetPaging.WholeKeySettles | src/keysetPagination.ts:60-87 | sorting by a primary key of one column tells the rows apart |
| KeysetRequests.RunFollowsRequests | src/App.tsx:5852-5937 | on every run, told from its requests: the view is the last forced one or the one opened, the last request gets the page asked for as far as the count lets it, after a forced request the rows are the OFFSET page of its view, and while the sort column of each view tells its rows apart they always are |
| KeysetRequests.RequestIsAnswered | src/App.tsx:5882-5937 | one request on any tab: page, page size, view and, when forced, rows are those asked for; nothing at all happens exactly when nothing is forced and the page is the one shown |
| KeysetRequests.ExactCountBoundsPage | src/App.tsx:5880-5887 | an exact count of n pages never leaves the tab on a page above n, and a page within it is reached |
| KeysetRequests.KeysetIsAsked | src/App.tsx:5897-5917 | the keyset query is sent exactly when the next or previous page is asked for, not page 1, with nothing forced and the size kept, a plan at hand and no NULL among the keys of the row at that end |
| KeysetRequests.SizeTakesEffect | src/App.tsx:5887 | a chosen page size takes effect if and only if the request is forced or leads to another page, or the size is the old one |
| KeysetRequests.SizeOnPageOneIsIgnored | src/App.tsx:5998-6001 | the failing input: on page 1 a new page size changes nothing |
| KeysetTies.OffsetPagesIffSettled | src/App.tsx:5852-5937 | for every listing the server may choose and every run from page 1 the tab shows OFFSET pages if and only if the sort column tells the filtered rows apart |
| KeysetTies.UnsettledRunFails | src/App.tsx:5882-5925 | otherwise there is a listing, consistent with the sort, for which "next" from page 1 shows a row of page 1 again |
| KeysetTies.DefaultViewSkipsARow | src/components/serverBrowse.ts:206-218 | a concrete table opened with no sort: "next" skips a row that OFFSET shows on page 2 |
| KeysetPaging.NextPageIsReachable | src/pagination.ts:32-73 | a next page with rows is never hidden by button or clamp, however wrong the estimate; with a confirmed count the button works exactly when rows are left |
| KeysetRequests.NextButtonMoves | src/pagination.ts:32-73 | "next" gets past the clamp exactly when its button is usable or no count is known |
| KeysetPaging.CountTellsPages | src/pagination.ts:128-131 | the page count from an exact row count exceeds a page exactly when rows are left after it |
| StreamFlusher.StreamRowFlusher.Push | src/streamRowFlusher.ts:99-106 | a non-empty batch joins the buffer, newest statistics win, both counters grow by its rows, and a timer is armed if there is none and the tab is visible |
| StreamFlusher.StreamRowFlusher.Fire | src/streamRowFlusher.ts:87-96 | the timer is spent, and the buffer is applied only if the tab is visible |
| StreamFlusher.StreamRowFlusher.FlushNow | src/streamRowFlusher.ts:107-110 | the timer is stopped and everything waiting is applied at once, as urgent |
| StreamFlusher.StreamRowFlusher.Discard | src/streamRowFlusher.ts:114-120 | what waits is forgotten and no longer counts as received |
| StreamFlusher.StepKeepsInv | src/streamRowFlusher.ts:63-130 | every event keeps the counters, the spacing of applies and the timer's bounds |
| StreamFlusher.RunDelivers | src/streamRowFlusher.ts:63-130 | from any state, applied and waiting chunks after a run are those before plus the pushes no discard catches, as told by the event list alone |
| StreamFlusher.EveryRunIsFaithful | src/streamRowFlusher.ts:63-130 | on every run applied plus waiting chunks are the undiscarded pushes in order, received is their row count, a timer-driven apply keeps the interval, and waiting rows in a visible tab have a timer due within the interval |
| StreamFlusher.AppliedWithinInterval | src/streamRowFlusher.ts:63-106 | with timers on time, rows pushed to a tab that stays visible leave the buffer no later than the interval after the push |
| StreamFlusher.WaitingIsDelivered | src/streamRowFlusher.ts:86-96 | nothing waits for ever: from any state with rows waiting in a visible tab, letting no more than the interval pass and firing the timer applies them all |
| LogStore.Store.WriteBytes | src-tauri/src/logs.rs:71-101 | a write, with every outcome of its file operations, moves the store as specified and keeps the invariant |
| LogStore.Store.Read | src-tauri/src/logs.rs:103-125 | reads the backup segment followed by the active one, each left out if it cannot be opened or read |
| LogStore.Store.ClearLog | src-tauri/src/logs.rs:127-160 | a clear, with every outcome of its file operations, moves the store as specified and succeeds exactly when both opens do |
| LogStore.StepReadsTail | src-tauri/src/logs.rs:71-160 | from a state that reads a tail of the bytes since the last clear, a step keeps that if and only if it is not one of the two spoiling clears |
| LogStore.RunReadsTail | src-tauri/src/logs.rs:71-160 | without a spoiling clear the two files together hold such a tail after every run, whatever renames, opens and writes fail and whenever the program restarts |
| LogStore.ShownIsTail | src-tauri/src/logs.rs:103-125 | a read of such a state shows a tail if and only if it does not miss an active file with bytes while it shows a backup with bytes |
| LogStore.ReadDuringWrites | src-tauri/src/logs.rs:103-125 | a read that opens both files at once and reads them later, while writes and rotations go on, shows a tail as of some moment of the read if and only if the backup got no more bytes between the two readings or one of them gave nothing; it always does when the active file was open at the start |
| LogStore.ReadDuringEvents | src-tauri/src/logs.rs:103-160 | with clears going on as well, it does if and only if no byte is missing behind what was read of the backup |
| LogStore.ReadWhilePendingCanMissAByte | src-tauri/src/logs.rs:71-125 | a concrete read, begun while a new active file is still to be opened, that misses a byte between the two files |
| LogStore.ReadDuringClearHasAHole | src-tauri/src/logs.rs:103-160 | whenever both files hold bytes, a clear and one write between the two readings make the read miss what stood between |
| LogStore.RunKeepsInv | src-tauri/src/logs.rs:71-160 | on every run at all, bytes are read in the order they were accepted |
| LogStore.WriteIsReadBack | src-tauri/src/logs.rs:71-125 | a successful write that was not dropped is the end of what is read: the handle never points at a file no path leads to |
| LogStore.CleanClearRepairs | src-tauri/src/logs.rs:127-160 | one clear whose file operations succeed empties the log from any state |
| LogStore.RestartKeepsBytes | src-tauri/src/logs.rs:40-69 | a new process finds the bytes as they were, opens the active segment and counts it from its size |
| LogStore.ClearCanLeaveAHole | src-tauri/src/logs.rs:127-160 | a concrete run after which a byte from the middle is missing from what is read |
| LogStore.RunKeepsSizes | src-tauri/src/logs.rs:20-24 | with whole writes and successful renames the active segment stays below its cap and the backup below the cap plus one event, or twice the cap plus one event while opening fails |
| ResultDiff.DiffResultRows | src/resultDiff.ts:66-124 | flags, added rows, removed count and summary are those of pairing each next row with the last previous row of its key; none without key columns |
| ResultDiff.DiffIsUnique | src/resultDiff.ts:66-124 | only one difference fits that description |
| ResultDiff.FlagsAreTold | src/resultDiff.ts:46-51 | a cell is flagged exactly when what it shows has changed, missing cells and NULL showing nothing |
| ResultDiff.KeysAreTold | src/resultDiff.ts:53-60 | keys agree exactly when the rows hold the same values in all key columns, missing ones being NULL |
| ResultDiff.KeptRowsAgree | src/resultDiff.ts:66-124 | next rows minus added ones and previous rows minus removed ones have the same keys |
| ResultDiff.NoChangesMeansEqual | src/resultDiff.ts:66-124 | a report of no changes means every row has its equal, cell by cell, on the other side |
| ResultDiff.RemovedPrevRows | src/resultDiff.ts:148-164 | the previous rows whose key is gone, in order, cut at the limit (at least one is returned, whatever the limit) |
| ResultDiff.RemovedRowsMatchCount | src/resultDiff.ts:102-118 | the full list has as many rows as the removed count says if and only if no previous row is hidden behind a later one with a key still present |
| ResultDiff.RepeatedKeyIsMiscounted | src/resultDiff.ts:102-164 | the exception is real: of two previous rows with one key the earlier is counted as removed but not listed |
| ResultDiff.ChangedRowIndexSet | src/resultDiff.ts:170-176 | the "changes only" view shows exactly the added rows and those with a changed cell |
| RefreshPatch.ApplyRefreshPatch | src/refreshPatch.ts:39-97 | the rows, flags, added set and summary are those of the items the runs stand for |
| RefreshPatch.PatchRebuildsRows | src/refreshPatch.ts:39-97 | a faithful patch rebuilds the next rows, repeated keys included |
| RefreshPatch.PatchAgreesWithDiff | src/refreshPatch.ts:39-97 | under unique keys what comes with a patch agrees with the full difference: added rows, added, removed and changed counts, summary and every cell's flag |
| RefreshBuilder.Builder.Observe | src-tauri/src/db/refresh_diff.rs:190-262 | each row seen keeps the runs faithful to the rows so far and the new snapshot valid |
| RefreshBuilder.Builder.Finish | src-tauri/src/db/refresh_diff.rs:264-304 | the patch is faithful to previous and next rows, counts included; it is the empty one if and only if the rows are the same; otherwise each row is paired with the previous row of its key in its place among those of that key, and none if there is none; the snapshot for the next refresh is valid unless there were more than 500000 rows |
| RefreshBuilder.KeepGrows | src-tauri/src/db/refresh_diff.rs:238-247 | a copied run extended by one stands for one more row of the previous result |
| RefreshBuilder.FaithfulPush | src-tauri/src/db/refresh_diff.rs:190-262 | a row paired with an unused previous row of its key, or with none left, keeps the items faithful |
| TimelapseDml.BuildTimelapseDml | src/tableTimelapse.ts:314-383 | the loop writes the headings and one statement or note per row with its counts, and nothing at all for rowid keys |
| TimelapseDml.ScriptMovesWrittenRows | src/tableTimelapse.ts:314-383 | run on the generation it starts from, the written statements never break the key, move exactly the rows they are for to the other generation and leave all others alone, whatever is masked |
| TimelapseDml.RowsWithStatements | src/tableTimelapse.ts:314-383 | whatever is masked, exactly those rows get a statement whose needed values are there: no masked key for an update or delete, no masked changed column for an update, no masked column at all for an insert |
| TimelapseDml.HeadingsAreTold | src/tableTimelapse.ts:323 | each line of the header is one heading, in order |
| TimelapseScript.ScriptReadsAsWritten | src/tableTimelapse.ts:314-383 | read as one text, the script shows each statement as it is masked alone and nothing to run between them if and only if the comment lines of each gap are idle as a whole and leave nothing open for the statement after them |
| TimelapseScript.SplitterFindsWritten | src/sqlScript.ts:58-123 | under that condition the splitter finds exactly the written statements, in order, each with the notes before it |
| TimelapseScript.ChunksAreScript | src/tableTimelapse.ts:382 | gaps and statements below each other are the text handed out, every line followed by a line break |
| ScriptGaps.ReadsIffGapsAreIdle | src/dangerousSql.ts:115-260 | for any lines of comments and statements: each statement is masked as it is alone and nothing between can be run if and only if each gap is idle as a whole and ends what it opens |
| TimelapseScript.KeysDecideLines | src/tableTimelapse.ts:206-211 | each line written stays one line of the text if and only if no skipped row shows a key, column names included, with a line break (note templates have none) |
| TimelapseScript.UnbrokenKeysAreIdle | src/tableTimelapse.ts:206-211 | without a line break in the key of a skipped row every gap is comments that end, whatever is masked |
| TimelapseScript.TextMovesWrittenRows | src/tableTimelapse.ts:314-383 | if no skipped row shows a key with a line break, the script is split into the written statements, each behind its notes, and they move exactly the written rows and leave all others alone |
| TimelapseScript.KeyBreakMakesLiveLine | src/tableTimelapse.ts:327-335 | the exception is real: an added row with a masked column and a key whose second line is a statement gets none, and still its note can be run |
| TimelapseScript.KeyBreakHidesStatements | src/tableTimelapse.ts:327-335 | a key whose second line opens a block comment makes an idle gap that hides the statement behind it, and the whole script when no comment ends later |
| TimelapseDml.ScriptsAreInverse | src/tableTimelapse.ts:314-383 | unmasked, the forward script turns the older generation into the newer and the revert script turns it back |
| TimelapseDml.UnmaskedWritesAll | src/tableTimelapse.ts:314-383 | with a key and nothing masked every row gets a statement and none is skipped |
| TimelapseDml.ScriptHidesMaskedValues | src/tableTimelapse.ts:314-383 | the script, notes included, does not depend on the values of masked columns |
| TimelapseDml.EveryRowIsCounted | src/tableTimelapse.ts:314-383 | statements plus skipped rows are all rows |
| TimelapseDml.ExportIsFaithful | src/tableTimelapse.ts:182-204 | exporting a faithful difference keeps sides, keys and changed columns |
| TimelapseDml.ExportIsTold | src/tableTimelapse.ts:182-204 | an exported row shows the newer, older or both sides its kind calls for, masked columns as the placeholder, the changed columns, and the key off the newer side if there is one |
| TimelapseDml.RecordShowsValues | src/tableTimelapse.ts:186-193 | a column shows its value unless it is masked; of two columns of one name the last counts |
| TimelapseDml.DistinctIsTold | src/tableTimelapse.ts:201 | the columns of a key are the primary key columns, each once, in the order they first come in |
| TimelapseDml.ExportHidesMaskedValues | src/tableTimelapse.ts:182-204 | the masked export does not depend on masked values, keys included |
| TimelapseDml.ExportIsComplete | src/tableTimelapse.ts:182-204 | exported rows carry the values their kind needs, so none is dropped without a count |
| Workspace.NormalizeIsNormal | src/tabPersistence.ts:194-233 | whatever JSON was stored, no pane is empty and every index is in range |
| WorkspaceReading.TabIsTold | src/tabPersistence.ts:111-158 | a stored tab is read if and only if kind, title and text are there in good form, and each further field exactly if it is in good form |
| WorkspaceReading.TabsAreTold | src/tabPersistence.ts:184-192 | of a list of tabs the readable ones are read, in order |
| WorkspaceReading.ListIsOnePane | src/tabPersistence.ts:194-233 | the older form, a bare list of tabs, becomes one pane with the first tab active |
| Workspace.TabRoundTrip | src/tabPersistence.ts:129-158 | a valid tab survives being stored and read back, every field included |
| Workspace.StoreRoundTrip | src/tabPersistence.ts:194-254 | a normalized workspace is read back as it was stored |
| Workspace.NormalizeIsIdempotent | src/tabPersistence.ts:194-233 | normalizing what was normalized and stored changes nothing |
| Workspace.ActivePaneFollows | src/tabPersistence.ts:221-230 | the active pane stays active if it still has tabs, otherwise the position is cut to the panes left |
| Workspace.ActivePaneOfAny | src/tabPersistence.ts:221-230 | any other stored number stands for a whole position: fractions are cut, what is below 1 counts as the first, too large a number as one behind all panes; no number means the first |
| Workspace.MergeConserves | src/tabPersistence.ts:265-284 | saving with tabs kept aside saves the current tabs followed by the kept ones, leaves the session's panes in place and active, and makes no more than two panes out of fewer |
| Workspace.SplitUndoesMerge | src/tabPersistence.ts:265-318 | splitting the kept tabs out of the merged workspace returns the current one exactly, in every pane count, overflow and empty workspaces included |
| Workspace.SplitTakesOnlyKept | src/tabPersistence.ts:295-318 | from any saved workspace exactly the kept tabs are taken if they are its last panes or the last tabs of its last pane, and nothing otherwise; what is left is normal again |
| Workspace.SessionRoundTrip | src/tabPersistence.ts:235-318 | the same through saving and loading, and merging once more adds nothing |
| CloneTokens.Tokenize | src/tableClone.ts:37-106 | the loops return the token sequence of the text |
| CloneTokens.Lossless | src/tableClone.ts:36-106 | the token texts put together are the input, for every text and driver |
| CloneTokens.QuotedNameReadsBack | src/tableClone.ts:66-93 | a quoted name with doubled quotes is one token that holds exactly the name |
| CloneSpelling.SpelledIsRead | src/tableClone.ts:37-106 | whatever is spelled as a token of the driver (white space, comment, dollar quote, string, quoted name, word, single character), between any texts, is read as just that token with its kind, extent and name |
| CloneStatements.SplitStatements | src/tableClone.ts:109-130 | the loops return the trimmed non-empty pieces between separators |
| CloneStatements.StatementsKeepWork | src/tableClone.ts:109-130 | the statements hold exactly the tokens that do anything, in order, and none is empty |
| CloneNames.CandidatesDiffer | src/tableClone.ts:192-216 | numbered candidates are pairwise distinct even without case |
| CloneNames.UsedNames.CloneObjectName | src/tableClone.ts:192-216 | the search ends within used names plus two tries with the first free candidate, free whatever the case, and marks it used |
| CloneNames.CandidateFits | src/tableClone.ts:199-203 | a candidate is within the limit if and only if nothing had to be cut or the number left room |
| CloneNames.NameIsTold | src/tableClone.ts:179-216 | for every driver, name and try: the old table name in the name replaced by the new one or the new one appended, cut to what 63 or 64 characters leave beside the number of the try |
| CloneNames.NameFits | src/tableClone.ts:179-216 | for fewer than 10^61 used names the result is within the driver's limit |
| CloneSegments.CutIsSound | src/tableClone.ts:411-439 | the segments of a column list are balanced, have no comma outside parentheses, and joined again are the tokens read |
| CloneSegments.CutOfJoin | src/tableClone.ts:411-439 | balanced segments joined by commas are cut into just those segments |
| CloneSegments.DetachSelfForeignKeys | src/tableClone.ts:411-467 | the loops compute the detached definition and its ALTER statements |
| CloneSegments.DetachConserves | src/tableClone.ts:411-467 | kept and detached segments are together the segments there were; the new text is cut into the kept ones in order; detaching again finds nothing |
| CloneForeignKeys.SelfForeignKeyIsTold | src/tableClone.ts:439-456 | an entry is detached if and only if it reads `[constraint name] foreign … references table`, in capitals or not, with any gaps and comments, and the table's last part is the new table |
| CloneForeignKeys.AlterIsTold | src/tableClone.ts:456 | each detached entry is added by one statement with its text, without the white space around it |
| DdlCoalescer.Coalescer.Push | src/schemaDrift.ts:138-147 | a push replaces the key's timer, keeps at most the first 20 statements and sets the wait to the quiet time or what the deadline leaves |
| DdlCoalescer.Coalescer.Fire | src/schemaDrift.ts:129-135 | a timer that goes off hands over its key's burst once and forgets it |
| DdlCoalescer.StepKeepsInv | src/schemaDrift.ts:114-154 | every event keeps live timers and pending keys one to one, each due at quiet time or deadline |
| DdlCoalescer.StepDelivers | src/schemaDrift.ts:129-152 | each event moves statements from push to pending burst to flush without losing or doubling one, except a dispose, which drops the pending ones |
| DdlCoalescer.FireFlushes | src/schemaDrift.ts:129-135 | a timer that goes off flushes its key's whole burst, once, and no other key's |
| DdlCoalescer.EveryRunCoalesces | src/schemaDrift.ts:114-154 | on every timed run, disposes included, each key has at most one live timer, each flush comes exactly when its burst was due with its first 20 statements in order, and since the last dispose flushed bursts followed by the pending one are the statements pushed |
| DdlCoalescer.DisposeStopsAll | src/schemaDrift.ts:149-152 | disposing leaves no live timer and nothing pending, and flushes nothing |
| DdlCoalescer.NothingAfterDispose | src/schemaDrift.ts:149-152 | on every run nothing is flushed and no timer set after a dispose until something is pushed |
| DdlCoalescer.NoTextIfBlank | src/schemaDrift.ts:98-105 | a flush carries no text exactly when all its statements are blank |
| DdlCoalescer.TextIsTold | src/schemaDrift.ts:98-105 | otherwise it is the first twenty statements that are not blank, in order, a line each, trimmed and ended by `;` |
| Scrubber.SpreadPositions | src/timelapseScrubber.ts:30-44 | the two passes over the array compute the specified positions |
| Scrubber.SpreadKeepsGap | src/timelapseScrubber.ts:30-44 | positions stay on the track with neighbours at least the gap apart when there is room, and the fallback after the backward pass is never taken |
| Scrubber.SpacedIsKept | src/timelapseScrubber.ts:30-44 | where there is room, ticks that already keep the gap are not moved at all |
| Scrubber.TooManyTicks | src/timelapseScrubber.ts:30-44 | without room the ticks are equally spaced over the whole track |
| Scrubber.SpreadIsIdempotent | src/timelapseScrubber.ts:30-44 | spreading spread positions moves nothing |
| Scrubber.TicksAreApart | src/timelapseScrubber.ts:46-72 | for any generations ticks are on the track in strict order, and up to fifty of them keep the minimum gap |
| Scrubber.RawPositionsAreTold | src/timelapseScrubber.ts:46-72 | before spreading ticks stand in proportion to their times if all can be read and differ, else equally spaced, one alone in the middle |
| Scrubber.HeightsAreTold | src/timelapseScrubber.ts:46-72 | heights are in proportion to row counts, in the middle if these are the same |
| Scrubber.NearestStep | src/timelapseScrubber.ts:75-87 | the loop returns the first of the nearest selectable ticks, or none if none is selectable |
| Savepoints.SavedKeeps | src/savepoints.ts:23-25 | a new savepoint stands above all others and keeps their data and order, replaced or shadowed |
| Savepoints.DroppedIsGone | src/savepoints.ts:23-25 | where a new savepoint takes the place of the old one, just the old one is gone |
| Savepoints.RollbackKeepsInv | src/savepoints.ts:28-31 | rolling back to an offered name restores the data it was last made at and keeps panel and server in step |
| Savepoints.ReleaseKeepsInv | src/savepoints.ts:34-37 | releasing an offered name keeps panel and server in step |
| Savepoints.PanelIsCut | src/savepoints.ts:28-37 | a rollback cuts the panel behind the newest entry of the name, a release before it, and a name not offered changes nothing |
| Savepoints.OfferedIsAccepted | src/savepoints.ts:18-37 | from the start of a transaction, over every sequence of operations on offered names, on MySQL, PostgreSQL and SQLite, each is accepted, and the offered names are distinct and stand in the server's order |
| Savepoints.PanelIsServer | src/savepoints.ts:13-37 | with generated names, where a release drops what is newer, the panel lists exactly the server's savepoints in order after every run |
| Savepoints.ReleaseKeepsOthers | src/savepoints.ts:34-37 | where a release keeps what is newer, every other savepoint of the server stays as it was |
| Savepoints.GeneratedNamesDiffer | src/savepoints.ts:13-16 | generated names of different counters differ even without case, so names compared without case are the same as the model compares |

## Left out

- React components, hooks, themes, translations, settings, IPC, local storage, notifications, updater and keyring: user interface and plumbing.
- Text beyond ASCII: UTF-16 units, full case folding, U+0085, U+FEFF and exotic white space; number formatting and JavaScript's floating-point precision.
- Regular expressions: keyword tests are word-boundary predicates on masked text; target names of danger findings are not modelled.
- DangerTheorems.ReadOnlyIsSafe: the gate's remaining refusing tests (denied functions, locking clauses and hints, sequence advances) are one arbitrary predicate that can only refuse, so the theorem holds for any choice of them.
- StoreProtocol: symbolic links, permissions, directory discovery and time stamps in names; a thread's steps are atomic as listed, and a crash drops its process's locks.
- KeysetRequests.RunFollowsRequests: rows that change while they are paged through, a server that lists tied rows differently from query to query, and tables whose rows repeat in full.
- Keyset.ConditionMeansAfter: cell values are integers; collations and typed literals are an order on them.
- StreamFlusher: callbacks that push again while they run, and clocks that go backwards.
- LogStore: two instances appending to one file, UTF-8 decoding of what is read, and failures to open the log at start.
- LogStore.ReadDuringEvents: a program that restarts while another instance reads.
- RefreshBuilder: hashes of keys and rows stand for the values themselves; the check that columns and keys are unchanged and the snapshot store with its limits.
- RefreshPatch.PatchAgreesWithDiff: repeated primary keys, for which the source sends later rows as added; rebuilding the rows is proved for them too.
- TimelapseDml: quoting of identifiers and rendering of the values in statements as text; how the backend computes the difference, which is taken as faithful.
- TimelapseScript.ScriptReadsAsWritten: the text of statements is any rendering whose statements, read alone, are one statement that ends what it begins; line breaks are line feeds, as in the mask.
- Workspace: the check on query builder snapshots is an arbitrary predicate; the order of fields in stored JSON.
- CloneSpelling.SpelledIsRead: comments, strings and names that are never closed.
- CloneSegments: rewriting names in CREATE TABLE and CREATE INDEX, PostgreSQL's own cloning path and INSERT column lists; the calling function that joins the parts is not part of this model.
- StreamFlusher.AppliedWithinInterval: timers that come late, for which no bound on the delay holds.
- DdlCoalescer.EveryRunCoalesces: timers that come late.
- Scrubber: exact reals stand for floating-point numbers.
- Savepoints: errors for missing savepoints; names are the generated `sp_<counter>`, and a name used twice is covered as a defence; each server keeps or drops later savepoints on release, and the theorem holds for both.
