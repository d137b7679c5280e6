# Crew time report: persistence, save ordering and export rules

This project models the core of a browser application that records the daily
on/off times of a wildland fire crew (a "crew time report", CTR) and exports
them to an Excel template, a fillable PDF and a printable page. The model
covers these parts:

- **Save coordinator** (`SaveCoordination`). A single-flight save machine with
  a FIFO queue and a shared retry counter. It retries three transient error
  messages.
- **Record repositories.** There are two:
  - `TrackingService`: the change-tracking repository, with a payload-carrying
    change log and a pending-patch table;
  - `StableService`: the simplified repository.

  Both use the shared record vocabulary in `Records` and the date-range keys
  in `DateRanges`.
- **Lifecycle gate** (`Lifecycle`): the database manager's four-field state
  machine.
- **Forward propagation** (`ChangePropagation`): the scan of later dates with
  its equality gate and stop rule, plus the fuzzy `valuesMatch` predicate.
- **Undo history** (`UndoHistory`): a bounded history with a cursor.
- **Export and editing rules**:
  - military-time parsing and hour totals (`ExcelTemplate`);
  - the Excel row placement and the import/export round trip (`Worksheet`,
    `ExcelMapping`);
  - the PDF field names and values (`PdfFields`, `Remarks`);
  - the printed page (`PrintView`);
  - the editing rules of the main table (`MainTableRules`).

`Types` holds the entities (`Day`, `CrewMember`, `CrewInfo`, the checkbox
states). `Strings` holds the JavaScript string operations the code relies on:
`split`, `trim`, `\s`, `indexOf`, `includes`, ASCII case mapping and the
default `sort` order.

The modelling follows these conventions:

- **Async steps.** Each `await` is one atomic step, and there is a single
  sequential trace.
- **No real environment.** Clocks (`Date.now`), the outcome of opening the
  database and the answers of the store are inputs.
- **IndexedDB tables** are maps and sequences.
- **Mutable objects are classes**: the coordinator, both repositories, the
  database manager and the undo manager. Their methods are proved against
  pure functions of the old state, and the properties are lemmas about those
  functions.

Retries follow src/utils/saveCoordinator.ts:19,66: a save is attempted
once and retried up to three more times (`maxRetries = 3`). The retry
counter is shared across requests and reset only by a successful save
(line 56) or by `resetRetryCount` (line 123).

Three defects of the code are recorded under "## Findings". For each, a
member models the code as written and the class members follow the
intended behaviour:

- **Nested `finally` blocks after a retry.** `SaveCoordinator.Resume` and
  `Finish` run one `finally` per request. The code's nested unwinding is
  `UnwindAsWritten`, with `RetryUnwindStartsTwoSaves` and the lemmas next
  to it.
- **The readiness call.** `saveCoordinator.ts` calls
  `stableCTRService.isDatabaseReady()`, but `StableCTRService` defines no
  such method. As written, every attempt throws a TypeError that is never
  retried (`EveryAttemptFailsAsWritten`, `SaveAsWritten`). The class takes
  the readiness answer as an input of each attempt instead.
- **The deletion log key.** `CTRDataServiceWithTracking.DeleteRecord` and
  `DeleteEffect` log every deletion under a generated id. The code logs it
  under the record's own id (`DeletedAsWritten`, `DeleteEffectAsWritten`,
  `SecondDeleteUnloggedAsWritten`).

The checkbox click follows the same pattern: the saved states are
`CheckboxSavePayload`, and the code as written is `SavedChecksAsWritten`.

## Model

| member | source | states |
|---|---|---|
| Types.SetFlag | src/components/MainTable.tsx:573 | setting one checkbox option changes that option and no other |
| Strings.Split | src/db/dexieDatabase.ts:268-269 | `split(sep)` pieces re-join to the input, none contains the separator, and each cut is at the leftmost occurrence (the first occurrence in a piece followed by the separator is that separator) |
| Strings.SplitTwo | src/db/dexieDatabase.ts:268-269 | a string splits into exactly two pieces iff the separator occurs and does not occur again after its first occurrence |
| Strings.IndexOf | src/utils/fillExcelTemplate.ts:113 | the first occurrence of a pattern, or none when it never occurs |
| Strings.Trim | src/utils/changePropagate.ts:12 | `trim()` is a slice of the input with only white space before and after it; it is empty exactly for all-white-space input and otherwise starts and ends with a non-space |
| Strings.ToUpper | src/components/MainTable.tsx:1294 | `toUpperCase()` maps each character, keeping the length |
| Strings.NatToStringInjective | src/utils/pdfFieldMapper.ts:75-79 | distinct row numbers give distinct decimal texts |
| Strings.SortKeys | src/db/stableDexieService.ts:40 | `.sort()` of the stored keys: strictly ascending, exactly the keys, one each |
| Strings.Insert | src/db/stableDexieService.ts:40 | inserting into a sorted sequence keeps it sorted and adds exactly the new element |
| Strings.LexLeTotal | src/db/stableDexieService.ts:40 | the default sort order compares any two strings |
| Strings.LexLeAntisymmetric | src/db/stableDexieService.ts:40 | strings ordered both ways are equal |
| Strings.LexLeTransitive | src/db/stableDexieService.ts:40 | the default sort order is transitive |
| DateRanges.RejoinIdentity | src/db/dexieDatabase.ts:268-269 | splitting a key on ' to ' and joining the two dates gives the key back iff it contains ' to ' exactly once |
| DateRanges.SplitRangeKey | src/db/dexieDatabase.ts:134 | when the first date contains no space at all and the second contains no " to ", the key built from them splits back into exactly those two dates (a first date such as "x to" is not covered: "x to to y" splits at the first " to ") |
| DateRanges.DraftKeyRejoin | src/db/dexieDatabase.ts:268-269 | the key 'draft' is rewritten as 'draft to undefined' |
| DateRanges.DraftKeySplit | src/db/dexieDatabase.ts:268-269 | splitting 'draft' gives 'draft' as the first date and `undefined` as the second |
| Records.NextVersion | src/db/stableDexieService.ts:11-12 | the written version is 1 for a new key and above the stored version otherwise |
| Records.WriteType | src/db/stableDexieService.ts:25-29 | a write is logged as update iff the key was stored, never as delete |
| Records.Without | src/db/stableDexieService.ts:54 | deleting a key removes exactly that key and keeps every other record |
| Records.LatestUnique | src/db/stableDexieService.ts:68-75 | the latest modification time of the records (0 when empty) is unique |
| Records.LatestModifiedOf | src/db/stableDexieService.ts:68-75 | the scan returns a stored lastModified that no other stored one exceeds, or 0 for an empty store |
| StableService.WritesKeepStoreValid | src/db/stableDexieService.ts:11-54 | saves and deletes keep every record under its own key and the log ids numbered |
| StableService.SaveVersionAndLog | src/db/stableDexieService.ts:11-29 | a save stores the data with version old+1 (or 1) and appends one entry for its key, update iff the key existed |
| StableService.SaveOnlyTouchesItsKey | src/db/stableDexieService.ts:15-22 | a save changes no other key |
| StableService.RepeatedSavesVersion | src/db/stableDexieService.ts:11-29 | n saves to one key raise its version by n and append n entries, all updates after the first |
| StableService.FreshKeySaves | src/db/stableDexieService.ts:11-29 | n saves to a fresh key leave version n, n new entries, the first a create |
| StableService.DeleteTwiceLogsTwice | src/db/stableDexieService.ts:46-54 | two deletes of one key log two delete entries and leave the key absent |
| StableService.GetAfterDelete | src/db/stableDexieService.ts:32-54 | after a delete the key is absent |
| StableService.StableCTRService.constructor | src/db/stableDexieService.ts:5 | the service starts over whatever well-formed records and change log the persisted database holds |
| StableService.StableCTRService.SaveRecord | src/db/stableDexieService.ts:6-30 | the tables become the save of the old tables; a failed database access changes nothing |
| StableService.StableCTRService.GetRecord | src/db/stableDexieService.ts:32-35 | the stored record of the key, or none |
| StableService.StableCTRService.GetAllDateRanges | src/db/stableDexieService.ts:37-41 | the stored date ranges, strictly ascending, each once |
| StableService.StableCTRService.DeleteRecord | src/db/stableDexieService.ts:43-55 | the tables become the delete of the old tables (always logged) |
| StableService.StableCTRService.GetDatabaseStats | src/db/stableDexieService.ts:57-77 | record count, log length and the latest modification time or 0 |
| TrackingService.HooksAgreeWithSave | src/db/dexieDatabase.ts:50-59 | the creating and updating hooks assign the same version as `saveRecord` |
| TrackingService.KeyTaken | src/db/dexieDatabase.ts:327-333 | a log key is taken iff some entry was stored under it |
| TrackingService.MergeOverwrites | src/db/dexieDatabase.ts:266 | the flush merge lets present patch fields win, keeps id and version, and is idempotent |
| TrackingService.RemoveId | src/db/dexieDatabase.ts:276 | deleting a pending entry by id removes exactly the entries with that id |
| TrackingService.SaveKeepsPending | src/db/dexieDatabase.ts:131-162 | a save leaves the pending table alone |
| TrackingService.FlushEmptiesPending | src/db/dexieDatabase.ts:263-277 | flushing the pending snapshot empties the pending table |
| TrackingService.FlushOneEffect | src/db/dexieDatabase.ts:264-276 | a patch of an absent record is dropped; a present one is merged and saved under the same key with version+1 |
| TrackingService.DraftPatchSavedElsewhere | src/db/dexieDatabase.ts:267-269 | a patch for 'draft' is saved under 'draft to undefined' |
| TrackingService.SaveVersionAndLog | src/db/dexieDatabase.ts:134-155 | a save stores the data with the next version and logs create/update with its payload, unless the log refuses the add |
| TrackingService.DeletedAsWritten | src/db/dexieDatabase.ts:194-200 | a deletion as written logs the record under the record's own id |
| TrackingService.SecondDeleteUnloggedAsWritten | src/db/dexieDatabase.ts:194-200 | as written, save, delete, save, delete on a fresh key logs only three entries: the second deletion is lost |
| TrackingService.SecondDeleteLogged | src/db/dexieDatabase.ts:194-200 | with deletions logged under generated ids the same four calls log four entries, the last a `Delete` |
| TrackingService.DeleteEffect | src/db/dexieDatabase.ts:194-202 | the corrected deletion: deleting an absent key changes nothing; a present key is removed after one delete entry, under a generated id, with the old record |
| TrackingService.DeleteEffectAsWritten | src/db/dexieDatabase.ts:194-202 | as written: a present key is removed, and its delete entry, keyed by the record's own id, is logged only if no entry holds that id yet |
| TrackingService.InsertByTime | src/db/dexieDatabase.ts:217-218 | inserting keeps newest-first order and adds exactly one entry |
| TrackingService.SortNewestFirst | src/db/dexieDatabase.ts:217-218 | `reverse().sortBy('timestamp')` yields the entries newest first, a permutation |
| TrackingService.Select | src/db/dexieDatabase.ts:214-216 | a filter keeps exactly the entries the condition accepts, with their counts |
| TrackingService.CTRDataServiceWithTracking.constructor | src/db/dexieDatabase.ts:94-97 | the service starts over whatever well-formed tables the persisted database holds, records, change log and pending patches alike, and records the outcome of opening it |
| TrackingService.CTRDataServiceWithTracking.EnsureDB | src/db/dexieDatabase.ts:106-128 | operations fail iff the opening failed, with its error |
| TrackingService.CTRDataServiceWithTracking.SaveRecord | src/db/dexieDatabase.ts:131-162 | the tables become the save of the old tables |
| TrackingService.CTRDataServiceWithTracking.LogChange | src/db/dexieDatabase.ts:323-337 | one entry appended unless the add is refused or the key is taken; errors swallowed |
| TrackingService.CTRDataServiceWithTracking.GetRecord | src/db/dexieDatabase.ts:165-174 | the stored record of the key, or none |
| TrackingService.CTRDataServiceWithTracking.GetAllDateRanges | src/db/dexieDatabase.ts:177-187 | the stored date ranges, strictly ascending |
| TrackingService.CTRDataServiceWithTracking.DeleteRecord | src/db/dexieDatabase.ts:190-207 | the tables become the corrected deletion of the old tables, with the log entry under a generated id |
| TrackingService.CTRDataServiceWithTracking.GetChangeHistory | src/db/dexieDatabase.ts:210-223 | exactly the entries of that date range, newest first |
| TrackingService.CTRDataServiceWithTracking.GetChangesSince | src/db/dexieDatabase.ts:226-239 | exactly the entries strictly after the timestamp, newest first |
| TrackingService.CTRDataServiceWithTracking.TrackFieldChange | src/db/dexieDatabase.ts:242-254 | logs one update entry with field, old and new value |
| TrackingService.CTRDataServiceWithTracking.FlushEntry | src/db/dexieDatabase.ts:264-276 | one flush step on the head of the pending table |
| TrackingService.CTRDataServiceWithTracking.SavePendingChanges | src/db/dexieDatabase.ts:257-282 | all pending patches flushed in order and the pending table emptied |
| TrackingService.CTRDataServiceWithTracking.AddPendingChange | src/db/dexieDatabase.ts:285-297 | appends one pending patch with the next id, records and log unchanged |
| TrackingService.CTRDataServiceWithTracking.GetPendingChangesCount | src/db/dexieDatabase.ts:300-309 | the number of pending patches |
| TrackingService.CTRDataServiceWithTracking.ClearPendingChanges | src/db/dexieDatabase.ts:312-320 | empties the pending table, nothing else |
| TrackingService.CTRDataServiceWithTracking.GetDatabaseStats | src/db/dexieDatabase.ts:340-370 | the three counts and the latest modification time or 0 |
| Lifecycle.NoWindowThrowsFirst | src/db/databaseManager.ts:85-87 | without a window `getDatabase` throws before any state changes |
| Lifecycle.ReadyReturnsDatabase | src/db/databaseManager.ts:94-96 | initialised with a handle and no error: the handle is returned, nothing changes |
| Lifecycle.SettleEffect | src/db/databaseManager.ts:141-150 | success sets initialised, clears the error and is ready; failure records the error and nulls db and initPromise |
| Lifecycle.CloseEffect | src/db/databaseManager.ts:155-163 | closing an open db clears all four fields; otherwise nothing changes |
| Lifecycle.ResetClearsError | src/db/databaseManager.ts:177-181 | after reset error and initPromise are null and `getDatabase` no longer throws |
| Lifecycle.CallersShareInitialisation | src/db/databaseManager.ts:98-103 | n callers while not initialised all await the same initialisation; at most one is started |
| Lifecycle.FailureIsSticky | src/db/databaseManager.ts:89-92 | after a failure every later call throws that error (or the no-window error) |
| Lifecycle.DatabaseManager.constructor | src/db/databaseManager.ts:67-74 | all four fields empty |
| Lifecycle.DatabaseManager.GetDatabase | src/db/databaseManager.ts:83-104 | one `getDatabase` step |
| Lifecycle.DatabaseManager.InitializeDatabase | src/db/databaseManager.ts:106-120 | starts a numbered initialisation and changes no field |
| Lifecycle.DatabaseManager.SettleInitialization | src/db/databaseManager.ts:121-152 | the settling of that initialisation with the given outcome |
| Lifecycle.DatabaseManager.CloseDatabase | src/db/databaseManager.ts:155-163 | the state after `closeDatabase` |
| Lifecycle.DatabaseManager.IsReady | src/db/databaseManager.ts:165-167 | initialised, a handle, and the handle open |
| Lifecycle.DatabaseManager.HasError | src/db/databaseManager.ts:169-171 | an initialisation error is recorded |
| Lifecycle.DatabaseManager.Reset | src/db/databaseManager.ts:177-181 | the state after `reset` |
| SaveCoordination.PermanentErrorNotRetried | src/utils/saveCoordinator.ts:62-83 | an error with none of the three messages is never retried |
| SaveCoordination.NotReadyIsTransient | src/utils/saveCoordinator.ts:44-47 | readiness false is retried iff the count is below 3 and never calls the store |
| SaveCoordination.EveryAttemptFailsAsWritten | src/utils/saveCoordinator.ts:44-83 | as written, the TypeError of the missing `isDatabaseReady` matches none of the transient patterns: never retried, no store call, reported with its message |
| SaveCoordination.SaveAsWritten | src/utils/saveCoordinator.ts:36-90 | as written, a save on an idle coordinator reports that it started and then `onError` with the TypeError; the retry count stays the same and the coordinator is idle again |
| SaveCoordination.SaveCoordinator.constructor | src/utils/saveCoordinator.ts:15-19 | idle, empty queue, count 0 |
| SaveCoordination.SaveCoordinator.SaveRecord | src/utils/saveCoordinator.ts:21-41 | while busy the request is only queued; otherwise it starts with a started message |
| SaveCoordination.SaveCoordinator.Begin | src/utils/saveCoordinator.ts:37-41 | both flags set together and the start reported |
| SaveCoordination.SaveCoordinator.Resume | src/utils/saveCoordinator.ts:44-90 | success resets the count; a transient failure below 3 retries the same request; otherwise the request finishes (error reported) and exactly one queued request starts |
| SaveCoordination.SaveCoordinator.Retry | src/utils/saveCoordinator.ts:65-77 | a retry increments the shared count, restarts the same request and reports it started; what is pending stays the same |
| SaveCoordination.SaveCoordinator.Finish | src/utils/saveCoordinator.ts:84-99 | flags cleared and the queue head, if any, started |
| SaveCoordination.SaveCoordinator.RunUntilIdle | src/utils/saveCoordinator.ts:93-99 | requests finish in FIFO order and none is lost or duplicated |
| SaveCoordination.SaveCoordinator.ClearQueue | src/utils/saveCoordinator.ts:110-112 | the queue is emptied, the save in flight kept |
| SaveCoordination.SaveCoordinator.ResetRetryCount | src/utils/saveCoordinator.ts:122-124 | the count becomes 0 and nothing else changes |
| SaveCoordination.AutoSkipNeverFires | src/utils/saveCoordinator.ts:31-35 | the save type is set iff a save is in progress, so the auto-save skip cannot fire |
| SaveCoordination.FinallyAsWritten | src/utils/saveCoordinator.ts:84-90 | one `finally`: flags cleared and one queued save started if any |
| SaveCoordination.UnwindAsWritten | src/utils/saveCoordinator.ts:74-90 | k nested `finally` blocks start min(k, queue) queued saves in order |
| SaveCoordination.RetryUnwindStartsTwoSaves | src/utils/saveCoordinator.ts:74-90 | one retry with two queued requests starts both |
| SaveCoordination.RetryUnwindClearsFlagOfRunningSave | src/utils/saveCoordinator.ts:74-90 | one retry with one queued request leaves it running with the flag cleared |
| SaveCoordination.RetryUnwindOverDrains | src/utils/saveCoordinator.ts:74-90 | any retried save with two queued requests starts at least two |
| ChangePropagation.MatchesWhenEqualOrCleanEqual | src/utils/changePropagate.ts:9-14 | identical values, and values equal after trimming and collapsing white space, match |
| ChangePropagation.ValuesMatchSymmetric | src/utils/changePropagate.ts:21-25 | `valuesMatch` is symmetric |
| ChangePropagation.BlankMatchesEverything | src/utils/changePropagate.ts:12-27 | an empty or white-space value matches every value |
| ChangePropagation.AbbreviationMatches | src/utils/changePropagate.ts:17-25 | when every lower-cased word of one value begins the word in the same position of the other, as "J Smith" does "John Smith", the values match in both orders |
| ChangePropagation.Updates | src/utils/changePropagate.ts:52-62 | a field is updated iff some change's old value equals its stored value |
| ChangePropagation.LogEntries | src/utils/changePropagate.ts:69-79 | entries only for fields in the update with a non-empty new value |
| ChangePropagation.ScanFrame | src/utils/changePropagate.ts:46-86 | the scan touches only visited dates and keeps the set of dates |
| ChangePropagation.UpdateGate | src/utils/changePropagate.ts:58-61 | a field no change's old value equals keeps its value |
| ChangePropagation.StopsAtFirstMismatch | src/utils/changePropagate.ts:80-84 | the first visited record with no match ends the scan; later dates are unchanged |
| ChangePropagation.ContinuesAfterMatch | src/utils/changePropagate.ts:65-67 | a record with a match is updated and the scan goes on |
| ChangePropagation.ClearingIsNotLogged | src/utils/changePropagate.ts:69-79 | changes that clear fields update them but log nothing |
| ChangePropagation.UnmatchedChangeOfUpdatedFieldIsLogged | src/utils/changePropagate.ts:69-79 | a change whose old value did not match is still logged when another change set its field |
| ChangePropagation.VisitDate | src/utils/changePropagate.ts:51-79 | one visited date yields its updates and log entries |
| ChangePropagation.CollectUpdates | src/utils/changePropagate.ts:52-62 | the inner loop builds exactly the updates of the matching changes, a later change overriding an earlier |
| ChangePropagation.CollectEntries | src/utils/changePropagate.ts:69-79 | the logging loop adds one entry per change whose field received a non-empty value, in order |
| ChangePropagation.ScanDates | src/utils/changePropagate.ts:46-86 | the date loop ends as the scan does, or at a failing write with the earlier writes kept |
| ChangePropagation.PropagateChangesForward | src/utils/changePropagate.ts:34-91 | visits exactly the later dates ascending; the result is the scan, or the scan up to a failing write, without rollback |
| UndoHistory.MemberUnchangedMeansEqual | src/utils/undoManager.ts:63-82 | a member reported unchanged is equal |
| UndoHistory.CheckboxUnchangedMeansEqual | src/utils/undoManager.ts:97-100 | checkbox states reported unchanged are equal |
| UndoHistory.SignificantIffVisibleDiffers | src/utils/undoManager.ts:56-113 | a change is significant iff the data, header, checkboxes or entries differ |
| UndoHistory.NoChangeFromItself | src/utils/undoManager.ts:56-113 | no state differs significantly from itself, and the check is symmetric |
| UndoHistory.Pushed | src/utils/undoManager.ts:27-45 | later states dropped, the new state last, at most 50 kept |
| UndoHistory.PushThenUndo | src/utils/undoManager.ts:136-143 | undo after a push returns the state before it |
| UndoHistory.UndoManager.constructor | src/utils/undoManager.ts:23-25 | one state, cursor 0, cannot undo |
| UndoHistory.UndoManager.PushState | src/utils/undoManager.ts:27-45 | the history becomes the push of the old one and the cursor its last index |
| UndoHistory.UndoManager.RecordChange | src/utils/undoManager.ts:115-130 | pushes iff there is no current state or 500 ms passed and the change is significant |
| UndoHistory.UndoManager.CanUndo | src/utils/undoManager.ts:132-134 | the cursor is above 0 |
| UndoHistory.UndoManager.Undo | src/utils/undoManager.ts:136-143 | none at cursor ≤ 0; otherwise the cursor steps back and that state is returned, history unchanged |
| UndoHistory.UndoManager.Clear | src/utils/undoManager.ts:145-148 | empty history, cursor -1, no current state |
| UndoHistory.UndoManager.GetCurrentState | src/utils/undoManager.ts:150-155 | a state iff the cursor is non-negative |
| ExcelTemplate.ParseMilitaryTime | src/utils/fillExcelTemplate.ts:279-285 | parses iff four digits with hour ≤ 23 and minute ≤ 59; the value is below 1440 minutes |
| ExcelTemplate.ParseFormatted | src/utils/fillExcelTemplate.ts:279-285 | every minute of the day formats to a time that parses back to it |
| ExcelTemplate.FormatParsed | src/utils/fillExcelTemplate.ts:279-285 | every parseable time is the format of its value |
| ExcelTemplate.DayMinutes | src/utils/fillExcelTemplate.ts:268-273 | a day adds off − on only when both parse, below 1440 |
| ExcelTemplate.OvernightOrBlankAddsNothing | src/utils/fillExcelTemplate.ts:271 | overnight or unparseable days add 0 |
| ExcelTemplate.DaysMinutesBound | src/utils/fillExcelTemplate.ts:267-274 | a member's days add at most 1439 each |
| ExcelTemplate.TotalMinutesBound | src/utils/fillExcelTemplate.ts:260-277 | the total is at most 1439 per day entry |
| ExcelTemplate.TotalMinutesAppend | src/utils/fillExcelTemplate.ts:264-275 | the total of two lists is the sum of their totals |
| ExcelTemplate.CalculateTotalMinutes | src/utils/fillExcelTemplate.ts:260-277 | the nested loops compute the total |
| ExcelTemplate.FirstYear | src/utils/fillExcelTemplate.ts:109 | the leftmost run of four digits |
| ExcelTemplate.FormatDateWithTwoDigitYear | src/utils/fillExcelTemplate.ts:105-117 | '' stays '' |
| ExcelTemplate.YearFoundWhereMatched | src/utils/fillExcelTemplate.ts:109-113 | `replace` finds the matched year at the match position |
| ExcelTemplate.ShortensFirstYear | src/utils/fillExcelTemplate.ts:109-114 | the first four-digit run becomes its last two digits; length −2 |
| ExcelTemplate.NoYearUnchanged | src/utils/fillExcelTemplate.ts:116 | a string without four digits in a row is unchanged |
| ExcelTemplate.IsoDateShortened | src/utils/fillExcelTemplate.ts:105-117 | '2024-06-01' becomes '24-06-01' |
| ExcelTemplate.RowPlacement | src/utils/fillExcelTemplate.ts:189-223 | member idx at row 6+idx when not blank and idx < 20; every other cell unchanged |
| ExcelTemplate.NothingPastLastRow | src/utils/fillExcelTemplate.ts:194 | no member cell outside rows 6..25 is written |
| ExcelTemplate.FillTemplate | src/utils/fillExcelTemplate.ts:166-226 | the filled sheet is the header then the member rows; the total is computed |
| Worksheet.ReadCell | src/utils/excelMapping.ts:41-43 | an empty cell reads as '' |
| Worksheet.WithMemberCell | src/utils/excelMapping.ts:143-156 | a member row writes its name, class and present days' times, nothing else |
| ExcelMapping.RowsFromShape | src/utils/excelMapping.ts:83-117 | rows read in order from the start row up to row 25 or the first empty name, each non-empty with two dated days |
| ExcelMapping.ImportShape | src/utils/excelMapping.ts:79-117 | at most 20 members, row order, two days each |
| ExcelMapping.MapExcelToData | src/utils/excelMapping.ts:60-121 | the loop reads the header and exactly those rows |
| ExcelMapping.ReadRows | src/utils/excelMapping.ts:79-117 | the row loop pushes one member per row from row 6 until an empty name cell or row 25, exactly the rows of the reading function |
| ExcelMapping.RowOfMember | src/utils/excelMapping.ts:139-157 | member i is written at row 6+i with no cap; other cells unchanged |
| ExcelMapping.MapDataToExcel | src/utils/excelMapping.ts:123-158 | the loop writes the header, dates and every member row |
| ExcelMapping.MemberReadBack | src/utils/excelMapping.ts:97-112 | a written member reads back equal |
| ExcelMapping.ReadBack | src/utils/excelMapping.ts:83-117 | a sheet holding named members from row 6 on, then an empty name cell unless 20 rows are used, reads back as those members from row 6+k on |
| ExcelMapping.RoundTrip | src/utils/excelMapping.ts:60-158 | export then import gives back the header and every member, under the stated shape conditions |
| ExcelMapping.HeaderRoundTrip | src/utils/excelMapping.ts:60-78 | the four header strings read back from an export unchanged |
| ExcelMapping.MembersRoundTrip | src/utils/excelMapping.ts:79-158 | the member rows read back from an export as the exported members |
| Remarks.StatusLabel | src/utils/pdfFieldMapper.ts:23 | 'HOTLINE' iff hotline, 'Travel' otherwise |
| Remarks.CheckboxRemarks | src/utils/pdfFieldMapper.ts:27-38 | each text present iff its checkbox (Travel iff travel and hotline) |
| Remarks.CheckboxRemarksOrder | src/utils/pdfFieldMapper.ts:27-38 | the texts keep the fixed checkbox order |
| Remarks.RemarkList | src/utils/pdfFieldMapper.ts:27-43 | checkbox texts then the custom entries |
| Remarks.Take | src/utils/pdfFieldMapper.ts:48 | `slice(0, n)` keeps the first n |
| PdfFields.FieldNameInjective | src/utils/pdfFieldMapper.ts:9-90 | distinct fields never share a PDF field name |
| PdfFields.StatusRowText | src/utils/pdfFieldMapper.ts:24 | the status row starts with the label |
| PdfFields.RemarkRowField | src/utils/pdfFieldMapper.ts:48-52 | remark k goes to row k+2, other fields unchanged |
| PdfFields.ShownRemarks | src/utils/pdfFieldMapper.ts:48 | at most six remarks are shown |
| PdfFields.WithRowField | src/utils/pdfFieldMapper.ts:78-91 | one member writes only its own row's fields |
| PdfFields.RowFields | src/utils/pdfFieldMapper.ts:71-92 | row fields come from member idx at row number idx+1, skipping blank members |
| PdfFields.HeaderField | src/utils/pdfFieldMapper.ts:8-59 | no header or remark field without crew info; with it the header fields and the remark rows as described |
| PdfFields.NonRowField | src/utils/pdfFieldMapper.ts:71-92 | member rows write no header, date or remark field |
| PdfFields.RowField | src/utils/pdfFieldMapper.ts:71-92 | a row field is present iff its member exists, is not blank and has that day |
| PdfFields.HeaderFieldsSet | src/utils/pdfFieldMapper.ts:8-12 | with crew info the four header fields are set |
| PdfFields.RemarkFields | src/utils/pdfFieldMapper.ts:15-59 | row 1 starts with HOTLINE (hotline or no states) or Travel; rows 2.. hold the shown remarks; nothing else |
| PdfFields.DateFields | src/utils/pdfFieldMapper.ts:63-68 | DATE and DATE_2 iff the first member has that day, with its date |
| PdfFields.HeaderBlock | src/utils/pdfFieldMapper.ts:8-59 | the header-block statements build exactly the header and remark fields |
| PdfFields.AddRemarks | src/utils/pdfFieldMapper.ts:48-52 | the remark loop writes remark `index` to `lRfMARKSRow{index + 2}`, exactly the remark fields of the mapping function |
| PdfFields.AddRows | src/utils/pdfFieldMapper.ts:71-92 | the row loop writes exactly the fields of the non-blank members |
| PdfFields.MapToPDFFields | src/utils/pdfFieldMapper.ts:4-95 | the loops build the field map |
| PrintView.DropTwo | src/components/PrintableTable.tsx:20 | `slice(2)` |
| PrintView.FormatDate | src/components/PrintableTable.tsx:15-23 | '' stays ''; a string without exactly three '-' parts is unchanged |
| PrintView.FormatDateDropsTwo | src/components/PrintableTable.tsx:18-20 | with three parts the first two characters are dropped |
| PrintView.NoDashNoSplit | src/components/PrintableTable.tsx:18 | a string without '-' splits into itself |
| PrintView.SplitDate | src/components/PrintableTable.tsx:18 | 'Y-M-D' splits into its three parts |
| PrintView.ExcelShortensLeadingYear | src/utils/fillExcelTemplate.ts:109-114 | a leading year is shortened by the Excel rule to s[2..] |
| PrintView.IsoDatesAgree | src/components/PrintableTable.tsx:15-23 | on 'YYYY-MM-DD' the print and Excel date formats agree and give 'YY-MM-DD' |
| PrintView.HeaderOf | src/components/PrintableTable.tsx:297-313 | an empty crew name prints the company default |
| PrintView.Listed | src/components/PrintableTable.tsx:333 | exactly the members with a name or class, at most as many as the input |
| PrintView.ListedAppend | src/components/PrintableTable.tsx:333 | the filter keeps order: listing a concatenation is listing each part, one after the other |
| PrintView.ListedCons | src/components/PrintableTable.tsx:333 | a first member is listed first exactly when it has a name or class, and then the rest are listed |
| PrintView.RowCells | src/components/PrintableTable.tsx:345-363 | every printed row has seven cells |
| PrintView.FillTimeTable | src/components/PrintableTable.tsx:336-367 | twenty rows, row i from listed member i |
| PrintView.PrintedRows | src/components/PrintableTable.tsx:349-362 | a row is filled iff its listed member has a name; class-only rows are blank |
| PrintView.Lines | src/components/PrintableTable.tsx:397-400 | one remark line per text |
| PrintView.RemarksBodyLayout | src/components/PrintableTable.tsx:381-412 | seven rows: blank, status (HOTLINE iff hotline), up to five remarks, empty padding |
| PrintView.PaddedLines | src/components/PrintableTable.tsx:381-412 | two head rows, the first five remarks in order and empty lines up to five make seven rows |
| PrintView.TravelRemarkNeedsHotline | src/components/PrintableTable.tsx:388 | a Travel remark appears iff travel and hotline are both set |
| MainTableRules.ValidateOnDigits | src/components/MainTable.tsx:1270-1289 | on digits: '' accepted, longer than 4 rejected, else only first > 2, '2' then > 3, or third > 5 rejected |
| MainTableRules.ValidatePrefixClosed | src/components/MainTable.tsx:1270-1289 | prefixes of accepted digit strings are accepted |
| MainTableRules.ValidateAgreesWithParse | src/components/MainTable.tsx:1270-1289 | on four digits the check accepts exactly the parseable times |
| MainTableRules.TypingValidTime | src/components/MainTable.tsx:249-251 | every prefix of a valid time passes the edit gate |
| MainTableRules.ToggleCheckbox | src/components/MainTable.tsx:556-578 | the option flips; travel on clears hotline and hotline on clears travel; others kept |
| MainTableRules.ToggleKeepsExclusive | src/components/MainTable.tsx:556-578 | the updater keeps travel and hotline from both being set |
| MainTableRules.SavedChecksDivergeAsWritten | src/components/MainTable.tsx:593-597 | the saved states differ from the displayed ones iff hotline is turned on while travel is set |
| MainTableRules.HotlineAfterTravelSavedAsBoth | src/components/MainTable.tsx:593-597 | travel then hotline: displays hotline alone, saves both |
| MainTableRules.CheckboxSavePayload | src/components/MainTable.tsx:591-599 | the saved crew info carries the displayed states and the entries, keeping exclusivity |
| MainTableRules.FindFFT | src/components/MainTable.tsx:1293-1296 | the first member whose class contains FFT1 or FFT2 |
| MainTableRules.CopyFFTTimes | src/components/MainTable.tsx:1291-1319 | no FFT member exactly when the first alert is the result; an unnamed first FFT member gives the second alert; otherwise rows up to the FFT row are kept and later rows get its days |
| MainTableRules.CopyFFTTimesIdempotent | src/components/MainTable.tsx:1291-1319 | copying twice equals copying once |
| MainTableRules.WithTime | src/components/MainTable.tsx:273-277 | sets one time, creating the day if missing, other days kept |
| MainTableRules.HandleTimeEdit | src/components/MainTable.tsx:248-290 | a rejected value changes nothing; otherwise the row, and for row 1 every named row below, get the time |
| MainTableRules.RowOneCopies | src/components/MainTable.tsx:280-289 | row 1's time reaches every named row from 2 on; row 0 and unnamed rows unchanged |
| MainTableRules.OtherRowsKeep | src/components/MainTable.tsx:272-277 | an edit on another row changes only that time |
| MainTableRules.NameEdited | src/components/MainTable.tsx:290-313 | sets the name or class of the row and changes no other row |
| MainTableRules.NamingBelowFFT | src/components/MainTable.tsx:295-311 | naming a row below the FFT row copies the FFT days, otherwise keeps its days |
| MainTableRules.AddEntry | src/components/MainTable.tsx:628-629 | the trimmed entry is appended iff non-empty and absent |
| MainTableRules.AddKeepsNoDuplicates | src/components/MainTable.tsx:628-629 | the list stays duplicate-free |
| MainTableRules.RemoveEntry | src/components/MainTable.tsx:673 | every copy of the entry removed, every other entry kept with its count |
| MainTableRules.RemoveAppend | src/components/MainTable.tsx:673 | the filter keeps order: removing from a concatenation removes from each part, one after the other |
| MainTableRules.RemoveCons | src/components/MainTable.tsx:673 | a first entry stays first exactly when it differs from the removed one, followed by what is kept of the rest |
| MainTableRules.RemoveAbsent | src/components/MainTable.tsx:673 | removing an absent entry changes nothing |
| MainTableRules.AddThenRemove | src/components/MainTable.tsx:628-673 | adding a new entry and removing it restores the list |

## Left out

- React rendering, hooks, effects, notifications and the HTML/DOM work of the print page. The print view is modelled as the header values, the 20 time-table rows and the remark rows, not as markup. The print page puts each remark into `innerHTML` unescaped (src/components/PrintableTable.tsx:399), so a custom entry containing markup is rendered as HTML; the model treats every remark as plain text.
- Promise interleaving across callers. The coordinator runs its queued save through an un-awaited `processQueue`; the model is one sequential trace of atomic steps.
- Timer delays. These are the retry back-off and the database manager's DOM and 100 ms waits. `Date.now` is an input.
- The outcome of every Dexie operation beyond what the inputs model. Inputs cover: the database opening, the change-log `add` being refused, and a store write that throws during propagation. Index ordering is not modelled.
- `getChangeHistory`/`getChangesSince`: equal-timestamp order. Only newest-first order and the exact multiset of entries are stated, because `sortBy` has no specified order for ties.
- Floating-point hour totals and `toFixed(2)`. Totals are integer minutes. `calculateTotalHours` in src/utils/timeCalculations.ts is not part of this model, so the PDF and print totals are a text input. The total-hours cell C30 is not written; `FillTemplate` returns the total instead.
- ExcelJS, fetch, sheet protection, column widths, and rich-text or date cell typing in `getMergedCellValue`. A sheet is a map from cell to text.
- 'Data must be an array' in `fillExcelTemplate`: the type of the input already guarantees an array.
- Letter case: only ASCII case mapping is modelled for `toUpperCase`/`toLowerCase`.
- `Strings.LexLe` compares characters by code point. JavaScript's default `sort()` compares UTF-16 code units, so the two orders differ for characters outside the Basic Multilingual Plane (U+1F600 sorts before U+FF01 in JavaScript, after it here).
- CTRDataServiceWithTracking.DeleteRecord: logs the deletion under a generated id, the intended behaviour, not under the record's own id as the code does; a repeated deletion of a re-created key, which the code leaves unlogged, is logged here. The code as written is `DeletedAsWritten`, about which `DeleteEffectAsWritten` and `SecondDeleteUnloggedAsWritten` are proved.
- SaveCoordinator.Resume: takes the readiness answer as an input. As written the readiness call always throws, which `SaveAsWritten` models. `MissingReadinessMessage` is the TypeError text V8 gives for an unbundled module; a bundler may rename the callee in that text.
- JavaScript array holes:
  - `WithTime`: a day past the end of a member's days is created together with the days between, each dated from the table's days and with blank times. The source leaves holes there.
  - `HandleTimeEdit`: an edit may target an existing row or the one just after the last; a row further out would leave holes.
- `HandleTimeEdit`: the shallow copy in `handleCellEdit` shares row objects with the previous state, so the source also mutates the old state in place. The model returns the new sequence only.
- `handleCellEdit` (src/components/MainTable.tsx:237-354) neither saves nor propagates: its `if (selectedDate)` block (327-352) works out the old value and the change type and only logs the would-be change (338). Saving happens in `handleCellBlur` (MainTable.tsx:422) and the other handlers (588, 637, 680), through `SaveCoordination`. Nothing in src/ calls `propagateChangesForward` (src/utils/changePropagate.ts:34), so `ChangePropagation` models a function the app never calls.
- `handleAddEntry`/`handleRemoveCustomEntry`/`handleCheckboxChange`: the save call itself (the coordinator) and the date-range text of the request are not repeated here. For the checkbox click, the saved crew information is modelled.
- `copyFFTTimes`: the two alerts are the error messages of the result.
- `handleNextEntry` date arithmetic, which depends on JavaScript `Date` and the time zone.
- ChangePropagation.PropagateChangesForward: assumes the `dates`, `tableData` and `changes` tables that src/utils/changePropagate.ts:40,47,66,71 read and write. The code cannot run as written: src/db/dexieDatabase.ts:67 declares `db` with `let` and does not export it, and the schema at src/db/dexieDatabase.ts:41-45 defines only `ctrRecords`, `changeLog` and `pendingChanges`, so the import finds no `db`, and even with one, `db.dates` names no table; a failure of that first access is rethrown at src/utils/changePropagate.ts:87-90.
- ChangePropagation: `CellChange.oldValue` and `newValue` are strings here, where src/types/CTRTypes.ts:28-32 also allows booleans, objects and arrays. Lost with that: reference comparison of objects and arrays by `===` (src/utils/changePropagate.ts:58), and the truthiness test at line 70 skipping the log entry for `false` as it does for the empty string.
- ChangePropagation.PropagateChangesForward: one call has one timestamp `now` for every log entry, where the code reads `Date.now()` once per entry (src/utils/changePropagate.ts:76).
- CTRDataServiceWithTracking.SavePendingChanges: one call has one timestamp `now` and one change-log outcome `logStored` for every flushed entry, where the code's inner `saveRecord` reads the clock and adds to the log anew for each entry (src/db/dexieDatabase.ts:265-271).
- Migration utilities, fallback services, service worker, the debug and test components, and icon scripts are outside the modelled core.

## Findings

| source | as written | input that shows it | evidently intended | confidence | as-written member | corrected member |
|---|---|---|---|---|---|---|
| src/utils/saveCoordinator.ts:74-90 | after a retried save returns, the outer frame's `finally` also clears both flags and calls `processQueue` again | once the readiness call exists (as written it throws, see the last row): request A fails with 'Database is not ready' once, then succeeds, while B and C are queued: B and C both start, and the flag is cleared while C runs | each finished request clears the flags and starts exactly one queued request | high, not executed | SaveCoordination.RetryUnwindStartsTwoSaves | SaveCoordination.SaveCoordinator.Resume |
| src/components/MainTable.tsx:593-597 | the saved checkbox states flip the option but do not clear travel when hotline is turned on | travel set, hotline clicked: the screen shows hotline only, the save records travel and hotline | the save records the same states the updater displays | high, not executed | MainTableRules.HotlineAfterTravelSavedAsBoth | MainTableRules.CheckboxSavePayload |
| src/db/dexieDatabase.ts:197 | the deleted record, including its `id`, is spread into the change-log row, so the row is keyed by the date range instead of the auto-increment id | save, delete, save, delete on one key: the second delete's log `add` hits the first delete's key, the error is swallowed and the deletion goes unlogged | every deletion logs one entry under a generated id | medium, not executed | TrackingService.SecondDeleteUnloggedAsWritten | TrackingService.SecondDeleteLogged, TrackingService.DeleteEffect, TrackingService.CTRDataServiceWithTracking.DeleteRecord |
| src/utils/saveCoordinator.ts:44 | `stableCTRService.isDatabaseReady()` is called, but `StableCTRService` (src/db/stableDexieService.ts:5-78) defines no such method, so the call throws a TypeError whose message contains none of the transient patterns | any save on an idle coordinator: it reports that it started, then `onError` with 'stableCTRService.isDatabaseReady is not a function'; the store is never called and nothing is retried | the readiness check answers, so a ready database is written and a not-ready one is retried | high, not executed | SaveCoordination.SaveAsWritten | SaveCoordination.NotReadyIsTransient |
