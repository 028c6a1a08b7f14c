# Libation automated backup runner and scan account selection, in Dafny

This project models two parts of Libation, an audiobook library manager.

**The automated backup runners** (`BackupRunner`, `BackupSingle`, `BackupLoop` in
`ProcessorAutomationController.cs`). A runner hands library books to a processing
stage: download-and-decrypt plus PDF, a PDF download alone, or an MP3 conversion.
When a book fails, the runner builds a diagnostic message. That message is the
stage's errors joined with `"\r\n"`, or an exception's message, `"\r\n|\r\n"` and its
stack trace. The runner then shows a details block: title, id, and the author and
narrator names cut to 50 characters. Last, it asks the operator what to do.

- Abort stops the run.
- The variant's "skip file" answer sets the book's status to `Error` and writes one
  skip file holding the diagnostic message. For `BackupSingle` that answer is Yes;
  for `BackupLoop` it is Ignore.
- Any other answer skips the book this time only.

`BackupLoop` walks the books in iterator order. After each book it reads the form's
`IsDisposed` and `KeepGoing` flags. `RunBackupAsync` logs any exception that escapes
and always ends with `"DONE"`.

The stage, the message box, the skip-file writer and the form are oracles. Their
answers for each book are inputs: `ItemStep`, `FormFlags` and `Visit` in
`backup_runner.dfy`. Each operation has two parts:

- a pure specification function (`ProcessOneSpec`, `RunSingleSpec`, `RunLoopSpec`,
  `RunBackupSpec`) over a `World` value, which holds the statuses, the skip files,
  the stage invocations, the dialogs shown and the log;
- a method of class `Runner` that updates those fields step by step and is proved
  equal to its function.

The lemmas about the functions state the runner's promises.

**The `scan` command's account selection** (`ScanOptions.getAccounts` and the start
of `ProcessAsync`). With no nicknames, every stored account is selected. Otherwise
the command keeps the stored accounts whose name was given, in stored order, and
computes the nicknames not found with LINQ's `Except`. An empty selection sets exit
code `RunTimeError` and returns before any import. The intro line depends on whether
exactly one account was selected.

Files: `wrappers.dfy` (Option, Result), `data_layer.dfy` (book and status types),
`diagnostics.dfy` (truncation, details, error aggregation, trimming),
`backup_runner.dfy` (the runners), `scan_options.dfy` (account selection).

Two behaviours of the code worth noting:

- The skip file receives the diagnostic message (the errors, or the exception text).
  It does not receive the truncated author and narrator fields; those appear only
  in the dialog.
- A failure whose error list is empty does not produce an empty message. `Aggregate`
  throws on an empty list, and the same `catch` turns that exception into the
  message.

## Model

| member | source | states |
|---|---|---|
| `Diagnostics.Trunc` | LibationWinForms/BookLiberation/ProcessorAutomationController.cs:226-229 | result is never longer than 50; a null or blank field gives "[empty]"; a non-blank field is kept exactly when it is at most 50 long; a longer one keeps its first 47 characters and ends in "..." (50 in all) |
| `Diagnostics.TruncIdempotent` | LibationWinForms/BookLiberation/ProcessorAutomationController.cs:226-229 | truncating an already truncated field changes nothing |
| `Diagnostics.Aggregate` | LibationWinForms/BookLiberation/ProcessorAutomationController.cs:212 | the aggregate is missing (LINQ throws) exactly when the error list is empty |
| `Diagnostics.FoldLinesIsJoin` | LibationWinForms/BookLiberation/ProcessorAutomationController.cs:212 | the left fold of `Aggregate` equals the right-nested join of the same errors |
| `Diagnostics.AggregateJoinsInOrder` | LibationWinForms/BookLiberation/ProcessorAutomationController.cs:212 | a non-empty error list aggregates to its errors in order, separated by "\r\n" |
| `Diagnostics.SplitJoinLines` | LibationWinForms/BookLiberation/ProcessorAutomationController.cs:212 | when no error holds a carriage return, splitting the message at "\r\n" gives back the errors |
| `Diagnostics.FaultTextRoundTrip` | LibationWinForms/BookLiberation/ProcessorAutomationController.cs:218 | when the exception message holds no carriage return, the text before the first "\r\n" bar "\r\n" separator is the message and everything after it is the stack trace, whatever the trace holds |
| `Diagnostics.Details` | LibationWinForms/BookLiberation/ProcessorAutomationController.cs:231-235 | the details block grows only with the title and the id: the author and narrator parts add at most 50 characters each |
| `Diagnostics.DetailsLines` | LibationWinForms/BookLiberation/ProcessorAutomationController.cs:231-235 | when no field holds a line break, the details block has exactly four lines: the title, the id, and the truncated author and narrator names |
| `Diagnostics.TrimEnd` | LibationWinForms/BookLiberation/ProcessorAutomationController.cs:251-255 | the result is a prefix of the input; it does not end in white space; only white space was removed |
| `Diagnostics.TrimStart` | LibationWinForms/BookLiberation/ProcessorAutomationController.cs:251-255 | the result is a suffix of the input; it does not start with white space; only white space was removed |
| `BackupRunner.CreateSkipFileResult` | LibationWinForms/BookLiberation/ProcessorAutomationController.cs:275-303 | the variant's skip-file answer is never Abort, so it never stops the run |
| `BackupRunner.Buttons` | LibationWinForms/BookLiberation/ProcessorAutomationController.cs:274-303 | each dialog offers its variant's skip-file answer; only the loop's dialog offers Abort |
| `BackupRunner.Decide` | LibationWinForms/BookLiberation/ProcessorAutomationController.cs:244-247 | total policy: abort exactly on Abort; skip permanently exactly on the variant's skip-file answer (Yes or Ignore); skip once on every other answer |
| `BackupRunner.SingleDialogNeverAborts` | LibationWinForms/BookLiberation/ProcessorAutomationController.cs:274-275 | no answer the Yes/No dialog offers stops the single runner |
| `BackupRunner.Prompt.Text` | LibationWinForms/BookLiberation/ProcessorAutomationController.cs:242 | the dialog text opens with the shared "An error occurred while trying to process this book." line and shows the details block right after its first line |
| `BackupRunner.SkipFileLogText` | LibationWinForms/BookLiberation/ProcessorAutomationController.cs:251-255 | the trimmed "skip file created" log line starts with "Created new 'skip' file" whatever the id, title and path hold, and has no white space at either end; when the path ends in a visible character it is exactly the header, then "[id] title", then the path, each on its own line |
| `BackupRunner.DecisionOutcome` | LibationWinForms/BookLiberation/ProcessorAutomationController.cs:244-258 | after the dialog: false exactly on Abort; the skip-file write's fault escapes exactly when the skip-file answer was given and the write failed; true otherwise |
| `BackupRunner.ItemOutcome` | LibationWinForms/BookLiberation/ProcessorAutomationController.cs:204-258 | a success always returns true; false exactly on a failure answered with Abort; a fault escapes exactly on a failure answered with the skip-file answer whose write failed |
| `BackupRunner.ErrorLines` | LibationWinForms/BookLiberation/ProcessorAutomationController.cs:209-210 | one error log line per error, in order |
| `BackupRunner.FailureReport` | LibationWinForms/BookLiberation/ProcessorAutomationController.cs:209-219 | the diagnostic message is the errors joined in order with "\r\n" when the list is not empty; for a thrown exception, or for the one `Aggregate` throws on an empty list, it is the message, a line break, a bar, a line break and the stack trace; each error, or the exception, is logged |
| `BackupRunner.Resolve` | LibationWinForms/BookLiberation/ProcessorAutomationController.cs:244-258 | after the dialog: status `Error` exactly on the skip-file answer; one skip file with title, id and message and the "Created new 'skip' file" log line when its write succeeds, only the status change when it fails; any other answer changes nothing; ends as `DecisionOutcome` says |
| `BackupRunner.ProcessOneSpec` | LibationWinForms/BookLiberation/ProcessorAutomationController.cs:198-259 | the stage is invoked once for the book; a success returns true with no dialog, status change, skip file or log line; a failure shows exactly one dialog, whose details fall back to "[Error retrieving details]" on a fault; it returns false exactly on Abort; status `Error` exactly on the variant's skip-file answer, with exactly one skip file when its write succeeds and none when it fails; other answers change neither; the log holds the errors, the "not processed" line and, after a written skip file, its log line |
| `BackupRunner.Runner.ProcessOne` | LibationWinForms/BookLiberation/ProcessorAutomationController.cs:198-259 | the new state and the result are those of `ProcessOneSpec` on the old state |
| `BackupRunner.RunSingleSpec` | LibationWinForms/BookLiberation/ProcessorAutomationController.cs:283-287 | a null book invokes no stage and changes nothing |
| `BackupRunner.Runner.RunSingle` | LibationWinForms/BookLiberation/ProcessorAutomationController.cs:283-287 | the new state and any escaping fault are those of `RunSingleSpec` |
| `BackupRunner.RunLoopSpec` | LibationWinForms/BookLiberation/ProcessorAutomationController.cs:308-329 | with no book left only the "Done" line is logged; the log and the dialogs shown only grow; an escaping fault leaves the "not processed" line last, never "Done" |
| `BackupRunner.Reach` | LibationWinForms/BookLiberation/ProcessorAutomationController.cs:311-325 | the loop hands at most as many books to the stage as the iterator yields, and at least one when there is one |
| `BackupRunner.LoopInvokesPrefixInOrder` | LibationWinForms/BookLiberation/ProcessorAutomationController.cs:311-315 | the stage is invoked on the first `Reach` books in iterator order, and on no later book |
| `BackupRunner.ReachIsFirstStop` | LibationWinForms/BookLiberation/ProcessorAutomationController.cs:313-325 | the loop stops at the first book after which it does not continue |
| `BackupRunner.LoopPrefix` | LibationWinForms/BookLiberation/ProcessorAutomationController.cs:311-313 | after k books that each continued, the stage invocations are those k books in order |
| `BackupRunner.LoopUnfolds` | LibationWinForms/BookLiberation/ProcessorAutomationController.cs:311-326 | a loop run equals the run of the remaining books from the state after the books that continued |
| `BackupRunner.LoopAbortStops` | LibationWinForms/BookLiberation/ProcessorAutomationController.cs:313-315 | after Abort on book k, no later book reaches the stage, no fault escapes, the last log line is the "not processed" error, not the "Done" line, and statuses and skip files are those the earlier books left |
| `BackupRunner.ProcessOneMarks` | LibationWinForms/BookLiberation/ProcessorAutomationController.cs:247-256 | one book sets its status to `Error` exactly when it failed and was answered with Ignore, and adds its one skip record exactly when that write succeeded |
| `BackupRunner.MarkErrorsMarks` | LibationWinForms/BookLiberation/ProcessorAutomationController.cs:247-249 | a product id some book marks ends as `Error`; every other id keeps its status or stays absent |
| `BackupRunner.LoopStatuses` | LibationWinForms/BookLiberation/ProcessorAutomationController.cs:308-329 | after a loop run the statuses are the old ones with exactly the reached books that failed and were answered with Ignore set to `Error`; the aborting book and the books never reached keep their status |
| `BackupRunner.LoopSkipFiles` | LibationWinForms/BookLiberation/ProcessorAutomationController.cs:308-329 | after a loop run the skip files are the old ones followed by one record per reached book answered with Ignore whose write succeeded, in iterator order |
| `BackupRunner.LoopFaultComesFromLastBook` | LibationWinForms/BookLiberation/ProcessorAutomationController.cs:311-313 | a fault escaping the loop is the skip-file write fault of the last book the loop reached, and none escapes otherwise |
| `BackupRunner.LoopDisposedStillLogsDone` | LibationWinForms/BookLiberation/ProcessorAutomationController.cs:317-328 | a disposed form stops the loop after the current book, and "Done. All books have been processed" is still the last log line |
| `BackupRunner.LoopKeepGoingClearedReturns` | LibationWinForms/BookLiberation/ProcessorAutomationController.cs:320-325 | a cleared keep-going flag stops the loop without the "Done" line; "'Keep going' is unchecked" is logged exactly when the box is unchecked |
| `BackupRunner.LoopExhausted` | LibationWinForms/BookLiberation/ProcessorAutomationController.cs:311-328 | when every book continues, all books reach the stage in order and the run ends with the "Done" line |
| `BackupRunner.ThreeBookLoop` | LibationWinForms/BookLiberation/ProcessorAutomationController.cs:244-258 | with the middle of three books failing: Abort never invokes the third book; Retry continues with no record and no status change; Ignore continues, sets the book's status to `Error` and writes one skip file |
| `BackupRunner.Runner.RunLoop` | LibationWinForms/BookLiberation/ProcessorAutomationController.cs:308-329 | the new state and any escaping fault are those of `RunLoopSpec` |
| `BackupRunner.RunBackupSpec` | LibationWinForms/BookLiberation/ProcessorAutomationController.cs:181-196 | the last log line is always "DONE"; a single run without a book only logs "DONE" |
| `BackupRunner.FaultLoggedBeforeDone` | LibationWinForms/BookLiberation/ProcessorAutomationController.cs:185-195 | for either runner, an escaping exception is logged just before "DONE", and the run keeps the runner's statuses, skip files and stage invocations |
| `BackupRunner.LoopFaultLoggedBeforeDone` | LibationWinForms/BookLiberation/ProcessorAutomationController.cs:185-195 | a loop run whose last reached book's skip-file write failed logs that fault just before "DONE" |
| `BackupRunner.Runner.RunBackup` | LibationWinForms/BookLiberation/ProcessorAutomationController.cs:181-196 | the new state is that of `RunBackupSpec` on the old state |
| `ScanOptions.WhereNamed` | LibationCli/Options/ScanOptions.cs:50 | every selected account is stored and named by a nickname |
| `ScanOptions.WhereNamedIsSubsequence` | LibationCli/Options/ScanOptions.cs:50 | the selection is a subsequence of the stored accounts |
| `ScanOptions.WhereNamedCounts` | LibationCli/Options/ScanOptions.cs:50 | each named stored account is selected as often as it is stored; no other account is selected |
| `ScanOptions.WhereNamedEmpty` | LibationCli/Options/ScanOptions.cs:50-54 | nothing is selected exactly when no stored account has a given name |
| `ScanOptions.GetAccounts` | LibationCli/Options/ScanOptions.cs:42-76 | no nicknames: all stored accounts unchanged; otherwise an account is selected exactly when it is stored and its name was given |
| `ScanOptions.GetAccountsSelectsInStoredOrder` | LibationCli/Options/ScanOptions.cs:50 | with nicknames given, the result keeps stored order and stored multiplicity of the named accounts |
| `ScanOptions.ExceptFrom` | LibationCli/Options/ScanOptions.cs:51 | the loop of `Except` yields no more elements than it is given, and only elements of the list that are not excluded |
| `ScanOptions.Except` | LibationCli/Options/ScanOptions.cs:51 | `first.Except(second)` holds exactly the elements of first not in second, each once |
| `ScanOptions.NotFound` | LibationCli/Options/ScanOptions.cs:51 | at most one entry per nickname; each reported nickname was given and names no selected account |
| `ScanOptions.ExceptFromMembers` | LibationCli/Options/ScanOptions.cs:51 | `Except` yields exactly the elements of the first list that are not excluded |
| `ScanOptions.ExceptFromDistinct` | LibationCli/Options/ScanOptions.cs:51 | `Except` yields each element once |
| `ScanOptions.NotFoundIsExactlyTheUnmatched` | LibationCli/Options/ScanOptions.cs:51 | the not-found list holds each given nickname that names no stored account, once; it shares no name with the found accounts |
| `ScanOptions.NatToString` | LibationCli/Options/ScanOptions.cs:32 | the printed count is a non-empty string of decimal digits with no leading zero |
| `ScanOptions.NatToStringRoundTrip` | LibationCli/Options/ScanOptions.cs:32 | the printed count reads back as the count |
| `ScanOptions.ProcessScan` | LibationCli/Options/ScanOptions.cs:17-33 | exits with `RunTimeError` exactly when the selection is empty, so no import follows; otherwise imports the selection, with the single-account intro exactly when one account is selected and the count intro otherwise |
| `ScanOptions.ScanExitsIffNothingSelected` | LibationCli/Options/ScanOptions.cs:19-54 | the command exits before importing exactly when no account is stored (no nicknames) or no stored account has a given name |

## Left out

- Logging goes through `LogMe` and Serilog and is wired to forms. It is modelled only as a ghost list of log events: no prefixes, no sinks.
- The message box, `AutomatedBackupsForm` (`Show`, `FinalizeUI`, `IsDisposed`, `KeepGoing`, `KeepGoingChecked`) and the dialog text are user interface. Their answers are oracle inputs. A dialog is recorded as its variant and details block; its full text is `Prompt.Text`.
- Dialog answers other than the buttons offered are not modelled: `None`, `OK` and `Cancel` are left out.
- `async`/`Task`, the background download thread, and the form factories `CreateStreamableProcessable` and `CreateStreamable` are concurrency and event wiring. They are not modelled.
- The stages (`BackupBook`, `DownloadDecryptBook`, `DownloadPdf`, `ConvertToMp3`) are opaque. So are `LibraryCommands.UpdateBook`, `AudibleFileStorage.Audio.CreateSkipFile` and `GetValidLibraryBooks`. Their sources are not part of this model.
- `BackupSingle` calls the stage's validating entry point (`ProcessSingleAsync`); `BackupLoop` calls the non-validating one (`ProcessBookAsync_NoValidation`). Both are the same oracle here.
- A stage's result is an oracle. The loop's books are the sequence its iterator yields. A status update writes `Error` into a status map keyed by product id.
- The skip-file write may fail with a fault. That fault is the only exception modelled after the dialog. Exceptions from `UpdateBook`, `MessageBox.Show`, the iterator or the form's properties are not modelled.
- `StatusHandler` is not part of this model. If its `IsSuccess` means "no errors", a failure with an empty error list cannot occur. The model still covers that case.
- `Diagnostics.Trunc`: a fault while building the details is an oracle flag. The model does not say which null reference raises it. `Truncate(47)` from Dinah.Core is taken to keep the first 47 characters. Lengths count Unicode scalar values, not UTF-16 code units, so they differ from .NET for characters outside the Basic Multilingual Plane.
- The line breaks inside verbatim string literals (the details block, the dialog texts, the skip-file log line) are "\n". That is what the source file holds.
- In `ScanOptions.cs`, the settings persister, `ApiExtended.CreateAsync`, `LibraryCommands.ImportAccountAsync` and the console output are network, settings and output I/O. They are not modelled. `AccountNicknames` is taken to be non-null.
- The `ExitCode` enumeration is not part of this model; only its `RunTimeError` member is represented.
