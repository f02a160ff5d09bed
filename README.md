# Scan lifecycle of the covscan hub, in Dafny

This project models the scan lifecycle of the covscan hub (OpenScanHub). It
covers the scan states and types of `covscanhub/scan/models.py` and how a
scan changes state. It also models the event handlers of
`covscanhub/scan/xmlrpc_helper.py`:

- `finish_scan` turns a finished task into results and a final state;
- `fail_scan` and `cancel_scan` fail or cancel a scan, cascade from a base
  scan to the target scan that waits for it, and re-enable the last
  well-finished scan of a child chain;
- `cancel_scan_tasks` cancels a scan's tasks.

It also models the smaller helpers of the same file:

- the per-release deadline check `waived_on_time`;
- the per-release package flags;
- the release-specific scanning command;
- the parsing of the analyzer list.

The database is a `Store`. It holds a map of scans, a map of kobo tasks, and
a log of the effects the hub performs outside the database: bus messages,
task cancellations and result creations.

- Module `Scans` describes the store and its integrity (`Wf`). It also
  writes each Scan method as a function from the old store to the new one.
- Module `Cascade` does the same for the handlers. An exception is an
  outcome, and whatever was saved before the exception stays saved.
- Module `CascadeProperties` proves, over all stores, which states the handlers
  move scans and tasks to, and which scans they re-enable and leave alone.
- Class `Hub.Hub` holds the tables as fields. Its methods update them step by
  step, as the Python code does: a `while` loop walks the child chain, and
  fail and cancel recurse up the parent tasks. Each method is proved to leave
  the tables exactly as the matching function says.

The cascades terminate because ids are auto-increment. A scan's child (the
older scan it replaced) has a smaller id than the scan. A task's parent task
has a smaller id than the task. `Wf` states both facts, and the recursion
decreases on the task id.

The other modules are:

- `Overdue`: `waived_on_time`;
- `PackageAttributes`: the attribute table, a class whose `create_*` methods
  append or update rows;
- `AppSettings`: the relspec merge loop and the command fallback;
- `Analyzers`: `strip`, `re.split('[,:;]')` and `get_opts`.

## Model

| member | source | states |
|---|---|---|
| ScanStates.StateSetRelations | covscanhub/scan/models.py:48-80 | FINISHED_WELL and FINISHED_BAD are disjoint and together make FINISHED. IN_PROGRESS is disjoint from FINISHED. PROCESSED lies inside FINISHED_WELL. The base state FINISHED lies in none of FINISHED, FINISHED_WELL or FINISHED_BAD. Every state is in progress, finished, or FINISHED. |
| ScanStates.ScanTypeClassification | covscanhub/scan/models.py:86-103 | A type is a target exactly when it is neither ERRATA_BASE nor USER. Only ERRATA and REBASE can have a base, and both are targets. NEWPKG is a target without a base. |
| Scans.NoticeKey | covscanhub/scan/models.py:720-725 | The key is "unfinished" exactly for in-progress states and "finished" for all others. |
| Scans.Notice | covscanhub/scan/models.py:720-732 | At most one message. There is one exactly when the scan is not ERRATA_BASE and bus messages are on. The message names the scan and its current state. |
| Scans.SetStateSpec | covscanhub/scan/models.py:739-744 | Setting the current state again changes nothing and posts nothing. Otherwise only that scan's state changes, and the notice of the new state is posted. |
| Scans.SetStateIdempotent | covscanhub/scan/models.py:739-744 | A second set_state with the same state is a no-op. |
| Scans.ChildChain | covscanhub/scan/models.py:752-756 | The chain get_child_scan walks starts at the scan itself. Every scan on it exists and is no newer than the start. Each element's child is the next element, and the last element has no child. |
| Scans.FirstWell | covscanhub/scan/models.py:770-777 | The scan found exists, finished well, and is on or below the start. |
| Scans.FirstWellIsFirstOnChain | covscanhub/scan/models.py:770-777 | No scan is found exactly when no scan on the chain finished well. Otherwise the scan found is on the chain, and every scan before it did not finish well. |
| Scans.EnableLastSuccessfulSpec | covscanhub/scan/models.py:770-777 | Only the scan found changes, and only its enabled flag, which becomes true. Tasks and log are untouched. |
| Scans.EnableChangesAtMostOne | covscanhub/scan/models.py:770-777 | At most one scan changes and no state changes. A newly enabled scan finished well, so FAILED or CANCELED scans are never touched. |
| Scans.Clone | covscanhub/scan/models.py:701-718 | Type, nvr, tag, username and package are copied. An ERRATA_BASE clone has no base and is disabled. Any other clone is enabled with the given base. The clone starts in INIT with last access now. |
| Scans.FinalizeSpec | covscanhub/scan/models.py:788-797 | Line 793 raises when the scan has no binding (NoBinding) and when the binding has no result (NoResult); the store is then unchanged. Otherwise the scan ends BUG_CONFIRMED with bugs and WAIVED without. Both are well-finished states, and the scan counts as processed exactly without bugs. The scan keeps its enabled flag and every other field; other scans and all tasks are unchanged. The log gains exactly the state notice, and nothing when the state was already that one. |
| Cascade.FailSpec | covscanhub/scan/xmlrpc_helper.py:52-69 | fail_scan only changes scan states and enabled flags, task states and results, and appends to the log. Which states it moves to is proved in CascadeProperties. |
| Cascade.FailTargetSpec | covscanhub/scan/xmlrpc_helper.py:56-65 | The target branch only changes scan states and enabled flags, task states and results, and appends to the log. |
| Cascade.FailBaseSpec | covscanhub/scan/xmlrpc_helper.py:66-69 | The base branch, including its recursion, only changes scan states and enabled flags, task states and results, and appends to the log. |
| Cascade.Disable | covscanhub/scan/xmlrpc_helper.py:58-59 | Only the scan's enabled flag changes, to false. |
| Cascade.RecordReason | covscanhub/scan/xmlrpc_helper.py:61-63 | With a reason, "Scan failed due to: <reason>" becomes the result of the scan's task. It raises exactly when the binding or its task is missing. Without a reason nothing changes. Scans, log and task states never change. |
| Cascade.ParentTask | covscanhub/scan/xmlrpc_helper.py:66-68 | Resolves scanbinding.task.parent, and the parent found is older than the task. It fails exactly when a link is missing. |
| Cascade.CancelTask | covscanhub/scan/xmlrpc_helper.py:66 | kobo's cancel_task: the task ends CANCELED and the cancellation, with its recursive flag, is logged. |
| Cascade.CancelTasksSpec | covscanhub/scan/xmlrpc_helper.py:72-77 | A task in OPEN, FREE or CREATED is canceled, and so is its parent task, both non-recursively and both logged. A task in any other state leaves the store unchanged. No other task changes. |
| Cascade.CancelSpec | covscanhub/scan/xmlrpc_helper.py:80-91 | On success it returns the held scan object, CANCELED, with the enabled flag it was loaded with. Only the shape-preserving fields change. |
| Cascade.CancelTargetSpec | covscanhub/scan/xmlrpc_helper.py:84-88 | The target part of cancel_scan changes only enabled flags: every scan keeps all its other fields, and tasks and log are unchanged. What it enables is in CascadeProperties.CancelTargetStops. |
| Cascade.CancelBaseSpec | covscanhub/scan/xmlrpc_helper.py:89-90 | The recursion to the parent task's scan only changes scan states and enabled flags, task states and results, and appends to the log. |
| Cascade.FinishSpec | covscanhub/scan/xmlrpc_helper.py:16-49 | finish_scan only changes scan states and enabled flags, task states and results, and appends to the log. |
| Cascade.FinishResults | covscanhub/scan/xmlrpc_helper.py:37-49 | Results are created first. A target scan then moves to NEEDS_INSPECTION with unwaived groups and to PASSED without. A base scan moves to FINISHED, and any other scan keeps its row. No task and no other scan changes. The log gains exactly the result creation, then the notice of the new state when the state changed. |
| CascadeProperties.FailOnlyMovesToFailed | covscanhub/scan/xmlrpc_helper.py:52-69 | Over the whole cascade, scans only move to FAILED and tasks only to CANCELED. Only well-finished scans become enabled, and no results are created. |
| CascadeProperties.FailBaseOnlyMovesToFailed | covscanhub/scan/xmlrpc_helper.py:66-69 | The same, for the base branch that cancels the parent task and fails its scan. |
| CascadeProperties.FailTargetOnlyMovesToFailed | covscanhub/scan/xmlrpc_helper.py:56-65 | The same, for the target branch: disable, record the reason, enable the last good scan. |
| CascadeProperties.EnableMovesNothing | covscanhub/scan/models.py:770-777 | enable_last_successfull moves no state, touches no task or log, and enables only a well-finished scan. |
| CascadeProperties.FailMarksFailed | covscanhub/scan/xmlrpc_helper.py:52-55 | Whatever follows, the scan fail_scan was called on ends FAILED. |
| CascadeProperties.FailTarget | covscanhub/scan/xmlrpc_helper.py:54-65 | A failed target scan ends disabled, because FAILED is not well finished. With a reason and a task, the task result reads "Scan failed due to: <reason>". Without a reason no task changes. |
| CascadeProperties.FailTargetOfFailedScan | covscanhub/scan/xmlrpc_helper.py:56-65 | The same, for a target scan already in FAILED. |
| CascadeProperties.GoodBelow | covscanhub/scan/models.py:752-777 | The scan enable_last_successfull re-enables once the scan itself is no longer well finished: the first well-finished scan on the child chain below it. It exists, finished well and is older. |
| CascadeProperties.EnableAfterStop | covscanhub/scan/models.py:770-777 | When the scan is not well finished, enable_last_successfull enables GoodBelow, leaves the scan itself alone and changes no other scan. |
| CascadeProperties.FailTargetRestores | covscanhub/scan/xmlrpc_helper.py:56-65 | fail_scan of a target scan re-enables GoodBelow when the reason could be recorded, and changes no scan other than the failed one and GoodBelow. When recording the reason raises, only the failed scan changed. |
| CascadeProperties.FailTargetKeepsStopped | covscanhub/scan/xmlrpc_helper.py:57-65 | The target branch leaves a scan that is not well finished disabled and otherwise as it was. |
| CascadeProperties.FailTargetTasks | covscanhub/scan/xmlrpc_helper.py:57-65 | The tasks and the outcome of the target branch are exactly those of recording the reason. |
| CascadeProperties.FailCascadesToParent | covscanhub/scan/xmlrpc_helper.py:66-69 | For a non-target scan, the parent task ends CANCELED and its non-recursive cancel is logged. The parent task's scan ends FAILED. |
| CascadeProperties.FailNonTarget | covscanhub/scan/xmlrpc_helper.py:52-56 | A non-target scan is set FAILED and then goes down the base branch. |
| CascadeProperties.FailOfTarget | covscanhub/scan/xmlrpc_helper.py:52-65 | A target scan is set FAILED and then goes down the target branch. |
| CascadeProperties.FailBaseStep | covscanhub/scan/xmlrpc_helper.py:66-69 | One base step cancels the parent task and fails that task's scan with "Base scan failed.". That scan's task is older, which makes the recursion terminate. |
| CascadeProperties.CancelThenFail | covscanhub/scan/xmlrpc_helper.py:66-69 | After canceling task p and failing its scan, p is CANCELED, the cancel is in the log, and the scan is FAILED. |
| CascadeProperties.SetStateMovesTo | covscanhub/scan/models.py:739-744 | set_state moves only that scan, only to the new state, keeps the store well formed, enables nothing and creates no results. |
| CascadeProperties.CancelOnlyMovesToCanceled | covscanhub/scan/xmlrpc_helper.py:80-91 | Over the whole cascade, scans only move to CANCELED and tasks only to CANCELED. Only well-finished scans become enabled, and no results are created. |
| CascadeProperties.CancelRestOnlyMovesToCanceled | covscanhub/scan/xmlrpc_helper.py:83-90 | The same, for the target part and for the recursion to the parent task's scan. |
| CascadeProperties.CancelBaseOnlyMovesToCanceled | covscanhub/scan/xmlrpc_helper.py:89-90 | The same, for the recursion step. |
| CascadeProperties.CancelTasksMovesOnlyTasks | covscanhub/scan/xmlrpc_helper.py:72-77 | cancel_scan_tasks only moves tasks to CANCELED and logs only cancellations. |
| CascadeProperties.CancelTargetMovesNothing | covscanhub/scan/xmlrpc_helper.py:84-88 | Disabling the scan and enabling the last good one moves no state. |
| CascadeProperties.CancelPrefixMoves | covscanhub/scan/xmlrpc_helper.py:81-82 | Setting CANCELED and canceling the tasks keeps the store well formed and only moves states toward CANCELED. |
| CascadeProperties.CancelUnfold | covscanhub/scan/xmlrpc_helper.py:80-91 | For a bound scan with a task, cancel_scan runs the target part or the base cascade on the store left by set_state and cancel_scan_tasks. Success of the base part is success of the whole. |
| CascadeProperties.CancelBaseStep | covscanhub/scan/xmlrpc_helper.py:89-90 | One step cancels the scan of the parent task. That scan's task is older, which makes the recursion terminate. |
| CascadeProperties.CancelMarksCanceled | covscanhub/scan/xmlrpc_helper.py:80-82 | Once the binding exists, the scan always ends CANCELED. |
| CascadeProperties.CancelTarget | covscanhub/scan/xmlrpc_helper.py:80-91 | For a target scan, cancel_scan returns the held scan and leaves the scan disabled. A cancelable task ends CANCELED. |
| CascadeProperties.CancelTargetRestores | covscanhub/scan/xmlrpc_helper.py:80-88 | cancel_scan of a bound target scan re-enables GoodBelow and changes no scan other than the canceled one and GoodBelow. |
| CascadeProperties.CancelTargetStops | covscanhub/scan/xmlrpc_helper.py:84-88 | Once the scan is no longer well finished, the target part enables GoodBelow, leaves the scan disabled and changes no task and no other scan. |
| CascadeProperties.CancelCascadesToParent | covscanhub/scan/xmlrpc_helper.py:89-90 | For a non-target scan, the parent task's scan ends CANCELED. |
| CascadeProperties.FinishOnFailedTask | covscanhub/scan/xmlrpc_helper.py:21-24 | A FAILED or CANCELED task fails the scan and creates no results. A target scan's task result reads "Scan failed due to: Task failed.". |
| CascadeProperties.FinishOnDiffError | covscanhub/scan/xmlrpc_helper.py:26-35 | A diff error on a target scan with a base fails and disables the scan and creates no results. A non-empty message goes to the task result. |
| CascadeProperties.FinishOutcome | covscanhub/scan/xmlrpc_helper.py:37-49 | Results are created. A target scan ends PASSED exactly without unwaived groups and NEEDS_INSPECTION exactly with them. ERRATA_BASE ends FINISHED. A user scan is unchanged. No task, enabled flag or other scan changes. The log gains exactly the result creation and, when the state changed, its notice; for a user scan only the result creation. |
| CascadeProperties.FinishEndState | covscanhub/scan/xmlrpc_helper.py:16-49 | With a matching binding, a target ends PASSED, NEEDS_INSPECTION or FAILED. A base scan ends FINISHED or FAILED. Any other scan keeps its state or ends FAILED. |
| Hub.Hub.ScanStateNotice | covscanhub/scan/models.py:720-732 | Appends exactly the notice of the scan's current state and changes no table. |
| Hub.Hub.SetState | covscanhub/scan/models.py:739-744 | The tables end as Scans.SetStateSpec says. |
| Hub.Hub.EnableLastSuccessful | covscanhub/scan/models.py:770-777 | The loop over the child chain leaves the tables as Scans.EnableLastSuccessfulSpec says. |
| Hub.Hub.CloneScan | covscanhub/scan/models.py:701-718 | Saves Scans.Clone of the scan under the next fresh id and keeps the store well formed. Nothing else changes. |
| Hub.Hub.Finalize | covscanhub/scan/models.py:788-797 | When Scans.FinalizeSpec raises, the error is returned and no table changes. Otherwise the tables end as FinalizeSpec says. |
| Hub.Hub.CancelTaskRow | covscanhub/scan/xmlrpc_helper.py:66 | The tables end as Cascade.CancelTask says. |
| Hub.Hub.FailScan | covscanhub/scan/xmlrpc_helper.py:52-69 | Tables and outcome are those of Cascade.FailSpec, and the store stays well formed. |
| Hub.Hub.FailTarget | covscanhub/scan/xmlrpc_helper.py:56-65 | Tables and outcome are those of Cascade.FailTargetSpec. |
| Hub.Hub.FailBase | covscanhub/scan/xmlrpc_helper.py:66-69 | Tables and outcome are those of Cascade.FailBaseSpec. |
| Hub.Hub.CancelScanTasks | covscanhub/scan/xmlrpc_helper.py:72-77 | The tables end as Cascade.CancelTasksSpec says. |
| Hub.Hub.CancelScan | covscanhub/scan/xmlrpc_helper.py:80-91 | Tables and returned scan are those of Cascade.CancelSpec. |
| Hub.Hub.CancelTarget | covscanhub/scan/xmlrpc_helper.py:84-88 | The tables end as Cascade.CancelTargetSpec says. |
| Hub.Hub.CancelBase | covscanhub/scan/xmlrpc_helper.py:89-90 | Tables and outcome are those of Cascade.CancelBaseSpec. |
| Hub.Hub.FinishScan | covscanhub/scan/xmlrpc_helper.py:16-49 | Tables and outcome are those of Cascade.FinishSpec. |
| Overdue.OverduePeriod | covscanhub/scan/models.py:672-679 | The release's own period wins. A missing release falls back to the default, and a missing default raises. Any other lookup failure leaves the period unbound. |
| Overdue.WaivedOnTimeAsWritten | covscanhub/scan/models.py:661-683 | None exactly for FAILED and CANCELED scans. PASSED and WAIVED scans are on time whenever the period lookup does not raise. A period lookup that raises makes the whole call raise, and one that leaves `d` unbound raises the UnboundLocalError of line 681. For any other scan with a period `d` the answer is `last_access > now + d`. |
| Overdue.WaivedOnTime | covscanhub/scan/models.py:661-683 | The same contract, with the corrected comparison `now <= last_access + d` for a scan that still awaits waiving. |
| Overdue.RelspecOverridesDefault | covscanhub/scan/models.py:672-676 | The default period is ignored when the release has its own. |
| Overdue.AsWrittenIsOverdueAtOnce | covscanhub/scan/models.py:680-681 | Take a NEEDS_INSPECTION scan accessed at this moment, with a positive period. As written it is reported not on time; corrected it is on time. |
| Overdue.AsWrittenNeedsFutureAccess | covscanhub/scan/models.py:680-681 | As written, an unprocessed scan with a non-negative period is on time only if its last access lies in the future. |
| Overdue.OnTimeUntilDeadline | covscanhub/scan/models.py:661-683 | Corrected: on time at one moment implies on time at every earlier one. |
| Overdue.OnTimeBeforeDeadline | covscanhub/scan/models.py:661-683 | Corrected: a scan awaiting waiving is on time at every moment up to and including last_access + d. |
| Overdue.OverdueAfterDeadline | covscanhub/scan/models.py:661-683 | Corrected: a scan awaiting waiving is overdue at every moment after last_access + d. |
| PackageAttributes.MatchIndices | covscanhub/scan/models.py:417-424 | Exactly the indices of the rows matching package, release and key, in increasing order. |
| PackageAttributes.Get | covscanhub/scan/models.py:417-424 | DoesNotExist exactly when no row matches. A unique match exactly when one row matches, and it is that row. MultipleObjectsReturned exactly when two or more match. |
| PackageAttributes.Is | covscanhub/scan/models.py:439-444 | Succeeds exactly when the key matches; the answer is true exactly for the value "Y". Any other key raises ValueError. |
| PackageAttributes.Flag | covscanhub/scan/models.py:341-355 | The lookup never raises ValueError. Without a row it answers the package's own flag, with one row whether that row reads "Y", and with several it raises MultipleObjectsReturned. |
| PackageAttributes.IsBlocked | covscanhub/scan/models.py:341-347 | The same, for the BLOCKED key and Package.blocked. |
| PackageAttributes.IsEligible | covscanhub/scan/models.py:349-355 | The same, for the ELIGIBLE key and Package.eligible. |
| PackageAttributes.YesNo | covscanhub/scan/models.py:454 | The stored text is "Y" exactly for true. |
| PackageAttributes.NewBoolRoundTrip | covscanhub/scan/models.py:452-459 | Where no such attribute existed, the new row is the unique match and the lookup answers the flag stored. |
| PackageAttributes.MatchIndicesIgnoreValue | covscanhub/scan/models.py:471-473 | Rewriting a row's value does not change which rows match. |
| PackageAttributes.CreateEligibleRoundTrip | covscanhub/scan/models.py:465-474 | With the Y/N encoding on both paths, is_eligible afterwards answers the flag just stored. |
| PackageAttributes.CreateEligibleAsWrittenCreates | covscanhub/scan/models.py:465-470 | As written, the create path works: with no ELIGIBLE row before, is_eligible afterwards answers the flag. |
| PackageAttributes.CreateEligibleAsWrittenLosesFlag | covscanhub/scan/models.py:472 | As written, updating an existing attribute makes is_eligible answer False whatever the argument. |
| PackageAttributes.CreateEligibleRowsAsWritten | covscanhub/scan/models.py:465-474 | Fails exactly when several ELIGIBLE rows match. Otherwise it adds at most one row and changes no row but the matching one. Afterwards exactly one ELIGIBLE row matches: the appended one when none existed, else the existing one. A new row holds "Y"/"N", while an updated row holds the raw argument rendered "True"/"False". |
| PackageAttributes.CreateEligibleRows | covscanhub/scan/models.py:465-474 | The same shape. Afterwards exactly one ELIGIBLE row matches, the appended or the existing one, and it holds "Y"/"N" on both paths. |
| PackageAttributes.AttributeTable.CreateNewBool | covscanhub/scan/models.py:452-459 | Appends exactly one row, with "Y" for true and "N" for false. |
| PackageAttributes.AttributeTable.CreateBlocked | covscanhub/scan/models.py:461-463 | Appends and returns a new BLOCKED row for the package and release holding the flag ("Y" or "N"). If none existed before, is_blocked then answers the flag. If one existed, is_blocked then raises MultipleObjectsReturned. |
| PackageAttributes.AttributeTable.CreateEligibleAsWritten | covscanhub/scan/models.py:465-474 | The table ends as CreateEligibleRowsAsWritten says. It is unchanged on MultipleObjectsReturned. On success the row returned is the table's unique ELIGIBLE row for the package and release. |
| PackageAttributes.AttributeTable.CreateEligible | covscanhub/scan/models.py:465-474 | The table ends as CreateEligibleRows says, and is_eligible then answers the flag given. On success the row returned is the table's unique ELIGIBLE row for the package and release. |
| AppSettings.MergeAll | covscanhub/scan/models.py:1043-1055 | The merge fails exactly when some row is not JSON. |
| AppSettings.MergeAllLastWins | covscanhub/scan/models.py:1052-1054 | A release is in the merged relspec exactly when some row names it. Its command is that of the last row naming it. |
| AppSettings.MergeAllKeys | covscanhub/scan/models.py:1052-1054 | A release is in the merged relspec exactly when some row names it. |
| AppSettings.MergeAllLast | covscanhub/scan/models.py:1052-1054 | Finds the last row naming a merged release and shows the merged command is that row's. |
| AppSettings.MergeAllStep | covscanhub/scan/models.py:1052-1054 | The merge of a readable relspec is the merge of all rows but the last, updated with the last row. |
| AppSettings.MergeRelspec | covscanhub/scan/models.py:1043-1055 | The update loop yields MergeAll of the rows. |
| AppSettings.ScanningCommandFallback | covscanhub/scan/models.py:1063-1071 | The command of the last row naming the release wins. The default (or DoesNotExist) is used exactly when no row names it. |
| AppSettings.ScanningCommand | covscanhub/scan/models.py:1043-1071 | Raises ValueError exactly when some relspec row is not JSON. Raises DoesNotExist exactly when every row is readable, none names the release and the default row is missing. |
| AppSettings.SettingsScanningCommand | covscanhub/scan/models.py:1063-1071 | Returns the ScanningCommand answer. |
| Analyzers.Strip | covscanhub/scan/models.py:1114 | The result is a slice of the input that neither starts nor ends with whitespace. Everything cut off is whitespace. |
| Analyzers.SplitPieces | covscanhub/scan/models.py:1114 | There is one piece more than separators, and no piece contains ',', ':' or ';'. |
| Analyzers.SplitJoin | covscanhub/scan/models.py:1114 | Joining the pieces with the separators found gives the string back. |
| Analyzers.SelectedMembers | covscanhub/scan/models.py:1085-1096 | Exactly the enabled analyzers whose long option was asked for. |
| Analyzers.QualifyingIndices | covscanhub/scan/models.py:1085-1096 | The positions of analyzers that qualify, strictly increasing. |
| Analyzers.QualifyingIndicesComplete | covscanhub/scan/models.py:1085-1096 | Every qualifying position is among them. |
| Analyzers.SelectedInOrder | covscanhub/scan/models.py:1095-1096 | The selection is the qualifying analyzers in table order (Meta.ordering by id), each once: its k-th element is the analyzer at the k-th qualifying position. |
| Analyzers.FirstPath | covscanhub/scan/models.py:1100-1107 | The path of the first analyzer whose path is not "", even when that path is NULL. The 'path' key is never "". |
| Analyzers.BuildArgsMembers | covscanhub/scan/models.py:1121-1122 | Exactly the non-empty build_append values of the selected analyzers. |
| Analyzers.ArgIndices | covscanhub/scan/models.py:1121-1122 | The positions of selected analyzers with a non-empty build_append, strictly increasing. |
| Analyzers.ArgIndicesComplete | covscanhub/scan/models.py:1121-1122 | Every such position is among them. |
| Analyzers.BuildArgsInOrder | covscanhub/scan/models.py:1121-1122 | The arguments come in selection order, one per analyzer that has one. |
| Analyzers.OptsFor | covscanhub/scan/models.py:1114-1128 | no_coverity is set exactly when no name starts with "cov-". 'path' is FirstPath of the selection. 'args' is present exactly when BuildArgs of the selection is non-empty, and then is that list. |
| Analyzers.OptsDependOnNameSet | covscanhub/scan/models.py:1114-1117 | Two name lists with the same members give the same options. |
| Analyzers.GetOpts | covscanhub/scan/models.py:1106-1128 | For the raw request, stripped and split on ',', ':' and ';': no_coverity exactly when no piece starts with "cov-"; 'path' and 'args' as OptsFor states for those pieces. |

## Left out

- HTML rendering (`display_graph`, `display_scan_tree`, `get_latest_scans`, the `overdue` CSS property) produces markup, not state.
- Bus messages are abstract. The log records state, scan and key, not the qpid message or the ETMapping lookup. A missing ETMapping row, which would raise inside `scan_state_notice`, is not modelled. Nor is the ScanBinding.DoesNotExist that reading `self.scanbinding` (models.py:730) raises for an unbound scan when the bus is on and the scan is not ERRATA_BASE: `fail_scan` of a freshly cloned target scan, say, would stop after saving FAILED, while the model goes on to disable it and re-enable the last good scan.
- The SEND_BUS_MESSAGE setting is a constant of the `Hub` object. The `.upper() == "Y"` parsing of flag settings is not modelled.
- The services `prepare_and_execute_diff`, `create_results` and `get_unwaived_rgs` are parameters. `diffError` carries the message of a ScanException, and `hasUnwaived` carries the answer of get_unwaived_rgs. The result's `has_bugs()` is the parameter `hasBugs` of `Finalize`, None when the binding has no result.
- The clock is the `now` parameter.
- Pickle and JSON decoding of settings are left out. A relspec row arrives already decoded, or as None when it is not JSON. The overdue relspec arrives as None when reading it raised something other than KeyError.
- Django querysets, managers, `get_first_scan_binding`, `all_scans_in_release`, `ReleaseMapping.get_tag` and `is_actual` are ORM queries or foreign regex calls.
- `set_base`, `set_state_queued` and `set_state_bug_confirmed` are one-line wrappers of a field write or of `set_state`.
- `remove_duplicities` lives in a module that is not part of this model. `Analyzers.OptsDependOnNameSet` shows the options depend only on the set of names, so any de-duplication that keeps the set gives the same answer.
- Scans.ChildChain: `get_child_scan` is a reverse lookup. The model stores the child as a field that `Wf` ties to the child's `parent`, so one child per parent is an assumption. The MultipleObjectsReturned of two children is not modelled.
- The strict id order of child scans and parent tasks (`Wf`) is an assumption. It is what makes the chains finite. A cyclic chain in the database would make the Python loop or recursion run forever.
- Hub.Hub.CancelTaskRow: kobo's `cancel_task` is reduced to "state becomes CANCELED, the call is logged". Its own guards and its recursion into subtasks are not modelled.
- Each handler runs as one sequence of writes. Concurrent handlers and transaction rollback are not modelled.
- Cascade.CancelSpec: the base branch of cancel_scan converts a Failure of the recursive call into an outcome; the stale `enabled` flag of the returned scan object is stated, but the Python object identity is not.
- No WAIVED to DISPUTED transition is modelled; no code here performs it.
- Analyzers.Strip: only the ASCII whitespace of byte-string `strip()` is removed. Unicode whitespace is not.
- PackageAttributes.AttributeTable.CreateEligibleAsWritten: the argument is taken to be a Python bool, rendered "True"/"False" in the column. If callers pass "Y"/"N" strings instead, the update path is right but `create_new_bool` stores "Y" for both.
- The `logger.error` calls of `waived_on_time` and `PackageAttribute.eligible` write only to the log file and are left out.
- AppSettings.MergeAll: "the last row wins" follows the order of the rows as given. AppSettings has no Meta.ordering (models.py:949-975), so the database does not fix that order; the model takes it as a parameter.
- Overdue.WaivedOnTimeAsWritten: the overdue period is an integer number of seconds rather than a timedelta. A NULL `last_access` is an error (NoLastAccess), the TypeError Python 2 raises when comparing None with a datetime.

## Findings

| source | as written | input that shows it | evidently intended | confidence | as-written member | corrected member |
|---|---|---|---|---|---|---|
| covscanhub/scan/models.py:681 | `last_access > now + d`: on time only if the last access lies more than `d` in the future | a NEEDS_INSPECTION scan with `last_access == now` and `d = 7 days`: reported not on time | on time while `now <= last_access + d`. This assumes the stored WAIVER_IS_OVERDUE period is positive, as its name and use say; nothing in the settings code fixes its sign, and with a negative period line 681 would be right | not executed | Overdue.WaivedOnTimeAsWritten, Overdue.AsWrittenIsOverdueAtOnce | Overdue.WaivedOnTime, Overdue.OnTimeUntilDeadline |
| covscanhub/scan/models.py:472 | the update path stores the raw argument (a bool becomes "True"/"False"), while `_is` tests for "Y" | `create_eligible(pkg, rel, True)` with an ELIGIBLE row already present: `is_eligible` then answers False | store "Y"/"N" as `create_new_bool` does | not executed | PackageAttributes.CreateEligibleRowsAsWritten, PackageAttributes.CreateEligibleAsWrittenLosesFlag | PackageAttributes.CreateEligibleRows, PackageAttributes.CreateEligibleRoundTrip |
