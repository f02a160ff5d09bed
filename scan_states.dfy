/**
 * The scan state and scan type enumerations of covscanhub/scan/models.py
 * and the classification sets built from them.
 */
module ScanStates {

  datatype ScanState =
    | Queued          // submitted, waiting for the scheduler
    | Scanning        // the task is running
    | NeedsInspection // finished with defects that need the owner's attention
    | Waived          // every defect was waived
    | Passed          // no new defects
    | Finished        // finished: USER and ERRATA_BASE scans only
    | Failed          // something went wrong
    | BaseScanning    // the child (base) scan is running
    | Canceled        // obsolete: a newer build was submitted
    | Disputed        // was waived, but one of its waivers was obsoleted
    | Init            // first, default state
    | BugConfirmed    // at least one group was marked as a bug

  datatype ScanType = Errata | ErrataBase | User | Rebase | NewPkg

  const InProgress: set<ScanState> := {Queued, Scanning, BaseScanning, Init}
  const FinishedStates: set<ScanState> :=
    {NeedsInspection, Waived, Passed, Failed, Canceled, Disputed, BugConfirmed}
  const FinishedWell: set<ScanState> := {NeedsInspection, Waived, Passed, Disputed, BugConfirmed}
  const FinishedBad: set<ScanState> := {Failed, Canceled}
  const Processed: set<ScanState> := {Passed, Waived}

  /** The types of scans that are diffed against a base and waived by users. */
  const TargetTypes: set<ScanType> := {Errata, Rebase, NewPkg}

  predicate CanHaveBase(t: ScanType) { t in {Errata, Rebase} }
  predicate IsRebaseScan(t: ScanType) { t == Rebase }
  predicate IsNewPkgScan(t: ScanType) { t == NewPkg }
  /** Named "is_errata_scan" in the source, but true of every target type. */
  predicate IsErrataScan(t: ScanType) { t in TargetTypes }
  predicate IsErrataBaseScan(t: ScanType) { t == ErrataBase }
  predicate IsUserScan(t: ScanType) { t == User }

  /** How the classification sets relate to each other. */
  lemma StateSetRelations()
    ensures FinishedWell !! FinishedBad
    ensures FinishedWell + FinishedBad == FinishedStates
    ensures InProgress !! FinishedStates
    ensures Processed <= FinishedWell
    ensures Finished !in FinishedStates && Finished !in FinishedWell && Finished !in FinishedBad
    ensures forall s: ScanState :: s in InProgress || s in FinishedStates || s == Finished
  {
  }

  /** Every type is either a target, a base scan or a user scan; only target types can have a base. */
  lemma ScanTypeClassification(t: ScanType)
    ensures IsErrataScan(t) <==> !IsErrataBaseScan(t) && !IsUserScan(t)
    ensures CanHaveBase(t) ==> IsErrataScan(t)
    ensures IsNewPkgScan(t) ==> IsErrataScan(t) && !CanHaveBase(t)
    ensures IsRebaseScan(t) ==> CanHaveBase(t)
  {
  }
}
