/**
 * The hub's database as an object: the Scan methods of
 * covscanhub/scan/models.py and the handlers of
 * covscanhub/scan/xmlrpc_helper.py as methods that update its tables step
 * by step. Each method is proved to leave the tables exactly as the
 * corresponding function of modules Scans and Cascade says.
 */
module Hub {
  import opened Wrappers
  import opened ScanStates
  import opened Scans
  import opened Cascade
  import opened CascadeProperties
  import Kobo

  class Hub {
    /** The Scan, Task and ScanBinding rows (bindings are held in the scans). */
    var scans: map<ScanId, Scan>
    var tasks: map<TaskId, Kobo.Task>
    /** Bus messages, task cancellations and result creations performed so far. */
    var log: seq<Effect>
    /** The SEND_BUS_MESSAGE application setting. */
    const sendBusMessage: bool
    /** The next auto-increment scan id. */
    var nextScanId: nat

    function State(): Store
      reads this
    {
      Store(scans, tasks, log)
    }

    ghost predicate Valid()
      reads this
    {
      Wf(State()) && forall id :: id in scans ==> id < nextScanId
    }

    constructor(sendBus: bool)
      ensures Valid() && sendBusMessage == sendBus
      ensures scans == map[] && tasks == map[] && log == [] && nextScanId == 0
    {
      scans := map[];
      tasks := map[];
      log := [];
      sendBusMessage := sendBus;
      nextScanId := 0;
    }

    /** A step that keeps the shape of the store keeps Valid. */
    lemma KeepsValid(st0: Store, ids: nat)
      requires Wf(st0) && SameShape(st0, State()) && nextScanId == ids
      requires forall id :: id in st0.scans ==> id < ids
      ensures Valid()
    {
      SameShapeWf(st0, State());
    }

    /** Scan.scan_state_notice: posts the notice of the scan's current state, if any. */
    method ScanStateNotice(id: ScanId)
      requires id in scans
      modifies this
      ensures scans == old(scans) && tasks == old(tasks) && nextScanId == old(nextScanId)
      ensures log == old(log) + Notice(scans[id], id, sendBusMessage)
    {
      var scan := scans[id];
      var key := if scan.state in InProgress then "unfinished" else "finished";
      if IsErrataBaseScan(scan.scanType) {
        return;
      }
      if sendBusMessage {
        log := log + [BusMessage(scan.state, id, key)];
      }
    }

    /** Scan.set_state. */
    method SetState(id: ScanId, s: ScanState)
      requires id in scans
      modifies this
      ensures State() == SetStateSpec(old(State()), id, s, sendBusMessage)
      ensures nextScanId == old(nextScanId)
    {
      if s == scans[id].state {
        return;
      }
      scans := scans[id := scans[id].(state := s)];
      ScanStateNotice(id);
    }

    /** Scan.enable_last_successfull: walks the child chain from `id` and enables the first well-finished scan. */
    method EnableLastSuccessful(id: ScanId)
      requires ChildOrdered(scans) && id in scans
      modifies this
      ensures State() == EnableLastSuccessfulSpec(old(State()), id)
      ensures nextScanId == old(nextScanId)
    {
      var lastFinished: Option<ScanId> := Some(id);
      while lastFinished.Some?
        invariant scans == old(scans) && tasks == old(tasks) && log == old(log)
        invariant lastFinished.Some? ==> lastFinished.value in scans
        invariant FirstWell(scans, id) == if lastFinished.Some? then FirstWell(scans, lastFinished.value) else None
        decreases if lastFinished.Some? then lastFinished.value + 1 else 0
      {
        var cur := lastFinished.value;
        if scans[cur].state in FinishedWell {
          scans := scans[cur := scans[cur].(enabled := true)];
          break;
        }
        lastFinished := scans[cur].child;
      }
    }

    /** Scan.clone_scan: saves a copy of scan `id` under a fresh id. `now` is the clock. */
    method CloneScan(id: ScanId, base: Option<ScanId>, now: int) returns (newId: ScanId)
      requires Valid() && id in scans && (base.Some? ==> base.value in scans)
      modifies this
      ensures Valid()
      ensures newId == old(nextScanId) && newId !in old(scans)
      ensures scans == old(scans)[newId := Clone(old(scans)[id], base, now)]
      ensures tasks == old(tasks) && log == old(log)
    {
      var scan := Clone(scans[id], base, now);
      newId := nextScanId;
      nextScanId := nextScanId + 1;
      scans := scans[newId := scan];
      assert ScanLinksOk(State(), newId);
      forall x | x in scans ensures ScanLinksOk(State(), x) {
        if x != newId {
          assert ScanLinksOk(old(State()), x);
        }
      }
      forall t | t in tasks ensures TaskLinksOk(State(), t) {
        assert TaskLinksOk(old(State()), t);
      }
    }

    /**
     * Scan.finalize. `hasBugs` is the has_bugs answer of the binding's
     * result, None when the result is NULL; an error leaves the tables as they were.
     */
    method Finalize(id: ScanId, hasBugs: Option<bool>) returns (err: Option<FinalizeError>)
      requires id in scans
      modifies this
      ensures FinalizeSpec(old(State()), id, hasBugs, sendBusMessage).Failure? ==>
        err == Some(FinalizeSpec(old(State()), id, hasBugs, sendBusMessage).error) && State() == old(State())
      ensures FinalizeSpec(old(State()), id, hasBugs, sendBusMessage).Success? ==>
        err.None? && State() == FinalizeSpec(old(State()), id, hasBugs, sendBusMessage).value
      ensures nextScanId == old(nextScanId)
    {
      if scans[id].binding.Unbound? {
        return Some(NoBinding);
      }
      if hasBugs.None? {
        return Some(NoResult);
      }
      if hasBugs.value {
        SetState(id, BugConfirmed);
      } else {
        SetState(id, Waived);
      }
      return None;
    }

    /** kobo's Task.cancel_task. */
    method CancelTaskRow(t: TaskId, recursive: bool)
      requires t in tasks
      modifies this
      ensures State() == CancelTask(old(State()), t, recursive)
      ensures nextScanId == old(nextScanId)
    {
      tasks := tasks[t := tasks[t].(state := Kobo.Canceled)];
      log := log + [TaskCancel(t, recursive)];
    }

    /** fail_scan. */
    method FailScan(id: ScanId, reason: Option<string>) returns (outcome: Outcome)
      requires Valid()
      modifies this
      ensures Valid() && nextScanId == old(nextScanId)
      ensures (State(), outcome) == FailSpec(old(State()), id, reason, sendBusMessage)
      decreases TaskRank(State(), id), 1
    {
      ghost var st0 := State();
      if id !in scans {
        return Raised(ScanDoesNotExist);
      }
      SetState(id, Failed);
      KeepsValid(st0, nextScanId);
      if IsErrataScan(scans[id].scanType) {
        outcome := FailTarget(id, reason);
      } else {
        outcome := FailBase(id);
      }
      SameShapeTrans(st0, SetStateSpec(st0, id, Failed, sendBusMessage), State());
      KeepsValid(st0, nextScanId);
    }

    /** fail_scan once a target scan is FAILED. */
    method FailTarget(id: ScanId, reason: Option<string>) returns (outcome: Outcome)
      requires Valid() && id in scans
      modifies this
      ensures Valid() && nextScanId == old(nextScanId)
      ensures (State(), outcome) == FailTargetSpec(old(State()), id, reason)
    {
      ghost var st0 := State();
      scans := scans[id := scans[id].(enabled := false)];
      ghost var st2 := State();
      assert st2 == Disable(st0, id);
      KeepsValid(st0, nextScanId);
      assert ScanLinksOk(st2, id);
      if Truthy(reason) {
        match scans[id].binding
        case Unbound =>
          return Raised(BindingDoesNotExist);
        case Bound(None) =>
          return Raised(NoneHasNoAttribute);
        case Bound(Some(t)) =>
          tasks := tasks[t := tasks[t].(result := FailedDueTo(reason.value))];
      }
      assert State() == RecordReason(st2, id, reason).0;
      KeepsValid(st0, nextScanId);
      WfChildOrdered(State());
      EnableLastSuccessful(id);
      KeepsValid(st0, nextScanId);
      return Done;
    }

    /** fail_scan once a scan that is not a target is FAILED: cancel the parent task, fail its scan. */
    method FailBase(id: ScanId) returns (outcome: Outcome)
      requires Valid() && id in scans
      modifies this
      ensures Valid() && nextScanId == old(nextScanId)
      ensures (State(), outcome) == FailBaseSpec(old(State()), id, sendBusMessage)
      decreases TaskRank(State(), id), 0
    {
      ghost var st0 := State();
      var parent := ParentTask(State(), id);
      if parent.Failure? {
        return Raised(parent.error);
      }
      var p := parent.value;
      CancelTaskRow(p, false);
      KeepsValid(st0, nextScanId);
      assert TaskLinksOk(st0, p);
      match tasks[p].scan
      case None =>
        return Raised(BindingDoesNotExist);
      case Some(s2) =>
        FailBaseStep(st0, id, sendBusMessage, p, s2);
        outcome := FailScan(s2, Some(BaseFailedReason));
    }

    /** cancel_scan_tasks. */
    method CancelScanTasks(t: TaskId)
      requires Valid() && t in tasks
      modifies this
      ensures Valid() && nextScanId == old(nextScanId)
      ensures State() == CancelTasksSpec(old(State()), t)
    {
      ghost var st0 := State();
      var task := tasks[t];
      if task.state in Kobo.Cancelable {
        CancelTaskRow(t, false);
        assert TaskLinksOk(st0, t);
        if task.parent.Some? {
          CancelTaskRow(task.parent.value, false);
        }
      }
      KeepsValid(st0, nextScanId);
    }

    /** cancel_scan: returns the scan as the handler holds it. */
    method CancelScan(id: ScanId) returns (r: Result<Scan, HubError>)
      requires Valid()
      modifies this
      ensures Valid() && nextScanId == old(nextScanId)
      ensures (State(), r) == CancelSpec(old(State()), id, sendBusMessage)
      decreases TaskRank(State(), id), 1
    {
      ghost var st0 := State();
      if id !in scans || scans[id].binding.Unbound? {
        return Failure(BindingDoesNotExist);
      }
      var held := scans[id].(state := Canceled);
      SetState(id, Canceled);
      KeepsValid(st0, nextScanId);
      match scans[id].binding.task
      case None =>
        return Failure(NoneHasNoAttribute);
      case Some(t) =>
        assert ScanLinksOk(st0, id);
        CancelUnfold(st0, id, sendBusMessage, t);
        CancelScanTasks(t);
        KeepsValid(st0, nextScanId);
        if IsErrataScan(held.scanType) {
          CancelTarget(id);
          r := Success(held);
        } else {
          var o := CancelBase(id, t);
          r := if o.Done? then Success(held) else Failure(o.error);
        }
        KeepsValid(st0, nextScanId);
    }

    /** cancel_scan for a target scan: disable it in the database, enable the last good scan. */
    method CancelTarget(id: ScanId)
      requires Valid() && id in scans
      modifies this
      ensures Valid() && nextScanId == old(nextScanId)
      ensures State() == CancelTargetSpec(old(State()), id)
    {
      ghost var st0 := State();
      scans := scans[id := scans[id].(enabled := false)];
      KeepsValid(st0, nextScanId);
      WfChildOrdered(State());
      EnableLastSuccessful(id);
      KeepsValid(st0, nextScanId);
    }

    /** cancel_scan for any other scan bound to task `t`: cancel the scan of the parent task. */
    method CancelBase(id: ScanId, t: TaskId) returns (outcome: Outcome)
      requires Valid() && id in scans && scans[id].binding == Bound(Some(t))
      modifies this
      ensures Valid() && nextScanId == old(nextScanId)
      ensures (State(), outcome) == CancelBaseSpec(old(State()), id, t, sendBusMessage)
      decreases TaskRank(State(), id), 0
    {
      ghost var st0 := State();
      assert ScanLinksOk(st0, id);
      assert TaskLinksOk(st0, t);
      match tasks[t].parent
      case None =>
        return Raised(NoneHasNoAttribute);
      case Some(p) =>
        assert TaskLinksOk(st0, p);
        match tasks[p].scan
        case None =>
          return Raised(BindingDoesNotExist);
        case Some(s2) =>
          assert TaskRank(st0, s2) == p + 1;
          var r := CancelScan(s2);
          outcome := if r.Success? then Done else Raised(r.error);
    }

    /**
     * finish_scan. `hasUnwaived` stands for get_unwaived_rgs of the created
     * results, `diffError` for the message of a ScanException raised by the diff.
     */
    method FinishScan(id: ScanId, t: TaskId, hasUnwaived: bool, diffError: Option<string>) returns (outcome: Outcome)
      requires Valid()
      modifies this
      ensures Valid() && nextScanId == old(nextScanId)
      ensures (State(), outcome) == FinishSpec(old(State()), id, t, hasUnwaived, diffError, sendBusMessage)
    {
      ghost var st0 := State();
      if id !in scans || scans[id].binding != Bound(Some(t)) {
        return Raised(BindingDoesNotExist);
      }
      assert ScanLinksOk(st0, id);
      var scan := scans[id];
      if tasks[t].state == Kobo.Failed || tasks[t].state == Kobo.Canceled {
        outcome := FailScan(id, Some(TaskFailedReason));
        return;
      }
      if IsErrataScan(scan.scanType) && scan.base.Some? && diffError.Some? {
        outcome := FailScan(id, diffError);
        return;
      }
      log := log + [ResultsCreated(id)];
      KeepsValid(st0, nextScanId);
      ghost var st1 := State();
      if IsErrataScan(scan.scanType) {
        if !hasUnwaived {
          SetState(id, Passed);
        } else {
          SetState(id, NeedsInspection);
        }
      } else if IsErrataBaseScan(scan.scanType) {
        SetState(id, Finished);
      }
      SameShapeTrans(st0, st1, State());
      KeepsValid(st0, nextScanId);
      return Done;
    }
  }
}
