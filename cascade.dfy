/**
 * The event handlers of covscanhub/scan/xmlrpc_helper.py (finish_scan,
 * fail_scan, cancel_scan_tasks, cancel_scan) as functions from the old
 * store to the new store and the outcome. Exceptions are outcomes; what a
 * handler wrote before it raised stays written.
 */
module Cascade {
  import opened Wrappers
  import opened ScanStates
  import opened Scans
  import Kobo

  /** DoesNotExist of a lookup, and AttributeError on a relation that is None. */
  datatype HubError = ScanDoesNotExist | BindingDoesNotExist | NoneHasNoAttribute

  datatype Outcome = Done | Raised(error: HubError)

  const TaskFailedReason: string := "Task failed."
  const BaseFailedReason: string := "Base scan failed."

  function FailedDueTo(reason: string): string { "Scan failed due to: " + reason }

  /** Python's truth value of the optional reason: None and "" are false. */
  predicate Truthy(reason: Option<string>) { reason.Some? && reason.value != "" }

  /** kobo's Task.cancel_task: the task ends CANCELED; the call is logged with its recursive flag. */
  function CancelTask(st: Store, t: TaskId, recursive: bool): (r: Store)
    requires t in st.tasks
    ensures SameShape(st, r) && r.scans == st.scans
    ensures r.tasks == st.tasks[t := st.tasks[t].(state := Kobo.Canceled)]
    ensures r.log == st.log + [TaskCancel(t, recursive)]
  {
    st.(tasks := st.tasks[t := st.tasks[t].(state := Kobo.Canceled)], log := st.log + [TaskCancel(t, recursive)])
  }

  /** The recursion measure of the cascades: one more than the id of the scan's task. */
  function TaskRank(st: Store, id: ScanId): nat
  {
    if id in st.scans && st.scans[id].binding.Bound? && st.scans[id].binding.task.Some?
    then st.scans[id].binding.task.value + 1 else 0
  }

  /** Effects appended after position `from` are never result creations. */
  ghost predicate NoResultsAfter(log: seq<Effect>, from: nat)
  {
    forall i :: from <= i < |log| ==> !log[i].ResultsCreated?
  }

  /** Scans only move to state `s`; tasks only move to CANCELED; a scan that becomes enabled finished well. */
  ghost predicate OnlyMovesTo(st: Store, r: Store, s: ScanState)
    requires SameShape(st, r)
  {
    && (forall x :: x in st.scans ==> r.scans[x].state == st.scans[x].state || r.scans[x].state == s)
    && (forall x :: x in st.scans && r.scans[x].enabled && !st.scans[x].enabled ==> r.scans[x].state in FinishedWell)
    && (forall t :: t in st.tasks ==> r.tasks[t].state == st.tasks[t].state || r.tasks[t].state == Kobo.Canceled)
    && NoResultsAfter(r.log, |st.log|)
  }

  /**
   * fail_scan(scan_id, reason). The scan becomes FAILED; then a target scan
   * goes on as FailTargetSpec, any other scan as FailBaseSpec.
   */
  function FailSpec(st: Store, id: ScanId, reason: Option<string>, sendBus: bool): (r: (Store, Outcome))
    requires Wf(st)
    ensures SameShape(st, r.0)
    decreases TaskRank(st, id), 1
  {
    if id !in st.scans then (st, Raised(ScanDoesNotExist))
    else
      var st1 := SetStateSpec(st, id, Failed, sendBus);
      SameShapeWf(st, st1);
      var r := if IsErrataScan(st1.scans[id].scanType) then FailTargetSpec(st1, id, reason)
               else FailBaseSpec(st1, id, sendBus);
      SameShapeTrans(st, st1, r.0);
      r
  }

  /**
   * fail_scan for a target scan: it is disabled, the reason (when given) is
   * written to its task's result, and the last well-finished scan of its
   * child chain is enabled.
   */
  function FailTargetSpec(st: Store, id: ScanId, reason: Option<string>): (r: (Store, Outcome))
    requires Wf(st) && id in st.scans
    ensures SameShape(st, r.0)
  {
    var st2 := Disable(st, id);
    SameShapeWf(st, st2);
    var w := RecordReason(st2, id, reason);
    SameShapeTrans(st, st2, w.0);
    if w.1.Raised? then w
    else
      SameShapeWf(st, w.0);
      WfChildOrdered(w.0);
      var st4 := EnableLastSuccessfulSpec(w.0, id);
      SameShapeTrans(st, w.0, st4);
      (st4, Done)
  }

  /** `scan.enabled = False` followed by a save. */
  function Disable(st: Store, id: ScanId): (r: Store)
    requires id in st.scans
    ensures SameShape(st, r) && r.tasks == st.tasks && r.log == st.log
    ensures r.scans == st.scans[id := st.scans[id].(enabled := false)]
  {
    st.(scans := st.scans[id := st.scans[id].(enabled := false)])
  }

  /**
   * With a reason, "Scan failed due to: <reason>" becomes the result of the
   * scan's task, which raises when the scan has no binding or no task;
   * without a reason nothing happens.
   */
  function RecordReason(st: Store, id: ScanId, reason: Option<string>): (r: (Store, Outcome))
    requires Wf(st) && id in st.scans
    ensures SameShape(st, r.0) && r.0.scans == st.scans && r.0.log == st.log
    ensures forall t :: t in st.tasks ==> r.0.tasks[t].state == st.tasks[t].state
    ensures !Truthy(reason) ==> r == (st, Done)
    ensures Truthy(reason) ==> (r.1 == Done <==> st.scans[id].binding.Bound? && st.scans[id].binding.task.Some?)
    ensures Truthy(reason) && st.scans[id].binding.Bound? && st.scans[id].binding.task.Some? ==>
      st.scans[id].binding.task.value in st.tasks &&
      r.0.tasks == st.tasks[st.scans[id].binding.task.value :=
        st.tasks[st.scans[id].binding.task.value].(result := FailedDueTo(reason.value))]
  {
    assert ScanLinksOk(st, id);
    if Truthy(reason) then
      match st.scans[id].binding
      case Unbound => (st, Raised(BindingDoesNotExist))
      case Bound(None) => (st, Raised(NoneHasNoAttribute))
      case Bound(Some(t)) =>
        (st.(tasks := st.tasks[t := st.tasks[t].(result := FailedDueTo(reason.value))]), Done)
    else (st, Done)
  }

  /**
   * fail_scan for any other scan: the parent of its task is canceled
   * non-recursively and that parent task's scan is failed with
   * "Base scan failed.".
   */
  function FailBaseSpec(st: Store, id: ScanId, sendBus: bool): (r: (Store, Outcome))
    requires Wf(st) && id in st.scans
    ensures SameShape(st, r.0)
    decreases TaskRank(st, id), 0
  {
    match ParentTask(st, id)
    case Failure(e) => (st, Raised(e))
    case Success(p) =>
      var st2 := CancelTask(st, p, false);
      SameShapeWf(st, st2);
      assert TaskLinksOk(st, p);
      match st2.tasks[p].scan
      case None => (st2, Raised(BindingDoesNotExist))
      case Some(s2) =>
        assert TaskRank(st2, s2) == p + 1;
        var r := FailSpec(st2, s2, Some(BaseFailedReason), sendBus);
        SameShapeTrans(st, st2, r.0);
        r
  }

  /**
   * `scan.scanbinding.task.parent`: the parent task of the scan's task,
   * which is older than that task; a missing binding or a missing task or
   * parent raises.
   */
  function ParentTask(st: Store, id: ScanId): (r: Result<TaskId, HubError>)
    requires Wf(st) && id in st.scans
    ensures r.Success? ==>
      && st.scans[id].binding.Bound? && st.scans[id].binding.task.Some?
      && st.scans[id].binding.task.value in st.tasks
      && st.tasks[st.scans[id].binding.task.value].parent == Some(r.value)
      && r.value in st.tasks && r.value + 1 < TaskRank(st, id)
    ensures r.Failure? && st.scans[id].binding.Bound? && st.scans[id].binding.task.Some? ==>
      && st.scans[id].binding.task.value in st.tasks
      && st.tasks[st.scans[id].binding.task.value].parent.None?
  {
    assert ScanLinksOk(st, id);
    match st.scans[id].binding
    case Unbound => Failure(BindingDoesNotExist)
    case Bound(None) => Failure(NoneHasNoAttribute)
    case Bound(Some(t)) =>
      assert TaskLinksOk(st, t);
      match st.tasks[t].parent
      case None => Failure(NoneHasNoAttribute)
      case Some(p) => Success(p)
  }

  /**
   * cancel_scan_tasks(task): a task that is OPEN, FREE or CREATED is
   * canceled, and so is its parent task, both non-recursively; a task in any
   * other state is left alone.
   */
  function CancelTasksSpec(st: Store, t: TaskId): (r: Store)
    requires Wf(st) && t in st.tasks
    ensures SameShape(st, r) && r.scans == st.scans
    ensures st.tasks[t].state !in Kobo.Cancelable ==> r == st
    ensures st.tasks[t].state in Kobo.Cancelable ==>
      && r.tasks[t].state == Kobo.Canceled
      && (st.tasks[t].parent.Some? ==> r.tasks[st.tasks[t].parent.value].state == Kobo.Canceled)
      && r.log == st.log + [TaskCancel(t, false)] +
           (if st.tasks[t].parent.Some? then [TaskCancel(st.tasks[t].parent.value, false)] else [])
    ensures forall x :: x in st.tasks && r.tasks[x] != st.tasks[x] ==>
      (x == t || st.tasks[t].parent == Some(x)) && r.tasks[x] == st.tasks[x].(state := Kobo.Canceled)
  {
    if st.tasks[t].state in Kobo.Cancelable then
      var st1 := CancelTask(st, t, false);
      assert TaskLinksOk(st, t);
      match st.tasks[t].parent
      case None => st1
      case Some(p) =>
        var st2 := CancelTask(st1, p, false);
        SameShapeTrans(st, st1, st2);
        st2
    else st
  }

  /**
   * cancel_scan(scan_id). The scan becomes CANCELED and its tasks are
   * canceled; then a target scan goes on as CancelTargetSpec, any other scan
   * as CancelBaseSpec. The value returned is the scan object as the handler
   * holds it: CANCELED, with the enabled flag it was loaded with.
   */
  function CancelSpec(st: Store, id: ScanId, sendBus: bool): (r: (Store, Result<Scan, HubError>))
    requires Wf(st)
    ensures SameShape(st, r.0)
    ensures r.1.Success? ==> id in st.scans && r.1.value == st.scans[id].(state := Canceled)
    decreases TaskRank(st, id), 1
  {
    if id !in st.scans || st.scans[id].binding.Unbound? then (st, Failure(BindingDoesNotExist))
    else
      var held := st.scans[id].(state := Canceled);
      var st1 := SetStateSpec(st, id, Canceled, sendBus);
      assert ScanLinksOk(st, id);
      match st1.scans[id].binding.task
      case None => (st1, Failure(NoneHasNoAttribute))
      case Some(t) =>
        SameShapeWf(st, st1);
        var st2 := CancelTasksSpec(st1, t);
        SameShapeTrans(st, st1, st2);
        SameShapeWf(st, st2);
        if IsErrataScan(held.scanType) then
          var st4 := CancelTargetSpec(st2, id);
          SameShapeTrans(st, st2, st4);
          (st4, Success(held))
        else
          var r := CancelBaseSpec(st2, id, t, sendBus);
          SameShapeTrans(st, st2, r.0);
          match r.1
          case Done => (r.0, Success(held))
          case Raised(e) => (r.0, Failure(e))
  }

  /**
   * cancel_scan for a target scan: it is disabled in the database and the
   * last well-finished scan of its child chain is enabled.
   */
  function CancelTargetSpec(st: Store, id: ScanId): (r: Store)
    requires Wf(st) && id in st.scans
    ensures SameShape(st, r)
    ensures forall x :: x in st.scans ==> r.scans[x] == st.scans[x].(enabled := r.scans[x].enabled)
    ensures r.tasks == st.tasks && r.log == st.log
  {
    var st3 := Disable(st, id);
    SameShapeWf(st, st3);
    WfChildOrdered(st3);
    var st4 := EnableLastSuccessfulSpec(st3, id);
    SameShapeTrans(st, st3, st4);
    st4
  }

  /** cancel_scan for any other scan, bound to task `t`: the scan of t's parent task is canceled in turn. */
  function CancelBaseSpec(st: Store, id: ScanId, t: TaskId, sendBus: bool): (r: (Store, Outcome))
    requires Wf(st) && id in st.scans && st.scans[id].binding == Bound(Some(t))
    ensures SameShape(st, r.0)
    decreases TaskRank(st, id), 0
  {
    assert ScanLinksOk(st, id);
    assert TaskLinksOk(st, t);
    match st.tasks[t].parent
    case None => (st, Raised(NoneHasNoAttribute))
    case Some(p) =>
      assert TaskLinksOk(st, p);
      match st.tasks[p].scan
      case None => (st, Raised(BindingDoesNotExist))
      case Some(s2) =>
        assert TaskRank(st, s2) == p + 1;
        var r := CancelSpec(st, s2, sendBus);
        match r.1
        case Success(_) => (r.0, Done)
        case Failure(e) => (r.0, Raised(e))
  }

  /**
   * finish_scan(scan_id, task_id). A failed or canceled task fails the scan
   * with "Task failed."; a diff error of a target scan with a base fails it
   * with the error's message. Otherwise results are created and a target scan
   * ends PASSED without unwaived groups and NEEDS_INSPECTION with them, a
   * base scan ends FINISHED, and a user scan keeps its state.
   * `hasUnwaived` and `diffError` stand for the waiving and diff services.
   */
  function FinishSpec(st: Store, id: ScanId, t: TaskId, hasUnwaived: bool, diffError: Option<string>, sendBus: bool)
    : (r: (Store, Outcome))
    requires Wf(st)
    ensures SameShape(st, r.0)
  {
    if id !in st.scans || st.scans[id].binding != Bound(Some(t)) then (st, Raised(BindingDoesNotExist))
    else
      assert ScanLinksOk(st, id);
      var scan := st.scans[id];
      if st.tasks[t].state in {Kobo.Failed, Kobo.Canceled} then FailSpec(st, id, Some(TaskFailedReason), sendBus)
      else if IsErrataScan(scan.scanType) && scan.base.Some? && diffError.Some? then FailSpec(st, id, diffError, sendBus)
      else
        FinishResults(st, id, hasUnwaived, sendBus)
  }

  /**
   * The last part of finish_scan: the results are created, then a target
   * scan moves to PASSED or NEEDS_INSPECTION and a base scan to FINISHED.
   */
  function FinishResults(st: Store, id: ScanId, hasUnwaived: bool, sendBus: bool): (r: (Store, Outcome))
    requires Wf(st) && id in st.scans
    ensures SameShape(st, r.0) && r.1 == Done && r.0.tasks == st.tasks
    ensures forall x :: x in st.scans && x != id ==> r.0.scans[x] == st.scans[x]
    ensures id in r.0.scans && r.0.log == st.log + [ResultsCreated(id)] +
      (if r.0.scans[id].state != st.scans[id].state then Notice(r.0.scans[id], id, sendBus) else [])
    ensures IsErrataScan(st.scans[id].scanType) ==>
      r.0.scans[id] == st.scans[id].(state := if hasUnwaived then NeedsInspection else Passed)
    ensures IsErrataBaseScan(st.scans[id].scanType) ==> r.0.scans[id] == st.scans[id].(state := Finished)
    ensures !IsErrataScan(st.scans[id].scanType) && !IsErrataBaseScan(st.scans[id].scanType) ==>
      r.0.scans[id] == st.scans[id]
  {
    var st1 := st.(log := st.log + [ResultsCreated(id)]);
    SameShapeWf(st, st1);
    var ty := st.scans[id].scanType;
    if IsErrataScan(ty) || IsErrataBaseScan(ty) then
      var st2 := SetStateSpec(st1, id, if IsErrataScan(ty) then (if hasUnwaived then NeedsInspection else Passed) else Finished, sendBus);
      SameShapeTrans(st, st1, st2);
      (st2, Done)
    else (st1, Done)
  }
}

/** What the cascades of module Cascade promise, over all stores. */
module CascadeProperties {
  import opened Wrappers
  import opened ScanStates
  import opened Scans
  import opened Cascade
  import Kobo

  ghost predicate NoNewEnabled(a: Store, b: Store)
    requires SameShape(a, b)
  {
    forall x :: x in a.scans && b.scans[x].enabled ==> a.scans[x].enabled
  }

  lemma OnlyMovesToTrans(a: Store, b: Store, c: Store, s: ScanState)
    requires SameShape(a, b) && SameShape(b, c)
    requires OnlyMovesTo(a, b, s) && NoNewEnabled(a, b) && OnlyMovesTo(b, c, s)
    ensures SameShape(a, c) && OnlyMovesTo(a, c, s)
  {
    SameShapeTrans(a, b, c);
    forall i | |a.log| <= i < |c.log| ensures !c.log[i].ResultsCreated? {
      if i < |b.log| { assert c.log[i] == b.log[i]; }
    }
  }

  /** fail_scan changes scan states only to FAILED and task states only to CANCELED, enables only well-finished scans and creates no results. */
  lemma {:induction false} FailOnlyMovesToFailed(st: Store, id: ScanId, reason: Option<string>, sendBus: bool)
    requires Wf(st)
    ensures OnlyMovesTo(st, FailSpec(st, id, reason, sendBus).0, Failed)
    decreases TaskRank(st, id), 1
  {
    if id in st.scans {
      var st1 := SetStateSpec(st, id, Failed, sendBus);
      SetStateMovesTo(st, id, Failed, sendBus);
      var r := FailSpec(st, id, reason, sendBus);
      if IsErrataScan(st.scans[id].scanType) {
        FailOfTarget(st, id, reason, sendBus);
        FailTargetOnlyMovesToFailed(st1, id, reason);
      } else {
        FailNonTarget(st, id, reason, sendBus);
        FailBaseOnlyMovesToFailed(st1, id, sendBus);
      }
      OnlyMovesToTrans(st, st1, r.0, Failed);
    }
  }

  /** set_state moves one scan to `s`, keeps the store well formed, enables nothing and creates no results. */
  lemma SetStateMovesTo(st: Store, id: ScanId, s: ScanState, sendBus: bool)
    requires Wf(st) && id in st.scans
    ensures Wf(SetStateSpec(st, id, s, sendBus))
    ensures OnlyMovesTo(st, SetStateSpec(st, id, s, sendBus), s)
    ensures NoNewEnabled(st, SetStateSpec(st, id, s, sendBus))
  {
    SameShapeWf(st, SetStateSpec(st, id, s, sendBus));
  }

  lemma FailTargetOnlyMovesToFailed(st: Store, id: ScanId, reason: Option<string>)
    requires Wf(st) && id in st.scans
    ensures OnlyMovesTo(st, FailTargetSpec(st, id, reason).0, Failed)
  {
    var st2 := Disable(st, id);
    SameShapeWf(st, st2);
    var w := RecordReason(st2, id, reason);
    SameShapeTrans(st, st2, w.0);
    if w.1.Done? {
      SameShapeWf(st, w.0);
      DisableThenEnable(st, w.0, id, Failed);
    }
  }

  /** Disabling a scan and writing task results, then enabling the last successful scan, moves no state at all. */
  lemma DisableThenEnable(st: Store, mid: Store, id: ScanId, s: ScanState)
    requires SameShape(st, mid) && Wf(mid) && id in st.scans
    requires forall x :: x in st.scans ==> mid.scans[x].state == st.scans[x].state
    requires forall x :: x in st.scans && mid.scans[x].enabled ==> st.scans[x].enabled
    requires forall t :: t in st.tasks ==> mid.tasks[t].state == st.tasks[t].state
    requires mid.log == st.log
    ensures ChildOrdered(mid.scans)
    ensures OnlyMovesTo(st, EnableLastSuccessfulSpec(mid, id), s)
  {
    WfChildOrdered(mid);
    EnableMovesNothing(mid, id, s);
    OnlyMovesToTrans(st, mid, EnableLastSuccessfulSpec(mid, id), s);
  }

  /**
   * The scan enable_last_successfull enables once scan `id` has failed or
   * been canceled: the first well-finished scan among the older scans of its
   * child chain, since `id` itself no longer qualifies.
   */
  function GoodBelow(st: Store, id: ScanId): (r: Option<ScanId>)
    requires Wf(st) && id in st.scans
    ensures r.Some? ==> r.value in st.scans && r.value < id && st.scans[r.value].state in FinishedWell
  {
    assert ScanLinksOk(st, id);
    WfChildOrdered(st);
    match st.scans[id].child
    case None => None
    case Some(c) => FirstWell(st.scans, c)
  }

  /** Every scan of `a` other than `id` and the one `w` names is the same in `b`. */
  ghost predicate KeepsOthers(a: Store, b: Store, id: ScanId, w: Option<ScanId>)
  {
    forall x :: x in a.scans && x != id && Some(x) != w ==> x in b.scans && b.scans[x] == a.scans[x]
  }

  /** FirstWell only looks at the states and child links on the chain. */
  lemma {:induction false} FirstWellSame(a: map<ScanId, Scan>, b: map<ScanId, Scan>, id: ScanId)
    requires ChildOrdered(a) && ChildOrdered(b) && id in a && id in b
    requires forall x :: x in a && x <= id ==> x in b && b[x].state == a[x].state && b[x].child == a[x].child
    ensures FirstWell(a, id) == FirstWell(b, id)
    decreases id
  {
    if a[id].state !in FinishedWell && a[id].child.Some? {
      FirstWellSame(a, b, a[id].child.value);
    }
  }

  /** Stores that agree on the states and child links below `id` agree on GoodBelow. */
  lemma GoodBelowSame(a: Store, b: Store, id: ScanId)
    requires Wf(a) && Wf(b) && id in a.scans && id in b.scans && a.scans[id].child == b.scans[id].child
    requires forall x :: x in a.scans && x < id ==>
      x in b.scans && b.scans[x].state == a.scans[x].state && b.scans[x].child == a.scans[x].child
    ensures GoodBelow(a, id) == GoodBelow(b, id)
  {
    assert ScanLinksOk(a, id);
    WfChildOrdered(a);
    WfChildOrdered(b);
    if a.scans[id].child.Some? {
      FirstWellSame(a.scans, b.scans, a.scans[id].child.value);
    }
  }

  /** Once scan `id` is no longer well finished, enable_last_successfull enables GoodBelow and nothing else. */
  lemma EnableAfterStop(st: Store, id: ScanId)
    requires Wf(st) && id in st.scans && st.scans[id].state !in FinishedWell
    ensures ChildOrdered(st.scans)
    ensures var r := EnableLastSuccessfulSpec(st, id); var w := GoodBelow(st, id);
      && (w.Some? ==> r.scans[w.value] == st.scans[w.value].(enabled := true))
      && KeepsOthers(st, r, id, w) && r.scans[id] == st.scans[id]
  {
    WfChildOrdered(st);
    assert FirstWell(st.scans, id) == GoodBelow(st, id);
  }

  /** enable_last_successfull changes no state, no task and no log, and only enables well-finished scans. */
  lemma EnableMovesNothing(st: Store, id: ScanId, s: ScanState)
    requires ChildOrdered(st.scans) && id in st.scans
    ensures OnlyMovesTo(st, EnableLastSuccessfulSpec(st, id), s)
  {
    EnableChangesAtMostOne(st, id);
  }

  lemma {:induction false} FailBaseOnlyMovesToFailed(st: Store, id: ScanId, sendBus: bool)
    requires Wf(st) && id in st.scans
    ensures OnlyMovesTo(st, FailBaseSpec(st, id, sendBus).0, Failed)
    decreases TaskRank(st, id), 0
  {
    match ParentTask(st, id)
    case Failure(_) =>
    case Success(p) =>
      var st2 := CancelTask(st, p, false);
      if st.tasks[p].scan.Some? {
        var s2 := st.tasks[p].scan.value;
        FailBaseStep(st, id, sendBus, p, s2);
        FailOnlyMovesToFailed(st2, s2, Some(BaseFailedReason), sendBus);
        OnlyMovesToTrans(st, st2, FailBaseSpec(st, id, sendBus).0, Failed);
      }
  }

  /** One step of the base cascade: fail_scan goes on with the scan of the canceled parent task. */
  lemma FailBaseStep(st: Store, id: ScanId, sendBus: bool, p: TaskId, s2: ScanId)
    requires Wf(st) && id in st.scans && ParentTask(st, id) == Success(p) && st.tasks[p].scan == Some(s2)
    ensures Wf(CancelTask(st, p, false)) && TaskRank(CancelTask(st, p, false), s2) < TaskRank(st, id)
    ensures FailBaseSpec(st, id, sendBus) == FailSpec(CancelTask(st, p, false), s2, Some(BaseFailedReason), sendBus)
  {
    var st2 := CancelTask(st, p, false);
    SameShapeWf(st, st2);
    assert TaskLinksOk(st, p);
    assert TaskRank(st2, s2) == p + 1;
  }

  /** Whatever the outcome, the scan fail_scan is called on ends FAILED. */
  lemma FailMarksFailed(st: Store, id: ScanId, reason: Option<string>, sendBus: bool)
    requires Wf(st) && id in st.scans
    ensures FailSpec(st, id, reason, sendBus).0.scans[id].state == Failed
  {
    var st1 := SetStateSpec(st, id, Failed, sendBus);
    SameShapeWf(st, st1);
    if IsErrataScan(st1.scans[id].scanType) {
      FailTargetOnlyMovesToFailed(st1, id, reason);
    } else {
      FailBaseOnlyMovesToFailed(st1, id, sendBus);
    }
  }

  /**
   * A failed target scan ends disabled: enable_last_successfull never
   * re-enables it, since FAILED is not a well-finished state. With a reason
   * and a task, the task's result reads "Scan failed due to: <reason>";
   * without a reason no task is touched.
   */
  lemma FailTarget(st: Store, id: ScanId, reason: Option<string>, sendBus: bool)
    requires Wf(st) && id in st.scans && IsErrataScan(st.scans[id].scanType)
    ensures var r := FailSpec(st, id, reason, sendBus);
      && !r.0.scans[id].enabled
      && (!Truthy(reason) ==> r.1 == Done && r.0.tasks == st.tasks)
      && (Truthy(reason) && st.scans[id].binding.Bound? && st.scans[id].binding.task.Some? ==>
            r.1 == Done && r.0.tasks[st.scans[id].binding.task.value].result == FailedDueTo(reason.value))
  {
    var st1 := SetStateSpec(st, id, Failed, sendBus);
    SameShapeWf(st, st1);
    assert FailSpec(st, id, reason, sendBus) == FailTargetSpec(st1, id, reason);
    FailTargetOfFailedScan(st1, id, reason);
  }

  lemma FailTargetOfFailedScan(st: Store, id: ScanId, reason: Option<string>)
    requires Wf(st) && id in st.scans && st.scans[id].state == Failed
    ensures var r := FailTargetSpec(st, id, reason);
      && !r.0.scans[id].enabled
      && (!Truthy(reason) ==> r.1 == Done && r.0.tasks == st.tasks)
      && (Truthy(reason) && st.scans[id].binding.Bound? && st.scans[id].binding.task.Some? ==>
            r.1 == Done && r.0.tasks[st.scans[id].binding.task.value].result == FailedDueTo(reason.value))
  {
    FailTargetKeepsStopped(st, id, reason);
    FailTargetTasks(st, id, reason);
  }

  /** The target branch of fail_scan leaves a scan that is not well finished disabled. */
  lemma FailTargetKeepsStopped(st: Store, id: ScanId, reason: Option<string>)
    requires Wf(st) && id in st.scans && st.scans[id].state !in FinishedWell
    ensures FailTargetSpec(st, id, reason).0.scans[id] == st.scans[id].(enabled := false)
  {
    var st2 := Disable(st, id);
    SameShapeWf(st, st2);
    var w := RecordReason(st2, id, reason);
    if w.1.Done? {
      SameShapeWf(st2, w.0);
      WfChildOrdered(w.0);
      assert FirstWell(w.0.scans, id) != Some(id);
    }
  }

  /** The tasks and the outcome of the target branch of fail_scan are those of recording the reason. */
  lemma FailTargetTasks(st: Store, id: ScanId, reason: Option<string>)
    requires Wf(st) && id in st.scans
    ensures Wf(Disable(st, id))
    ensures var w := RecordReason(Disable(st, id), id, reason); var r := FailTargetSpec(st, id, reason);
      r.0.tasks == w.0.tasks && r.1 == w.1
  {
    var st2 := Disable(st, id);
    SameShapeWf(st, st2);
    var w := RecordReason(st2, id, reason);
    if w.1.Done? {
      SameShapeWf(st2, w.0);
      WfChildOrdered(w.0);
    }
  }

  /**
   * fail_scan on a target scan re-enables GoodBelow, the last well-finished
   * older scan of its chain, when the reason could be recorded, and changes no
   * other scan; when recording the reason raised, only the failed scan changed.
   */
  lemma FailTargetRestores(st: Store, id: ScanId, reason: Option<string>, sendBus: bool)
    requires Wf(st) && id in st.scans && IsErrataScan(st.scans[id].scanType)
    ensures var r := FailSpec(st, id, reason, sendBus); var w := GoodBelow(st, id);
      && (r.1 == Done && w.Some? ==> r.0.scans[w.value] == st.scans[w.value].(enabled := true))
      && KeepsOthers(st, r.0, id, w)
      && (r.1.Raised? ==> KeepsOthers(st, r.0, id, None))
  {
    FailOfTarget(st, id, reason, sendBus);
    FailTargetRestoresAfterSet(st, id, reason, sendBus);
  }

  lemma FailTargetRestoresAfterSet(st: Store, id: ScanId, reason: Option<string>, sendBus: bool)
    requires Wf(st) && id in st.scans && Wf(SetStateSpec(st, id, Failed, sendBus))
    ensures var r := FailTargetSpec(SetStateSpec(st, id, Failed, sendBus), id, reason); var w := GoodBelow(st, id);
      && (r.1 == Done && w.Some? ==> w.value in r.0.scans && r.0.scans[w.value] == st.scans[w.value].(enabled := true))
      && KeepsOthers(st, r.0, id, w)
      && (r.1.Raised? ==> KeepsOthers(st, r.0, id, None))
  {
    var st1 := SetStateSpec(st, id, Failed, sendBus);
    FailTargetRestoresFailed(st1, id, reason);
    var r := FailTargetSpec(st1, id, reason);
    RestoresBefore(st, st1, r.0, id, r.1 == Done);
  }

  /**
   * What a step that re-enables GoodBelow promises carries over to the store
   * before scan `id` changed state: the scans below `id` are the same there.
   */
  lemma RestoresBefore(st: Store, st1: Store, r: Store, id: ScanId, done: bool)
    requires Wf(st) && Wf(st1) && id in st.scans && id in st1.scans
    requires st1.scans == st.scans[id := st1.scans[id]] && st1.scans[id].child == st.scans[id].child
    requires var g := GoodBelow(st1, id);
      && (done && g.Some? ==> g.value in r.scans && r.scans[g.value] == st1.scans[g.value].(enabled := true))
      && KeepsOthers(st1, r, id, g)
      && (!done ==> KeepsOthers(st1, r, id, None))
    ensures var g := GoodBelow(st, id);
      && (done && g.Some? ==> g.value in r.scans && r.scans[g.value] == st.scans[g.value].(enabled := true))
      && KeepsOthers(st, r, id, g)
      && (!done ==> KeepsOthers(st, r, id, None))
  {
    GoodBelowSame(st, st1, id);
  }

  lemma FailTargetRestoresFailed(st: Store, id: ScanId, reason: Option<string>)
    requires Wf(st) && id in st.scans && st.scans[id].state !in FinishedWell
    ensures var r := FailTargetSpec(st, id, reason); var w := GoodBelow(st, id);
      && (r.1 == Done && w.Some? ==> r.0.scans[w.value] == st.scans[w.value].(enabled := true))
      && KeepsOthers(st, r.0, id, w)
      && (r.1.Raised? ==> KeepsOthers(st, r.0, id, None))
  {
    FailTargetUnfold(st, id, reason);
    var w := RecordReason(Disable(st, id), id, reason);
    if w.1.Done? {
      StopThenEnable(st, w.0, id);
    }
  }

  /** Disabling a scan that is no longer well finished, then enable_last_successfull, enables GoodBelow only. */
  lemma StopThenEnable(st: Store, mid: Store, id: ScanId)
    requires Wf(st) && Wf(mid) && id in st.scans && st.scans[id].state !in FinishedWell
    requires mid.scans == st.scans[id := st.scans[id].(enabled := false)]
    ensures ChildOrdered(mid.scans)
    ensures var r := EnableLastSuccessfulSpec(mid, id); var g := GoodBelow(st, id);
      && (g.Some? ==> r.scans[g.value] == st.scans[g.value].(enabled := true))
      && KeepsOthers(st, r, id, g)
  {
    WfChildOrdered(mid);
    GoodBelowSame(st, mid, id);
    EnableAfterStop(mid, id);
  }

  /** The target branch of fail_scan, one step at a time. */
  lemma FailTargetUnfold(st: Store, id: ScanId, reason: Option<string>)
    requires Wf(st) && id in st.scans
    ensures Wf(Disable(st, id))
    ensures var w := RecordReason(Disable(st, id), id, reason);
      && Wf(w.0) && ChildOrdered(w.0.scans)
      && w.0.scans == st.scans[id := st.scans[id].(enabled := false)]
      && FailTargetSpec(st, id, reason) == (if w.1.Raised? then w else (EnableLastSuccessfulSpec(w.0, id), Done))
  {
    var st2 := Disable(st, id);
    SameShapeWf(st, st2);
    var w := RecordReason(st2, id, reason);
    SameShapeWf(st2, w.0);
    WfChildOrdered(w.0);
  }

  /**
   * fail_scan on a scan that is not a target cancels its task's parent task
   * non-recursively and fails that task's scan.
   */
  lemma FailCascadesToParent(st: Store, id: ScanId, reason: Option<string>, sendBus: bool, t: TaskId, p: TaskId, s2: ScanId)
    requires Wf(st) && id in st.scans && !IsErrataScan(st.scans[id].scanType)
    requires st.scans[id].binding == Bound(Some(t)) && t in st.tasks
    requires st.tasks[t].parent == Some(p) && p in st.tasks && st.tasks[p].scan == Some(s2) && s2 in st.scans
    ensures var r := FailSpec(st, id, reason, sendBus).0;
      && TaskCancel(p, false) in r.log
      && r.tasks[p].state == Kobo.Canceled
      && r.scans[s2].state == Failed
  {
    var st1 := SetStateSpec(st, id, Failed, sendBus);
    FailNonTarget(st, id, reason, sendBus);
    assert st1.scans[id].binding == Bound(Some(t));
    assert ParentTask(st1, id) == Success(p);
    FailBaseStep(st1, id, sendBus, p, s2);
    CancelThenFail(st1, p, s2, sendBus);
  }

  /** fail_scan on a scan that is not a target: the scan is set FAILED, then the base cascade runs. */
  lemma FailNonTarget(st: Store, id: ScanId, reason: Option<string>, sendBus: bool)
    requires Wf(st) && id in st.scans && !IsErrataScan(st.scans[id].scanType)
    ensures Wf(SetStateSpec(st, id, Failed, sendBus))
    ensures FailSpec(st, id, reason, sendBus) == FailBaseSpec(SetStateSpec(st, id, Failed, sendBus), id, sendBus)
  {
    SameShapeWf(st, SetStateSpec(st, id, Failed, sendBus));
  }

  /** fail_scan on a target scan: the scan is set FAILED, then the target branch runs. */
  lemma FailOfTarget(st: Store, id: ScanId, reason: Option<string>, sendBus: bool)
    requires Wf(st) && id in st.scans && IsErrataScan(st.scans[id].scanType)
    ensures Wf(SetStateSpec(st, id, Failed, sendBus))
    ensures FailSpec(st, id, reason, sendBus) == FailTargetSpec(SetStateSpec(st, id, Failed, sendBus), id, reason)
  {
    SameShapeWf(st, SetStateSpec(st, id, Failed, sendBus));
  }

  /** Canceling task `p` and then failing its scan leaves p CANCELED, the cancel logged and the scan FAILED. */
  lemma CancelThenFail(st: Store, p: TaskId, s2: ScanId, sendBus: bool)
    requires Wf(st) && p in st.tasks && s2 in st.scans
    ensures Wf(CancelTask(st, p, false))
    ensures var r := FailSpec(CancelTask(st, p, false), s2, Some(BaseFailedReason), sendBus).0;
      && TaskCancel(p, false) in r.log
      && r.tasks[p].state == Kobo.Canceled
      && r.scans[s2].state == Failed
  {
    var st2 := CancelTask(st, p, false);
    SameShapeWf(st, st2);
    FailMarksFailed(st2, s2, Some(BaseFailedReason), sendBus);
    FailOnlyMovesToFailed(st2, s2, Some(BaseFailedReason), sendBus);
    var r := FailSpec(st2, s2, Some(BaseFailedReason), sendBus);
    assert r.0.log[|st2.log| - 1] == st2.log[|st2.log| - 1] == TaskCancel(p, false);
  }

  /** cancel_scan changes scan states only to CANCELED and task states only to CANCELED, enables only well-finished scans and creates no results. */
  lemma {:induction false} CancelOnlyMovesToCanceled(st: Store, id: ScanId, sendBus: bool)
    requires Wf(st)
    ensures OnlyMovesTo(st, CancelSpec(st, id, sendBus).0, Canceled)
    decreases TaskRank(st, id), 2
  {
    if id in st.scans && st.scans[id].binding.Bound? && st.scans[id].binding.task.Some? {
      var t := st.scans[id].binding.task.value;
      CancelUnfold(st, id, sendBus, t);
      CancelPrefixMoves(st, id, sendBus, t);
      var st2 := CancelTasksSpec(SetStateSpec(st, id, Canceled, sendBus), t);
      CancelRestOnlyMovesToCanceled(st2, id, t, sendBus);
      OnlyMovesToTrans(st, st2, CancelSpec(st, id, sendBus).0, Canceled);
    }
  }

  /** Setting the scan CANCELED and canceling its tasks only moves toward CANCELED. */
  lemma CancelPrefixMoves(st: Store, id: ScanId, sendBus: bool, t: TaskId)
    requires Wf(st) && id in st.scans && st.scans[id].binding == Bound(Some(t))
    ensures Wf(SetStateSpec(st, id, Canceled, sendBus)) && t in SetStateSpec(st, id, Canceled, sendBus).tasks
    ensures var st2 := CancelTasksSpec(SetStateSpec(st, id, Canceled, sendBus), t);
      SameShape(st, st2) && OnlyMovesTo(st, st2, Canceled) && NoNewEnabled(st, st2)
  {
    var st1 := SetStateSpec(st, id, Canceled, sendBus);
    SameShapeWf(st, st1);
    assert ScanLinksOk(st, id);
    var st2 := CancelTasksSpec(st1, t);
    CancelTasksMovesOnlyTasks(st1, t);
    OnlyMovesToTrans(st, st1, st2, Canceled);
  }

  /** What cancel_scan does after canceling the tasks: the target part or the base cascade. */
  lemma {:induction false} CancelRestOnlyMovesToCanceled(st: Store, id: ScanId, t: TaskId, sendBus: bool)
    requires Wf(st) && id in st.scans && st.scans[id].binding == Bound(Some(t))
    ensures IsErrataScan(st.scans[id].scanType) ==> OnlyMovesTo(st, CancelTargetSpec(st, id), Canceled)
    ensures !IsErrataScan(st.scans[id].scanType) ==> OnlyMovesTo(st, CancelBaseSpec(st, id, t, sendBus).0, Canceled)
    decreases TaskRank(st, id), 1
  {
    if IsErrataScan(st.scans[id].scanType) {
      CancelTargetMovesNothing(st, id);
    } else {
      CancelBaseOnlyMovesToCanceled(st, id, t, sendBus);
    }
  }

  lemma {:induction false} CancelBaseOnlyMovesToCanceled(st: Store, id: ScanId, t: TaskId, sendBus: bool)
    requires Wf(st) && id in st.scans && st.scans[id].binding == Bound(Some(t))
    ensures OnlyMovesTo(st, CancelBaseSpec(st, id, t, sendBus).0, Canceled)
    decreases TaskRank(st, id), 0
  {
    assert ScanLinksOk(st, id);
    if st.tasks[t].parent.Some? {
      var p := st.tasks[t].parent.value;
      assert TaskLinksOk(st, t);
      if st.tasks[p].scan.Some? {
        var s2 := st.tasks[p].scan.value;
        CancelBaseStep(st, id, t, sendBus, p, s2);
        CancelOnlyMovesToCanceled(st, s2, sendBus);
      }
    }
  }

  /** cancel_scan_tasks moves task states only to CANCELED and logs only cancellations. */
  lemma CancelTasksMovesOnlyTasks(st: Store, t: TaskId)
    requires Wf(st) && t in st.tasks
    ensures OnlyMovesTo(st, CancelTasksSpec(st, t), Canceled) && NoNewEnabled(st, CancelTasksSpec(st, t))
  {
    var r := CancelTasksSpec(st, t);
    forall i | |st.log| <= i < |r.log| ensures !r.log[i].ResultsCreated? {
      assert r.log[i].TaskCancel?;
    }
  }

  /** The target part of cancel_scan moves no state. */
  lemma CancelTargetMovesNothing(st: Store, id: ScanId)
    requires Wf(st) && id in st.scans
    ensures OnlyMovesTo(st, CancelTargetSpec(st, id), Canceled)
  {
    var st3 := Disable(st, id);
    SameShapeWf(st, st3);
    DisableThenEnable(st, st3, id, Canceled);
  }

  /** cancel_scan on a bound scan with a task: the scan is CANCELED, its tasks are canceled, then the target or base part runs. */
  lemma CancelUnfold(st: Store, id: ScanId, sendBus: bool, t: TaskId)
    requires Wf(st) && id in st.scans && st.scans[id].binding == Bound(Some(t))
    ensures Wf(SetStateSpec(st, id, Canceled, sendBus)) && t in SetStateSpec(st, id, Canceled, sendBus).tasks
    ensures var st2 := CancelTasksSpec(SetStateSpec(st, id, Canceled, sendBus), t);
      && Wf(st2) && id in st2.scans && st2.scans[id].binding == Bound(Some(t))
      && st2.scans[id].state == Canceled && TaskRank(st2, id) == TaskRank(st, id)
      && var r := CancelSpec(st, id, sendBus);
      && (IsErrataScan(st.scans[id].scanType) ==>
            r == (CancelTargetSpec(st2, id), Success(st.scans[id].(state := Canceled))))
      && (!IsErrataScan(st.scans[id].scanType) ==>
            && r.0 == CancelBaseSpec(st2, id, t, sendBus).0
            && (r.1.Success? <==> CancelBaseSpec(st2, id, t, sendBus).1.Done?))
  {
    var st1 := SetStateSpec(st, id, Canceled, sendBus);
    SameShapeWf(st, st1);
    assert ScanLinksOk(st, id);
    var st2 := CancelTasksSpec(st1, t);
    SameShapeWf(st1, st2);
  }

  /** One step of the base cancel cascade: cancel_scan goes on with the scan of the parent task. */
  lemma CancelBaseStep(st: Store, id: ScanId, t: TaskId, sendBus: bool, p: TaskId, s2: ScanId)
    requires Wf(st) && id in st.scans && st.scans[id].binding == Bound(Some(t)) && t in st.tasks
    requires st.tasks[t].parent == Some(p) && p in st.tasks && st.tasks[p].scan == Some(s2)
    ensures s2 in st.scans && TaskRank(st, s2) < TaskRank(st, id)
    ensures CancelBaseSpec(st, id, t, sendBus).0 == CancelSpec(st, s2, sendBus).0
  {
    assert ScanLinksOk(st, id);
    assert TaskLinksOk(st, t);
    assert TaskLinksOk(st, p);
  }

  /** Once cancel_scan got as far as the binding, the scan ends CANCELED whatever else happens. */
  lemma CancelMarksCanceled(st: Store, id: ScanId, sendBus: bool)
    requires Wf(st) && id in st.scans && st.scans[id].binding.Bound?
    ensures CancelSpec(st, id, sendBus).0.scans[id].state == Canceled
  {
    if st.scans[id].binding.task.Some? {
      var t := st.scans[id].binding.task.value;
      CancelUnfold(st, id, sendBus, t);
      var st2 := CancelTasksSpec(SetStateSpec(st, id, Canceled, sendBus), t);
      CancelRestOnlyMovesToCanceled(st2, id, t, sendBus);
    }
  }

  /**
   * cancel_scan of a target scan returns the scan it holds, leaves the scan
   * disabled (CANCELED is not a well-finished state, so it is never the one
   * re-enabled) and its task canceled when the task could be canceled.
   */
  lemma CancelTarget(st: Store, id: ScanId, sendBus: bool, t: TaskId)
    requires Wf(st) && id in st.scans && IsErrataScan(st.scans[id].scanType)
    requires st.scans[id].binding == Bound(Some(t)) && t in st.tasks
    ensures var r := CancelSpec(st, id, sendBus);
      && r.1 == Success(st.scans[id].(state := Canceled))
      && !r.0.scans[id].enabled
      && (st.tasks[t].state in Kobo.Cancelable ==> r.0.tasks[t].state == Kobo.Canceled)
  {
    CancelOfTarget(st, id, sendBus, t);
    var st1 := SetStateSpec(st, id, Canceled, sendBus);
    assert st1.tasks == st.tasks;
    var st2 := CancelTasksSpec(st1, t);
    CancelTargetStops(st2, id);
  }

  /** cancel_scan on a bound target scan re-enables GoodBelow and changes no other scan. */
  lemma CancelTargetRestores(st: Store, id: ScanId, sendBus: bool, t: TaskId)
    requires Wf(st) && id in st.scans && IsErrataScan(st.scans[id].scanType)
    requires st.scans[id].binding == Bound(Some(t))
    ensures var r := CancelSpec(st, id, sendBus).0; var w := GoodBelow(st, id);
      && (w.Some? ==> r.scans[w.value] == st.scans[w.value].(enabled := true))
      && KeepsOthers(st, r, id, w)
  {
    CancelOfTarget(st, id, sendBus, t);
    CancelTargetRestoresAfterSet(st, id, sendBus, t);
  }

  lemma CancelOfTarget(st: Store, id: ScanId, sendBus: bool, t: TaskId)
    requires Wf(st) && id in st.scans && IsErrataScan(st.scans[id].scanType)
    requires st.scans[id].binding == Bound(Some(t))
    ensures Wf(SetStateSpec(st, id, Canceled, sendBus)) && t in SetStateSpec(st, id, Canceled, sendBus).tasks
    ensures var st2 := CancelTasksSpec(SetStateSpec(st, id, Canceled, sendBus), t);
      && Wf(st2) && id in st2.scans
      && st2.scans[id].state == Canceled
      && CancelSpec(st, id, sendBus).0 == CancelTargetSpec(st2, id)
      && CancelSpec(st, id, sendBus).1 == Success(st.scans[id].(state := Canceled))
  {
    CancelUnfold(st, id, sendBus, t);
  }

  lemma CancelTargetRestoresAfterSet(st: Store, id: ScanId, sendBus: bool, t: TaskId)
    requires Wf(st) && id in st.scans
    requires Wf(SetStateSpec(st, id, Canceled, sendBus)) && t in SetStateSpec(st, id, Canceled, sendBus).tasks
    requires Wf(CancelTasksSpec(SetStateSpec(st, id, Canceled, sendBus), t))
    ensures var st2 := CancelTasksSpec(SetStateSpec(st, id, Canceled, sendBus), t);
      var r := CancelTargetSpec(st2, id); var w := GoodBelow(st, id);
      && (w.Some? ==> w.value in r.scans && r.scans[w.value] == st.scans[w.value].(enabled := true))
      && KeepsOthers(st, r, id, w)
  {
    var st2 := CancelTasksSpec(SetStateSpec(st, id, Canceled, sendBus), t);
    CancelTargetStops(st2, id);
    RestoresBefore(st, st2, CancelTargetSpec(st2, id), id, true);
  }

  /** The target branch of cancel_scan, once the scan is CANCELED, enables GoodBelow and nothing else. */
  lemma CancelTargetStops(st: Store, id: ScanId)
    requires Wf(st) && id in st.scans && st.scans[id].state !in FinishedWell
    ensures var r := CancelTargetSpec(st, id); var w := GoodBelow(st, id);
      && (w.Some? ==> r.scans[w.value] == st.scans[w.value].(enabled := true))
      && KeepsOthers(st, r, id, w)
      && r.scans[id] == st.scans[id].(enabled := false) && r.tasks == st.tasks
  {
    var st3 := Disable(st, id);
    SameShapeWf(st, st3);
    StopThenEnable(st, st3, id);
  }

  /**
   * cancel_scan of a scan that is not a target cancels, in turn, the scan
   * of its task's parent task.
   */
  lemma CancelCascadesToParent(st: Store, id: ScanId, sendBus: bool, t: TaskId, p: TaskId, s2: ScanId)
    requires Wf(st) && id in st.scans && !IsErrataScan(st.scans[id].scanType)
    requires st.scans[id].binding == Bound(Some(t)) && t in st.tasks
    requires st.tasks[t].parent == Some(p) && p in st.tasks && st.tasks[p].scan == Some(s2) && s2 in st.scans
    ensures CancelSpec(st, id, sendBus).0.scans[s2].state == Canceled
  {
    CancelUnfold(st, id, sendBus, t);
    var st2 := CancelTasksSpec(SetStateSpec(st, id, Canceled, sendBus), t);
    CancelBaseStep(st2, id, t, sendBus, p, s2);
    assert TaskLinksOk(st2, p);
    CancelMarksCanceled(st2, s2, sendBus);
  }

  /** finish_scan with a FAILED or CANCELED task fails the scan with "Task failed." and creates no results. */
  lemma FinishOnFailedTask(st: Store, id: ScanId, t: TaskId, hasUnwaived: bool, diffError: Option<string>, sendBus: bool)
    requires Wf(st) && id in st.scans && st.scans[id].binding == Bound(Some(t)) && t in st.tasks
    requires st.tasks[t].state in {Kobo.Failed, Kobo.Canceled}
    ensures var r := FinishSpec(st, id, t, hasUnwaived, diffError, sendBus);
      && r.0.scans[id].state == Failed
      && NoResultsAfter(r.0.log, |st.log|)
      && (IsErrataScan(st.scans[id].scanType) ==> r.1 == Done && r.0.tasks[t].result == FailedDueTo(TaskFailedReason))
  {
    assert FinishSpec(st, id, t, hasUnwaived, diffError, sendBus) == FailSpec(st, id, Some(TaskFailedReason), sendBus);
    FailMarksFailed(st, id, Some(TaskFailedReason), sendBus);
    FailOnlyMovesToFailed(st, id, Some(TaskFailedReason), sendBus);
    if IsErrataScan(st.scans[id].scanType) {
      FailTarget(st, id, Some(TaskFailedReason), sendBus);
    }
  }

  /** A diff error of a target scan with a base fails the scan with the error's message and creates no results. */
  lemma FinishOnDiffError(st: Store, id: ScanId, t: TaskId, hasUnwaived: bool, msg: string, sendBus: bool)
    requires Wf(st) && id in st.scans && st.scans[id].binding == Bound(Some(t)) && t in st.tasks
    requires st.tasks[t].state !in {Kobo.Failed, Kobo.Canceled}
    requires IsErrataScan(st.scans[id].scanType) && st.scans[id].base.Some?
    ensures var r := FinishSpec(st, id, t, hasUnwaived, Some(msg), sendBus);
      && r.1 == Done
      && r.0.scans[id].state == Failed && !r.0.scans[id].enabled
      && NoResultsAfter(r.0.log, |st.log|)
      && (msg != "" ==> r.0.tasks[t].result == FailedDueTo(msg))
  {
    assert FinishSpec(st, id, t, hasUnwaived, Some(msg), sendBus) == FailSpec(st, id, Some(msg), sendBus);
    FailMarksFailed(st, id, Some(msg), sendBus);
    FailOnlyMovesToFailed(st, id, Some(msg), sendBus);
    FailTarget(st, id, Some(msg), sendBus);
  }

  /**
   * finish_scan on a live task without a diff error: results are created,
   * a target scan ends PASSED exactly when there are no unwaived groups and
   * NEEDS_INSPECTION otherwise, a base scan ends FINISHED, any other scan
   * keeps its state; no task and no enabled flag changes.
   */
  lemma FinishOutcome(st: Store, id: ScanId, t: TaskId, hasUnwaived: bool, diffError: Option<string>, sendBus: bool)
    requires Wf(st) && id in st.scans && st.scans[id].binding == Bound(Some(t)) && t in st.tasks
    requires st.tasks[t].state !in {Kobo.Failed, Kobo.Canceled}
    requires !(IsErrataScan(st.scans[id].scanType) && st.scans[id].base.Some? && diffError.Some?)
    ensures var r := FinishSpec(st, id, t, hasUnwaived, diffError, sendBus);
      var ty := st.scans[id].scanType;
      && r.1 == Done
      && r.0.tasks == st.tasks
      && r.0.log == st.log + [ResultsCreated(id)] +
           (if r.0.scans[id].state != st.scans[id].state then Notice(r.0.scans[id], id, sendBus) else [])
      && (!IsErrataScan(ty) && !IsErrataBaseScan(ty) ==> r.0.log == st.log + [ResultsCreated(id)])
      && (forall x :: x in st.scans && x != id ==> r.0.scans[x] == st.scans[x])
      && r.0.scans[id].enabled == st.scans[id].enabled
      && (IsErrataScan(ty) ==> (r.0.scans[id].state == Passed <==> !hasUnwaived))
      && (IsErrataScan(ty) ==> (r.0.scans[id].state == NeedsInspection <==> hasUnwaived))
      && (IsErrataBaseScan(ty) ==> r.0.scans[id].state == Finished)
      && (!IsErrataScan(ty) && !IsErrataBaseScan(ty) ==> r.0.scans[id] == st.scans[id])
  {
    assert ScanLinksOk(st, id);
  }

  /**
   * Where the binding matches, finish_scan leaves a target scan PASSED,
   * NEEDS_INSPECTION or FAILED, a base scan FINISHED or FAILED, and any other
   * scan in its state or FAILED.
   */
  lemma FinishEndState(st: Store, id: ScanId, t: TaskId, hasUnwaived: bool, diffError: Option<string>, sendBus: bool)
    requires Wf(st) && id in st.scans && st.scans[id].binding == Bound(Some(t))
    ensures var r := FinishSpec(st, id, t, hasUnwaived, diffError, sendBus).0.scans[id].state;
      var ty := st.scans[id].scanType;
      && (IsErrataScan(ty) ==> r in {Passed, NeedsInspection, Failed})
      && (IsErrataBaseScan(ty) ==> r in {Finished, Failed})
      && (r == st.scans[id].state || r == Failed || IsErrataScan(ty) || IsErrataBaseScan(ty))
  {
    assert ScanLinksOk(st, id);
    if st.tasks[t].state in {Kobo.Failed, Kobo.Canceled} {
      FinishOnFailedTask(st, id, t, hasUnwaived, diffError, sendBus);
    } else if IsErrataScan(st.scans[id].scanType) && st.scans[id].base.Some? && diffError.Some? {
      FinishOnDiffError(st, id, t, hasUnwaived, diffError.value, sendBus);
    } else {
      FinishOutcome(st, id, t, hasUnwaived, diffError, sendBus);
    }
  }
}
