/**
 * The Scan record of covscanhub/scan/models.py and its store, with the
 * state changes made by Scan.set_state, Scan.scan_state_notice,
 * Scan.enable_last_successfull, Scan.clone_scan and Scan.finalize,
 * written as functions from the old store to the new one.
 */
module Scans {
  import opened Wrappers
  import opened ScanStates
  import Kobo

  type ScanId = nat
  type TaskId = Kobo.TaskId

  /** A brew tag and the short tag of the system release it belongs to. */
  datatype TagRef = TagRef(name: string, releaseTag: string)

  /** The ScanBinding row of a scan: absent, or present with an optional task. */
  datatype Binding = Unbound | Bound(task: Option<TaskId>)

  /**
   * One scan. `child` is the scan whose `parent` is this one (the older scan
   * it replaced, found by get_child_scan); `lastAccess` is a timestamp in seconds.
   */
  datatype Scan = Scan(
    scanType: ScanType,
    state: ScanState,
    nvr: string,
    tag: Option<TagRef>,
    username: string,
    package: nat,
    base: Option<ScanId>,
    parent: Option<ScanId>,
    child: Option<ScanId>,
    enabled: bool,
    lastAccess: Option<int>,
    binding: Binding)

  /** What the hub does outside the database: bus messages, task cancellation, result creation. */
  datatype Effect =
    | BusMessage(state: ScanState, scan: ScanId, key: string)
    | TaskCancel(task: TaskId, recursive: bool)
    | ResultsCreated(scan: ScanId)

  /** The database rows the lifecycle touches and the log of effects performed so far. */
  datatype Store = Store(scans: map<ScanId, Scan>, tasks: map<TaskId, Kobo.Task>, log: seq<Effect>)

  /**
   * A scan's child was created before it, so has a smaller auto-increment id:
   * this is what makes the child chain finite.
   */
  ghost predicate ChildOrdered(scans: map<ScanId, Scan>)
  {
    forall id :: id in scans && scans[id].child.Some? ==>
      scans[id].child.value in scans && scans[id].child.value < id
  }

  ghost predicate ScanLinksOk(st: Store, id: ScanId)
    requires id in st.scans
  {
    var s := st.scans[id];
    && (s.child.Some? ==> s.child.value in st.scans && s.child.value < id && st.scans[s.child.value].parent == Some(id))
    && (s.parent.Some? ==> s.parent.value in st.scans && st.scans[s.parent.value].child == Some(id))
    && (s.base.Some? ==> s.base.value in st.scans)
    && (s.binding.Bound? && s.binding.task.Some? ==>
          s.binding.task.value in st.tasks && st.tasks[s.binding.task.value].scan == Some(id))
  }

  ghost predicate TaskLinksOk(st: Store, t: TaskId)
    requires t in st.tasks
  {
    var k := st.tasks[t];
    && (k.parent.Some? ==> k.parent.value in st.tasks && k.parent.value < t)
    && (k.scan.Some? ==> k.scan.value in st.scans && st.scans[k.scan.value].binding == Bound(Some(t)))
  }

  /**
   * Referential integrity of the foreign keys, one child per parent scan
   * (get_child_scan finds exactly one), one scan per task binding, and
   * parents older than their children (smaller ids) for scans and tasks.
   */
  ghost predicate Wf(st: Store)
  {
    && (forall id {:trigger ScanLinksOk(st, id)} :: id in st.scans ==> ScanLinksOk(st, id))
    && (forall t {:trigger TaskLinksOk(st, t)} :: t in st.tasks ==> TaskLinksOk(st, t))
  }

  lemma WfChildOrdered(st: Store)
    requires Wf(st)
    ensures ChildOrdered(st.scans)
  {
    forall id | id in st.scans && st.scans[id].child.Some?
      ensures st.scans[id].child.value in st.scans && st.scans[id].child.value < id
    {
      assert ScanLinksOk(st, id);
    }
  }

  /**
   * `b` differs from `a` only in the scans' state and enabled flag, the
   * tasks' state and result, and effects appended to the log.
   */
  ghost predicate SameShape(a: Store, b: Store)
  {
    && a.scans.Keys == b.scans.Keys
    && a.tasks.Keys == b.tasks.Keys
    && (forall id :: id in a.scans ==>
          a.scans[id].(state := b.scans[id].state, enabled := b.scans[id].enabled) == b.scans[id])
    && (forall t :: t in a.tasks ==>
          a.tasks[t].(state := b.tasks[t].state, result := b.tasks[t].result) == b.tasks[t])
    && a.log <= b.log
  }

  lemma SameShapeWf(a: Store, b: Store)
    requires Wf(a) && SameShape(a, b)
    ensures Wf(b)
  {
    forall id | id in b.scans ensures ScanLinksOk(b, id) {
      assert ScanLinksOk(a, id);
      var s := a.scans[id];
      if s.child.Some? { assert a.scans[s.child.value].parent == b.scans[s.child.value].parent; }
      if s.parent.Some? { assert a.scans[s.parent.value].child == b.scans[s.parent.value].child; }
      if s.binding.Bound? && s.binding.task.Some? {
        assert a.tasks[s.binding.task.value].scan == b.tasks[s.binding.task.value].scan;
      }
    }
    forall t | t in b.tasks ensures TaskLinksOk(b, t) {
      assert TaskLinksOk(a, t);
      var k := a.tasks[t];
      if k.scan.Some? { assert a.scans[k.scan.value].binding == b.scans[k.scan.value].binding; }
    }
  }

  lemma SameShapeTrans(a: Store, b: Store, c: Store)
    requires SameShape(a, b) && SameShape(b, c)
    ensures SameShape(a, c)
  {
    forall id | id in a.scans
      ensures a.scans[id].(state := c.scans[id].state, enabled := c.scans[id].enabled) == c.scans[id]
    {
      assert a.scans[id].(state := b.scans[id].state, enabled := b.scans[id].enabled) == b.scans[id];
    }
    forall t | t in a.tasks
      ensures a.tasks[t].(state := c.tasks[t].state, result := c.tasks[t].result) == c.tasks[t]
    {
      assert a.tasks[t].(state := b.tasks[t].state, result := b.tasks[t].result) == b.tasks[t];
    }
  }

  /** The message key of scan_state_notice. */
  function NoticeKey(s: ScanState): (k: string)
    ensures k == "unfinished" <==> s in InProgress
    ensures k == "finished" <==> s !in InProgress
  {
    if s in InProgress then "unfinished" else "finished"
  }

  /**
   * The bus message scan_state_notice posts for a scan in its new state:
   * none for a base scan, none when bus messages are switched off.
   */
  function Notice(scan: Scan, id: ScanId, sendBus: bool): (r: seq<Effect>)
    ensures |r| <= 1
    ensures r != [] <==> !IsErrataBaseScan(scan.scanType) && sendBus
    ensures r != [] ==> r[0].BusMessage? && r[0].scan == id && r[0].state == scan.state
    ensures r != [] ==> (r[0].key == "unfinished" <==> scan.state in InProgress)
  {
    if IsErrataBaseScan(scan.scanType) then []
    else if sendBus then [BusMessage(scan.state, id, NoticeKey(scan.state))]
    else []
  }

  /**
   * Scan.set_state: writing the current state again does nothing at all; a
   * new state changes that scan's state only and posts its notice.
   */
  function SetStateSpec(st: Store, id: ScanId, s: ScanState, sendBus: bool): (r: Store)
    requires id in st.scans
    ensures SameShape(st, r) && r.tasks == st.tasks
    ensures r.scans == st.scans[id := st.scans[id].(state := s)]
    ensures st.scans[id].state == s ==> r == st
    ensures st.scans[id].state != s ==> r.log == st.log + Notice(r.scans[id], id, sendBus)
  {
    var scan := st.scans[id];
    if scan.state == s then st
    else
      var scan' := scan.(state := s);
      st.(scans := st.scans[id := scan'], log := st.log + Notice(scan', id, sendBus))
  }

  lemma SetStateIdempotent(st: Store, id: ScanId, s: ScanState, sendBus: bool)
    requires id in st.scans
    ensures var once := SetStateSpec(st, id, s, sendBus);
            SetStateSpec(once, id, s, sendBus) == once
  {
  }

  /** The scans get_child_scan visits from `id`: the scan itself, its child, the child's child... */
  function ChildChain(scans: map<ScanId, Scan>, id: ScanId): (r: seq<ScanId>)
    requires ChildOrdered(scans) && id in scans
    ensures |r| >= 1 && r[0] == id
    ensures forall k :: 0 <= k < |r| ==> r[k] in scans && r[k] <= id
    ensures forall k :: 0 <= k < |r| - 1 ==> scans[r[k]].child == Some(r[k + 1])
    ensures scans[r[|r| - 1]].child.None?
    decreases id
  {
    match scans[id].child
    case None => [id]
    case Some(c) =>
      var rest := ChildChain(scans, c);
      assert forall k :: 1 <= k < |rest| + 1 ==> ([id] + rest)[k] == rest[k - 1];
      [id] + rest
  }

  /** The scan enable_last_successfull enables: the first on the child chain that finished well. */
  function FirstWell(scans: map<ScanId, Scan>, id: ScanId): (r: Option<ScanId>)
    requires ChildOrdered(scans) && id in scans
    ensures r.Some? ==> r.value in scans && scans[r.value].state in FinishedWell && r.value <= id
    decreases id
  {
    if scans[id].state in FinishedWell then Some(id)
    else match scans[id].child
      case None => None
      case Some(c) => FirstWell(scans, c)
  }

  /**
   * FirstWell against the chain: None exactly when no scan on the chain
   * finished well; otherwise the scan it names is on the chain and every
   * scan before it did not finish well.
   */
  lemma {:induction false} FirstWellIsFirstOnChain(scans: map<ScanId, Scan>, id: ScanId)
    requires ChildOrdered(scans) && id in scans
    ensures FirstWell(scans, id).None? ==>
      forall k :: 0 <= k < |ChildChain(scans, id)| ==> scans[ChildChain(scans, id)[k]].state !in FinishedWell
    ensures (forall k :: 0 <= k < |ChildChain(scans, id)| ==> scans[ChildChain(scans, id)[k]].state !in FinishedWell)
      ==> FirstWell(scans, id).None?
    ensures FirstWell(scans, id).Some? ==>
      exists k :: 0 <= k < |ChildChain(scans, id)| && ChildChain(scans, id)[k] == FirstWell(scans, id).value &&
        forall j :: 0 <= j < k ==> scans[ChildChain(scans, id)[j]].state !in FinishedWell
    decreases id
  {
    var chain := ChildChain(scans, id);
    if scans[id].state in FinishedWell {
      assert chain[0] == id;
    } else {
      match scans[id].child
      case None =>
        assert chain == [id];
      case Some(c) =>
        FirstWellIsFirstOnChain(scans, c);
        var rest := ChildChain(scans, c);
        assert chain == [id] + rest;
        match FirstWell(scans, c)
        case None =>
          assert forall m :: 0 <= m < |rest| ==> scans[rest[m]].state !in FinishedWell;
          forall k | 0 <= k < |chain| ensures scans[chain[k]].state !in FinishedWell {
            if k == 0 {
              assert chain[0] == id;
            } else {
              assert chain[k] == rest[k - 1];
              assert scans[rest[k - 1]].state !in FinishedWell;
            }
          }
        case Some(w) =>
          var k :| 0 <= k < |rest| && rest[k] == w &&
            forall j :: 0 <= j < k ==> scans[rest[j]].state !in FinishedWell;
          assert chain[k + 1] == w;
          forall j | 0 <= j < k + 1 ensures scans[chain[j]].state !in FinishedWell {
            if j > 0 { assert chain[j] == rest[j - 1]; }
          }
    }
  }

  /**
   * Scan.enable_last_successfull: only the first well-finished scan of the
   * chain changes, and only its enabled flag, which becomes true.
   */
  function EnableLastSuccessfulSpec(st: Store, id: ScanId): (r: Store)
    requires ChildOrdered(st.scans) && id in st.scans
    ensures SameShape(st, r) && r.tasks == st.tasks && r.log == st.log
    ensures forall x :: x in st.scans ==>
      r.scans[x] == if FirstWell(st.scans, id) == Some(x) then st.scans[x].(enabled := true) else st.scans[x]
  {
    match FirstWell(st.scans, id)
    case None => st
    case Some(c) => st.(scans := st.scans[c := st.scans[c].(enabled := true)])
  }

  /**
   * At most one scan changes; no scan changes state; a scan that becomes
   * enabled finished well, so a failed or canceled scan is never enabled.
   */
  lemma EnableChangesAtMostOne(st: Store, id: ScanId)
    requires ChildOrdered(st.scans) && id in st.scans
    ensures var r := EnableLastSuccessfulSpec(st, id);
      && (forall x, y :: x in st.scans && y in st.scans && r.scans[x] != st.scans[x] && r.scans[y] != st.scans[y] ==> x == y)
      && (forall x :: x in st.scans ==> r.scans[x].state == st.scans[x].state)
      && (forall x :: x in st.scans && r.scans[x].enabled && !st.scans[x].enabled ==> st.scans[x].state in FinishedWell)
      && (forall x :: x in st.scans && st.scans[x].state in FinishedBad ==> r.scans[x] == st.scans[x])
  {
  }

  /** Scan.clone_scan: a fresh scan copying the identity of `s`; base scans are cloned disabled and without base. */
  function Clone(s: Scan, base: Option<ScanId>, now: int): (c: Scan)
    ensures c.scanType == s.scanType && c.nvr == s.nvr && c.tag == s.tag
    ensures c.username == s.username && c.package == s.package
    ensures IsErrataBaseScan(s.scanType) ==> c.base == None && !c.enabled
    ensures !IsErrataBaseScan(s.scanType) ==> c.base == base && c.enabled
    ensures c.state == Init && c.lastAccess == Some(now)
    ensures c.parent == None && c.child == None && c.binding == Unbound
  {
    Scan(s.scanType, Init, s.nvr, s.tag, s.username, s.package,
         if IsErrataBaseScan(s.scanType) then None else base,
         None, None, !IsErrataBaseScan(s.scanType), Some(now), Unbound)
  }

  /** Why Scan.finalize raises: the scan has no ScanBinding row, or its binding has no result. */
  datatype FinalizeError = NoBinding | NoResult

  /**
   * Scan.finalize: a scan without unprocessed defects ends BUG_CONFIRMED if
   * its result has bugs, else WAIVED. `hasBugs` is the has_bugs answer of the
   * binding's result, None when the result is NULL; without a binding or a
   * result the call raises before anything is written.
   */
  function FinalizeSpec(st: Store, id: ScanId, hasBugs: Option<bool>, sendBus: bool): (r: Result<Store, FinalizeError>)
    requires id in st.scans
    ensures r.Success? <==> st.scans[id].binding.Bound? && hasBugs.Some?
    ensures st.scans[id].binding.Unbound? ==> r == Failure(NoBinding)
    ensures st.scans[id].binding.Bound? && hasBugs.None? ==> r == Failure(NoResult)
    ensures r.Success? ==>
      && SameShape(st, r.value)
      && r.value.scans[id].state == (if hasBugs.value then BugConfirmed else Waived)
      && r.value.scans[id].state in FinishedWell
      && (r.value.scans[id].state in Processed <==> !hasBugs.value)
      && (forall x :: x in st.scans && x != id ==> r.value.scans[x] == st.scans[x])
      && r.value.scans[id] == st.scans[id].(state := r.value.scans[id].state)
      && r.value.tasks == st.tasks
      && r.value.log == st.log +
           (if st.scans[id].state != r.value.scans[id].state then Notice(r.value.scans[id], id, sendBus) else [])
  {
    if st.scans[id].binding.Unbound? then Failure(NoBinding)
    else if hasBugs.None? then Failure(NoResult)
    else Success(SetStateSpec(st, id, if hasBugs.value then BugConfirmed else Waived, sendBus))
  }
}
