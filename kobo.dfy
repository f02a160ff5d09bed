/**
 * The part of the kobo task framework the scan lifecycle relies on: task
 * states and a task record with its parent task and its result text.
 */
module Kobo {
  import opened Wrappers

  type TaskId = nat

  datatype TaskState = Free | Assigned | Open | Closed | Canceled | Failed | Interrupted | Timeout | Created

  /** The task states in which the hub still cancels a scan's task. */
  const Cancelable: set<TaskState> := {Open, Free, Created}

  /**
   * A task. `scan` is the scan its ScanBinding row joins it to (the reverse
   * one-to-one relation `task.scanbinding.scan`), None when there is no binding.
   */
  datatype Task = Task(state: TaskState, parent: Option<TaskId>, result: string, scan: Option<nat>)
}
