/**
 * The change-feed payloads the two handlers receive and the entries of the
 * notification log standing in for `window.dispatchEvent`.
 */
module ChangeEvents {
  import opened Wrappers
  import opened KanbanTypes

  /**
   * A `task_columns` payload. INSERT and UPDATE carry the new row; DELETE
   * carries the id of its `old` record, `None` when `old` or its id is missing.
   */
  datatype ColumnEvent =
    | ColumnInsert(newColumn: Column)
    | ColumnUpdate(newColumn: Column)
    | ColumnDelete(oldId: Option<Id>)

  /** A `tasks` payload: INSERT carries the new row, UPDATE a possibly partial one. */
  datatype TaskEvent =
    | TaskInsert(newTask: Task)
    | TaskUpdate(patch: TaskPatch)
    | TaskDelete(oldId: Option<Id>)

  /**
   * One dispatched `CustomEvent`. `ColumnChanged` / `TaskChanged` have the raw
   * payload as `detail`; `ColumnRemoved` / `TaskRemoved` add the local element
   * that was spliced out as `fullData`; `TaskSoftDeleted` adds the incoming
   * `new` record as `fullData` together with `softDelete: true`.
   */
  datatype Notification =
    | ColumnChanged(columnEvent: ColumnEvent)
    | ColumnRemoved(columnEvent: ColumnEvent, removedColumn: Column)
    | TaskChanged(taskEvent: TaskEvent)
    | TaskRemoved(taskEvent: TaskEvent, removedTask: Task)
    | TaskSoftDeleted(taskEvent: TaskEvent, incoming: TaskPatch)

  /**
   * `if (payload.old && payload.old.id)`: the id a DELETE targets, or `None`
   * when it is missing or the empty string (which JavaScript treats as false).
   */
  function DeleteTarget(oldId: Option<Id>): (r: Option<Id>)
    ensures r == None <==> oldId == None || oldId == Some("")
    ensures r != None ==> r == oldId
  {
    if oldId.Some? && oldId.value != "" then oldId else None
  }

  /**
   * `payload.new.created_by === userData?.id`. Without a session `userData?.id`
   * is `undefined`, which no stored `created_by` (a string or `null`) equals.
   */
  predicate IsSelfEcho(createdBy: Option<UserId>, currentUser: Option<UserId>)
    ensures currentUser == None ==> !IsSelfEcho(createdBy, currentUser)
    ensures createdBy == None ==> !IsSelfEcho(createdBy, currentUser)
    ensures IsSelfEcho(createdBy, currentUser) <==> currentUser != None && createdBy == currentUser
  {
    currentUser.Some? && createdBy == Some(currentUser.value)
  }
}
