/**
 * The realtime reconciler as the composable runs it: the `columns` and
 * `tasks` arrays shown by the board are edited in place by the two payload
 * callbacks, and every `window.dispatchEvent` appends to `notifications`.
 */
module RealtimeTask {
  import opened Wrappers
  import opened KanbanTypes
  import opened Keyed
  import opened ColumnOrder
  import opened ChangeEvents
  import opened Reconciler

  class Board {
    var columns: seq<Column>
    var tasks: seq<Task>
    var notifications: seq<Notification>

    /** Ids are unique in both arrays and the columns are in order. */
    ghost predicate Valid()
      reads this
    {
      UniqueKeys(columns, ColumnId) && UniqueKeys(tasks, TaskId) && SortedByOrder(columns)
    }

    /** The arrays as the board loaded them; nothing dispatched yet. */
    constructor (initialColumns: seq<Column>, initialTasks: seq<Task>)
      ensures columns == initialColumns && tasks == initialTasks && notifications == []
      ensures UniqueKeys(initialColumns, ColumnId) && UniqueKeys(initialTasks, TaskId) && SortedByOrder(initialColumns)
        ==> Valid()
    {
      columns := initialColumns;
      tasks := initialTasks;
      notifications := [];
    }

    // -------------------------------------------------------------------------
    // The `task_columns` callback

    method OnColumnInsert(c: Column)
      modifies this
      ensures var r := ReactToColumn(old(columns), ColumnInsert(c));
        columns == r.columns && notifications == old(notifications) + r.emitted
      ensures HasKey(old(columns), ColumnId, c.id) ==> columns == old(columns) && notifications == old(notifications)
      ensures !HasKey(old(columns), ColumnId, c.id) ==>
        && SortedByOrder(columns)
        && multiset(columns) == multiset(old(columns)) + multiset{c}
        && notifications == old(notifications) + [ColumnChanged(ColumnInsert(c))]
      ensures tasks == old(tasks)
      ensures old(Valid()) ==> Valid()
    {
      if !HasKey(columns, ColumnId, c.id) {
        columns := columns + [c];
        columns := SortByOrder(columns);
        notifications := notifications + [ColumnChanged(ColumnInsert(c))];
      }
    }

    method OnColumnUpdate(c: Column)
      modifies this
      ensures var r := ReactToColumn(old(columns), ColumnUpdate(c));
        columns == r.columns && notifications == old(notifications) + r.emitted
      ensures var i := IndexOf(old(columns), ColumnId, c.id);
        if i == -1 then columns == old(columns) && notifications == old(notifications)
        else
          && SortedByOrder(columns)
          && multiset(columns) == multiset(old(columns)[i := c])
          && notifications == old(notifications) + [ColumnChanged(ColumnUpdate(c))]
      ensures tasks == old(tasks)
      ensures old(Valid()) ==> Valid()
    {
      var index := IndexOf(columns, ColumnId, c.id);
      if index != -1 {
        columns := columns[index := c];
        columns := SortByOrder(columns);
        notifications := notifications + [ColumnChanged(ColumnUpdate(c))];
      }
    }

    method OnColumnDelete(oldId: Option<Id>)
      modifies this
      ensures var r := ReactToColumn(old(columns), ColumnDelete(oldId));
        columns == r.columns && notifications == old(notifications) + r.emitted
      ensures |notifications| == |old(notifications)| + 1
      ensures tasks == old(tasks)
      ensures old(Valid()) ==> Valid()
    {
      var e := ColumnDelete(oldId);
      match DeleteTarget(oldId)
      case Some(deletedColumnId) =>
        var index := IndexOf(columns, ColumnId, deletedColumnId);
        if index != -1 {
          var deletedColumn := columns[index];
          columns := RemoveAt(columns, index);
          notifications := notifications + [ColumnRemoved(e, deletedColumn)];
        } else {
          notifications := notifications + [ColumnChanged(e)];
        }
      case None =>
        notifications := notifications + [ColumnChanged(e)];
    }

    /** The column callback: dispatch on the payload's event type. */
    method HandleColumnPayload(e: ColumnEvent)
      modifies this
      ensures var r := ReactToColumn(old(columns), e);
        columns == r.columns && notifications == old(notifications) + r.emitted
      ensures tasks == old(tasks)
      ensures old(Valid()) ==> Valid()
    {
      match e
      case ColumnInsert(c) => OnColumnInsert(c);
      case ColumnUpdate(c) => OnColumnUpdate(c);
      case ColumnDelete(oldId) => OnColumnDelete(oldId);
    }

    // -------------------------------------------------------------------------
    // The `tasks` callback; `currentUser` is what `getCurrentUser()` resolved to

    method OnTaskInsert(currentUser: Option<UserId>, t: Task)
      modifies this
      ensures var r := ReactToTask(currentUser, old(tasks), TaskInsert(t));
        tasks == r.tasks && notifications == old(notifications) + r.emitted
      ensures tasks == if !IsSelfEcho(t.createdBy, currentUser) && !HasKey(old(tasks), TaskId, t.id)
                       then old(tasks) + [t] else old(tasks)
      ensures notifications == old(notifications)
      ensures columns == old(columns)
      ensures old(Valid()) ==> Valid()
    {
      if !IsSelfEcho(t.createdBy, currentUser) {
        if !HasKey(tasks, TaskId, t.id) {
          tasks := tasks + [t];
        }
      }
    }

    method OnTaskUpdate(p: TaskPatch)
      modifies this
      ensures forall u :: var r := ReactToTask(u, old(tasks), TaskUpdate(p));
        tasks == r.tasks && notifications == old(notifications) + r.emitted
      ensures var i := IndexOf(old(tasks), TaskId, p.id);
        if i == -1 then tasks == old(tasks) && notifications == old(notifications)
        else if p.isDeleted == Some(true) then
          && tasks == old(tasks)[..i] + old(tasks)[i + 1..]
          && notifications == old(notifications) + [TaskSoftDeleted(TaskUpdate(p), p)]
        else
          && tasks == old(tasks)[i := MergeTask(old(tasks)[i], p)]
          && notifications == old(notifications)
      ensures columns == old(columns)
      ensures old(Valid()) ==> Valid()
    {
      var index := IndexOf(tasks, TaskId, p.id);
      if p.isDeleted == Some(true) {
        if index != -1 {
          RemoveAtKeys(tasks, TaskId, index, p.id);
          tasks := RemoveAt(tasks, index);
          notifications := notifications + [TaskSoftDeleted(TaskUpdate(p), p)];
        }
      } else {
        if index != -1 {
          ReplaceKeepsKeys(tasks, TaskId, index, MergeTask(tasks[index], p), p.id);
          tasks := tasks[index := MergeTask(tasks[index], p)];
        }
      }
    }

    method OnTaskDelete(oldId: Option<Id>)
      modifies this
      ensures forall u :: var r := ReactToTask(u, old(tasks), TaskDelete(oldId));
        tasks == r.tasks && notifications == old(notifications) + r.emitted
      ensures |notifications| == |old(notifications)| + 1
      ensures columns == old(columns)
      ensures old(Valid()) ==> Valid()
    {
      var e := TaskDelete(oldId);
      match DeleteTarget(oldId)
      case Some(deletedTaskId) =>
        var index := IndexOf(tasks, TaskId, deletedTaskId);
        if index != -1 {
          var deletedTask := tasks[index];
          tasks := RemoveAt(tasks, index);
          notifications := notifications + [TaskRemoved(e, deletedTask)];
        } else {
          notifications := notifications + [TaskChanged(e)];
        }
      case None =>
        notifications := notifications + [TaskChanged(e)];
    }

    /** The task callback: dispatch on the payload's event type. */
    method HandleTaskPayload(currentUser: Option<UserId>, e: TaskEvent)
      modifies this
      ensures var r := ReactToTask(currentUser, old(tasks), e);
        tasks == r.tasks && notifications == old(notifications) + r.emitted
      ensures columns == old(columns)
      ensures old(Valid()) ==> Valid()
    {
      match e
      case TaskInsert(t) => OnTaskInsert(currentUser, t);
      case TaskUpdate(p) => OnTaskUpdate(p);
      case TaskDelete(oldId) => OnTaskDelete(oldId);
    }
  }
}
