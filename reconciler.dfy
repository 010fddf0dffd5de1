/**
 * What one change-feed payload does to the mirrored collections: the new
 * collection and the notifications dispatched, as functions of the collection
 * before the payload arrived. The methods of `RealtimeTask.Board` are proved
 * against these functions; the lemmas below state the handlers' promises.
 */
module Reconciler {
  import opened Wrappers
  import opened KanbanTypes
  import opened Keyed
  import opened ColumnOrder
  import opened ChangeEvents

  datatype ColumnOutcome = ColumnOutcome(columns: seq<Column>, emitted: seq<Notification>)
  datatype TaskOutcome = TaskOutcome(tasks: seq<Task>, emitted: seq<Notification>)

  /** The column handler. */
  function ReactToColumn(cols: seq<Column>, e: ColumnEvent): (r: ColumnOutcome)
    ensures |r.emitted| <= 1
    ensures UniqueKeys(cols, ColumnId) ==> UniqueKeys(r.columns, ColumnId)
    ensures SortedByOrder(cols) ==> SortedByOrder(r.columns)
  {
    match e
    case ColumnInsert(c) =>
      if HasKey(cols, ColumnId, c.id) then ColumnOutcome(cols, [])
      else
        assert UniqueKeys(cols, ColumnId) ==> UniqueKeys(SortByOrder(cols + [c]), ColumnId) by {
          if UniqueKeys(cols, ColumnId) {
            AppendKeepsUnique(cols, ColumnId, c);
            SortKeepsKeys(cols + [c], c.id);
          }
        }
        ColumnOutcome(SortByOrder(cols + [c]), [ColumnChanged(e)])
    case ColumnUpdate(c) =>
      var i := IndexOf(cols, ColumnId, c.id);
      if i == -1 then ColumnOutcome(cols, [])
      else
        assert UniqueKeys(cols, ColumnId) ==> UniqueKeys(SortByOrder(cols[i := c]), ColumnId) by {
          ReplaceKeepsKeys(cols, ColumnId, i, c, c.id);
          SortKeepsKeys(cols[i := c], c.id);
        }
        ColumnOutcome(SortByOrder(cols[i := c]), [ColumnChanged(e)])
    case ColumnDelete(oldId) =>
      match DeleteTarget(oldId)
      case None => ColumnOutcome(cols, [ColumnChanged(e)])
      case Some(id) =>
        var i := IndexOf(cols, ColumnId, id);
        if i == -1 then ColumnOutcome(cols, [ColumnChanged(e)])
        else
          assert UniqueKeys(cols, ColumnId) ==> UniqueKeys(RemoveAt(cols, i), ColumnId) by {
            RemoveAtKeys(cols, ColumnId, i, id);
          }
          ColumnOutcome(RemoveAt(cols, i), [ColumnRemoved(e, cols[i])])
  }

  /** The task handler, for the signed-in user `currentUser` (`None` without a session). */
  function ReactToTask(currentUser: Option<UserId>, ts: seq<Task>, e: TaskEvent): (r: TaskOutcome)
    ensures |r.emitted| <= 1
    ensures UniqueKeys(ts, TaskId) ==> UniqueKeys(r.tasks, TaskId)
  {
    match e
    case TaskInsert(t) =>
      if !IsSelfEcho(t.createdBy, currentUser) && !HasKey(ts, TaskId, t.id) then
        assert UniqueKeys(ts, TaskId) ==> UniqueKeys(ts + [t], TaskId) by {
          if UniqueKeys(ts, TaskId) { AppendKeepsUnique(ts, TaskId, t); }
        }
        TaskOutcome(ts + [t], [])
      else TaskOutcome(ts, [])
    case TaskUpdate(p) =>
      var i := IndexOf(ts, TaskId, p.id);
      if p.isDeleted == Some(true) then
        if i != -1 then
          assert UniqueKeys(ts, TaskId) ==> UniqueKeys(RemoveAt(ts, i), TaskId) by {
            RemoveAtKeys(ts, TaskId, i, p.id);
          }
          TaskOutcome(RemoveAt(ts, i), [TaskSoftDeleted(e, p)])
        else TaskOutcome(ts, [])
      else if i != -1 then
        assert UniqueKeys(ts, TaskId) ==> UniqueKeys(ts[i := MergeTask(ts[i], p)], TaskId) by {
          ReplaceKeepsKeys(ts, TaskId, i, MergeTask(ts[i], p), p.id);
        }
        TaskOutcome(ts[i := MergeTask(ts[i], p)], [])
      else TaskOutcome(ts, [])
    case TaskDelete(oldId) =>
      match DeleteTarget(oldId)
      case None => TaskOutcome(ts, [TaskChanged(e)])
      case Some(id) =>
        var i := IndexOf(ts, TaskId, id);
        if i == -1 then TaskOutcome(ts, [TaskChanged(e)])
        else
          assert UniqueKeys(ts, TaskId) ==> UniqueKeys(RemoveAt(ts, i), TaskId) by {
            RemoveAtKeys(ts, TaskId, i, id);
          }
          TaskOutcome(RemoveAt(ts, i), [TaskRemoved(e, ts[i])])
  }

  // ---------------------------------------------------------------------------
  // Column payloads

  /**
   * INSERT of a column whose id is new: the column is added, the array ends up
   * sorted by order and holds the old columns plus the new one, and one
   * notification with the payload is dispatched; if the array was already in
   * order and no column has a greater order, the column simply goes last.
   * INSERT of a known id changes nothing and dispatches nothing.
   */
  lemma ColumnInsertEffect(cols: seq<Column>, c: Column)
    ensures var r := ReactToColumn(cols, ColumnInsert(c));
      if HasKey(cols, ColumnId, c.id) then
        r.columns == cols && r.emitted == []
      else
        && SortedByOrder(r.columns)
        && multiset(r.columns) == multiset(cols) + multiset{c}
        && r.emitted == [ColumnChanged(ColumnInsert(c))]
        && (SortedByOrder(cols) && (forall x :: x in cols ==> x.order <= c.order) ==> r.columns == cols + [c])
  {
    if !HasKey(cols, ColumnId, c.id) && SortedByOrder(cols) && (forall x :: x in cols ==> x.order <= c.order) {
      AppendLargestStaysLast(cols, c);
    }
  }

  /**
   * UPDATE of a known column: the entry found by id is replaced by the new row
   * as a whole, the array is re-sorted, and one notification is dispatched.
   * UPDATE of an unknown id inserts nothing, changes nothing, dispatches nothing.
   */
  lemma ColumnUpdateEffect(cols: seq<Column>, c: Column)
    ensures var r := ReactToColumn(cols, ColumnUpdate(c));
      if HasKey(cols, ColumnId, c.id) then
        var i := IndexOf(cols, ColumnId, c.id);
        && cols[i].id == c.id
        && SortedByOrder(r.columns)
        && multiset(r.columns) == multiset(cols[i := c])
        && c in r.columns
        && r.emitted == [ColumnChanged(ColumnUpdate(c))]
      else
        r.columns == cols && r.emitted == [] && !HasKey(r.columns, ColumnId, c.id)
  {
    if HasKey(cols, ColumnId, c.id) {
      var i := IndexOf(cols, ColumnId, c.id);
      var r := ReactToColumn(cols, ColumnUpdate(c));
      assert c in multiset(cols[i := c]) by { assert cols[i := c][i] == c; }
      assert c in multiset(r.columns);
    }
  }

  /**
   * The column handler never looks at `is_deleted`: a column soft-deleted by
   * an UPDATE stays in the array, now carrying the flag.
   */
  lemma ColumnSoftDeleteStaysVisible(cols: seq<Column>, c: Column)
    requires c.isDeleted && HasKey(cols, ColumnId, c.id)
    ensures c in ReactToColumn(cols, ColumnUpdate(c)).columns
  {
    ColumnUpdateEffect(cols, c);
  }

  /**
   * DELETE of a known id removes exactly that column, keeps the others in
   * their order, and dispatches one notification carrying the removed local
   * column. DELETE of an unknown id, or without an id, changes nothing and
   * still dispatches one notification with the raw payload.
   */
  lemma ColumnDeleteEffect(cols: seq<Column>, oldId: Option<Id>)
    ensures var r := ReactToColumn(cols, ColumnDelete(oldId));
      if DeleteTarget(oldId).Some? && HasKey(cols, ColumnId, oldId.value) then
        var i := IndexOf(cols, ColumnId, oldId.value);
        && cols[i].id == oldId.value
        && r.columns == cols[..i] + cols[i + 1..]
        && |r.columns| == |cols| - 1
        && r.emitted == [ColumnRemoved(ColumnDelete(oldId), cols[i])]
        && (UniqueKeys(cols, ColumnId) ==> !HasKey(r.columns, ColumnId, oldId.value))
      else
        r.columns == cols && r.emitted == [ColumnChanged(ColumnDelete(oldId))]
  {
  }

  /**
   * With unique ids, a DELETE naming the id of the column at index `j`
   * removes exactly `cols[j]` and the notification carries `cols[j]`.
   */
  lemma ColumnDeleteById(cols: seq<Column>, oldId: Option<Id>, j: nat)
    requires j < |cols| && UniqueKeys(cols, ColumnId) && DeleteTarget(oldId) == Some(cols[j].id)
    ensures var r := ReactToColumn(cols, ColumnDelete(oldId));
      r.columns == cols[..j] + cols[j + 1..] && r.emitted == [ColumnRemoved(ColumnDelete(oldId), cols[j])]
  {
    UniqueKeyAtIndexOf(cols, ColumnId, j);
  }

  /** The payloads the column handler absorbs without any effect. */
  predicate ColumnSuppressed(cols: seq<Column>, e: ColumnEvent) {
    || (e.ColumnInsert? && HasKey(cols, ColumnId, e.newColumn.id))
    || (e.ColumnUpdate? && !HasKey(cols, ColumnId, e.newColumn.id))
  }

  /**
   * Exactly one notification per column payload, except for an INSERT of a
   * known id and an UPDATE of an unknown id, which dispatch nothing and change
   * nothing.
   */
  lemma ColumnNotificationCount(cols: seq<Column>, e: ColumnEvent)
    ensures var r := ReactToColumn(cols, e);
      && |r.emitted| == (if ColumnSuppressed(cols, e) then 0 else 1)
      && (ColumnSuppressed(cols, e) ==> r.columns == cols)
  {
  }

  /** A repeated column INSERT is absorbed: the second copy changes nothing and dispatches nothing. */
  lemma {:induction false} ColumnInsertIdempotent(cols: seq<Column>, c: Column)
    ensures var r1 := ReactToColumn(cols, ColumnInsert(c));
      ReactToColumn(r1.columns, ColumnInsert(c)) == ColumnOutcome(r1.columns, [])
  {
    if !HasKey(cols, ColumnId, c.id) {
      assert HasKey(cols + [c], ColumnId, c.id) by { assert (cols + [c])[|cols|] == c; }
      SortKeepsKeys(cols + [c], c.id);
    }
  }

  /** A sequence of column payloads handled one after another; the notifications accumulate in order. */
  function ColumnRun(cols: seq<Column>, es: seq<ColumnEvent>): ColumnOutcome
    decreases |es|
  {
    if es == [] then ColumnOutcome(cols, [])
    else
      var r := ReactToColumn(cols, es[0]);
      var rest := ColumnRun(r.columns, es[1..]);
      ColumnOutcome(rest.columns, r.emitted + rest.emitted)
  }

  /** How many payloads of the run are absorbed as `ColumnSuppressed`, each judged against the array it meets. */
  function SuppressedInRun(cols: seq<Column>, es: seq<ColumnEvent>): nat
    decreases |es|
  {
    if es == [] then 0
    else
      (if ColumnSuppressed(cols, es[0]) then 1 else 0)
      + SuppressedInRun(ReactToColumn(cols, es[0]).columns, es[1..])
  }

  /**
   * Over any sequence of column payloads, unique ids stay unique and a sorted
   * array stays sorted after every payload, and one notification is
   * dispatched for every payload that is not absorbed.
   */
  lemma {:induction false} ColumnRunKeepsInvariants(cols: seq<Column>, es: seq<ColumnEvent>)
    ensures UniqueKeys(cols, ColumnId) ==> UniqueKeys(ColumnRun(cols, es).columns, ColumnId)
    ensures SortedByOrder(cols) ==> SortedByOrder(ColumnRun(cols, es).columns)
    ensures SuppressedInRun(cols, es) <= |es|
    ensures |ColumnRun(cols, es).emitted| == |es| - SuppressedInRun(cols, es)
    decreases |es|
  {
    if es != [] {
      ColumnNotificationCount(cols, es[0]);
      ColumnRunKeepsInvariants(ReactToColumn(cols, es[0]).columns, es[1..]);
    }
  }

  // ---------------------------------------------------------------------------
  // Task payloads

  /**
   * INSERT of a task: appended at the end exactly when it was created by
   * somebody other than the signed-in user and its id is new; otherwise
   * nothing changes. A task INSERT never dispatches a notification.
   */
  lemma TaskInsertEffect(currentUser: Option<UserId>, ts: seq<Task>, t: Task)
    ensures var r := ReactToTask(currentUser, ts, TaskInsert(t));
      && r.emitted == []
      && (if !IsSelfEcho(t.createdBy, currentUser) && !HasKey(ts, TaskId, t.id)
          then r.tasks == ts + [t] else r.tasks == ts)
  {
  }

  /**
   * A local optimistic insert followed by the feed's INSERT for the same row
   * leaves exactly one entry with that id, whoever the signed-in user is.
   */
  lemma OptimisticInsertThenEcho(currentUser: Option<UserId>, ts: seq<Task>, t: Task)
    requires UniqueKeys(ts, TaskId) && !HasKey(ts, TaskId, t.id)
    ensures var local := ts + [t];
      && ReactToTask(currentUser, local, TaskInsert(t)) == TaskOutcome(local, [])
      && UniqueKeys(local, TaskId) && HasKey(local, TaskId, t.id)
  {
    AppendKeepsUnique(ts, TaskId, t);
    assert (ts + [t])[|ts|] == t;
  }

  /** A repeated task INSERT is absorbed: the second copy changes nothing. */
  lemma TaskInsertIdempotent(currentUser: Option<UserId>, ts: seq<Task>, t: Task)
    ensures var r1 := ReactToTask(currentUser, ts, TaskInsert(t));
      ReactToTask(currentUser, r1.tasks, TaskInsert(t)) == r1
  {
    if !IsSelfEcho(t.createdBy, currentUser) && !HasKey(ts, TaskId, t.id) {
      assert (ts + [t])[|ts|] == t;
    }
  }

  /**
   * UPDATE with `is_deleted` true of a known task: that task is removed, the
   * others keep their order, and one notification is dispatched whose
   * `fullData` is the incoming record (not the local one). Of an unknown id:
   * nothing changes and nothing is dispatched.
   */
  lemma TaskSoftDeleteEffect(currentUser: Option<UserId>, ts: seq<Task>, p: TaskPatch)
    requires p.isDeleted == Some(true)
    ensures var r := ReactToTask(currentUser, ts, TaskUpdate(p));
      if HasKey(ts, TaskId, p.id) then
        var i := IndexOf(ts, TaskId, p.id);
        && ts[i].id == p.id
        && r.tasks == ts[..i] + ts[i + 1..]
        && r.emitted == [TaskSoftDeleted(TaskUpdate(p), p)]
        && (UniqueKeys(ts, TaskId) ==> !HasKey(r.tasks, TaskId, p.id))
      else
        r.tasks == ts && r.emitted == []
  {
  }

  /**
   * With unique ids, a soft-delete UPDATE of the task at index `j` removes
   * exactly `ts[j]`, and the notification carries the incoming record.
   */
  lemma TaskSoftDeleteById(currentUser: Option<UserId>, ts: seq<Task>, p: TaskPatch, j: nat)
    requires p.isDeleted == Some(true)
    requires j < |ts| && UniqueKeys(ts, TaskId) && ts[j].id == p.id
    ensures var r := ReactToTask(currentUser, ts, TaskUpdate(p));
      r.tasks == ts[..j] + ts[j + 1..] && r.emitted == [TaskSoftDeleted(TaskUpdate(p), p)]
  {
    UniqueKeyAtIndexOf(ts, TaskId, j);
  }

  /**
   * UPDATE without the soft-delete flag of a known task: the payload is
   * merged onto the entry at the same index (absent fields keep their local
   * values), every other entry and the length are unchanged, and nothing is
   * dispatched. Of an unknown id: nothing changes.
   */
  lemma TaskMergeEffect(currentUser: Option<UserId>, ts: seq<Task>, p: TaskPatch)
    requires p.isDeleted != Some(true)
    ensures var r := ReactToTask(currentUser, ts, TaskUpdate(p));
      && r.emitted == []
      && if HasKey(ts, TaskId, p.id) then
           var i := IndexOf(ts, TaskId, p.id);
           && |r.tasks| == |ts|
           && r.tasks[i] == MergeTask(ts[i], p)
           && r.tasks[i].id == ts[i].id
           && (forall j :: 0 <= j < |ts| && j != i ==> r.tasks[j] == ts[j])
         else
           r.tasks == ts
  {
  }

  /**
   * DELETE of a known task id removes exactly that task, keeps the others in
   * their order, and dispatches one notification carrying the removed local
   * task. DELETE of an unknown id, or without an id, changes nothing and still
   * dispatches one notification with the raw payload.
   */
  lemma TaskDeleteEffect(currentUser: Option<UserId>, ts: seq<Task>, oldId: Option<Id>)
    ensures var r := ReactToTask(currentUser, ts, TaskDelete(oldId));
      if DeleteTarget(oldId).Some? && HasKey(ts, TaskId, oldId.value) then
        var i := IndexOf(ts, TaskId, oldId.value);
        && ts[i].id == oldId.value
        && r.tasks == ts[..i] + ts[i + 1..]
        && |r.tasks| == |ts| - 1
        && r.emitted == [TaskRemoved(TaskDelete(oldId), ts[i])]
        && (UniqueKeys(ts, TaskId) ==> !HasKey(r.tasks, TaskId, oldId.value))
      else
        r.tasks == ts && r.emitted == [TaskChanged(TaskDelete(oldId))]
  {
  }

  /**
   * With unique ids, a DELETE naming the id of the task at index `j` removes
   * exactly `ts[j]` and the notification carries `ts[j]`.
   */
  lemma TaskDeleteById(currentUser: Option<UserId>, ts: seq<Task>, oldId: Option<Id>, j: nat)
    requires j < |ts| && UniqueKeys(ts, TaskId) && DeleteTarget(oldId) == Some(ts[j].id)
    ensures var r := ReactToTask(currentUser, ts, TaskDelete(oldId));
      r.tasks == ts[..j] + ts[j + 1..] && r.emitted == [TaskRemoved(TaskDelete(oldId), ts[j])]
  {
    UniqueKeyAtIndexOf(ts, TaskId, j);
  }

  /** The task payloads that dispatch a notification: every DELETE, and a soft-delete of a known task. */
  predicate TaskNotifies(ts: seq<Task>, e: TaskEvent) {
    || e.TaskDelete?
    || (e.TaskUpdate? && e.patch.isDeleted == Some(true) && HasKey(ts, TaskId, e.patch.id))
  }

  /** Exactly one notification for the payloads `TaskNotifies` names, none for the others. */
  lemma TaskNotificationCount(currentUser: Option<UserId>, ts: seq<Task>, e: TaskEvent)
    ensures |ReactToTask(currentUser, ts, e).emitted| == (if TaskNotifies(ts, e) then 1 else 0)
  {
  }

  /** No task in the collection carries the soft-delete flag. */
  predicate NoSoftDeleted(ts: seq<Task>) {
    forall j :: 0 <= j < |ts| ==> !ts[j].isDeleted
  }

  /**
   * Soft-deleted tasks never become visible through an UPDATE or a DELETE:
   * only an INSERT of a row that already carries the flag (which the handler
   * does not filter) can add one.
   */
  lemma TaskEventKeepsNoSoftDeleted(currentUser: Option<UserId>, ts: seq<Task>, e: TaskEvent)
    requires NoSoftDeleted(ts)
    requires e.TaskInsert? ==> !e.newTask.isDeleted
    ensures NoSoftDeleted(ReactToTask(currentUser, ts, e).tasks)
  {
  }

  /** The task handler does not look at `is_deleted` on INSERT: a flagged row from another user is shown. */
  lemma InsertedSoftDeletedTaskIsVisible(currentUser: Option<UserId>, ts: seq<Task>, t: Task)
    requires t.isDeleted && !IsSelfEcho(t.createdBy, currentUser) && !HasKey(ts, TaskId, t.id)
    ensures !NoSoftDeleted(ReactToTask(currentUser, ts, TaskInsert(t)).tasks)
  {
    assert (ts + [t])[|ts|] == t;
  }

  /** A sequence of task payloads handled one after another, for one signed-in user. */
  function TaskRun(currentUser: Option<UserId>, ts: seq<Task>, es: seq<TaskEvent>): TaskOutcome
    decreases |es|
  {
    if es == [] then TaskOutcome(ts, [])
    else
      var r := ReactToTask(currentUser, ts, es[0]);
      var rest := TaskRun(currentUser, r.tasks, es[1..]);
      TaskOutcome(rest.tasks, r.emitted + rest.emitted)
  }

  /**
   * Over any sequence of task payloads unique ids stay unique, and, when no
   * INSERT carries the soft-delete flag, no flagged task is ever shown.
   */
  lemma {:induction false} TaskRunKeepsInvariants(currentUser: Option<UserId>, ts: seq<Task>, es: seq<TaskEvent>)
    ensures UniqueKeys(ts, TaskId) ==> UniqueKeys(TaskRun(currentUser, ts, es).tasks, TaskId)
    ensures NoSoftDeleted(ts) && (forall k :: 0 <= k < |es| && es[k].TaskInsert? ==> !es[k].newTask.isDeleted)
      ==> NoSoftDeleted(TaskRun(currentUser, ts, es).tasks)
    decreases |es|
  {
    if es != [] {
      if NoSoftDeleted(ts) && (forall k :: 0 <= k < |es| && es[k].TaskInsert? ==> !es[k].newTask.isDeleted) {
        TaskEventKeepsNoSoftDeleted(currentUser, ts, es[0]);
        assert forall k :: 0 <= k < |es[1..]| ==> es[1..][k] == es[k + 1];
      }
      TaskRunKeepsInvariants(currentUser, ReactToTask(currentUser, ts, es[0]).tasks, es[1..]);
    }
  }
}
