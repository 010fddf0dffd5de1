/**
 * The two entities the board mirrors, task columns and tasks, and the partial
 * task snapshot carried by a remote UPDATE.
 */
module KanbanTypes {
  import opened Wrappers

  /** Row identifiers (UUIDs in practice) and user identifiers are strings. */
  type Id = string
  type UserId = string

  /** A `Date`; the reconciler only copies and compares timestamps. */
  type Timestamp = int

  /** A row of `task_columns`: the `Column` interface plus the `is_deleted` flag of the table. */
  datatype Column = Column(
    id: Id,
    name: string,
    projectId: Id,
    createdAt: Timestamp,
    order: int,
    isDeleted: bool)

  /**
   * A row of `tasks`: the `Task` interface plus `created_by` and `is_deleted`.
   * `null` and a missing optional date are both `None`.
   */
  datatype Task = Task(
    id: Id,
    title: string,
    description: string,
    status: Id,
    createdAt: Timestamp,
    startTask: Option<Timestamp>,
    endTask: Option<Timestamp>,
    projectId: Id,
    createdBy: Option<UserId>,
    isDeleted: bool)

  /**
   * The `new` record of a task UPDATE. Every field but `id` may be left out of
   * the payload (`None`); a nullable field that is present carries `Some(None)`
   * for an explicit `null`.
   */
  datatype TaskPatch = TaskPatch(
    id: Id,
    title: Option<string>,
    description: Option<string>,
    status: Option<Id>,
    createdAt: Option<Timestamp>,
    startTask: Option<Option<Timestamp>>,
    endTask: Option<Option<Timestamp>>,
    projectId: Option<Id>,
    createdBy: Option<Option<UserId>>,
    isDeleted: Option<bool>)

  /** The key functions by which both collections are searched. */
  function ColumnId(c: Column): Id { c.id }
  function TaskId(t: Task): Id { t.id }

  /**
   * `{ ...local, ...patch }`: the fields present in the patch win, the others
   * keep the local value. As full records: the local row overlaid by the patch.
   */
  function MergeTask(local: Task, p: TaskPatch): (r: Task)
    ensures FullPatch(r) == Overlay(FullPatch(local), p)
  {
    Task(
      p.id,
      p.title.GetOr(local.title),
      p.description.GetOr(local.description),
      p.status.GetOr(local.status),
      p.createdAt.GetOr(local.createdAt),
      p.startTask.GetOr(local.startTask),
      p.endTask.GetOr(local.endTask),
      p.projectId.GetOr(local.projectId),
      p.createdBy.GetOr(local.createdBy),
      p.isDeleted.GetOr(local.isDeleted))
  }

  /** A payload that names the row and carries no other field. */
  function EmptyPatch(id: Id): TaskPatch {
    TaskPatch(id, None, None, None, None, None, None, None, None, None)
  }

  /** A payload carrying the whole row `t`, as a full-row UPDATE does. */
  function FullPatch(t: Task): TaskPatch {
    TaskPatch(t.id, Some(t.title), Some(t.description), Some(t.status), Some(t.createdAt),
              Some(t.startTask), Some(t.endTask), Some(t.projectId), Some(t.createdBy),
              Some(t.isDeleted))
  }

  /** The combined effect of patch `p` followed by patch `q`: `q` wins where both carry a field. */
  function Overlay(p: TaskPatch, q: TaskPatch): TaskPatch {
    TaskPatch(
      q.id,
      if q.title.Some? then q.title else p.title,
      if q.description.Some? then q.description else p.description,
      if q.status.Some? then q.status else p.status,
      if q.createdAt.Some? then q.createdAt else p.createdAt,
      if q.startTask.Some? then q.startTask else p.startTask,
      if q.endTask.Some? then q.endTask else p.endTask,
      if q.projectId.Some? then q.projectId else p.projectId,
      if q.createdBy.Some? then q.createdBy else p.createdBy,
      if q.isDeleted.Some? then q.isDeleted else p.isDeleted)
  }

  /** A payload naming only the row keeps every local field. */
  lemma MergeEmptyPatchKeepsLocal(local: Task)
    ensures MergeTask(local, EmptyPatch(local.id)) == local
  {
  }

  /** A payload carrying the whole row replaces the local entry by that row. */
  lemma MergeFullPatchReplaces(local: Task, t: Task)
    ensures MergeTask(local, FullPatch(t)) == t
  {
  }

  /**
   * A payload that moves a task to another column (only `status` present)
   * changes `status` and nothing else.
   */
  lemma MergeStatusOnly(local: Task, s: Id)
    ensures MergeTask(local, EmptyPatch(local.id).(status := Some(s))) == local.(status := s)
  {
  }

  /** Applying the same payload twice is the same as applying it once. */
  lemma MergeIdempotent(local: Task, p: TaskPatch)
    ensures MergeTask(MergeTask(local, p), p) == MergeTask(local, p)
  {
  }

  /** Two merges in a row are one merge of the overlaid payloads. */
  lemma MergeComposes(local: Task, p: TaskPatch, q: TaskPatch)
    ensures MergeTask(MergeTask(local, p), q) == MergeTask(local, Overlay(p, q))
  {
  }
}
