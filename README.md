# Realtime reconciler of the kanban board

This project models, in Dafny, the realtime reconciler of a collaborative
kanban board (`src/composables/useRealtimeTask.ts`). The board keeps two
arrays shown by the UI: the task columns of the open project and its tasks.
Another collaborator's change reaches the board as a change-feed payload
(INSERT, UPDATE or DELETE of one row). Two callbacks apply it to the arrays
in place:

- duplicates are absorbed, and for tasks so are echoes of the signed-in user's own inserts;
- columns are kept sorted by `order`;
- a task whose `is_deleted` flag went up is removed;
- other UI parts are told through `window.dispatchEvent`.

Modules:

- `Wrappers`: `Option`.
- `KanbanTypes`: the `Column` and `Task` rows and the partial task record of an UPDATE (`TaskPatch`). Also `MergeTask`, the `{ ...local, ...incoming }` merge, and the laws it obeys.
- `Keyed`: searching by id (`HasKey` for `some`, `IndexOf` for `findIndex`), `RemoveAt` for `splice(i, 1)`, and id uniqueness.
- `ColumnOrder`: ascending order by `order`. `SortByOrder` is a stable insertion sort standing in for `Array.prototype.sort`.
- `ChangeEvents`: the payloads, the notification log entries, the DELETE id test and the self-echo test.
- `Reconciler`: what one payload does, as pure functions of the array before it (`ReactToColumn`, `ReactToTask`), folds over payload sequences, and the lemmas stating the handlers' promises.
- `RealtimeTask`: class `Board` with fields `columns`, `tasks` and `notifications`. Each callback branch is a method that edits the fields the way the source edits the arrays: append, sort, overwrite at an index, splice, dispatch. Each method is proved equal to the `Reconciler` function. Every method also keeps `Valid()`: unique ids in both arrays and columns in order.
- `Scenarios`: four example runs on concrete rows, on the pure functions and on a `Board`. These are the two-column reorder, a self-echo after an optimistic insert, a soft delete, and a DELETE of an unknown id.

The model keeps four behaviours of the code that a reader might expect to be otherwise:

- The soft-delete notification of a task carries the incoming UPDATE record as `fullData`, not the task as it was held locally (`useRealtimeTask.ts:142`).
- The column callback never looks at `is_deleted`. A column soft-deleted through `columnService.ts:124` stays in the array, now flagged (`ColumnSoftDeleteStaysVisible`).
- The task INSERT branch does not filter rows that already carry `is_deleted` (`InsertedSoftDeletedTaskIsVisible`). So "no soft-deleted task is shown" holds only while no INSERT carries the flag (`TaskRunKeepsInvariants`).
- The task INSERT guard tests the creator first and the id second (`useRealtimeTask.ts:124, 127`). An INSERT of the signed-in user's own row is absorbed even when its id is not shown locally.

## Model

| member | source | states |
|---|---|---|
| `Keyed.HasKey` | src/composables/useRealtimeTask.ts:37 | `some(x => x.id === id)`: true exactly when some element of the array carries the id (also at :127) |
| `Keyed.RemoveAt` | src/composables/useRealtimeTask.ts:74 | `splice(i, 1)`: one element shorter, elements before `i` in place, elements after `i` shifted down by one, exactly `s[i]` dropped from the multiset (also at :137, :171) |
| `Keyed.IndexOf` | src/composables/useRealtimeTask.ts:49 | `findIndex` by id: -1 exactly when no element has the id, otherwise an index holding it with no earlier one |
| `Keyed.UniqueKeyAtIndexOf` | src/composables/useRealtimeTask.ts:67 | with unique ids, searching for an element's id finds that element's index |
| `Keyed.RemoveAtKeys` | src/composables/useRealtimeTask.ts:74 | `splice(i, 1)` keeps ids unique, drops exactly the removed id and keeps every other |
| `Keyed.AppendKeepsUnique` | src/composables/useRealtimeTask.ts:37-38 | pushing an element whose id is absent keeps ids unique |
| `Keyed.ReplaceKeepsKeys` | src/composables/useRealtimeTask.ts:49-52 | overwriting the entry found by id with a record of that id keeps ids unique and the id set |
| `Keyed.SameElementsSameKeys` | src/composables/useRealtimeTask.ts:40 | rearranging an array (same multiset) keeps the set of ids |
| `ColumnOrder.InsertByOrder` | src/composables/useRealtimeTask.ts:40 | placing a column into a sorted array keeps it sorted and adds exactly that column |
| `ColumnOrder.SortByOrder` | src/composables/useRealtimeTask.ts:40 | `sort((a, b) => a.order - b.order)`: ascending by order, same multiset of columns |
| `ColumnOrder.SortSortedIsIdentity` | src/composables/useRealtimeTask.ts:54 | re-sorting an array that is already in order changes nothing |
| `ColumnOrder.AppendLargestStaysLast` | services/columnService.ts:64 | a column with the greatest order (the `max(order) + 1` default) lands last |
| `ColumnOrder.SortKeepsKeys` | src/composables/useRealtimeTask.ts:40 | sorting neither adds nor drops an id and keeps ids unique |
| `ColumnOrder.SortKeepsUnique` | src/composables/useRealtimeTask.ts:54 | sorting an array with unique ids yields unique ids |
| `ColumnOrder.InsertKeepsUnique` | src/composables/useRealtimeTask.ts:37-40 | placing a column with a new id keeps ids unique |
| `KanbanTypes.MergeTask` | src/composables/useRealtimeTask.ts:152-155 | `{ ...local, ...incoming }`: as a full record, the merged task is the local row overlaid by the payload, each field the payload carries winning and every other field keeping its local value |
| `KanbanTypes.MergeEmptyPatchKeepsLocal` | src/composables/useRealtimeTask.ts:152-155 | a payload with no field but the id leaves the local task as it is |
| `KanbanTypes.MergeFullPatchReplaces` | src/composables/useRealtimeTask.ts:152-155 | a payload carrying every field replaces the local task by the payload's row |
| `KanbanTypes.MergeStatusOnly` | src/composables/useRealtimeTask.ts:152-155 | a payload carrying only `status` changes the status and no other field |
| `KanbanTypes.MergeIdempotent` | src/composables/useRealtimeTask.ts:152-155 | merging the same payload twice equals merging it once |
| `KanbanTypes.MergeComposes` | src/composables/useRealtimeTask.ts:152-155 | two merges equal one merge of the overlaid payloads, the later winning field by field |
| `ChangeEvents.DeleteTarget` | src/composables/useRealtimeTask.ts:65-66 | `payload.old && payload.old.id`: `None` for a missing `old`, a missing id or the empty string, otherwise the id itself (also at :162-163) |
| `ChangeEvents.IsSelfEcho` | src/composables/useRealtimeTask.ts:121-124 | `created_by === userData?.id`: true exactly when there is a session and the row's creator is that user; never without a session (`undefined`) or for a `null` creator |
| `Reconciler.ReactToColumn` | src/composables/useRealtimeTask.ts:29-106 | one column payload: at most one notification; unique ids stay unique; a sorted array stays sorted |
| `Reconciler.ReactToTask` | src/composables/useRealtimeTask.ts:120-203 | one task payload: at most one notification; unique ids stay unique |
| `Reconciler.ColumnInsertEffect` | src/composables/useRealtimeTask.ts:34-46 | new id: sorted, old columns plus the new one, one notification with the payload, and last if the array was sorted and its order is the greatest; known id: no change, no notification |
| `Reconciler.ColumnUpdateEffect` | src/composables/useRealtimeTask.ts:47-60 | known id: that entry replaced wholesale, re-sorted, one notification; unknown id: nothing inserted, no change, no notification |
| `Reconciler.ColumnSoftDeleteStaysVisible` | src/composables/useRealtimeTask.ts:47-60 | an UPDATE that sets `is_deleted` on a shown column leaves that column shown |
| `Reconciler.ColumnDeleteEffect` | src/composables/useRealtimeTask.ts:61-104 | known id: exactly that column removed, others in order, one notification with the removed local column; unknown or missing id: no change, one notification with the raw payload |
| `Reconciler.ColumnDeleteById` | src/composables/useRealtimeTask.ts:65-86 | with unique ids, a DELETE naming the id of `cols[j]` yields `cols[..j] + cols[j+1..]` and one notification whose `fullData` is `cols[j]` |
| `Reconciler.ColumnNotificationCount` | src/composables/useRealtimeTask.ts:34-104 | exactly one notification per column payload except an INSERT of a known id or an UPDATE of an unknown id, which change nothing and dispatch nothing |
| `Reconciler.ColumnInsertIdempotent` | src/composables/useRealtimeTask.ts:37 | the same INSERT applied twice: the second changes nothing and dispatches nothing |
| `Reconciler.ColumnRunKeepsInvariants` | src/composables/useRealtimeTask.ts:29-106 | over any payload sequence: unique ids stay unique, sorted stays sorted, and exactly one notification per payload that is not absorbed (the payload count minus the absorbed ones, each judged against the array it meets) |
| `Reconciler.TaskInsertEffect` | src/composables/useRealtimeTask.ts:124-129 | appended exactly when created by someone other than the signed-in user and the id is new; never a notification |
| `Reconciler.OptimisticInsertThenEcho` | src/composables/useRealtimeTask.ts:127 | after a local insert of a row, the feed's INSERT of it leaves one entry with that id |
| `Reconciler.TaskInsertIdempotent` | src/composables/useRealtimeTask.ts:124-129 | the same task INSERT applied twice equals applying it once |
| `Reconciler.TaskSoftDeleteEffect` | src/composables/useRealtimeTask.ts:135-148 | `is_deleted` true, known id: removed, others in order, one notification whose `fullData` is the incoming record with `softDelete`; unknown id: no change, no notification |
| `Reconciler.TaskSoftDeleteById` | src/composables/useRealtimeTask.ts:135-148 | with unique ids, a soft-delete UPDATE of `ts[j]`'s id yields `ts[..j] + ts[j+1..]` and one notification carrying the incoming record |
| `Reconciler.TaskMergeEffect` | src/composables/useRealtimeTask.ts:149-157 | `is_deleted` not true, known id: merged in place at the same index, others and length unchanged, no notification; unknown id: no change |
| `Reconciler.TaskDeleteEffect` | src/composables/useRealtimeTask.ts:158-202 | known id: exactly that task removed, others in order, one notification with the removed local task; unknown or missing id: no change, one notification with the raw payload |
| `Reconciler.TaskDeleteById` | src/composables/useRealtimeTask.ts:162-183 | with unique ids, a DELETE naming the id of `ts[j]` yields `ts[..j] + ts[j+1..]` and one notification whose `fullData` is `ts[j]` |
| `Reconciler.TaskNotificationCount` | src/composables/useRealtimeTask.ts:124-202 | one notification for every DELETE and for a soft delete of a shown task, none otherwise |
| `Reconciler.TaskEventKeepsNoSoftDeleted` | src/composables/useRealtimeTask.ts:135-157 | UPDATE and DELETE never make a soft-deleted task visible |
| `Reconciler.InsertedSoftDeletedTaskIsVisible` | src/composables/useRealtimeTask.ts:124-129 | an INSERT of a flagged row from another user shows it |
| `Reconciler.TaskRunKeepsInvariants` | src/composables/useRealtimeTask.ts:120-203 | over any payload sequence: unique ids stay unique; no flagged task is shown while no INSERT carries the flag |
| `RealtimeTask.Board.constructor` | src/composables/useRealtimeTask.ts:6-12 | the board starts from the arrays it is given, with nothing dispatched, and is `Valid()` when those arrays have unique ids and the columns are in order, as the loader delivers them |
| `RealtimeTask.Board.OnColumnInsert` | src/composables/useRealtimeTask.ts:34-46 | the INSERT branch edits `columns` and the log as `ReactToColumn` says; tasks untouched; `Valid()` kept |
| `RealtimeTask.Board.OnColumnUpdate` | src/composables/useRealtimeTask.ts:47-60 | the UPDATE branch: overwrite at the found index, sort, dispatch, or nothing for an unknown id |
| `RealtimeTask.Board.OnColumnDelete` | src/composables/useRealtimeTask.ts:61-104 | the DELETE branch: splice and dispatch with `fullData`, or dispatch the raw payload; always exactly one notification |
| `RealtimeTask.Board.HandleColumnPayload` | src/composables/useRealtimeTask.ts:29-106 | the column callback equals `ReactToColumn` on the board's state |
| `RealtimeTask.Board.OnTaskInsert` | src/composables/useRealtimeTask.ts:124-129 | push only for another user's row with a new id; no notification; columns untouched |
| `RealtimeTask.Board.OnTaskUpdate` | src/composables/useRealtimeTask.ts:130-157 | soft delete splices and dispatches the incoming record; otherwise merge at the found index; unknown id: nothing |
| `RealtimeTask.Board.OnTaskDelete` | src/composables/useRealtimeTask.ts:158-202 | splice and dispatch with `fullData`, or dispatch the raw payload; always exactly one notification |
| `RealtimeTask.Board.HandleTaskPayload` | src/composables/useRealtimeTask.ts:120-203 | the task callback equals `ReactToTask` on the board's state for the signed-in user |
| `Scenarios.ReorderTwoColumns` | src/composables/useRealtimeTask.ts:47-60 | columns A(0), B(1); UPDATE A to 2, then B to 0: the array reads B, A |

## Left out

- Subscription plumbing (`useRealtimeTask.ts:14, 19-28, 108, 110-119, 205`) is not modelled: the two channels, the `project_id=eq.<id>` filters, `subscribe()` and the `removeRealtimeSubscriptions()` teardown are network transport. So is the server-side guarantee that every payload belongs to the open project. Nothing stops a callback that is still in flight after teardown from editing the arrays.
- `getCurrentUser()` (`useRealtimeTask.ts:121`) is an asynchronous auth call. The signed-in user's id (`None` without a session) is a parameter of each task payload. The task callback awaits it before touching the array, so two task payloads may be applied in an order other than delivery order. The model applies each payload whole, in the order it is given.
- `window.dispatchEvent`, `CustomEvent` and `console.*` are DOM and logging side effects. Dispatch is an append to `notifications`, and the `detail` object is the entry's fields. Logging is dropped.
- `Array.prototype.sort`'s own algorithm is not modelled. `SortByOrder` is one stable sort, as the built-in one is, and only its result is used.
- SortByOrder: its contract states sorted by `order` and the same multiset of columns. That columns of equal order keep their relative order holds by construction and is not proved.
- A timestamp (`Date`) is an `int`. `order`, a JavaScript number, is an `int`: fractional orders are not modelled.
- An UPDATE payload always names its row. An UPDATE without `id` matches no local entry, so it behaves like an UPDATE of an unknown id. A `null` `is_deleted` in a task UPDATE is treated as absent. Both are falsy, but a `null` would overwrite the local flag.
- Vue's reactivity (`Ref`), which re-renders the board after each edit, is not modelled.
- The CRUD services (`services/*.ts`), `src/composables/useImageUpload.ts`, `src/router/index.ts` and `src/main.ts` are request/response glue, blob-storage I/O, navigation and bootstrap. They are not part of this model. `src/types/*.ts` only shape the datatypes.
