/**
 * Example runs of the board on concrete rows, on the reaction functions and
 * on a `Board` object.
 */
module Scenarios {
  import opened Wrappers
  import opened KanbanTypes
  import opened Keyed
  import opened ColumnOrder
  import opened ChangeEvents
  import opened Reconciler
  import opened RealtimeTask

  function Col(id: Id, order: int): Column {
    Column(id, "column " + id, "P", 0, order, false)
  }

  function NewTask(id: Id, createdBy: UserId): Task {
    Task(id, "title", "", "todo", 0, None, None, "P", Some(createdBy), false)
  }

  /**
   * Columns A (order 0) and B (order 1); UPDATE A to order 2, then UPDATE B to
   * order 0: the board shows B before A.
   */
  lemma ReorderTwoColumns()
    ensures ColumnRun([Col("A", 0), Col("B", 1)], [ColumnUpdate(Col("A", 2)), ColumnUpdate(Col("B", 0))]).columns
         == [Col("B", 0), Col("A", 2)]
  {
    FirstUpdate();
    SecondUpdate();
    RunOfTwo([Col("A", 0), Col("B", 1)], ColumnUpdate(Col("A", 2)), ColumnUpdate(Col("B", 0)));
  }

  /** Two payloads in a row are handled one after the other. */
  lemma RunOfTwo(cols: seq<Column>, e1: ColumnEvent, e2: ColumnEvent)
    ensures ColumnRun(cols, [e1, e2]).columns == ReactToColumn(ReactToColumn(cols, e1).columns, e2).columns
  {
    var r1 := ReactToColumn(cols, e1);
    assert [e1, e2][1..] == [e2];
    assert [e2][1..] == [];
    assert ColumnRun(r1.columns, [e2]).columns == ColumnRun(ReactToColumn(r1.columns, e2).columns, []).columns;
  }

  /** UPDATE A to order 2: A moves behind B. */
  lemma FirstUpdate()
    ensures ReactToColumn([Col("A", 0), Col("B", 1)], ColumnUpdate(Col("A", 2))).columns == [Col("B", 1), Col("A", 2)]
  {
    var cols := [Col("A", 0), Col("B", 1)];
    assert cols[0].id == "A";
    assert cols[0 := Col("A", 2)] == [Col("A", 2), Col("B", 1)];
    SortTwo(Col("A", 2), Col("B", 1));
  }

  /** UPDATE B to order 0: B stays in front. */
  lemma SecondUpdate()
    ensures ReactToColumn([Col("B", 1), Col("A", 2)], ColumnUpdate(Col("B", 0))).columns == [Col("B", 0), Col("A", 2)]
  {
    var cols := [Col("B", 1), Col("A", 2)];
    assert cols[0].id == "B";
    assert cols[0 := Col("B", 0)] == [Col("B", 0), Col("A", 2)];
    SortTwo(Col("B", 0), Col("A", 2));
  }

  /** Sorting two columns puts the one with the lower order first (the first one on a tie). */
  lemma SortTwo(x: Column, y: Column)
    ensures SortByOrder([x, y]) == if x.order <= y.order then [x, y] else [y, x]
  {
    assert [x, y][..1] == [x];
    assert [x][..0] == [];
    assert SortByOrder([x]) == [x];
  }

  /** The same run on a board object, also dispatching one notification per UPDATE. */
  method ReorderOnBoard() {
    var board := new Board([Col("A", 0), Col("B", 1)], []);
    board.HandleColumnPayload(ColumnUpdate(Col("A", 2)));
    board.HandleColumnPayload(ColumnUpdate(Col("B", 0)));
    ReorderTwoColumns();
    assert board.columns == [Col("B", 0), Col("A", 2)];
    assert |board.notifications| == 2;
  }

  /**
   * A local optimistic insert of T2 by user U1, then the feed's INSERT of the
   * same row: still exactly one T2, and no notification.
   */
  method SelfEchoOnBoard() {
    var t2 := NewTask("T2", "U1");
    var board := new Board([], [t2]);
    board.HandleTaskPayload(Some("U1"), TaskInsert(t2));
    assert board.tasks == [t2];
    assert HasKey(board.tasks, TaskId, t2.id) by { assert board.tasks[0] == t2; }
    board.HandleTaskPayload(Some("U2"), TaskInsert(t2));
    assert board.tasks == [t2] && board.notifications == [];
  }

  /**
   * T1 is shown; an UPDATE sets its `is_deleted`: T1 disappears and the
   * notification carries the incoming record with `softDelete`.
   */
  method SoftDeleteOnBoard() {
    var t1 := NewTask("T1", "U1");
    var board := new Board([], [t1]);
    var p := EmptyPatch("T1").(isDeleted := Some(true));
    board.HandleTaskPayload(Some("U2"), TaskUpdate(p));
    assert board.tasks == [];
    assert board.notifications == [TaskSoftDeleted(TaskUpdate(p), p)];
  }

  /** A DELETE for T99, never seen here: nothing changes and the raw payload is still dispatched. */
  method UnknownDeleteOnBoard() {
    var t1 := NewTask("T1", "U1");
    var board := new Board([], [t1]);
    board.HandleTaskPayload(None, TaskDelete(Some("T99")));
    assert board.tasks == [t1];
    assert board.notifications == [TaskChanged(TaskDelete(Some("T99")))];
  }
}
