/** What each transition gives on small concrete boards. */
module Scenarios {
  import opened Board
  import ColumnSwap
  import TaskSwap
  import TaskMove
  import Lookup
  import Renumbering

  function Col(id: Id, order: int, tasks: seq<Task>): Column {
    Column(id, "", order, tasks)
  }

  function T(id: Id, order: int): Task {
    Task(id, "", "", "", order)
  }

  /** Dragging the last of three columns over the first puts it first. */
  lemma DragLastColumnToFront()
    ensures ColumnSwap.SwapColumns([Col("c0", 0, []), Col("c1", 1, []), Col("c2", 2, [])], "c2", "c0")
         == [Col("c0", 1, []), Col("c1", 2, []), Col("c2", 0, [])]
  {
    var cols := [Col("c0", 0, []), Col("c1", 1, []), Col("c2", 2, [])];
    ColumnSwap.SwapColumnsEffect(cols, "c2", "c0", 2, 0);
    assert ColumnSwap.SwapColumns(cols, "c2", "c0")[1].order == ColumnOrders(ColumnSwap.SwapColumns(cols, "c2", "c0"))[1];
  }

  /**
   * Dragging back over a non-adjacent column does not restore the snapshot:
   * the two columns return to their relative slots, the one between them
   * does not.
   */
  lemma NonAdjacentRoundTripDiffers()
    ensures var s := [Col("c0", 0, []), Col("c1", 1, []), Col("c2", 2, [])];
      ColumnSwap.SwapColumns(ColumnSwap.SwapColumns(s, "c2", "c0"), "c0", "c2")
        == [Col("c0", 0, []), Col("c1", 2, []), Col("c2", 1, [])]
  {
    DragLastColumnToFront();
    var s := [Col("c0", 1, []), Col("c1", 2, []), Col("c2", 0, [])];
    ColumnSwap.SwapColumnsEffect(s, "c0", "c2", 0, 2);
    var r := ColumnSwap.SwapColumns(s, "c0", "c2");
    assert r[1].order == ColumnOrders(r)[1] && r[2].order == ColumnOrders(r)[2];
  }

  /** Dragging the task at 3 over the task at 1 moves 1 and 2 down a slot. */
  lemma DragTaskUpInColumn()
    ensures TaskSwap.SwapTasks([Col("c", 0, [T("t0", 0), T("t1", 1), T("t2", 2), T("t3", 3)])], "t3", "t1")
         == [Col("c", 0, [T("t0", 0), T("t1", 2), T("t2", 3), T("t3", 1)])]
  {
    var tasks := [T("t0", 0), T("t1", 1), T("t2", 2), T("t3", 3)];
    var cols := [Col("c", 0, tasks)];
    var hover := Some(Lookup.TaskSpot("c", 1));
    var drag := Some(Lookup.TaskSpot("c", 3));
    assert Lookup.ScanColumnTasks("c", tasks[3..], "t3", "t1", None, hover) == (drag, hover);
    assert Lookup.ScanColumnTasks("c", tasks[2..], "t3", "t1", None, hover) == (drag, hover) by {
      assert tasks[2..][1..] == tasks[3..];
    }
    assert Lookup.ScanColumnTasks("c", tasks[1..], "t3", "t1", None, None) == (drag, hover) by {
      assert tasks[1..][1..] == tasks[2..];
    }
    assert Lookup.ScanColumnTasks("c", tasks, "t3", "t1", None, None) == (drag, hover);
    assert Lookup.LocateTasks(cols, "t3", "t1") == (drag, hover);
    var r := TaskSwap.SwapTasks(cols, "t3", "t1");
    assert r == TaskSwap.RenumberInColumn(cols, "c", "t3", 3, 1);
    assert r[0].tasks == Renumbering.RenumberTasks(tasks, "t3", 3, 1);
    assert r[0].tasks == [T("t0", 0), T("t1", 2), T("t2", 3), T("t3", 1)];
  }

  /** Moving t1 from A to B closes A's gap and appends t1 to B. */
  lemma MoveTaskAcrossColumns()
    ensures TaskMove.MoveTask([Col("a", 0, [T("t1", 0), T("t2", 1)]), Col("b", 1, [T("t3", 0)])], "t1", "a", "b")
         == [Col("a", 0, [T("t2", 0)]), Col("b", 1, [T("t3", 0), T("t1", 1)])]
  {
    var cols := [Col("a", 0, [T("t1", 0), T("t2", 1)]), Col("b", 1, [T("t3", 0)])];
    TaskMove.MoveTaskEffect(cols, "t1", "a", "b", 0, 1, 0);
    var r := TaskMove.MoveTask(cols, "t1", "a", "b");
    assert r[0].tasks == [T("t2", 0)];
    assert r[0] == Col("a", 0, [T("t2", 0)]);
    assert r[1] == Col("b", 1, [T("t3", 0), T("t1", 1)]);
  }
}
