/**
 * swapTasks: the transition a task drag fires on every hover over another
 * task. It reorders tasks inside one column and silently refuses a hover
 * across columns, which moveTask is meant to handle.
 */
module TaskSwap {
  import opened Board
  import opened Renumbering
  import opened Lookup

  /** Applies the sibling rule to the tasks of the columns carrying `columnId`. */
  function RenumberInColumn(cols: seq<Column>, columnId: Id, dragId: Id, d: int, h: int): (r: seq<Column>)
    ensures |r| == |cols|
    ensures forall i :: 0 <= i < |r| && cols[i].id != columnId ==> r[i] == cols[i]
    ensures forall i :: 0 <= i < |r| ==> r[i] == cols[i].(tasks := r[i].tasks) && |r[i].tasks| == |cols[i].tasks|
    ensures forall i, j :: 0 <= i < |r| && 0 <= j < |r[i].tasks| ==>
      r[i].tasks[j] == cols[i].tasks[j].(order := r[i].tasks[j].order)
  {
    seq(|cols|, i requires 0 <= i < |cols| =>
      if cols[i].id != columnId then cols[i]
      else cols[i].(tasks := RenumberTasks(cols[i].tasks, dragId, d, h)))
  }

  /**
   * The snapshot swapTasks produces: unchanged for equal ids, for an id the
   * scan did not find, or for two tasks seen in different columns.
   */
  function SwapTasks(cols: seq<Column>, dragId: Id, hoverId: Id): (r: seq<Column>)
    ensures |r| == |cols|
    ensures forall i :: 0 <= i < |r| ==> r[i] == cols[i].(tasks := r[i].tasks) && |r[i].tasks| == |cols[i].tasks|
    ensures forall i, j :: 0 <= i < |r| && 0 <= j < |r[i].tasks| ==>
      r[i].tasks[j] == cols[i].tasks[j].(order := r[i].tasks[j].order)
  {
    if dragId == hoverId then cols
    else
      var (d, h) := LocateTasks(cols, dragId, hoverId);
      if d.None? || h.None? || d.value.columnId != h.value.columnId then cols
      else RenumberInColumn(cols, d.value.columnId, dragId, d.value.order, h.value.order)
  }

  /** Equal ids, or an id on no column, change nothing. */
  lemma SwapTasksIgnoredIsNoOp(cols: seq<Column>, dragId: Id, hoverId: Id)
    requires dragId == hoverId || !BoardHasTask(cols, dragId) || !BoardHasTask(cols, hoverId)
    ensures SwapTasks(cols, dragId, hoverId) == cols
  {
    ScanTasksFinds(cols, dragId, hoverId, None, None);
  }

  lemma UniqueInColumn(cols: seq<Column>, c: int)
    requires UniqueBoardTaskIds(cols) && 0 <= c < |cols|
    ensures UniqueTaskIds(cols[c].tasks)
  {
    forall a, b | 0 <= a < |cols[c].tasks| && 0 <= b < |cols[c].tasks| && a != b
      ensures cols[c].tasks[a].id != cols[c].tasks[b].id
    {
    }
  }

  /**
   * With task ids unique on the board, two tasks in columns with different
   * ids are never reordered against each other.
   */
  lemma SwapTasksCrossColumnIsNoOp(cols: seq<Column>, dragId: Id, hoverId: Id, i: int, a: int, j: int, b: int)
    requires UniqueBoardTaskIds(cols)
    requires 0 <= i < |cols| && 0 <= a < |cols[i].tasks| && cols[i].tasks[a].id == dragId
    requires 0 <= j < |cols| && 0 <= b < |cols[j].tasks| && cols[j].tasks[b].id == hoverId
    requires cols[i].id != cols[j].id
    ensures SwapTasks(cols, dragId, hoverId) == cols
  {
    assert i != j;
    ScanTasksExact(cols, dragId, hoverId, None, None, i, a);
    ScanTasksExact(cols, dragId, hoverId, None, None, j, b);
  }

  /**
   * With unique ids, two distinct tasks of column c: only column c changes,
   * and in it the dragged task (index a) takes the hovered task's (index b)
   * old order and the other tasks shift by the sibling rule; task count,
   * task ids and all other task fields stay.
   */
  lemma SwapTasksEffect(cols: seq<Column>, dragId: Id, hoverId: Id, c: int, a: int, b: int)
    requires UniqueColumnIds(cols) && UniqueBoardTaskIds(cols)
    requires 0 <= c < |cols|
    requires 0 <= a < |cols[c].tasks| && cols[c].tasks[a].id == dragId
    requires 0 <= b < |cols[c].tasks| && cols[c].tasks[b].id == hoverId
    requires a != b
    ensures var r := SwapTasks(cols, dragId, hoverId);
      && |r| == |cols|
      && (forall i :: 0 <= i < |cols| && i != c ==> r[i] == cols[i])
      && r[c] == cols[c].(tasks := r[c].tasks)
      && |r[c].tasks| == |cols[c].tasks|
      && r[c].tasks[a].order == cols[c].tasks[b].order
      && FollowsRenumberRule(TaskOrders(cols[c].tasks), TaskOrders(r[c].tasks), a, cols[c].tasks[b].order)
      && forall j :: 0 <= j < |cols[c].tasks| ==> r[c].tasks[j] == cols[c].tasks[j].(order := r[c].tasks[j].order)
  {
    assert dragId != hoverId;
    ScanTasksExact(cols, dragId, hoverId, None, None, c, a);
    ScanTasksExact(cols, dragId, hoverId, None, None, c, b);
    UniqueInColumn(cols, c);
    RenumberTasksFollowsRule(cols[c].tasks, dragId, a, cols[c].tasks[b].order);
  }

  /** The same-column case of SwapTasksKeepsWellFormed. */
  lemma SwapTasksInColumnKeepsWellFormed(cols: seq<Column>, dragId: Id, hoverId: Id, c: int, a: int, b: int)
    requires WellFormed(cols)
    requires 0 <= c < |cols|
    requires 0 <= a < |cols[c].tasks| && cols[c].tasks[a].id == dragId
    requires 0 <= b < |cols[c].tasks| && cols[c].tasks[b].id == hoverId
    requires a != b
    ensures WellFormed(SwapTasks(cols, dragId, hoverId))
  {
    var r := SwapTasks(cols, dragId, hoverId);
    SwapTasksEffect(cols, dragId, hoverId, c, a, b);
    var os := TaskOrders(cols[c].tasks);
    assert os[b] == cols[c].tasks[b].order;
    RenumberRuleKeepsPositions(os, TaskOrders(r[c].tasks), a, cols[c].tasks[b].order);
    assert forall x :: 0 <= x < |r| ==> IsPositions(TaskOrders(r[x].tasks)) by {
      forall x | 0 <= x < |r| ensures IsPositions(TaskOrders(r[x].tasks)) {
        if x != c {
          assert r[x] == cols[x];
        }
      }
    }
    assert ColumnOrders(r) == ColumnOrders(cols);
    assert UniqueColumnIds(r) by {
      assert forall x :: 0 <= x < |r| ==> r[x].id == cols[x].id;
    }
    assert UniqueBoardTaskIds(r) by {
      assert forall x, y :: 0 <= x < |r| && 0 <= y < |r[x].tasks| ==> r[x].tasks[y].id == cols[x].tasks[y].id;
    }
  }

  /**
   * A stable snapshot stays stable: in particular the task orders of the
   * touched column are still 0..M-1.
   */
  lemma SwapTasksKeepsWellFormed(cols: seq<Column>, dragId: Id, hoverId: Id)
    requires WellFormed(cols)
    ensures WellFormed(SwapTasks(cols, dragId, hoverId))
  {
    if dragId != hoverId && BoardHasTask(cols, dragId) && BoardHasTask(cols, hoverId) {
      var i :| 0 <= i < |cols| && HasTask(cols[i].tasks, dragId);
      var a :| 0 <= a < |cols[i].tasks| && cols[i].tasks[a].id == dragId;
      var j :| 0 <= j < |cols| && HasTask(cols[j].tasks, hoverId);
      var b :| 0 <= b < |cols[j].tasks| && cols[j].tasks[b].id == hoverId;
      if i != j {
        SwapTasksCrossColumnIsNoOp(cols, dragId, hoverId, i, a, j, b);
      } else {
        SwapTasksInColumnKeepsWellFormed(cols, dragId, hoverId, i, a, b);
      }
    } else {
      SwapTasksIgnoredIsNoOp(cols, dragId, hoverId);
    }
  }
}
