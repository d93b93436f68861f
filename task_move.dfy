/**
 * moveTask: the transition a task drag fires while it hovers over a column.
 * It takes the task out of the source column, closes the gap its order
 * leaves, and appends it to the destination column as the last task.
 */
module TaskMove {
  import opened Board
  import opened Lookup

  /** A remaining source task: one slot lower when it sat above the gap. */
  function Lowered(t: Task, gap: int): Task {
    t.(order := if t.order > gap then t.order - 1 else t.order)
  }

  /**
   * The source column's new task list: every task with the dragged id is
   * dropped and every other task is lowered over the gap, in array order.
   */
  function CloseGap(tasks: seq<Task>, taskId: Id, gap: int): (r: seq<Task>)
    ensures |r| <= |tasks|
    ensures forall t :: t in r ==> t.id != taskId
    decreases |tasks|
  {
    if tasks == [] then []
    else (if tasks[0].id == taskId then [] else [Lowered(tasks[0], gap)]) + CloseGap(tasks[1..], taskId, gap)
  }

  /**
   * The snapshot moveTask produces: unchanged when the task is not found in
   * the source column. Otherwise columns carrying the source id lose the
   * task; otherwise columns carrying the destination id gain it, re-ordered
   * to their old length; every other column is as it was.
   */
  function MoveTask(cols: seq<Column>, taskId: Id, fromId: Id, toId: Id): (r: seq<Column>)
    ensures |r| == |cols|
    ensures forall i :: 0 <= i < |r| ==> r[i] == cols[i].(tasks := r[i].tasks)
    ensures forall i :: 0 <= i < |r| && cols[i].id != fromId && cols[i].id != toId ==> r[i] == cols[i]
  {
    match DraggedTask(cols, fromId, taskId)
    case None => cols
    case Some(t) => Relocate(cols, t, taskId, fromId, toId)
  }

  /** The new snapshot once the dragged task `t` has been found. */
  function Relocate(cols: seq<Column>, t: Task, taskId: Id, fromId: Id, toId: Id): (r: seq<Column>)
    ensures |r| == |cols|
    ensures forall i :: 0 <= i < |r| ==> r[i] == cols[i].(tasks := r[i].tasks)
    ensures forall i :: 0 <= i < |r| && cols[i].id != fromId && cols[i].id != toId ==> r[i] == cols[i]
    ensures forall i :: 0 <= i < |r| && cols[i].id != fromId && cols[i].id == toId ==>
      r[i].tasks == cols[i].tasks + [t.(order := |cols[i].tasks|)]
  {
    seq(|cols|, i requires 0 <= i < |cols| =>
      if cols[i].id == fromId then cols[i].(tasks := CloseGap(cols[i].tasks, taskId, t.order))
      else if cols[i].id == toId then cols[i].(tasks := cols[i].tasks + [t.(order := |cols[i].tasks|)])
      else cols[i])
  }

  /** With no task of that id, CloseGap only lowers, task by task. */
  lemma {:induction false} CloseGapAbsent(tasks: seq<Task>, taskId: Id, gap: int)
    requires !HasTask(tasks, taskId)
    ensures var r := CloseGap(tasks, taskId, gap);
      && |r| == |tasks|
      && forall j :: 0 <= j < |r| ==> r[j] == Lowered(tasks[j], gap)
    decreases |tasks|
  {
    if tasks != [] {
      HasTaskTail(tasks, taskId);
      CloseGapAbsent(tasks[1..], taskId, gap);
    }
  }

  /**
   * With unique ids, CloseGap removes exactly the task at index k and lowers
   * the others, keeping their relative array order.
   */
  lemma {:induction false} CloseGapRemovesOne(tasks: seq<Task>, taskId: Id, gap: int, k: int)
    requires UniqueTaskIds(tasks) && 0 <= k < |tasks| && tasks[k].id == taskId
    ensures var r := CloseGap(tasks, taskId, gap);
      && |r| == |tasks| - 1
      && forall j :: 0 <= j < |r| ==> r[j] == Lowered(tasks[if j < k then j else j + 1], gap)
    decreases |tasks|
  {
    var rest := tasks[1..];
    if k == 0 {
      assert !HasTask(rest, taskId) by {
        forall j | 0 <= j < |rest| ensures rest[j].id != taskId {
          assert rest[j] == tasks[j + 1];
        }
      }
      CloseGapAbsent(rest, taskId, gap);
    } else {
      assert rest[k - 1] == tasks[k];
      assert UniqueTaskIds(rest) by {
        forall x, y | 0 <= x < |rest| && 0 <= y < |rest| && x != y ensures rest[x].id != rest[y].id {
          assert rest[x] == tasks[x + 1] && rest[y] == tasks[y + 1];
        }
      }
      assert tasks[0].id != taskId;
      CloseGapRemovesOne(rest, taskId, gap, k - 1);
    }
  }

  /**
   * Removing the task whose order is the gap keeps the source column's
   * orders contiguous: 0..M-1 before, 0..M-2 after.
   */
  lemma CloseGapKeepsPositions(tasks: seq<Task>, taskId: Id, k: int)
    requires UniqueTaskIds(tasks) && 0 <= k < |tasks| && tasks[k].id == taskId
    requires IsPositions(TaskOrders(tasks))
    ensures IsPositions(TaskOrders(CloseGap(tasks, taskId, tasks[k].order)))
  {
    var gap := tasks[k].order;
    var r := CloseGap(tasks, taskId, gap);
    var os := TaskOrders(tasks);
    CloseGapRemovesOne(tasks, taskId, gap, k);
    forall j | 0 <= j < |r| ensures 0 <= r[j].order < |r| {
      var j' := if j < k then j else j + 1;
      assert os[j'] != os[k] && os[j'] == tasks[j'].order;
    }
    forall x, y | 0 <= x < |r| && 0 <= y < |r| && x != y ensures r[x].order != r[y].order {
      var x' := if x < k then x else x + 1;
      var y' := if y < k then y else y + 1;
      assert os[x'] != os[k] && os[y'] != os[k] && os[x'] != os[y'];
    }
  }

  /** Appending with order = old length keeps the destination contiguous. */
  lemma AppendKeepsPositions(tasks: seq<Task>, t: Task)
    requires IsPositions(TaskOrders(tasks))
    ensures IsPositions(TaskOrders(tasks + [t.(order := |tasks|)]))
  {
    var r := tasks + [t.(order := |tasks|)];
    assert forall j :: 0 <= j < |tasks| ==> r[j] == tasks[j] && TaskOrders(tasks)[j] == tasks[j].order;
  }

  /** A task that no column with the source id holds is not moved. */
  lemma MoveTaskNotFoundIsNoOp(cols: seq<Column>, taskId: Id, fromId: Id, toId: Id)
    requires forall i :: 0 <= i < |cols| && cols[i].id == fromId ==> !HasTask(cols[i].tasks, taskId)
    ensures MoveTask(cols, taskId, fromId, toId) == cols
  {
  }

  /** With unique column ids the dragged task is the one the source column holds. */
  lemma DraggedTaskIs(cols: seq<Column>, taskId: Id, fromId: Id, f: int, k: int)
    requires UniqueColumnIds(cols)
    requires 0 <= f < |cols| && cols[f].id == fromId
    requires UniqueTaskIds(cols[f].tasks) && 0 <= k < |cols[f].tasks| && cols[f].tasks[k].id == taskId
    ensures DraggedTask(cols, fromId, taskId) == Some(cols[f].tasks[k])
  {
    assert FirstColumn(cols, fromId) == Some(f);
  }

  /**
   * A move between two different columns of a board with unique column ids
   * (f the source, g the destination, k the dragged task's index): the
   * source loses exactly that task and the tasks above its order come down
   * by one; the destination gains it last, with order = its old task count
   * and every other field kept; no other column changes.
   */
  lemma MoveTaskEffect(cols: seq<Column>, taskId: Id, fromId: Id, toId: Id, f: int, g: int, k: int)
    requires UniqueColumnIds(cols)
    requires 0 <= f < |cols| && cols[f].id == fromId
    requires 0 <= g < |cols| && cols[g].id == toId && f != g
    requires UniqueTaskIds(cols[f].tasks) && 0 <= k < |cols[f].tasks| && cols[f].tasks[k].id == taskId
    ensures var r := MoveTask(cols, taskId, fromId, toId);
      && |r| == |cols|
      && (forall i :: 0 <= i < |cols| && i != f && i != g ==> r[i] == cols[i])
      && r[f] == cols[f].(tasks := r[f].tasks)
      && |r[f].tasks| == |cols[f].tasks| - 1
      && (forall j :: 0 <= j < |r[f].tasks| ==>
            var t := cols[f].tasks[if j < k then j else j + 1];
            r[f].tasks[j] == t.(order := if t.order > cols[f].tasks[k].order then t.order - 1 else t.order))
      && r[g] == cols[g].(tasks := cols[g].tasks + [cols[f].tasks[k].(order := |cols[g].tasks|)])
  {
    DraggedTaskIs(cols, taskId, fromId, f, k);
    CloseGapRemovesOne(cols[f].tasks, taskId, cols[f].tasks[k].order, k);
  }

  /**
   * The same move conserves tasks: the source has one fewer, the
   * destination one more, and the board as many as before.
   */
  lemma MoveTaskConservesTasks(cols: seq<Column>, taskId: Id, fromId: Id, toId: Id, f: int, g: int, k: int)
    requires UniqueColumnIds(cols)
    requires 0 <= f < |cols| && cols[f].id == fromId
    requires 0 <= g < |cols| && cols[g].id == toId && f != g
    requires UniqueTaskIds(cols[f].tasks) && 0 <= k < |cols[f].tasks| && cols[f].tasks[k].id == taskId
    ensures var r := MoveTask(cols, taskId, fromId, toId);
      && |r[f].tasks| == |cols[f].tasks| - 1
      && |r[g].tasks| == |cols[g].tasks| + 1
      && TotalTasks(r) == TotalTasks(cols)
  {
    var r := MoveTask(cols, taskId, fromId, toId);
    MoveTaskEffect(cols, taskId, fromId, toId, f, g, k);
    var n := TaskCounts(cols);
    var n1 := n[f := n[f] - 1];
    assert TaskCounts(r) == n1[g := n1[g] + 1];
    SumUpdate(n, f, n[f] - 1);
    SumUpdate(n1, g, n1[g] + 1);
  }

  /**
   * Without a distinct destination on the board (the destination id is the
   * source id, or no column carries it) the task is removed and appended
   * nowhere: the board has one task fewer.
   */
  lemma MoveTaskWithoutDestinationDropsTask(cols: seq<Column>, taskId: Id, fromId: Id, toId: Id, f: int, k: int)
    requires UniqueColumnIds(cols)
    requires 0 <= f < |cols| && cols[f].id == fromId
    requires UniqueTaskIds(cols[f].tasks) && 0 <= k < |cols[f].tasks| && cols[f].tasks[k].id == taskId
    requires toId == fromId || !HasColumn(cols, toId)
    ensures var r := MoveTask(cols, taskId, fromId, toId);
      && |r| == |cols|
      && (forall i :: 0 <= i < |cols| && i != f ==> r[i] == cols[i])
      && |r[f].tasks| == |cols[f].tasks| - 1
      && TotalTasks(r) == TotalTasks(cols) - 1
  {
    var r := MoveTask(cols, taskId, fromId, toId);
    DraggedTaskIs(cols, taskId, fromId, f, k);
    CloseGapRemovesOne(cols[f].tasks, taskId, cols[f].tasks[k].order, k);
    var n := TaskCounts(cols);
    assert TaskCounts(r) == n[f := n[f] - 1];
    SumUpdate(n, f, n[f] - 1);
  }

  /**
   * Task ids stay unique when column f loses its task k (the others keep
   * their ids in order) and column g, if distinct from f, gains that task
   * at its end; every other column keeps its tasks.
   */
  lemma MovedIdsUnique(cols: seq<Column>, r: seq<Column>, f: int, k: int, g: int)
    requires UniqueBoardTaskIds(cols) && |r| == |cols|
    requires 0 <= f < |cols| && 0 <= k < |cols[f].tasks| && 0 <= g < |cols|
    requires |r[f].tasks| == |cols[f].tasks| - 1
    requires forall y :: 0 <= y < |r[f].tasks| ==> r[f].tasks[y].id == cols[f].tasks[if y < k then y else y + 1].id
    requires forall x :: 0 <= x < |r| && x != f && x != g ==> r[x].tasks == cols[x].tasks
    requires g != f ==> r[g].tasks == cols[g].tasks + [cols[f].tasks[k].(order := |cols[g].tasks|)]
    ensures UniqueBoardTaskIds(r)
  {
    forall x, y, x2, y2 |
      0 <= x < |r| && 0 <= x2 < |r| && 0 <= y < |r[x].tasks| && 0 <= y2 < |r[x2].tasks| && (x != x2 || y != y2)
      ensures r[x].tasks[y].id != r[x2].tasks[y2].id
    {
      var o := Origin(cols, f, k, x, y);
      var o2 := Origin(cols, f, k, x2, y2);
      assert 0 <= o.0 < |cols| && 0 <= o.1 < |cols[o.0].tasks| && r[x].tasks[y].id == cols[o.0].tasks[o.1].id;
      assert 0 <= o2.0 < |cols| && 0 <= o2.1 < |cols[o2.0].tasks| && r[x2].tasks[y2].id == cols[o2.0].tasks[o2.1].id;
      assert o != o2;
    }
  }

  /** Where a task of the new snapshot sat in the old one. */
  function Origin(cols: seq<Column>, f: int, k: int, x: int, y: int): (int, int)
    requires 0 <= x < |cols|
  {
    if x == f then (f, if y < k then y else y + 1)
    else if y < |cols[x].tasks| then (x, y)
    else (f, k)
  }

  /**
   * The shape of a move that removes task k from column f: column f holds
   * the closed-up tasks, the destination g (f itself when there is none)
   * gains the task when distinct from f, and every other column is as it was.
   */
  lemma MoveTaskFoundShape(cols: seq<Column>, taskId: Id, fromId: Id, toId: Id, f: int, k: int) returns (g: int)
    requires UniqueColumnIds(cols) && UniqueBoardTaskIds(cols)
    requires 0 <= f < |cols| && cols[f].id == fromId
    requires 0 <= k < |cols[f].tasks| && cols[f].tasks[k].id == taskId
    ensures 0 <= g < |cols|
    ensures g != f ==> cols[g].id == toId && toId != fromId
    ensures var r := MoveTask(cols, taskId, fromId, toId);
      && r[f] == cols[f].(tasks := CloseGap(cols[f].tasks, taskId, cols[f].tasks[k].order))
      && (g != f ==> r[g] == cols[g].(tasks := cols[g].tasks + [cols[f].tasks[k].(order := |cols[g].tasks|)]))
      && forall x :: 0 <= x < |r| && x != f && x != g ==> r[x] == cols[x]
  {
    DraggedTaskIs(cols, taskId, fromId, f, k);
    g := if toId != fromId && HasColumn(cols, toId) then FirstColumn(cols, toId).value else f;
  }

  /** The stable part of a move that removes task k from column f. */
  lemma MoveTaskKeepsWellFormedFound(cols: seq<Column>, taskId: Id, fromId: Id, toId: Id, f: int, k: int)
    requires WellFormed(cols)
    requires 0 <= f < |cols| && cols[f].id == fromId
    requires 0 <= k < |cols[f].tasks| && cols[f].tasks[k].id == taskId
    ensures WellFormed(MoveTask(cols, taskId, fromId, toId))
  {
    var r := MoveTask(cols, taskId, fromId, toId);
    assert UniqueTaskIds(cols[f].tasks) by {
      forall a, b | 0 <= a < |cols[f].tasks| && 0 <= b < |cols[f].tasks| && a != b
        ensures cols[f].tasks[a].id != cols[f].tasks[b].id
      {
      }
    }
    var g := MoveTaskFoundShape(cols, taskId, fromId, toId, f, k);
    CloseGapRemovesOne(cols[f].tasks, taskId, cols[f].tasks[k].order, k);
    CloseGapKeepsPositions(cols[f].tasks, taskId, k);
    if g != f {
      AppendKeepsPositions(cols[g].tasks, cols[f].tasks[k]);
    }
    MovedIdsUnique(cols, r, f, k, g);
    assert ColumnOrders(r) == ColumnOrders(cols);
    assert UniqueColumnIds(r) by {
      assert forall x :: 0 <= x < |r| ==> r[x].id == cols[x].id;
    }
  }

  /**
   * Every moveTask call keeps a stable snapshot stable, including the calls
   * that drop the task.
   */
  lemma MoveTaskKeepsWellFormed(cols: seq<Column>, taskId: Id, fromId: Id, toId: Id)
    requires WellFormed(cols)
    ensures WellFormed(MoveTask(cols, taskId, fromId, toId))
  {
    match DraggedTask(cols, fromId, taskId)
    case None =>
    case Some(t) =>
      var f := FirstColumn(cols, fromId).value;
      var k := FirstTask(cols[f].tasks, taskId).value;
      MoveTaskKeepsWellFormedFound(cols, taskId, fromId, toId, f, k);
  }
}
