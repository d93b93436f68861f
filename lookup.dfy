/**
 * The lookup phases of the transitions. swapColumns and swapTasks scan the
 * snapshot in array order, assigning the order (and column) of whichever
 * sought id the current item carries, and stop as soon as everything sought
 * has been assigned. moveTask takes the first column with the source id and,
 * in it, the first task with the dragged id.
 *
 * Each scan is specified by a recursive function that walks the same items
 * in the same order; the methods are the loops, proved equal to it.
 */
module Lookup {
  import opened Board

  // ---------------------------------------------------------------------
  // Column orders (swapColumns)
  // ---------------------------------------------------------------------

  /**
   * The scan of swapColumns from state (d, h): each column whose id is the
   * dragged id sets d, each whose id is the hovered id sets h, and the scan
   * stops once both are set.
   */
  function ScanColumnOrders(cols: seq<Column>, dragId: Id, hoverId: Id, d: Option<int>, h: Option<int>)
    : (r: (Option<int>, Option<int>))
    ensures d.Some? ==> r.0.Some?
    ensures h.Some? ==> r.1.Some?
    decreases |cols|
  {
    if cols == [] then (d, h)
    else
      var d' := if cols[0].id == dragId then Some(cols[0].order) else d;
      var h' := if cols[0].id == hoverId then Some(cols[0].order) else h;
      if d'.Some? && h'.Some? then (d', h') else ScanColumnOrders(cols[1..], dragId, hoverId, d', h')
  }

  function LocateColumnOrders(cols: seq<Column>, dragId: Id, hoverId: Id): (Option<int>, Option<int>) {
    ScanColumnOrders(cols, dragId, hoverId, None, None)
  }

  /**
   * A sought id is found exactly when it occurs; an id that does not occur
   * leaves its slot as it was.
   */
  lemma {:induction false} ScanColumnOrdersFinds(cols: seq<Column>, dragId: Id, hoverId: Id, d: Option<int>, h: Option<int>)
    ensures var r := ScanColumnOrders(cols, dragId, hoverId, d, h);
      && (HasColumn(cols, dragId) ==> r.0.Some?)
      && (!HasColumn(cols, dragId) ==> r.0 == d)
      && (HasColumn(cols, hoverId) ==> r.1.Some?)
      && (!HasColumn(cols, hoverId) ==> r.1 == h)
    decreases |cols|
  {
    if cols != [] {
      var d' := if cols[0].id == dragId then Some(cols[0].order) else d;
      var h' := if cols[0].id == hoverId then Some(cols[0].order) else h;
      ScanColumnOrdersFinds(cols[1..], dragId, hoverId, d', h');
      HasColumnTail(cols, dragId);
      HasColumnTail(cols, hoverId);
    }
  }

  lemma HasColumnTail(cols: seq<Column>, id: Id)
    requires cols != []
    ensures HasColumn(cols, id) <==> cols[0].id == id || HasColumn(cols[1..], id)
  {
    if HasColumn(cols, id) && cols[0].id != id {
      var i :| 0 <= i < |cols| && cols[i].id == id;
      assert cols[1..][i - 1].id == id;
    }
    if HasColumn(cols[1..], id) {
      var i :| 0 <= i < |cols[1..]| && cols[1..][i].id == id;
      assert cols[i + 1].id == id;
    }
  }

  /**
   * With unique column ids, a slot that starts unset ends holding the order
   * of the one column that carries the sought id.
   */
  lemma {:induction false} ScanColumnOrdersExact(cols: seq<Column>, dragId: Id, hoverId: Id, d: Option<int>, h: Option<int>, k: int)
    requires UniqueColumnIds(cols) && 0 <= k < |cols|
    ensures cols[k].id == dragId && d.None? ==> ScanColumnOrders(cols, dragId, hoverId, d, h).0 == Some(cols[k].order)
    ensures cols[k].id == hoverId && h.None? ==> ScanColumnOrders(cols, dragId, hoverId, d, h).1 == Some(cols[k].order)
    decreases |cols|
  {
    var d' := if cols[0].id == dragId then Some(cols[0].order) else d;
    var h' := if cols[0].id == hoverId then Some(cols[0].order) else h;
    var rest := cols[1..];
    if k == 0 {
      assert forall i :: 0 <= i < |rest| ==> rest[i].id != cols[0].id by {
        forall i | 0 <= i < |rest| ensures rest[i].id != cols[0].id {
          assert rest[i] == cols[i + 1];
        }
      }
      ScanColumnOrdersFinds(rest, dragId, hoverId, d', h');
    } else {
      assert rest[k - 1] == cols[k];
      assert UniqueColumnIds(rest) by {
        forall i, j | 0 <= i < |rest| && 0 <= j < |rest| && i != j ensures rest[i].id != rest[j].id {
          assert rest[i] == cols[i + 1] && rest[j] == cols[j + 1];
        }
      }
      assert cols[0].id != cols[k].id;
      ScanColumnOrdersExact(rest, dragId, hoverId, d', h', k - 1);
    }
  }

  /** The lookup loop of swapColumns. */
  method FindColumnOrders(cols: seq<Column>, dragId: Id, hoverId: Id) returns (d: Option<int>, h: Option<int>)
    ensures (d, h) == LocateColumnOrders(cols, dragId, hoverId)
    ensures d.Some? <==> HasColumn(cols, dragId)
    ensures h.Some? <==> HasColumn(cols, hoverId)
  {
    ScanColumnOrdersFinds(cols, dragId, hoverId, None, None);
    d, h := None, None;
    var i := 0;
    while i < |cols|
      invariant 0 <= i <= |cols|
      invariant ScanColumnOrders(cols[i..], dragId, hoverId, d, h) == LocateColumnOrders(cols, dragId, hoverId)
    {
      assert cols[i..][0] == cols[i] && cols[i..][1..] == cols[i + 1..];
      if cols[i].id == dragId {
        d := Some(cols[i].order);
      }
      if cols[i].id == hoverId {
        h := Some(cols[i].order);
      }
      if d.Some? && h.Some? {
        return;
      }
      i := i + 1;
    }
  }

  // ---------------------------------------------------------------------
  // Task orders and columns (swapTasks)
  // ---------------------------------------------------------------------

  /** Where a task was seen: the id of its column and its order there. */
  datatype TaskSpot = TaskSpot(columnId: Id, order: int)

  /**
   * The inner scan of swapTasks over one column's tasks: a task with the
   * dragged id sets d; otherwise a task with the hovered id sets h; the
   * scan stops once both are set.
   */
  function ScanColumnTasks(columnId: Id, tasks: seq<Task>, dragId: Id, hoverId: Id, d: Option<TaskSpot>, h: Option<TaskSpot>)
    : (r: (Option<TaskSpot>, Option<TaskSpot>))
    ensures d.Some? ==> r.0.Some?
    ensures h.Some? ==> r.1.Some?
    decreases |tasks|
  {
    if tasks == [] then (d, h)
    else
      var t := tasks[0];
      var d' := if t.id == dragId then Some(TaskSpot(columnId, t.order)) else d;
      var h' := if t.id != dragId && t.id == hoverId then Some(TaskSpot(columnId, t.order)) else h;
      if d'.Some? && h'.Some? then (d', h') else ScanColumnTasks(columnId, tasks[1..], dragId, hoverId, d', h')
  }

  /** The outer scan of swapTasks: column after column, until both are set. */
  function ScanTasks(cols: seq<Column>, dragId: Id, hoverId: Id, d: Option<TaskSpot>, h: Option<TaskSpot>)
    : (r: (Option<TaskSpot>, Option<TaskSpot>))
    ensures d.Some? ==> r.0.Some?
    ensures h.Some? ==> r.1.Some?
    decreases |cols|
  {
    if cols == [] then (d, h)
    else
      var r := ScanColumnTasks(cols[0].id, cols[0].tasks, dragId, hoverId, d, h);
      if r.0.Some? && r.1.Some? then r else ScanTasks(cols[1..], dragId, hoverId, r.0, r.1)
  }

  function LocateTasks(cols: seq<Column>, dragId: Id, hoverId: Id): (Option<TaskSpot>, Option<TaskSpot>) {
    ScanTasks(cols, dragId, hoverId, None, None)
  }

  lemma HasTaskTail(tasks: seq<Task>, id: Id)
    requires tasks != []
    ensures HasTask(tasks, id) <==> tasks[0].id == id || HasTask(tasks[1..], id)
  {
    if HasTask(tasks, id) && tasks[0].id != id {
      var j :| 0 <= j < |tasks| && tasks[j].id == id;
      assert tasks[1..][j - 1].id == id;
    }
    if HasTask(tasks[1..], id) {
      var j :| 0 <= j < |tasks[1..]| && tasks[1..][j].id == id;
      assert tasks[j + 1].id == id;
    }
  }

  lemma BoardHasTaskTail(cols: seq<Column>, id: Id)
    requires cols != []
    ensures BoardHasTask(cols, id) <==> HasTask(cols[0].tasks, id) || BoardHasTask(cols[1..], id)
  {
    if BoardHasTask(cols, id) && !HasTask(cols[0].tasks, id) {
      var i :| 0 <= i < |cols| && HasTask(cols[i].tasks, id);
      assert cols[1..][i - 1] == cols[i];
    }
    if BoardHasTask(cols[1..], id) {
      var i :| 0 <= i < |cols[1..]| && HasTask(cols[1..][i].tasks, id);
      assert cols[i + 1] == cols[1..][i];
    }
  }

  /**
   * Within one column: the dragged id is found exactly when it occurs, the
   * hovered id too when it differs from the dragged one, and an id that does
   * not occur leaves its slot as it was.
   */
  lemma {:induction false} ScanColumnTasksFinds(columnId: Id, tasks: seq<Task>, dragId: Id, hoverId: Id, d: Option<TaskSpot>, h: Option<TaskSpot>)
    ensures var r := ScanColumnTasks(columnId, tasks, dragId, hoverId, d, h);
      && (HasTask(tasks, dragId) ==> r.0.Some?)
      && (!HasTask(tasks, dragId) ==> r.0 == d)
      && (dragId != hoverId && HasTask(tasks, hoverId) ==> r.1.Some?)
      && (!HasTask(tasks, hoverId) ==> r.1 == h)
    decreases |tasks|
  {
    if tasks != [] {
      var t := tasks[0];
      var d' := if t.id == dragId then Some(TaskSpot(columnId, t.order)) else d;
      var h' := if t.id != dragId && t.id == hoverId then Some(TaskSpot(columnId, t.order)) else h;
      ScanColumnTasksFinds(columnId, tasks[1..], dragId, hoverId, d', h');
      HasTaskTail(tasks, dragId);
      HasTaskTail(tasks, hoverId);
    }
  }

  /** Over the board, as ScanColumnTasksFinds is within one column. */
  lemma {:induction false} ScanTasksFinds(cols: seq<Column>, dragId: Id, hoverId: Id, d: Option<TaskSpot>, h: Option<TaskSpot>)
    ensures var r := ScanTasks(cols, dragId, hoverId, d, h);
      && (BoardHasTask(cols, dragId) ==> r.0.Some?)
      && (!BoardHasTask(cols, dragId) ==> r.0 == d)
      && (dragId != hoverId && BoardHasTask(cols, hoverId) ==> r.1.Some?)
      && (!BoardHasTask(cols, hoverId) ==> r.1 == h)
    decreases |cols|
  {
    if cols != [] {
      var r := ScanColumnTasks(cols[0].id, cols[0].tasks, dragId, hoverId, d, h);
      ScanColumnTasksFinds(cols[0].id, cols[0].tasks, dragId, hoverId, d, h);
      ScanTasksFinds(cols[1..], dragId, hoverId, r.0, r.1);
      BoardHasTaskTail(cols, dragId);
      BoardHasTaskTail(cols, hoverId);
    }
  }

  /**
   * Within one column of unique task ids, a slot that starts unset ends
   * holding this column and the order of the task that carries the sought id.
   */
  lemma {:induction false} ScanColumnTasksExact(columnId: Id, tasks: seq<Task>, dragId: Id, hoverId: Id, d: Option<TaskSpot>, h: Option<TaskSpot>, a: int)
    requires UniqueTaskIds(tasks) && 0 <= a < |tasks| && dragId != hoverId
    ensures tasks[a].id == dragId && d.None? ==>
      ScanColumnTasks(columnId, tasks, dragId, hoverId, d, h).0 == Some(TaskSpot(columnId, tasks[a].order))
    ensures tasks[a].id == hoverId && h.None? ==>
      ScanColumnTasks(columnId, tasks, dragId, hoverId, d, h).1 == Some(TaskSpot(columnId, tasks[a].order))
    decreases |tasks|
  {
    var t := tasks[0];
    var d' := if t.id == dragId then Some(TaskSpot(columnId, t.order)) else d;
    var h' := if t.id != dragId && t.id == hoverId then Some(TaskSpot(columnId, t.order)) else h;
    var rest := tasks[1..];
    if a == 0 {
      assert !HasTask(rest, t.id) by {
        forall j | 0 <= j < |rest| ensures rest[j].id != t.id {
          assert rest[j] == tasks[j + 1];
        }
      }
      ScanColumnTasksFinds(columnId, rest, dragId, hoverId, d', h');
    } else {
      assert rest[a - 1] == tasks[a];
      assert UniqueTaskIds(rest) by {
        forall x, y | 0 <= x < |rest| && 0 <= y < |rest| && x != y ensures rest[x].id != rest[y].id {
          assert rest[x] == tasks[x + 1] && rest[y] == tasks[y + 1];
        }
      }
      assert t.id != tasks[a].id;
      ScanColumnTasksExact(columnId, rest, dragId, hoverId, d', h', a - 1);
    }
  }

  /** Removing the first column keeps task ids unique across the board. */
  lemma UniqueBoardTaskIdsTail(cols: seq<Column>)
    requires cols != [] && UniqueBoardTaskIds(cols)
    ensures UniqueBoardTaskIds(cols[1..])
    ensures UniqueTaskIds(cols[0].tasks)
    ensures forall i, b :: 0 <= i < |cols[1..]| && 0 <= b < |cols[1..][i].tasks| ==> !HasTask(cols[0].tasks, cols[1..][i].tasks[b].id)
  {
    var rest := cols[1..];
    forall i, j, a, b |
      0 <= i < |rest| && 0 <= j < |rest| && 0 <= a < |rest[i].tasks| && 0 <= b < |rest[j].tasks| && (i != j || a != b)
      ensures rest[i].tasks[a].id != rest[j].tasks[b].id
    {
      assert rest[i] == cols[i + 1] && rest[j] == cols[j + 1];
    }
    forall i, b | 0 <= i < |rest| && 0 <= b < |rest[i].tasks|
      ensures !HasTask(cols[0].tasks, rest[i].tasks[b].id)
    {
      assert rest[i] == cols[i + 1];
      forall a | 0 <= a < |cols[0].tasks| ensures cols[0].tasks[a].id != rest[i].tasks[b].id {
        assert cols[0].tasks[a].id != cols[i + 1].tasks[b].id;
      }
    }
  }

  /**
   * With task ids unique across the board, a slot that starts unset ends
   * holding the id of the column that holds the sought task and that task's
   * order.
   */
  lemma {:induction false} ScanTasksExact(cols: seq<Column>, dragId: Id, hoverId: Id, d: Option<TaskSpot>, h: Option<TaskSpot>, i: int, a: int)
    requires UniqueBoardTaskIds(cols) && 0 <= i < |cols| && 0 <= a < |cols[i].tasks| && dragId != hoverId
    ensures cols[i].tasks[a].id == dragId && d.None? ==>
      ScanTasks(cols, dragId, hoverId, d, h).0 == Some(TaskSpot(cols[i].id, cols[i].tasks[a].order))
    ensures cols[i].tasks[a].id == hoverId && h.None? ==>
      ScanTasks(cols, dragId, hoverId, d, h).1 == Some(TaskSpot(cols[i].id, cols[i].tasks[a].order))
    decreases |cols|
  {
    var r := ScanColumnTasks(cols[0].id, cols[0].tasks, dragId, hoverId, d, h);
    var rest := cols[1..];
    UniqueBoardTaskIdsTail(cols);
    ScanColumnTasksFinds(cols[0].id, cols[0].tasks, dragId, hoverId, d, h);
    if i == 0 {
      ScanColumnTasksExact(cols[0].id, cols[0].tasks, dragId, hoverId, d, h, a);
      assert !BoardHasTask(rest, cols[0].tasks[a].id) by {
        forall x | 0 <= x < |rest| ensures !HasTask(rest[x].tasks, cols[0].tasks[a].id) {
          forall b | 0 <= b < |rest[x].tasks| ensures rest[x].tasks[b].id != cols[0].tasks[a].id {
            assert !HasTask(cols[0].tasks, rest[x].tasks[b].id);
          }
        }
      }
      ScanTasksFinds(rest, dragId, hoverId, r.0, r.1);
    } else {
      assert rest[i - 1] == cols[i];
      assert !HasTask(cols[0].tasks, cols[i].tasks[a].id);
      ScanTasksExact(rest, dragId, hoverId, r.0, r.1, i - 1, a);
    }
  }

  /** The nested lookup loops of swapTasks. */
  method FindTaskSpots(cols: seq<Column>, dragId: Id, hoverId: Id) returns (d: Option<TaskSpot>, h: Option<TaskSpot>)
    ensures (d, h) == LocateTasks(cols, dragId, hoverId)
    ensures d.Some? <==> BoardHasTask(cols, dragId)
    ensures dragId != hoverId ==> (h.Some? <==> BoardHasTask(cols, hoverId))
  {
    ScanTasksFinds(cols, dragId, hoverId, None, None);
    d, h := None, None;
    var i := 0;
    while i < |cols|
      invariant 0 <= i <= |cols|
      invariant ScanTasks(cols[i..], dragId, hoverId, d, h) == LocateTasks(cols, dragId, hoverId)
      invariant !(d.Some? && h.Some?)
    {
      assert cols[i..][0] == cols[i] && cols[i..][1..] == cols[i + 1..];
      var tasks := cols[i].tasks;
      ghost var inner := ScanColumnTasks(cols[i].id, tasks, dragId, hoverId, d, h);
      var j := 0;
      while j < |tasks|
        invariant 0 <= j <= |tasks|
        invariant ScanColumnTasks(cols[i].id, tasks[j..], dragId, hoverId, d, h) == inner
        invariant !(d.Some? && h.Some?)
      {
        assert tasks[j..][0] == tasks[j] && tasks[j..][1..] == tasks[j + 1..];
        if tasks[j].id == dragId {
          d := Some(TaskSpot(cols[i].id, tasks[j].order));
        } else if tasks[j].id == hoverId {
          h := Some(TaskSpot(cols[i].id, tasks[j].order));
        }
        if d.Some? && h.Some? {
          return;
        }
        j := j + 1;
      }
      i := i + 1;
    }
  }

  // ---------------------------------------------------------------------
  // The dragged task (moveTask)
  // ---------------------------------------------------------------------

  /** Index of the first column with the given id, as Array.prototype.find picks it. */
  function FirstColumn(cols: seq<Column>, id: Id): (r: Option<nat>)
    ensures r.Some? ==> r.value < |cols| && cols[r.value].id == id
    ensures r.Some? ==> forall i :: 0 <= i < r.value ==> cols[i].id != id
    ensures r.None? <==> !HasColumn(cols, id)
    decreases |cols|
  {
    if cols == [] then None
    else if cols[0].id == id then Some(0)
    else
      HasColumnTail(cols, id);
      match FirstColumn(cols[1..], id)
      case None => None
      case Some(k) => Some(k + 1)
  }

  /** Index of the first task with the given id. */
  function FirstTask(tasks: seq<Task>, id: Id): (r: Option<nat>)
    ensures r.Some? ==> r.value < |tasks| && tasks[r.value].id == id
    ensures r.Some? ==> forall j :: 0 <= j < r.value ==> tasks[j].id != id
    ensures r.None? <==> !HasTask(tasks, id)
    decreases |tasks|
  {
    if tasks == [] then None
    else if tasks[0].id == id then Some(0)
    else
      HasTaskTail(tasks, id);
      match FirstTask(tasks[1..], id)
      case None => None
      case Some(k) => Some(k + 1)
  }

  /**
   * The task moveTask drags: found in the first column carrying the source
   * id, and absent when that column is missing or does not hold it.
   */
  function DraggedTask(cols: seq<Column>, fromId: Id, taskId: Id): (r: Option<Task>)
    ensures r.Some? ==> r.value.id == taskId
    ensures r.Some? <==> exists i :: 0 <= i < |cols| && cols[i].id == fromId && HasTask(cols[i].tasks, taskId) &&
                                     forall i' :: 0 <= i' < i ==> cols[i'].id != fromId
  {
    match FirstColumn(cols, fromId)
    case None => None
    case Some(c) =>
      match FirstTask(cols[c].tasks, taskId)
      case None => None
      case Some(k) => Some(cols[c].tasks[k])
  }
}
