/**
 * The Columns component's state: the `columns` prop last supplied by the
 * server, and the local snapshot `columnsLocal` that the three drag
 * transitions replace. Every method mirrors one handler: a lookup phase,
 * an early return when the lookup fails, then one replacement of the
 * snapshot by a new value.
 */
module Store {
  import opened Board
  import opened Renumbering
  import opened Lookup
  import ColumnSwap
  import TaskSwap
  import TaskMove

  /** What addColumn sends to the server for a new column. */
  datatype AddColumnPayload = AddColumnPayload(title: string, order: int)

  class ColumnsState {
    /** The layout last received from the server. */
    var columns: seq<Column>
    /** The locally re-ordered layout that is rendered. */
    var columnsLocal: seq<Column>

    /** The local snapshot starts as the server layout. */
    constructor (columns: seq<Column>)
      ensures this.columns == columns && columnsLocal == columns
    {
      this.columns := columns;
      columnsLocal := columns;
    }

    /** New server columns discard the local snapshot and replace it. */
    method ReceiveColumns(columns: seq<Column>)
      modifies this
      ensures this.columns == columns && columnsLocal == columns
    {
      this.columns := columns;
      columnsLocal := columns;
    }

    /** Hover of a dragged column over another column. */
    method SwapColumns(dragId: Id, hoverId: Id)
      modifies this`columnsLocal
      ensures columnsLocal == ColumnSwap.SwapColumns(old(columnsLocal), dragId, hoverId)
      ensures !HasColumn(old(columnsLocal), dragId) || !HasColumn(old(columnsLocal), hoverId) ==>
        columnsLocal == old(columnsLocal)
      ensures WellFormed(old(columnsLocal)) ==> WellFormed(columnsLocal)
    {
      if WellFormed(columnsLocal) {
        ColumnSwap.SwapColumnsKeepsWellFormed(columnsLocal, dragId, hoverId);
      }
      var d, h := FindColumnOrders(columnsLocal, dragId, hoverId);
      if d.None? || h.None? {
        return;
      }
      columnsLocal := RenumberColumns(columnsLocal, dragId, d.value, h.value);
    }

    /** Hover of a dragged task over another task. */
    method SwapTasks(dragId: Id, hoverId: Id)
      modifies this`columnsLocal
      ensures columnsLocal == TaskSwap.SwapTasks(old(columnsLocal), dragId, hoverId)
      ensures dragId == hoverId || !BoardHasTask(old(columnsLocal), dragId) || !BoardHasTask(old(columnsLocal), hoverId) ==>
        columnsLocal == old(columnsLocal)
      ensures WellFormed(old(columnsLocal)) ==> WellFormed(columnsLocal)
    {
      if WellFormed(columnsLocal) {
        TaskSwap.SwapTasksKeepsWellFormed(columnsLocal, dragId, hoverId);
      }
      if dragId == hoverId {
        return;
      }
      var d, h := FindTaskSpots(columnsLocal, dragId, hoverId);
      if d.None? || h.None? || d.value.columnId != h.value.columnId {
        return;
      }
      columnsLocal := TaskSwap.RenumberInColumn(columnsLocal, d.value.columnId, dragId, d.value.order, h.value.order);
    }

    /** Hover of a dragged task over a column. */
    method MoveTask(taskId: Id, fromId: Id, toId: Id)
      modifies this`columnsLocal
      ensures columnsLocal == TaskMove.MoveTask(old(columnsLocal), taskId, fromId, toId)
      ensures WellFormed(old(columnsLocal)) ==> WellFormed(columnsLocal)
    {
      if WellFormed(columnsLocal) {
        TaskMove.MoveTaskKeepsWellFormed(columnsLocal, taskId, fromId, toId);
      }
      var dragTask := DraggedTask(columnsLocal, fromId, taskId);
      if dragTask.None? {
        return;
      }
      columnsLocal := TaskMove.Relocate(columnsLocal, dragTask.value, taskId, fromId, toId);
    }

    /**
     * The payload addColumn sends: the new column's order is the number of
     * server columns, the next free position after 0..N-1.
     */
    method AddColumn(title: string) returns (p: AddColumnPayload)
      ensures p.title == title && p.order == |columns|
      ensures IsPositions(ColumnOrders(columns)) ==> IsPositions(ColumnOrders(columns) + [p.order])
    {
      p := AddColumnPayload(title, |columns|);
      assert forall i :: 0 <= i < |columns| ==> (ColumnOrders(columns) + [p.order])[i] == ColumnOrders(columns)[i];
    }
  }
}
