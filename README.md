# Kanban board order maintenance, modelled in Dafny

This project models the order-maintenance engine of the trollo kanban board:
the part of the `Columns` component (`src/views/Board/components/Columns.tsx`)
that keeps columns and tasks correctly numbered while the user drags them.

The component holds a local board snapshot, `columnsLocal`. It is reset
whenever the server supplies new `columns`. Three hover handlers replace
the snapshot with a recomputed one:

- **swapColumns** scans the columns for the dragged and the hovered column's
  `order`. It then applies the shift-and-insert rule: the dragged column takes
  the hovered column's order, and the columns in between move by one slot
  towards the gap.
- **swapTasks** applies the same rule to the tasks of one column. It does
  nothing when the two ids are equal, when either task is missing, or when the
  two tasks are in different columns.
- **moveTask** removes the task from its source column and lowers the orders
  above the gap. It then appends the task to the destination column with
  `order` = that column's old task count.

`addColumn` gives a new column the order `columns.length`.

A position is the `order` field, never the index in the array. The arrays
are never re-sorted.

Layout:

- `board.dfy` (module `Board`) holds the snapshot types `Column` and `Task`.
  It also defines the stable-snapshot invariant `WellFormed`: ids are unique,
  and column orders and each column's task orders are the positions 0..N-1.
- `renumbering.dfy` (`Renumbering`) holds the shared sibling rule, with an
  independent statement of it (`FollowsRenumberRule`).
- `lookup.dfy` (`Lookup`) holds the lookup scans. Each is a recursive function
  that walks the items in the source's order and stops where the source stops.
  The loop methods are proved equal to those functions.
- `column_swap.dfy`, `task_swap.dfy` and `task_move.dfy` hold the three
  transitions as pure functions from snapshot to snapshot, with their lemmas.
- `store.dfy` (`Store`) holds the class `ColumnsState`, with fields `columns`
  and `columnsLocal` and one method per handler.
- `scenarios.dfy` states what each transition gives on small concrete boards.

Points where the code's behaviour is easy to misread:

- `swapColumns` (Columns.tsx:49-101) has no guard for equal ids. Its caller
  has one (Column.tsx:89-91). The model computes what `swapColumns` computes,
  and `SwapColumnsSelfIsNoOp` proves that the result is unchanged anyway when
  column ids are unique.
- `moveTask`, as declared with three arguments, drops the task when
  `toColumnId` equals `fromColumnId`, or when no column carries `toColumnId`. The source branch (Columns.tsx:207) is
  checked before the destination branch (Columns.tsx:225).
  `MoveTaskWithoutDestinationDropsTask` states this, and `MoveTaskConservesTasks`
  proves conservation for a distinct destination that is present.
- `changeOrder` only logs (Columns.tsx:237-241).
- The code has no cancel or revert step for a drag.

## Model

| member | source | states |
|---|---|---|
| `Renumbering.SiblingOrder` | src/views/Board/components/Columns.tsx:82-98 | The new order of one sibling. The dragged sibling gets the hovered order. Any other sibling moves by at most one, and keeps its order when it lies outside the range between the dragged and hovered orders. |
| `Renumbering.RenumberColumns` | src/views/Board/components/Columns.tsx:78-98 | Applies the sibling rule to every column. The column count is kept, only `order` fields change, and the column carrying the dragged id gets the hovered order. |
| `Renumbering.RenumberTasks` | src/views/Board/components/Columns.tsx:162-182 | The same for the tasks of one column: the task count is kept, only `order` fields change, and the dragged task gets the hovered order. |
| `Lookup.ScanColumnOrders` | src/views/Board/components/Columns.tsx:53-63 | The swapColumns scan, which stops once both orders are set. A slot that is set is never cleared. |
| `Lookup.ScanColumnTasks` | src/views/Board/components/Columns.tsx:114-129 | The inner swapTasks scan over one column's tasks, with the hovered slot filled only by a task whose id differs from the dragged id. A slot that is set is never cleared. |
| `Lookup.ScanTasks` | src/views/Board/components/Columns.tsx:113-130 | The outer swapTasks scan over the columns, which stops once both spots are set. A slot that is set is never cleared. |
| `ColumnSwap.SwapColumns` | src/views/Board/components/Columns.tsx:49-101 | The snapshot swapColumns produces: unchanged unless both ids are found, else the sibling rule over all columns. The column count is kept, and only `order` fields change. |
| `TaskSwap.RenumberInColumn` | src/views/Board/components/Columns.tsx:145-186 | Applies the sibling rule to the tasks of the column carrying the found column id. Other columns are unchanged, every column keeps its fields and task count, and tasks change only their `order`. |
| `TaskSwap.SwapTasks` | src/views/Board/components/Columns.tsx:103-187 | The snapshot swapTasks produces: unchanged for equal ids, a missing task or two different columns, else the rule in the shared column. Column fields and task counts are kept, and tasks change only their `order`. |
| `TaskMove.CloseGap` | src/views/Board/components/Columns.tsx:210-223 | The source column's new task list. No task carrying the dragged id remains, and the list never grows. |
| `TaskMove.Relocate` | src/views/Board/components/Columns.tsx:205-234 | The snapshot once the dragged task is found. Column ids, titles and orders are kept. A column that is neither source nor destination is unchanged, and the destination gets the task appended with order = its old length. |
| `TaskMove.MoveTask` | src/views/Board/components/Columns.tsx:189-235 | The snapshot moveTask produces: unchanged when the source column does not hold the task, else `Relocate`. Column fields other than `tasks` are kept, and columns other than source and destination are unchanged. |
| `TaskMove.MoveTaskFoundShape` | src/views/Board/components/Columns.tsx:205-234 | With unique ids, when column f holds the task, column f gets the closed-up list and the destination gains the task at its end when distinct from f. Every other column is unchanged. |
| `Renumbering.RenumberRuleKeepsPositions` | src/views/Board/components/Columns.tsx:82-98 | If the old orders are a permutation of 0..N-1 and the hovered order is one of them, the shift-and-insert rule yields a permutation of 0..N-1 again. |
| `Renumbering.RenumberColumnsFollowsRule` | src/views/Board/components/Columns.tsx:78-98 | With unique column ids, the per-column update follows the rule: the dragged column gets the hovered order, columns in [h, d) go up by one on an upward drag, columns in (d, h] go down by one on a downward drag, the rest keep their order. Only `order` fields change. |
| `Renumbering.RenumberTasksFollowsRule` | src/views/Board/components/Columns.tsx:162-182 | The same rule for the tasks of one column, with unique task ids. Only `order` fields change. |
| `Lookup.ScanColumnOrdersFinds` | src/views/Board/components/Columns.tsx:53-67 | The swapColumns scan finds a dragged or hovered order exactly when a column carries that id. A slot whose id is absent is left as it was. |
| `Lookup.ScanColumnOrdersExact` | src/views/Board/components/Columns.tsx:53-63 | With unique column ids, the scan yields the order of the one column carrying the dragged id, and likewise for the hovered id. |
| `Lookup.FindColumnOrders` | src/views/Board/components/Columns.tsx:50-63 | The lookup loop returns what the scan specifies. Each result is present exactly when its id is on the board. |
| `Lookup.ScanColumnTasksFinds` | src/views/Board/components/Columns.tsx:114-129 | Within one column, the inner scan finds the dragged task exactly when the column holds it. It finds the hovered task likewise, when its id differs from the dragged id. |
| `Lookup.ScanTasksFinds` | src/views/Board/components/Columns.tsx:113-130 | The nested swapTasks scan finds the dragged task exactly when some column holds it, and likewise the hovered task when the ids differ. |
| `Lookup.ScanColumnTasksExact` | src/views/Board/components/Columns.tsx:114-129 | With unique task ids in the column, the inner scan records this column's id and the sought task's order. |
| `Lookup.ScanTasksExact` | src/views/Board/components/Columns.tsx:113-130 | With task ids unique across the board, the scan records the id of the column that holds each sought task and that task's order. |
| `Lookup.FindTaskSpots` | src/views/Board/components/Columns.tsx:108-130 | The nested lookup loops return what the scan specifies. The dragged spot is present exactly when the task is on the board, and so is the hovered spot when the ids differ. |
| `Lookup.FirstColumn` | src/views/Board/components/Columns.tsx:190-191 | Returns the index of the first column carrying the id, or nothing exactly when no column carries it. |
| `Lookup.FirstTask` | src/views/Board/components/Columns.tsx:192 | Returns the index of the first task carrying the id, or nothing exactly when no task carries it. |
| `Lookup.DraggedTask` | src/views/Board/components/Columns.tsx:190-196 | moveTask finds a task, carrying the dragged id, exactly when the first column with the source id holds that id. |
| `ColumnSwap.SwapColumnsMissingIsNoOp` | src/views/Board/components/Columns.tsx:53-67 | swapColumns leaves the snapshot unchanged when the dragged or the hovered id is on no column. |
| `ColumnSwap.SwapColumnsEffect` | src/views/Board/components/Columns.tsx:78-98 | With unique column ids, the dragged column's new order is the hovered column's old order. Every other column shifts by the rule (`FollowsRenumberRule`), and only orders change. |
| `ColumnSwap.SwapColumnsKeepsPositions` | src/views/Board/components/Columns.tsx:71-100 | With unique ids, column orders that are a permutation of 0..N-1 remain one. The column count is unchanged, and ids, titles and tasks are untouched. |
| `ColumnSwap.SwapColumnsSelfIsNoOp` | src/views/Board/components/Columns.tsx:78-97 | With unique column ids, hovering a column over itself changes nothing. The dragged column keeps its own order, and the equal-orders branch moves no sibling. |
| `ColumnSwap.SwapColumnsKeepsWellFormed` | src/views/Board/components/Columns.tsx:71-100 | A stable snapshot (unique ids, contiguous orders) stays stable. |
| `ColumnSwap.SwapColumnsAdjacentRoundTrip` | src/views/Board/components/Columns.tsx:78-98 | Dragging a column over its neighbour, then the neighbour back over it, restores the snapshot exactly. |
| `TaskSwap.SwapTasksIgnoredIsNoOp` | src/views/Board/components/Columns.tsx:103-141 | swapTasks changes nothing when the two ids are equal or either task is on no column. |
| `TaskSwap.SwapTasksCrossColumnIsNoOp` | src/views/Board/components/Columns.tsx:132-141 | With unique task ids, swapTasks changes nothing when the two tasks sit in columns with different ids. |
| `TaskSwap.SwapTasksEffect` | src/views/Board/components/Columns.tsx:145-186 | With unique ids, only the column holding both tasks changes. In it, the dragged task takes the hovered task's old order and the other tasks follow the rule. The task count, ids and other fields are kept. |
| `TaskSwap.SwapTasksKeepsWellFormed` | src/views/Board/components/Columns.tsx:145-186 | A stable snapshot stays stable. In particular, the touched column's task orders stay a permutation of 0..M-1. |
| `TaskMove.CloseGapRemovesOne` | src/views/Board/components/Columns.tsx:210-223 | With unique ids, the source column loses exactly the dragged task. The others keep their array order, and those above the gap come down by one. |
| `TaskMove.CloseGapKeepsPositions` | src/views/Board/components/Columns.tsx:210-223 | Removing the task whose order is the gap turns orders 0..M-1 into orders 0..M-2. |
| `TaskMove.AppendKeepsPositions` | src/views/Board/components/Columns.tsx:225-229 | Appending with order = old length keeps the destination's orders contiguous. |
| `TaskMove.MoveTaskNotFoundIsNoOp` | src/views/Board/components/Columns.tsx:190-196 | moveTask changes nothing when no column with the source id holds the task. |
| `TaskMove.DraggedTaskIs` | src/views/Board/components/Columns.tsx:190-192 | With unique ids, the task moveTask drags is the one the source column holds. |
| `TaskMove.MoveTaskEffect` | src/views/Board/components/Columns.tsx:205-234 | For a source column distinct from a present destination, the source loses exactly the task, and its tasks above the old order decrement. The destination gains the task last, with order = its old length and every other field kept. Nothing else changes. |
| `TaskMove.MoveTaskConservesTasks` | src/views/Board/components/Columns.tsx:205-234 | The same move takes one task from the source, adds one to the destination, and keeps the board's total task count. |
| `TaskMove.MoveTaskWithoutDestinationDropsTask` | src/views/Board/components/Columns.tsx:205-234 | When the destination id equals the source id or is on no column, the task is removed and appended nowhere: the board has one task fewer. |
| `TaskMove.MoveTaskKeepsWellFormed` | src/views/Board/components/Columns.tsx:189-235 | Every moveTask call keeps a stable snapshot stable, including the calls that drop the task. |
| `Store.ColumnsState.constructor` | src/views/Board/components/Columns.tsx:43 | The local snapshot starts as the server columns. |
| `Store.ColumnsState.ReceiveColumns` | src/views/Board/components/Columns.tsx:45-47 | New server columns replace both the stored columns and the local snapshot. |
| `Store.ColumnsState.SwapColumns` | src/views/Board/components/Columns.tsx:49-101 | The handler replaces `columnsLocal` by the swapColumns transition of the old snapshot. A missing id leaves it unchanged. A stable snapshot stays stable. `columns` is untouched. |
| `Store.ColumnsState.SwapTasks` | src/views/Board/components/Columns.tsx:103-187 | The handler replaces `columnsLocal` by the swapTasks transition. Equal or missing ids leave it unchanged. A stable snapshot stays stable. |
| `Store.ColumnsState.MoveTask` | src/views/Board/components/Columns.tsx:189-235 | The handler replaces `columnsLocal` by the moveTask transition. A stable snapshot stays stable. |
| `Store.ColumnsState.AddColumn` | src/views/Board/components/Columns.tsx:261-266 | The new column's order is the server column count. If the current orders are 0..N-1, adding it gives 0..N. |
| `Scenarios.DragLastColumnToFront` | src/views/Board/components/Columns.tsx:78-98 | Three columns at 0, 1, 2: dragging c2 over c0 gives c2 at 0, c0 at 1 and c1 at 2. |
| `Scenarios.NonAdjacentRoundTripDiffers` | src/views/Board/components/Columns.tsx:78-98 | Dragging c2 over c0 and then c0 back over c2 leaves c1 at 2 and c2 at 1, so a non-adjacent round trip does not restore the snapshot. |
| `Scenarios.DragTaskUpInColumn` | src/views/Board/components/Columns.tsx:145-186 | Four tasks at 0..3: dragging the task at 3 over the task at 1 gives 0, 2, 3, 1. |
| `Scenarios.MoveTaskAcrossColumns` | src/views/Board/components/Columns.tsx:205-234 | A = [t1@0, t2@1] and B = [t3@0]: moving t1 from A to B gives A = [t2@0] and B = [t3@0, t1@1]. |

## Left out

- `changeOrder` (Columns.tsx:237-241) only logs. It has no state to model, and the commit request it stands for does not exist in the code.
- The HTTP calls, react-query queries, mutations and cache invalidation, and the toast errors (Columns.tsx:33-41, 243-257) are network I/O. `addColumn` is modelled only as the payload it builds.
- `reducedId` and the `console.log` calls are debug logging only.
- The react-dnd hooks and markup in `Column.tsx` and `Task.tsx` only forward hover and drop events to the handlers. Column.tsx:74 calls `moveTask(taskId, hoveredColumnId)` with two arguments, so at runtime `fromColumnId` is the hovered column and `toColumnId` is undefined. When the hovered column does not hold the task, `moveTask` returns at Columns.tsx:194-196 and nothing changes (`MoveTaskNotFoundIsNoOp`). When it does hold the task, the log call at Columns.tsx:198-203 evaluates `reducedId(toColumnId)` (Columns.tsx:25) on undefined. That throws at Columns.tsx:202, before the state update at Columns.tsx:205, so the handler throws and the snapshot is unchanged. Thrown exceptions and the log call are not modelled. `MoveTaskWithoutDestinationDropsTask` describes only the three-argument function as declared at Columns.tsx:189, called with a destination that is a string carried by no column or equal to the source. Passing that function to the two-parameter `moveTask` prop (Columns.tsx:284 against Column.tsx:27) is a type mismatch. The model follows the declaration in `Columns.tsx`.
- React's functional update computes the new snapshot from the latest state (`prev`), while the lookup reads the render-time `columnsLocal`. The model assumes these are the same snapshot, that is, one handler call per render. Stale-closure interleavings are not modelled.
- The reset effect fires when the `columns` reference changes. `ReceiveColumns` resets on every call.
- JavaScript numbers are modelled as unbounded integers. The handlers only add or subtract 1 from integer orders, and `.length`, so no fractional or overflowing value arises.
- Object spreads (`{ ...column }`) are shallow copies. They are modelled as the same value, since nothing observes identity.
- SwapColumnsSelfIsNoOp: assumes unique column ids. If the id occurs on several columns, the scan stops at the first one, and every column carrying the id is given that column's order.
- Several lemmas (the `Exact`, `Effect` and `WellFormed` ones) assume unique ids. The transitions themselves are modelled for any snapshot, duplicates included.
- Cancelling a drag and reverting to a committed layout are not implemented in the code, so they are not modelled.
- `addTask`'s order (`tasks.length`, Column.tsx:115) is not part of this model.
