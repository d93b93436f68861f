/**
 * The shift-and-insert rule that swapColumns and swapTasks share: the
 * dragged sibling takes the hovered sibling's order, and the siblings in
 * between move by one towards the slot the dragged one left.
 */
module Renumbering {
  import opened Board

  /**
   * The new order of one sibling whose old order is `o`, when the dragged
   * sibling had order `d` and the hovered one order `h`. The sign of
   * `d - h` picks the direction; `d == h` takes the downward branch, whose
   * range is then empty.
   */
  function SiblingOrder(isDragged: bool, o: int, d: int, h: int): (r: int)
    ensures isDragged ==> r == h
    ensures !isDragged ==> o - 1 <= r <= o + 1
    ensures !isDragged && ((o < d && o < h) || (o > d && o > h)) ==> r == o
  {
    if isDragged then h
    else if d - h > 0 then (if o >= h && o < d then o + 1 else o)
    else (if o <= h && o > d then o - 1 else o)
  }

  /**
   * The rule stated on positions, independently of how it is computed:
   * the sibling at index `k` (the dragged one) ends at `h`; on an upward
   * drag the others in [h, d) increment, on a downward drag those in
   * (d, h] decrement, and every other sibling keeps its order.
   */
  ghost predicate FollowsRenumberRule(os: seq<int>, os': seq<int>, k: int, h: int) {
    && |os'| == |os|
    && 0 <= k < |os|
    && os'[k] == h
    && forall i :: 0 <= i < |os| && i != k ==>
         os'[i] == (if os[k] > h && h <= os[i] < os[k] then os[i] + 1
                    else if os[k] < h && os[k] < os[i] <= h then os[i] - 1
                    else os[i])
  }

  /**
   * The rule keeps a permutation of 0..N-1 a permutation of 0..N-1, as long
   * as the hovered order is itself one of the positions.
   */
  lemma RenumberRuleKeepsPositions(os: seq<int>, os': seq<int>, k: int, h: int)
    requires IsPositions(os) && 0 <= h < |os|
    requires FollowsRenumberRule(os, os', k, h)
    ensures IsPositions(os')
  {
    var d := os[k];
    forall i, j | 0 <= i < |os| && 0 <= j < |os| && i != j
      ensures os'[i] != os'[j]
    {
      if i != k && j != k {
        assert os[i] != d && os[j] != d && os[i] != os[j];
      }
    }
  }

  /** Applies the rule to every column; the dragged one is found by id. */
  function RenumberColumns(cols: seq<Column>, dragId: Id, d: int, h: int): (r: seq<Column>)
    ensures |r| == |cols|
    ensures forall i :: 0 <= i < |r| ==> r[i] == cols[i].(order := r[i].order)
    ensures forall i :: 0 <= i < |r| && cols[i].id == dragId ==> r[i].order == h
  {
    seq(|cols|, i requires 0 <= i < |cols| =>
      cols[i].(order := SiblingOrder(cols[i].id == dragId, cols[i].order, d, h)))
  }

  /** Applies the rule to every task of one column; the dragged one is found by id. */
  function RenumberTasks(tasks: seq<Task>, dragId: Id, d: int, h: int): (r: seq<Task>)
    ensures |r| == |tasks|
    ensures forall i :: 0 <= i < |r| ==> r[i] == tasks[i].(order := r[i].order)
    ensures forall i :: 0 <= i < |r| && tasks[i].id == dragId ==> r[i].order == h
  {
    seq(|tasks|, i requires 0 <= i < |tasks| =>
      tasks[i].(order := SiblingOrder(tasks[i].id == dragId, tasks[i].order, d, h)))
  }

  /**
   * With unique ids, renumbering the columns from the dragged column's own
   * order follows the rule, and changes nothing but orders.
   */
  lemma RenumberColumnsFollowsRule(cols: seq<Column>, dragId: Id, k: int, h: int)
    requires UniqueColumnIds(cols) && 0 <= k < |cols| && cols[k].id == dragId
    ensures var r := RenumberColumns(cols, dragId, cols[k].order, h);
      && FollowsRenumberRule(ColumnOrders(cols), ColumnOrders(r), k, h)
      && forall i :: 0 <= i < |cols| ==> r[i] == cols[i].(order := r[i].order)
  {
  }

  /**
   * With unique ids, renumbering the tasks from the dragged task's own
   * order follows the rule, and changes nothing but orders.
   */
  lemma RenumberTasksFollowsRule(tasks: seq<Task>, dragId: Id, k: int, h: int)
    requires UniqueTaskIds(tasks) && 0 <= k < |tasks| && tasks[k].id == dragId
    ensures var r := RenumberTasks(tasks, dragId, tasks[k].order, h);
      && FollowsRenumberRule(TaskOrders(tasks), TaskOrders(r), k, h)
      && forall i :: 0 <= i < |tasks| ==> r[i] == tasks[i].(order := r[i].order)
  {
  }
}
