/**
 * swapColumns: the transition a column drag fires on every hover over
 * another column.
 */
module ColumnSwap {
  import opened Board
  import opened Renumbering
  import opened Lookup

  /**
   * The snapshot swapColumns produces: unchanged unless both ids were
   * found, otherwise the sibling rule over all columns with the orders the
   * scan found.
   */
  function SwapColumns(cols: seq<Column>, dragId: Id, hoverId: Id): (r: seq<Column>)
    ensures |r| == |cols|
    ensures forall i :: 0 <= i < |r| ==> r[i] == cols[i].(order := r[i].order)
  {
    var (d, h) := LocateColumnOrders(cols, dragId, hoverId);
    if d.None? || h.None? then cols
    else RenumberColumns(cols, dragId, d.value, h.value)
  }

  /** A dragged or hovered id that is not on the board changes nothing. */
  lemma SwapColumnsMissingIsNoOp(cols: seq<Column>, dragId: Id, hoverId: Id)
    requires !HasColumn(cols, dragId) || !HasColumn(cols, hoverId)
    ensures SwapColumns(cols, dragId, hoverId) == cols
  {
    ScanColumnOrdersFinds(cols, dragId, hoverId, None, None);
  }

  /**
   * With unique column ids, the dragged column (index k) takes the hovered
   * column's (index m) old order, the others shift by the sibling rule, and
   * nothing but orders changes.
   */
  lemma SwapColumnsEffect(cols: seq<Column>, dragId: Id, hoverId: Id, k: int, m: int)
    requires UniqueColumnIds(cols)
    requires 0 <= k < |cols| && cols[k].id == dragId
    requires 0 <= m < |cols| && cols[m].id == hoverId
    ensures var r := SwapColumns(cols, dragId, hoverId);
      && |r| == |cols|
      && r[k].order == cols[m].order
      && FollowsRenumberRule(ColumnOrders(cols), ColumnOrders(r), k, cols[m].order)
      && forall i :: 0 <= i < |cols| ==> r[i] == cols[i].(order := r[i].order)
  {
    ScanColumnOrdersExact(cols, dragId, hoverId, None, None, k);
    ScanColumnOrdersExact(cols, dragId, hoverId, None, None, m);
    RenumberColumnsFollowsRule(cols, dragId, k, cols[m].order);
  }

  /**
   * From a snapshot whose column orders are 0..N-1 with unique ids, the
   * orders are still 0..N-1 afterwards, the column count is the same, and
   * ids, titles and tasks are untouched.
   */
  lemma SwapColumnsKeepsPositions(cols: seq<Column>, dragId: Id, hoverId: Id)
    requires UniqueColumnIds(cols) && IsPositions(ColumnOrders(cols))
    ensures var r := SwapColumns(cols, dragId, hoverId);
      && |r| == |cols|
      && IsPositions(ColumnOrders(r))
      && forall i :: 0 <= i < |cols| ==> r[i] == cols[i].(order := r[i].order)
  {
    if HasColumn(cols, dragId) && HasColumn(cols, hoverId) {
      var k :| 0 <= k < |cols| && cols[k].id == dragId;
      var m :| 0 <= m < |cols| && cols[m].id == hoverId;
      SwapColumnsEffect(cols, dragId, hoverId, k, m);
      assert ColumnOrders(cols)[m] == cols[m].order;
      RenumberRuleKeepsPositions(ColumnOrders(cols), ColumnOrders(SwapColumns(cols, dragId, hoverId)), k, cols[m].order);
    } else {
      SwapColumnsMissingIsNoOp(cols, dragId, hoverId);
    }
  }

  /**
   * Hovering a column over itself changes nothing: the dragged column gets
   * its own order back and the equal-orders branch moves no sibling.
   */
  lemma SwapColumnsSelfIsNoOp(cols: seq<Column>, x: Id)
    requires UniqueColumnIds(cols)
    ensures SwapColumns(cols, x, x) == cols
  {
    if HasColumn(cols, x) {
      var k :| 0 <= k < |cols| && cols[k].id == x;
      SwapColumnsEffect(cols, x, x, k, k);
      var r := SwapColumns(cols, x, x);
      assert forall i :: 0 <= i < |cols| ==> r[i] == cols[i] by {
        forall i | 0 <= i < |cols| ensures r[i] == cols[i] {
          assert ColumnOrders(r)[i] == ColumnOrders(cols)[i];
        }
      }
    } else {
      SwapColumnsMissingIsNoOp(cols, x, x);
    }
  }

  /** A stable snapshot stays stable. */
  lemma SwapColumnsKeepsWellFormed(cols: seq<Column>, dragId: Id, hoverId: Id)
    requires WellFormed(cols)
    ensures WellFormed(SwapColumns(cols, dragId, hoverId))
  {
    var r := SwapColumns(cols, dragId, hoverId);
    SwapColumnsKeepsPositions(cols, dragId, hoverId);
    assert forall i :: 0 <= i < |r| ==> r[i].id == cols[i].id && r[i].tasks == cols[i].tasks;
  }

  /**
   * Dragging a column over its neighbour and then the neighbour back over it
   * restores the snapshot exactly.
   */
  lemma SwapColumnsAdjacentRoundTrip(cols: seq<Column>, a: Id, b: Id, k: int, m: int)
    requires UniqueColumnIds(cols) && IsPositions(ColumnOrders(cols))
    requires 0 <= k < |cols| && cols[k].id == a
    requires 0 <= m < |cols| && cols[m].id == b
    requires cols[k].order == cols[m].order + 1 || cols[k].order + 1 == cols[m].order
    ensures SwapColumns(SwapColumns(cols, a, b), b, a) == cols
  {
    var os := ColumnOrders(cols);
    var s := SwapColumns(cols, a, b);
    SwapColumnsEffect(cols, a, b, k, m);
    assert os[k] == cols[k].order && os[m] == cols[m].order;
    assert UniqueColumnIds(s) by {
      assert forall i :: 0 <= i < |s| ==> s[i].id == cols[i].id;
    }
    var r := SwapColumns(s, b, a);
    SwapColumnsEffect(s, b, a, m, k);
    forall i | 0 <= i < |cols| ensures r[i] == cols[i] {
      assert ColumnOrders(s)[i] == s[i].order && ColumnOrders(r)[i] == r[i].order;
      if i != k && i != m {
        assert os[i] != os[k] && os[i] != os[m];
      }
    }
  }
}
