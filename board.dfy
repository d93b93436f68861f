/**
 * The board snapshot the Columns component holds: columns, each with its
 * tasks. A position is the `order` field, never the index in the sequence:
 * the arrays are not re-sorted, and rendering places each item by its order.
 */
module Board {

  datatype Option<T> = None | Some(value: T)

  /** Server-assigned opaque identifier of a column or a task. */
  type Id = string

  datatype Task = Task(id: Id, title: string, description: string, userId: string, order: int)

  datatype Column = Column(id: Id, title: string, order: int, tasks: seq<Task>)

  /** The `order` fields of the columns, index by index. */
  function ColumnOrders(cols: seq<Column>): seq<int> {
    seq(|cols|, i requires 0 <= i < |cols| => cols[i].order)
  }

  /** The `order` fields of the tasks, index by index. */
  function TaskOrders(tasks: seq<Task>): seq<int> {
    seq(|tasks|, i requires 0 <= i < |tasks| => tasks[i].order)
  }

  /**
   * The orders are exactly the positions 0..N-1, each used once: all in
   * range and pairwise distinct.
   */
  predicate IsPositions(os: seq<int>) {
    && (forall i :: 0 <= i < |os| ==> 0 <= os[i] < |os|)
    && (forall i, j :: 0 <= i < |os| && 0 <= j < |os| && i != j ==> os[i] != os[j])
  }

  predicate HasColumn(cols: seq<Column>, id: Id) {
    exists i :: 0 <= i < |cols| && cols[i].id == id
  }

  predicate HasTask(tasks: seq<Task>, id: Id) {
    exists j :: 0 <= j < |tasks| && tasks[j].id == id
  }

  predicate BoardHasTask(cols: seq<Column>, id: Id) {
    exists i :: 0 <= i < |cols| && HasTask(cols[i].tasks, id)
  }

  predicate UniqueColumnIds(cols: seq<Column>) {
    forall i, j :: 0 <= i < |cols| && 0 <= j < |cols| && i != j ==> cols[i].id != cols[j].id
  }

  predicate UniqueTaskIds(tasks: seq<Task>) {
    forall a, b :: 0 <= a < |tasks| && 0 <= b < |tasks| && a != b ==> tasks[a].id != tasks[b].id
  }

  /** No task id occurs twice anywhere on the board. */
  predicate UniqueBoardTaskIds(cols: seq<Column>) {
    forall i, j, a, b ::
      (0 <= i < |cols| && 0 <= j < |cols| && 0 <= a < |cols[i].tasks| && 0 <= b < |cols[j].tasks| &&
       (i != j || a != b)) ==> cols[i].tasks[a].id != cols[j].tasks[b].id
  }

  /**
   * A stable snapshot: ids are unique, the column orders are the positions
   * 0..N-1 and, in every column, the task orders are the positions 0..M-1.
   */
  predicate WellFormed(cols: seq<Column>) {
    && UniqueColumnIds(cols)
    && UniqueBoardTaskIds(cols)
    && IsPositions(ColumnOrders(cols))
    && (forall i :: 0 <= i < |cols| ==> IsPositions(TaskOrders(cols[i].tasks)))
  }

  function Sum(s: seq<int>): int
    decreases |s|
  {
    if s == [] then 0 else s[0] + Sum(s[1..])
  }

  /** Number of tasks in each column. */
  function TaskCounts(cols: seq<Column>): seq<int> {
    seq(|cols|, i requires 0 <= i < |cols| => |cols[i].tasks|)
  }

  /** Number of tasks on the whole board. */
  function TotalTasks(cols: seq<Column>): int {
    Sum(TaskCounts(cols))
  }

  /** Replacing one entry changes the sum by exactly the difference. */
  lemma {:induction false} SumUpdate(s: seq<int>, i: nat, v: int)
    requires i < |s|
    ensures Sum(s[i := v]) == Sum(s) - s[i] + v
    decreases |s|
  {
    if i > 0 {
      SumUpdate(s[1..], i - 1, v);
      assert s[i := v][1..] == s[1..][i - 1 := v];
    }
  }

  /** Distinct values: as many of them as entries. */
  lemma {:induction false} DistinctCount(os: seq<int>)
    requires forall i, j :: 0 <= i < |os| && 0 <= j < |os| && i != j ==> os[i] != os[j]
    ensures |set x | x in os| == |os|
    decreases |os|
  {
    if os != [] {
      var init := os[..|os| - 1];
      var last := os[|os| - 1];
      assert forall i :: 0 <= i < |init| ==> init[i] == os[i];
      DistinctCount(init);
      assert (set x | x in os) == (set x | x in init) + {last} by {
        assert os == init + [last];
      }
      assert last !in (set x | x in init);
    }
  }

  /** The positions {0, ..., n-1}. */
  function Range(n: nat): (r: set<int>)
    ensures forall p :: p in r <==> 0 <= p < n
    ensures |r| == n
  {
    if n == 0 then {} else Range(n - 1) + {n - 1}
  }

  /**
   * IsPositions is the contiguity invariant as a set: the orders are
   * exactly {0, ..., N-1}, no gaps and no duplicates.
   */
  lemma PositionsFillRange(os: seq<int>)
    requires IsPositions(os)
    ensures (set x | x in os) == Range(|os|)
  {
    var used := set x | x in os;
    var range := Range(|os|);
    DistinctCount(os);
    assert used <= range;
    assert |range - used| == |range| - |used|;
  }
}
