/**
 * The statements the SQLite repository runs against the `tasks` and
 * `archive` tables, as functions from the rows before to the rows after.
 */
module TaskTable {
  import opened Common
  import opened Tasks
  import opened QueueOrder

  // ---------------------------------------------------------------------------
  // update
  // ---------------------------------------------------------------------------

  /**
   * `UPDATE tasks SET status=?, downloaded=?, total=?, resumable=?,
   * capability_checked=?, queue_order=? WHERE id=?`: the url column is not
   * written, and an unknown id matches no row.
   */
  function UpdateRows(rows: Rows, t: DownloadTask): (r: Rows)
    ensures |r| == |rows| && Ids(r) == Ids(rows)
    ensures forall i | 0 <= i < |rows| :: r[i].url == rows[i].url
    ensures forall i | 0 <= i < |rows| && rows[i].id != t.id :: r[i] == rows[i]
  {
    seq(|rows|, i requires 0 <= i < |rows| =>
      if rows[i].id == t.id then t.(url := rows[i].url) else rows[i])
  }

  /** `get` after `update` returns the written fields with the stored url; other ids read as before. */
  lemma GetAfterUpdate(rows: Rows, t: DownloadTask, id: TaskId)
    requires UniqueIds(rows)
    ensures FindTask(UpdateRows(rows, t), id) ==
      if id != t.id then FindTask(rows, id)
      else if HasId(rows, id) then Some(t.(url := FindTask(rows, id).value.url))
      else None
  {
    var r := UpdateRows(rows, t);
    assert IndexOfId(r, id) == IndexOfId(rows, id) by {
      var k := IndexOfId(rows, id);
      assert forall j | 0 <= j < |rows| :: r[j].id == rows[j].id;
      IdIndexAgrees(rows, r, id);
    }
  }

  /** Writing back a row exactly as it was read changes nothing. */
  lemma UpdateStored(rows: Rows, t: DownloadTask)
    requires UniqueIds(rows) && t in rows
    ensures UpdateRows(rows, t) == rows
  {
    var r := UpdateRows(rows, t);
    forall i | 0 <= i < |rows| ensures r[i] == rows[i] {
      if rows[i].id == t.id {
        var k :| 0 <= k < |rows| && rows[k] == t;
        assert rows[k].id == rows[i].id;
      }
    }
  }

  /** Of two updates of the same task only the second one shows. */
  lemma UpdateTwice(rows: Rows, a: DownloadTask, b: DownloadTask)
    requires a.id == b.id
    ensures UpdateRows(UpdateRows(rows, a), b) == UpdateRows(rows, b)
  {
    var r1 := UpdateRows(rows, a);
    var r2 := UpdateRows(r1, b);
    forall i | 0 <= i < |rows| ensures r2[i] == UpdateRows(rows, b)[i] {
      assert r1[i].id == rows[i].id;
    }
  }

  lemma IdIndexAgrees(a: Rows, b: Rows, id: TaskId)
    requires Ids(a) == Ids(b)
    ensures IndexOfId(a, id) == IndexOfId(b, id)
  {
    assert |a| == |Ids(a)| == |Ids(b)| == |b|;
    assert forall j | 0 <= j < |a| :: a[j].id == Ids(a)[j] == Ids(b)[j] == b[j].id;
  }

  /** `UPDATE tasks SET queue_order=? WHERE id=?`. */
  function SetOrder(rows: Rows, id: TaskId, o: int): (r: Rows)
    ensures |r| == |rows| && Ids(r) == Ids(rows)
    ensures forall i | 0 <= i < |rows| :: r[i] == rows[i].(queueOrder := r[i].queueOrder)
  {
    seq(|rows|, i requires 0 <= i < |rows| =>
      if rows[i].id == id then rows[i].(queueOrder := o) else rows[i])
  }

  // ---------------------------------------------------------------------------
  // get_by_queue_order and swap_queue_orders
  // ---------------------------------------------------------------------------

  /** The row `SELECT * FROM tasks WHERE queue_order=?` fetches first: the earliest inserted. */
  function IndexOfOrder(rows: Rows, o: int): (r: Option<nat>)
    ensures r.Some? ==> r.value < |rows| && rows[r.value].queueOrder == o
    ensures r.Some? ==> forall j | 0 <= j < r.value :: rows[j].queueOrder != o
    ensures r.None? <==> forall j | 0 <= j < |rows| :: rows[j].queueOrder != o
    decreases |rows|
  {
    if rows == [] then None
    else if rows[0].queueOrder == o then Some(0)
    else match IndexOfOrder(rows[1..], o)
      case None => None
      case Some(k) => Some(k + 1)
  }

  /** `get_by_queue_order`. */
  function TaskAtOrder(rows: Rows, o: int): (r: Option<DownloadTask>)
    ensures r.Some? ==> r.value in rows && r.value.queueOrder == o
    ensures r.None? <==> forall j | 0 <= j < |rows| :: rows[j].queueOrder != o
  {
    match IndexOfOrder(rows, o)
    case None => None
    case Some(k) => Some(rows[k])
  }

  lemma IndexOfDistinctOrder(rows: Rows, k: nat)
    requires DistinctOrders(rows) && k < |rows|
    ensures IndexOfOrder(rows, rows[k].queueOrder) == Some(k)
  {
    var r := IndexOfOrder(rows, rows[k].queueOrder);
    if r.value < k {
    } else if r.value > k {
    }
  }

  /**
   * `swap_queue_orders(o1, o2)`: the rows first found at the two positions are
   * written back with the positions exchanged, the first before the second.
   * A position that no row holds is a ValueError.
   */
  function SwapOrders(rows: Rows, o1: int, o2: int): (r: Result<Rows>)
    ensures r.Err? <==> TaskAtOrder(rows, o1).None? || TaskAtOrder(rows, o2).None?
    ensures r.Err? ==> r.error == NotFound
  {
    match (TaskAtOrder(rows, o1), TaskAtOrder(rows, o2))
    case (Some(t1), Some(t2)) =>
      Ok(UpdateRows(UpdateRows(rows, t1.(queueOrder := o2)), t2.(queueOrder := o1)))
    case _ => Err(NotFound)
  }

  /**
   * On a table with unique ids, a successful swap exchanges exactly the two
   * positions and touches no other row.
   */
  lemma SwapExchanges(rows: Rows, o1: int, o2: int, a: nat, b: nat)
    requires UniqueIds(rows) && SwapOrders(rows, o1, o2).Ok?
    requires IndexOfOrder(rows, o1) == Some(a) && IndexOfOrder(rows, o2) == Some(b)
    ensures var r := SwapOrders(rows, o1, o2).value;
      && |r| == |rows| && Ids(r) == Ids(rows)
      && r[a] == rows[a].(queueOrder := o2)
      && r[b] == rows[b].(queueOrder := o1)
      && forall i | 0 <= i < |rows| && i != a && i != b :: r[i] == rows[i]
  {
    var r1 := UpdateRows(rows, rows[a].(queueOrder := o2));
    assert r1[a] == rows[a].(queueOrder := o2);
    assert forall i | 0 <= i < |rows| && i != a :: r1[i] == rows[i];
  }

  lemma Extensional(x: Rows, y: Rows)
    requires |x| == |y| && forall i | 0 <= i < |x| :: x[i] == y[i]
    ensures x == y
  {
  }

  /** Swapping back restores the table when the positions are distinct. */
  lemma SwapInverse(rows: Rows, o1: int, o2: int)
    requires UniqueIds(rows) && DistinctOrders(rows)
    requires SwapOrders(rows, o1, o2).Ok?
    ensures SwapOrders(SwapOrders(rows, o1, o2).value, o2, o1) == Ok(rows)
  {
    var a := IndexOfOrder(rows, o1).value;
    var b := IndexOfOrder(rows, o2).value;
    var r := SwapOrders(rows, o1, o2).value;
    SwapExchanges(rows, o1, o2, a, b);
    SwapKeepsDistinct(rows, o1, o2, a, b);
    assert UniqueIds(r) by {
      assert forall i | 0 <= i < |r| :: r[i].id == Ids(r)[i] == Ids(rows)[i] == rows[i].id;
    }
    IndexOfDistinctOrder(r, a);
    IndexOfDistinctOrder(r, b);
    assert SwapOrders(r, o2, o1).Ok?;
    SwapExchanges(r, o2, o1, a, b);
    Extensional(SwapOrders(r, o2, o1).value, rows);
  }

  lemma SwapKeepsDistinct(rows: Rows, o1: int, o2: int, a: nat, b: nat)
    requires UniqueIds(rows) && DistinctOrders(rows) && SwapOrders(rows, o1, o2).Ok?
    requires IndexOfOrder(rows, o1) == Some(a) && IndexOfOrder(rows, o2) == Some(b)
    ensures DistinctOrders(SwapOrders(rows, o1, o2).value)
  {
    SwapExchanges(rows, o1, o2, a, b);
  }

  /** A swap keeps a dense queue dense: it permutes the positions 1..n. */
  lemma SwapKeepsDense(rows: Rows, o1: int, o2: int)
    requires UniqueIds(rows) && Dense(rows) && SwapOrders(rows, o1, o2).Ok?
    ensures Dense(SwapOrders(rows, o1, o2).value)
    ensures UniqueIds(SwapOrders(rows, o1, o2).value)
  {
    var a := IndexOfOrder(rows, o1).value;
    var b := IndexOfOrder(rows, o2).value;
    SwapExchanges(rows, o1, o2, a, b);
    SwapKeepsDistinct(rows, o1, o2, a, b);
  }

  /** Swapping a position with itself changes nothing. */
  lemma SwapSame(rows: Rows, o: int)
    requires UniqueIds(rows) && SwapOrders(rows, o, o).Ok?
    ensures SwapOrders(rows, o, o) == Ok(rows)
  {
    var a := IndexOfOrder(rows, o).value;
    SwapExchanges(rows, o, o, a, a);
    Extensional(SwapOrders(rows, o, o).value, rows);
  }

  // ---------------------------------------------------------------------------
  // delete and _fix_queue_order
  // ---------------------------------------------------------------------------

  /** `DELETE FROM tasks WHERE id=?`. */
  function WithoutId(rows: Rows, id: TaskId): (r: Rows)
    ensures forall x :: x in r <==> x in rows && x.id != id
  {
    Filter(rows, (t: DownloadTask) => t.id != id)
  }

  lemma WithoutIdAbsent(rows: Rows, id: TaskId)
    ensures !HasId(WithoutId(rows, id), id)
  {
  }

  /** Deleting an id no row has leaves the rows as they are. */
  lemma {:induction false} WithoutUnknownId(rows: Rows, id: TaskId)
    requires !HasId(rows, id)
    ensures WithoutId(rows, id) == rows
    decreases |rows|
  {
    if rows != [] {
      WithoutUnknownId(rows[1..], id);
      assert WithoutId(rows[1..], id) == rows[1..];
      assert rows == [rows[0]] + rows[1..];
    }
  }

  /** With unique ids, deleting the id of row k removes exactly that row. */
  lemma {:induction false} WithoutPresentId(rows: Rows, k: nat)
    requires UniqueIds(rows) && k < |rows|
    ensures WithoutId(rows, rows[k].id) == rows[..k] + rows[k + 1..]
    decreases k
  {
    var id := rows[k].id;
    var tail := rows[1..];
    UniqueTail(rows);
    if k == 0 {
      WithoutUnknownId(tail, id);
    } else {
      assert tail[k - 1] == rows[k];
      WithoutPresentId(tail, k - 1);
      assert rows[..k] + rows[k + 1..] == [rows[0]] + (tail[..k - 1] + tail[k..]);
    }
  }

  lemma UniqueTail(rows: Rows)
    requires UniqueIds(rows) && rows != []
    ensures UniqueIds(rows[1..]) && !HasId(rows[1..], rows[0].id)
    ensures forall j | 1 <= j < |rows| :: rows[j].id != rows[0].id
  {
  }

  /** The rows whose position is still the placeholder 0. */
  function ZeroRows(rows: Rows): (r: Rows)
    ensures forall x :: x in r <==> x in rows && x.queueOrder == 0
  {
    Filter(rows, (t: DownloadTask) => t.queueOrder == 0)
  }

  /** `SELECT MAX(queue_order) FROM tasks WHERE queue_order > 0`, with NULL read as 0. */
  function MaxPositiveOrder(rows: Rows): (m: int)
    ensures m >= 0
    ensures forall i | 0 <= i < |rows| && rows[i].queueOrder > 0 :: rows[i].queueOrder <= m
    ensures m > 0 ==> exists i | 0 <= i < |rows| :: rows[i].queueOrder == m
    decreases |rows|
  {
    if rows == [] then 0
    else
      var rest := MaxPositiveOrder(rows[1..]);
      assert forall i | 1 <= i < |rows| :: rows[i] == rows[1..][i - 1];
      if rows[0].queueOrder > rest then rows[0].queueOrder else rest
  }

  /** The placeholder rows in `ORDER BY id` order. */
  function ZeroRowsById(rows: Rows): (z: Rows)
    ensures |z| == |ZeroRows(rows)|
  {
    SortBy(ZeroRows(rows), IdKey)
  }

  /** The index of an id among the placeholder rows in id order. */
  function ZeroRank(rows: Rows, id: TaskId): nat {
    IndexOfId(ZeroRowsById(rows), id)
  }

  /**
   * `_fix_queue_order`: rows at position 0 are given max+1, max+2, ... in id
   * order, where max is the largest positive position (0 if none); other rows
   * are not touched.
   */
  function FixZeroOrders(rows: Rows): (r: Rows)
    ensures |r| == |rows| && Ids(r) == Ids(rows)
    ensures forall i | 0 <= i < |rows| :: r[i] == rows[i].(queueOrder := r[i].queueOrder)
    ensures forall i | 0 <= i < |rows| && rows[i].queueOrder != 0 :: r[i] == rows[i]
    ensures forall i | 0 <= i < |rows| :: r[i].queueOrder != 0
  {
    var base := MaxPositiveOrder(rows);
    seq(|rows|, i requires 0 <= i < |rows| =>
      if rows[i].queueOrder == 0 then rows[i].(queueOrder := base + 1 + ZeroRank(rows, rows[i].id))
      else rows[i])
  }

  lemma ZeroRowListed(rows: Rows, i: nat)
    requires i < |rows| && rows[i].queueOrder == 0
    ensures ZeroRank(rows, rows[i].id) < |ZeroRows(rows)|
  {
    var z := ZeroRowsById(rows);
    SortByPermutes(ZeroRows(rows), IdKey);
    SameElements(z, ZeroRows(rows));
    assert rows[i] in z;
    var k :| 0 <= k < |z| && z[k] == rows[i];
  }

  lemma ZeroRankIncreasing(rows: Rows, i: nat, j: nat)
    requires i < |rows| && j < |rows|
    requires rows[i].queueOrder == 0 && rows[j].queueOrder == 0
    requires rows[i].id < rows[j].id
    ensures ZeroRank(rows, rows[i].id) < ZeroRank(rows, rows[j].id)
  {
    var z := ZeroRowsById(rows);
    SortBySorted(ZeroRows(rows), IdKey);
    ZeroRowListed(rows, i);
    ZeroRowListed(rows, j);
    var ki, kj := ZeroRank(rows, rows[i].id), ZeroRank(rows, rows[j].id);
    assert z[ki].id == rows[i].id && z[kj].id == rows[j].id;
  }

  /**
   * The renumbered placeholder rows take exactly the positions after the
   * previous maximum, increasing with the id.
   */
  lemma FixZeroNumbering(rows: Rows, i: nat, j: nat)
    requires i < |rows| && j < |rows|
    requires rows[i].queueOrder == 0 && rows[j].queueOrder == 0
    ensures var base := MaxPositiveOrder(rows);
      base < FixZeroOrders(rows)[i].queueOrder <= base + |ZeroRows(rows)|
    ensures rows[i].id < rows[j].id ==> FixZeroOrders(rows)[i].queueOrder < FixZeroOrders(rows)[j].queueOrder
  {
    ZeroRowListed(rows, i);
    if rows[i].id < rows[j].id {
      ZeroRankIncreasing(rows, i, j);
    }
  }

  /** Without negative positions, every row has a positive position afterwards. */
  lemma FixZeroPositive(rows: Rows)
    requires forall i | 0 <= i < |rows| :: rows[i].queueOrder >= 0
    ensures forall i | 0 <= i < |rows| :: FixZeroOrders(rows)[i].queueOrder > 0
  {
    forall i | 0 <= i < |rows| ensures FixZeroOrders(rows)[i].queueOrder > 0 {
      if rows[i].queueOrder == 0 {
        ZeroRowListed(rows, i);
      }
    }
  }

  /** With no placeholder rows the fix changes nothing. */
  lemma FixZeroWithoutZeros(rows: Rows)
    requires forall i | 0 <= i < |rows| :: rows[i].queueOrder != 0
    ensures FixZeroOrders(rows) == rows
  {
    Extensional(FixZeroOrders(rows), rows);
  }

  /** `delete(id)`: the row goes, then the placeholder positions are fixed. */
  function DeleteRows(rows: Rows, id: TaskId): (r: Rows)
    ensures forall i | 0 <= i < |r| :: r[i].id != id
  {
    var w := WithoutId(rows, id);
    WithoutIdAbsent(rows, id);
    var r := FixZeroOrders(w);
    assert forall i | 0 <= i < |r| :: r[i].id == Ids(r)[i] == Ids(w)[i] == w[i].id;
    r
  }

  // ---------------------------------------------------------------------------
  // add
  // ---------------------------------------------------------------------------

  /** `SELECT MAX(queue_order) FROM tasks` on a non-empty table. */
  function MaxOrder(rows: Rows): (m: int)
    requires rows != []
    ensures forall i | 0 <= i < |rows| :: rows[i].queueOrder <= m
    ensures exists i | 0 <= i < |rows| :: rows[i].queueOrder == m
    decreases |rows|
  {
    if |rows| == 1 then rows[0].queueOrder
    else
      var rest := MaxOrder(rows[1..]);
      assert forall i | 1 <= i < |rows| :: rows[i] == rows[1..][i - 1];
      if rows[0].queueOrder > rest then rows[0].queueOrder else rest
  }

  /** `(max_order or 0) + 1`. */
  function NextOrder(rows: Rows): int {
    if rows == [] then 1 else MaxOrder(rows) + 1
  }

  /** The record `add` inserts: a placeholder position 0 is replaced by the next one. */
  function Placed(rows: Rows, t: DownloadTask): (p: DownloadTask)
    ensures p == t.(queueOrder := p.queueOrder)
    ensures t.queueOrder != 0 ==> p.queueOrder == t.queueOrder
    ensures t.queueOrder == 0 ==> forall i | 0 <= i < |rows| :: rows[i].queueOrder < p.queueOrder
  {
    if t.queueOrder == 0 then t.(queueOrder := NextOrder(rows)) else t
  }

  /** `add`: `INSERT INTO tasks`, which fails on an id already present. */
  function AddRows(rows: Rows, t: DownloadTask): (r: Result<Rows>)
    ensures r.Err? <==> HasId(rows, t.id)
    ensures r.Err? ==> r.error == IntegrityError
    ensures r.Ok? ==> r.value == rows + [Placed(rows, t)]
  {
    if HasId(rows, t.id) then Err(IntegrityError) else Ok(rows + [Placed(rows, t)])
  }

  lemma AddKeepsUniqueIds(rows: Rows, t: DownloadTask)
    requires UniqueIds(rows) && AddRows(rows, t).Ok?
    ensures UniqueIds(AddRows(rows, t).value)
  {
  }

  /** In a dense queue the largest position is the number of tasks. */
  lemma DenseMax(rows: Rows)
    requires Dense(rows) && rows != []
    ensures MaxOrder(rows) == |rows|
  {
    DensePositionHeld(rows, |rows|);
  }

  /**
   * Adding a task with the placeholder position to a dense queue appends it at
   * position n + 1: the queue stays dense and lists the new task last.
   */
  lemma AddAtEnd(rows: Rows, t: DownloadTask)
    requires Dense(rows) && UniqueIds(rows) && t.queueOrder == 0 && !HasId(rows, t.id)
    ensures Placed(rows, t).queueOrder == |rows| + 1
    ensures Dense(AddRows(rows, t).value)
    ensures QueueList(AddRows(rows, t).value) == QueueList(rows) + [Placed(rows, t)]
  {
    if rows != [] {
      DenseMax(rows);
    }
    var p := Placed(rows, t);
    var r := rows + [p];
    assert Dense(r);
    var m := QueueList(rows) + [p];
    DenseListed(rows);
    ListedSameElements(rows);
    forall x ensures x in m <==> x in r {
    }
    DenseCharacterized(r, m);
  }

  // ---------------------------------------------------------------------------
  // archive
  // ---------------------------------------------------------------------------

  /**
   * `archive_task`: the row is copied into `archive` and deleted from `tasks`.
   * An unknown id is a ValueError; an id already in `archive` fails on its
   * primary key before anything is deleted.
   */
  function ArchiveRows(tasks: Rows, archive: Rows, id: TaskId): (r: Result<(Rows, Rows)>)
    ensures r.Err? <==> !HasId(tasks, id) || HasId(archive, id)
    ensures r.Err? && !HasId(tasks, id) ==> r.error == NotFound
  {
    match FindTask(tasks, id)
    case None => Err(NotFound)
    case Some(t) =>
      if HasId(archive, id) then Err(IntegrityError)
      else Ok((WithoutId(tasks, id), archive + [t]))
  }

  /**
   * A successful archive moves the row: it leaves `tasks`, appears in
   * `archive` with the same fields, and the other tasks stay as they were.
   */
  lemma ArchiveMoves(tasks: Rows, archive: Rows, id: TaskId)
    requires ArchiveRows(tasks, archive, id).Ok?
    ensures var (t2, a2) := ArchiveRows(tasks, archive, id).value;
      && !HasId(t2, id)
      && FindTask(a2, id) == FindTask(tasks, id)
      && (forall x :: x in t2 <==> x in tasks && x.id != id)
  {
    var t := FindTask(tasks, id).value;
    var a2 := archive + [t];
    WithoutIdAbsent(tasks, id);
    assert IndexOfId(a2, id) == |archive| by {
      assert a2[|archive|].id == id;
      assert forall j | 0 <= j < |archive| :: a2[j] == archive[j];
    }
  }

  /**
   * Archiving does not renumber: removing the task at position 1 of the queue
   * [1, 2] leaves the single task at position 2.
   */
  lemma ArchiveLeavesGap()
    ensures var a := DownloadTask(1, "a", Completed, 0, None, true, false, 1);
      var b := DownloadTask(2, "b", Pending, 0, None, true, false, 2);
      && Dense([a, b])
      && ArchiveRows([a, b], [], 1) == Ok(([b], [a]))
      && !Dense([b])
  {
    var a := DownloadTask(1, "a", Completed, 0, None, true, false, 1);
    var b := DownloadTask(2, "b", Pending, 0, None, true, false, 2);
    assert FindTask([a, b], 1) == Some(a) by {
      assert IndexOfId([a, b], 1) == 0;
    }
    WithoutUnknownId([b], 1);
    assert WithoutId([a, b], 1) == WithoutId([b], 1) by {
      assert [a, b][1..] == [b];
    }
    assert !HasId([], 1);
    assert WithoutId([a, b], 1) == [b];
    assert FindTask([a, b], 1) == Some(a);
    assert [] + [a] == [a];
    assert ArchiveRows([a, b], [], 1) == Ok(([b], [a]));
    assert Dense([a, b]);
    assert !Dense([b]);
  }

  /** `list_archive`: `ORDER BY archived_at DESC`, the latest archived first. */
  function Reverse(s: Rows): (r: Rows)
    ensures |r| == |s|
    ensures forall i | 0 <= i < |s| :: r[i] == s[|s| - 1 - i]
    decreases |s|
  {
    if s == [] then [] else Reverse(s[1..]) + [s[0]]
  }
}
