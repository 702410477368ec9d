/**
 * `QueueIdTranslator` and `ListTasksService`: the queue ids users type are
 * the tasks' stored positions, and listings follow the queue order.
 */
module QueueIds {
  import opened Common
  import opened Tasks
  import opened QueueOrder
  import opened TaskTable
  import opened Repository

  // ---------------------------------------------------------------------------
  // Listings
  // ---------------------------------------------------------------------------

  /**
   * `ListTasksService.execute`: the queue listing, narrowed to one status when
   * one is given. `get_all_tasks_with_queue_ids` starts from the same list.
   */
  function Listed(rows: Rows, status: Option<TaskStatus>): (r: Rows)
    ensures forall x :: x in r <==> x in rows && (status.Some? ==> x.status == status.value)
  {
    ListedSameElements(rows);
    match status
    case None => QueueList(rows)
    case Some(s) => Filter(QueueList(rows), StatusIs(s))
  }

  /** `a` is `b` with some entries left out and the others in their order. */
  predicate IsSubsequence(a: Rows, b: Rows)
    decreases |b|
  {
    if a == [] then true
    else if b == [] then false
    else (a[0] == b[0] && IsSubsequence(a[1..], b[1..])) || IsSubsequence(a, b[1..])
  }

  lemma {:induction false} FilterSubsequence(rows: Rows, keep: DownloadTask -> bool)
    ensures IsSubsequence(Filter(rows, keep), rows)
    decreases |rows|
  {
    if rows != [] {
      var tail := Filter(rows[1..], keep);
      FilterSubsequence(rows[1..], keep);
      if keep(rows[0]) {
        assert Filter(rows, keep) == [rows[0]] + tail;
      } else {
        assert Filter(rows, keep) == tail;
      }
    }
  }

  lemma {:induction false} FilterKeepsSorted(rows: Rows, keep: DownloadTask -> bool)
    requires SortedBy(rows, Order)
    ensures SortedBy(Filter(rows, keep), Order)
    decreases |rows|
  {
    if rows != [] {
      FilterKeepsSorted(rows[1..], keep);
      var tail := Filter(rows[1..], keep);
      forall x | x in tail ensures rows[0].queueOrder <= x.queueOrder {
        assert x in rows[1..];
      }
    }
  }

  /** Every listing is in ascending queue order. */
  lemma ListedSorted(rows: Rows, status: Option<TaskStatus>)
    ensures SortedBy(Listed(rows, status), Order)
  {
    SortBySorted(rows, Order);
    if status.Some? {
      FilterKeepsSorted(QueueList(rows), StatusIs(status.value));
    }
  }

  /** The listing for one status keeps the tasks of the full listing in their order. */
  lemma ListedStatusSubsequence(rows: Rows, s: TaskStatus)
    ensures IsSubsequence(Listed(rows, Some(s)), Listed(rows, None))
  {
    FilterSubsequence(QueueList(rows), StatusIs(s));
  }

  /**
   * With distinct positions, the status listing is the `WHERE status=?`
   * selection of `list` put in queue order.
   */
  lemma ListedIsOrderedSelection(rows: Rows, s: TaskStatus)
    requires DistinctOrders(rows)
    ensures Listed(rows, Some(s)) == QueueList(Filter(rows, StatusIs(s)))
  {
    ListedFilter(rows, StatusIs(s));
  }

  /**
   * `execute_with_queue_ids`: each task of the listing paired with its own
   * position, in the listing's order, so the queue ids ascend.
   */
  method ExecuteWithQueueIds(repo: TaskStore, status: Option<TaskStatus>)
    returns (r: seq<(int, DownloadTask)>)
    ensures |r| == |Listed(repo.tasks, status)|
    ensures forall i | 0 <= i < |r| ::
      r[i].1 == Listed(repo.tasks, status)[i] && r[i].0 == r[i].1.queueOrder
    ensures forall i, j | 0 <= i < j < |r| :: r[i].0 <= r[j].0
  {
    var tasks := Listed(repo.tasks, status);
    ListedSorted(repo.tasks, status);
    r := [];
    for i := 0 to |tasks|
      invariant |r| == i
      invariant forall k | 0 <= k < i :: r[k] == (tasks[k].queueOrder, tasks[k])
    {
      r := r + [(tasks[i].queueOrder, tasks[i])];
    }
  }

  // ---------------------------------------------------------------------------
  // Queue id translation
  // ---------------------------------------------------------------------------

  /**
   * The dictionary the loop of `get_all_tasks_with_queue_ids` builds from a
   * listing: each task with a positive position is entered under it, a later
   * task overwriting an earlier one at the same position.
   */
  function QueueIdMap(listed: Rows): map<int, TaskId>
    decreases |listed|
  {
    if listed == [] then map[]
    else
      var m := QueueIdMap(listed[..|listed| - 1]);
      var t := listed[|listed| - 1];
      if t.queueOrder > 0 then m[t.queueOrder := t.id] else m
  }

  /**
   * A queue id is a key exactly when it is positive and some listed task holds
   * it, and it maps to the id of the last task listed there.
   */
  lemma {:induction false} QueueIdMapAt(listed: Rows, q: int)
    ensures q in QueueIdMap(listed) <==>
      q > 0 && exists i | 0 <= i < |listed| :: listed[i].queueOrder == q
    ensures q in QueueIdMap(listed) ==> exists i | 0 <= i < |listed| ::
      && listed[i].queueOrder == q && listed[i].id == QueueIdMap(listed)[q]
      && forall j | i < j < |listed| :: listed[j].queueOrder != q
    decreases |listed|
  {
    if listed != [] {
      var n := |listed| - 1;
      var front := listed[..n];
      QueueIdMapAt(front, q);
      assert forall i | 0 <= i < n :: front[i] == listed[i];
    }
  }

  /** With distinct positions, every positively placed task is found under its own position. */
  lemma QueueIdMapDistinct(listed: Rows, k: nat)
    requires DistinctOrders(listed) && k < |listed| && listed[k].queueOrder > 0
    ensures listed[k].queueOrder in QueueIdMap(listed)
    ensures QueueIdMap(listed)[listed[k].queueOrder] == listed[k].id
  {
    QueueIdMapAt(listed, listed[k].queueOrder);
  }

  /**
   * `get_all_tasks_with_queue_ids`: the listing for the status (all tasks when
   * none is given) turned into a position-to-id dictionary.
   */
  method GetAllTasksWithQueueIds(repo: TaskStore, status: Option<TaskStatus>)
    returns (m: map<int, TaskId>)
    ensures m == QueueIdMap(Listed(repo.tasks, status))
  {
    var tasks := Listed(repo.tasks, status);
    m := map[];
    for i := 0 to |tasks|
      invariant m == QueueIdMap(tasks[..i])
    {
      assert tasks[..i + 1][..i] == tasks[..i];
      if tasks[i].queueOrder > 0 {
        m := m[tasks[i].queueOrder := tasks[i].id];
      }
    }
    assert tasks[..|tasks|] == tasks;
  }

  /** `get_uuid_from_queue_id`: the id of the task first found at that position, or None. */
  function UuidFromQueueId(rows: Rows, q: int): (r: Option<TaskId>)
    ensures r.None? <==> forall j | 0 <= j < |rows| :: rows[j].queueOrder != q
    ensures r.Some? ==> exists j | 0 <= j < |rows| :: rows[j].queueOrder == q && rows[j].id == r.value
  {
    match TaskAtOrder(rows, q)
    case None => None
    case Some(t) => Some(t.id)
  }

  /** `get_queue_id_from_uuid`: the stored position of the task with that id, or None. */
  function QueueIdFromUuid(rows: Rows, id: TaskId): (r: Option<int>)
    ensures r.None? <==> !HasId(rows, id)
    ensures r.Some? ==> exists j | 0 <= j < |rows| :: rows[j].id == id && rows[j].queueOrder == r.value
  {
    match FindTask(rows, id)
    case None => None
    case Some(t) => Some(t.queueOrder)
  }

  /**
   * id to queue id to id: a task whose position no other task shares is found
   * again from its position.
   */
  lemma IdRoundTrip(rows: Rows, id: TaskId)
    requires HasId(rows, id)
    requires forall j | 0 <= j < |rows| && rows[j].id != id ::
      rows[j].queueOrder != FindTask(rows, id).value.queueOrder
    ensures UuidFromQueueId(rows, QueueIdFromUuid(rows, id).value) == Some(id)
  {
    var o := FindTask(rows, id).value.queueOrder;
    var j := IndexOfOrder(rows, o).value;
  }

  /** queue id to id to queue id: with unique ids, the task found at a position reports it back. */
  lemma QueueIdRoundTrip(rows: Rows, q: int)
    requires UniqueIds(rows) && UuidFromQueueId(rows, q).Some?
    ensures QueueIdFromUuid(rows, UuidFromQueueId(rows, q).value) == Some(q)
  {
    var j := IndexOfOrder(rows, q).value;
    FindUnique(rows, j);
  }

  /**
   * Over the full listing of a table with distinct positions, the dictionary
   * and the single translation agree on every positive queue id.
   */
  lemma QueueIdMapTranslates(rows: Rows, q: int)
    requires DistinctOrders(rows) && q > 0
    ensures q in QueueIdMap(Listed(rows, None)) <==> UuidFromQueueId(rows, q).Some?
    ensures q in QueueIdMap(Listed(rows, None)) ==>
      QueueIdMap(Listed(rows, None))[q] == UuidFromQueueId(rows, q).value
  {
    var L := Listed(rows, None);
    ListedSameElements(rows);
    QueueIdMapAt(L, q);
    if UuidFromQueueId(rows, q).Some? {
      var j := IndexOfOrder(rows, q).value;
      assert rows[j] in L;
      var k :| 0 <= k < |L| && L[k] == rows[j];
      DistinctOrdersListed(rows);
      QueueIdMapDistinct(L, k);
    }
  }
}
