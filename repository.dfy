/**
 * `SQLiteTaskRepository`: the `tasks` and `archive` tables, each held as its
 * rows in insertion order. Statements that write are methods; queries are
 * functions of the current rows.
 */
module Repository {
  import opened Common
  import opened Tasks
  import opened QueueOrder
  import opened TaskTable

  /** `WHERE status=?`. */
  function StatusIs(s: TaskStatus): DownloadTask -> bool {
    (t: DownloadTask) => t.status == s
  }

  class TaskStore {
    var tasks: Rows
    var archive: Rows

    /** `id` is the primary key of both tables. */
    ghost predicate Valid()
      reads this
    {
      UniqueIds(tasks) && UniqueIds(archive)
    }

    constructor ()
      ensures Valid() && tasks == [] && archive == []
    {
      tasks := [];
      archive := [];
    }

    /**
     * `add`: a task at the placeholder position 0 is placed after the current
     * maximum; the row is inserted unless its id is taken.
     */
    method Add(task: DownloadTask) returns (r: Result<DownloadTask>)
      requires Valid()
      modifies this
      ensures Valid() && archive == old(archive)
      ensures AddRows(old(tasks), task).Ok? ==>
        tasks == AddRows(old(tasks), task).value && r == Ok(Placed(old(tasks), task))
      ensures AddRows(old(tasks), task).Err? ==>
        tasks == old(tasks) && r == Err(AddRows(old(tasks), task).error)
    {
      var placed := task;
      if task.queueOrder == 0 {
        var maxOrder := if tasks == [] then 0 else MaxOrder(tasks);
        placed := task.(queueOrder := maxOrder + 1);
      }
      if FindTask(tasks, task.id).Some? {
        return Err(IntegrityError);
      }
      tasks := tasks + [placed];
      r := Ok(placed);
    }

    /** `update`: every mutable column of the row with the task's id. */
    method Update(task: DownloadTask)
      requires Valid()
      modifies this
      ensures Valid() && archive == old(archive)
      ensures tasks == UpdateRows(old(tasks), task)
    {
      tasks := UpdateRows(tasks, task);
      assert forall i | 0 <= i < |tasks| :: tasks[i].id == Ids(tasks)[i] == Ids(old(tasks))[i];
    }

    /** `get`: the task with this id, or None. */
    function Get(id: TaskId): (r: Option<DownloadTask>)
      reads this
      ensures r.Some? <==> HasId(tasks, id)
      ensures r.Some? ==> r.value in tasks && r.value.id == id
    {
      FindTask(tasks, id)
    }

    /** `list`: every task, or those with the given status, in the order the table is scanned. */
    function List(status: Option<TaskStatus>): (r: Rows)
      reads this
      ensures forall x :: x in r <==> x in tasks && (status.Some? ==> x.status == status.value)
    {
      match status
      case None => tasks
      case Some(s) => Filter(tasks, StatusIs(s))
    }

    /** `delete`: the row goes, then `_fix_queue_order` runs. */
    method Delete(id: TaskId)
      requires Valid()
      modifies this
      ensures Valid() && archive == old(archive)
      ensures tasks == DeleteRows(old(tasks), id)
    {
      FilterKeepsUniqueIds(tasks, (t: DownloadTask) => t.id != id);
      tasks := WithoutId(tasks, id);
      FixQueueOrder();
    }

    /** `_fix_queue_order`. */
    method FixQueueOrder()
      requires Valid()
      modifies this
      ensures Valid() && archive == old(archive)
      ensures tasks == FixZeroOrders(old(tasks))
    {
      var count := |ZeroRows(tasks)|;
      if count > 0 {
        var maxOrder := MaxPositiveOrder(tasks);
        var rows := ZeroRowsById(tasks);
        FixDone(tasks);
        Renumber(rows, maxOrder);
      } else {
        FixNothing(tasks);
      }
    }

    /** `normalize_queue_order`: positions 1, 2, ... in the order the queue lists the tasks. */
    method NormalizeQueueOrder()
      requires Valid()
      modifies this
      ensures Valid() && archive == old(archive)
      ensures tasks == Normalized(old(tasks))
    {
      var rows := QueueList(tasks);
      UniqueIdsListed(tasks);
      NormalizeDone(tasks);
      Renumber(rows, 0);
    }

    /** `get_by_queue_order`: the first row at this position, or None. */
    function GetByQueueOrder(o: int): (r: Option<DownloadTask>)
      reads this
      ensures r.Some? ==> r.value in tasks && r.value.queueOrder == o
      ensures r.None? <==> forall j | 0 <= j < |tasks| :: tasks[j].queueOrder != o
    {
      TaskAtOrder(tasks, o)
    }

    /**
     * `swap_queue_orders`: both tasks are read first, then written back with
     * the positions exchanged; a missing position raises before any write.
     */
    method SwapQueueOrders(o1: int, o2: int) returns (r: Outcome)
      requires Valid()
      modifies this
      ensures Valid() && archive == old(archive)
      ensures SwapOrders(old(tasks), o1, o2).Ok? ==>
        r == Done && tasks == SwapOrders(old(tasks), o1, o2).value
      ensures SwapOrders(old(tasks), o1, o2).Err? ==>
        r == Raised(NotFound) && tasks == old(tasks)
    {
      var task1 := GetByQueueOrder(o1);
      var task2 := GetByQueueOrder(o2);
      if task1.None? || task2.None? {
        return Raised(NotFound);
      }
      Update(task1.value.(queueOrder := o2));
      Update(task2.value.(queueOrder := o1));
      r := Done;
    }

    /** `list_by_queue_order`: every task, by ascending position. */
    function ListByQueueOrder(): (r: Rows)
      reads this
      ensures |r| == |tasks| && multiset(r) == multiset(tasks)
      ensures SortedBy(r, Order)
    {
      ListedSameElements(tasks);
      SortBySorted(tasks, Order);
      QueueList(tasks)
    }

    /**
     * `archive_task`: the row is copied into `archive` and removed from
     * `tasks`; an unknown id raises before anything changes, and an id
     * already archived fails on the archive's primary key.
     */
    method ArchiveTask(id: TaskId) returns (r: Outcome)
      requires Valid()
      modifies this
      ensures Valid()
      ensures ArchiveRows(old(tasks), old(archive), id).Ok? ==>
        r == Done && (tasks, archive) == ArchiveRows(old(tasks), old(archive), id).value
      ensures ArchiveRows(old(tasks), old(archive), id).Err? ==>
        r == Raised(ArchiveRows(old(tasks), old(archive), id).error)
        && tasks == old(tasks) && archive == old(archive)
    {
      var task := Get(id);
      if task.None? {
        return Raised(NotFound);
      }
      if FindTask(archive, id).Some? {
        return Raised(IntegrityError);
      }
      ArchiveKeepsUniqueIds(tasks, archive, id);
      archive := archive + [task.value];
      tasks := WithoutId(tasks, id);
      r := Done;
    }

    /** `list_archive`: the archived tasks, the most recently archived first. */
    function ListArchive(): (r: Rows)
      reads this
      ensures |r| == |archive|
      ensures forall i | 0 <= i < |archive| :: r[i] == archive[|archive| - 1 - i]
    {
      Reverse(archive)
    }

    /** `get_from_archive`: the archived task with this id, or None. */
    function GetFromArchive(id: TaskId): (r: Option<DownloadTask>)
      reads this
      ensures r.Some? <==> HasId(archive, id)
      ensures r.Some? ==> r.value in archive && r.value.id == id
    {
      FindTask(archive, id)
    }

    /**
     * The `UPDATE` loops of `_fix_queue_order` and `normalize_queue_order`:
     * the task with the id of `listed[i]` gets position `base + 1 + i`.
     */
    method Renumber(listed: Rows, base: int)
      requires Valid() && UniqueIds(listed)
      modifies this
      ensures Valid() && archive == old(archive)
      ensures tasks == Renumbering(old(tasks), listed, base, |listed|)
    {
      ghost var orig := tasks;
      RenumberingNone(orig, listed, base);
      var i := 0;
      while i < |listed|
        invariant 0 <= i <= |listed|
        invariant tasks == Renumbering(orig, listed, base, i)
        invariant Ids(tasks) == Ids(orig) && archive == old(archive)
      {
        RenumberStep(orig, listed, base, i);
        tasks := SetOrder(tasks, listed[i].id, base + 1 + i);
        i := i + 1;
      }
      SameIdsUnique(orig, tasks);
    }
  }

  /**
   * The rows after each task whose id is among the first `done` of `listed`
   * has been given the position `base + 1` plus its index in `listed`.
   */
  ghost function Renumbering(orig: Rows, listed: Rows, base: int, done: nat): Rows
  {
    seq(|orig|, p requires 0 <= p < |orig| =>
      if IndexOfId(listed, orig[p].id) < done
      then orig[p].(queueOrder := base + 1 + IndexOfId(listed, orig[p].id))
      else orig[p])
  }

  lemma RenumberingNone(orig: Rows, listed: Rows, base: int)
    ensures Renumbering(orig, listed, base, 0) == orig
  {
  }

  lemma RenumberStep(orig: Rows, listed: Rows, base: int, i: nat)
    requires UniqueIds(listed) && i < |listed|
    ensures SetOrder(Renumbering(orig, listed, base, i), listed[i].id, base + 1 + i)
      == Renumbering(orig, listed, base, i + 1)
  {
    var after := SetOrder(Renumbering(orig, listed, base, i), listed[i].id, base + 1 + i);
    var next := Renumbering(orig, listed, base, i + 1);
    IndexOfUniqueId(listed, i);
    Extensional(after, next);
  }

  /** Renumbering the placeholder rows in id order after the maximum is `_fix_queue_order`. */
  lemma FixDone(orig: Rows)
    requires UniqueIds(orig)
    ensures UniqueIds(ZeroRowsById(orig))
    ensures Renumbering(orig, ZeroRowsById(orig), MaxPositiveOrder(orig), |ZeroRowsById(orig)|)
      == FixZeroOrders(orig)
  {
    var z := ZeroRowsById(orig);
    FilterKeepsUniqueIds(orig, (t: DownloadTask) => t.queueOrder == 0);
    SortByKeepsUniqueIds(ZeroRows(orig), IdKey);
    SortByPermutes(ZeroRows(orig), IdKey);
    SameElements(z, ZeroRows(orig));
    var a := Renumbering(orig, z, MaxPositiveOrder(orig), |z|);
    var b := FixZeroOrders(orig);
    forall p | 0 <= p < |orig| ensures a[p] == b[p] {
      if orig[p].queueOrder == 0 {
        ZeroRowListed(orig, p);
      }
    }
    Extensional(a, b);
  }

  lemma FixNothing(orig: Rows)
    requires |ZeroRows(orig)| == 0
    ensures FixZeroOrders(orig) == orig
  {
    FixZeroWithoutZeros(orig);
  }

  /** Renumbering every task in queue order from 1 is `Normalized`. */
  lemma NormalizeDone(orig: Rows)
    requires UniqueIds(orig)
    ensures Renumbering(orig, QueueList(orig), 0, |QueueList(orig)|) == Normalized(orig)
  {
    var a := Renumbering(orig, QueueList(orig), 0, |QueueList(orig)|);
    var b := Normalized(orig);
    forall p | 0 <= p < |orig| ensures a[p] == b[p] {
      ListedHasId(orig, p);
    }
    Extensional(a, b);
  }

  /** Archiving keeps the id the primary key of both tables. */
  lemma ArchiveKeepsUniqueIds(tasks: Rows, archive: Rows, id: TaskId)
    requires UniqueIds(tasks) && UniqueIds(archive) && ArchiveRows(tasks, archive, id).Ok?
    ensures UniqueIds(ArchiveRows(tasks, archive, id).value.0)
    ensures UniqueIds(ArchiveRows(tasks, archive, id).value.1)
  {
    FilterKeepsUniqueIds(tasks, (t: DownloadTask) => t.id != id);
    ArchiveMoves(tasks, archive, id);
  }
}
