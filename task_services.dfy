/**
 * The use cases that add, remove and start tasks: `AddTaskService`,
 * `RemoveTaskService`, `RemoveTaskByQueueService`, `StartTaskService` and
 * `StartTaskByQueueService`.
 */
module TaskServices {
  import opened Common
  import opened Tasks
  import opened QueueOrder
  import opened TaskTable
  import opened Repository
  import opened QueueIds
  import QueueManagement

  // ---------------------------------------------------------------------------
  // Adding a task
  // ---------------------------------------------------------------------------

  /**
   * `AddTaskService.execute(url)` on a dense queue: the created task, placed at
   * n + 1, is appended after every existing row, which stay as they were; the
   * queue stays dense and lists the new task last.
   */
  lemma AddTaskAppends(rows: Rows, id: TaskId, url: string)
    requires Dense(rows) && UniqueIds(rows) && !HasId(rows, id)
    ensures AddRows(rows, Create(id, url)).Ok?
    ensures var t := Placed(rows, Create(id, url));
      var after := AddRows(rows, Create(id, url)).value;
      && t.id == id && t.url == url && t.status == Pending && t.downloaded == 0
      && t.queueOrder == |rows| + 1
      && |after| == |rows| + 1 && after[..|rows|] == rows && after[|rows|] == t
      && Dense(after) && UniqueIds(after)
      && QueueList(after) == QueueList(rows) + [t]
  {
    var t := Create(id, url);
    AddAtEnd(rows, t);
    AddKeepsUniqueIds(rows, t);
    assert (rows + [Placed(rows, t)])[..|rows|] == rows;
  }

  class AddTaskService {
    const repo: TaskStore

    constructor (repo: TaskStore)
      ensures this.repo == repo
    {
      this.repo := repo;
    }

    /**
     * `execute(url)`: a fresh task for the url is added at the next position
     * and returned as stored. The fresh uuid is the `id` argument; one already
     * in the table fails on the primary key and nothing is added.
     */
    method Execute(id: TaskId, url: string) returns (r: Result<DownloadTask>)
      requires repo.Valid()
      modifies repo
      ensures repo.Valid() && repo.archive == old(repo.archive)
      ensures HasId(old(repo.tasks), id) ==>
        r == Err(IntegrityError) && repo.tasks == old(repo.tasks)
      ensures !HasId(old(repo.tasks), id) ==>
        && r == Ok(Placed(old(repo.tasks), Create(id, url)))
        && repo.tasks == old(repo.tasks) + [r.value]
    {
      var task := Create(id, url);
      r := repo.Add(task);
    }
  }

  // ---------------------------------------------------------------------------
  // Removing a task
  // ---------------------------------------------------------------------------

  /** `RemoveTaskService.execute(id)`: `delete` and then `normalize_queue_order`. */
  function RemoveRows(rows: Rows, id: TaskId): (r: Rows)
    ensures |r| == |DeleteRows(rows, id)|
  {
    Normalized(DeleteRows(rows, id))
  }

  /** Removing a task leaves the other rows numbered 1..n. */
  lemma RemoveTaskDense(rows: Rows, id: TaskId)
    requires UniqueIds(rows)
    ensures var r := RemoveRows(rows, id);
      && !HasId(r, id) && Dense(r) && UniqueIds(r) && Ids(r) == Ids(WithoutId(rows, id))
  {
    var w := WithoutId(rows, id);
    FilterKeepsUniqueIds(rows, (t: DownloadTask) => t.id != id);
    var d := FixZeroOrders(w);
    SameIdsUnique(w, d);
    NormalizedDense(d);
    var r := Normalized(d);
    WithoutIdAbsent(rows, id);
    assert forall i | 0 <= i < |r| :: r[i].id == Ids(r)[i] == Ids(w)[i] == w[i].id;
  }

  /** Removing a task changes nothing in the other rows but their positions. */
  lemma RemoveTaskKeepsFields(rows: Rows, id: TaskId)
    ensures var r := RemoveRows(rows, id);
      && |r| == |WithoutId(rows, id)|
      && forall i | 0 <= i < |r| :: r[i] == WithoutId(rows, id)[i].(queueOrder := r[i].queueOrder)
  {
  }

  /** With unique ids, removing a present task leaves one row fewer. */
  lemma RemoveTaskCount(rows: Rows, id: TaskId)
    requires UniqueIds(rows) && HasId(rows, id)
    ensures |RemoveRows(rows, id)| == |rows| - 1
  {
    WithoutPresentId(rows, IndexOfId(rows, id));
  }

  /** On a dense queue the remaining tasks keep their relative order. */
  lemma RemoveTaskKeepsOrder(rows: Rows, id: TaskId)
    requires Dense(rows) && UniqueIds(rows)
    ensures Ids(QueueList(RemoveRows(rows, id))) == Ids(WithoutId(QueueList(rows), id))
  {
    var w := WithoutId(rows, id);
    assert forall i | 0 <= i < |w| :: w[i].queueOrder != 0 by {
      forall i | 0 <= i < |w| ensures w[i].queueOrder != 0 {
        assert w[i] in rows;
      }
    }
    FixZeroWithoutZeros(w);
    FilterKeepsUniqueIds(rows, (t: DownloadTask) => t.id != id);
    NormalizedKeepsOrder(w);
    ListedFilter(rows, (t: DownloadTask) => t.id != id);
  }

  /**
   * Removing an unknown id deletes nothing but still numbers placeholder rows
   * and renumbers the queue; a dense queue is left as it was.
   */
  lemma RemoveUnknownTask(rows: Rows, id: TaskId)
    requires !HasId(rows, id)
    ensures RemoveRows(rows, id) == Normalized(FixZeroOrders(rows))
    ensures Dense(rows) && UniqueIds(rows) ==> RemoveRows(rows, id) == rows
  {
    WithoutUnknownId(rows, id);
    if Dense(rows) && UniqueIds(rows) {
      FixZeroWithoutZeros(rows);
      NormalizedOnDense(rows);
    }
  }

  class RemoveTaskService {
    const repo: TaskStore

    constructor (repo: TaskStore)
      ensures this.repo == repo
    {
      this.repo := repo;
    }

    /** `execute(task_id)`: delete the row, then renumber the queue to 1..n. */
    method Execute(id: TaskId)
      requires repo.Valid()
      modifies repo
      ensures repo.Valid() && repo.archive == old(repo.archive)
      ensures repo.tasks == RemoveRows(old(repo.tasks), id)
    {
      repo.Delete(id);
      repo.NormalizeQueueOrder();
    }
  }

  // ---------------------------------------------------------------------------
  // Removing a task by queue id
  // ---------------------------------------------------------------------------

  /** `RemoveTaskByQueueService.execute(queue_id)`: an unheld position is a ValueError. */
  function RemoveByQueueRows(rows: Rows, q: int): Result<Rows> {
    match UuidFromQueueId(rows, q)
    case None => Err(NotFound)
    case Some(id) => Ok(RemoveRows(rows, id))
  }

  /**
   * On a dense queue, removing by queue id fails exactly outside 1..n; it
   * otherwise removes the task listed at that position, leaves n - 1 tasks
   * numbered 1..n-1 and lists the others in their previous order.
   */
  lemma RemoveByQueueDense(rows: Rows, q: int)
    requires Dense(rows) && UniqueIds(rows)
    ensures RemoveByQueueRows(rows, q).Err? <==> q < 1 || q > |rows|
    ensures RemoveByQueueRows(rows, q).Ok? ==>
      var r := RemoveByQueueRows(rows, q).value;
      var L := QueueList(rows);
      && |r| == |rows| - 1 && Dense(r) && UniqueIds(r)
      && !HasId(r, L[q - 1].id)
      && Ids(QueueList(r)) == Ids(L[..q - 1] + L[q..])
  {
    if 1 <= q <= |rows| {
      RemoveListedTask(rows, q);
    }
  }

  /** The task listed at index q-1 of a dense queue is the one `RemoveTaskByQueueService` removes. */
  lemma RemoveListedTask(rows: Rows, q: int)
    requires Dense(rows) && UniqueIds(rows) && 1 <= q <= |rows|
    ensures UuidFromQueueId(rows, q) == Some(QueueList(rows)[q - 1].id)
    ensures var r := RemoveRows(rows, QueueList(rows)[q - 1].id);
      var L := QueueList(rows);
      && |r| == |rows| - 1 && Dense(r) && UniqueIds(r)
      && !HasId(r, L[q - 1].id)
      && Ids(QueueList(r)) == Ids(L[..q - 1] + L[q..])
  {
    DensePositionHeld(rows, q);
    var j := IndexOfOrder(rows, q).value;
    var id := rows[j].id;
    QueueManagement.ListedAtOrder(rows, q, j);
    var L := QueueList(rows);
    RemoveTaskDense(rows, id);
    RemoveTaskKeepsOrder(rows, id);
    RemoveTaskCount(rows, id);
    UniqueIdsListed(rows);
    WithoutPresentId(L, q - 1);
  }

  class RemoveTaskByQueueService {
    const repo: TaskStore
    const remover: RemoveTaskService

    constructor (repo: TaskStore)
      ensures this.repo == repo && remover.repo == repo
    {
      this.repo := repo;
      remover := new RemoveTaskService(repo);
    }

    /** `execute(queue_id)`: translate the queue id, then remove that task. */
    method Execute(q: int) returns (r: Result<()>)
      requires repo.Valid() && remover.repo == repo
      modifies repo
      ensures repo.Valid() && repo.archive == old(repo.archive)
      ensures RemoveByQueueRows(old(repo.tasks), q).Err? ==>
        r == Err(NotFound) && repo.tasks == old(repo.tasks)
      ensures RemoveByQueueRows(old(repo.tasks), q).Ok? ==>
        r == Ok(()) && repo.tasks == RemoveByQueueRows(old(repo.tasks), q).value
    {
      var id := UuidFromQueueId(repo.tasks, q);
      if id.None? {
        return Err(NotFound);
      }
      remover.Execute(id.value);
      r := Ok(());
    }
  }

  // ---------------------------------------------------------------------------
  // Starting a task
  // ---------------------------------------------------------------------------

  predicate Startable(s: TaskStatus) {
    s == Pending || s == Paused
  }

  /**
   * `StartTaskService.execute(task_id)`: the stored task when it is PENDING or
   * PAUSED; an unknown id and any other status are ValueErrors. Nothing is
   * written.
   */
  function StartTask(rows: Rows, id: TaskId): (r: Result<DownloadTask>)
    ensures r == Err(NotFound) <==> !HasId(rows, id)
    ensures r == Err(InvalidState) <==> HasId(rows, id) && !Startable(FindTask(rows, id).value.status)
    ensures r.Ok? ==> r.value in rows && r.value.id == id && Startable(r.value.status)
  {
    match FindTask(rows, id)
    case None => Err(NotFound)
    case Some(t) => if Startable(t.status) then Ok(t) else Err(InvalidState)
  }

  /** With unique ids, starting a row's id returns that very row whenever its status allows. */
  lemma StartTaskReturnsRow(rows: Rows, k: nat)
    requires UniqueIds(rows) && k < |rows|
    ensures Startable(rows[k].status) <==> StartTask(rows, rows[k].id) == Ok(rows[k])
    ensures !Startable(rows[k].status) <==> StartTask(rows, rows[k].id) == Err(InvalidState)
  {
    FindUnique(rows, k);
  }

  /**
   * `StartTaskByQueueService.execute(queue_id)`: the task at that position when
   * it is PENDING; PAUSED and every other status are refused.
   */
  function StartByQueue(rows: Rows, q: int): (r: Result<DownloadTask>)
    ensures r == Err(NotFound) <==> forall j | 0 <= j < |rows| :: rows[j].queueOrder != q
    ensures r.Ok? ==> r.value in rows && r.value.status == Pending
    ensures r.Ok? ==> UuidFromQueueId(rows, q) == Some(r.value.id)
  {
    match UuidFromQueueId(rows, q)
    case None => Err(NotFound)
    case Some(id) =>
      match FindTask(rows, id)
      case None => Err(NotFound)
      case Some(t) => if t.status == Pending then Ok(t) else Err(InvalidState)
  }

  /**
   * With unique ids, starting by queue id agrees with starting the task held
   * at that position, except that a PAUSED task is refused by queue id.
   */
  lemma StartByQueueAgrees(rows: Rows, q: int)
    requires UniqueIds(rows) && TaskAtOrder(rows, q).Some?
    ensures var t := TaskAtOrder(rows, q).value;
      && (t.status == Pending ==> StartByQueue(rows, q) == StartTask(rows, t.id) == Ok(t))
      && (t.status == Paused ==> StartByQueue(rows, q) == Err(InvalidState) && StartTask(rows, t.id) == Ok(t))
      && (!Startable(t.status) ==> StartByQueue(rows, q) == StartTask(rows, t.id) == Err(InvalidState))
  {
    FindUnique(rows, IndexOfOrder(rows, q).value);
  }
}
