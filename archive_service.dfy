/**
 * `ArchiveService` and `ArchiveTaskListener`: finished tasks move from the
 * queue to the archive, and archived tasks can be queued again as new tasks.
 */
module Archiving {
  import opened Common
  import opened Tasks
  import opened QueueOrder
  import opened TaskTable
  import opened Repository
  import opened TaskServices
  import QueueManagement

  /**
   * `ArchiveService.archive_task(task_id)`: an unknown id and a task that is
   * neither COMPLETED nor FAILED are ValueErrors; otherwise the repository
   * moves the row.
   */
  function ArchiveFinished(tasks: Rows, archive: Rows, id: TaskId): (r: Result<(Rows, Rows)>)
    ensures r == Err(NotFound) <==> !HasId(tasks, id)
    ensures r == Err(InvalidState) <==> HasId(tasks, id) && !IsFinished(FindTask(tasks, id).value.status)
    ensures r.Ok? <==> HasId(tasks, id) && IsFinished(FindTask(tasks, id).value.status) && !HasId(archive, id)
  {
    match FindTask(tasks, id)
    case None => Err(NotFound)
    case Some(t) => if !IsFinished(t.status) then Err(InvalidState) else ArchiveRows(tasks, archive, id)
  }

  /**
   * A successful archive removes exactly that task from the queue and appends
   * it, unchanged, to the archive.
   */
  lemma ArchiveFinishedMoves(tasks: Rows, archive: Rows, id: TaskId)
    requires ArchiveFinished(tasks, archive, id).Ok?
    ensures var (t2, a2) := ArchiveFinished(tasks, archive, id).value;
      && t2 == WithoutId(tasks, id) && !HasId(t2, id)
      && a2 == archive + [FindTask(tasks, id).value]
      && FindTask(a2, id) == FindTask(tasks, id)
  {
    ArchiveMoves(tasks, archive, id);
  }

  /**
   * With distinct positions, the queue listing after an archive is the old
   * listing without the archived task, still in ascending order.
   */
  lemma ArchiveKeepsListing(tasks: Rows, archive: Rows, id: TaskId)
    requires DistinctOrders(tasks) && ArchiveFinished(tasks, archive, id).Ok?
    ensures var t2 := ArchiveFinished(tasks, archive, id).value.0;
      && QueueList(t2) == WithoutId(QueueList(tasks), id)
      && StrictlySortedBy(QueueList(t2), Order)
  {
    var t2 := ArchiveFinished(tasks, archive, id).value.0;
    ListedFilter(tasks, (t: DownloadTask) => t.id != id);
    FilterKeepsDistinctOrders(tasks, (t: DownloadTask) => t.id != id);
    DistinctOrdersListed(t2);
  }

  /**
   * Archiving does not renumber the queue. From the queue a@1, b@2, c@3,
   * archiving the finished a leaves b@2, c@3, where `move_down(2)` is refused
   * as "already at the bottom" although c is below b.
   */
  lemma ArchiveThenMoveDownRefused()
    ensures var a := DownloadTask(1, "a", Completed, 10, Some(10), true, true, 1);
      var b := DownloadTask(2, "b", Pending, 0, None, true, false, 2);
      var c := DownloadTask(3, "c", Pending, 0, None, true, false, 3);
      && Dense([a, b, c])
      && ArchiveFinished([a, b, c], [], 1) == Ok(([b, c], [a]))
      && QueueManagement.MoveDownRows([b, c], 2) == Err(InvalidPosition)
  {
    var a := DownloadTask(1, "a", Completed, 10, Some(10), true, true, 1);
    var b := DownloadTask(2, "b", Pending, 0, None, true, false, 2);
    var c := DownloadTask(3, "c", Pending, 0, None, true, false, 3);
    assert IndexOfId([a, b, c], 1) == 0;
    assert !HasId([b, c], 1);
    WithoutUnknownId([b, c], 1);
    assert [a, b, c][1..] == [b, c];
    assert WithoutId([a, b, c], 1) == [b, c];
    assert Dense([a, b, c]);
    assert !HasId([], 1);
    assert ArchiveRows([a, b, c], [], 1) == Ok(([b, c], [] + [a]));
    assert [] + [a] == [a];
  }

  /**
   * Archiving followed by `normalize_queue_order`, as `remove` does: the
   * queue is left numbered 1..n in the same order, so every task above the
   * last one can move down.
   */
  function ArchiveRenumbered(tasks: Rows, archive: Rows, id: TaskId): Result<(Rows, Rows)> {
    match ArchiveFinished(tasks, archive, id)
    case Ok((t2, a2)) => Ok((Normalized(t2), a2))
    case Err(e) => Err(e)
  }

  lemma ArchiveRenumberedDense(tasks: Rows, archive: Rows, id: TaskId, k: int)
    requires UniqueIds(tasks) && DistinctOrders(tasks) && ArchiveRenumbered(tasks, archive, id).Ok?
    ensures var t2 := ArchiveRenumbered(tasks, archive, id).value.0;
      && Dense(t2) && UniqueIds(t2) && !HasId(t2, id)
      && Ids(QueueList(t2)) == Ids(WithoutId(QueueList(tasks), id))
      && (1 <= k < |t2| ==> QueueManagement.MoveDownRows(t2, k).Ok?)
  {
    var w := ArchiveFinished(tasks, archive, id).value.0;
    FilterKeepsUniqueIds(tasks, (t: DownloadTask) => t.id != id);
    NormalizedDense(w);
    NormalizedKeepsOrder(w);
    ArchiveKeepsListing(tasks, archive, id);
    var t2 := Normalized(w);
    WithoutIdAbsent(tasks, id);
    assert forall i | 0 <= i < |t2| :: t2[i].id == Ids(t2)[i] == Ids(w)[i] == w[i].id;
    if 1 <= k < |t2| {
      QueueManagement.MoveDownExchanges(t2, k);
    }
  }

  /**
   * `clone_from_archive(task_id)`: a fresh task for the archived task's url,
   * or a ValueError when no archived task has that id. The fresh uuid is the
   * `newId` argument.
   */
  function CloneOf(archive: Rows, archivedId: TaskId, newId: TaskId): (r: Result<DownloadTask>)
    ensures r.Err? <==> !HasId(archive, archivedId)
    ensures r.Err? ==> r.error == NotFound
    ensures r.Ok? ==> r.value == Create(newId, FindTask(archive, archivedId).value.url)
  {
    match FindTask(archive, archivedId)
    case None => Err(NotFound)
    case Some(archived) =>
      Ok(Create(newId, archived.url).(status := Pending, downloaded := 0, resumable := true, capabilityChecked := false))
  }

  /**
   * On a dense queue, a clone has the archived task's url, starts over as
   * PENDING with nothing downloaded, and is appended at position n + 1.
   */
  lemma CloneAppends(tasks: Rows, archive: Rows, archivedId: TaskId, newId: TaskId)
    requires Dense(tasks) && UniqueIds(tasks) && !HasId(tasks, newId) && HasId(archive, archivedId)
    ensures CloneOf(archive, archivedId, newId).Ok?
    ensures var t := Placed(tasks, CloneOf(archive, archivedId, newId).value);
      && AddRows(tasks, CloneOf(archive, archivedId, newId).value) == Ok(tasks + [t])
      && t.url == FindTask(archive, archivedId).value.url
      && t.status == Pending && t.downloaded == 0 && t.resumable && !t.capabilityChecked
      && t.queueOrder == |tasks| + 1 && Dense(tasks + [t])
  {
    AddTaskAppends(tasks, newId, FindTask(archive, archivedId).value.url);
  }

  class ArchiveService {
    const repo: TaskStore

    constructor (repo: TaskStore)
      ensures this.repo == repo
    {
      this.repo := repo;
    }

    /** `archive_task(task_id)`. */
    method ArchiveTask(id: TaskId) returns (r: Outcome)
      requires repo.Valid()
      modifies repo
      ensures repo.Valid()
      ensures ArchiveFinished(old(repo.tasks), old(repo.archive), id).Ok? ==>
        r == Done && (repo.tasks, repo.archive) == ArchiveFinished(old(repo.tasks), old(repo.archive), id).value
      ensures ArchiveFinished(old(repo.tasks), old(repo.archive), id).Err? ==>
        && r == Raised(ArchiveFinished(old(repo.tasks), old(repo.archive), id).error)
        && repo.tasks == old(repo.tasks) && repo.archive == old(repo.archive)
    {
      var task := repo.Get(id);
      if task.None? {
        return Raised(NotFound);
      }
      if !IsFinished(task.value.status) {
        return Raised(InvalidState);
      }
      r := repo.ArchiveTask(id);
    }

    /** `list_archive`: the archived tasks, the most recently archived first. */
    function ListArchive(): (r: Rows)
      reads repo
      ensures |r| == |repo.archive|
      ensures forall i | 0 <= i < |r| :: r[i] == repo.archive[|repo.archive| - 1 - i]
    {
      repo.ListArchive()
    }

    /** `clone_from_archive(task_id)`: the clone is added to the queue; the archive is not touched. */
    method CloneFromArchive(archivedId: TaskId, newId: TaskId) returns (r: Result<DownloadTask>)
      requires repo.Valid()
      modifies repo
      ensures repo.Valid() && repo.archive == old(repo.archive)
      ensures CloneOf(old(repo.archive), archivedId, newId).Err? ==>
        r == Err(NotFound) && repo.tasks == old(repo.tasks)
      ensures CloneOf(old(repo.archive), archivedId, newId).Ok? ==>
        var clone := CloneOf(old(repo.archive), archivedId, newId).value;
        && (HasId(old(repo.tasks), newId) ==> r == Err(IntegrityError) && repo.tasks == old(repo.tasks))
        && (!HasId(old(repo.tasks), newId) ==>
              r == Ok(Placed(old(repo.tasks), clone)) && repo.tasks == old(repo.tasks) + [r.value])
    {
      var archived := repo.GetFromArchive(archivedId);
      if archived.None? {
        return Err(NotFound);
      }
      var clone := Create(newId, archived.value.url);
      clone := clone.(status := Pending, downloaded := 0, resumable := true, capabilityChecked := false);
      r := repo.Add(clone);
    }
  }

  /** What the store holds after an archive attempt whose error is swallowed. */
  function AfterArchive(tasks: Rows, archive: Rows, id: TaskId): (Rows, Rows) {
    match ArchiveFinished(tasks, archive, id)
    case Ok(moved) => moved
    case Err(_) => (tasks, archive)
  }

  class ArchiveTaskListener {
    const service: ArchiveService

    constructor (service: ArchiveService)
      ensures this.service == service
    {
      this.service := service;
    }

    /**
     * `on_task_finished(task)`: a task reported COMPLETED or FAILED is handed
     * to `archive_task`, whose failure is swallowed; other statuses change
     * nothing. `archive_task` checks the status stored for the id, not the
     * status reported here.
     */
    method OnTaskFinished(task: DownloadTask)
      requires service.repo.Valid()
      modifies service.repo
      ensures service.repo.Valid()
      ensures !IsFinished(task.status) ==>
        service.repo.tasks == old(service.repo.tasks) && service.repo.archive == old(service.repo.archive)
      ensures IsFinished(task.status) ==>
        (service.repo.tasks, service.repo.archive)
          == AfterArchive(old(service.repo.tasks), old(service.repo.archive), task.id)
    {
      if IsFinished(task.status) {
        var _ := service.ArchiveTask(task.id);
      }
    }
  }
}
