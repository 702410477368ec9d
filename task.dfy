/**
 * The download task record and its lifecycle status.
 */
module Tasks {
  import opened Common

  /**
   * Task ids are uuid4 strings in the source; here they are naturals, whose
   * order stands in for the text order of the ids.
   */
  type TaskId = nat

  datatype TaskStatus = Pending | Downloading | Paused | Completed | Failed

  datatype DownloadTask = DownloadTask(
    id: TaskId,
    url: string,
    status: TaskStatus,
    downloaded: int,
    total: Option<int>,
    resumable: bool,
    capabilityChecked: bool,
    queueOrder: int)

  /**
   * `DownloadTask.create(url)`: a fresh PENDING task with no progress, assumed
   * resumable until checked, and queue position 0, which the repository
   * replaces when the task is added. The fresh uuid is the `id` argument.
   */
  function Create(id: TaskId, url: string): (t: DownloadTask)
    ensures t.id == id && t.url == url && t.status == Pending
    ensures t.downloaded == 0 && t.total == None
    ensures t.resumable && !t.capabilityChecked
    ensures t.queueOrder == 0
  {
    DownloadTask(id, url, Pending, 0, None, true, false, 0)
  }

  /** COMPLETED and FAILED are the finished statuses the archive accepts. */
  predicate IsFinished(s: TaskStatus) {
    s == Completed || s == Failed
  }
}
