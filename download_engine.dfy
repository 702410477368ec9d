/**
 * `DownloadEngine`: the task lifecycle. A PENDING or PAUSED task is started
 * (DOWNLOADING) and its download ends COMPLETED, PAUSED or FAILED; the
 * per-task pause flags are how a running download learns that it should stop.
 *
 * The execution service that moves the bytes is not part of this module: what
 * happens while it runs is an input (`Run`).
 */
module Engine {
  import opened Common
  import opened Tasks
  import opened QueueOrder
  import opened TaskTable
  import opened Repository
  import opened QueueIds
  import opened TaskEvents
  import Archiving

  // ---------------------------------------------------------------------------
  // Status writes
  // ---------------------------------------------------------------------------

  /** The rows whose id `m` names get the status `m` gives them; nothing else changes. */
  function Restatus(rows: Rows, m: map<TaskId, TaskStatus>): (r: Rows)
    ensures |r| == |rows| && Ids(r) == Ids(rows)
  {
    seq(|rows|, i requires 0 <= i < |rows| =>
      if rows[i].id in m then rows[i].(status := m[rows[i].id]) else rows[i])
  }

  /** One task's status column written. */
  function SetStatus(rows: Rows, id: TaskId, s: TaskStatus): (r: Rows)
    ensures |r| == |rows| && Ids(r) == Ids(rows)
  {
    Restatus(rows, map[id := s])
  }

  lemma RestatusNothing(rows: Rows)
    ensures Restatus(rows, map[]) == rows
  {
  }

  /** Two rounds of status writes are one round, the later write winning. */
  lemma RestatusTwice(rows: Rows, m1: map<TaskId, TaskStatus>, m2: map<TaskId, TaskStatus>)
    ensures Restatus(Restatus(rows, m1), m2) == Restatus(rows, m1 + m2)
  {
    var a := Restatus(Restatus(rows, m1), m2);
    var b := Restatus(rows, m1 + m2);
    assert forall i | 0 <= i < |rows| :: a[i] == b[i];
  }

  lemma SetStatusTwice(rows: Rows, id: TaskId, a: TaskStatus, b: TaskStatus)
    ensures SetStatus(SetStatus(rows, id, a), id, b) == SetStatus(rows, id, b)
  {
    RestatusTwice(rows, map[id := a], map[id := b]);
    assert map[id := a] + map[id := b] == map[id := b];
  }

  /** Reading a task back after status writes: the same row, with its new status when its id was written. */
  lemma FindRestatus(rows: Rows, m: map<TaskId, TaskStatus>, id: TaskId)
    ensures FindTask(Restatus(rows, m), id) ==
      match FindTask(rows, id)
      case None => None
      case Some(t) => Some(if id in m then t.(status := m[id]) else t)
  {
    IdIndexAgrees(rows, Restatus(rows, m), id);
  }

  lemma FindSetStatus(rows: Rows, id: TaskId, s: TaskStatus)
    requires HasId(rows, id)
    ensures HasId(SetStatus(rows, id, s), id)
    ensures FindTask(SetStatus(rows, id, s), id) == Some(FindTask(rows, id).value.(status := s))
  {
    FindRestatus(rows, map[id := s], id);
  }

  /** Writing a task's status with the status it already has changes nothing. */
  lemma SetStatusSame(rows: Rows, id: TaskId)
    requires UniqueIds(rows) && HasId(rows, id)
    ensures SetStatus(rows, id, FindTask(rows, id).value.status) == rows
  {
    var a := SetStatus(rows, id, FindTask(rows, id).value.status);
    forall i | 0 <= i < |rows| ensures a[i] == rows[i] {
      if rows[i].id == id {
        IndexOfUniqueId(rows, i);
      }
    }
  }

  /**
   * `task.status = s` on the row `get` returned, then `update(task)`: with
   * unique ids this writes that row's status and nothing else.
   */
  lemma WriteBackStatus(rows: Rows, id: TaskId, s: TaskStatus)
    requires UniqueIds(rows) && HasId(rows, id)
    ensures UpdateRows(rows, FindTask(rows, id).value.(status := s)) == SetStatus(rows, id, s)
  {
    var a := UpdateRows(rows, FindTask(rows, id).value.(status := s));
    var b := SetStatus(rows, id, s);
    forall i | 0 <= i < |rows| ensures a[i] == b[i] {
      if rows[i].id == id {
        IndexOfUniqueId(rows, i);
      }
    }
  }

  /** A status write keeps the primary key. */
  lemma RestatusUnique(rows: Rows, m: map<TaskId, TaskStatus>)
    requires UniqueIds(rows)
    ensures UniqueIds(Restatus(rows, m))
  {
    SameIdsUnique(rows, Restatus(rows, m));
  }

  // ---------------------------------------------------------------------------
  // Guards and outcomes
  // ---------------------------------------------------------------------------

  /**
   * The checks `pause_task`, `resume_task` and `execute_task` make before
   * they write: the task must exist (else a ValueError, here NotFound) and be
   * in one of the accepted statuses (else a ValueError, here InvalidState).
   */
  function Guard(rows: Rows, id: TaskId, accepted: set<TaskStatus>): (r: Result<DownloadTask>)
    ensures r == Err(NotFound) <==> !HasId(rows, id)
    ensures r == Err(InvalidState) <==> HasId(rows, id) && FindTask(rows, id).value.status !in accepted
    ensures r.Ok? <==> HasId(rows, id) && FindTask(rows, id).value.status in accepted
    ensures r.Ok? ==> r.value == FindTask(rows, id).value
  {
    match FindTask(rows, id)
    case None => Err(NotFound)
    case Some(t) => if t.status !in accepted then Err(InvalidState) else Ok(t)
  }

  /**
   * A pause during a download, as the table ends up recording it.
   * `pause_task` raises the task's flag and writes PAUSED. The execution
   * service holds its own copy of the task, read while it was DOWNLOADING,
   * and writes that copy back whole from every progress callback and when it
   * resets the count of a task that cannot resume; such a write after the
   * pause puts DOWNLOADING back. So the pause is either kept (no service
   * write came after it) or overwritten.
   */
  datatype Pause = NoPause | PauseKept | PauseOverwritten

  /** What happens while the execution service downloads a task: the pause, if any, and whether the download raises. */
  datatype Run = Run(pause: Pause, raises: bool)

  /** `pause_task` ran during the download, so the task's pause flag is up. */
  predicate PauseRan(run: Run) {
    run.pause != NoPause
  }

  /** Some registered listener raises when it is notified. */
  predicate Raising(listeners: seq<Listener>, raises: Listener -> bool) {
    exists l | l in listeners :: raises(l)
  }

  /**
   * The status `execute_task` leaves on a task it started. After a normal
   * return the task is read back: it is left alone when it still reads
   * PAUSED, and made COMPLETED otherwise, even when a pause was overwritten.
   * An error, the download's or a listener's on the COMPLETED notice, makes
   * it FAILED.
   */
  function FinalStatus(run: Run, raising: bool): (s: TaskStatus)
    ensures s in {Completed, Paused, Failed}
    ensures s == Completed <==> !run.raises && run.pause != PauseKept && !raising
    ensures s == Paused <==> !run.raises && run.pause == PauseKept
    ensures s == Failed <==> run.raises || (run.pause != PauseKept && raising)
  {
    if run.raises then Failed
    else if run.pause == PauseKept then Paused
    else if raising then Failed
    else Completed
  }

  /**
   * The tasks `execute_task` hands to `notify_task_finished`, in order: the
   * task as COMPLETED when it does not read PAUSED after a normal return, as
   * FAILED after an error (which includes an error raised by a listener on
   * the COMPLETED notice), and nothing when it still reads PAUSED.
   */
  function Notices(t: DownloadTask, run: Run, raising: bool): (n: seq<DownloadTask>)
    ensures forall k | 0 <= k < |n| :: n[k] == t.(status := n[k].status) && IsFinished(n[k].status)
    ensures |n| == (if run.raises then 1 else if run.pause == PauseKept then 0 else if raising then 2 else 1)
    ensures n == [] <==> FinalStatus(run, raising) == Paused
    ensures n != [] ==> n[|n| - 1].status == FinalStatus(run, raising)
  {
    if run.raises then [t.(status := Failed)]
    else if run.pause == PauseKept then []
    else [t.(status := Completed)] + (if raising then [t.(status := Failed)] else [])
  }

  /** The notices carry the task with their own status, whatever status it had before. */
  lemma NoticesOfRestatused(t: DownloadTask, s: TaskStatus, run: Run, raising: bool)
    ensures Notices(t.(status := s), run, raising) == Notices(t, run, raising)
  {
    assert t.(status := s).(status := Completed) == t.(status := Completed);
    assert t.(status := s).(status := Failed) == t.(status := Failed);
  }

  /**
   * The program registers one listener, `ArchiveTaskListener`, which never
   * raises. So a download that raises leaves its task FAILED, one that
   * returns leaves it COMPLETED unless it still reads PAUSED, and the
   * COMPLETED or FAILED notice then moves that row, with its final status,
   * from the queue to the end of the archive.
   */
  lemma FinishedTaskArchived(rows: Rows, archive: Rows, id: TaskId, run: Run)
    requires UniqueIds(rows) && HasId(rows, id) && !HasId(archive, id)
    requires run.raises || run.pause != PauseKept
    ensures var s := FinalStatus(run, false);
      var t := FindTask(rows, id).value;
      var n := Notices(t, run, false);
      var (t2, a2) := Archiving.AfterArchive(SetStatus(rows, id, s), archive, id);
      && |n| == 1 && n[0] == t.(status := s)
      && t2 == WithoutId(SetStatus(rows, id, s), id) && !HasId(t2, id)
      && a2 == archive + [t.(status := s)]
  {
    var s := FinalStatus(run, false);
    var written := SetStatus(rows, id, s);
    FindSetStatus(rows, id, s);
    assert Archiving.ArchiveFinished(written, archive, id).Ok?;
    Archiving.ArchiveFinishedMoves(written, archive, id);
  }

  /**
   * A paused download can still end COMPLETED and archived. When the
   * execution service writes its DOWNLOADING copy of the task after the
   * pause, as it does when it resets the count of a task that cannot resume,
   * the task's pause flag is up but the read-back finds no PAUSED. So
   * `execute_task` writes COMPLETED and announces it, and the archive
   * listener moves the unfinished download out of the queue.
   */
  lemma OverwrittenPauseArchived(rows: Rows, archive: Rows, id: TaskId)
    requires UniqueIds(rows) && HasId(rows, id) && !HasId(archive, id)
    ensures var run := Run(PauseOverwritten, false);
      var t := FindTask(rows, id).value;
      var (t2, a2) := Archiving.AfterArchive(SetStatus(rows, id, Completed), archive, id);
      && PauseRan(run) && FinalStatus(run, false) == Completed
      && Notices(t, run, false) == [t.(status := Completed)]
      && !HasId(t2, id) && a2 == archive + [t.(status := Completed)]
  {
    FinishedTaskArchived(rows, archive, id, Run(PauseOverwritten, false));
  }

  /**
   * The status `execute_task` evidently means to leave ("if the task was
   * paused during execution, don't change status to COMPLETED"): a download
   * during which `pause_task` ran ends PAUSED unless it raised, whether or
   * not the service wrote after the pause, so the task reads PAUSED exactly
   * when its flag is up and nothing raised, and only then is it not
   * announced.
   */
  function IntendedFinalStatus(run: Run, raising: bool): (s: TaskStatus)
    ensures s in {Completed, Paused, Failed}
    ensures s == Paused <==> PauseRan(run) && !run.raises
    ensures s == Completed <==> !PauseRan(run) && !run.raises && !raising
  {
    if run.raises then Failed
    else if PauseRan(run) then Paused
    else if raising then Failed
    else Completed
  }

  /** The intended status and the one written differ exactly when a pause was overwritten and nothing raised. */
  lemma IntendedDiffersOnOverwrite(run: Run, raising: bool)
    ensures IntendedFinalStatus(run, raising) != FinalStatus(run, raising)
      <==> run.pause == PauseOverwritten && !run.raises
  {
  }

  /**
   * A task paused while downloading can be resumed, and the resume's
   * DOWNLOADING write gives back the table as it was before the pause.
   */
  lemma PauseResumeRestores(rows: Rows, id: TaskId)
    requires UniqueIds(rows) && Guard(rows, id, {Downloading}).Ok?
    ensures Guard(SetStatus(rows, id, Paused), id, {Paused}).Ok?
    ensures SetStatus(SetStatus(rows, id, Paused), id, Downloading) == rows
  {
    FindRestatus(rows, map[id := Paused], id);
    RestatusTwice(rows, map[id := Paused], map[id := Downloading]);
    assert map[id := Paused] + map[id := Downloading] == map[id := Downloading];
    var a := SetStatus(rows, id, Downloading);
    forall i | 0 <= i < |rows| ensures a[i] == rows[i] {
      if rows[i].id == id {
        IndexOfUniqueId(rows, i);
      }
    }
  }

  /** The queue position of the first PENDING task of a listing, or its length when there is none. */
  function FirstPendingIndex(listed: Rows): (k: nat)
    ensures k <= |listed|
    ensures k < |listed| ==> listed[k].status == Pending
    ensures forall j | 0 <= j < k :: listed[j].status != Pending
    decreases |listed|
  {
    if listed == [] then 0
    else if listed[0].status == Pending then 0
    else 1 + FirstPendingIndex(listed[1..])
  }

  /**
   * The task the engine loop picks is PENDING and no PENDING task stands
   * before it in the queue; it finds none only when no task is PENDING.
   */
  lemma FirstPendingEarliest(rows: Rows)
    ensures var L := QueueList(rows); var k := FirstPendingIndex(L);
      && (k == |L| <==> forall x | x in rows :: x.status != Pending)
      && (k < |L| ==>
            && L[k] in rows && L[k].status == Pending
            && forall x | x in rows && x.status == Pending :: L[k].queueOrder <= x.queueOrder)
  {
    var L := QueueList(rows);
    var k := FirstPendingIndex(L);
    ListedSameElements(rows);
    if k < |L| {
      assert L[k] in L;
      SortBySorted(rows, Order);
      FirstPendingSorted(L);
      forall x | x in rows && x.status == Pending
        ensures L[k].queueOrder <= x.queueOrder
      {
        var j :| 0 <= j < |L| && L[j] == x;
      }
    } else {
      forall x | x in rows
        ensures x.status != Pending
      {
        var j :| 0 <= j < |L| && L[j] == x;
      }
    }
  }

  /** In a listing sorted by position, the first PENDING task has the least position of them all. */
  lemma FirstPendingSorted(L: Rows)
    requires SortedBy(L, Order)
    ensures var k := FirstPendingIndex(L);
      k < |L| ==> forall j | 0 <= j < |L| && L[j].status == Pending :: L[k].queueOrder <= L[j].queueOrder
  {
    var k := FirstPendingIndex(L);
    forall j | 0 <= j < |L| && L[j].status == Pending && k < |L|
      ensures L[k].queueOrder <= L[j].queueOrder
    {
      assert k <= j;
      assert Order(L[k]) <= Order(L[j]);
    }
  }

  /** With unique ids, a row of the table is what `get` finds for its id. */
  lemma FindMember(rows: Rows, x: DownloadTask)
    requires UniqueIds(rows) && x in rows
    ensures FindTask(rows, x.id) == Some(x)
  {
    var k :| 0 <= k < |rows| && rows[k] == x;
    FindUnique(rows, k);
  }

  /** A task whose id no write has named is still found as it was. */
  lemma Untouched(rows: Rows, m: map<TaskId, TaskStatus>, x: DownloadTask)
    requires UniqueIds(rows) && x in rows && x.id !in m
    ensures FindTask(Restatus(rows, m), x.id) == Some(x)
  {
    FindMember(rows, x);
    FindRestatus(rows, m, x.id);
  }

  /**
   * The tasks `execute_pending_downloads` attempts, from one listing taken at
   * the start: the PENDING ones, then the PAUSED ones, each in queue order.
   */
  function Attempted(rows: Rows): seq<TaskId> {
    Ids(Listed(rows, Some(Pending))) + Ids(Listed(rows, Some(Paused)))
  }

  /** The status each attempted task is left with: its own run's final status. */
  function Finals(ids: seq<TaskId>, runOf: TaskId -> Run, raising: bool): map<TaskId, TaskStatus> {
    map id | id in ids :: FinalStatus(runOf(id), raising)
  }

  /** The pause flag each attempted task is left with: set exactly when `pause_task` ran during its download. */
  function FlagsAfter(ids: seq<TaskId>, runOf: TaskId -> Run): map<TaskId, bool> {
    map id | id in ids :: PauseRan(runOf(id))
  }

  /** A task of a status listing is a row of the table with that status. */
  lemma ListedRow(rows: Rows, s: TaskStatus, k: nat)
    requires k < |Listed(rows, Some(s))|
    ensures Listed(rows, Some(s))[k] in rows && Listed(rows, Some(s))[k].status == s
  {
    assert Listed(rows, Some(s))[k] in Listed(rows, Some(s));
  }

  /** A status listing of a table with unique ids has unique ids. */
  lemma ListedUnique(rows: Rows, s: TaskStatus)
    requires UniqueIds(rows)
    ensures UniqueIds(Listed(rows, Some(s)))
  {
    UniqueIdsListed(rows);
    FilterKeepsUniqueIds(QueueList(rows), StatusIs(s));
  }

  /** No task is attempted twice. */
  lemma AttemptedDistinct(rows: Rows, i: nat, j: nat)
    requires UniqueIds(rows) && i < j < |Attempted(rows)|
    ensures Attempted(rows)[i] != Attempted(rows)[j]
  {
    var P := Listed(rows, Some(Pending));
    var Q := Listed(rows, Some(Paused));
    if j < |P| {
      ListedUnique(rows, Pending);
    } else if |P| <= i {
      ListedUnique(rows, Paused);
    } else {
      ListedRow(rows, Pending, i);
      ListedRow(rows, Paused, j - |P|);
      FindMember(rows, P[i]);
      FindMember(rows, Q[j - |P|]);
      assert Attempted(rows)[i] == Ids(P)[i] && Attempted(rows)[j] == Ids(Q)[j - |P|];
    }
  }

  /** A row's id is in a status listing exactly when the row has that status. */
  lemma InListedIds(rows: Rows, s: TaskStatus, x: DownloadTask)
    requires UniqueIds(rows) && x in rows
    ensures x.id in Ids(Listed(rows, Some(s))) <==> x.status == s
  {
    var L := Listed(rows, Some(s));
    if x.status == s {
      assert x in L;
      var k :| 0 <= k < |L| && L[k] == x;
      assert Ids(L)[k] == x.id;
    } else if x.id in Ids(L) {
      var k :| 0 <= k < |L| && Ids(L)[k] == x.id;
      ListedRow(rows, s, k);
      FindMember(rows, x);
      FindMember(rows, L[k]);
    }
  }

  /** A task is attempted exactly when it is PENDING or PAUSED in the listing. */
  lemma AttemptedCovers(rows: Rows, x: DownloadTask)
    requires UniqueIds(rows) && x in rows
    ensures x.id in Attempted(rows) <==> x.status == Pending || x.status == Paused
  {
    InListedIds(rows, Pending, x);
    InListedIds(rows, Paused, x);
  }

  /**
   * Within each group the attempts follow the queue: pending tasks by
   * ascending position, then paused tasks by ascending position.
   */
  lemma AttemptedInQueueOrder(rows: Rows)
    requires UniqueIds(rows)
    ensures var P := Listed(rows, Some(Pending)); var Q := Listed(rows, Some(Paused));
      && Attempted(rows) == Ids(P) + Ids(Q)
      && (forall x | x in P :: x in rows && x.status == Pending)
      && (forall x | x in Q :: x in rows && x.status == Paused)
      && SortedBy(P, Order) && SortedBy(Q, Order)
  {
    ListedSorted(rows, Some(Pending));
    ListedSorted(rows, Some(Paused));
  }

  /**
   * Ids that can be attempted one after the other from `rows`: no id comes
   * twice, and each names a PENDING or PAUSED task.
   */
  predicate Attemptable(rows: Rows, A: seq<TaskId>) {
    forall j {:trigger Waiting(rows, A[j])} | 0 <= j < |A| :: Waiting(rows, A[j]) && A[j] !in A[..j]
  }

  /** `execute_task` accepts the task: it exists and is PENDING or PAUSED. */
  predicate Waiting(rows: Rows, id: TaskId) {
    Guard(rows, id, {Pending, Paused}).Ok?
  }

  /** The listing `execute_pending_downloads` takes can be attempted in order. */
  lemma AttemptedAttemptable(rows: Rows)
    requires UniqueIds(rows)
    ensures Attemptable(rows, Attempted(rows))
  {
    var A := Attempted(rows);
    var P := Listed(rows, Some(Pending));
    var Q := Listed(rows, Some(Paused));
    forall j | 0 <= j < |A| ensures Waiting(rows, A[j]) && A[j] !in A[..j] {
      if j < |P| {
        ListedRow(rows, Pending, j);
        FindMember(rows, P[j]);
      } else {
        ListedRow(rows, Paused, j - |P|);
        FindMember(rows, Q[j - |P|]);
      }
      forall k | 0 <= k < j ensures A[..j][k] != A[j] {
        AttemptedDistinct(rows, k, j);
      }
    }
  }

  /**
   * One turn of the loops of `execute_pending_downloads`: the next task has
   * not been written by the turns before it, so `execute_task` accepts it.
   */
  lemma AttemptAccepted(rows: Rows, A: seq<TaskId>, i: nat, m: map<TaskId, TaskStatus>)
    requires Attemptable(rows, A) && i < |A|
    requires forall id | id in m :: id in A[..i]
    ensures Guard(Restatus(rows, m), A[i], {Pending, Paused}).Ok?
  {
    assert Waiting(rows, A[i]);
    FindRestatus(rows, m, A[i]);
  }

  /** The writes of one more turn extend the writes made so far. */
  lemma AttemptWrites(rows: Rows, A: seq<TaskId>, i: nat, runOf: TaskId -> Run, raising: bool)
    requires i < |A|
    ensures SetStatus(Restatus(rows, Finals(A[..i], runOf, raising)), A[i], FinalStatus(runOf(A[i]), raising))
      == Restatus(rows, Finals(A[..i + 1], runOf, raising))
  {
    var s := FinalStatus(runOf(A[i]), raising);
    RestatusTwice(rows, Finals(A[..i], runOf, raising), map[A[i] := s]);
    assert A[..i + 1] == A[..i] + [A[i]];
    assert Finals(A[..i], runOf, raising) + map[A[i] := s] == Finals(A[..i + 1], runOf, raising);
  }

  /** The pause flags of one more turn extend the flags written so far. */
  lemma AttemptFlags(A: seq<TaskId>, from: nat, j: nat, runOf: TaskId -> Run, flags: map<TaskId, bool>)
    requires from <= j < |A|
    ensures (flags + FlagsAfter(A[from..j], runOf))[A[j] := PauseRan(runOf(A[j]))]
      == flags + FlagsAfter(A[from..j + 1], runOf)
  {
    assert A[from..j + 1] == A[from..j] + [A[j]];
  }

  /** The flags of the two loops together are the flags of all attempts. */
  lemma FlagsJoin(A: seq<TaskId>, p: nat, runOf: TaskId -> Run, flags: map<TaskId, bool>)
    requires p <= |A|
    ensures flags + FlagsAfter(A[0..p], runOf) + FlagsAfter(A[p..|A|], runOf) == flags + FlagsAfter(A, runOf)
  {
    assert A == A[0..p] + A[p..|A|];
  }

  /**
   * The two listings `execute_pending_downloads` walks, taken from one
   * listing in queue order, make up the attempts.
   */
  lemma AttemptedSplit(rows: Rows, pending: Rows, paused: Rows)
    requires pending == Filter(QueueList(rows), StatusIs(Pending))
    requires paused == Filter(QueueList(rows), StatusIs(Paused))
    ensures Attempted(rows) == Ids(pending) + Ids(paused)
    ensures |pending| + |paused| == |Attempted(rows)|
    ensures Ids(pending) == Attempted(rows)[0..|pending|]
    ensures Ids(paused) == Attempted(rows)[|pending|..|pending| + |paused|]
  {
    assert pending == Listed(rows, Some(Pending));
    assert paused == Listed(rows, Some(Paused));
  }

  /** After the last turn every attempted task has been written. */
  lemma EndAll(A: seq<TaskId>, n: nat, runOf: TaskId -> Run, raising: bool)
    requires n == |A|
    ensures Finals(A[..n], runOf, raising) == Finals(A, runOf, raising)
  {
    assert A[..n] == A;
  }

  /** Before the first turn nothing has been written. */
  lemma StartNothing(rows: Rows, A: seq<TaskId>, runOf: TaskId -> Run, raising: bool)
    ensures Restatus(rows, Finals(A[..0], runOf, raising)) == rows
  {
    assert A[..0] == [];
    assert Finals([], runOf, raising) == map[];
    RestatusNothing(rows);
  }

  /** A flag written twice holds the second value. */
  lemma FlagRewritten(flags: map<TaskId, bool>, id: TaskId, a: bool, b: bool)
    ensures flags[id := a][id := b] == flags[id := b]
  {
  }

  /**
   * After `execute_pending_downloads` (and nothing running beside it) no task
   * is left PENDING, and the tasks it did not attempt keep their status.
   */
  lemma NoPendingAfter(rows: Rows, runOf: TaskId -> Run, raising: bool)
    requires UniqueIds(rows)
    ensures var after := Restatus(rows, Finals(Attempted(rows), runOf, raising));
      && (forall i | 0 <= i < |after| :: after[i].status != Pending && after[i].id == rows[i].id)
      && (forall i | 0 <= i < |after| && rows[i].status !in {Pending, Paused} :: after[i] == rows[i])
  {
    var after := Restatus(rows, Finals(Attempted(rows), runOf, raising));
    forall i | 0 <= i < |after|
      ensures after[i].status != Pending && after[i].id == rows[i].id
      ensures rows[i].status !in {Pending, Paused} ==> after[i] == rows[i]
    {
      RowAfterAttempts(rows, runOf, raising, i);
    }
  }

  /** One row after `execute_pending_downloads`: attempted (and so no longer PENDING) exactly when it was PENDING or PAUSED. */
  lemma RowAfterAttempts(rows: Rows, runOf: TaskId -> Run, raising: bool, i: nat)
    requires UniqueIds(rows) && i < |rows|
    ensures var row := Restatus(rows, Finals(Attempted(rows), runOf, raising))[i];
      && row.status != Pending && row.id == rows[i].id
      && (rows[i].status !in {Pending, Paused} ==> row == rows[i])
  {
    AttemptedCovers(rows, rows[i]);
    var m := Finals(Attempted(rows), runOf, raising);
    assert rows[i].id in m <==> rows[i].status in {Pending, Paused};
  }

  /** Some task is DOWNLOADING: the engine loop starts nothing new. */
  predicate Busy(rows: Rows) {
    exists x | x in rows :: x.status == Downloading
  }

  /** The `for ... break` of `_run_engine_loop`: the position of the first PENDING task of a listing. */
  method FindFirstPending(listed: Rows) returns (i: nat)
    ensures i == FirstPendingIndex(listed)
  {
    i := 0;
    while i < |listed| && listed[i].status != Pending
      invariant i <= |listed|
      invariant forall j | 0 <= j < i :: listed[j].status != Pending
    {
      i := i + 1;
    }
  }

  /** The task the engine loop picks from the queue listing passes the checks of `execute_task`. */
  lemma PickedAccepted(rows: Rows, k: nat)
    requires UniqueIds(rows) && k < |QueueList(rows)| && QueueList(rows)[k].status == Pending
    ensures Guard(rows, QueueList(rows)[k].id, {Pending, Paused}) == Ok(QueueList(rows)[k])
  {
    ListedSameElements(rows);
    assert QueueList(rows)[k] in QueueList(rows);
    FindMember(rows, QueueList(rows)[k]);
  }

  /**
   * A turn of the engine loop starts only when no task is DOWNLOADING, and
   * the task it starts is no longer DOWNLOADING once `execute_task` returns:
   * the loop runs one download at a time.
   */
  lemma StepLeavesIdle(rows: Rows, id: TaskId, run: Run, raising: bool)
    requires !Busy(rows)
    ensures !Busy(SetStatus(rows, id, FinalStatus(run, raising)))
  {
    var after := SetStatus(rows, id, FinalStatus(run, raising));
    forall x | x in after ensures x.status != Downloading {
      var i :| 0 <= i < |after| && after[i] == x;
      assert rows[i] in rows;
    }
  }

  // ---------------------------------------------------------------------------
  // The engine
  // ---------------------------------------------------------------------------

  class DownloadEngine {
    const repo: TaskStore
    /** The event manager; None in the source is `null` here. */
    const events: TaskEventManager?
    var pauseFlags: map<TaskId, bool>
    var running: bool
    var stopRequested: bool

    constructor (repo: TaskStore, events: TaskEventManager?)
      ensures this.repo == repo && this.events == events
      ensures pauseFlags == map[] && !running && !stopRequested
    {
      this.repo := repo;
      this.events := events;
      pauseFlags := map[];
      running := false;
      stopRequested := false;
    }

    /** `_get_pause_flag`: a task never flagged reads as not paused. */
    function PauseFlag(id: TaskId): (b: bool)
      reads this
      ensures id !in pauseFlags ==> !b
      ensures id in pauseFlags ==> b == pauseFlags[id]
    {
      if id in pauseFlags then pauseFlags[id] else false
    }

    /** `is_running`. */
    function IsRunning(): bool
      reads this
    {
      running
    }

    /** Some listener of the event manager raises when notified; false without an event manager. */
    predicate NotifyRaises(raises: Listener -> bool)
      reads events
    {
      events != null && Raising(events.listeners, raises)
    }

    /** `start`: a running engine is left alone; otherwise it is marked running with no stop requested. */
    method Start()
      modifies this
      ensures pauseFlags == old(pauseFlags)
      ensures old(running) ==> running && stopRequested == old(stopRequested)
      ensures !old(running) ==> running && !stopRequested
    {
      if running {
        return;
      }
      running := true;
      stopRequested := false;
    }

    /** `stop`: the loop condition becomes false. */
    method Stop()
      modifies this
      ensures pauseFlags == old(pauseFlags)
      ensures !running && stopRequested
    {
      stopRequested := true;
      running := false;
    }

    /**
     * `pause_task`: only a DOWNLOADING task can be paused; its pause flag is
     * raised and its status becomes PAUSED, every other column and row as
     * before. This is the only place the engine writes PAUSED.
     */
    method PauseTask(id: TaskId) returns (r: Outcome)
      requires repo.Valid()
      modifies this, repo
      ensures repo.Valid() && repo.archive == old(repo.archive)
      ensures running == old(running) && stopRequested == old(stopRequested)
      ensures var g := Guard(old(repo.tasks), id, {Downloading});
        && (g.Err? ==> r == Raised(g.error) && repo.tasks == old(repo.tasks) && pauseFlags == old(pauseFlags))
        && (g.Ok? ==> r == Done && repo.tasks == SetStatus(old(repo.tasks), id, Paused)
                      && pauseFlags == old(pauseFlags)[id := true])
    {
      var task := repo.Get(id);
      if task.None? {
        return Raised(NotFound);
      }
      if task.value.status != Downloading {
        return Raised(InvalidState);
      }
      pauseFlags := pauseFlags[id := true];
      WriteStatus(id, Paused);
      r := Done;
    }

    /**
     * `resume_task`: only a PAUSED task can be resumed; its flag is cleared,
     * it becomes DOWNLOADING, and the execution service runs without a pause
     * check, so a pause meanwhile does not stop the download and any progress
     * write after it puts DOWNLOADING back. Nothing afterwards writes
     * COMPLETED: however the download ends, the task is left DOWNLOADING, or
     * PAUSED when the pause came after the service's last write.
     */
    method ResumeTask(id: TaskId, run: Run) returns (r: Outcome)
      requires repo.Valid()
      modifies this, repo
      ensures repo.Valid() && repo.archive == old(repo.archive)
      ensures running == old(running) && stopRequested == old(stopRequested)
      ensures var g := Guard(old(repo.tasks), id, {Paused});
        && (g.Err? ==> r == Raised(g.error) && repo.tasks == old(repo.tasks) && pauseFlags == old(pauseFlags))
        && (g.Ok? ==>
              && repo.tasks == SetStatus(old(repo.tasks), id, if run.pause == PauseKept then Paused else Downloading)
              && pauseFlags == old(pauseFlags)[id := PauseRan(run)]
              && (r == Done <==> !run.raises)
              && (r != Done ==> r == Raised(ForeignError)))
    {
      var task := repo.Get(id);
      if task.None? {
        return Raised(NotFound);
      }
      if task.value.status != Paused {
        return Raised(InvalidState);
      }
      r := Resume(id, run);
    }

    /** The body of `resume_task` once the task is found PAUSED. */
    method Resume(id: TaskId, run: Run) returns (r: Outcome)
      requires repo.Valid() && HasId(repo.tasks, id) && FindTask(repo.tasks, id).value.status == Paused
      modifies this, repo
      ensures repo.Valid() && repo.archive == old(repo.archive)
      ensures running == old(running) && stopRequested == old(stopRequested)
      ensures repo.tasks == SetStatus(old(repo.tasks), id, if run.pause == PauseKept then Paused else Downloading)
      ensures pauseFlags == old(pauseFlags)[id := PauseRan(run)]
      ensures r == Done <==> !run.raises
      ensures r != Done ==> r == Raised(ForeignError)
    {
      ghost var before := repo.tasks;
      ghost var flags := pauseFlags;
      pauseFlags := pauseFlags[id := false];
      WriteStatus(id, Downloading);
      assert HasId(repo.tasks, id) && FindTask(repo.tasks, id).value.status == Downloading by {
        FindSetStatus(before, id, Downloading);
      }
      // `download_execution_service.execute(task_id)`
      DuringDownload(id, run.pause);
      if run.pause == PauseKept {
        assert repo.tasks == SetStatus(before, id, Paused) by {
          SetStatusTwice(before, id, Downloading, Paused);
        }
      }
      r := if run.raises then Raised(ForeignError) else Done;
    }

    /**
     * What happens to a DOWNLOADING task's row while the execution service
     * runs: `pause_task`, when the user pauses it, and after that, when the
     * pause is overwritten, the service's write of its own copy of the task,
     * which reads DOWNLOADING.
     */
    method DuringDownload(id: TaskId, pause: Pause)
      requires repo.Valid() && HasId(repo.tasks, id) && FindTask(repo.tasks, id).value.status == Downloading
      modifies this, repo
      ensures repo.Valid() && repo.archive == old(repo.archive)
      ensures running == old(running) && stopRequested == old(stopRequested)
      ensures repo.tasks == if pause == PauseKept then SetStatus(old(repo.tasks), id, Paused) else old(repo.tasks)
      ensures pauseFlags == if pause == NoPause then old(pauseFlags) else old(pauseFlags)[id := true]
    {
      if pause != NoPause {
        var _ := PauseTask(id);
        if pause == PauseOverwritten {
          FindSetStatus(old(repo.tasks), id, Paused);
          WriteStatus(id, Downloading);
          PauseResumeRestores(old(repo.tasks), id);
        }
      }
    }

    /**
     * `execute_task`: a PENDING or PAUSED task has its flag cleared and
     * becomes DOWNLOADING (the only place the engine writes DOWNLOADING), then
     * the execution service runs with a pause check reading the flag. What
     * follows is `Settle`.
     */
    method ExecuteTask(id: TaskId, run: Run, raises: Listener -> bool)
      returns (r: Outcome, notified: seq<DownloadTask>)
      requires repo.Valid()
      modifies this, repo
      ensures repo.Valid() && repo.archive == old(repo.archive)
      ensures running == old(running) && stopRequested == old(stopRequested)
      ensures var g := Guard(old(repo.tasks), id, {Pending, Paused});
        && (g.Err? ==> r == Raised(g.error) && notified == []
                       && repo.tasks == old(repo.tasks) && pauseFlags == old(pauseFlags))
        && (g.Ok? ==>
              && repo.tasks == SetStatus(old(repo.tasks), id, FinalStatus(run, NotifyRaises(raises)))
              && pauseFlags == old(pauseFlags)[id := PauseRan(run)]
              && notified == (if events == null then [] else Notices(g.value, run, NotifyRaises(raises)))
              && (r == Done <==> FinalStatus(run, NotifyRaises(raises)) != Failed)
              && (r != Done ==> r == Raised(ForeignError)))
    {
      var task := repo.Get(id);
      if task.None? {
        return Raised(NotFound), [];
      }
      if task.value.status !in {Pending, Paused} {
        return Raised(InvalidState), [];
      }
      r, notified := Launch(id, run, raises);
    }

    /** `execute_task` past its checks: the flag is cleared, the task becomes DOWNLOADING, and `Settle` follows. */
    method Launch(id: TaskId, run: Run, raises: Listener -> bool)
      returns (r: Outcome, notified: seq<DownloadTask>)
      requires repo.Valid() && HasId(repo.tasks, id)
      modifies this, repo
      ensures repo.Valid() && repo.archive == old(repo.archive)
      ensures running == old(running) && stopRequested == old(stopRequested)
      ensures repo.tasks == SetStatus(old(repo.tasks), id, FinalStatus(run, NotifyRaises(raises)))
      ensures pauseFlags == old(pauseFlags)[id := PauseRan(run)]
      ensures notified == (if events == null then []
        else Notices(FindTask(old(repo.tasks), id).value, run, NotifyRaises(raises)))
      ensures r == Done <==> FinalStatus(run, NotifyRaises(raises)) != Failed
      ensures r != Done ==> r == Raised(ForeignError)
    {
      ghost var t := FindTask(repo.tasks, id).value;
      ghost var before := repo.tasks;
      ghost var raising := NotifyRaises(raises);
      pauseFlags := pauseFlags[id := false];
      WriteStatus(id, Downloading);
      assert HasId(repo.tasks, id) && FindTask(repo.tasks, id) == Some(t.(status := Downloading)) by {
        FindSetStatus(before, id, Downloading);
      }
      r, notified := Settle(id, run, raises);
      assert repo.tasks == SetStatus(before, id, FinalStatus(run, raising)) by {
        SetStatusTwice(before, id, Downloading, FinalStatus(run, raising));
      }
      assert events != null ==> notified == Notices(t, run, raising) by {
        NoticesOfRestatused(t, Downloading, run, raising);
      }
    }

    /**
     * The `try` block of `execute_task` once the task is DOWNLOADING: the
     * download runs, during which the user may pause the task, and then
     * `Finish` follows.
     */
    method Settle(id: TaskId, run: Run, raises: Listener -> bool)
      returns (r: Outcome, notified: seq<DownloadTask>)
      requires repo.Valid() && HasId(repo.tasks, id) && FindTask(repo.tasks, id).value.status == Downloading
      modifies this, repo
      ensures repo.Valid() && repo.archive == old(repo.archive)
      ensures running == old(running) && stopRequested == old(stopRequested)
      ensures repo.tasks == SetStatus(old(repo.tasks), id, FinalStatus(run, NotifyRaises(raises)))
      ensures pauseFlags == if PauseRan(run) then old(pauseFlags)[id := true] else old(pauseFlags)
      ensures notified == (if events == null then []
        else Notices(FindTask(old(repo.tasks), id).value, run, NotifyRaises(raises)))
      ensures r == Done <==> FinalStatus(run, NotifyRaises(raises)) != Failed
      ensures r != Done ==> r == Raised(ForeignError)
    {
      ghost var t := FindTask(repo.tasks, id).value;
      ghost var before := repo.tasks;
      DuringDownload(id, run.pause);
      r, notified := Finish(id, run, raises, before, t);
    }

    /**
     * The rest of the `try` block once the download has ended: on a normal
     * return the task is read back and left alone if it reads PAUSED,
     * otherwise `Complete` follows; an error of the download leads to `Fail`.
     */
    method Finish(id: TaskId, run: Run, raises: Listener -> bool, ghost before: Rows, ghost t: DownloadTask)
      returns (r: Outcome, notified: seq<DownloadTask>)
      requires repo.Valid() && UniqueIds(before) && FindTask(before, id) == Some(t) && t.status == Downloading
      requires repo.tasks == if run.pause == PauseKept then SetStatus(before, id, Paused) else before
      modifies repo
      ensures repo.Valid() && repo.archive == old(repo.archive)
      ensures repo.tasks == SetStatus(before, id, FinalStatus(run, NotifyRaises(raises)))
      ensures notified == (if events == null then [] else Notices(t, run, NotifyRaises(raises)))
      ensures r == Done <==> FinalStatus(run, NotifyRaises(raises)) != Failed
      ensures r != Done ==> r == Raised(ForeignError)
    {
      FindSetStatus(before, id, Paused);
      if run.raises {
        SetStatusSame(before, id);
        r, notified := Fail(id, raises, [], before, t, if run.pause == PauseKept then Paused else Downloading);
        return;
      }
      var current := repo.Get(id).value;
      if current.status == Paused {
        // read back PAUSED: left alone
        return Done, [];
      }
      r, notified := Complete(id, raises, before, t);
    }

    /**
     * A normal return whose task does not read PAUSED: the task is made
     * COMPLETED and announced; an error a listener raises leads to `Fail`.
     */
    method Complete(id: TaskId, raises: Listener -> bool, ghost before: Rows, ghost t: DownloadTask)
      returns (r: Outcome, notified: seq<DownloadTask>)
      requires repo.Valid() && UniqueIds(before) && FindTask(before, id) == Some(t) && repo.tasks == before
      modifies repo
      ensures repo.Valid() && repo.archive == old(repo.archive)
      ensures repo.tasks == SetStatus(before, id, if NotifyRaises(raises) then Failed else Completed)
      ensures notified == if events == null then []
        else [t.(status := Completed)] + (if NotifyRaises(raises) then [t.(status := Failed)] else [])
      ensures r == Done <==> !NotifyRaises(raises)
      ensures r != Done ==> r == Raised(ForeignError)
    {
      var current := repo.Get(id).value;
      WriteStatus(id, Completed);
      notified := [];
      var failed := false;
      if events != null {
        notified := [current.(status := Completed)];
        var _, n := events.NotifyTaskFinished(raises);
        failed := n != Done;
      }
      if failed {
        r, notified := Fail(id, raises, notified, before, t, Completed);
      } else {
        r := Done;
      }
    }

    /** The `except` block: the task is read back, made FAILED and announced, and the error propagates. */
    method Fail(id: TaskId, raises: Listener -> bool, prior: seq<DownloadTask>,
                ghost before: Rows, ghost t: DownloadTask, ghost mid: TaskStatus)
      returns (r: Outcome, notified: seq<DownloadTask>)
      requires repo.Valid() && UniqueIds(before) && FindTask(before, id) == Some(t)
      requires repo.tasks == SetStatus(before, id, mid)
      modifies repo
      ensures repo.Valid() && repo.archive == old(repo.archive)
      ensures repo.tasks == SetStatus(before, id, Failed)
      ensures notified == if events == null then prior else prior + [t.(status := Failed)]
      ensures r == Raised(ForeignError)
    {
      FindSetStatus(before, id, mid);
      var current := repo.Get(id).value;
      WriteStatus(id, Failed);
      SetStatusTwice(before, id, mid, Failed);
      notified := prior;
      if events != null {
        notified := notified + [current.(status := Failed)];
        var _, _ := events.NotifyTaskFinished(raises);
      }
      r := Raised(ForeignError);
    }

    /**
     * `execute_pending_downloads`: one listing is taken; every task PENDING in
     * it is executed in queue order, then every task PAUSED in it has its flag
     * cleared and is executed, an error in one never stopping the rest.
     * `runOf` gives what happens during each task's download.
     */
    method ExecutePendingDownloads(runOf: TaskId -> Run, raises: Listener -> bool)
      requires repo.Valid()
      modifies this, repo
      ensures repo.Valid() && repo.archive == old(repo.archive)
      ensures running == old(running) && stopRequested == old(stopRequested)
      ensures repo.tasks == Restatus(old(repo.tasks), Finals(Attempted(old(repo.tasks)), runOf, NotifyRaises(raises)))
      ensures pauseFlags == old(pauseFlags) + FlagsAfter(Attempted(old(repo.tasks)), runOf)
    {
      var pending, paused := Snapshot();
      AttemptedSplit(repo.tasks, pending, paused);
      AttemptedAttemptable(repo.tasks);
      ExecuteListings(pending, paused, runOf, raises, repo.tasks, Attempted(repo.tasks));
    }

    /** The two loops of `execute_pending_downloads`, over listings that hold the attempted tasks `A` in order. */
    method ExecuteListings(pending: Rows, paused: Rows, runOf: TaskId -> Run, raises: Listener -> bool,
                           ghost rows: Rows, ghost A: seq<TaskId>)
      requires repo.Valid() && repo.tasks == rows && Attemptable(rows, A)
      requires |pending| + |paused| == |A|
      requires Ids(pending) == A[0..|pending|] && Ids(paused) == A[|pending|..|pending| + |paused|]
      modifies this, repo
      ensures repo.Valid() && repo.archive == old(repo.archive)
      ensures running == old(running) && stopRequested == old(stopRequested)
      ensures repo.tasks == Restatus(rows, Finals(A, runOf, NotifyRaises(raises)))
      ensures pauseFlags == old(pauseFlags) + FlagsAfter(A, runOf)
    {
      ghost var raising := NotifyRaises(raises);
      StartNothing(rows, A, runOf, raising);
      ExecuteEach(pending, false, runOf, raises, rows, A, 0, raising);
      assert A[0..0 + |pending|] == A[0..|pending|];
      ExecuteEach(paused, true, runOf, raises, rows, A, |pending|, raising);
      assert A[|pending|..|pending| + |paused|] == A[|pending|..|A|];
      EndAll(A, |pending| + |paused|, runOf, raising);
      FlagsJoin(A, |pending|, runOf, old(pauseFlags));
    }

    /** The one listing `execute_pending_downloads` takes, split into its PENDING and its PAUSED tasks. */
    method Snapshot() returns (pending: Rows, paused: Rows)
      ensures pending == Filter(QueueList(repo.tasks), StatusIs(Pending))
      ensures paused == Filter(QueueList(repo.tasks), StatusIs(Paused))
    {
      var all := repo.ListByQueueOrder();
      pending := Filter(all, StatusIs(Pending));
      paused := Filter(all, StatusIs(Paused));
    }

    /**
     * One loop of `execute_pending_downloads`: each listed task in turn is
     * executed (its pause flag cleared first when `clearFlags`); an error is
     * logged and the loop goes on. The tasks are the attempted ones from
     * position `from` on, and the writes extend those made before.
     */
    method ExecuteEach(tasks: Rows, clearFlags: bool, runOf: TaskId -> Run, raises: Listener -> bool,
                       ghost rows: Rows, ghost A: seq<TaskId>, ghost from: nat, ghost raising: bool)
      requires repo.Valid() && Attemptable(rows, A) && raising == NotifyRaises(raises)
      requires from + |tasks| <= |A|
      requires Ids(tasks) == A[from..from + |tasks|]
      requires repo.tasks == Restatus(rows, Finals(A[..from], runOf, raising))
      modifies this, repo
      ensures repo.Valid() && repo.archive == old(repo.archive) && raising == NotifyRaises(raises)
      ensures running == old(running) && stopRequested == old(stopRequested)
      ensures repo.tasks == Restatus(rows, Finals(A[..from + |tasks|], runOf, raising))
      ensures pauseFlags == old(pauseFlags) + FlagsAfter(A[from..from + |tasks|], runOf)
    {
      var i := 0;
      ghost var j := from;
      assert FlagsAfter(A[from..j], runOf) == map[];
      while i < |tasks|
        invariant i <= |tasks| && j == from + i
        invariant repo.Valid() && repo.archive == old(repo.archive) && raising == NotifyRaises(raises)
        invariant running == old(running) && stopRequested == old(stopRequested)
        invariant repo.tasks == Restatus(rows, Finals(A[..j], runOf, raising))
        invariant pauseFlags == old(pauseFlags) + FlagsAfter(A[from..j], runOf)
      {
        assert tasks[i].id == Ids(tasks)[i] == A[j];
        AttemptFlags(A, from, j, runOf, old(pauseFlags));
        Attempt(tasks[i], clearFlags, runOf, raises, rows, A, j, raising);
        i, j := i + 1, j + 1;
      }
      assert A[..j] == A[..from + |tasks|];
    }

    /** One turn of the loop: the task at position `j` of the attempts is executed. */
    method Attempt(task: DownloadTask, clearFlags: bool, runOf: TaskId -> Run, raises: Listener -> bool,
                   ghost rows: Rows, ghost A: seq<TaskId>, ghost j: nat, ghost raising: bool)
      requires repo.Valid() && Attemptable(rows, A) && raising == NotifyRaises(raises)
      requires j < |A| && task.id == A[j]
      requires repo.tasks == Restatus(rows, Finals(A[..j], runOf, raising))
      modifies this, repo
      ensures repo.Valid() && repo.archive == old(repo.archive) && raising == NotifyRaises(raises)
      ensures running == old(running) && stopRequested == old(stopRequested)
      ensures repo.tasks == Restatus(rows, Finals(A[..j + 1], runOf, raising))
      ensures pauseFlags == old(pauseFlags)[task.id := PauseRan(runOf(task.id))]
    {
      AttemptAccepted(rows, A, j, Finals(A[..j], runOf, raising));
      AttemptWrites(rows, A, j, runOf, raising);
      if clearFlags {
        FlagRewritten(pauseFlags, task.id, false, PauseRan(runOf(task.id)));
        pauseFlags := pauseFlags[task.id := false];
      }
      var _, _ := ExecuteTask(task.id, runOf(task.id), raises);
    }

    /**
     * One turn of `_run_engine_loop`: while the engine runs and no task is
     * DOWNLOADING, the first PENDING task of the queue listing is executed; an
     * error it raises is logged and the loop goes on. PAUSED tasks are never
     * picked. The task executed, if any, is reported.
     */
    method EngineStep(run: Run, raises: Listener -> bool) returns (executed: Option<TaskId>)
      requires repo.Valid()
      modifies this, repo
      ensures repo.Valid() && repo.archive == old(repo.archive)
      ensures running == old(running) && stopRequested == old(stopRequested)
      ensures var L := QueueList(old(repo.tasks)); var k := FirstPendingIndex(L);
        executed == if !old(running) || old(stopRequested) || Busy(old(repo.tasks)) || k == |L| then None
                    else Some(L[k].id)
      ensures executed.None? ==> repo.tasks == old(repo.tasks) && pauseFlags == old(pauseFlags)
      ensures executed.Some? ==>
        && repo.tasks == SetStatus(old(repo.tasks), executed.value, FinalStatus(run, NotifyRaises(raises)))
        && pauseFlags == old(pauseFlags)[executed.value := PauseRan(run)]
    {
      if !running || stopRequested {
        return None;
      }
      var downloading := repo.List(Some(Downloading));
      if downloading != [] {
        assert downloading[0] in downloading;
        return None;
      }
      var picked := PickPending();
      if picked.None? {
        return None;
      }
      var _, _ := ExecuteTask(picked.value.id, run, raises);
      executed := Some(picked.value.id);
    }

    /** The listing of `_run_engine_loop` and its first PENDING task, if any. */
    method PickPending() returns (picked: Option<DownloadTask>)
      requires repo.Valid()
      ensures var L := QueueList(repo.tasks); var k := FirstPendingIndex(L);
        picked == if k == |L| then None else Some(L[k])
      ensures picked.Some? ==> Guard(repo.tasks, picked.value.id, {Pending, Paused}) == Ok(picked.value)
    {
      var all := repo.ListByQueueOrder();
      var i := FindFirstPending(all);
      if i == |all| {
        return None;
      }
      PickedAccepted(repo.tasks, i);
      picked := Some(all[i]);
    }

    /** A row's status written the way the engine writes it: the row is read, its status set, and `update` run. */
    method WriteStatus(id: TaskId, s: TaskStatus)
      requires repo.Valid() && HasId(repo.tasks, id)
      modifies repo
      ensures repo.Valid() && repo.archive == old(repo.archive)
      ensures repo.tasks == SetStatus(old(repo.tasks), id, s)
    {
      var task := repo.Get(id).value;
      WriteBackStatus(repo.tasks, id, s);
      RestatusUnique(repo.tasks, map[id := s]);
      repo.Update(task.(status := s));
    }
  }
}
