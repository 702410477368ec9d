/**
 * The use cases that drive the engine for the user: pause everything that
 * downloads, pause or resume a set of queue ids, and execute the task at a
 * queue id. Each of them shares the engine's task store.
 */
module TaskControl {
  import opened Common
  import opened Tasks
  import opened QueueOrder
  import opened Repository
  import opened QueueIds
  import opened TaskEvents
  import opened Engine

  // ---------------------------------------------------------------------------
  // Pausing every downloading task
  // ---------------------------------------------------------------------------

  /** The status writes that make every task of `ids` PAUSED. */
  function PauseMarks(ids: seq<TaskId>): map<TaskId, TaskStatus> {
    map id | id in ids :: Paused
  }

  /** The pause flags raised for every task of `ids`. */
  function FlagsUp(ids: seq<TaskId>): map<TaskId, bool> {
    map id | id in ids :: true
  }

  /** `pause_task` accepts the task: it exists and is DOWNLOADING. */
  predicate Running(rows: Rows, id: TaskId) {
    Guard(rows, id, {Downloading}).Ok?
  }

  /** Ids that can be paused one after the other from `rows`: none comes twice, and each is DOWNLOADING. */
  predicate Pausable(rows: Rows, D: seq<TaskId>) {
    forall j {:trigger Running(rows, D[j])} | 0 <= j < |D| :: Running(rows, D[j]) && D[j] !in D[..j]
  }

  /** The listing `PauseAllService.execute` walks can be paused in order. */
  lemma DownloadingPausable(rows: Rows)
    requires UniqueIds(rows)
    ensures Pausable(rows, Ids(Filter(rows, StatusIs(Downloading))))
  {
    var D := Filter(rows, StatusIs(Downloading));
    var I := Ids(D);
    FilterKeepsUniqueIds(rows, StatusIs(Downloading));
    forall j | 0 <= j < |I| ensures Running(rows, I[j]) && I[j] !in I[..j] {
      assert D[j] in D;
      FindMember(rows, D[j]);
      forall k | 0 <= k < j ensures I[..j][k] != I[j] {
        assert I[k] == D[k].id;
      }
    }
  }

  /** One turn of the loop: the next task has not been paused by the turns before it. */
  lemma PauseAccepted(rows: Rows, D: seq<TaskId>, i: nat, m: map<TaskId, TaskStatus>)
    requires Pausable(rows, D) && i < |D|
    requires forall id | id in m :: id in D[..i]
    ensures Guard(Restatus(rows, m), D[i], {Downloading}).Ok?
  {
    assert Running(rows, D[i]);
    FindRestatus(rows, m, D[i]);
  }

  /** The writes and flags of one more turn extend those made so far. */
  lemma PauseExtends(rows: Rows, D: seq<TaskId>, i: nat, flags: map<TaskId, bool>)
    requires i < |D|
    ensures SetStatus(Restatus(rows, PauseMarks(D[..i])), D[i], Paused) == Restatus(rows, PauseMarks(D[..i + 1]))
    ensures (flags + FlagsUp(D[..i]))[D[i] := true] == flags + FlagsUp(D[..i + 1])
  {
    RestatusTwice(rows, PauseMarks(D[..i]), map[D[i] := Paused]);
    assert D[..i + 1] == D[..i] + [D[i]];
    assert PauseMarks(D[..i]) + map[D[i] := Paused] == PauseMarks(D[..i + 1]);
  }

  /**
   * After pausing all, no task is DOWNLOADING: the ones that were are PAUSED
   * and every other row is as it was.
   */
  lemma PauseAllEffect(rows: Rows)
    requires UniqueIds(rows)
    ensures var after := Restatus(rows, PauseMarks(Ids(Filter(rows, StatusIs(Downloading)))));
      && |after| == |rows|
      && (forall i | 0 <= i < |rows| && rows[i].status == Downloading :: after[i] == rows[i].(status := Paused))
      && (forall i | 0 <= i < |rows| && rows[i].status != Downloading :: after[i] == rows[i])
      && (forall x | x in after :: x.status != Downloading)
  {
    var D := Filter(rows, StatusIs(Downloading));
    var I := Ids(D);
    var after := Restatus(rows, PauseMarks(I));
    forall i | 0 <= i < |rows| ensures rows[i].id in I <==> rows[i].status == Downloading {
      if rows[i].status == Downloading {
        assert rows[i] in D;
        var k :| 0 <= k < |D| && D[k] == rows[i];
        assert I[k] == rows[i].id;
      }
      if rows[i].id in I {
        var k :| 0 <= k < |I| && I[k] == rows[i].id;
        assert D[k] in rows;
        var l :| 0 <= l < |rows| && rows[l] == D[k];
        assert l == i;
      }
    }
    forall x | x in after ensures x.status != Downloading {
      var i :| 0 <= i < |after| && after[i] == x;
    }
  }

  // ---------------------------------------------------------------------------
  // Pausing and resuming by queue id
  // ---------------------------------------------------------------------------

  /** `{task.queue_order: task for task in all_tasks}`: a later task overwrites an earlier one at the same position. */
  function OrderIndex(listed: Rows): (m: map<int, DownloadTask>)
    ensures forall q | q in m :: m[q].queueOrder == q && m[q] in listed
    ensures forall t | t in listed :: t.queueOrder in m
    decreases |listed|
  {
    if listed == [] then map[]
    else
      var n := |listed| - 1;
      assert forall t | t in listed[..n] :: t in listed;
      assert listed == listed[..n] + [listed[n]];
      OrderIndex(listed[..n])[listed[n].queueOrder := listed[n]]
  }

  /** The queue ids whose task, in the listing taken first, has one of the `accepted` statuses. */
  function Targets(index: map<int, DownloadTask>, qs: set<int>, accepted: set<TaskStatus>): (r: set<int>)
    ensures r <= qs
    ensures forall q :: q in r <==> q in qs && q in index && index[q].status in accepted
  {
    set q | q in qs && q in index && index[q].status in accepted
  }

  /** The ids of the tasks standing at the queue ids of `P`. */
  function TargetIds(index: map<int, DownloadTask>, P: set<int>): set<TaskId> {
    set q | q in P && q in index :: index[q].id
  }

  /**
   * The queue ids `resume_tasks` reports resumed: their task was PAUSED in
   * the listing and its download did not raise.
   */
  function Resumable(index: map<int, DownloadTask>, qs: set<int>, runOf: TaskId -> Run): (r: set<int>)
    ensures r <= Targets(index, qs, {Paused})
    ensures forall q :: q in r <==> q in qs && q in index && index[q].status == Paused && !runOf(index[q].id).raises
  {
    set q | q in qs && q in index && index[q].status == Paused && !runOf(index[q].id).raises
  }

  /** The status writes that make every task of `ids` PAUSED. */
  function PauseAt(ids: set<TaskId>): map<TaskId, TaskStatus> {
    map id | id in ids :: Paused
  }

  /** The pause flags raised for every task of `ids`. */
  function FlagsOn(ids: set<TaskId>): map<TaskId, bool> {
    map id | id in ids :: true
  }

  /**
   * The status `resume_task` leaves on a task it resumed, whether or not the
   * download raised: PAUSED only when a pause came after the execution
   * service's last write, DOWNLOADING otherwise; never COMPLETED.
   */
  function ResumedStatus(run: Run): (s: TaskStatus)
    ensures s == Paused <==> run.pause == PauseKept
    ensures s != Paused ==> s == Downloading
  {
    if run.pause == PauseKept then Paused else Downloading
  }

  /** The status writes of resuming every task of `ids`. */
  function ResumeAt(ids: set<TaskId>, runOf: TaskId -> Run): map<TaskId, TaskStatus> {
    map id | id in ids :: ResumedStatus(runOf(id))
  }

  /** The pause flags the resumed tasks are left with. */
  function ResumeFlags(ids: set<TaskId>, runOf: TaskId -> Run): map<TaskId, bool> {
    map id | id in ids :: PauseRan(runOf(id))
  }

  /** The queue listing's index, as the services build it from the store. */
  predicate Indexes(rows: Rows, index: map<int, DownloadTask>) {
    UniqueIds(rows) && index == OrderIndex(QueueList(rows))
  }

  /** A task of the index is a row of the table, found under its own id. */
  lemma IndexedRow(rows: Rows, index: map<int, DownloadTask>, q: int)
    requires Indexes(rows, index) && q in index
    ensures FindTask(rows, index[q].id) == Some(index[q])
  {
    ListedSameElements(rows);
    FindMember(rows, index[q]);
  }

  /**
   * The task at a queue id that has not been handled yet is still as the
   * listing showed it: the writes so far named only the tasks of other
   * queue ids, and two queue ids never index the same task.
   */
  lemma NotYetWritten(rows: Rows, index: map<int, DownloadTask>, P: set<int>, q: int, m: map<TaskId, TaskStatus>)
    requires Indexes(rows, index) && q in index && q !in P
    requires forall id | id in m :: id in TargetIds(index, P)
    ensures FindTask(Restatus(rows, m), index[q].id) == Some(index[q])
  {
    IndexedRow(rows, index, q);
    forall p | p in P && p in index ensures index[p].id != index[q].id {
      IndexedRow(rows, index, p);
    }
    FindRestatus(rows, m, index[q].id);
  }

  /** Handling one more queue id adds it to the targets exactly when its task has an accepted status. */
  lemma TargetsAdd(index: map<int, DownloadTask>, done: set<int>, q: int, accepted: set<TaskStatus>)
    ensures Targets(index, done + {q}, accepted) ==
      if q in index && index[q].status in accepted then Targets(index, done, accepted) + {q}
      else Targets(index, done, accepted)
  {
  }

  /** Handling one more queue id adds it to the resumed ones exactly when its task is resumed without error. */
  lemma ResumableAdd(index: map<int, DownloadTask>, done: set<int>, q: int, runOf: TaskId -> Run)
    ensures Resumable(index, done + {q}, runOf) ==
      if q in index && index[q].status == Paused && !runOf(index[q].id).raises then Resumable(index, done, runOf) + {q}
      else Resumable(index, done, runOf)
  {
  }

  /** One more handled queue id lands on exactly one side of the partition. */
  lemma PartitionAdd(done: set<int>, chosen: set<int>, q: int)
    requires q !in done && chosen <= done
    ensures (done + {q}) - (chosen + {q}) == done - chosen
    ensures (done + {q}) - chosen == (done - chosen) + {q}
  {
  }

  /** Handling one more queue id that is a target adds its task's id. */
  lemma TargetIdsAdd(index: map<int, DownloadTask>, P: set<int>, q: int)
    requires q in index
    ensures TargetIds(index, P + {q}) == TargetIds(index, P) + {index[q].id}
  {
  }

  /** The writes of one more pause extend those made so far. */
  lemma PauseAtAdd(rows: Rows, ids: set<TaskId>, id: TaskId, flags: map<TaskId, bool>)
    ensures SetStatus(Restatus(rows, PauseAt(ids)), id, Paused) == Restatus(rows, PauseAt(ids + {id}))
    ensures (flags + FlagsOn(ids))[id := true] == flags + FlagsOn(ids + {id})
  {
    RestatusTwice(rows, PauseAt(ids), map[id := Paused]);
    assert PauseAt(ids) + map[id := Paused] == PauseAt(ids + {id});
  }

  /** The writes of one more resume extend those made so far. */
  lemma ResumeAtAdd(rows: Rows, ids: set<TaskId>, id: TaskId, runOf: TaskId -> Run, flags: map<TaskId, bool>)
    ensures SetStatus(Restatus(rows, ResumeAt(ids, runOf)), id, ResumedStatus(runOf(id)))
      == Restatus(rows, ResumeAt(ids + {id}, runOf))
    ensures (flags + ResumeFlags(ids, runOf))[id := PauseRan(runOf(id))]
      == flags + ResumeFlags(ids + {id}, runOf)
  {
    RestatusTwice(rows, ResumeAt(ids, runOf), map[id := ResumedStatus(runOf(id))]);
    assert ResumeAt(ids, runOf) + map[id := ResumedStatus(runOf(id))] == ResumeAt(ids + {id}, runOf);
  }

  /**
   * After `pause_tasks`, every queue id reported paused names a task that is
   * now PAUSED, and a task of the index that was not targeted is as it was.
   */
  lemma PausedNowPaused(rows: Rows, index: map<int, DownloadTask>, P: set<int>, q: int)
    requires Indexes(rows, index) && q in index
    ensures var after := Restatus(rows, PauseAt(TargetIds(index, P)));
      && (q in P ==> FindTask(after, index[q].id) == Some(index[q].(status := Paused)))
      && (q !in P ==> FindTask(after, index[q].id) == Some(index[q]))
  {
    if q in P {
      IndexedRow(rows, index, q);
      FindRestatus(rows, PauseAt(TargetIds(index, P)), index[q].id);
    } else {
      NotYetWritten(rows, index, P, q, PauseAt(TargetIds(index, P)));
    }
  }

  /**
   * After `resume_tasks`, the task of every attempted queue id is
   * DOWNLOADING, or PAUSED when a pause came after the execution service's
   * last write, whether or not it was reported resumed: a download that
   * raises leaves its task as it was when it raised.
   * Every other task of the index is as the listing showed it.
   */
  lemma ResumedNow(rows: Rows, index: map<int, DownloadTask>, qs: set<int>, runOf: TaskId -> Run, q: int)
    requires Indexes(rows, index) && q in index
    ensures var P := Targets(index, qs, {Paused});
      var after := Restatus(rows, ResumeAt(TargetIds(index, P), runOf));
      && (q in P ==> FindTask(after, index[q].id) == Some(index[q].(status := ResumedStatus(runOf(index[q].id)))))
      && (q !in P ==> FindTask(after, index[q].id) == Some(index[q]))
  {
    var P := Targets(index, qs, {Paused});
    if q in P {
      IndexedRow(rows, index, q);
      FindRestatus(rows, ResumeAt(TargetIds(index, P), runOf), index[q].id);
    } else {
      NotYetWritten(rows, index, P, q, ResumeAt(TargetIds(index, P), runOf));
    }
  }

  // ---------------------------------------------------------------------------
  // The services
  // ---------------------------------------------------------------------------

  /** `PauseAllService`. */
  class PauseAllService {
    const repo: TaskStore
    const engine: DownloadEngine

    constructor (repo: TaskStore, engine: DownloadEngine)
      ensures this.repo == repo && this.engine == engine
    {
      this.repo := repo;
      this.engine := engine;
    }

    /**
     * `execute`: every task DOWNLOADING when the listing is taken is paused;
     * the count of successful pauses is returned. No pause can fail here, so
     * the count is the number of DOWNLOADING tasks.
     */
    method Execute() returns (count: nat)
      requires repo == engine.repo && repo.Valid()
      modifies engine, repo
      ensures repo.Valid() && repo.archive == old(repo.archive)
      ensures engine.running == old(engine.running) && engine.stopRequested == old(engine.stopRequested)
      ensures var D := Ids(Filter(old(repo.tasks), StatusIs(Downloading)));
        && count == |D|
        && repo.tasks == Restatus(old(repo.tasks), PauseMarks(D))
        && engine.pauseFlags == old(engine.pauseFlags) + FlagsUp(D)
    {
      var downloading := repo.List(Some(Downloading));
      DownloadingPausable(repo.tasks);
      count := PauseEach(downloading, repo.tasks);
    }

    /** The loop of `execute`: each listed task in turn is paused, an error being swallowed. */
    method PauseEach(downloading: Rows, ghost rows: Rows) returns (count: nat)
      requires repo == engine.repo && repo.Valid() && Pausable(rows, Ids(downloading))
      requires repo.tasks == rows
      modifies engine, repo
      ensures repo.Valid() && repo.archive == old(repo.archive)
      ensures engine.running == old(engine.running) && engine.stopRequested == old(engine.stopRequested)
      ensures count == |downloading|
      ensures repo.tasks == Restatus(rows, PauseMarks(Ids(downloading)))
      ensures engine.pauseFlags == old(engine.pauseFlags) + FlagsUp(Ids(downloading))
    {
      ghost var D := Ids(downloading);
      RestatusNothing(rows);
      assert D[..0] == [];
      count := 0;
      while count < |downloading|
        invariant count <= |downloading|
        invariant repo.Valid() && repo.archive == old(repo.archive)
        invariant engine.running == old(engine.running) && engine.stopRequested == old(engine.stopRequested)
        invariant repo.tasks == Restatus(rows, PauseMarks(D[..count]))
        invariant engine.pauseFlags == old(engine.pauseFlags) + FlagsUp(D[..count])
      {
        PauseExtends(rows, D, count, old(engine.pauseFlags));
        var ok := PauseOne(downloading[count].id, rows, D, count);
        if ok {
          count := count + 1;
        } else {
          assert false;
        }
      }
      assert D[..count] == D;
    }

    /** One turn of the loop: the task is paused, or the error swallowed. */
    method PauseOne(id: TaskId, ghost rows: Rows, ghost D: seq<TaskId>, ghost i: nat) returns (ok: bool)
      requires repo == engine.repo && repo.Valid() && Pausable(rows, D)
      requires i < |D| && id == D[i]
      requires repo.tasks == Restatus(rows, PauseMarks(D[..i]))
      modifies engine, repo
      ensures repo.Valid() && repo.archive == old(repo.archive)
      ensures engine.running == old(engine.running) && engine.stopRequested == old(engine.stopRequested)
      ensures ok
      ensures repo.tasks == Restatus(rows, PauseMarks(D[..i + 1]))
      ensures engine.pauseFlags == old(engine.pauseFlags)[id := true]
    {
      PauseAccepted(rows, D, i, PauseMarks(D[..i]));
      PauseExtends(rows, D, i, map[]);
      var r := engine.PauseTask(id);
      ok := r == Done;
    }
  }

  /** `PauseMultipleService`. */
  class PauseMultipleService {
    const repo: TaskStore
    const engine: DownloadEngine

    constructor (repo: TaskStore, engine: DownloadEngine)
      ensures this.repo == repo && this.engine == engine
    {
      this.repo := repo;
      this.engine := engine;
    }

    /**
     * `pause_tasks(queue_ids)`: each queue id is looked up in one listing
     * taken first. A queue id with no task, or whose task is neither
     * DOWNLOADING nor PENDING, is skipped. The others are handed to
     * `pause_task`, which rejects a PENDING task, so only DOWNLOADING tasks
     * end up paused. The set is walked in no particular order.
     */
    method PauseTasks(queueIds: set<int>) returns (paused: set<int>, skipped: set<int>)
      requires repo == engine.repo && repo.Valid()
      modifies engine, repo
      ensures repo.Valid() && repo.archive == old(repo.archive)
      ensures engine.running == old(engine.running) && engine.stopRequested == old(engine.stopRequested)
      ensures var index := OrderIndex(QueueList(old(repo.tasks)));
        && paused == Targets(index, queueIds, {Downloading})
        && skipped == queueIds - paused
        && repo.tasks == Restatus(old(repo.tasks), PauseAt(TargetIds(index, paused)))
        && engine.pauseFlags == old(engine.pauseFlags) + FlagsOn(TargetIds(index, paused))
    {
      var all := Listing(repo);
      var index := OrderIndex(all);
      paused, skipped := PauseEach(queueIds, index, repo.tasks);
    }

    /** The loop of `pause_tasks` over the queue ids, against the index taken first. */
    method PauseEach(queueIds: set<int>, index: map<int, DownloadTask>, ghost rows: Rows)
      returns (paused: set<int>, skipped: set<int>)
      requires repo == engine.repo && repo.Valid() && Indexes(rows, index) && repo.tasks == rows
      modifies engine, repo
      ensures repo.Valid() && repo.archive == old(repo.archive)
      ensures engine.running == old(engine.running) && engine.stopRequested == old(engine.stopRequested)
      ensures paused == Targets(index, queueIds, {Downloading})
      ensures skipped == queueIds - paused
      ensures repo.tasks == Restatus(rows, PauseAt(TargetIds(index, paused)))
      ensures engine.pauseFlags == old(engine.pauseFlags) + FlagsOn(TargetIds(index, paused))
    {
      paused, skipped := {}, {};
      var rest := queueIds;
      ghost var done: set<int> := {};
      RestatusNothing(rows);
      assert PauseAt({}) == map[] && FlagsOn({}) == map[];
      while rest != {}
        invariant done + rest == queueIds && done !! rest
        invariant paused == Targets(index, done, {Downloading}) && skipped == done - paused
        invariant repo.Valid() && repo.archive == old(repo.archive)
        invariant engine.running == old(engine.running) && engine.stopRequested == old(engine.stopRequested)
        invariant repo.tasks == Restatus(rows, PauseAt(TargetIds(index, paused)))
        invariant engine.pauseFlags == old(engine.pauseFlags) + FlagsOn(TargetIds(index, paused))
        decreases rest
      {
        var q := Pick(rest);
        paused, skipped := PauseQueued(q, index, paused, skipped, rows, done, old(engine.pauseFlags));
        rest := rest - {q};
        done := done + {q};
      }
    }

    /**
     * One turn of the loop of `pause_tasks`, for a queue id not handled
     * before: skipped when no task has it or its task was neither
     * DOWNLOADING nor PENDING; otherwise paused or, when `pause_task`
     * raises, skipped.
     */
    method PauseQueued(q: int, index: map<int, DownloadTask>, paused: set<int>, skipped: set<int>,
                       ghost rows: Rows, ghost done: set<int>, ghost flags: map<TaskId, bool>)
      returns (newPaused: set<int>, newSkipped: set<int>)
      requires repo == engine.repo && repo.Valid() && Indexes(rows, index) && q !in done
      requires paused == Targets(index, done, {Downloading}) && skipped == done - paused
      requires repo.tasks == Restatus(rows, PauseAt(TargetIds(index, paused)))
      requires engine.pauseFlags == flags + FlagsOn(TargetIds(index, paused))
      modifies engine, repo
      ensures repo.Valid() && repo.archive == old(repo.archive)
      ensures engine.running == old(engine.running) && engine.stopRequested == old(engine.stopRequested)
      ensures newPaused == Targets(index, done + {q}, {Downloading}) && newSkipped == (done + {q}) - newPaused
      ensures repo.tasks == Restatus(rows, PauseAt(TargetIds(index, newPaused)))
      ensures engine.pauseFlags == flags + FlagsOn(TargetIds(index, newPaused))
    {
      TargetsAdd(index, done, q, {Downloading});
      PartitionAdd(done, paused, q);
      newPaused, newSkipped := paused, skipped;
      if q !in index {
        newSkipped := skipped + {q};
        return;
      }
      var task := index[q];
      if task.status !in {Downloading, Pending} {
        newSkipped := skipped + {q};
        return;
      }
      NotYetWritten(rows, index, paused, q, PauseAt(TargetIds(index, paused)));
      TargetIdsAdd(index, paused, q);
      PauseAtAdd(rows, TargetIds(index, paused), task.id, flags);
      var r := engine.PauseTask(task.id);
      if r == Done {
        newPaused := paused + {q};
      } else {
        newSkipped := skipped + {q};
      }
    }
  }

  /** The next element of a set being walked; Python's set order is left open. */
  method Pick(s: set<int>) returns (q: int)
    requires s != {}
    ensures q in s
  {
    SomeMember(s);
    q :| q in s;
  }

  /** A set that is not empty has a member. */
  lemma SomeMember(s: set<int>)
    ensures s == {} || exists x :: x in s
  {
    if !(exists x :: x in s) {
      assert s == {};
    }
  }

  /** `list_by_queue_order`, taken once by a service. */
  method Listing(repo: TaskStore) returns (all: Rows)
    ensures all == QueueList(repo.tasks)
  {
    all := repo.ListByQueueOrder();
  }

  /** `ResumeMultipleService`. */
  class ResumeMultipleService {
    const repo: TaskStore
    const engine: DownloadEngine

    constructor (repo: TaskStore, engine: DownloadEngine)
      ensures this.repo == repo && this.engine == engine
    {
      this.repo := repo;
      this.engine := engine;
    }

    /**
     * `resume_tasks(queue_ids)`: each queue id is looked up in one listing
     * taken first. A queue id with no task, or whose task is not PAUSED, is
     * skipped. The others go through `resume_task`; one whose download raises
     * is skipped, although its status was already written. `runOf` gives
     * what happens during each resumed download. The set is walked in no
     * particular order.
     */
    method ResumeTasks(queueIds: set<int>, runOf: TaskId -> Run) returns (resumed: set<int>, skipped: set<int>)
      requires repo == engine.repo && repo.Valid()
      modifies engine, repo
      ensures repo.Valid() && repo.archive == old(repo.archive)
      ensures engine.running == old(engine.running) && engine.stopRequested == old(engine.stopRequested)
      ensures var index := OrderIndex(QueueList(old(repo.tasks)));
        var attempted := TargetIds(index, Targets(index, queueIds, {Paused}));
        && resumed == Resumable(index, queueIds, runOf)
        && skipped == queueIds - resumed
        && repo.tasks == Restatus(old(repo.tasks), ResumeAt(attempted, runOf))
        && engine.pauseFlags == old(engine.pauseFlags) + ResumeFlags(attempted, runOf)
    {
      var all := Listing(repo);
      var index := OrderIndex(all);
      resumed, skipped := ResumeEach(queueIds, runOf, index, repo.tasks);
    }

    /** The loop of `resume_tasks` over the queue ids, against the index taken first. */
    method ResumeEach(queueIds: set<int>, runOf: TaskId -> Run, index: map<int, DownloadTask>, ghost rows: Rows)
      returns (resumed: set<int>, skipped: set<int>)
      requires repo == engine.repo && repo.Valid() && Indexes(rows, index) && repo.tasks == rows
      modifies engine, repo
      ensures repo.Valid() && repo.archive == old(repo.archive)
      ensures engine.running == old(engine.running) && engine.stopRequested == old(engine.stopRequested)
      ensures resumed == Resumable(index, queueIds, runOf) && skipped == queueIds - resumed
      ensures repo.tasks == Restatus(rows, ResumeAt(TargetIds(index, Targets(index, queueIds, {Paused})), runOf))
      ensures engine.pauseFlags == old(engine.pauseFlags) + ResumeFlags(TargetIds(index, Targets(index, queueIds, {Paused})), runOf)
    {
      resumed, skipped := {}, {};
      var rest := queueIds;
      ghost var done: set<int> := {};
      RestatusNothing(rows);
      assert ResumeAt({}, runOf) == map[] && ResumeFlags({}, runOf) == map[];
      assert TargetIds(index, Targets(index, done, {Paused})) == {};
      while rest != {}
        invariant done + rest == queueIds && done !! rest
        invariant resumed == Resumable(index, done, runOf) && skipped == done - resumed
        invariant repo.Valid() && repo.archive == old(repo.archive)
        invariant engine.running == old(engine.running) && engine.stopRequested == old(engine.stopRequested)
        invariant repo.tasks == Restatus(rows, ResumeAt(TargetIds(index, Targets(index, done, {Paused})), runOf))
        invariant engine.pauseFlags == old(engine.pauseFlags) + ResumeFlags(TargetIds(index, Targets(index, done, {Paused})), runOf)
        decreases rest
      {
        var q := Pick(rest);
        resumed, skipped := ResumeQueued(q, runOf, index, resumed, skipped, rows, done, old(engine.pauseFlags));
        rest := rest - {q};
        done := done + {q};
      }
    }

    /**
     * One turn of the loop of `resume_tasks`, for a queue id not handled
     * before: skipped when no task has it or its task was not PAUSED;
     * otherwise resumed or, when `resume_task` raises, skipped.
     */
    method ResumeQueued(q: int, runOf: TaskId -> Run, index: map<int, DownloadTask>,
                        resumed: set<int>, skipped: set<int>,
                        ghost rows: Rows, ghost done: set<int>, ghost flags: map<TaskId, bool>)
      returns (newResumed: set<int>, newSkipped: set<int>)
      requires repo == engine.repo && repo.Valid() && Indexes(rows, index) && q !in done
      requires resumed == Resumable(index, done, runOf) && skipped == done - resumed
      requires repo.tasks == Restatus(rows, ResumeAt(TargetIds(index, Targets(index, done, {Paused})), runOf))
      requires engine.pauseFlags == flags + ResumeFlags(TargetIds(index, Targets(index, done, {Paused})), runOf)
      modifies engine, repo
      ensures repo.Valid() && repo.archive == old(repo.archive)
      ensures engine.running == old(engine.running) && engine.stopRequested == old(engine.stopRequested)
      ensures newResumed == Resumable(index, done + {q}, runOf) && newSkipped == (done + {q}) - newResumed
      ensures repo.tasks == Restatus(rows, ResumeAt(TargetIds(index, Targets(index, done + {q}, {Paused})), runOf))
      ensures engine.pauseFlags == flags + ResumeFlags(TargetIds(index, Targets(index, done + {q}, {Paused})), runOf)
    {
      ghost var P := Targets(index, done, {Paused});
      TargetsAdd(index, done, q, {Paused});
      ResumableAdd(index, done, q, runOf);
      PartitionAdd(done, resumed, q);
      newResumed, newSkipped := resumed, skipped;
      if q !in index {
        newSkipped := skipped + {q};
        return;
      }
      var task := index[q];
      if task.status != Paused {
        newSkipped := skipped + {q};
        return;
      }
      NotYetWritten(rows, index, P, q, ResumeAt(TargetIds(index, P), runOf));
      TargetIdsAdd(index, P, q);
      ResumeAtAdd(rows, TargetIds(index, P), task.id, runOf, flags);
      var r := engine.ResumeTask(task.id, runOf(task.id));
      if r == Done {
        newResumed := resumed + {q};
      } else {
        newSkipped := skipped + {q};
      }
    }
  }

  /** `ExecuteTaskByQueueService`. */
  class ExecuteTaskByQueueService {
    const repo: TaskStore
    const engine: DownloadEngine

    constructor (repo: TaskStore, engine: DownloadEngine)
      ensures this.repo == repo && this.engine == engine
    {
      this.repo := repo;
      this.engine := engine;
    }

    /**
     * `execute(queue_id)`: a queue id no task holds is a ValueError and
     * nothing changes; otherwise the task found there is handed to
     * `execute_task`, whose checks and errors apply unchanged.
     */
    method Execute(q: int, run: Run, raises: Listener -> bool) returns (r: Outcome)
      requires repo == engine.repo && repo.Valid()
      modifies engine, repo
      ensures repo.Valid() && repo.archive == old(repo.archive)
      ensures engine.running == old(engine.running) && engine.stopRequested == old(engine.stopRequested)
      ensures UuidFromQueueId(old(repo.tasks), q).None? ==>
        r == Raised(NotFound) && repo.tasks == old(repo.tasks) && engine.pauseFlags == old(engine.pauseFlags)
      ensures UuidFromQueueId(old(repo.tasks), q).Some? ==>
        var id := UuidFromQueueId(old(repo.tasks), q).value;
        var s := FinalStatus(run, engine.NotifyRaises(raises));
        if Guard(old(repo.tasks), id, {Pending, Paused}).Err? then
          && r == Raised(InvalidState)
          && repo.tasks == old(repo.tasks) && engine.pauseFlags == old(engine.pauseFlags)
        else
          && repo.tasks == SetStatus(old(repo.tasks), id, s)
          && engine.pauseFlags == old(engine.pauseFlags)[id := PauseRan(run)]
          && (r == Done <==> s != Failed)
          && (r != Done ==> r == Raised(ForeignError))
    {
      var id := UuidFromQueueId(repo.tasks, q);
      if id.None? {
        return Raised(NotFound);
      }
      var notified;
      r, notified := engine.ExecuteTask(id.value, run, raises);
    }
  }
}
