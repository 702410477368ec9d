# A verified model of the dm_pro download manager core

This project models, in Dafny, the core of a command-line download manager
written in Python. The manager keeps a queue of download tasks in SQLite.
Each task has an id, a URL, a status (PENDING, DOWNLOADING, PAUSED,
COMPLETED, FAILED), a byte count, an optional total, two capability flags and
a queue position. Finished tasks move to an archive table.

The model covers these parts of the program:

- **Task store.** The repository's add, update, get, list, delete and
  queue-order repairs (`_fix_queue_order`, `normalize_queue_order`,
  `swap_queue_orders`), and the archive table. The store is a class whose
  `tasks` and `archive` fields are sequences of rows, and each method is
  proved against a function on those rows.
- **Use cases.** Queue moves and swaps, adding and removing tasks by id or
  by queue position, listing, starting, pausing and resuming several tasks,
  archiving and cloning, and the parsing of the command's task arguments.
- **Engine.** `DownloadEngine`: the pause flags, `pause_task`,
  `resume_task`, `execute_task` with its listener notifications, the
  worker-loop step, and `execute_pending_downloads`.
- **Downloads.**
  - The execution service's guards and its regular and HLS runs, over an
    abstract HTTP transfer.
  - The `.part` file writer, over a directory modelled as a map from names
    to bytes.
  - The HTTP downloader's header decisions and its chunk loop.
- **HLS.** The m3u8 parser, the variant helpers, the segment downloader and
  the conversion of an HLS result into a grabber result.
- **Grabbing and discovery.** URL normalization and typing, the handler
  dispatch, the three handlers, the link classifier, the link filter and the
  content filters of page discovery.
- **Progress.** Snapshots with their clamps, percentage and ETA text; the
  mutable progress state; the aggregator over several tasks.

Network answers, file-system reads, the clock and listener outcomes are
parameters of the model. For example, a download's outcome is a `Run` value:
whether `pause_task` ran during it and, if so, whether the execution
service wrote its own DOWNLOADING copy of the task after the pause, and
whether it raises. A HEAD answer is a header
map or a failure.

## Model

| member | source | states |
|---|---|---|
| Tasks.Create | src/domain/entities/download_task.py:17-26 | a created task is PENDING with the given url, no progress, resumable, not yet checked, at placeholder position 0 |
| QueueOrder.FindTask | src/infrastructure/persistence/sqlite_repository.py:82-97 | `get` finds a row exactly when one has the id, and the row found has that id |
| QueueOrder.ListedSameElements | src/infrastructure/persistence/sqlite_repository.py:205-223 | `list_by_queue_order` lists every row of the table, each as often as it is stored, and nothing else |
| QueueOrder.SortBySorted | src/infrastructure/persistence/sqlite_repository.py:207 | `ORDER BY queue_order` leaves the positions non-decreasing |
| QueueOrder.SortByPermutes | src/infrastructure/persistence/sqlite_repository.py:207 | `ORDER BY` only rearranges the rows |
| QueueOrder.DistinctOrdersListed | src/infrastructure/persistence/sqlite_repository.py:205-223 | with distinct positions the listing is strictly increasing in position |
| QueueOrder.QueueListCharacterized | src/infrastructure/persistence/sqlite_repository.py:205-223 | with distinct positions the listing is the one strictly increasing arrangement of the rows |
| QueueOrder.DenseListed | src/infrastructure/persistence/sqlite_repository.py:205-223 | in a queue holding positions 1..n, the task listed at index i holds position i + 1 |
| QueueOrder.DenseCharacterized | src/infrastructure/persistence/sqlite_repository.py:205-223 | a dense queue is listed by the one arrangement whose index i holds position i + 1 |
| QueueOrder.NormalizedDense | src/infrastructure/persistence/sqlite_repository.py:192-203 | after `normalize_queue_order` the positions are exactly 1..n and the ids and primary key are untouched |
| QueueOrder.NormalizedListing | src/infrastructure/persistence/sqlite_repository.py:192-203 | the renumbered queue lists the same tasks in the same order, at positions 1..n |
| QueueOrder.NormalizedKeepsOrder | src/infrastructure/persistence/sqlite_repository.py:192-203 | renumbering keeps the order in which the queue lists the tasks |
| QueueOrder.NormalizedOnDense | src/infrastructure/persistence/sqlite_repository.py:192-203 | renumbering a dense queue changes nothing |
| QueueOrder.ListedFilter | src/infrastructure/persistence/sqlite_repository.py:99-119 | with distinct positions, selecting by status and then ordering lists the same tasks as ordering and then selecting |
| TaskTable.UpdateRows | src/infrastructure/persistence/sqlite_repository.py:75-80 | `update` keeps the ids and the url column, and leaves every row with another id unchanged |
| TaskTable.GetAfterUpdate | src/infrastructure/persistence/sqlite_repository.py:75-97 | `get` after `update` returns the written fields with the stored url; an unknown id stays unknown; other ids read as before |
| TaskTable.UpdateStored | src/infrastructure/persistence/sqlite_repository.py:75-80 | writing back a row exactly as read changes nothing |
| TaskTable.UpdateTwice | src/infrastructure/persistence/sqlite_repository.py:75-80 | of two updates of the same task only the second shows |
| TaskTable.IndexOfOrder | src/infrastructure/persistence/sqlite_repository.py:157-159 | the row fetched for a position is the first inserted row at that position, and none exists exactly when no row holds it |
| TaskTable.TaskAtOrder | src/infrastructure/persistence/sqlite_repository.py:157-173 | `get_by_queue_order` returns a row at that position, and None exactly when no row holds it |
| TaskTable.SwapOrders | src/infrastructure/persistence/sqlite_repository.py:175-190 | `swap_queue_orders` fails with a ValueError exactly when a position is held by no row |
| TaskTable.SwapExchanges | src/infrastructure/persistence/sqlite_repository.py:175-190 | a successful swap exchanges exactly the two rows' positions and touches no other row |
| TaskTable.SwapInverse | src/infrastructure/persistence/sqlite_repository.py:175-190 | swapping back restores the table when the positions are distinct |
| TaskTable.SwapKeepsDense | src/infrastructure/persistence/sqlite_repository.py:175-190 | a swap keeps a dense queue dense and keeps the primary key |
| TaskTable.SwapSame | src/infrastructure/persistence/sqlite_repository.py:175-190 | swapping a position with itself changes nothing |
| TaskTable.WithoutId | src/infrastructure/persistence/sqlite_repository.py:122 | `DELETE ... WHERE id=?` keeps exactly the rows with another id |
| TaskTable.WithoutUnknownId | src/infrastructure/persistence/sqlite_repository.py:122 | deleting an id no row has changes nothing |
| TaskTable.WithoutPresentId | src/infrastructure/persistence/sqlite_repository.py:122 | with unique ids, deleting row k's id removes exactly that row |
| TaskTable.MaxPositiveOrder | src/infrastructure/persistence/sqlite_repository.py:136-137 | the largest positive position, 0 when there is none |
| TaskTable.FixZeroOrders | src/infrastructure/persistence/sqlite_repository.py:128-144 | `_fix_queue_order` changes only positions, only of rows at 0, and leaves no row at 0 |
| TaskTable.FixZeroNumbering | src/infrastructure/persistence/sqlite_repository.py:136-142 | the placeholder rows take positions max+1 .. max+k, increasing with the id |
| TaskTable.FixZeroPositive | src/infrastructure/persistence/sqlite_repository.py:128-144 | without negative positions every row is positive afterwards |
| TaskTable.FixZeroWithoutZeros | src/infrastructure/persistence/sqlite_repository.py:131-134 | with no placeholder row the fix changes nothing |
| TaskTable.DeleteRows | src/infrastructure/persistence/sqlite_repository.py:121-126 | `delete` leaves no row with the id |
| TaskTable.MaxOrder | src/infrastructure/persistence/sqlite_repository.py:65-66 | `MAX(queue_order)` bounds every position and is held by some row |
| TaskTable.Placed | src/infrastructure/persistence/sqlite_repository.py:61-67 | `add` replaces only a placeholder position, by one above every stored position |
| TaskTable.AddRows | src/infrastructure/persistence/sqlite_repository.py:61-73 | `add` fails with an integrity error exactly when the id is present, else appends the placed record |
| TaskTable.AddKeepsUniqueIds | src/infrastructure/persistence/sqlite_repository.py:61-73 | adding keeps the primary key |
| TaskTable.DenseMax | src/infrastructure/persistence/sqlite_repository.py:65-67 | in a dense queue the largest position is the number of tasks |
| TaskTable.AddAtEnd | src/infrastructure/persistence/sqlite_repository.py:61-73 | adding to a dense queue appends at position n + 1, keeps it dense and lists the new task last |
| TaskTable.ArchiveRows | src/infrastructure/persistence/sqlite_repository.py:225-245 | `archive_task` fails exactly when the id is unknown (ValueError) or already archived (primary key) |
| TaskTable.ArchiveMoves | src/infrastructure/persistence/sqlite_repository.py:225-245 | a successful archive moves the row unchanged from `tasks` to `archive` and keeps the other tasks |
| TaskTable.ArchiveLeavesGap | src/infrastructure/persistence/sqlite_repository.py:225-245 | archiving the task at position 1 of [1, 2] leaves a queue that is not dense |
| TaskTable.Reverse | src/infrastructure/persistence/sqlite_repository.py:247-266 | `list_archive` lists the archive latest first |
| Repository.TaskStore.Add | src/infrastructure/persistence/sqlite_repository.py:61-73 | `add` writes the placed row unless the id is taken, in which case the table is unchanged and the error returned |
| Repository.TaskStore.Update | src/infrastructure/persistence/sqlite_repository.py:75-80 | `update` rewrites the mutable columns of the row with the task's id and nothing else |
| Repository.TaskStore.Get | src/infrastructure/persistence/sqlite_repository.py:82-97 | `get` returns a stored task with the id exactly when one exists |
| Repository.TaskStore.List | src/infrastructure/persistence/sqlite_repository.py:99-119 | `list` returns exactly the tasks with the given status, or all of them |
| Repository.TaskStore.Delete | src/infrastructure/persistence/sqlite_repository.py:121-126 | `delete` removes the row and then fixes placeholder positions |
| Repository.TaskStore.FixQueueOrder | src/infrastructure/persistence/sqlite_repository.py:128-144 | the `_fix_queue_order` loop leaves the table `FixZeroOrders` describes |
| Repository.TaskStore.NormalizeQueueOrder | src/infrastructure/persistence/sqlite_repository.py:192-203 | the `normalize_queue_order` loop leaves the table `Normalized` describes |
| Repository.TaskStore.GetByQueueOrder | src/infrastructure/persistence/sqlite_repository.py:157-173 | `get_by_queue_order` returns a task at the position, None exactly when no row holds it |
| Repository.TaskStore.SwapQueueOrders | src/infrastructure/persistence/sqlite_repository.py:175-190 | a swap of two held positions writes both rows; a missing position raises before any write |
| Repository.TaskStore.ListByQueueOrder | src/infrastructure/persistence/sqlite_repository.py:205-223 | the listing holds every task once per row, in ascending position |
| Repository.TaskStore.ArchiveTask | src/infrastructure/persistence/sqlite_repository.py:225-245 | a successful archive moves the row; an unknown or already archived id raises and changes nothing |
| Repository.TaskStore.ListArchive | src/infrastructure/persistence/sqlite_repository.py:247-266 | the archive is listed latest first |
| Repository.TaskStore.GetFromArchive | src/infrastructure/persistence/sqlite_repository.py:268-284 | `get_from_archive` returns an archived task with the id exactly when one exists |
| Repository.TaskStore.Renumber | src/infrastructure/persistence/sqlite_repository.py:141-142 | the `UPDATE` loop gives the task of `listed[i]` position `base + 1 + i` |
| Repository.FixDone | src/infrastructure/persistence/sqlite_repository.py:136-142 | renumbering the placeholder rows in id order after the maximum is exactly `_fix_queue_order`'s result |
| Repository.NormalizeDone | src/infrastructure/persistence/sqlite_repository.py:195-201 | renumbering every task in queue order from 1 is exactly `Normalized` |
| Repository.ArchiveKeepsUniqueIds | src/infrastructure/persistence/sqlite_repository.py:225-245 | archiving keeps the id the primary key of both tables |
| Archiving.ArchiveFinished | src/application/use_cases/archive_service.py:10-22 | `archive_task` raises NotFound exactly for an unknown id, InvalidState exactly for a task neither COMPLETED nor FAILED, and succeeds exactly for a finished task not yet archived |
| Archiving.ArchiveFinishedMoves | src/application/use_cases/archive_service.py:10-22 | a successful archive removes exactly that task from the queue and appends it unchanged to the archive |
| Archiving.ArchiveKeepsListing | src/application/use_cases/archive_service.py:10-22 | with distinct positions the queue listing after an archive is the old listing without the task, still ascending |
| Archiving.ArchiveThenMoveDownRefused | src/application/use_cases/archive_service.py:22 | archiving a from a@1, b@2, c@3 leaves b@2, c@3, where `move_down(2)` is refused although c is below b |
| Archiving.ArchiveRenumberedDense | src/application/use_cases/archive_service.py:10-22 | archiving followed by renumbering leaves a dense queue in the same order where every task but the last can move down |
| Archiving.CloneOf | src/application/use_cases/archive_service.py:30-48 | `clone_from_archive` fails with NotFound exactly for an unknown archived id, else yields a fresh task for the archived url |
| Archiving.CloneAppends | src/application/use_cases/archive_service.py:30-48 | on a dense queue a clone starts over as PENDING with nothing downloaded and is appended at position n + 1 |
| Archiving.ArchiveService.ArchiveTask | src/application/use_cases/archive_service.py:10-22 | the store afterwards is `ArchiveFinished`'s result, or unchanged with its error raised |
| Archiving.ArchiveService.ListArchive | src/application/use_cases/archive_service.py:24-28 | the archived tasks, most recently archived first |
| Archiving.ArchiveService.CloneFromArchive | src/application/use_cases/archive_service.py:30-48 | the clone is added to the queue, the archive is untouched, and an unknown archived id changes nothing |
| Archiving.ArchiveTaskListener.OnTaskFinished | src/application/events/archive_task_listener.py:13-20 | a task reported COMPLETED or FAILED is archived with any failure swallowed; other statuses change nothing |
| QueueIds.Listed | src/application/use_cases/list_tasks_service.py:13-28 | `ListTasksService.execute` lists exactly the tasks with the status, or all |
| QueueIds.ListedSorted | src/application/use_cases/list_tasks_service.py:13-28 | every listing is in ascending queue order |
| QueueIds.ListedStatusSubsequence | src/application/use_cases/list_tasks_service.py:20-23 | the listing for one status keeps the tasks of the full listing in their order |
| QueueIds.ListedIsOrderedSelection | src/application/use_cases/list_tasks_service.py:20-23 | with distinct positions the status listing is the `WHERE status=?` selection put in queue order |
| QueueIds.ExecuteWithQueueIds | src/application/use_cases/list_tasks_service.py:30-47 | each listed task paired with its own position, in listing order, so the queue ids ascend |
| QueueIds.QueueIdMapAt | src/application/mapping/queue_id_translator.py:16-30 | a queue id is a key exactly when positive and held by a listed task, and maps to the last such task |
| QueueIds.QueueIdMapDistinct | src/application/mapping/queue_id_translator.py:16-30 | with distinct positions every positively placed task is found under its own position |
| QueueIds.GetAllTasksWithQueueIds | src/application/mapping/queue_id_translator.py:16-30 | the loop builds the position-to-id dictionary of the listing |
| QueueIds.UuidFromQueueId | src/application/mapping/queue_id_translator.py:32-39 | the id of a task at the position, None exactly when no task holds it |
| QueueIds.QueueIdFromUuid | src/application/mapping/queue_id_translator.py:41-49 | the stored position of the task with the id, None exactly when the id is unknown |
| QueueIds.IdRoundTrip | src/application/mapping/queue_id_translator.py:32-49 | id to queue id to id gives back a task whose position no other task shares |
| QueueIds.QueueIdRoundTrip | src/application/mapping/queue_id_translator.py:32-49 | queue id to id to queue id gives back the position, with unique ids |
| QueueIds.QueueIdMapTranslates | src/application/mapping/queue_id_translator.py:16-39 | with distinct positions, the dictionary and the single translation agree on every positive queue id |
| QueueManagement.SwapAndRenumberDense | src/application/use_cases/queue_management_service.py:17-19 | swap-then-normalize fails exactly when a position is unheld (NotFound); otherwise keeps every task and leaves positions 1..n |
| QueueManagement.MoveUpKeepsDense | src/application/use_cases/queue_management_service.py:9-19 | a successful `move_up` keeps the tasks and leaves positions 1..n |
| QueueManagement.MoveDownKeepsDense | src/application/use_cases/queue_management_service.py:21-35 | a successful `move_down` keeps the tasks and leaves positions 1..n |
| QueueManagement.SwapKeepsDenseQueue | src/application/use_cases/queue_management_service.py:37-53 | a successful `swap` on a dense queue keeps the tasks and positions 1..n |
| QueueManagement.DenseSwapListing | src/infrastructure/persistence/sqlite_repository.py:175-190 | on a dense queue, swapping two positions in 1..n succeeds and exchanges exactly those two entries of the listing |
| QueueManagement.DenseSwapAndRenumber | src/application/use_cases/queue_management_service.py:51-53 | on a dense queue swap-and-renumber exchanges the two entries of the listing |
| QueueManagement.MoveUpExchanges | src/application/use_cases/queue_management_service.py:9-19 | on a dense queue `move_up(k)` for 2 <= k <= n exchanges the k-th and (k-1)-th tasks |
| QueueManagement.MoveDownExchanges | src/application/use_cases/queue_management_service.py:21-35 | on a dense queue `move_down(k)` for 1 <= k < n exchanges the k-th and (k+1)-th tasks |
| QueueManagement.SwapListing | src/application/use_cases/queue_management_service.py:37-53 | on a dense queue `swap(a, b)` in 1..n exchanges those two tasks |
| QueueManagement.MoveDownThenUp | src/application/use_cases/queue_management_service.py:9-35 | on a dense queue moving a task down and then up again restores the queue |
| QueueManagement.DenseSwapBack | src/application/use_cases/queue_management_service.py:37-53 | on a dense queue swapping back restores the table |
| QueueManagement.QueueManagementService.MoveUp | src/application/use_cases/queue_management_service.py:9-19 | the store afterwards is `MoveUpRows`'s result, or unchanged with the error raised |
| QueueManagement.QueueManagementService.MoveDown | src/application/use_cases/queue_management_service.py:21-35 | the store afterwards is `MoveDownRows`'s result, or unchanged with the error raised |
| QueueManagement.QueueManagementService.Swap | src/application/use_cases/queue_management_service.py:37-53 | the store afterwards is `SwapRows`'s result, or unchanged with the error raised |
| TaskControl.DownloadingPausable | src/application/use_cases/pause_all_service.py:16-26 | the DOWNLOADING tasks `execute` walks can be paused one after the other |
| TaskControl.PauseAllEffect | src/application/use_cases/pause_all_service.py:11-28 | after pausing all, the tasks that were DOWNLOADING are PAUSED, every other row is unchanged, and none is DOWNLOADING |
| TaskControl.PauseAllService.Execute | src/application/use_cases/pause_all_service.py:11-28 | every listed DOWNLOADING task is paused and flagged, and the count returned is their number |
| TaskControl.OrderIndex | src/application/use_cases/pause_multiple_service.py:24-25 | the dictionary maps each position to a listed task holding it, and every listed position is a key |
| TaskControl.Targets | src/application/use_cases/pause_multiple_service.py:30-45 | a queue id is a target exactly when asked for and its listed task has an accepted status |
| TaskControl.Resumable | src/application/use_cases/resume_multiple_service.py:30-49 | a queue id is reported resumed exactly when its listed task was PAUSED and its download did not raise |
| TaskControl.ResumedStatus | src/application/engine/download_engine.py:110-131 | a resumed task is left PAUSED exactly when a pause came after the execution service's last write, DOWNLOADING otherwise, never COMPLETED |
| TaskControl.PausedNowPaused | src/application/use_cases/pause_multiple_service.py:14-50 | every queue id reported paused names a task now PAUSED; a task not targeted is unchanged |
| TaskControl.ResumedNow | src/application/use_cases/resume_multiple_service.py:14-51 | every attempted task is DOWNLOADING, or PAUSED when a pause outlived the service's writes, even when its download raised; other tasks are unchanged |
| TaskControl.PauseMultipleService.PauseTasks | src/application/use_cases/pause_multiple_service.py:14-50 | paused is the set of queue ids whose listed task was DOWNLOADING, skipped is the rest, and exactly those tasks are written PAUSED and flagged |
| TaskControl.ResumeMultipleService.ResumeTasks | src/application/use_cases/resume_multiple_service.py:14-51 | resumed is `Resumable`, skipped the rest, every attempted task carries its `ResumedStatus` and its flag is up exactly when a pause ran during its download |
| TaskControl.ExecuteTaskByQueueService.Execute | src/application/use_cases/execute_task_by_queue_service.py:13-30 | an unheld queue id raises NotFound and changes nothing; otherwise the held task goes through `execute_task`, ending with `FinalStatus` and its flag up exactly when a pause ran |
| TaskServices.AddTaskAppends | src/application/use_cases/add_task_service.py:9-22 | on a dense queue the created PENDING task is appended at n + 1 after the unchanged rows and listed last |
| TaskServices.AddTaskService.Execute | src/application/use_cases/add_task_service.py:9-22 | a taken id fails on the primary key and adds nothing; otherwise the placed task is appended and returned |
| TaskServices.RemoveTaskDense | src/application/use_cases/remove_task_service.py:10-19 | removing a task leaves the others numbered 1..n with the primary key |
| TaskServices.RemoveTaskKeepsFields | src/application/use_cases/remove_task_service.py:10-19 | removing changes nothing in the other rows but their positions |
| TaskServices.RemoveTaskCount | src/application/use_cases/remove_task_service.py:10-19 | with unique ids removing a present task leaves one row fewer |
| TaskServices.RemoveTaskKeepsOrder | src/application/use_cases/remove_task_service.py:10-19 | on a dense queue the remaining tasks keep their relative order |
| TaskServices.RemoveUnknownTask | src/application/use_cases/remove_task_service.py:10-19 | removing an unknown id still numbers placeholder rows and renumbers; a dense queue is left as it was |
| TaskServices.RemoveTaskService.Execute | src/application/use_cases/remove_task_service.py:10-19 | the store afterwards is `RemoveRows`'s result |
| TaskServices.RemoveByQueueDense | src/application/use_cases/remove_task_by_queue_service.py:12-25 | on a dense queue removal by queue id fails exactly outside 1..n, else removes the task listed there and keeps the others dense and in order |
| TaskServices.RemoveListedTask | src/application/use_cases/remove_task_by_queue_service.py:20-25 | the task listed at index q-1 of a dense queue is the one removed |
| TaskServices.RemoveTaskByQueueService.Execute | src/application/use_cases/remove_task_by_queue_service.py:12-25 | an unheld queue id raises NotFound and changes nothing; otherwise the store is `RemoveByQueueRows`'s result |
| TaskServices.StartTask | src/application/use_cases/start_task_service.py:10-31 | NotFound exactly for an unknown id, InvalidState exactly for a status other than PENDING or PAUSED, else the stored task |
| TaskServices.StartTaskReturnsRow | src/application/use_cases/start_task_service.py:10-31 | with unique ids starting a row's id returns that row exactly when its status allows |
| TaskServices.StartByQueue | src/application/use_cases/start_task_by_queue_service.py:12-38 | NotFound exactly for an unheld position; a result is a stored PENDING task at that position |
| TaskServices.StartByQueueAgrees | src/application/use_cases/start_task_by_queue_service.py:33-34 | by queue id agrees with by id, except that a PAUSED task is refused by queue id |
| TargetParser.ParseTaskTargets | src/application/use_cases/task_target_parser.py:4-46 | the loop returns `Targets(args)`, which is empty for no arguments or with `--all` |
| TargetParser.ParseArg | src/application/use_cases/task_target_parser.py:24-44 | one argument adds exactly its contribution, nothing when `int()` raises |
| TargetParser.TargetsMembers | src/application/use_cases/task_target_parser.py:15-46 | a queue id is returned exactly when `--all` is absent and some argument contributes it |
| TargetParser.TargetsOrderFree | src/application/use_cases/task_target_parser.py:23-46 | arguments in another order, or repeated, give the same queue ids |
| TargetParser.RangeArg | src/application/use_cases/task_target_parser.py:24-34 | `a-b` with non-negative a names every integer between a and b, whichever is larger |
| TargetParser.PlainArg | src/application/use_cases/task_target_parser.py:38-41 | a non-negative integer alone names itself |
| TargetParser.NegativeArgSkipped | src/application/use_cases/task_target_parser.py:24-37 | `-3` splits into an empty start that `int()` rejects, so it names nothing |
| TaskEvents.RemoveFirstCount | src/application/events/task_events.py:23-26 | removing takes out one copy of a registered listener, and leaves the list alone otherwise |
| TaskEvents.AddThenRemove | src/application/events/task_events.py:19-26 | adding a listener not registered before and removing it restores the list |
| TaskEvents.CallsPrefix | src/application/events/task_events.py:28-31 | the listeners called are a prefix of the list, only the last may raise, and all are called in order exactly when none raises |
| TaskEvents.TaskEventManager.AddListener | src/application/events/task_events.py:19-21 | the listener is appended, even when already registered |
| TaskEvents.TaskEventManager.RemoveListener | src/application/events/task_events.py:23-26 | the first registration of the listener goes; an unregistered one is ignored |
| TaskEvents.TaskEventManager.NotifyTaskFinished | src/application/events/task_events.py:28-31 | the calls made are `Calls`, and the notice returns normally exactly when no listener raises |
| Engine.RestatusTwice | src/application/engine/download_engine.py:151-152 | two rounds of status writes are one round, the later write winning |
| Engine.FindRestatus | src/application/engine/download_engine.py:165 | a task read back after status writes is the same row, with its new status when written |
| Engine.WriteBackStatus | src/application/engine/download_engine.py:151-152 | setting the status of the row `get` returned and `update`-ing it writes that status and nothing else |
| Engine.Guard | src/application/engine/download_engine.py:139-145 | NotFound exactly for an unknown id, InvalidState exactly for a status not accepted, else the stored task |
| Engine.FinalStatus | src/application/engine/download_engine.py:162-189 | the task ends PAUSED exactly when a pause ran after the service's last write and nothing raised, COMPLETED when no such pause and nothing raised (even when an overwritten pause raised the flag), else FAILED |
| Engine.Notices | src/application/engine/download_engine.py:171-188 | the notices are the task as COMPLETED and/or FAILED, two exactly when a listener raised on the COMPLETED one, none exactly when the task ends PAUSED, the last with the final status |
| Engine.FinishedTaskArchived | src/application/events/archive_task_listener.py:13-20 | with the archive listener alone, the one notice moves the task with its final status from the queue to the end of the archive |
| Engine.OverwrittenPauseArchived | src/application/engine/download_engine.py:162-177 | a download whose pause the service overwrote has its flag up, yet ends COMPLETED, is announced as COMPLETED and is moved to the archive |
| Engine.IntendedFinalStatus | src/application/engine/download_engine.py:162-170 | the intended status: PAUSED exactly when a pause ran and nothing raised, COMPLETED exactly when no pause ran and nothing raised |
| Engine.IntendedDiffersOnOverwrite | src/application/engine/download_engine.py:162-189 | the intended and the written status differ exactly when a pause was overwritten and the download did not raise |
| Engine.PauseResumeRestores | src/application/engine/download_engine.py:89-128 | a paused task can be resumed, and the resume's DOWNLOADING write restores the table before the pause |
| Engine.FirstPendingEarliest | src/application/engine/download_engine.py:61-68 | the task the loop picks is PENDING with no PENDING task before it, and none is picked only when no task is PENDING |
| Engine.AttemptedCovers | src/application/engine/download_engine.py:197-216 | a task is attempted exactly when it is PENDING or PAUSED in the listing |
| Engine.AttemptedDistinct | src/application/engine/download_engine.py:197-216 | no task is attempted twice |
| Engine.AttemptedInQueueOrder | src/application/engine/download_engine.py:197-216 | the attempts are the PENDING tasks by ascending position, then the PAUSED tasks by ascending position |
| Engine.AttemptedAttemptable | src/application/engine/download_engine.py:197-216 | each task of the listing is still accepted by `execute_task` when its turn comes |
| Engine.NoPendingAfter | src/application/engine/download_engine.py:191-219 | afterwards no task is PENDING and the tasks not attempted keep their status |
| Engine.RowAfterAttempts | src/application/engine/download_engine.py:191-219 | one row afterwards: no longer PENDING, same id, unchanged unless it was PENDING or PAUSED |
| Engine.FindFirstPending | src/application/engine/download_engine.py:64-68 | the `for ... break` finds the first PENDING task of the listing |
| Engine.PickedAccepted | src/application/engine/download_engine.py:70-72 | the task the loop picks passes the checks of `execute_task` |
| Engine.StepLeavesIdle | src/application/engine/download_engine.py:53-76 | once `execute_task` returns no task is DOWNLOADING, so the loop runs one download at a time |
| Engine.DownloadEngine.PauseFlag | src/application/engine/download_engine.py:25-26 | a task never flagged reads as not paused |
| Engine.DownloadEngine.Start | src/application/engine/download_engine.py:28-39 | a running engine is left alone, otherwise marked running with no stop requested |
| Engine.DownloadEngine.Stop | src/application/engine/download_engine.py:41-46 | the engine is stopped and a stop is requested |
| Engine.DownloadEngine.PauseTask | src/application/engine/download_engine.py:89-108 | only a DOWNLOADING task is paused: its flag raised and its status PAUSED; otherwise the error and nothing changes |
| Engine.DownloadEngine.ResumeTask | src/application/engine/download_engine.py:110-131 | only a PAUSED task is resumed: flag cleared then raised again exactly when a pause ran, status DOWNLOADING, or PAUSED when the pause came after the service's last write; an error exactly when the download raised |
| Engine.DownloadEngine.ExecuteTask | src/application/engine/download_engine.py:133-189 | a PENDING or PAUSED task ends with `FinalStatus`, its flag set exactly when a pause ran and the listeners given `Notices`; otherwise the error and nothing changes |
| Engine.DownloadEngine.Settle | src/application/engine/download_engine.py:154-189 | the download (with any pause and the service's overwrite of it) then the try block: the flag raised exactly when a pause ran, `FinalStatus` written and `Notices` announced |
| Engine.DownloadEngine.ExecutePendingDownloads | src/application/engine/download_engine.py:191-219 | every attempted task gets its `FinalStatus` and its flag up exactly when a pause ran, in one listing's order, an error never stopping the rest |
| Engine.DownloadEngine.Snapshot | src/application/engine/download_engine.py:197-209 | the PENDING and PAUSED tasks of one queue listing |
| Engine.DownloadEngine.EngineStep | src/application/engine/download_engine.py:53-81 | one turn executes the first PENDING task exactly when the engine runs, no stop is asked and nothing is DOWNLOADING; that task ends with `FinalStatus` and its flag up exactly when a pause ran |
| Engine.DownloadEngine.PickPending | src/application/engine/download_engine.py:61-68 | the first PENDING task of the listing, which `execute_task` accepts |
| DownloadExecution.AfterChunks | src/application/download/download_execution_service.py:162-172 | the `on_chunk` calls change only the task's count and total |
| DownloadExecution.AfterProgress | src/application/download/download_execution_service.py:69-76 | the HLS progress calls change only the task's count |
| DownloadExecution.FilenameIsBaseName | src/application/download/download_execution_service.py:244-255 | the name taken from a URL is the path's last segment, non-empty and without '/', and there is none exactly when the path is empty or ends in '/' |
| DownloadExecution.HlsNameIsMp4 | src/application/download/download_execution_service.py:62-64 | an HLS output name always ends in ".mp4", and a URL name that already does is kept |
| DownloadExecution.HlsTestIgnoresCase | src/application/download/download_execution_service.py:54-56 | whether a URL is an HLS stream does not depend on its case |
| DownloadExecution.CapabilityFacts | src/application/download/download_execution_service.py:115-129 | after the capability check the task is checked, its resumability is the HEAD answer's, a total it had is kept, and a checked task is left alone |
| DownloadExecution.RegularRunKeepsTask | src/application/download/download_execution_service.py:112-242 | a regular run keeps the task's id, url and status and leaves it checked |
| DownloadExecution.AfterChunksLast | src/application/download/download_execution_service.py:162-172 | the task's count after the callbacks is the offset of the last one |
| DownloadExecution.PartAfterTransfer | src/application/download/download_execution_service.py:137-198 | the `.part` holds the kept bytes followed by the body received, and the count equals its length unless a fresh start received nothing |
| DownloadExecution.CompletedFileContents | src/application/download/download_execution_service.py:200-228 | a completed download leaves the final file holding the kept bytes then the body, removes the `.part`, and leaves other files alone |
| DownloadExecution.PauseKeepsResumePoint | src/application/download/download_execution_service.py:202-225 | on pause a resumable task keeps a `.part` as long as its count; a task that cannot resume loses its `.part` and its count is 0 |
| DownloadExecution.PausedResetWritesStaleStatus | src/application/download/download_execution_service.py:212-222 | on pause a task that cannot resume and has counted bytes is written back with count 0 and the status it was read with |
| DownloadExecution.RegularNameOfUrl | src/application/download/download_execution_service.py:244-255 | for an http(s) URL built from host, directory, name and query, the path `urlparse` gives is directory/name and the file name taken is the name |
| DownloadExecution.PauseThenResume | src/application/download/download_execution_service.py:137-228 | a resumable download paused after receiving bytes is resumed next time, and the completed file holds the first body then the second |
| DownloadExecution.FailedRequestRaises | src/application/download/download_execution_service.py:184-198 | a failing request raises with the `.part` opened as it was and no callback made |
| DownloadExecution.ExecuteGuards | src/application/download/download_execution_service.py:25-52 | NotFound exactly for an unknown id and InvalidState exactly for a task not DOWNLOADING, changing nothing; otherwise only that row is written and it stays DOWNLOADING |
| DownloadExecution.RunKeepsTask | src/application/download/download_execution_service.py:47-52 | an accepted task's run keeps id, url and status and raises only a transfer or rename error |
| DownloadExecution.UpdateOnlyThatRow | src/infrastructure/persistence/sqlite_repository.py:75-80 | writing a row changes what `get` returns for that id only, keeping its url |
| DownloadExecution.HlsRunOutput | src/application/download/download_execution_service.py:58-110 | an HLS download never raises and writes only its ".mp4" output, the segments in order, when all were fetched with no pause |
| DownloadExecution.DownloadExecutionService.Execute | src/application/download/download_execution_service.py:25-52 | the store and directory afterwards are `Executed`'s: the run of the HLS or regular path, named from the path `urlparse` gives the task's url |
| DownloadExecution.DownloadExecutionService.ExecuteHls | src/application/download/download_execution_service.py:58-110 | the row and directory afterwards are `HlsRun`'s for the given output name |
| DownloadExecution.DownloadExecutionService.ApplyProgress | src/application/download/download_execution_service.py:69-76 | each progress call writes the count and saves the task |
| DownloadExecution.DownloadExecutionService.ExecuteRegular | src/application/download/download_execution_service.py:112-242 | the row and directory afterwards are `RegularRun`'s for the given file name |
| DownloadExecution.DownloadExecutionService.CheckCapability | src/application/download/download_execution_service.py:115-129 | the task is `Capability`'s and saved |
| DownloadExecution.DownloadExecutionService.ApplyChunks | src/application/download/download_execution_service.py:162-172 | each chunk is appended to the `.part` and the task's progress saved |
| DownloadExecution.DownloadExecutionService.Settle | src/application/download/download_execution_service.py:200-228 | close and maybe discard on pause, finalize otherwise, as `Settled` says |
| FileWriting.PartName | src/infrastructure/fs/file_writer.py:11 | the `.part` name differs from the final name |
| FileWriting.OpenedContents | src/infrastructure/fs/file_writer.py:10-32 | a fresh open starts an empty `.part`; a resuming open keeps an existing one and records its length; other files are untouched |
| FileWriting.FinalizedContents | src/infrastructure/fs/file_writer.py:48-53 | finalizing leaves the final name holding exactly the `.part` bytes, removes the `.part`, and leaves other files alone |
| FileWriting.PauseResumeFinalize | src/infrastructure/fs/file_writer.py:10-58 | open fresh, write a, close, open resuming, write b, finalize: the file holds exactly a + b |
| FileWriting.FileWriter.Open | src/infrastructure/fs/file_writer.py:10-32 | the directory and size afterwards are `Opened`'s |
| FileWriting.FileWriter.Write | src/infrastructure/fs/file_writer.py:34-35 | data is appended to the `.part` exactly when a file is open; otherwise it raises and writes nothing |
| FileWriting.FileWriter.GetCurrentSize | src/infrastructure/fs/file_writer.py:37-46 | 0 before any open, the `.part` length while open, an error once closed |
| FileWriting.FileWriter.Finalize | src/infrastructure/fs/file_writer.py:48-53 | without an open it raises and changes nothing; otherwise the file is closed and the directory is `Finalized`'s |
| FileWriting.FileWriter.Close | src/infrastructure/fs/file_writer.py:55-58 | the file is closed without finalizing and the `.part` stays |
| HttpTransfer.CheckRangeSupport | src/infrastructure/network/http_downloader.py:6-14 | true exactly when the HEAD succeeded and `Accept-Ranges` is "bytes" |
| HttpTransfer.ContentDetailsDecision | src/infrastructure/network/http_downloader.py:16-45 | resumable exactly when the HEAD succeeded, ranges are accepted, the body is not chunked and a usable `Content-Length` is present; every failure answers not resumable and no length |
| HttpTransfer.ResumableWithLength | src/infrastructure/network/http_downloader.py:16-45 | ranges, no chunking and `Content-Length: n` give resumable with length n |
| HttpTransfer.RangeHeader | src/infrastructure/network/http_downloader.py:68-71 | the `Range` header is sent exactly when resuming past byte 0 |
| HttpTransfer.ContentRangeTotal | src/infrastructure/network/http_downloader.py:77-88 | a `Content-Range` gives the length after its '/', and one with no '/' gives 0 |
| HttpTransfer.CallsOffsets | src/infrastructure/network/http_downloader.py:90-99 | the callback receives exactly the bytes read, non-empty chunks, each with the start plus all bytes so far |
| HttpTransfer.CallsIncreasing | src/infrastructure/network/http_downloader.py:90-99 | each callback offset is larger than the one before |
| HttpTransfer.StopIndex | src/infrastructure/network/http_downloader.py:93-96 | the loop stops at the first chunk before which the pause check answers true, or reads all |
| HttpTransfer.NoCallsAfterPause | src/infrastructure/network/http_downloader.py:93-99 | once the pause check answers true no more chunks are delivered |
| HttpTransfer.StatusNotChecked | src/infrastructure/network/http_downloader.py:73-99 | a 200 with the whole body is treated exactly like a 206 |
| HttpTransfer.Download | src/infrastructure/network/http_downloader.py:57-99 | the request header sent, and the calls made, are `RangeHeader` and `DownloadCalls` |
| HttpTransfer.ChunkLoop | src/infrastructure/network/http_downloader.py:93-99 | the loop makes the calls for the chunks before the stop |
| HlsManifest.DigitRun | src/application/hls/hls_manifest.py:133 | the run of digits at the front of a string is as long as possible |
| HlsManifest.QualityLabelValues | src/application/hls/hls_manifest.py:128-162 | a quality label is always one of the eight listed labels |
| HlsManifest.HeightLabelMonotone | src/application/hls/hls_manifest.py:134-147 | a taller picture never gets a lower label |
| HlsManifest.BandwidthLabelMonotone | src/application/hls/hls_manifest.py:149-160 | a larger bandwidth never gets a lower label |
| HlsManifest.QualityLabelUnknown | src/application/hls/hls_manifest.py:128-162 | the label is "Unknown" exactly when no `NxM` height is found and the bandwidth is absent or 0 |
| HlsManifest.DigitRunOf | src/application/hls/hls_manifest.py:133 | the digit run of digits followed by a non-digit is the digits |
| HlsManifest.ResolutionLabel | src/application/hls/hls_manifest.py:131-147 | a resolution `WxH` yields height H, and the label is the height's, whatever the bandwidth |
| HlsManifest.NoHeightWithoutX | src/application/hls/hls_manifest.py:133-134 | a resolution without an 'x' yields no height |
| HlsManifest.Pairs | src/application/hls/hls_manifest.py:107 | one attribute piece per comma-separated field |
| HlsManifest.UpperKeepsEnds | src/application/hls/hls_manifest.py:112 | upper-casing a trimmed key keeps it trimmed and without '=' and is idempotent |
| HlsManifest.KeyCaseInsensitive | src/application/hls/hls_manifest.py:109-124 | an attribute's key is matched regardless of case |
| HlsManifest.PieceWithoutEquals | src/application/hls/hls_manifest.py:109-110 | a piece without '=' is ignored |
| HlsManifest.NextUri | src/application/hls/hls_manifest.py:43-45 | the URI search moves forward and stays in the lines |
| HlsManifest.NextUriFacts | src/application/hls/hls_manifest.py:43-47 | every line skipped is a comment, and the line reached (if any) is not |
| HlsManifest.Step | src/application/hls/hls_manifest.py:29-92 | each successful step moves the cursor forward |
| HlsManifest.StreamInfStep | src/application/hls/hls_manifest.py:37-63 | a variant step moves the cursor forward |
| HlsManifest.ExtInfStep | src/application/hls/hls_manifest.py:69-90 | a segment step moves the cursor forward |
| HlsManifest.Parse | src/application/hls/hls_manifest.py:18-98 | the loop returns `ParsePlaylist`'s result |
| HlsManifest.ParseLine | src/application/hls/hls_manifest.py:30-92 | one pass of the loop body is `Step` |
| HlsManifest.ReadVariant | src/application/hls/hls_manifest.py:37-63 | the `#EXT-X-STREAM-INF` branch is `StreamInfStep` |
| HlsManifest.ReadSegment | src/application/hls/hls_manifest.py:69-90 | the `#EXTINF` branch is `ExtInfStep` |
| HlsManifest.SkipComments | src/application/hls/hls_manifest.py:43-45 | the comment-skipping loop stops where `NextUri` says |
| HlsManifest.NotAPlaylist | src/application/hls/hls_manifest.py:24-26 | content whose first line does not start with `#EXTM3U` is refused |
| HlsManifest.StepFacts | src/application/hls/hls_manifest.py:29-92 | a step adds at most one variant, only on a `#EXT-X-STREAM-INF` line, and at most one segment, only on an `#EXTINF` line, each taken from a later line; earlier entries are kept |
| HlsManifest.StreamInfFacts | src/application/hls/hls_manifest.py:37-63 | a variant line marks the playlist master and adds at most one variant, from the next non-comment line |
| HlsManifest.ExtInfFacts | src/application/hls/hls_manifest.py:69-90 | a segment line adds at most one segment, from the next non-comment line, and changes nothing else |
| HlsManifest.ScanKeepsVod | src/application/hls/hls_manifest.py:64-68 | a VOD playlist stays VOD to the end of the scan |
| HlsManifest.AlwaysVod | src/application/hls/hls_manifest.py:94-96 | every parsed playlist is VOD: the type starts VOD and only `#EXT-X-ENDLIST` writes it, so the LIVE branch is never taken |
| HlsManifest.ScanGrows | src/application/hls/hls_manifest.py:29-92 | the scan only adds variants and segments, and becomes master only on a `#EXT-X-STREAM-INF` line |
| HlsManifest.ScanVariantSources | src/application/hls/hls_manifest.py:47-63 | every variant added comes from a line of the content, joined to the base URL when relative |
| HlsManifest.ScanSegmentSources | src/application/hls/hls_manifest.py:80-90 | every segment added comes from a line of the content, joined to the base URL when relative |
| HlsManifest.ParsedEntries | src/application/hls/hls_manifest.py:18-98 | a parsed playlist is master only if it has a `#EXT-X-STREAM-INF` line, and all its variants and segments come from its lines |
| HlsManifest.Next | src/application/hls/hls_manifest.py:29-92 | the next cursor is past the current line |
| HlsManifest.VariantOfLine | src/application/hls/hls_manifest.py:47-63 | a line yields at most one variant |
| HlsManifest.SegmentOfLine | src/application/hls/hls_manifest.py:80-90 | a line yields at most one segment |
| HlsManifest.StepExactly | src/application/hls/hls_manifest.py:29-92 | a step appends exactly that line's variant and segment and moves to `Next` |
| HlsManifest.ScanExactly | src/application/hls/hls_manifest.py:29-92 | the scan appends exactly the variants and segments read line by line from the cursor on |
| HlsManifest.ParsedExactly | src/application/hls/hls_manifest.py:18-98 | a parsed playlist's variants, segments and master flag are exactly those read line by line from the top |
| HlsManifest.StreamInfAfterExtInfNotMaster | src/application/hls/hls_manifest.py:76-78 | a `#EXT-X-STREAM-INF` line right after `#EXTINF` is skipped as a comment: the playlist is not master, and the next URI becomes a segment |
| HlsVariants.DisplayLabel | src/application/hls/hls_variant.py:37-50 | the display label is never empty |
| HlsVariants.MediaType | src/application/hls/hls_variant.py:69-77 | the media type is "audio" or "video" |
| HlsVariants.Details | src/application/hls/hls_variant.py:79-95 | the details text is never empty |
| HlsVariants.RateTextReadsBack | src/application/hls/hls_variant.py:42-48 | the rate text is a number then " Mbps" or " kbps", and the number is the bandwidth rounded down to the unit |
| HlsVariants.ParsedVariantLabel | src/application/hls/hls_variant.py:39-40 | a parsed variant with resolution `WxH` is shown by its height's label |
| HlsVariants.LabelWithoutResolution | src/application/hls/hls_variant.py:41-50 | without a resolution a non-zero bandwidth shows as "~" plus the rate, and "Unknown Quality" exactly when there is none |
| HlsVariants.MediaTypeCaseInsensitive | src/application/hls/hls_variant.py:71-74 | the media type does not depend on the codecs' case |
| HlsVariants.DetailsNameFields | src/application/hls/hls_variant.py:79-95 | the details mention the codecs, the resolution and the rate when given, and are "Unknown" when none is |
| HlsDownload.BaseUrlIsDirectory | src/application/hls/hls_downloader.py:43 | the base URL is the playlist URI up to and including its last '/' |
| HlsDownload.Bodies | src/application/hls/hls_downloader.py:52-67 | one body per segment |
| HlsDownload.Stop | src/application/hls/hls_downloader.py:52-60 | the loop stops at or after where it started, within the segments |
| HlsDownload.Totals | src/application/hls/hls_downloader.py:67-71 | one progress report per fetched segment |
| HlsDownload.Saved | src/application/hls/hls_downloader.py:62-65 | one temporary file per fetched segment, numbered from 0 |
| HlsDownload.DownloadVariant | src/application/hls/hls_downloader.py:18-83 | the result, the reports and the directory are `VariantDownload`'s |
| HlsDownload.FetchSegments | src/application/hls/hls_downloader.py:52-71 | the loop saves and reports exactly the segments before the stop, and says whether it stopped early |
| HlsDownload.SavedStep | src/application/hls/hls_downloader.py:59-71 | one more fetched segment adds its file and its report |
| HlsDownload.MergeSegments | src/application/hls/hls_downloader.py:85-92 | the output is the saved segments, in order, and nothing else changes |
| HlsDownload.StopFacts | src/application/hls/hls_downloader.py:52-60 | every segment before the stop was fetched with no pause; at the stop a pause was asked or the fetch failed |
| HlsDownload.MergedSaved | src/application/hls/hls_downloader.py:85-92 | merging the saved files gives the bodies joined in order |
| HlsDownload.TotalsAt | src/application/hls/hls_downloader.py:67-71 | each report is the bytes received up to and including that segment |
| HlsDownload.TotalsIncrease | src/application/hls/hls_downloader.py:67-71 | the reports never decrease |
| HlsDownload.DownloadOutcome | src/application/hls/hls_downloader.py:18-83 | success exactly when the playlist parses and every segment is fetched with no pause; then the output is the bodies joined in order, otherwise the directory is untouched; the reports are the running totals |
| HlsDownload.ProgressReports | src/application/hls/hls_downloader.py:52-71 | one report per segment fetched, each the running total, and none for a segment at or after a pause |
| HlsDownload.BodiesPrefix | src/application/hls/hls_downloader.py:52-67 | the bodies of the first m segments are the first m bodies |
| HlsEngine.ConvertToGrabberResult | src/application/hls/hls_engine.py:26-57 | one stream item per variant, in order, under the master URL and title, with both counts equal to the number of variants |
| HlsEngine.StreamTypeInName | src/application/hls/hls_engine.py:59-71 | the stream type appears lower-case in the file name |
| HlsEngine.FilenameFollowsMediaType | src/application/hls/hls_engine.py:59-71 | the file name is type, quality and stream type, ending in ".m4a" exactly for audio and ".mp4" exactly for video |
| HlsEngine.SelectedInfoOfItem | src/application/hls/hls_engine.py:73-89 | the selected info gives back the variant's URI, size, file name and title |
| HlsEngine.LiveItemIsLive | src/application/hls/hls_engine.py:87 | an item made from a LIVE stream is reported live |
| GrabberDispatch.Process | src/application/grabber/grabber_engine.py:20-83 | the result is `Processed`'s |
| GrabberDispatch.DispatchKeepsKind | src/application/grabber/grabber_engine.py:34-83 | every result dispatch returns carries the resolved URL type |
| GrabberDispatch.ProcessKeepsKind | src/application/grabber/grabber_engine.py:20-83 | a processed result carries the type the resolver gave, which is never UNKNOWN |
| GrabberDispatch.HandlerResultWins | src/application/grabber/grabber_engine.py:34-40 | when the handler for the type succeeds, its result is returned relabelled with the type |
| GrabberDispatch.NoFallbackForStreamsAndPages | src/application/grabber/grabber_engine.py:41-62 | when the stream or page handler fails, an empty result of that type is returned and no other handler runs |
| GrabberDispatch.FallbackForOtherKinds | src/application/grabber/grabber_engine.py:63-74 | for UNKNOWN, or a failed direct-file handler, the direct-file handler runs again as the fallback and its result is relabelled |
| GrabberDispatch.HandlersUnfold | src/application/grabber/grabber_engine.py:14-34 | the handlers are tried in the order direct file, page, HLS |
| GrabberDispatch.HandlersThatNeverFail | src/application/grabber/grabber_engine.py:20-40 | with handlers that never fail, the result is the one handler for the resolved type, relabelled |
| GrabberHandlers.SizeFromGet | src/application/grabber/handlers/direct_file_handler.py:47-52 | a size from the GET comes from a successful answer's `Content-Length` |
| GrabberHandlers.DirectHandle | src/application/grabber/handlers/direct_file_handler.py:14-35 | one FILE item for the URL, with its size and last path segment as name, and both counts 1 |
| GrabberHandlers.HeadLengthDecides | src/application/grabber/handlers/direct_file_handler.py:39-44 | a successful HEAD with a numeric `Content-Length` gives the size |
| GrabberHandlers.HeadWithoutLengthGivesNone | src/application/grabber/handlers/direct_file_handler.py:39-55 | a successful HEAD without `Content-Length` gives no size and no GET is made |
| GrabberHandlers.GetDecidesOtherwise | src/application/grabber/handlers/direct_file_handler.py:45-52 | when the HEAD fails, or its length does not parse, the GET decides |
| GrabberHandlers.SizeHasSource | src/application/grabber/handlers/direct_file_handler.py:37-55 | every size comes from one of the two answers' `Content-Length` |
| GrabberHandlers.ItemTypeOf | src/application/grabber/handlers/page_handler.py:63-74 | stream hints become STREAM items, media links MEDIA items, all else FILE items |
| GrabberHandlers.PageHandle | src/application/grabber/handlers/page_handler.py:16-46 | one item per discovered link, in order, with the discovery's title and counts; an empty HTML_PAGE result when discovery fails |
| GrabberHandlers.ItemsOfLinks | src/application/grabber/handlers/page_handler.py:23-26 | the loop makes one item per link, in order |
| GrabberHandlers.HlsHandle | src/application/grabber/handlers/hls_handler.py:16-36 | the analysed variants converted, or an empty STREAM_HINT result when analysis fails |
| GrabberHandlers.OneHandlerPerType | src/application/grabber/handlers/direct_file_handler.py:11-12 | each type but UNKNOWN has exactly one handler, and UNKNOWN has none |
| GrabberHandlers.FilenameIsLastSegment | src/application/grabber/handlers/page_handler.py:60 | the name of an item is what follows the URL's last '/', without '/' |
| GrabberHandlers.LastPieceIsAfterLast | src/application/grabber/handlers/direct_file_handler.py:20 | the last piece of a split is what follows the last separator |
| UrlResolution.SplitExt | src/application/grabber/url_resolver.py:111-115 | an extension found starts with its only '.', has no '/', and ends the path |
| UrlResolution.ExtOfName | src/application/grabber/url_resolver.py:111-115 | an extension found in a base name starts with its only '.' and ends the name |
| UrlResolution.DetermineUrlType | src/application/grabber/url_resolver.py:58-109 | probing never gives STREAM_HINT or UNKNOWN |
| UrlResolution.Resolve | src/application/grabber/url_resolver.py:16-36 | the URL returned is the normalized one, the type is STREAM_HINT exactly for a `.m3u8` path, and never UNKNOWN |
| UrlResolution.PathAfterNetloc | src/application/grabber/url_resolver.py:44 | after a `//` authority the path is empty or starts with '/' |
| UrlResolution.SchemeOfWeb | src/application/grabber/url_resolver.py:40-44 | an `http://` or `https://` URL splits into that scheme and a `//` rest |
| UrlResolution.NormalizedShape | src/application/grabber/url_resolver.py:38-50 | a normalized URL is `http` or `https`, `://`, host, a path starting with '/', the query if any, and no fragment |
| UrlResolution.WebPrefixed | src/application/grabber/url_resolver.py:40-41 | a URL without a web scheme gets `https://` in front |
| UrlResolution.WebUrlParts | src/application/grabber/url_resolver.py:44 | a web URL parses to its scheme and a path that is empty or absolute |
| UrlResolution.NormalizeIdempotent | src/application/grabber/url_resolver.py:38-50 | normalizing a normalized URL changes nothing |
| UrlResolution.NormalizedIsFixed | src/application/grabber/url_resolver.py:38-50 | a URL already of the normalized shape is left as it is |
| UrlResolution.ParseOfSplit | src/application/grabber/url_resolver.py:44 | a path without parameters parses as it splits |
| UrlResolution.ReachedUrlType | src/application/grabber/url_resolver.py:60-90 | after a HEAD: HTML when the type names a page; otherwise DIRECT_FILE exactly when the disposition says attachment or names a file, the path has an extension, or the type names a file kind |
| UrlResolution.UnreachableIsPage | src/application/grabber/url_resolver.py:92-109 | when both probes fail a non-stream URL is an HTML page |
| UrlResolution.SplitExtOfName | src/application/grabber/url_resolver.py:111-115 | a name `stem.e` in a directory has extension `.e` |
| UrlResolution.ExtOfStem | src/application/grabber/url_resolver.py:111-115 | a base name `stem.e` has extension `.e` when the stem is not all dots |
| UrlResolution.SplitExtOfDotFile | src/application/grabber/url_resolver.py:111-115 | a dot file such as `.e` has no extension |
| LinkClassification.ClassifyLink | src/application/discovery/link_classifier.py:30-65 | the loop over the extensions, in any order, returns `Classification`'s answer |
| LinkClassification.ExtensionFound | src/application/discovery/link_classifier.py:52-58 | a path ending in a known extension is MEDIA for video and audio extensions and FILE for the rest |
| LinkClassification.NoExtension | src/application/discovery/link_classifier.py:60-65 | a path with no known extension is PAGE when empty or "/" and UNKNOWN otherwise |
| LinkClassification.ExtensionsWellFormed | src/application/discovery/link_classifier.py:10-21 | every known extension is a '.' followed by letters and digits |
| LinkClassification.OneExtensionPerPath | src/application/discovery/link_classifier.py:53-58 | a path ends in at most one known extension, so the set's iteration order does not matter |
| LinkClassification.ExtensionDecides | src/application/discovery/link_classifier.py:49-58 | without a MIME hint the extension alone decides MEDIA or FILE |
| LinkClassification.HintsFirst | src/application/discovery/link_classifier.py:44-50 | a media MIME type gives MEDIA whatever the path; otherwise a `.m3u8` path gives STREAM_HINT |
| LinkClassification.RootIsPage | src/application/discovery/link_classifier.py:60-62 | a URL with an empty or "/" path and no hint is a PAGE |
| LinkFiltering.NormalizeUrl | src/application/discovery/link_filter.py:101-102 | an empty URL is returned unchanged |
| LinkFiltering.NormalizedUrls | src/application/discovery/link_filter.py:139-147 | one normalized URL per item |
| LinkFiltering.FilterLinks | src/application/discovery/link_filter.py:125-164 | the links kept are `Kept`'s: those whose normalized URL is new and valid, in order |
| LinkFiltering.Consider | src/application/discovery/link_filter.py:139-162 | one turn of the loop keeps the seen set and the kept links as `Scanned` describes them |
| LinkFiltering.SeenUrlsMembership | src/application/discovery/link_filter.py:138-152 | a URL is in the seen set exactly when an earlier item normalized to it |
| LinkFiltering.KeptFrom | src/application/discovery/link_filter.py:139-162 | every kept link is the first occurrence of a valid item |
| LinkFiltering.KeptHas | src/application/discovery/link_filter.py:139-162 | every first occurrence of a valid item is kept |
| LinkFiltering.KeptUrls | src/application/discovery/link_filter.py:125-164 | a URL is among those kept exactly when it is the normalized URL of an item at its first occurrence that is valid |
| LinkFiltering.KeptDistinct | src/application/discovery/link_filter.py:149-152 | the links kept come from the input and no URL is kept twice |
| LinkFiltering.DownloadClassLooksLikeAd | src/application/discovery/link_filter.py:65-74 | a link whose class is `btn download` is rejected, because "ad" occurs inside "download" |
| LinkFiltering.PathEntryNeverMatches | src/application/discovery/link_filter.py:59-63 | the `facebook.com/tr` entry is compared with the host alone, which never holds a '/', so it never rejects anything |
| LinkFiltering.SizeAndExtensionRules | src/application/discovery/link_filter.py:76-86 | a known size under 5120 bytes rejects everything but a stream hint; page extensions allowed by the caller are not rejected; an unknown size is never too small |
| ContentFilters.CustomExtension | src/application/discovery/page_discovery_service.py:203-207 | a custom extension starts with '.' |
| ContentFilters.ApplyContentFilters | src/application/discovery/page_discovery_service.py:178-231 | the links kept are `ContentFiltered`'s |
| ContentFilters.CollectCustomExtensions | src/application/discovery/page_discovery_service.py:201-207 | the loop collects exactly `CustomExtensions` |
| ContentFilters.ShouldKeep | src/application/discovery/page_discovery_service.py:211-226 | the flag set by the loop over the filters is `Matches` |
| ContentFilters.CustomExtensionOf | src/application/discovery/page_discovery_service.py:203-207 | every filter that is not a category gives a custom extension |
| ContentFilters.CustomExtensionSource | src/application/discovery/page_discovery_service.py:203-207 | every custom extension comes from a filter that is not a category |
| ContentFilters.SelectedMembers | src/application/discovery/page_discovery_service.py:209-229 | a link is kept exactly when it was given and matches a filter |
| ContentFilters.SelectedConcat | src/application/discovery/page_discovery_service.py:209-229 | filtering keeps the input order |
| ContentFilters.CategoriesOnly | src/application/discovery/page_discovery_service.py:215-220 | with category filters only, a URL is kept exactly when it ends in an extension of one of them |
| ContentFilters.CustomNamesArePlain | src/application/discovery/page_discovery_service.py:221 | only a filter written without a leading '.' can switch on the custom extensions |
| ContentFilters.PlainCustomKeepsAllCustom | src/application/discovery/page_discovery_service.py:221-226 | one plain custom filter lets through a URL ending in any custom extension, from whichever filter |
| ContentFilters.NoPlainCustomOnlyCategories | src/application/discovery/page_discovery_service.py:211-226 | without a plain custom filter only the categories decide |
| ContentFilters.DottedFilterDropsItsOwnExtension | src/application/discovery/page_discovery_service.py:206-221 | the filter ".pdf" gives the custom extension ".pdf" yet drops a link ending in ".pdf" |
| ContentFilters.IntendedCustomMatches | src/application/discovery/page_discovery_service.py:201-226 | with the intended test, a URL ending in a filter's custom extension is kept, however the filter is written |
| ContentFilters.AgreesOnPlainFilters | src/application/discovery/page_discovery_service.py:201-226 | with only categories and plain custom names, the program's test and the intended one agree |
| ProgressSnapshots.Clamped | src/application/progress/progress_snapshot.py:24-30 | the intended clamp: the count ends between 0 and the total, and the total is the given one raised to 0 |
| ProgressSnapshots.MakeSnapshot | src/application/progress/progress_snapshot.py:13-30 | the clamps as written: fields other than the counts are kept, the total is raised to 0, and the count is clean and equals the intended clamp unless the total was negative, when it is that negative total |
| ProgressSnapshots.Percentage | src/application/progress/progress_snapshot.py:32-38 | the percentage is at most 100, and not negative for a non-negative count |
| ProgressSnapshots.Pad2 | src/application/progress/progress_snapshot.py:53 | a padded number has at least two characters |
| ProgressSnapshots.ClampOrderCounterexample | src/application/progress/progress_snapshot.py:26-30 | count -100 with total -500 gives count -500 and total 0 as written, but 0 and 0 with the intended order |
| ProgressSnapshots.ClampOrdersAgree | src/application/progress/progress_snapshot.py:26-30 | with no negative total the written and intended orders agree, and a clean count is kept |
| ProgressSnapshots.ClampedIsNearest | src/application/progress/progress_snapshot.py:24-30 | the intended clamp gives the nearest clean count and is idempotent |
| ProgressSnapshots.PercentageIsShare | src/application/progress/progress_snapshot.py:32-38 | for a clean snapshot with a positive total the percentage is the count's share of the total rounded down, and 100 exactly when complete |
| ProgressSnapshots.ShareOfTotal | src/application/progress/progress_snapshot.py:37-38 | the share of d in t, in hundredths, lies between 0 and 100 and is 100 exactly when d is t |
| ProgressSnapshots.PercentageMonotone | src/application/progress/progress_snapshot.py:32-38 | more bytes never lower the percentage |
| ProgressSnapshots.EtaWholeSeconds | src/application/progress/progress_snapshot.py:46-53 | an ETA of m minutes, s seconds and a fraction shows as `MM:SS` of m and s |
| ProgressSnapshots.EtaTextShape | src/application/progress/progress_snapshot.py:46-53 | under 100 minutes the ETA text is five characters, two digits, ':', two digits, reading back as m and s |
| ProgressSnapshots.Pad2Value | src/application/progress/progress_snapshot.py:53 | a number under 100 pads to two digits that read back as it |
| ProgressStates.ProgressState.constructor | src/application/progress/progress_state.py:10-20 | a new state has count 0, the given total unclamped, phase CONNECTING, no speed or ETA, and is active |
| ProgressStates.ProgressState.Update | src/application/progress/progress_state.py:22-56 | the count raised to 0 and lowered to the total, a given total raised to 0, CONNECTING becomes DOWNLOADING on the first bytes, and speed and ETA are measured only after half a second |
| ProgressStates.ProgressState.Measure | src/application/progress/progress_state.py:39-56 | speed and ETA change only when half a second has passed; counts, total and phase are kept |
| ProgressStates.ProgressState.SetPhase | src/application/progress/progress_state.py:58-61 | only the phase changes |
| ProgressStates.ProgressState.SetActive | src/application/progress/progress_state.py:63-66 | only the active flag changes |
| ProgressStates.ProgressState.GetSnapshot | src/application/progress/progress_state.py:68-78 | the snapshot carries the state's fields, clamped as the snapshot does; a clean state is shown as it is, and a negative total from the constructor shows as total 0 with that negative count |
| ProgressStates.NegativeTotalShowsNegativeCount | src/application/progress/progress_state.py:10-20 | a state made with total -500 and updated with -100 shows count -500 and total 0 |
| ProgressStates.AtLeastZero | src/application/progress/progress_state.py:26 | the count raised to 0 |
| ProgressStates.Speed | src/application/progress/progress_state.py:43-45 | the speed is never negative and, for bytes received, is bytes over elapsed time |
| ProgressStates.Eta | src/application/progress/progress_state.py:47-53 | an ETA exists exactly when the total is known, non-zero and above the count and the speed is positive, and it is the remaining bytes over the speed |
| ProgressAggregation.RemoveFirst | src/application/progress/progress_aggregator.py:27-28 | removing an id present drops one entry, an absent one changes nothing, and other ids stay |
| ProgressAggregation.Collected | src/application/progress/progress_aggregator.py:44-48 | at most one snapshot per id, each with its count within its total |
| ProgressAggregation.ActiveOf | src/application/progress/progress_aggregator.py:51 | exactly the snapshots not FINALIZING are kept |
| ProgressAggregation.SumTotals | src/application/progress/progress_aggregator.py:67-70 | the total is unknown exactly when some snapshot's total is |
| ProgressAggregation.ProgressAggregator.constructor | src/application/progress/progress_aggregator.py:10-13 | a new aggregator holds no states and no ids |
| ProgressAggregation.ProgressAggregator.AddTask | src/application/progress/progress_aggregator.py:15-20 | the state is stored under its id, and the id appended once |
| ProgressAggregation.ProgressAggregator.RemoveTask | src/application/progress/progress_aggregator.py:22-28 | the state and the first occurrence of the id are removed |
| ProgressAggregation.ProgressAggregator.GetTaskSnapshot | src/application/progress/progress_aggregator.py:116-121 | a snapshot exactly for an id with a state, and it is that state's |
| ProgressAggregation.ProgressAggregator.CollectSnapshots | src/application/progress/progress_aggregator.py:44-48 | the loop returns `Collected` |
| ProgressAggregation.ProgressAggregator.GetActiveSnapshots | src/application/progress/progress_aggregator.py:104-114 | the snapshots of the listed ids with states, not FINALIZING, in order |
| ProgressAggregation.ProgressAggregator.GetTotalSnapshot | src/application/progress/progress_aggregator.py:30-102 | the snapshot is `TotalOf` of the active snapshots |
| ProgressAggregation.RemoveFirstKeepsDistinct | src/application/progress/progress_aggregator.py:15-28 | ids stay distinct and a removed id is gone |
| ProgressAggregation.AddThenRemove | src/application/progress/progress_aggregator.py:15-28 | adding a new id then removing it gives back the list |
| ProgressAggregation.OneSnapshotPerId | src/application/progress/progress_aggregator.py:44-48 | with a state for every id, one snapshot per id |
| ProgressAggregation.SumsClean | src/application/progress/progress_aggregator.py:65-70 | summing clean snapshots gives a clean total |
| ProgressAggregation.TotalSnapshotMeaning | src/application/progress/progress_aggregator.py:30-102 | no states: 0 of unknown, DOWNLOADING; all finalizing: 0 of 0, FINALIZING; otherwise the sums, the total unknown exactly when one is, CONNECTING exactly when one is connecting, never FINALIZING |
| Strings.JoinSplit | src/application/hls/hls_downloader.py:43 | joining the pieces of a split with the same character gives the text back |
| Strings.IntToStringParses | src/application/hls/hls_manifest.py:36 | the decimal text of an integer parses back to it with `int` |
| Strings.AfterLastUnique | src/application/grabber/handlers/direct_file_handler.py:20 | the text after the last occurrence of a character is the only suffix without it that follows it |
| Engine.Restatus | src/application/engine/download_engine.py:151-152 | status writes keep the rows and their ids |
| Engine.SetStatus | src/application/engine/download_engine.py:151-152 | one status write keeps the rows and their ids |
| Engine.SetStatusTwice | src/application/engine/download_engine.py:151-152 | writing a task's status twice is writing the second |
| Engine.RestatusUnique | src/infrastructure/persistence/sqlite_repository.py:75-80 | status writes keep ids unique |
| Engine.FirstPendingIndex | src/application/engine/download_engine.py:64-68 | the index found holds a PENDING task and no earlier one does |
| Engine.DownloadEngine.Launch | src/application/engine/download_engine.py:154-189 | the download's outcome: the status becomes `FinalStatus`, the flag is set exactly when a pause ran, `Notices` are announced, and an error is raised exactly when the task ends FAILED |
| Engine.DownloadEngine.ExecuteListings | src/application/engine/download_engine.py:197-216 | the PENDING loop then the PAUSED loop give every task its `FinalStatus` and its flag up exactly when a pause ran, in listing order |
| Engine.DownloadEngine.ExecuteEach | src/application/engine/download_engine.py:210-216 | a loop over one listing gives each task its `FinalStatus` and its flag up exactly when a pause ran |
| Engine.DownloadEngine.Attempt | src/application/engine/download_engine.py:211-216 | one attempt writes that task's `FinalStatus` and raises its flag exactly when a pause ran, an error from it being swallowed |
| Engine.DownloadEngine.Resume | src/application/engine/download_engine.py:123-131 | past the checks of `resume_task`: the flag ends up exactly when a pause ran, the task DOWNLOADING or PAUSED as the pause and the service's writes fell, and an error exactly when the download raised |
| Engine.DownloadEngine.DuringDownload | src/application/engine/download_engine.py:104-108 | a PAUSED write kept to the end, a PAUSED write the service overwrote with DOWNLOADING, or none: the table and flags each leaves |
| Engine.DownloadEngine.Finish | src/application/engine/download_engine.py:162-189 | from the table the download left, the try block writes `FinalStatus` and announces `Notices` |
| Engine.DownloadEngine.Complete | src/application/engine/download_engine.py:170-189 | COMPLETED written and announced; FAILED written and announced when a listener raises |
| Engine.DownloadEngine.Fail | src/application/engine/download_engine.py:179-189 | the except block writes FAILED, announces it to the listeners and raises |
| Engine.DownloadEngine.WriteStatus | src/application/engine/download_engine.py:151-152 | `get`, set the status, `update`: only that row's status changes |
| TaskControl.PauseAllService.PauseEach | src/application/use_cases/pause_all_service.py:18-28 | the loop pauses and flags every listed DOWNLOADING task and counts them all |
| TaskControl.PauseAllService.PauseOne | src/application/use_cases/pause_all_service.py:20-26 | one pause succeeds, writes PAUSED and raises the task's flag |
| TaskControl.PauseMultipleService.PauseEach | src/application/use_cases/pause_multiple_service.py:30-48 | the loop over the queue ids pauses exactly the DOWNLOADING targets, a PENDING one being refused by the engine and skipped |
| TaskControl.PauseMultipleService.PauseQueued | src/application/use_cases/pause_multiple_service.py:31-48 | one queue id is paused or skipped, keeping the sets and the table as the loop describes them |
| TaskControl.Listing | src/infrastructure/persistence/sqlite_repository.py:205-223 | the listing read is the queue order's |
| TaskControl.ResumeMultipleService.ResumeEach | src/application/use_cases/resume_multiple_service.py:30-49 | the loop resumes every PAUSED target, reporting it resumed exactly when its download did not raise |
| TaskControl.ResumeMultipleService.ResumeQueued | src/application/use_cases/resume_multiple_service.py:31-49 | one queue id is resumed or skipped, keeping the sets and the table as the loop describes them |
| QueueManagement.Exchanged | src/infrastructure/persistence/sqlite_repository.py:175-190 | exactly the two entries are exchanged |
| QueueManagement.SwapAndRenumberOnDense | src/application/use_cases/queue_management_service.py:51-53 | on a dense queue the swap succeeds and renumbering afterwards changes nothing |
| QueueManagement.QueueManagementService.SwapThenNormalize | src/application/use_cases/queue_management_service.py:51-53 | the store afterwards is `SwapAndRenumber`'s result, or unchanged with the error raised |
| QueueOrder.QueueList | src/infrastructure/persistence/sqlite_repository.py:205-223 | the listing has one row per task |
| QueueOrder.DensePositionHeld | src/infrastructure/persistence/sqlite_repository.py:157-173 | on a dense queue every position 1..n is held |
| QueueOrder.Normalized | src/infrastructure/persistence/sqlite_repository.py:192-203 | normalizing keeps the number of rows |
| QueueOrder.Renumbered | src/infrastructure/persistence/sqlite_repository.py:197-203 | the k-th listed task gets position k + 1 and the ids are kept in order |
| TaskTable.SetOrder | src/infrastructure/persistence/sqlite_repository.py:139-144 | only the position of rows changes |
| TaskTable.ZeroRows | src/infrastructure/persistence/sqlite_repository.py:131-133 | exactly the rows at position 0 |
| TargetParser.RangeArgParses | src/application/use_cases/task_target_parser.py:24-34 | the text `a-b` built from two numbers names the integers between them |

## Left out

- Engine.DownloadEngine.ExecuteTask: listeners are modelled only by whether they raise, with no effect on the store. The program's one registered listener, ArchiveTaskListener, is covered separately by `Engine.FinishedTaskArchived`. A listener that archives the task, followed by a later listener that raises, is not modelled. In that case the source re-reads no task and writes no FAILED (download_engine.py:179-186), whereas the model writes FAILED.
- Engine.DownloadEngine.Settle, Engine.DownloadEngine.ExecutePendingDownloads and Engine.DownloadEngine.EngineStep: these have the same listener simplification, so their `archive == old(archive)` holds only for listeners with no store effect.
- Engine.DownloadEngine.ExecuteTask and Engine.DownloadEngine.ResumeTask: the execution service's writes to the byte count, total, resumability and capability flag are not composed into the engine's contract. The engine is stated with only its own status writes. Whether a pause happened, and whether the service wrote after it, is an input (`Engine.Pause`) rather than derived from the interleaving of the two threads. `DownloadExecution.DownloadExecutionService.Execute` states the service's writes on its own, and `DownloadExecution.PausedResetWritesStaleStatus` shows the write that overwrites a pause.
- ProgressSnapshots.Percentage: computed exactly as `(100 * d) / t` on integers. The source uses the float expression `int((d / t) * 100)`, which can round one lower; for example 29 of 100 gives 28.
- ProgressStates.ProgressState.Update: speed and ETA are real numbers and the clock is a parameter. The float rounding of Python is not modelled.
- ProgressSnapshots.EtaText: the ETA is a real number, so the rounding of Python floats is not modelled. The `speed_mbps` property, a float division, is not modelled.
- Strings.Lower, Strings.Upper, Strings.IsSpace and Strings.ParseInt: these are ASCII only. Python lower-cases non-ASCII letters, strips Unicode spaces, and accepts non-ASCII decimal digits in `int()` (for example Arabic-Indic digits).
- HttpTransfer.Download and HttpTransfer.ChunkLoop: the response body is a finite sequence of chunks. A transfer that fails mid-stream, and an `on_chunk` or file write that raises, cannot be expressed.
- DownloadExecution.DownloadExecutionService.ExecuteRegular: the HTTP request failing before any chunk is modelled. A failure after some chunks have been written is not (see the previous line).
- Task ids are `nat` values supplied by the caller, not `uuid4` strings. Generating ids is not modelled.
- HlsManifest.Parse: `#EXTINF` durations are floats. Whether one parses is a parameter (`isFloat`), and their sum, the playlist's `duration`, is not computed.
- HlsVariants: `_get_size_estimate` formats floats and is not modelled. `get_variant_display_info` only gathers the three modelled helpers.
- HlsDownload: `get_stream_info` and `_estimate_size` are not modelled. They fetch a playlist and return constants or float sums.
- HlsEngine: `analyze_stream` delegates to the HLS analyser, which is not part of this model. `GrabberHandlers.HlsHandle` takes the analysis result, or its failure, as an input instead.
- Urls.ParseUrl: `urlparse` is modelled as cutting at ':', '//', '?', '#' and, for the schemes that use parameters, ';' after the last '/'. The removal of tab, CR and LF characters, the ValueError on an unbalanced '[' in the host, and the scheme-specific rules for other schemes are left out.
- LinkFiltering.NormalizeUrl: `urljoin`, and the removal of tracking parameters with `parse_qs`/`urlencode`, are parameters of the model (`UrlOps`). Only the cut at the first '#' is modelled exactly.
- Page discovery: `discover_from_page`, `_extract_links` and `_get_file_size` fetch and parse HTML with BeautifulSoup, so they are not modelled. The page handler takes the discovery result, or its failure, as an input.
- UrlResolution.DetermineUrlType: the HEAD and GET requests are inputs (a header map or a failure). Redirects and timeouts are not modelled.
- GrabberHandlers.DirectHandle: the file size comes from abstract HEAD and GET answers.
- Locks in ProgressState and ProgressAggregator, the engine's worker thread and its 0.2 second sleeps, printing, the console progress reporters, and the CLI wiring are not modelled. One iteration of the worker loop is `Engine.DownloadEngine.EngineStep`.
- SQL specifics are not modelled: commits, schema migration, `archived_at` timestamps, and the order of rows that share a queue position. The listing is a stable sort on the position.

## Findings

| source | as written | input that shows it | evidently intended | confidence | as-written member | corrected member |
|---|---|---|---|---|---|---|
| src/application/use_cases/archive_service.py:22 | archiving a task deletes its row but leaves the other positions as they were, so the queue keeps a gap | tasks a@1 (COMPLETED), b@2, c@3; archive a; then `move_down(2)` is refused as "beyond the bottom" although c is below b | positions renumbered 1..n after the archive, as after every other removal | not executed | Archiving.ArchiveThenMoveDownRefused | Archiving.ArchiveRenumberedDense |
| src/application/discovery/page_discovery_service.py:206-221 | a custom filter is matched against the extensions with their leading '.' removed, so a filter written with a dot never matches | filters [".pdf"], link "https://a.com/x.pdf": the link is dropped although ".pdf" is the extension the filter asked for | a link ending in a requested custom extension is kept, however the filter is written | not executed | ContentFilters.DottedFilterDropsItsOwnExtension | ContentFilters.IntendedCustomMatches |
| src/application/progress/progress_snapshot.py:26-30 | the count is lowered to the total before the total is raised to 0 | a ProgressState made with total -500, then updated with -100: its snapshot has count -500 and total 0 | count between 0 and the clamped total | not executed | ProgressSnapshots.ClampOrderCounterexample | ProgressSnapshots.Clamped |
| src/application/engine/download_engine.py:162-177 | `execute_task` decides between PAUSED and COMPLETED by re-reading the status, which the execution service overwrites with its stale DOWNLOADING copy (progress saves, and the reset of a task that cannot resume at download_execution_service.py:222) | a non-resumable task with bytes received is paused mid-download: the flag is up, the service writes DOWNLOADING with count 0, the re-read finds DOWNLOADING, so COMPLETED is written and announced and the archive listener archives the unfinished download | a task paused during its download ends PAUSED and stays in the queue | not executed | Engine.OverwrittenPauseArchived | Engine.IntendedFinalStatus |
