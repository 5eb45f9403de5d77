# trdl: task queue, releases and signatures

trdl delivers software through TUF repositories. A server plugin runs release and publish tasks; a client keeps
releases on disk. This project models the parts in which state, time and order matter, and proves what they keep.

- **Task queue** (`TaskRecords`, `TaskProtocol`, `TaskRuns`, `TaskProgress`, `TaskReads`, `TaskManager`, `TaskHistory`,
  `TaskLog`). `TaskProtocol` is a step system in which each storage call is a step of its own: callers, the worker, the
  cleanup, unlocked readers and crashes interleave freely. Its invariant gives recovery and safety of the callbacks
  (`TaskRuns`), where the system comes to rest and when it deadlocks (`TaskProgress`), and which unlocked reads can be
  trusted (`TaskReads`). `TaskManager` is the sequential code, shown to consist of runs of that system.
- **Release store** (`ReleaseStore`, `ReleaseRepair`, `Semver`). Channel files, release directories, pins and times of use,
  changed one file at a time. Every run keeps every reference whole, and so does every moment of every operation, but for
  the one directory being replaced. What a stopped operation leaves is repaired by the next update that finishes.
- **Signature quorum** (`Quorum`, `QuorumBound`). A greedy matching of signatures to keys in two phases: always sound,
  complete where each signature has one key, and in general good for half: a matching of size s is enough for a quorum of
  n > 0 if and only if s is at least 2n - 1.
- **Role rotation** (`Calendar`, `Rotator`). Civil dates with overflow, a cascade over four TUF roles (TUF specification,
  sections 4.3 to 4.6), and the hourly gate in front of it: no role ever expires.
- **Publishing** (`Publishing`, `Paths`, `PathSplit`). Where a release's files land, which configurations are accepted,
  and why every channel names a release that exists.
- **Source scripts** (`ShellExport`, `PosixShell`, `PowerShell`, `SourceScripts`). Quoting and reading undo each other
  (POSIX.1-2017, Shell Command Language, sections 2.2.1 and 2.2.2), so the last script sourced decides what is in use.

`Options`, `Iteration` and `Text` are shared helpers. Methods follow the source's loops and assignments and are proved
against functions or predicates, about which the lemmas speak. `dafny verify dfyconfig.toml` checks everything.

## Findings

- A log read can answer "not found" for a task that exists, exactly if it begins while the task is neither the current job
  nor completed, deadlock aside (`TaskReads.LogReadMayMiss`). A task left running by a crash is missed at once
  (`TaskReads.LeftRunningIsMissed`). A status read has no such gap.
- AddTask can block for ever while it holds the mutex, exactly if it finds the channel full and the worker not waiting
  (`TaskProgress.AddTaskOutcome`).
- Where a page can hold the whole log, the offset of a log watcher runs ahead of the log, so that it may skip bytes, exactly
  if the log is polled in the middle of a character or holds bytes that belong to none (`TaskLog.WatchIsExact`).
- A history within its limit is deleted whole (`TaskHistory.LimitKeptWhenExceeded`).
- A quorum that could be met can be refused (`QuorumBound.GreedyCanMiss`), unless nearly twice as many signatures and keys
  go together (`QuorumBound.QuorumGuarantee`).
- A release file below a system without an architecture, such as `linux/x`, makes the release task panic
  (`Publishing.SystemAlonePanics`).
- A PowerShell value with a typographic quote does not read back (`PowerShell.ReadsBack`).
- 20 hours between rotations is all there is to spare (`Rotator.TwentyHoursIsTight`).

## Model

| member | source | states |
|---|---|---|
| Calendar.MonthUnique | server/pkg/publisher/tuf_repo_rotator.go:99-148 | A day number lies in one civil month only, so a date of the rotator's UTC calendar is well defined. |
| Calendar.DateRoundTrip | server/pkg/publisher/tuf_repo_rotator.go:99-148 | A valid date converted to a day number and back is the same date, for every year. |
| Calendar.DayRoundTrip | server/pkg/publisher/tuf_repo_rotator.go:99-148 | Every day number is that of exactly one valid date. |
| Calendar.MonthShiftBounds | server/pkg/publisher/tuf_repo_rotator.go:99-123 | Shifting a day by k months moves it by 28k to 31k days, whatever the overflow of the day of the month. |
| Calendar.AddDateShifts | server/pkg/publisher/tuf_repo_rotator.go:99-148 | AddDate with Go's normalisation moves a time by whole days and keeps the time of day. |
| Calendar.AddDateKeepsDay | server/pkg/publisher/tuf_repo_rotator.go:99-148 | AddDate changes month and year alone whenever the target month is long enough for the day. |
| Calendar.MonthLengths | server/pkg/publisher/tuf_repo_rotator.go:99-148 | The lengths of the twelve months, February by the Gregorian rule for leap years. |
| Calendar.CivilDay | server/pkg/publisher/tuf_repo_rotator.go:99-148 | The day number of every date of every year in closed form: 365 days a year, one more for each leap day of the rule, counted from 1970. |
| Calendar.KnownDays | server/pkg/publisher/tuf_repo_rotator.go:99-148 | January 1, 1970 is day 0, and four dates around leap days and centuries have the numbers they have in every calendar of days. |
| Rotator.Rotate | server/pkg/publisher/tuf_repo_rotator.go:18-97 | The in-place rotation with its changed flags renews exactly the due roles and those they drag along, each for its own period and no longer (timestamp a day, snapshot 7 days, targets 84 to 93, root 336 to 372, to the second), and commits once if something has changed, otherwise not at all. |
| Rotator.RenewalPeriods | server/pkg/publisher/tuf_repo_rotator.go:24-94 | A renewed role expires within its period of now, from below and from above, whatever the calendar does. |
| Rotator.DueAgain | server/pkg/publisher/tuf_repo_rotator.go:99-148 | A renewed role is due again within its interval: timestamp after 4 hours, snapshot after 2 days, targets after 12 to 30 days, root after 48 to 129. |
| Rotator.RenewalDates | server/pkg/publisher/tuf_repo_rotator.go:24-46 | Up to the 28th of a month, root then expires on the same day next year and targets on the same day three months later. |
| Rotator.RootDueDate | server/pkg/publisher/tuf_repo_rotator.go:99-110 | A root that expires on such a day is due on the same day nine months before. |
| Rotator.TimestampIsRenewed | server/pkg/publisher/tuf_repo_rotator.go:138-148 | In a run of rotations timestamp is renewed at least once in every 4 hours, by the first rotation after them at the latest. |
| Rotator.DueWindow | server/pkg/publisher/tuf_repo_rotator.go:99-148 | How long before its expiry each role becomes due, for every expiry date. |
| Rotator.RotatedIsNotDue | server/pkg/publisher/tuf_repo_rotator.go:18-148 | After any rotation each of the four rotation times is strictly later than now. |
| Rotator.RotateTwice | server/pkg/publisher/tuf_repo_rotator.go:18-148 | A second rotation at the same instant changes nothing. |
| Rotator.Cascade | server/pkg/publisher/tuf_repo_rotator.go:23-95 | Versions go up by one step at most: root and targets exactly if due, snapshot exactly if at most 5 days are left of it or one of those two changed, timestamp exactly if at most 20 hours are left or snapshot changed. |
| Rotator.LiveFor20Hours | server/pkg/publisher/tuf_repo_rotator.go:18-148 | No role expires within 20 hours of a rotation. |
| Rotator.TwentyHoursIsTight | server/pkg/publisher/tuf_repo_rotator.go:138-148 | 20 hours is the exact bound: some roles are left alone by a rotation and have expired a nanosecond after it. |
| Rotator.LiveSince | server/pkg/publisher/tuf_repo_rotator.go:18-148 | From the first rotation on all roles are alive until 20 hours after the latest one, whatever tasks commit and sign in between. |
| Rotator.DefaultsAreFresh | server/pkg/publisher/repository.go:138-149 | What a commit signs anew, with the library's default periods, does not shorten that. |
| Rotator.NeverExpired | server/pkg/publisher/tuf_repo_rotator.go:18-148 | In any run with gaps of at most 20 hours between rotations, and any commits in between, no role is ever expired after the first rotation. |
| Rotator.Backend.Periodic | server/periodic.go:33-100 | A call queues the task exactly when the stored timestamp, which a restart keeps, is an hour old and neither configuration nor another task stands in the way; only then the timestamp moves. |
| Rotator.BlockedLeaveNoTrace | server/periodic.go:81-90 | A call that finds the manager busy changes nothing, so only the gaps between the other calls matter. |
| Rotator.DoneGaps | server/periodic.go:74-82 | With at most m rotation tasks in a row that fail, rotations are at most m + 1 times as far apart as the tasks. |
| Rotator.PeriodicKeepsAlive | server/periodic.go:19-100 | Calls through the one-hour gate, blocked ones, late tasks, restarts and commits of other tasks included, keep every role alive as long as m + 1 times the sum of gate, gap and delay stays within 20 hours, where at most m rotation tasks in a row fail or are canceled. |
| Quorum.VerifyPGPSignatures | server/pkg/pgp/util.go:12-50 | The nested loops refine the greedy scan, for every list of signatures and keys, unreadable keys and negative counts included. |
| Quorum.VerifyTagSignatures | server/pkg/git/signatures.go:30-67 | A tag gets the verdict on its tag object, or on the commit it points to; a missing tag is an error. What a verdict is, SignersDecide and OwnSignatureSuffices say. |
| Quorum.VerifyCommitSignatures | server/pkg/git/signatures.go:69-92 | A commit gets the verdict on its own signature, then on its notes, with the keys and the count that the first phase left; an unknown commit is an error. |
| Quorum.SignersDecide | server/pkg/git/signatures.go:49-129 | Where no signature has two keys, the verdict counts the keys that verify the object's own signature over its encoding or some note over its id; it accepts exactly if the count is not negative and met, and reports the difference. |
| Quorum.OwnSignatureSuffices | server/pkg/git/signatures.go:49-66 | An object's own signature by the first key meets a quorum of one, whatever its notes are, even if they cannot be read. |
| Quorum.UnreadableFails | server/pkg/git/signatures.go:49-129 | A first key that cannot be parsed fails a signed object, unreadable notes fail an unsigned one, and missing notes leave its whole count open, unless nothing is required. |
| Quorum.FirstKeyMeaning | server/pkg/pgp/util.go:17-49 | A search for a key ends at the first one that verifies, or with an error exactly if one that cannot be parsed comes before it. |
| Quorum.VerifyObjectSignatures | server/pkg/git/signatures.go:94-129 | The second phase alone: notes, missing notes and unreadable notes. |
| Quorum.VerdictIsOneScan | server/pkg/git/signatures.go:69-129 | Both phases together decide as one scan over the embedded signature and the notes, so no key counts twice; SignersDecide says which signatures these are. |
| Quorum.Soundness | server/pkg/git/signatures.go:30-129 | Acceptance with n means n >= 0 and an injective assignment of n distinct signatures to n distinct positions of the trusted list, each verifying. |
| Quorum.Shortfall | server/pkg/git/signatures.go:94-129 | The number in the error is what a maximal matching leaves missing: no unused signature goes with an unused key. |
| Quorum.Completeness | server/pkg/pgp/util.go:17-49 | If all keys parse and no signature verifies under two positions, acceptance is equivalent to having n positions with a verifying signature, and the error reports exactly the difference. SignersDecide spells the signatures out. |
| QuorumBound.HalfIsEnough | server/pkg/pgp/util.go:17-49 | With readable keys a matching of size 2n - 1 is enough for a quorum of n, in whatever order signatures and keys come. |
| QuorumBound.QuorumGuarantee | server/pkg/git/signatures.go:69-129 | The exact bound: a quorum of n > 0 is met by every input with readable keys and a matching of size s if and only if s >= 2n - 1. |
| QuorumBound.FamilyRefused | server/pkg/pgp/util.go:17-49 | For every s and every g up to half of s, an input with s matching pairs of which the greedy scan finds s - g, and the number it then reports. |
| QuorumBound.GreedyCanMiss | server/pkg/git/signatures.go:94-129 | The smallest refusal: a repository in which two signatures by two keys fail a quorum of two. |
| TaskProtocol.StepKeeps | server/pkg/tasks_manager/task.go:57-185 | Every storage call, lock, send, receive, crash and unlocked read keeps the invariant that ties records, mutex holder, channel, worker and readers together. |
| TaskRuns.RunKeeps | server/pkg/tasks_manager/actions.go:65-179 | The invariant holds after every interleaving, with any number of crashes and restarts. |
| TaskRuns.NeverBroken | server/pkg/tasks_manager/manager.go:32-62 | No callback ever finds its task missing: the panics are unreachable, and recovery never fails. |
| TaskRuns.BetweenOperations | server/pkg/tasks_manager/task.go:57-185 | While nobody holds the mutex the three states are disjoint, statuses match states, at most one task runs, and the channel plus the received task lists exactly the queued records in the order they were added. |
| TaskRuns.CrashRecovery | server/pkg/tasks_manager/actions.go:131-152 | Whatever record a crash between two storage calls left queued or running, or both, ends completed as canceled and in no other state. |
| TaskRuns.LeftOverStays | server/pkg/tasks_manager/actions.go:131-152 | A leftover record stays listed or canceled at every step of the recovery, whatever happens in between. |
| TaskReads.StatusReadFinds | server/pkg/tasks_manager/backend.go:201-222 | The three unlocked reads never answer "not found" for a task that existed when they began and was not cleaned up since, under any interleaving. |
| TaskReads.LogReadMissesExactly | server/pkg/tasks_manager/backend.go:252-294 | In every reachable state: a log read, which looks in another order, misses an existing task exactly if the task waits or was left running by a crash at the first look, is not completed at the second and not queued at the third; a task already received and not yet current counts as waiting. |
| TaskReads.LogReadMayMiss | server/pkg/tasks_manager/backend.go:252-294 | The condition at the call, in every reachable state: some continuation misses an existing task if and only if it is neither the current job nor completed, and the system is not heading for the deadlock. |
| TaskReads.LogReadMissesAtOnce | server/pkg/tasks_manager/backend.go:252-294 | With nobody in between, exactly a task that a crash left running is missed. |
| TaskReads.LogReadCanMiss | server/pkg/tasks_manager/backend.go:252-294 | A reachable state of the working manager and a read that misses a waiting task. |
| TaskReads.LeftRunningIsMissed | server/pkg/tasks_manager/backend.go:252-294 | A reachable state after a crash in which a running task is missed at once. |
| TaskProgress.OneOutstanding | server/pkg/tasks_manager/actions.go:21-51 | With RunTask and AddOptionalTask alone at most one task is outstanding, the channel holds at most one, and the send made under the mutex is always possible. |
| TaskProgress.Progress | server/pkg/tasks_manager/actions.go:154-163 | The manager and its worker can move exactly if there is something to do and the two do not wait for each other. |
| TaskProgress.WorkFalls | server/pkg/tasks_manager/worker/worker.go:21-41 | Every step they take by themselves lowers a measure. |
| TaskProgress.ComesToRest | server/pkg/tasks_manager/actions.go:154-163 | In whatever order they move, they come to rest within that measure: stuck if a task was about to be added to a full channel behind a busy worker, and idle exactly otherwise. |
| TaskProgress.AllServed | server/pkg/tasks_manager/worker/worker.go:21-41 | At rest in the idle case every task that was there is completed, and nothing is queued or running. |
| TaskProgress.NeverDoomed | server/pkg/tasks_manager/actions.go:21-51 | With RunTask and AddOptionalTask alone the deadlock is never even ahead. |
| TaskProgress.AddTaskOutcome | server/pkg/tasks_manager/actions.go:53-63 | The condition before the call: AddTask ends in the deadlock if and only if the channel is full and the worker not waiting, whatever the order of the steps. |
| TaskProgress.DoomedForGood | server/pkg/tasks_manager/actions.go:154-163 | The deadlock ahead stays ahead until a crash, whatever callers and readers do, and no waiting task is started any more. |
| TaskProgress.Fill | server/pkg/tasks_manager/actions.go:53-63 | AddTask calls can fill the channel to any level while a task runs. |
| TaskProgress.AddTaskCanGetStuck | server/pkg/tasks_manager/actions.go:53-63 | With AddTask the deadlock is reachable. |
| TaskManager.Manager.SwitchTaskToRunning | server/pkg/tasks_manager/task.go:72-118 | Fails exactly when the task is not queued; otherwise it writes the running record before it erases the queued one. |
| TaskManager.Manager.SwitchTaskToCompleted | server/pkg/tasks_manager/task.go:120-185 | The storage after each of its writes is that of the storage-call machine; it fails exactly for a status that is not completed or a task that is nowhere. |
| TaskManager.RunJobWrites | server/pkg/tasks_manager/task.go:120-185 | A completion writes the new record, then the log if any, and erases one record only, the queued one if there are both. |
| TaskManager.Manager.InvalidateStorage | server/pkg/tasks_manager/actions.go:131-152 | Recovery never fails, from any storage, doubled records included: nothing is left queued or running, each such task is completed as canceled, everything else is as before. |
| TaskManager.FinishIsRun | server/pkg/tasks_manager/task.go:120-185 | The finishing callback is a run of single storage calls of the step system, passing through each of its intermediate storages. |
| TaskManager.FinishedIsRun | server/pkg/tasks_manager/worker/worker.go:31-35 | From taking the mutex with the task's outcome on, what TaskFinished leaves is what the step system comes to. |
| TaskManager.FinishRecords | server/pkg/tasks_manager/manager.go:41-62 | The completion of a queued or running task, with its outcome: status, reason, time and log, and nobody else's record. |
| TaskManager.StartIsRun | server/pkg/tasks_manager/task.go:72-118 | So is the starting callback. |
| TaskManager.RecoveryIsRun | server/pkg/tasks_manager/actions.go:131-152 | So is the whole recovery, for every order of the two listings. |
| TaskManager.RunTaskIsRun | server/pkg/tasks_manager/actions.go:21-38 | So is an accepted RunTask, from its busy check to its send. |
| TaskManager.AddTaskIsRun | server/pkg/tasks_manager/actions.go:53-63 | So is AddTask, which skips the busy check. |
| TaskManager.Manager.RunTask | server/pkg/tasks_manager/actions.go:21-38 | Busy exactly if initialized with some task queued or running; otherwise the new task is the only one outstanding. |
| TaskManager.Manager.AddTask | server/pkg/tasks_manager/actions.go:53-63 | Always stores the record; the send goes through exactly below capacity or with a waiting worker, which takes a task to make room; received, channel and new task keep their order. |
| TaskManager.Manager.IsBusy | server/pkg/tasks_manager/actions.go:165-179 | Busy means some record is queued or running. |
| TaskManager.Manager.QueueTask | server/pkg/tasks_manager/actions.go:154-163 | The record is stored before the send, and the channel never exceeds its capacity. |
| TaskManager.Manager.TaskStarted | server/pkg/tasks_manager/manager.go:32-39 | Panics exactly for a task that is not queued. |
| TaskManager.Manager.TaskFinished | server/pkg/tasks_manager/manager.go:41-62 | Panics exactly for a task that is neither queued nor running; otherwise its record is completed, FAILED with the reason given or SUCCEEDED without one, modified now and with its log, and no other completed record changes. |
| TaskManager.Manager.ReadTaskLog | server/pkg/tasks_manager/backend.go:252-294 | With nobody in between, a task that exists is not found exactly if its record says that it runs, no worker has it, and it is in no other state; otherwise the log so far or the stored one is returned, or that the task is queued. |
| TaskManager.Manager.ServeOne | server/pkg/tasks_manager/worker/worker.go:21-41 | One turn of the worker never panics and takes the first task of the channel, which ends completed with the status, reason, time and log its outcome calls for; channel and queued records stay in step. |
| TaskManager.Manager.Start | server/pkg/tasks_manager/worker/worker.go:21-41 | The loop serves the tasks in the order of the channel, and at the end the record of each has the status, reason, time and log of its own outcome. |
| TaskManager.Manager.CleanupTaskHistory | server/pkg/tasks_manager/periodic.go:50-98 | For a limit that is not negative: the contract of the cleanup, logs included, queued and running untouched; a negative limit panics and changes nothing. |
| TaskHistory.TailDeleted | server/pkg/tasks_manager/periodic.go:77-98 | Deleting all but the most recent leaves exactly the limit if more existed, every survivor at least as recent as every deleted task, and no log of a deleted one. |
| TaskHistory.LimitKeptWhenExceeded | server/pkg/tasks_manager/periodic.go:83-87 | A history within the limit is deleted whole: the smaller of limit and history survives exactly if the limit was exceeded or there was nothing to keep. |
| TaskLog.PageMeaning | server/pkg/tasks_manager/backend.go:301-308 | A page continues the log at the offset, is empty exactly at its end, and is full unless it reaches the end; limit zero means no limit. |
| TaskLog.Transmitted | server/pkg/tasks_manager/backend.go:310-314 | A page travels as a JSON string: it arrives two bytes longer for each byte that belongs to no UTF-8 character, and unchanged exactly if there is none. |
| TaskLog.RunesAreCharacters | server/pkg/tasks_manager/backend.go:310-314 | What is taken for a character is the UTF-8 encoding of a Unicode scalar value, and every such encoding is taken for one (RFC 3629, section 3). |
| TaskLog.WatchTaskLog | release/pkg/vault/client.go:253-277 | Over a growing log, with failed polls in between and pages as they arrive, what has been shown is the prefix of length offset as long as pages are of whole characters. |
| TaskLog.StrayBytesSkip | release/pkg/vault/client.go:270-273 | Each page starts where the one before ended if and only if all pages are of whole characters; each stray byte takes the offset two bytes too far. |
| TaskLog.WatchIsExact | release/pkg/vault/client.go:253-277 | Where a page can hold the whole log, the offset never exceeds the length of the polled log if and only if the log was whole characters at every answered poll. |
| TaskLog.ReachIsTightest | release/pkg/vault/client.go:253-277 | How far the watcher gets in closed form: the least, over all polls, of that poll's log plus what the later polls could carry. |
| TaskLog.WatchedToTheEnd | release/pkg/vault/client.go:253-277 | Once the log has ended, exactly the computed number of further polls shows all of it. |
| TaskLog.FetchAll | server/pkg/tasks_manager/backend.go:301-308 | Fetching until an empty page terminates with exactly the log, after the rounded-up number of pages. |
| Semver.Trichotomy | client/pkg/repo/update.go:285-290 | Of two versions exactly one precedes, unless they differ in build metadata alone (SemVer 2.0.0, section 11). |
| Semver.Transitive | client/pkg/repo/update.go:285-290 | Precedence is transitive. |
| Semver.NotLessTransitive | client/pkg/repo/update.go:285-290 | Not preceding is transitive: precedence is a strict weak order. |
| Semver.NumbersDecide | client/pkg/repo/update.go:285-290 | The version with the greater major, then minor, then patch number is the later one, whatever the rest is. |
| Semver.PreReleaseComesFirst | client/pkg/repo/update.go:285-290 | With equal numbers a pre-release comes before the release. |
| Semver.IdentifiersDecide | client/pkg/repo/update.go:285-290 | With equal numbers the first differing identifier decides: numbers as numbers and below texts, texts by their first differing character; fewer identifiers come first. |
| Semver.BuildIsIgnored | client/pkg/repo/update.go:285-290 | Build metadata never takes part. |
| Semver.Latest | client/pkg/repo/update.go:273-299 | For every iteration order the loop finds a name the constraint admits with none strictly greater, or nothing exactly if none is admitted; LatestIsGreatest says what that means for the numbers. |
| Semver.LatestIsGreatest | client/pkg/repo/update.go:273-299 | No admitted name has a greater major, minor and patch than the latest one, and with equal numbers none is a release unless it is one. |
| Semver.OrdersAgree | client/pkg/repo/update.go:273-299 | Any two iteration orders agree up to precedence. |
| Semver.LatestExists | client/pkg/repo/update.go:294-299 | Where some name is admitted there is a latest one. |
| ReleaseStore.Client.SelectAppropriateReleaseTargets | client/pkg/repo/update.go:202-230 | The files under os-arch if the release has any, else those under os-any, else under any-arch, else under any-any, all of them and no others; an error exactly if none of the four has files. |
| ReleaseStore.PlatformsOwnFirst | client/pkg/repo/update.go:202-230 | The choice for a platform over the targets themselves, each of the four names written out. |
| ReleaseStore.PicksSome | client/pkg/repo/update.go:202-230 | A choice exists exactly if one of the four has targets. |
| ReleaseStore.Client.SyncChannelRelease | client/pkg/repo/update.go:129-200 | On success every file of the preferred platform directory is there with accepted content, and if anything was replaced no others are; on failure nothing has changed and nothing temporary is left; an up-to-date release is not touched; at every step the directory is part of the old one, absent, or the complete new one. |
| ReleaseStore.Client.StageRelease | client/pkg/repo/update.go:167-183 | The temporary directory ends complete, or gone after a failed download. |
| ReleaseStore.Client.UpdateChannel | client/pkg/repo/update.go:26-100 | The channel file changes only after its release is in place; an update that fails changes nothing, one with nothing to do touches nothing. |
| ReleaseStore.Client.UpdateToVersion | client/pkg/repo/update.go:102-121 | Pins the latest admitted release, after it is in place: no admitted release has a greater major, minor and patch; each error has its exact condition, and leaves the disk as it was. |
| ReleaseStore.Client.FindRelease | client/pkg/repo/update.go:262-300 | The latest admitted release of the repository's targets, none with greater numbers being admitted, or nothing exactly if none is admitted. |
| ReleaseStore.Client.CleanReleases | client/pkg/repo/clean_releases.go:14-62 | Ends with exactly the stale releases and their records of use gone, and at every step what is kept is whole. |
| ReleaseStore.Client.GetActualLocalReleases | client/pkg/repo/clean_releases.go:64-92 | Exactly the releases that some channel file names. |
| ReleaseStore.Client.GetChannelRelease | client/pkg/repo/client.go:258-289 | The release the channel file names, and the time of its use is now; at every step nothing but the record of that use differs. |
| ReleaseStore.Client.ResetUse | client/pkg/util/metafile.go:44-69 | The metafile is replaced, and nothing else. |
| ReleaseStore.Client.FindReleaseDir | client/pkg/repo/client.go:241-256 | Succeeds exactly if the release has one directory, and tells none from several. |
| ReleaseStore.Client.FindLocalReleaseByVersion | client/pkg/repo/client.go:317-352 | The latest pinned release that the constraint admits, none with greater numbers being pinned and admitted, or nothing exactly if none is admitted. |
| ReleaseStore.StepKeepsSound | client/pkg/repo/update.go:26-200 | Every operation keeps every reference whole, every directory of one platform, and the temporary directories empty. |
| ReleaseStore.ReferencesHold | client/pkg/repo/client.go:241-256 | In every run from an empty directory, with targets changing and downloads failing at will, every release named by a channel and every pinned one has exactly one os-arch directory. |
| ReleaseStore.CleaningIsExact | client/pkg/repo/clean_releases.go:22-58 | A release survives a cleaning if and only if a channel names it, it is pinned, or it was used less than 24 hours ago; no reference changes. |
| ReleaseStore.HeldForADay | client/pkg/repo/client.go:258-279 | A release returned by GetChannelRelease at time t is there, whole, after any run whose cleanings are all before t plus 24 hours. |
| ReleaseStore.PinnedIsFound | client/pkg/repo/update.go:102-121 | After UpdateToVersion pinned a release, the same constraint is answered in every later state with an admitted release that is whole and does not precede it. |
| ReleaseStore.UpdateSettles | client/pkg/repo/update.go:26-100 | A successful update leaves nothing to do for the same targets, so the next one cannot fail and writes nothing. |
| ReleaseStore.MomentsAreSteady | client/pkg/repo/update.go:129-200 | At every file-system step of an update only the release it is replacing may be incomplete, at every step of a cleaning or a use none that is referenced, and no directory mixes platforms. |
| ReleaseRepair.ReferencesHoldBut | client/pkg/repo/update.go:26-200 | In every run whose operations may be stopped at any file-system step, a referenced release is whole unless a stopped update was replacing it and none has finished since. |
| ReleaseRepair.UpdateMakesWhole | client/pkg/repo/update.go:26-100 | One finished update of a channel makes its release whole again, with all its files, whatever was stopped before. |
| ReleaseRepair.PinRepairs | client/pkg/repo/update.go:102-121 | So does the update that pins a version. |
| PathSplit.SplitFilepath | server/pkg/publisher/publisher.go:369-411 | Never writes outside its preallocated array, terminates, and returns the split of the path. |
| PathSplit.IndexRuneWithEscaping | server/pkg/publisher/publisher.go:416-430 | The first separator without a backslash before it, or -1 exactly if there is none. |
| PathSplit.SplitIsUnique | server/pkg/publisher/publisher.go:369-430 | Joining gives back the path, and no other list of pieces does so with cuts at the same separators. |
| PathSplit.CutsCounted | server/pkg/publisher/publisher.go:381-411 | There is one piece more than separators without a backslash before them. |
| PathSplit.CutsAt | server/pkg/publisher/publisher.go:381-430 | The cuts of a split are exactly the slashes at the start or with no backslash before them. |
| PathSplit.FirstOfSplit | server/pkg/publisher/publisher.go:235-240 | The first piece is what comes before the first cut. |
| Paths.StaysWithin | server/pkg/publisher/publisher.go:289 | A path that does not climb out of its own directory stays below any directory it is joined to. |
| Paths.JoinBelow | server/pkg/publisher/publisher.go:289 | Joining such a path below two plain components appends its cleaned form to them. |
| Paths.CleanIgnores | server/pkg/publisher/publisher.go:235-289 | A dot, or a directory followed by two dots, drops out of a cleaned path. |
| Paths.CleanPlain | server/pkg/publisher/publisher.go:235-289 | A relative path of plain components is its own cleaned form. |
| Publishing.PlatformsChecked | server/pkg/publisher/publisher.go:240-252 | Exactly twelve platform names pass, and exactly the four systems without an architecture make the index expression panic. |
| Publishing.PlatformNames | server/pkg/publisher/publisher.go:240-252 | The twelve names that pass and the four that panic, written out. |
| Publishing.SystemAlonePanics | server/pkg/publisher/publisher.go:235-252 | The file linux/x is such a file. |
| Publishing.Server.StageReleaseTarget | server/pkg/publisher/publisher.go:231-308 | Exactly if the first piece of the cleaned path is a platform, the data is staged below releases/<release>/ at the cleaned path and the signature below signatures/<release>/, with .sig appended before cleaning. |
| Publishing.TargetsBelow | server/pkg/publisher/publisher.go:289-303 | A file that passes is staged below releases/<release>/ and its signature below signatures/<release>/, wherever the archive says it lies. |
| Publishing.Server.Release | server/path_release.go:97-226 | All entries are committed or none: a failure, a bad path or a panic leaves the committed targets alone, and it panics exactly if the first bad entry lacks its architecture. What is committed: each file holds its data and each signature target its signature, the last entry of a path deciding, and every target of no entry is as it was. |
| Publishing.ReleaseContents | server/path_release.go:187-209 | The contents a release leaves, path by path, for every archive of good entries. |
| Publishing.Server.GetExistingReleases | server/pkg/publisher/publisher.go:341-366 | Exactly the release names of the targets, each once, for every order of the targets. |
| Publishing.Server.ValidatePublishConfig | server/path_publish.go:225-308 | Accepts exactly the well-formed configurations that mention existing releases only; the list of missing releases is complete, without repetition, and reported exactly if nothing else is wrong. |
| Publishing.Server.ValidateGroup | server/path_publish.go:252-300 | Accepts exactly the groups whose channels have known names, each once, and proper versions, and collects every missing version. |
| Publishing.Server.StageChannelsConfig | server/pkg/publisher/publisher.go:310-326 | The nested loops stage the configuration. |
| Publishing.Server.Publish | server/path_publish.go:102-205 | Commits exactly if the head is new, descends from the last published commit, is permitted and its configuration accepted; then every channel's path holds its version and nothing outside channels/ has changed; the record of the commit comes last. |
| Publishing.ChannelPathsDiffer | server/pkg/publisher/publisher.go:315-322 | An accepted configuration stages pairwise distinct paths. |
| Publishing.ConfigStaged | server/pkg/publisher/publisher.go:310-326 | Each channel ends with its own version, and no other target changes. |
| Publishing.ConfigContents | server/pkg/publisher/publisher.go:310-326 | The same by paths: channels/<group>/<channel> holds the version and a newline, and targets outside channels/ are as they were. |
| Publishing.PublishedAgain | server/path_publish.go:190-198 | Publishing the same configuration again changes nothing, so a lost record of the commit does no harm. |
| Publishing.RunKeepsConsistent | server/path_publish.go:225-308 | Over any sequence of release and publish tasks every channel's text trims to a version that has a target, and every release target lies in a directory of its release. |
| Publishing.ChannelsHaveReleases | client/pkg/repo/client.go:281-289 | What a client reads in a channel file is a release the repository has, in every reachable state. |
| Publishing.PublishedDescend | server/path_publish.go:126-141 | The published commits form a line: each descends from all those before it. |
| ShellExport.FormatSourceScriptEnvExports | client/pkg/repo/use.go:171-203 | The loop builds the block line by line, for POSIX shells and for PowerShell. |
| ShellExport.LinesWritten | client/pkg/repo/use.go:171-203 | The lines that set a value without quotes, assign an expression and unset a variable, written out for both kinds of shell. |
| ShellExport.ReplacedAtFirst | client/pkg/repo/use.go:184-195 | Replacing a character leaves what comes before its first occurrence, puts the text there and goes on behind it. |
| PosixShell.QuotedWord | client/pkg/repo/use.go:192-199 | A quoted value reads back as itself under POSIX sections 2.2.1 and 2.2.2, whatever characters it holds. |
| PosixShell.SourcingUndoesFormatting | client/pkg/repo/use.go:171-203 | A POSIX shell that sources the block makes exactly the intended settings, across newlines in values and between lines. |
| SourceScripts.EnvNamesDiffer | client/pkg/repo/use.go:255-278 | Two variables share a name exactly if they are of one kind and the repositories' names are formatted alike. |
| SourceScripts.LettersInCapitals | client/pkg/repo/use.go:272-278 | Letters, digits and underscores of a repository's name stay in place, in capitals. |
| SourceScripts.RunIsUnderscore | client/pkg/repo/use.go:272-278 | A run of other characters, however long, becomes one underscore between what comes before and after it. |
| SourceScripts.LastUseDecides | client/pkg/repo/use.go:17-63 | In either shell, after any sequence of scripts of any repositories, the last one of a repository decides: exactly one mode is set, the other's variables are gone. |
| PowerShell.ReadsBack | client/pkg/repo/use.go:183-189 | PowerShell reads a doubled value back if and only if it holds no typographic quote. |
| PowerShell.StatementRead | client/pkg/repo/use.go:177-189 | A whole line is read as the setting it was written for if and only if its value holds no typographic quote. |
| PowerShell.SourcingUndoesFormatting | client/pkg/repo/use.go:171-203 | PowerShell makes exactly the settings of the block if no value holds such a quote. |

## Left out

- S3, HTTP, git cloning, Docker and BuildKit, the Vault framework, command lines, documentation generators and front ends.
- Cryptography and go-tuf: signature checks, key parsing, target metadata and ancestry of commits are abstract functions. A target's metadata is the set of contents it accepts; go-tuf's rounding of an expiry by less than a second is a parameter of the rotator.
- Storage errors, JSON errors and failures of removals and renames. Downloads may fail everywhere, the plugin may crash between any two storage calls, and the record of a published commit may be lost.
- ELF and PGP signing of release files: an entry of the archive carries the bytes that are staged and their signature.
- UUIDs are natural numbers and never repeat. Version parsing and constraint checking are parameters; of the server's version library only the shape of what it accepts is assumed (`Publishing.Sensible`).
- One reading of the clock for each operation, and times that do not go back within a run of client operations.
- The worker's endless loop ends when the outcomes given for its tasks are used up, and its callbacks share one clock reading there. Task bodies are outcomes: after a timeout the body goes on running in the source, so nothing is claimed about bodies excluding each other.
- The last storage call of a switch and the release of the mutex are one step of the protocol.
- `Manager` carries the sequential code. Lemmas show its two switches, its recovery, RunTask and AddTask to be runs of the step system; the cleanup appears in both forms without such a lemma.
- Client operations run one at a time, from an empty directory. Locks, file modes, empty directories and `RemoveRepo` are not modelled; `CleanReleases` interleaved with an unfinished update could remove a release just synchronised.
- Release names are single path components without pattern characters, as the server's versions are, and targets are structured names. Downloads write into a directory that starts empty, since an existing file would not be truncated; after a stopped operation the temporary directories are taken to be cleared.
- Publish and release requests are sequential: the source opens the repository and reads the last published commit before the task is queued.
- Log lines are bytes. The watcher's line cleaning and its cancellation when the task ends are left out, and `FetchAll` is about the pages of the service, before they travel.
- The rest of the source script, and what a command substitution yields: an expression is one opaque token with a value of its own. Whether PowerShell keeps a variable that is set to the empty text depends on its version; here it does.
- Of what other tasks commit to the TUF repository only the expiries matter to the rotator (`Rotator.Proper`).
- Time zones with daylight saving, message texts and logging.
- TaskManager.Manager.CleanupTaskHistory: a history within the limit is deleted whole, as the code does, although the setting is documented as the limit of the history.
- Quorum.Completeness: states the counting law for inputs in which no signature has two keys; for all inputs QuorumBound.QuorumGuarantee gives the exact bound.
- TaskProgress.NeverDoomed: excludes AddTask, for which TaskProgress.AddTaskOutcome gives the exact condition.
