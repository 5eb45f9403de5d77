/** The manager and its worker: the sequential code between two releases of the mutex. */
module TaskManager {
  import opened Options
  import opened TaskRecords
  import opened TaskProtocol
  import opened TaskRuns
  import opened TaskHistory

  // ---------- what the switches write ----------

  /** The storage after each write of a completion, and where the completion ends. */
  datatype Trace = Trace(writes: seq<Store>, end: Pc)

  function RunJob(store: Store, j: Job): (t: Trace)
    ensures t.end.Done? || t.end.NotFound?
    decreases Rank(j.pc)
  {
    if Rank(j.pc) == 0 then Trace([], j.pc)
    else
      var (next, moved) := JobStep(store, j);
      var rest := RunJob(next, moved);
      if Rank(j.pc) <= 3 then rest.(writes := [next] + rest.writes) else rest
  }

  /** The writes of a completion that found the given record: the completed record, the log if there is one, the erasure. */
  function CompletionWrites(store: Store, j: Job, task: Task, from: State): seq<Store> {
    var put := store.Put(StateOf(j.status), j.uuid, Completion(j, task));
    var logged := if j.log != "" then put.PutLog(j.uuid, j.log) else put;
    [put] + (if j.log != "" then [logged] else []) + [logged.Delete(from, task.uuid)]
  }

  lemma RunJobWrites(store: Store, j: Job)
    requires j.pc.LookRunning?
    ensures RunJob(store, j) ==
            if j.uuid in store.queued then Trace(CompletionWrites(store, j, store.queued[j.uuid], Queued), Done)
            else if j.uuid in store.running then Trace(CompletionWrites(store, j, store.running[j.uuid], Running), Done)
            else Trace([], NotFound)
  {
    var looked := j.(pc := LookQueued(store.Get(Running, j.uuid)));
    assert RunJob(store, j) == RunJob(store, looked);
    if j.uuid in store.queued {
      WriteOut(store, looked.(pc := Pc.Write(store.queued[j.uuid], Queued)));
    } else if j.uuid in store.running {
      WriteOut(store, looked.(pc := Pc.Write(store.running[j.uuid], Running)));
    } else {
      assert RunJob(store, j.(pc := NotFound)) == Trace([], NotFound);
    }
  }

  lemma WriteOut(store: Store, j: Job)
    requires j.pc.Write?
    ensures RunJob(store, j) == Trace(CompletionWrites(store, j, j.pc.task, j.pc.from), Done)
  {
    var task, from := j.pc.task, j.pc.from;
    var put := store.Put(StateOf(j.status), j.uuid, Completion(j, task));
    var erase := j.(pc := Pc.Erase(task, from));
    var logged := if j.log != "" then put.PutLog(j.uuid, j.log) else put;
    assert RunJob(logged, erase) == Trace([logged.Delete(from, task.uuid)], Done);
    if j.log != "" {
      assert RunJob(put, Written(j, task, from)) == Trace([logged] + [logged.Delete(from, task.uuid)], Done);
    }
  }

  function Last(store: Store, writes: seq<Store>): Store {
    if writes == [] then store else writes[|writes| - 1]
  }

  function StartWrites(store: Store, uuid: Uuid, now: int): seq<Store>
    requires uuid in store.queued
  {
    var put := store.Put(Running, uuid, store.queued[uuid].(status := RUNNING, modified := now));
    [put, put.Delete(Queued, uuid)]
  }

  function Canceled(task: Task, now: int): Task {
    task.(status := CANCELED, modified := now, reason := INVALIDATED)
  }

  /** The storage after recovery: nothing queued or running, and all of it completed as canceled. */
  ghost predicate Recovered(before: Store, after: Store, now: int) {
    && after.queued == map[] && after.running == map[] && after.logs == before.logs
    && after.completed.Keys == before.completed.Keys + before.queued.Keys + before.running.Keys
    && forall u :: u in after.completed ==>
         after.completed[u] == if u in before.running then Canceled(before.running[u], now)
                               else if u in before.queued then Canceled(before.queued[u], now)
                               else before.completed[u]
  }

  datatype Answer = Busy | Sent | Blocked

  datatype LogAnswer = LogFound(log: string) | InQueue | Unknown

  function Taken(received: Option<Uuid>): seq<Uuid> {
    if received.Some? then [received.value] else []
  }

  /** What the action of a task comes to. */
  datatype Outcome = Outcome(failed: bool, reason: string, log: string)

  class Manager {
    var store: Store
    var initialized: bool
    var taskChan: seq<Uuid>
    var currentJob: Option<Uuid>
    ghost var writes: seq<Store>

    constructor (store: Store)
      ensures this.store == store && !initialized && taskChan == [] && currentJob == None && writes == []
    {
      this.store, initialized, taskChan, currentJob, writes := store, false, [], None, [];
    }

    // ---------- storage calls ----------

    method Put(state: State, uuid: Uuid, task: Task)
      modifies this`store, this`writes
      ensures store == old(store).Put(state, uuid, task) && writes == old(writes) + [store]
    {
      store := store.Put(state, uuid, task);
      writes := writes + [store];
    }

    method PutLog(uuid: Uuid, log: string)
      modifies this`store, this`writes
      ensures store == old(store).PutLog(uuid, log) && writes == old(writes) + [store]
    {
      store := store.PutLog(uuid, log);
      writes := writes + [store];
    }

    method Delete(state: State, uuid: Uuid)
      modifies this`store, this`writes
      ensures store == old(store).Delete(state, uuid) && writes == old(writes) + [store]
    {
      store := store.Delete(state, uuid);
      writes := writes + [store];
    }

    method DeleteLog(uuid: Uuid)
      modifies this`store, this`writes
      ensures store == old(store).DeleteLog(uuid) && writes == old(writes) + [store]
    {
      store := store.DeleteLog(uuid);
      writes := writes + [store];
    }

    /** The keys under a prefix, in whatever order the storage returns them. */
    method List(state: State) returns (order: seq<Uuid>)
      ensures Lists(order, store.Of(state))
    {
      order := [];
      var rest := store.Of(state);
      while rest != map[]
        invariant forall u :: multiset(order)[u] + Count(u in rest) == Count(u in store.Of(state))
        decreases |rest|
      {
        var u :| u in rest;
        assert (rest - {u}).Keys == rest.Keys - {u};
        assert |rest - {u}| == |(rest - {u}).Keys| && |rest| == |rest.Keys|;
        order := order + [u];
        rest := rest - {u};
      }
    }

    // ---------- switches ----------

    method AddNewTask(uuid: Uuid, now: int)
      modifies this`store, this`writes
      ensures store == old(store).Put(Queued, uuid, Task(uuid, QUEUED, "", now, now)) && writes == old(writes) + [store]
    {
      Put(Queued, uuid, Task(uuid, QUEUED, "", now, now));
    }

    method SwitchTaskToRunning(uuid: Uuid, now: int) returns (ok: bool)
      modifies this`store, this`writes
      ensures ok <==> uuid in old(store).queued
      ensures !ok ==> store == old(store) && writes == old(writes)
      ensures ok ==> writes == old(writes) + StartWrites(old(store), uuid, now) && store == Last(old(store), writes)
    {
      var prevTask := store.Get(Queued, uuid);
      if prevTask.None? {
        return false;
      }
      Put(Running, uuid, prevTask.value.(status := RUNNING, modified := now));
      Delete(Queued, uuid);
      return true;
    }

    method SwitchTaskToCompleted(status: Status, uuid: Uuid, reason: string, log: string, now: int) returns (ok: bool)
      modifies this`store, this`writes
      ensures !IsCompleted(status) ==> !ok && store == old(store) && writes == old(writes)
      ensures IsCompleted(status) ==>
                var t := RunJob(old(store), NewJob(uuid, status, reason, log, now));
                ok == t.end.Done? && writes == old(writes) + t.writes && store == Last(old(store), t.writes)
    {
      if !IsCompleted(status) {
        return false;
      }
      RunJobWrites(store, NewJob(uuid, status, reason, log, now));
      var prevTask, prevState := None, Running;
      var states := [Running, Queued];
      for k := 0 to |states|
        invariant prevTask == if k == 2 && uuid in store.queued then store.Get(Queued, uuid)
                              else if k >= 1 then store.Get(Running, uuid) else None
        invariant prevTask.Some? ==> prevState == if k == 2 && uuid in store.queued then Queued else Running
      {
        var t := store.Get(states[k], uuid);
        if t.Some? {
          prevTask, prevState := t, states[k];
        }
      }
      if prevTask.None? {
        return false;
      }
      Put(StateOf(status), uuid, prevTask.value.(status := status, modified := now, reason := reason));
      if log != "" {
        PutLog(uuid, log);
      }
      Delete(prevState, prevTask.value.uuid);
      return true;
    }

    // ---------- recovery ----------

    method InvalidateStorage(now: int) returns (ok: bool)
      requires store.Filed()
      modifies this`store, this`writes
      ensures ok && Recovered(old(store), store, now)
      ensures forall u :: u in old(store).queued || u in old(store).running ==>
                && u in store.completed && store.completed[u].status == CANCELED && store.completed[u].modified == now
                && store.completed[u].reason == "the task canceled due to restart of the plugin"
      ensures exists running, queued :: Lists(running, old(store).running) && Lists(queued, old(store).queued) &&
                store == CancelAll(old(store), running + queued, now)
    {
      hide *;
      ghost var before := store;
      StorageLists(store);
      var running := List(Running);
      var queued := List(Queued);
      var list := running + queued;
      CoversAll(running, queued, store);
      RecoveryStarts(store, list, now);
      for k := 0 to |list|
        invariant store.Filed() && store.logs == before.logs
        invariant Covers(list[k..], store)
        invariant Partly(before, store, now)
        invariant CancelAll(store, list[k..], now) == CancelAll(before, list, now)
      {
        ghost var was := store;
        CoversNext(was, list, k, now);
        CancelOne(was, list[k], now);
        PartlyKept(before, was, list[k], now);
        CancelNext(was, list, k, now);
        JobsComplete();
        ok := SwitchTaskToCompleted(CANCELED, list[k], INVALIDATED, "", now);
        if !ok {
          return;
        }
      }
      AllCanceled(before, store, list[|list|..], now);
      CanceledRecords(before, store, now);
      return true;
    }

    // ---------- history ----------

    /** The records of all completed tasks, in the order of the listing. */
    method CompletedTasks() returns (tasks: seq<Task>)
      requires store.Filed()
      ensures AllCompleted(tasks, store)
    {
      var list := List(Completed);
      assert Lists(list, store.completed);
      tasks := [];
      for k := 0 to |list|
        invariant |tasks| == k && forall i :: 0 <= i < k ==> list[i] in store.completed && tasks[i] == store.completed[list[i]]
      {
        ListMember(list, k, store.completed);
        tasks := tasks + [store.completed[list[k]]];
      }
      GotAll(list, tasks, store);
    }

    /** Deletes each task and then its log. */
    method DeleteTasks(tasks: seq<Task>)
      modifies this`store, this`writes
      ensures Deleted(old(store), store, tasks)
    {
      ghost var before := store;
      for k := 0 to |tasks|
        invariant Deleted(before, store, tasks[..k])
      {
        DeletedNext(before, store, tasks[..k], tasks[k]);
        assert tasks[..k + 1] == tasks[..k] + [tasks[k]];
        hide Deleted;
        Delete(Completed, tasks[k].uuid);
        DeleteLog(tasks[k].uuid);
      }
      assert tasks[..|tasks|] == tasks;
    }

    /** A negative limit makes the slice expression panic, whatever the history. */
    method CleanupTaskHistory(limit: int) returns (panics: bool)
      requires store.Filed()
      modifies this`store, this`writes
      ensures panics <==> limit < 0
      ensures panics ==> store == old(store)
      ensures !panics ==> Cleaned(old(store), store, limit)
    {
      hide Deleted, Cleaned, AllCompleted, RecentFirst;
      ghost var before := store;
      var unsorted := CompletedTasks();
      var tasks := SortByModified(unsorted);
      ghost var sorted := tasks;
      Permuted(unsorted, sorted, store);
      if |tasks| > limit {
        if limit < 0 {
          return true;
        }
        tasks := tasks[limit..];
      }
      DeleteTasks(tasks);
      TailDeleted(before, store, sorted, limit);
      return false;
    }

    // ---------- adding tasks ----------

    method IsBusy() returns (busy: bool)
      ensures busy <==> store.running != map[] || store.queued != map[]
    {
      var list := List(Running);
      ListEmpty(list, store.running);
      if |list| != 0 {
        return true;
      }
      list := List(Queued);
      ListEmpty(list, store.queued);
      return |list| != 0;
    }

    /**
     * The send waits while the channel is full. A worker that waits for a task takes the first one meanwhile; one that
     * does not will need the mutex first, and the call blocks, with the record already stored.
     */
    method QueueTask(uuid: Uuid, now: int, workerWaits: bool) returns (sent: bool, received: Option<Uuid>)
      modifies this`store, this`writes, this`taskChan
      ensures store == old(store).Put(Queued, uuid, Task(uuid, QUEUED, "", now, now))
      ensures sent <==> |old(taskChan)| < 128 || workerWaits
      ensures received.Some? <==> |old(taskChan)| >= 128 && workerWaits
      ensures Taken(received) + taskChan == old(taskChan) + if sent then [uuid] else []
      ensures |old(taskChan)| <= 128 ==> |taskChan| <= 128
    {
      AddNewTask(uuid, now);
      received := None;
      if |taskChan| >= CAPACITY && workerWaits {
        received := Some(taskChan[0]);
        taskChan := taskChan[1..];
      }
      sent := |taskChan| < CAPACITY || received.Some?;
      if sent {
        taskChan := taskChan + [uuid];
      }
    }

    /** The first call after a start recovers the storage. */
    method Initialize(now: int)
      requires store.Filed()
      modifies this`store, this`writes, this`initialized
      ensures initialized
      ensures if old(initialized) then store == old(store) else Recovered(old(store), store, now)
    {
      if !initialized {
        initialized := true;
        var ok := InvalidateStorage(now);
      }
    }

    /** Refused exactly when some task is queued or running, which it never is in the first call after a start. */
    method RunTask(uuid: Uuid, now: int, workerWaits: bool) returns (answer: Answer, received: Option<Uuid>)
      requires store.Filed() && !store.Has(uuid)
      modifies this`store, this`writes, this`initialized, this`taskChan
      ensures initialized
      ensures answer == Busy <==> old(initialized) && (old(store).running != map[] || old(store).queued != map[])
      ensures answer == Busy ==> store == old(store) && taskChan == old(taskChan) && received == None
      ensures answer != Busy ==>
                && store.queued == map[uuid := Task(uuid, QUEUED, "", now, now)] && store.running == map[]
                && (if old(initialized) then store.completed == old(store).completed
                    else Recovered(old(store), store.(queued := map[]), now))
                && answer == (if |old(taskChan)| < 128 || workerWaits then Sent else Blocked)
                && Taken(received) + taskChan == old(taskChan) + if answer == Sent then [uuid] else []
    {
      Initialize(now);
      var busy := IsBusy();
      if busy {
        return Busy, None;
      }
      assert store.(queued := map[]) == store;
      var sent;
      sent, received := QueueTask(uuid, now, workerWaits);
      answer := if sent then Sent else Blocked;
    }

    method AddTask(uuid: Uuid, now: int, workerWaits: bool) returns (answer: Answer, received: Option<Uuid>)
      requires store.Filed() && !store.Has(uuid)
      modifies this`store, this`writes, this`initialized, this`taskChan
      ensures initialized && uuid in store.queued
      ensures old(initialized) ==> store == old(store).Put(Queued, uuid, Task(uuid, QUEUED, "", now, now))
      ensures !old(initialized) ==>
                store.queued == map[uuid := Task(uuid, QUEUED, "", now, now)] && Recovered(old(store), store.(queued := map[]), now)
      ensures answer == if |old(taskChan)| < 128 || workerWaits then Sent else Blocked
      ensures Taken(received) + taskChan == old(taskChan) + if answer == Sent then [uuid] else []
    {
      Initialize(now);
      assert !old(initialized) ==> store.(queued := map[]) == store;
      var sent;
      sent, received := QueueTask(uuid, now, workerWaits);
      answer := if sent then Sent else Blocked;
    }

    // ---------- the worker ----------

    /** The three callbacks; each panics exactly when its task is not where it should be. */
    method TaskStarted(uuid: Uuid, now: int) returns (panics: bool)
      modifies this`store, this`writes
      ensures panics <==> uuid !in old(store).queued
      ensures store == if panics then old(store) else Last(old(store), StartWrites(old(store), uuid, now))
      ensures !panics ==>
                && store.running == old(store).running[uuid := old(store).queued[uuid].(status := RUNNING, modified := now)]
                && store.queued == old(store).queued - {uuid}
                && store.completed == old(store).completed && store.logs == old(store).logs
    {
      var ok := SwitchTaskToRunning(uuid, now);
      return !ok;
    }

    method TaskFinished(uuid: Uuid, o: Outcome, now: int) returns (panics: bool)
      modifies this`store, this`writes
      ensures panics <==> uuid !in old(store).queued && uuid !in old(store).running
      ensures store == Last(old(store), RunJob(old(store), FinishJob(uuid, o, now)).writes)
      ensures !panics ==>
                && store.completed.Keys == old(store).completed.Keys + {uuid}
                && store.completed[uuid].status == (if o.failed then FAILED else SUCCEEDED)
                && store.completed[uuid].reason == (if o.failed then o.reason else "")
                && store.completed[uuid].modified == now
                && (o.log != "" ==> uuid in store.logs && store.logs[uuid] == o.log)
                && (forall v :: v in old(store).completed && v != uuid ==> store.completed[v] == old(store).completed[v])
    {
      if uuid in store.queued || uuid in store.running {
        FinishRecords(store, uuid, o, now);
      }
      hide StartWrites, Completion;
      RunJobWrites(store, FinishJob(uuid, o, now));
      var ok;
      if o.failed {
        ok := SwitchTaskToCompleted(FAILED, uuid, o.reason, o.log, now);
      } else {
        ok := SwitchTaskToCompleted(SUCCEEDED, uuid, "", o.log, now);
      }
      return !ok;
    }

    method HoldRunningJob(uuid: Uuid) returns (held: bool)
      ensures held <==> currentJob == Some(uuid)
    {
      held := currentJob.Some? && currentJob.value == uuid;
    }

    /**
     * A log read with nobody in between: it finds the log of the current job, so far as it is written, or of a completed
     * task. A task that exists is not found exactly if its record says that it runs and it is not the current job.
     */
    method ReadTaskLog(uuid: Uuid, soFar: string) returns (answer: LogAnswer)
      ensures currentJob == Some(uuid) ==> answer == LogFound(soFar)
      ensures currentJob != Some(uuid) && uuid in store.completed ==>
                answer == LogFound(if uuid in store.logs then store.logs[uuid] else "")
      ensures answer == InQueue <==> currentJob != Some(uuid) && uuid !in store.completed && uuid in store.queued
      ensures answer == Unknown <==> currentJob != Some(uuid) && uuid !in store.completed && uuid !in store.queued
      ensures answer == Unknown && store.Has(uuid) <==>
                uuid in store.running && currentJob != Some(uuid) && uuid !in store.completed && uuid !in store.queued
    {
      var held := HoldRunningJob(uuid);
      if held {
        return LogFound(soFar);
      }
      if store.Get(Completed, uuid).Some? {
        return LogFound(if uuid in store.logs then store.logs[uuid] else "");
      }
      if store.Get(Queued, uuid).Some? {
        return InQueue;
      }
      return Unknown;
    }

    /** One turn of the worker's loop, when the manager mirrors its queue: the task is completed and nothing else changes. */
    method ServeOne(o: Outcome, started: int, finished: int) returns (panics: bool)
      requires taskChan != [] && Tidy(store, taskChan)
      modifies this
      ensures !panics && currentJob == None && initialized == old(initialized)
      ensures taskChan == old(taskChan)[1..] && Tidy(store, taskChan)
      ensures store == Served(old(store), old(taskChan)[0], o, finished)
      ensures var uuid := old(taskChan)[0];
              && uuid in store.completed && uuid !in store.queued && uuid !in store.running
              && store.completed[uuid].status == (if o.failed then FAILED else SUCCEEDED)
              && store.completed[uuid].reason == (if o.failed then o.reason else "")
              && store.completed[uuid].modified == finished
              && (o.log != "" ==> uuid in store.logs && store.logs[uuid] == o.log)
    {
      var uuid := taskChan[0];
      ServeEffect(store, taskChan, o, started, finished);
      ServedRecords(store, uuid, o, finished);
      hide Served, RunJob, StartWrites, FinishJob;
      taskChan := taskChan[1..];
      currentJob := Some(uuid);
      panics := TaskStarted(uuid, started);
      if !panics {
        panics := TaskFinished(uuid, o, finished);
      }
      currentJob := None;
    }

    /** The worker's loop until its context is done, which it is after the last outcome given. */
    method Start(outcomes: seq<Outcome>, now: int) returns (served: nat)
      requires Tidy(store, taskChan)
      modifies this
      ensures served == (if |outcomes| < |old(taskChan)| then |outcomes| else |old(taskChan)|)
      ensures taskChan == old(taskChan)[served..] && Tidy(store, taskChan) && (served > 0 ==> currentJob == None)
      ensures store == ServedAll(old(store), old(taskChan)[..served], outcomes[..served], now)
      ensures forall i :: 0 <= i < served ==>
                var uuid, o := old(taskChan)[i], outcomes[i];
                && uuid in store.completed && uuid !in store.queued && uuid !in store.running
                && store.completed[uuid].status == (if o.failed then FAILED else SUCCEEDED)
                && store.completed[uuid].reason == (if o.failed then o.reason else "")
                && store.completed[uuid].modified == now
                && (o.log != "" ==> uuid in store.logs && store.logs[uuid] == o.log)
    {
      hide Tidy, ServedAll, Served;
      served := 0;
      ghost var queue, before := taskChan, store;
      ServedNone(store, queue, outcomes, now);
      while served < |outcomes| && taskChan != []
        invariant served <= |outcomes| && served <= |queue| && taskChan == queue[served..] && Tidy(store, taskChan)
        invariant served > 0 ==> currentJob == None
        invariant store == ServedAll(before, queue[..served], outcomes[..served], now)
        decreases |taskChan|
      {
        TidyHead(store, taskChan);
        ServedNext(before, queue, outcomes, served, now);
        var panics := ServeOne(outcomes[served], now, now);
        served := served + 1;
      }
      AllRecorded(before, queue, outcomes, served, now);
    }
  }

  lemma ListMember(list: seq<Uuid>, k: nat, records: map<Uuid, Task>)
    requires Lists(list, records) && k < |list|
    ensures list[k] in records
  {
    assert multiset(list)[list[k]] > 0;
  }

  /** The records of a listing are those of the storage, each once. */
  lemma GotAll(list: seq<Uuid>, tasks: seq<Task>, store: Store)
    requires store.Filed() && Lists(list, store.completed) && |tasks| == |list|
    requires forall i :: 0 <= i < |list| ==> list[i] in store.completed && tasks[i] == store.completed[list[i]]
    ensures AllCompleted(tasks, store)
  {
    forall i, j | 0 <= i < j < |tasks| ensures tasks[i].uuid != tasks[j].uuid {
      if list[i] == list[j] { Twice(list, i, j); }
    }
    forall u | u in store.completed ensures u in Uuids(tasks) {
      assert multiset(list)[u] > 0;
      var i :| 0 <= i < |list| && list[i] == u;
      assert tasks[i] == store.completed[u];
    }
  }

  lemma DeletedNext(before: Store, store: Store, gone: seq<Task>, t: Task)
    requires Deleted(before, store, gone)
    ensures Deleted(before, store.Delete(Completed, t.uuid).DeleteLog(t.uuid), gone + [t])
  {
    assert Uuids(gone + [t]) == Uuids(gone) + {t.uuid};
  }

  lemma ListEmpty(list: seq<Uuid>, records: map<Uuid, Task>)
    requires Lists(list, records)
    ensures list == [] <==> records == map[]
  {
    if list != [] { assert multiset(list)[list[0]] > 0; }
    if list == [] { assert forall u :: u !in records; }
  }

  function FinishJob(uuid: Uuid, o: Outcome, now: int): Job {
    if o.failed then NewJob(uuid, FAILED, o.reason, o.log, now) else NewJob(uuid, SUCCEEDED, "", o.log, now)
  }

  /** Nothing runs, and exactly the tasks in the channel are queued, each once. */
  ghost predicate Tidy(store: Store, channel: seq<Uuid>) {
    store.Filed() && store.running == map[] && Distinct(channel) && forall u :: u in store.queued <==> u in channel
  }

  /** The storage after a task has been served: only its own records have changed. */
  function Served(store: Store, u: Uuid, o: Outcome, now: int): Store
    requires u in store.queued
  {
    Store(store.queued - {u}, store.running,
          store.completed[u := Completion(FinishJob(u, o, now), store.queued[u])],
          if o.log != "" then store.logs[u := o.log] else store.logs)
  }

  lemma ServeEffect(store: Store, channel: seq<Uuid>, o: Outcome, started: int, finished: int)
    requires channel != [] && Tidy(store, channel)
    ensures var u := channel[0];
            && u in store.queued
            && var running := Last(store, StartWrites(store, u, started));
            && u in running.running
            && Last(running, RunJob(running, FinishJob(u, o, finished)).writes) == Served(store, u, o, finished)
    ensures Tidy(Served(store, channel[0], o, finished), channel[1..])
  {
    TidyHead(store, channel);
    ServedIsLast(store, channel[0], o, started, finished);
    ServedIsTidy(store, channel, o, finished);
    hide *;
  }

  lemma ServedIsLast(store: Store, u: Uuid, o: Outcome, started: int, finished: int)
    requires u in store.queued && u !in store.running && store.queued[u].uuid == u
    ensures var running := Last(store, StartWrites(store, u, started));
            && u in running.running
            && Last(running, RunJob(running, FinishJob(u, o, finished)).writes) == Served(store, u, o, finished)
  {
    var running := Last(store, StartWrites(store, u, started));
    RunJobWrites(running, FinishJob(u, o, finished));
    hide RunJob;
    assert running.running - {u} == store.running;
  }

  lemma ServedIsTidy(store: Store, channel: seq<Uuid>, o: Outcome, finished: int)
    requires channel != [] && Tidy(store, channel)
    ensures Tidy(Served(store, channel[0], o, finished), channel[1..])
  {
    assert channel == [channel[0]] + channel[1..];
  }

  lemma LastWrite(store: Store, j: Job, task: Task, from: State)
    requires IsCompleted(j.status) && from != Completed
    ensures var after := Last(store, CompletionWrites(store, j, task, from));
            && after.completed == store.completed[j.uuid := Completion(j, task)]
            && after.logs == if j.log != "" then store.logs[j.uuid := j.log] else store.logs
  {
  }

  /** What the finishing callback leaves of the task. */
  lemma FinishRecords(store: Store, u: Uuid, o: Outcome, now: int)
    requires u in store.queued || u in store.running
    ensures var after := Last(store, RunJob(store, FinishJob(u, o, now)).writes);
            && after.completed.Keys == store.completed.Keys + {u}
            && after.completed[u].status == (if o.failed then FAILED else SUCCEEDED)
            && after.completed[u].reason == (if o.failed then o.reason else "")
            && after.completed[u].modified == now
            && (o.log != "" ==> u in after.logs && after.logs[u] == o.log)
            && (forall v :: v in store.completed && v != u ==> after.completed[v] == store.completed[v])
  {
    var j := FinishJob(u, o, now);
    RunJobWrites(store, j);
    hide RunJob, CompletionWrites;
    LastWrite(store, j, if u in store.queued then store.queued[u] else store.running[u], if u in store.queued then Queued else Running);
  }

  lemma ServedRecords(store: Store, u: Uuid, o: Outcome, now: int)
    requires u in store.queued
    ensures var after := Served(store, u, o, now);
            && u in after.completed && u !in after.queued && after.running == store.running
            && after.completed[u].status == (if o.failed then FAILED else SUCCEEDED)
            && after.completed[u].reason == (if o.failed then o.reason else "")
            && after.completed[u].modified == now
            && (o.log != "" ==> u in after.logs && after.logs[u] == o.log)
    ensures forall v :: v != u ==>
              var after := Served(store, u, o, now);
              && (v in after.queued <==> v in store.queued)
              && (v in after.completed <==> v in store.completed) && (v in store.completed ==> after.completed[v] == store.completed[v])
              && (v in after.logs <==> v in store.logs) && (v in store.logs ==> after.logs[v] == store.logs[v])
  {
  }

  /** The record of a task that has been served with the given outcome. */
  ghost predicate HasOutcome(store: Store, u: Uuid, o: Outcome, now: int) {
    && u in store.completed && u !in store.queued && u !in store.running
    && store.completed[u].status == (if o.failed then FAILED else SUCCEEDED)
    && store.completed[u].reason == (if o.failed then o.reason else "")
    && store.completed[u].modified == now
    && (o.log != "" ==> u in store.logs && store.logs[u] == o.log)
  }

  lemma RecordedNext(store: Store, u: Uuid, o: Outcome, now: int)
    requires u in store.queued && u !in store.running
    ensures HasOutcome(Served(store, u, o, now), u, o, now) && Served(store, u, o, now).running == store.running
    ensures forall v, p :: v != u && HasOutcome(store, v, p, now) ==> HasOutcome(Served(store, u, o, now), v, p, now)
    ensures forall v :: v != u && v in store.queued ==> v in Served(store, u, o, now).queued
  {
    ServedRecords(store, u, o, now);
    hide Served;
  }

  /** The first n tasks have their outcomes, and the others still wait. */
  ghost predicate RecordedUpTo(store: Store, queue: seq<Uuid>, outcomes: seq<Outcome>, n: nat, now: int)
    requires n <= |queue| && n <= |outcomes|
  {
    && store.running == map[]
    && (forall i :: 0 <= i < n ==> HasOutcome(store, queue[i], outcomes[i], now))
    && (forall i :: n <= i < |queue| ==> queue[i] in store.queued)
  }

  lemma RecordedStep(store: Store, queue: seq<Uuid>, outcomes: seq<Outcome>, n: nat, now: int)
    requires n < |queue| && n < |outcomes| && RecordedUpTo(store, queue, outcomes, n, now)
    requires forall i :: 0 <= i < |queue| && i != n ==> queue[i] != queue[n]
    ensures RecordedUpTo(Served(store, queue[n], outcomes[n], now), queue, outcomes, n + 1, now)
  {
    hide Served, HasOutcome;
    RecordedNext(store, queue[n], outcomes[n], now);
  }

  /** Later tasks leave the records of earlier ones alone. */
  lemma {:induction false} AllRecorded(before: Store, queue: seq<Uuid>, outcomes: seq<Outcome>, n: nat, now: int)
    requires Tidy(before, queue) && n <= |queue| && n <= |outcomes|
    ensures RecordedUpTo(ServedAll(before, queue[..n], outcomes[..n], now), queue, outcomes, n, now)
  {
    ServedNone(before, queue, outcomes, now);
    if n > 0 {
      AllRecorded(before, queue, outcomes, n - 1, now);
      assert forall i :: 0 <= i < |queue| && i != n - 1 ==> queue[i] != queue[n - 1];
      RecordedQueued(ServedAll(before, queue[..n - 1], outcomes[..n - 1], now), queue, outcomes, n - 1, now);
      hide *;
      ServedNext(before, queue, outcomes, n - 1, now);
      RecordedStep(ServedAll(before, queue[..n - 1], outcomes[..n - 1], now), queue, outcomes, n - 1, now);
    }
  }

  lemma RecordedQueued(store: Store, queue: seq<Uuid>, outcomes: seq<Outcome>, n: nat, now: int)
    requires n < |queue| && n < |outcomes| && RecordedUpTo(store, queue, outcomes, n, now)
    ensures queue[n] in store.queued
  {
    hide HasOutcome;
  }

  /** Serving tasks in the order of the channel. */
  function ServedAll(store: Store, tasks: seq<Uuid>, outcomes: seq<Outcome>, now: int): Store
    requires |tasks| == |outcomes|
  {
    if tasks == [] then store
    else
      var n := |tasks| - 1;
      var before := ServedAll(store, tasks[..n], outcomes[..n], now);
      if tasks[n] in before.queued then Served(before, tasks[n], outcomes[n], now) else before
  }

  lemma TidyHead(store: Store, channel: seq<Uuid>)
    requires channel != [] && Tidy(store, channel)
    ensures channel[0] in store.queued && channel[0] !in store.running && store.queued[channel[0]].uuid == channel[0]
  {
  }

  lemma ServedNone(store: Store, queue: seq<Uuid>, outcomes: seq<Outcome>, now: int)
    ensures ServedAll(store, queue[..0], outcomes[..0], now) == store
  {
  }

  lemma ServedNext(before: Store, tasks: seq<Uuid>, outcomes: seq<Outcome>, k: nat, now: int)
    requires k < |tasks| && k < |outcomes| && tasks[k] in ServedAll(before, tasks[..k], outcomes[..k], now).queued
    ensures ServedAll(before, tasks[..k + 1], outcomes[..k + 1], now)
         == Served(ServedAll(before, tasks[..k], outcomes[..k], now), tasks[k], outcomes[k], now)
  {
    assert tasks[..k + 1][..k] == tasks[..k];
    assert outcomes[..k + 1][..k] == outcomes[..k];
  }

  /** The storage after one cancelation. It takes the queued record if there are both. */
  function CancelStore(store: Store, u: Uuid, now: int): Store
    requires u in store.queued || u in store.running
  {
    if u in store.queued then store.Put(Completed, u, Canceled(store.queued[u], now)).Delete(Queued, u)
    else store.Put(Completed, u, Canceled(store.running[u], now)).Delete(Running, u)
  }

  /** The cancelations of a recovery, one after another. */
  function CancelAll(store: Store, list: seq<Uuid>, now: int): Store
    decreases |list|
  {
    if list == [] then store
    else CancelAll(Last(store, RunJob(store, NewJob(list[0], CANCELED, INVALIDATED, "", now)).writes), list[1..], now)
  }

  lemma CancelOne(store: Store, u: Uuid, now: int)
    requires store.Filed() && (u in store.queued || u in store.running)
    ensures var t := RunJob(store, NewJob(u, CANCELED, INVALIDATED, "", now));
            t.end.Done? && Last(store, t.writes) == CancelStore(store, u, now)
    ensures CancelStore(store, u, now).Filed() && CancelStore(store, u, now).logs == store.logs
  {
    RunJobWrites(store, NewJob(u, CANCELED, INVALIDATED, "", now));
    hide RunJob;
  }

  /** The listing names every record that is left, once each. */
  ghost predicate Covers(list: seq<Uuid>, store: Store) {
    forall u :: multiset(list)[u] == Count(u in store.queued) + Count(u in store.running)
  }

  lemma CoversNext(store: Store, list: seq<Uuid>, k: nat, now: int)
    requires k < |list| && Covers(list[k..], store)
    ensures list[k] in store.queued || list[k] in store.running
    ensures Covers(list[k + 1..], CancelStore(store, list[k], now))
  {
    var u, rest := list[k], list[k + 1..];
    assert list[k..] == [u] + rest;
    assert multiset([u] + rest) == multiset{u} + multiset(rest);
    assert multiset([u] + rest)[u] > 0;
    forall v ensures multiset(rest)[v] == multiset([u] + rest)[v] - Count(v == u) { }
  }

  lemma CoversAll(running: seq<Uuid>, queued: seq<Uuid>, store: Store)
    requires Lists(running, store.running) && Lists(queued, store.queued)
    ensures Covers(running + queued, store)
  {
    assert multiset(running + queued) == multiset(running) + multiset(queued);
  }

  /** Recovery on its way: a record still queued or running is untouched, and every other one it has met is canceled. */
  ghost predicate Partly(before: Store, after: Store, now: int) {
    && (forall u :: u in after.queued ==> u in before.queued && after.queued[u] == before.queued[u])
    && (forall u :: u in after.running ==> u in before.running && after.running[u] == before.running[u])
    && (forall u :: u in before.running && u !in after.running ==> u !in after.queued)
    && (forall u :: u in after.completed ==> u in before.completed || u in before.queued || u in before.running)
    && (forall u :: u in before.completed ==> u in after.completed)
    && (forall u :: u in before.running && u !in after.running ==>
          u in after.completed && after.completed[u] == Canceled(before.running[u], now))
    && (forall u :: u in before.queued && u !in after.queued && u !in before.running ==>
          u in after.completed && after.completed[u] == Canceled(before.queued[u], now))
    && (forall u :: u in before.completed && u !in before.queued && u !in before.running ==>
          after.completed[u] == before.completed[u])
  }

  lemma PartlyKept(before: Store, was: Store, u: Uuid, now: int)
    requires Partly(before, was, now) && (u in was.queued || u in was.running)
    ensures Partly(before, CancelStore(was, u, now), now)
  {
  }

  lemma StorageLists(store: Store)
    ensures store.Of(Running) == store.running && store.Of(Queued) == store.queued
  {
  }

  lemma JobsComplete()
    ensures IsCompleted(CANCELED)
  {
  }

  lemma RecoveryStarts(store: Store, list: seq<Uuid>, now: int)
    ensures Partly(store, store, now) && list[0..] == list
  {
  }

  lemma CanceledRecords(before: Store, after: Store, now: int)
    requires Recovered(before, after, now)
    ensures forall u :: u in before.queued || u in before.running ==>
              && u in after.completed && after.completed[u].status == CANCELED && after.completed[u].modified == now
              && after.completed[u].reason == "the task canceled due to restart of the plugin"
  {
  }

  lemma CancelNext(store: Store, list: seq<Uuid>, k: nat, now: int)
    requires k < |list| && store.Filed() && (list[k] in store.queued || list[k] in store.running)
    ensures CancelAll(store, list[k..], now) == CancelAll(CancelStore(store, list[k], now), list[k + 1..], now)
  {
    CancelOne(store, list[k], now);
    assert list[k..][0] == list[k] && list[k..][1..] == list[k + 1..];
    hide RunJob, CancelStore;
  }

  lemma AllCanceled(before: Store, after: Store, rest: seq<Uuid>, now: int)
    requires Partly(before, after, now) && after.logs == before.logs
    requires rest == [] && Covers(rest, after)
    ensures Recovered(before, after, now) && CancelAll(after, rest, now) == after
  {
    assert forall u :: multiset(rest)[u] == 0;
    assert forall u :: u !in after.queued && u !in after.running;
  }

  // ---------- the switches are runs of the step system ----------

  /** Some moment of the run has this storage. */
  ghost predicate Visits(s: System, steps: seq<Step>, store: Store) {
    exists n: nat :: n <= |steps| && Exec(s, steps[..n]).Some? && Exec(s, steps[..n]).value.store == store
  }

  lemma VisitsLater(s: System, first: Step, rest: seq<Step>, store: Store)
    requires Next(s, first).Some? && Visits(Next(s, first).value, rest, store)
    ensures Visits(s, [first] + rest, store)
  {
    var n: nat :| n <= |rest| && Exec(Next(s, first).value, rest[..n]).Some? && Exec(Next(s, first).value, rest[..n]).value.store == store;
    ExecFirst(s, first, rest[..n]);
    assert ([first] + rest)[..n + 1] == [first] + rest[..n];
  }

  /** One storage call of a completion that does not fail. */
  lemma FinishStep(s: System)
    requires s.holder.Completing? && Rank(s.holder.job.pc) > 0 && RunJob(s.store, s.holder.job).end.Done?
    ensures var (store, job) := JobStep(s.store, s.holder.job);
            var writes, later := RunJob(s.store, s.holder.job).writes, RunJob(store, job);
            && Next(s, Step.Advance) == Some(if job.pc.Done? then s.(holder := Free, worker := Waiting, store := store)
                                             else s.(holder := Completing(job), store := store))
            && later.end.Done? && (job.pc.Done? ==> later.writes == [])
            && (!job.pc.Done? ==> 0 < Rank(job.pc) < Rank(s.holder.job.pc))
            && (writes == [store] + later.writes || (writes == later.writes && store == s.store))
  {
  }

  lemma FinishLast(before: Store, store: Store, later: seq<Store>)
    ensures Last(before, [store] + later) == Last(store, later)
    ensures Last(store, []) == store
  {
  }

  lemma VisitsAll(s: System, t: System, rest: seq<Step>, writes: seq<Store>, later: seq<Store>)
    requires Next(s, Step.Advance) == Some(t)
    requires forall k :: 0 <= k < |later| ==> Visits(t, rest, later[k])
    requires writes == [t.store] + later || writes == later
    ensures forall k :: 0 <= k < |writes| ==> Visits(s, [Step.Advance] + rest, writes[k])
  {
    assert Exec(t, rest[..0]) == Some(t);
    hide Exec, Next;
    assert Visits(t, rest, t.store);
    forall k | 0 <= k < |writes| ensures Visits(s, [Step.Advance] + rest, writes[k]) {
      if |writes| > |later| && k > 0 {
        assert writes[k] == later[k - 1];
      }
      VisitsLater(s, Step.Advance, rest, writes[k]);
    }
  }

  /** What the finishing callback does in one go is a run of single storage calls, between any two of which others may move. */
  lemma {:induction false} FinishIsRun(s: System) returns (steps: seq<Step>)
    requires s.holder.Completing? && Rank(s.holder.job.pc) > 0 && RunJob(s.store, s.holder.job).end.Done?
    ensures forall step :: step in steps ==> step == Step.Advance
    ensures var writes := RunJob(s.store, s.holder.job).writes;
            && Exec(s, steps) == Some(s.(holder := Free, worker := Waiting, store := Last(s.store, writes)))
            && forall k :: 0 <= k < |writes| ==> Visits(s, steps, writes[k])
    decreases Rank(s.holder.job.pc)
  {
    FinishStep(s);
    var (store, job) := JobStep(s.store, s.holder.job);
    var t := Next(s, Step.Advance).value;
    var writes, later := RunJob(s.store, s.holder.job).writes, RunJob(store, job).writes;
    var rest := [];
    assert Exec(t, rest) == Some(t);
    FinishLast(s.store, store, later);
    hide Next, JobStep, RunJob, Exec, Visits, Rank, Last;
    if !job.pc.Done? {
      rest := FinishIsRun(t);
    }
    steps := [Step.Advance] + rest;
    ExecFirst(s, Step.Advance, rest);
    VisitsAll(s, t, rest, writes, later);
  }

  /** From the moment the worker takes the mutex, with the outcome of the task in hand. */
  lemma FinishedIsRun(s: System, o: Outcome, now: int) returns (steps: seq<Step>)
    requires s.worker.Working? && s.holder.Free? && (s.worker.uuid in s.store.queued || s.worker.uuid in s.store.running)
    ensures forall step :: step in steps ==> step == Step.Advance
    ensures Exec(s, [Step.LockToFinish(o.failed, o.reason, o.log, now)] + steps)
         == Some(s.(holder := Free, worker := Waiting,
                    store := Last(s.store, RunJob(s.store, FinishJob(s.worker.uuid, o, now)).writes)))
  {
    var u, lock := s.worker.uuid, Step.LockToFinish(o.failed, o.reason, o.log, now);
    var t := s.(holder := Completing(FinishJob(u, o, now)));
    assert Next(s, lock) == Some(t);
    RunJobWrites(s.store, FinishJob(u, o, now));
    assert Rank(t.holder.job.pc) > 0;
    hide RunJob, Exec, Next;
    steps := FinishIsRun(t);
    ExecFirst(s, lock, steps);
  }

  lemma CancelStep(s: System)
    requires s.holder.Canceling? && Rank(s.holder.job.pc) > 0 && RunJob(s.store, s.holder.job).end.Done?
    ensures var (store, job) := JobStep(s.store, s.holder.job);
            var writes, later := RunJob(s.store, s.holder.job).writes, RunJob(store, job);
            && Next(s, Step.Advance) == Some(s.(store := store,
                 holder := if job.pc.Done? then Recovering(s.holder.kind, s.holder.rest) else Canceling(s.holder.kind, job, s.holder.rest)))
            && later.end.Done? && (job.pc.Done? ==> later.writes == [])
            && (!job.pc.Done? ==> 0 < Rank(job.pc) < Rank(s.holder.job.pc))
            && (writes == [store] + later.writes || (writes == later.writes && store == s.store))
  {
  }

  /** One cancelation of the recovery, as a run. */
  lemma {:induction false} CancelIsRun(s: System) returns (steps: seq<Step>)
    requires s.holder.Canceling? && Rank(s.holder.job.pc) > 0 && RunJob(s.store, s.holder.job).end.Done?
    ensures var writes := RunJob(s.store, s.holder.job).writes;
            && Exec(s, steps) == Some(s.(holder := Recovering(s.holder.kind, s.holder.rest), store := Last(s.store, writes)))
            && forall k :: 0 <= k < |writes| ==> Visits(s, steps, writes[k])
    decreases Rank(s.holder.job.pc)
  {
    CancelStep(s);
    var (store, job) := JobStep(s.store, s.holder.job);
    var t := Next(s, Step.Advance).value;
    var writes, later := RunJob(s.store, s.holder.job).writes, RunJob(store, job).writes;
    var rest := [];
    assert Exec(t, rest) == Some(t);
    FinishLast(s.store, store, later);
    hide Next, JobStep, RunJob, Exec, Visits, Rank, Last;
    if !job.pc.Done? {
      rest := CancelIsRun(t);
    }
    steps := [Step.Advance] + rest;
    ExecFirst(s, Step.Advance, rest);
    VisitsAll(s, t, rest, writes, later);
  }

  /** Working off the list of the recovery, as a run. */
  lemma {:induction false} RecoverIsRun(s: System, now: int) returns (steps: seq<Step>)
    requires s.holder.Recovering? && s.store.Filed() && Covers(s.holder.todo, s.store)
    ensures Exec(s, steps) == Some(s.(holder := Recovering(s.holder.kind, []), store := CancelAll(s.store, s.holder.todo, now)))
    decreases |s.holder.todo|
  {
    var todo := s.holder.todo;
    steps := [];
    assert Exec(s, []) == Some(s);
    if todo != [] {
      var u, job := todo[0], NewJob(todo[0], CANCELED, INVALIDATED, "", now);
      var t := s.(holder := Canceling(s.holder.kind, job, todo[1..]));
      assert Next(s, Step.Recover(now)) == Some(t) && Rank(job.pc) > 0;
      assert todo[0..] == todo;
      CoversNext(s.store, todo, 0, now);
      CancelOne(s.store, u, now);
      hide Next, Exec, Covers, RunJob, CancelStore, Rank;
      var cancel := CancelIsRun(t);
      var next := s.(holder := Recovering(s.holder.kind, todo[1..]), store := CancelStore(s.store, u, now));
      var rest := RecoverIsRun(next, now);
      RunAppend(t, cancel, rest);
      ExecFirst(s, Step.Recover(now), cancel + rest);
      steps := [Step.Recover(now)] + (cancel + rest);
    }
  }

  /** The recovery as a whole, from the first call after a start. */
  lemma RecoveryIsRun(s: System, running: seq<Uuid>, queued: seq<Uuid>, now: int) returns (steps: seq<Step>)
    requires s.holder.Entered? && !s.initialized && s.store.Filed()
    requires Lists(running, s.store.running) && Lists(queued, s.store.queued)
    ensures Exec(s, steps) == Some(s.(holder := Ready(s.holder.kind), initialized := true,
                                      recovered := s.store.queued.Keys + s.store.running.Keys,
                                      store := CancelAll(s.store, running + queued, now)))
  {
    hide *;
    var first, second := Step.Initialize(running), Step.ListQueued(queued);
    RecoverySteps(s, running, queued);
    var a := Next(s, first).value;
    var b := Next(a, second).value;
    CoversAll(running, queued, s.store);
    var rest := RecoverIsRun(b, now);
    var c := Exec(b, rest).value;
    RecoveryReady(c);
    OneStep(c, Step.Proceed);
    RunAppend(b, rest, [Step.Proceed]);
    ExecFirst(a, second, rest + [Step.Proceed]);
    ExecFirst(s, first, [second] + (rest + [Step.Proceed]));
    steps := [first] + ([second] + (rest + [Step.Proceed]));
  }

  lemma RecoverySteps(s: System, running: seq<Uuid>, queued: seq<Uuid>)
    requires s.holder.Entered? && !s.initialized && Lists(running, s.store.running) && Lists(queued, s.store.queued)
    ensures Next(s, Step.Initialize(running)).Some?
    ensures Next(Next(s, Step.Initialize(running)).value, Step.ListQueued(queued))
         == Some(s.(holder := Recovering(s.holder.kind, running + queued), initialized := true,
                    recovered := s.store.queued.Keys + s.store.running.Keys))
  {
    hide Lists, WorkNext, CleanNext, ReadNext, AdvanceJob;
  }

  lemma RecoveryReady(s: System)
    requires s.holder.Recovering? && s.holder.todo == []
    ensures Next(s, Step.Proceed) == Some(s.(holder := Ready(s.holder.kind)))
  {
  }

  /** An accepted task, from the moment the manager is ready to the release of its mutex. */
  lemma RunTaskIsRun(s: System, uuid: Uuid, now: int)
    requires s.holder == Ready(Run) && s.store.queued == map[] && s.store.running == map[]
    requires uuid !in s.used && |s.channel| < CAPACITY
    ensures Exec(s, [Step.CheckRunning, Step.CheckQueued, Step.Create(uuid, now), Step.Send])
         == Some(s.(holder := Free, channel := s.channel + [uuid], used := s.used + {uuid}, added := s.added + [uuid],
                    store := s.store.Put(Queued, uuid, Task(uuid, QUEUED, "", now, now))))
  {
    hide *;
    var a, b, c := s.(holder := NoneRunning), s.(holder := Creating), Created(s, uuid, now);
    AcceptedSteps(s, uuid, now);
    var create := [Step.Create(uuid, now)] + [Step.Send];
    OneStep(c, Step.Send);
    ExecFirst(b, Step.Create(uuid, now), [Step.Send]);
    ExecFirst(a, Step.CheckQueued, create);
    ExecFirst(s, Step.CheckRunning, [Step.CheckQueued] + create);
    assert [Step.CheckRunning] + ([Step.CheckQueued] + create)
        == [Step.CheckRunning, Step.CheckQueued, Step.Create(uuid, now), Step.Send];
  }

  /** AddTask skips the busy check. */
  lemma AddTaskIsRun(s: System, uuid: Uuid, now: int)
    requires s.holder == Ready(Add) && uuid !in s.used && |s.channel| < CAPACITY
    ensures Exec(s, [Step.Proceed, Step.Create(uuid, now), Step.Send])
         == Some(s.(holder := Free, channel := s.channel + [uuid], used := s.used + {uuid}, added := s.added + [uuid],
                    store := s.store.Put(Queued, uuid, Task(uuid, QUEUED, "", now, now))))
  {
    hide *;
    var b, c := s.(holder := Creating), Created(s, uuid, now);
    AddedSteps(s, uuid, now);
    OneStep(c, Step.Send);
    ExecFirst(b, Step.Create(uuid, now), [Step.Send]);
    ExecFirst(s, Step.Proceed, [Step.Create(uuid, now)] + [Step.Send]);
    assert [Step.Proceed] + ([Step.Create(uuid, now)] + [Step.Send]) == [Step.Proceed, Step.Create(uuid, now), Step.Send];
  }

  lemma AddedSteps(s: System, uuid: Uuid, now: int)
    requires s.holder == Ready(Add) && uuid !in s.used && |s.channel| < CAPACITY
    ensures Next(s, Step.Proceed) == Some(s.(holder := Creating))
    ensures Next(s.(holder := Creating), Step.Create(uuid, now)) == Some(Created(s, uuid, now))
    ensures Next(Created(s, uuid, now), Step.Send)
         == Some(s.(holder := Free, channel := s.channel + [uuid], used := s.used + {uuid}, added := s.added + [uuid],
                    store := s.store.Put(Queued, uuid, Task(uuid, QUEUED, "", now, now))))
  {
    hide WorkNext, CleanNext, ReadNext, AdvanceJob;
  }

  function Created(s: System, uuid: Uuid, now: int): System {
    s.(holder := Sending(uuid), used := s.used + {uuid}, added := s.added + [uuid],
       store := s.store.Put(Queued, uuid, Task(uuid, QUEUED, "", now, now)))
  }

  lemma OneStep(s: System, step: Step)
    ensures Exec(s, [step]) == Next(s, step)
  {
    hide Next;
    assert [step][..0] == [];
  }

  lemma AcceptedSteps(s: System, uuid: Uuid, now: int)
    requires s.holder == Ready(Run) && s.store.queued == map[] && s.store.running == map[]
    requires uuid !in s.used && |s.channel| < CAPACITY
    ensures Next(s, Step.CheckRunning) == Some(s.(holder := NoneRunning))
    ensures Next(s.(holder := NoneRunning), Step.CheckQueued) == Some(s.(holder := Creating))
    ensures Next(s.(holder := Creating), Step.Create(uuid, now)) == Some(Created(s, uuid, now))
    ensures Next(Created(s, uuid, now), Step.Send)
         == Some(s.(holder := Free, channel := s.channel + [uuid], used := s.used + {uuid}, added := s.added + [uuid],
                    store := s.store.Put(Queued, uuid, Task(uuid, QUEUED, "", now, now))))
  {
  }

  /** And so is what the starting callback does. */
  lemma StartIsRun(s: System, now: int)
    requires s.holder.Starting? && s.holder.uuid in s.store.queued
    ensures var steps := [Step.ReadQueued(now), Step.WriteRunning, Step.EraseQueued];
            var writes := StartWrites(s.store, s.holder.uuid, now);
            && Exec(s, steps) == Some(s.(holder := Free, worker := Working(s.holder.uuid), store := Last(s.store, writes)))
            && forall k :: 0 <= k < |writes| ==> Visits(s, steps, writes[k])
  {
    hide *;
    var first, second, third := Step.ReadQueued(now), Step.WriteRunning, Step.EraseQueued;
    StartSteps(s, now);
    RunOfThree(s, first, second, third);
  }

  lemma StartSteps(s: System, now: int)
    requires s.holder.Starting? && s.holder.uuid in s.store.queued
    ensures var first, second, third := Step.ReadQueued(now), Step.WriteRunning, Step.EraseQueued;
            var writes := StartWrites(s.store, s.holder.uuid, now);
            && |writes| == 2 && Next(s, first).Some?
            && Next(Next(s, first).value, second).Some? && Next(Next(s, first).value, second).value.store == writes[0]
            && Next(Next(Next(s, first).value, second).value, third)
               == Some(s.(holder := Free, worker := Working(s.holder.uuid), store := Last(s.store, writes)))
            && Last(s.store, writes) == writes[1]
  {
    hide AddNext, CleanNext, ReadNext, AdvanceJob;
  }

  lemma RunOfThree(s: System, first: Step, second: Step, third: Step)
    requires Next(s, first).Some? && Next(Next(s, first).value, second).Some?
    requires Next(Next(Next(s, first).value, second).value, third).Some?
    ensures var b := Next(Next(s, first).value, second).value;
            var c := Next(b, third);
            var steps := [first, second, third];
            Exec(s, steps) == c && Visits(s, steps, b.store) && Visits(s, steps, c.value.store)
  {
    hide Next;
    var steps := [first, second, third];
    assert steps[..1] == [first] && steps[..2] == [first, second] && [first, second][..1] == [first] && [first][..0] == [];
    assert Exec(s, [first]) == Next(s, first);
    assert Exec(s, steps[..2]) == Next(Next(s, first).value, second);
    assert steps[..3] == steps;
  }
}
