/** The task queue as a step system: each storage call is a step of its own, and any thread may move between two steps. */
module TaskProtocol {
  import opened Options
  import opened TaskRecords

  const CAPACITY: nat := 128

  // ---------- completing one task, storage call by storage call ----------

  datatype Pc =
    | LookRunning
    | LookQueued(found: Option<Task>)
    | Write(task: Task, from: State)
    | WriteLog(task: Task, from: State)
    | Erase(task: Task, from: State)
    | Done
    | NotFound

  datatype Job = Job(uuid: Uuid, status: Status, reason: string, log: string, now: int, pc: Pc)

  function NewJob(uuid: Uuid, status: Status, reason: string, log: string, now: int): Job {
    Job(uuid, status, reason, log, now, LookRunning)
  }

  function Completion(j: Job, task: Task): Task {
    task.(status := j.status, modified := j.now, reason := j.reason)
  }

  function Written(j: Job, task: Task, from: State): Job {
    j.(pc := if j.log != "" then WriteLog(task, from) else Erase(task, from))
  }

  /** The next storage call of the switch to a completed state. The record found last is the one that is moved. */
  function JobStep(store: Store, j: Job): (Store, Job) {
    match j.pc
    case LookRunning => (store, j.(pc := LookQueued(store.Get(Running, j.uuid))))
    case LookQueued(found) =>
      if store.Get(Queued, j.uuid).Some? then (store, j.(pc := Write(store.Get(Queued, j.uuid).value, Queued)))
      else if found.Some? then (store, j.(pc := Write(found.value, Running)))
      else (store, j.(pc := NotFound))
    case Write(task, from) =>
      (store.Put(StateOf(j.status), j.uuid, Completion(j, task)), Written(j, task, from))
    case WriteLog(task, from) => (store.PutLog(j.uuid, j.log), j.(pc := Erase(task, from)))
    case Erase(task, from) => (store.Delete(from, task.uuid), j.(pc := Done))
    case Done => (store, j)
    case NotFound => (store, j)
  }

  /** How many storage calls are left at most. */
  function Rank(pc: Pc): nat {
    match pc
    case LookRunning => 5
    case LookQueued(_) => 4
    case Write(_, _) => 3
    case WriteLog(_, _) => 2
    case Erase(_, _) => 1
    case Done => 0
    case NotFound => 0
  }

  // ---------- the system ----------

  /** RunTask refuses when busy, AddTask does not. AddOptionalTask is RunTask with the refusal swallowed. */
  datatype Kind = Run | Add

  /** Who holds the manager's mutex, and how far it has come. */
  datatype Holder =
    | Free
    | Entered(kind: Kind)
    | ListedRunning(kind: Kind, list: seq<Uuid>)
    | Recovering(kind: Kind, todo: seq<Uuid>)
    | Canceling(kind: Kind, job: Job, rest: seq<Uuid>)
    | Ready(kind: Kind)
    | NoneRunning
    | Creating
    | Sending(uuid: Uuid)
    | Starting(uuid: Uuid)
    | Writing(uuid: Uuid, task: Task)
    | Erasing(uuid: Uuid)
    | Completing(job: Job)
    | Cleaning
    | CleaningLog(uuid: Uuid)
    | Broken

  /** The worker waits, has received a task, or runs one. */
  datatype Worker = Waiting | Received(uuid: Uuid) | Working(uuid: Uuid)

  /** A status read: the state it looks at next, or its answer. expects: the task existed and was not cleaned up since. */
  datatype Reader = Looking(uuid: Uuid, next: State, expects: bool) | Answered(uuid: Uuid, found: bool, expects: bool)

  datatype System = System(
    store: Store,
    initialized: bool,
    holder: Holder,
    channel: seq<Uuid>,
    worker: Worker,
    job: Option<Uuid>,      // the worker's current job, as log readers see it
    readers: map<nat, Reader>,
    used: set<Uuid>,        // every UUID handed out so far
    added: seq<Uuid>,       // the tasks added since the start, in order
    recovered: set<Uuid>)   // what the last recovery found queued or running, less what was cleaned up since

  function Initial(): System {
    System(EMPTY, false, Free, [], Waiting, None, map[], {}, [], {})
  }

  datatype Step =
    | Lock(kind: Kind)
    | Initialize(order: seq<Uuid>)
    | ListQueued(order: seq<Uuid>)
    | Recover(now: int)
    | Proceed
    | CheckRunning
    | CheckQueued
    | Create(uuid: Uuid, now: int)
    | Send
    | Receive
    | SetJob
    | ResetJob
    | LockToStart
    | ReadQueued(now: int)
    | WriteRunning
    | EraseQueued
    | LockToFinish(failed: bool, reason: string, log: string, now: int)
    | Advance
    | LockToClean
    | Clean(uuid: Uuid)
    | CleanLog
    | Unlock
    | StartReading(reader: nat, uuid: Uuid)
    | Read(reader: nat)
    | Crash

  /** A listing holds each key once, in any order. */
  ghost predicate Lists(order: seq<Uuid>, records: map<Uuid, Task>) {
    forall u :: multiset(order)[u] == Count(u in records)
  }

  function Count(present: bool): nat {
    if present then 1 else 0
  }

  /** What a status reader does next: it looks at queued, then running, then completed, and answers at the first hit. */
  function ReadOnce(store: Store, r: Reader): Reader
    requires r.Looking?
  {
    if r.uuid in store.Of(r.next) then Answered(r.uuid, true, r.expects)
    else match r.next
      case Queued => r.(next := Running)
      case Running => r.(next := Completed)
      case Completed => Answered(r.uuid, false, r.expects)
  }

  /** A cleaned-up task releases the readers that were looking for it. */
  function Release(readers: map<nat, Reader>, uuid: Uuid): map<nat, Reader> {
    map i | i in readers :: if readers[i].uuid == uuid then readers[i].(expects := false) else readers[i]
  }

  /** One storage call of the completion that the worker or the recovery is in. */
  function AdvanceJob(s: System): Option<System> {
    if s.holder.Completing? then
      var (store, job) := JobStep(s.store, s.holder.job);
      match job.pc
      case Done => Some(s.(holder := Free, worker := Waiting, store := store))
      case NotFound => Some(s.(holder := Broken))
      case _ => Some(s.(holder := Completing(job), store := store))
    else if s.holder.Canceling? then
      var (store, job) := JobStep(s.store, s.holder.job);
      match job.pc
      case Done => Some(s.(holder := Recovering(s.holder.kind, s.holder.rest), store := store))
      case NotFound => Some(s.(holder := Broken))
      case _ => Some(s.(holder := Canceling(s.holder.kind, job, s.holder.rest), store := store))
    else None
  }

  /** A caller that adds a task: recovery, the busy check, the record and the send. */
  ghost function AddNext(s: System, step: Step): Option<System> {
    match step
    case Lock(kind) =>
      if s.holder.Free? then Some(s.(holder := Entered(kind))) else None
    case Initialize(order) =>
      if s.holder.Entered? && !s.initialized && Lists(order, s.store.running) then
        Some(s.(holder := ListedRunning(s.holder.kind, order), initialized := true,
                recovered := s.store.queued.Keys + s.store.running.Keys))
      else None
    case ListQueued(order) =>
      if s.holder.ListedRunning? && Lists(order, s.store.queued) then
        Some(s.(holder := Recovering(s.holder.kind, s.holder.list + order)))
      else None
    case Recover(now) =>
      if s.holder.Recovering? && s.holder.todo != [] then
        Some(s.(holder := Canceling(s.holder.kind, NewJob(s.holder.todo[0], CANCELED, INVALIDATED, "", now), s.holder.todo[1..])))
      else None
    case Proceed =>
      if s.holder.Recovering? && s.holder.todo == [] then Some(s.(holder := Ready(s.holder.kind)))
      else if s.holder.Entered? && s.initialized then Some(s.(holder := Ready(s.holder.kind)))
      else if s.holder.Ready? && s.holder.kind.Add? then Some(s.(holder := Creating))
      else None
    case CheckRunning =>
      if s.holder.Ready? && s.holder.kind.Run? then
        Some(s.(holder := if s.store.running == map[] then NoneRunning else Free))
      else None
    case CheckQueued =>
      if s.holder.NoneRunning? then Some(s.(holder := if s.store.queued == map[] then Creating else Free)) else None
    case Create(uuid, now) =>
      if s.holder.Creating? && uuid !in s.used then
        Some(s.(holder := Sending(uuid), used := s.used + {uuid}, added := s.added + [uuid],
                store := s.store.Put(Queued, uuid, Task(uuid, QUEUED, "", now, now))))
      else None
    case Send =>
      if s.holder.Sending? && |s.channel| < CAPACITY then
        Some(s.(holder := Free, channel := s.channel + [s.holder.uuid]))
      else None
    case _ => None
  }

  /** The worker: its reception of a task, its current job, and the start and the end of the task's run. */
  ghost function WorkNext(s: System, step: Step): Option<System> {
    match step
    case Receive =>
      if s.worker.Waiting? && s.job == None && s.channel != [] then
        Some(s.(worker := Received(s.channel[0]), channel := s.channel[1..]))
      else None
    case SetJob =>
      if s.worker.Received? && s.job == None then Some(s.(job := Some(s.worker.uuid))) else None
    case ResetJob =>
      if s.worker.Waiting? && s.job != None then Some(s.(job := None)) else None
    case LockToStart =>
      if s.worker.Received? && s.job != None && s.holder.Free? then Some(s.(holder := Starting(s.worker.uuid))) else None
    case ReadQueued(now) =>
      if s.holder.Starting? then
        match s.store.Get(Queued, s.holder.uuid)
        case None => Some(s.(holder := Broken))
        case Some(task) => Some(s.(holder := Writing(s.holder.uuid, task.(status := RUNNING, modified := now))))
      else None
    case WriteRunning =>
      if s.holder.Writing? then
        Some(s.(holder := Erasing(s.holder.uuid), store := s.store.Put(Running, s.holder.uuid, s.holder.task)))
      else None
    case EraseQueued =>
      if s.holder.Erasing? then
        Some(s.(holder := Free, worker := Working(s.holder.uuid), store := s.store.Delete(Queued, s.holder.uuid)))
      else None
    case LockToFinish(failed, reason, log, now) =>
      if s.worker.Working? && s.holder.Free? then
        Some(s.(holder := Completing(if failed then NewJob(s.worker.uuid, FAILED, reason, log, now)
                                     else NewJob(s.worker.uuid, SUCCEEDED, "", log, now))))
      else None
    case _ => None
  }

  /** The cleanup of the history, record by record and log by log. */
  ghost function CleanNext(s: System, step: Step): Option<System> {
    match step
    case LockToClean =>
      if s.holder.Free? then Some(s.(holder := Cleaning)) else None
    case Clean(uuid) =>
      if s.holder.Cleaning? && uuid in s.store.completed then
        Some(s.(holder := CleaningLog(uuid), store := s.store.Delete(Completed, uuid),
                readers := Release(s.readers, uuid), recovered := s.recovered - {uuid}))
      else None
    case CleanLog =>
      if s.holder.CleaningLog? then Some(s.(holder := Cleaning, store := s.store.DeleteLog(s.holder.uuid))) else None
    case Unlock =>
      if s.holder.Cleaning? then Some(s.(holder := Free)) else None
    case _ => None
  }

  /** A status reader. */
  ghost function ReadNext(s: System, step: Step): Option<System> {
    match step
    case StartReading(reader, uuid) =>
      if reader !in s.readers then Some(s.(readers := s.readers[reader := Looking(uuid, Queued, s.store.Has(uuid))])) else None
    case Read(reader) =>
      if reader in s.readers && s.readers[reader].Looking? then
        Some(s.(readers := s.readers[reader := ReadOnce(s.store, s.readers[reader])]))
      else None
    case _ => None
  }

  /** The state after a step, or None where the step cannot be taken. */
  ghost function Next(s: System, step: Step): Option<System> {
    if step.Advance? then AdvanceJob(s)
    else if step.Crash? then Some(Initial().(store := s.store, used := s.used))
    else if OfCleaner(step) then CleanNext(s, step)
    else if OfReader(step) then ReadNext(s, step)
    else if OfWorker(step) then WorkNext(s, step)
    else AddNext(s, step)
  }

  predicate OfCleaner(step: Step) {
    step.LockToClean? || step.Clean? || step.CleanLog? || step.Unlock?
  }

  predicate OfReader(step: Step) {
    step.StartReading? || step.Read?
  }

  predicate OfWorker(step: Step) {
    || step.Receive? || step.SetJob? || step.ResetJob? || step.LockToStart? || step.ReadQueued? || step.WriteRunning?
    || step.EraseQueued? || step.LockToFinish?
  }

  lemma NextIs(s: System, step: Step)
    ensures step.Advance? ==> Next(s, step) == AdvanceJob(s)
    ensures OfCleaner(step) ==> Next(s, step) == CleanNext(s, step)
    ensures OfReader(step) ==> Next(s, step) == ReadNext(s, step)
    ensures OfWorker(step) ==> Next(s, step) == WorkNext(s, step)
    ensures !step.Advance? && !step.Crash? && !OfCleaner(step) && !OfReader(step) && !OfWorker(step) ==>
              Next(s, step) == AddNext(s, step)
  {
    hide AdvanceJob, CleanNext, ReadNext, WorkNext, AddNext;
  }

  ghost function Exec(s: System, steps: seq<Step>): Option<System>
  {
    if steps == [] then Some(s)
    else match Exec(s, steps[..|steps| - 1])
      case None => None
      case Some(t) => Next(t, steps[|steps| - 1])
  }

  // ---------- the invariant ----------

  ghost predicate InRecovery(s: System) {
    s.holder.ListedRunning? || s.holder.Recovering? || s.holder.Canceling?
  }

  /** Recovery is over: the manager works from here on. */
  ghost predicate Settled(s: System) {
    s.initialized && !InRecovery(s)
  }

  /** The task being run. */
  function Current(s: System): seq<Uuid> {
    if s.worker.Working? then [s.worker.uuid] else []
  }

  /** The task just received, the channel, and the task about to be sent. */
  function Pending(s: System): seq<Uuid> {
    (if s.worker.Received? then [s.worker.uuid] else []) + s.channel + if s.holder.Sending? then [s.holder.uuid] else []
  }

  ghost predicate IsPending(s: System, u: Uuid) {
    s.worker == Received(u) || u in s.channel || s.holder == Sending(u)
  }

  function Live(s: System): seq<Uuid> {
    Current(s) + Pending(s)
  }

  ghost predicate Distinct(list: seq<Uuid>) {
    forall i, j :: 0 <= i < j < |list| ==> list[i] != list[j]
  }

  ghost predicate Suffix(part: seq<Uuid>, whole: seq<Uuid>) {
    |part| <= |whole| && forall i :: 0 <= i < |part| ==> part[i] == whole[|whole| - |part| + i]
  }

  /** The recovery list that is still to be worked off. */
  function Remaining(h: Holder): seq<Uuid> {
    match h
    case Recovering(_, todo) => todo
    case Canceling(_, job, rest) => [job.uuid] + rest
    case _ => []
  }

  /** What the holder has written but not yet erased. */
  ghost predicate MidSwitch(s: System) {
    && (s.holder.Starting? || s.holder.Writing? || s.holder.Erasing? ==> s.worker == Received(s.holder.uuid))
    && (s.holder.Writing? ==> s.holder.task.uuid == s.holder.uuid && s.holder.task.status == RUNNING)
    && (s.holder.Erasing? ==> s.holder.uuid in s.store.running)
    && (s.holder.Completing? ==> s.worker == Working(s.holder.job.uuid) && JobSane(s.store, s.holder.job))
    && (s.holder.Canceling? ==> JobSane(s.store, s.holder.job) && s.holder.job.status == CANCELED && s.holder.job.reason == INVALIDATED)
  }

  /** A job holds the record it found, and has put the completed one before it erases. */
  ghost predicate JobSane(store: Store, j: Job) {
    && IsCompleted(j.status)
    && (j.pc.LookQueued? ==> j.pc.found == store.Get(Running, j.uuid))
    && (j.pc.Write? || j.pc.WriteLog? || j.pc.Erase? ==>
          store.Get(j.pc.from, j.uuid) == Some(j.pc.task) && j.pc.task.uuid == j.uuid && j.pc.from != Completed)
    && (j.pc.WriteLog? || j.pc.Erase? ==>
          && j.uuid in store.completed
          && store.completed[j.uuid].status == j.status && store.completed[j.uuid].reason == j.reason)
    && !j.pc.Done? && !j.pc.NotFound?
  }

  /** Before and during recovery nothing else runs, and the recovery list names each leftover record once. */
  ghost predicate Unsettled(s: System) {
    && s.worker.Waiting? && s.channel == [] && s.added == []
    && (!s.initialized ==> s.holder.Free? || s.holder.Entered? || s.holder.Cleaning? || s.holder.CleaningLog?)
    && (s.initialized ==>
          && (s.holder.ListedRunning? ==> Lists(s.holder.list, s.store.running))
          && (!s.holder.ListedRunning? ==>
                forall u :: multiset(Remaining(s.holder))[u] == Count(u in s.store.queued) + Count(u in s.store.running)))
  }

  /** While the manager works, the records mirror the worker and the channel. */
  ghost predicate Mirrors(s: System) {
    && Distinct(Live(s)) && Suffix(Live(s), s.added)
    && (forall u :: u in s.store.queued <==> IsPending(s, u))
    && (forall u :: u in s.store.running <==> s.worker == Working(u) || s.holder == Erasing(u))
    && (forall u :: u in s.store.completed && (u in s.store.queued || u in s.store.running) ==> Finishing(s, u))
    && (s.holder.NoneRunning? ==> s.store.running == map[])
  }

  ghost predicate Finishing(s: System, u: Uuid) {
    s.holder.Completing? && s.holder.job.uuid == u && (s.holder.job.pc.WriteLog? || s.holder.job.pc.Erase?)
  }

  /** What recovery found is still on its list or was canceled. */
  ghost predicate Accounted(s: System) {
    forall u :: u in s.recovered ==>
      || (InRecovery(s) && (s.holder.ListedRunning? ==> u in s.store.queued || u in s.store.running)
                        && (!s.holder.ListedRunning? ==> u in Remaining(s.holder)))
      || (u in s.store.completed && s.store.completed[u].status == CANCELED && s.store.completed[u].reason == INVALIDATED
          && u !in s.added)
  }

  /** A reader that expects an answer will meet the task in the states it has not looked at yet. */
  ghost predicate Findable(store: Store, r: Reader) {
    r.expects ==>
      match r
      case Answered(_, found, _) => found
      case Looking(u, Queued, _) => store.Has(u)
      case Looking(u, Running, _) => u in store.running || u in store.completed
      case Looking(u, Completed, _) => u in store.completed
  }

  ghost predicate Known(s: System) {
    && (forall u :: s.store.Has(u) ==> u in s.used)
    && (forall u :: u in s.added ==> u in s.used)
    && s.recovered <= s.used
  }

  ghost predicate Inv(s: System) {
    && !s.holder.Broken?
    && s.store.Filed()
    && Known(s)
    && MidSwitch(s)
    && (if Settled(s) then Mirrors(s) else Unsettled(s))
    && Accounted(s)
    && forall i :: i in s.readers ==> Findable(s.store, s.readers[i])
  }

  // ---------- every step keeps the invariant ----------

  /** Records only move on: queued, running, completed. */
  ghost predicate MovesOn(before: Store, after: Store) {
    && (forall u :: before.Has(u) ==> after.Has(u))
    && (forall u :: u in before.running ==> u in after.running || u in after.completed)
    && (forall u :: u in before.completed ==> u in after.completed)
  }

  lemma ReadersKept(readers: map<nat, Reader>, before: Store, after: Store)
    requires MovesOn(before, after)
    requires forall i :: i in readers ==> Findable(before, readers[i])
    ensures forall i :: i in readers ==> Findable(after, readers[i])
  {
    forall i | i in readers ensures Findable(after, readers[i]) {
      assert Findable(before, readers[i]);
    }
  }

  /** Readers do not disturb anything. */
  ghost predicate AllFindable(s: System) {
    forall i :: i in s.readers ==> Findable(s.store, s.readers[i])
  }

  /** The invariant without the readers. */
  ghost predicate Body(s: System) {
    && !s.holder.Broken?
    && s.store.Filed()
    && Known(s)
    && MidSwitch(s)
    && (if Settled(s) then Mirrors(s) else Unsettled(s))
    && Accounted(s)
  }

  lemma Parts(s: System)
    ensures Inv(s) <==> Body(s) && AllFindable(s)
    ensures Inv(s) && (s.holder.Creating? || s.holder.Writing? || s.holder.Erasing?) ==> Settled(s)
  {
    hide Known, MidSwitch, Mirrors, Accounted, Findable;
  }

  /** Neither readers nor the current job matter to the rest. */
  lemma OnlyReaders(s: System, t: System)
    requires Body(s) && t == s.(readers := t.readers, job := t.job)
    ensures Body(t)
  {
    assert Live(t) == Live(s);
    hide Live, Pending, Distinct, Suffix, JobSane, Remaining;
  }

  lemma OtherReaders(s: System, readers: map<nat, Reader>)
    requires Inv(s) && forall i :: i in readers ==> Findable(s.store, readers[i])
    ensures Inv(s.(readers := readers))
  {
    var t := s.(readers := readers);
    Parts(s);
    Parts(t);
    hide Inv, Body;
    OnlyReaders(s, t);
  }

  lemma LockKeeps(s: System, kind: Kind)
    requires Inv(s) && Next(s, Step.Lock(kind)).Some?
    ensures Inv(Next(s, Step.Lock(kind)).value)
  {
    hide Distinct, Suffix, JobSane;
  }

  lemma InitializeKeeps(s: System, order: seq<Uuid>)
    requires Inv(s) && Next(s, Step.Initialize(order)).Some?
    ensures Inv(Next(s, Step.Initialize(order)).value)
  {
  }

  lemma ListQueuedKeeps(s: System, order: seq<Uuid>)
    requires Inv(s) && Next(s, Step.ListQueued(order)).Some?
    ensures Inv(Next(s, Step.ListQueued(order)).value)
  {
    ListQueuedEffect(s, order);
    var t := s.(holder := Recovering(s.holder.kind, s.holder.list + order));
    assert Unsettled(s) && s.initialized;
    hide Next, Mirrors, Lists, Findable, JobSane;
    ListedAll(s, t, order);
    hide Unsettled, Accounted;
  }

  lemma ListQueuedEffect(s: System, order: seq<Uuid>)
    requires Next(s, Step.ListQueued(order)).Some?
    ensures s.holder.ListedRunning? && Lists(order, s.store.queued)
    ensures Next(s, Step.ListQueued(order)) == Some(s.(holder := Recovering(s.holder.kind, s.holder.list + order)))
  {
    hide Lists;
  }

  lemma ListedAll(s: System, t: System, order: seq<Uuid>)
    requires Unsettled(s) && Accounted(s) && s.initialized && s.holder.ListedRunning? && Lists(order, s.store.queued)
    requires t == s.(holder := Recovering(s.holder.kind, s.holder.list + order))
    ensures Unsettled(t) && Accounted(t)
  {
    var all := s.holder.list + order;
    assert multiset(all) == multiset(s.holder.list) + multiset(order);
    forall u | u in s.store.queued || u in s.store.running ensures u in all {
      assert multiset(all)[u] > 0;
    }
  }

  lemma RecoverKeeps(s: System, now: int)
    requires Inv(s) && Next(s, Step.Recover(now)).Some?
    ensures Inv(Next(s, Step.Recover(now)).value)
  {
    hide Mirrors;
    var u, rest := s.holder.todo[0], s.holder.todo[1..];
    assert s.holder.todo == [u] + rest;
    assert Next(s, Step.Recover(now)) == Some(s.(holder := Canceling(s.holder.kind, NewJob(u, CANCELED, INVALIDATED, "", now), rest)));
    hide Next;
  }

  /** A worked-off list means that no record was left out. */
  lemma NothingLeft(s: System)
    requires Unsettled(s) && s.holder.Recovering? && s.holder.todo == [] && s.initialized
    ensures s.store.queued == map[] && s.store.running == map[]
  {
    assert forall u :: multiset(Remaining(s.holder))[u] == 0;
    assert forall u :: u !in s.store.queued && u !in s.store.running;
  }

  /** Recovery ends, or the manager enters or goes on: nothing but the holder's place changes. */
  lemma ProceedStep(s: System)
    requires Next(s, Step.Proceed).Some?
    ensures var t := Next(s, Step.Proceed).value;
            && t == s.(holder := t.holder) && (t.holder.Ready? || t.holder.Creating?)
            && Pending(t) == Pending(s) && Live(t) == Live(s)
    ensures s.initialized || s.holder.Recovering? || s.holder.Ready?
    ensures (s.holder.Recovering? && s.holder.todo == []) || s.holder.Entered? || s.holder.Ready?
  {
  }

  lemma ProceedKeeps(s: System)
    requires Inv(s) && Next(s, Step.Proceed).Some?
    ensures Inv(Next(s, Step.Proceed).value)
  {
    ProceedStep(s);
    var t := Next(s, Step.Proceed).value;
    hide Next, Live, Pending, Distinct, Suffix, Findable, JobSane, Lists, Known;
    if s.holder.Recovering? {
      assert s.initialized && Unsettled(s);
      NothingLeft(s);
      assert forall u :: !IsPending(t, u);
      RecoveredMirrors(t);
      assert Accounted(t);
      hide Mirrors, Accounted;
    } else {
      assert s.initialized && Mirrors(s);
    }
  }

  lemma RecoveredMirrors(s: System)
    requires s.holder.Ready? && s.worker.Waiting? && s.channel == [] && s.added == []
    requires s.store.queued == map[] && s.store.running == map[]
    ensures Mirrors(s)
  {
    assert Live(s) == [];
  }

  /** The busy check looks and changes nothing but the holder's place. */
  lemma CheckEffect(s: System, step: Step)
    requires (step.CheckRunning? || step.CheckQueued?) && Next(s, step).Some?
    ensures var t := Next(s, step).value;
            && t == s.(holder := t.holder) && (s.holder.Ready? || s.holder.NoneRunning?)
            && (t.holder.Free? || t.holder.Creating? || (t.holder.NoneRunning? && s.store.running == map[]))
  {
  }

  lemma CheckBody(s: System, t: System)
    requires Body(s) && (s.holder.Ready? || s.holder.NoneRunning?) && t == s.(holder := t.holder)
    requires t.holder.Free? || t.holder.Creating? || (t.holder.NoneRunning? && s.store.running == map[])
    ensures Body(t)
  {
    assert Settled(s) && Live(t) == Live(s);
    hide Unsettled, Remaining, Live, Pending, Distinct, Suffix, JobSane;
  }

  lemma CheckKeeps(s: System, step: Step)
    requires Inv(s) && (step.CheckRunning? || step.CheckQueued?) && Next(s, step).Some?
    ensures Inv(Next(s, step).value)
  {
    hide *;
    CheckEffect(s, step);
    var t := Next(s, step).value;
    Parts(s);
    Parts(t);
    CheckBody(s, t);
    SameReadersAndStore(s, t);
  }

  lemma SameReadersAndStore(s: System, t: System)
    requires AllFindable(s) && t.readers == s.readers && t.store == s.store
    ensures AllFindable(t)
  {
    hide Findable;
  }

  lemma AppendLast(u: Uuid, list: seq<Uuid>, whole: seq<Uuid>)
    requires Distinct(list) && Suffix(list, whole) && u !in whole
    ensures Distinct(list + [u]) && Suffix(list + [u], whole + [u])
  {
    forall i | 0 <= i < |list| ensures list[i] != u {
      assert list[i] in whole;
    }
  }

  lemma CreateMirrors(s: System, t: System, u: Uuid)
    requires Mirrors(s) && s.holder.Creating? && u !in s.added && !s.store.Has(u)
    requires t == s.(holder := Sending(u), used := t.used, added := s.added + [u], store := t.store)
    requires t.store == s.store.(queued := t.store.queued) && t.store.queued.Keys == s.store.queued.Keys + {u}
    ensures Mirrors(t)
  {
    assert Live(t) == Live(s) + [u];
    AppendLast(u, Live(s), s.added);
    hide Live, Pending, Distinct, Suffix;
  }

  lemma CreateKeeps(s: System, uuid: Uuid, now: int)
    requires Inv(s) && Next(s, Step.Create(uuid, now)).Some?
    ensures Inv(Next(s, Step.Create(uuid, now)).value)
  {
    CreateEffect(s, uuid, now);
    hide *;
    var t := Next(s, Step.Create(uuid, now)).value;
    Parts(s);
    Parts(t);
    CreateBody(s, t, uuid, now);
    CreateReaders(s, t, uuid, now);
  }

  lemma CreateEffect(s: System, uuid: Uuid, now: int)
    requires Next(s, Step.Create(uuid, now)).Some?
    ensures s.holder.Creating? && uuid !in s.used
    ensures Next(s, Step.Create(uuid, now)).value ==
            s.(holder := Sending(uuid), used := s.used + {uuid}, added := s.added + [uuid],
               store := s.store.Put(Queued, uuid, Task(uuid, QUEUED, "", now, now)))
  {
  }

  lemma CreateReaders(s: System, t: System, uuid: Uuid, now: int)
    requires AllFindable(s) && t.readers == s.readers && t.store == s.store.Put(Queued, uuid, Task(uuid, QUEUED, "", now, now))
    ensures AllFindable(t)
  {
    ReadersKept(s.readers, s.store, t.store);
    hide Findable;
  }

  lemma CreateBody(s: System, t: System, uuid: Uuid, now: int)
    requires Body(s) && Settled(s) && s.holder.Creating? && uuid !in s.used
    requires t == s.(holder := Sending(uuid), used := s.used + {uuid}, added := s.added + [uuid],
                     store := s.store.Put(Queued, uuid, Task(uuid, QUEUED, "", now, now)))
    ensures Body(t)
  {
    hide Unsettled, Remaining;
    CreateMirrors(s, t, uuid);
    hide Mirrors;
  }

  lemma SendKeeps(s: System)
    requires Inv(s) && Next(s, Step.Send).Some?
    ensures Inv(Next(s, Step.Send).value)
  {
    assert Settled(s);
    hide Unsettled, Remaining;
    assert Pending(Next(s, Step.Send).value) == Pending(s);
  }

  lemma ReceiveKeeps(s: System)
    requires Inv(s) && Next(s, Step.Receive).Some?
    ensures Inv(Next(s, Step.Receive).value)
  {
    assert Settled(s);
    hide Unsettled, Remaining;
    assert Pending(Next(s, Step.Receive).value) == Pending(s);
  }

  /** The current job concerns the worker and the log readers only. */
  lemma JobKeeps(s: System, job: Option<Uuid>)
    requires Inv(s)
    ensures Inv(s.(job := job))
  {
    var t := s.(job := job);
    Parts(s);
    Parts(t);
    hide Inv, Body;
    OnlyReaders(s, t);
  }

  lemma JobStepEffect(s: System, step: Step)
    requires (step.SetJob? || step.ResetJob?) && Next(s, step).Some?
    ensures step.SetJob? ==> s.worker.Received? && Next(s, step) == Some(s.(job := Some(s.worker.uuid)))
    ensures step.ResetJob? ==> Next(s, step) == Some(s.(job := None))
  {
  }

  lemma LockToStartKeeps(s: System)
    requires Inv(s) && Next(s, Step.LockToStart).Some?
    ensures Inv(Next(s, Step.LockToStart).value)
  {
    assert Settled(s);
    hide Unsettled, Remaining;
  }

  lemma ReadQueuedKeeps(s: System, now: int)
    requires Inv(s) && Next(s, Step.ReadQueued(now)).Some?
    ensures Inv(Next(s, Step.ReadQueued(now)).value)
  {
    assert Settled(s);
    hide Unsettled, Remaining;
  }

  lemma WriteRunningKeeps(s: System)
    requires Inv(s) && Next(s, Step.WriteRunning).Some?
    ensures Inv(Next(s, Step.WriteRunning).value)
  {
    WriteRunningEffect(s);
    hide *;
    var t := Next(s, Step.WriteRunning).value;
    Parts(s);
    Parts(t);
    WriteRunningBody(s, t);
    WriteRunningReaders(s, t);
  }

  lemma WriteRunningEffect(s: System)
    requires Next(s, Step.WriteRunning).Some?
    ensures s.holder.Writing?
    ensures Next(s, Step.WriteRunning).value ==
            s.(holder := Erasing(s.holder.uuid), store := s.store.Put(Running, s.holder.uuid, s.holder.task))
  {
  }

  lemma WriteRunningBody(s: System, t: System)
    requires Body(s) && Settled(s) && s.holder.Writing?
    requires t == s.(holder := Erasing(s.holder.uuid), store := s.store.Put(Running, s.holder.uuid, s.holder.task))
    ensures Body(t)
  {
    assert Live(t) == Live(s);
    hide Unsettled, Remaining, Live, Distinct, Suffix;
  }

  lemma WriteRunningReaders(s: System, t: System)
    requires AllFindable(s) && s.holder.Writing?
    requires t.readers == s.readers && t.store == s.store.Put(Running, s.holder.uuid, s.holder.task)
    ensures AllFindable(t)
  {
    ReadersKept(s.readers, s.store, t.store);
    hide Findable;
  }

  lemma EraseQueuedKeeps(s: System)
    requires Inv(s) && Next(s, Step.EraseQueued).Some?
    ensures Inv(Next(s, Step.EraseQueued).value)
  {
    EraseQueuedEffect(s);
    hide *;
    var t := Next(s, Step.EraseQueued).value;
    Parts(s);
    Parts(t);
    EraseQueuedBody(s, t);
    EraseQueuedReaders(s, t);
  }

  lemma EraseQueuedEffect(s: System)
    requires Next(s, Step.EraseQueued).Some?
    ensures s.holder.Erasing?
    ensures Next(s, Step.EraseQueued).value ==
            s.(holder := Free, worker := Working(s.holder.uuid), store := s.store.Delete(Queued, s.holder.uuid))
  {
  }

  lemma EraseQueuedBody(s: System, t: System)
    requires Body(s) && Settled(s) && s.holder.Erasing?
    requires t == s.(holder := Free, worker := Working(s.holder.uuid), store := s.store.Delete(Queued, s.holder.uuid))
    ensures Body(t)
  {
    hide Unsettled, Remaining;
    EraseQueuedMirrors(s, t);
    hide Mirrors, Pending, Live;
  }

  lemma EraseQueuedReaders(s: System, t: System)
    requires Body(s) && AllFindable(s) && s.holder.Erasing?
    requires t.readers == s.readers && t.store == s.store.Delete(Queued, s.holder.uuid)
    ensures AllFindable(t)
  {
    assert MidSwitch(s);
    hide Body;
    ReadersKept(s.readers, s.store, t.store);
    hide Findable;
  }

  lemma LockToFinishKeeps(s: System, failed: bool, reason: string, log: string, now: int)
    requires Inv(s) && Next(s, Step.LockToFinish(failed, reason, log, now)).Some?
    ensures Inv(Next(s, Step.LockToFinish(failed, reason, log, now)).value)
  {
    assert Settled(s);
    hide Unsettled, Remaining;
  }

  lemma AdvanceKeeps(s: System)
    requires Inv(s) && Next(s, Step.Advance).Some?
    ensures Inv(Next(s, Step.Advance).value)
  {
    if s.holder.Completing? {
      match s.holder.job.pc
      case Write(_, _) => CompletingWriteKeeps(s);
      case Erase(_, _) => CompletingEraseKeeps(s);
      case _ => CompletingLookKeeps(s);
    } else {
      match s.holder.job.pc
      case Write(_, _) => CancelingWriteKeeps(s);
      case Erase(_, _) => CancelingEraseKeeps(s);
      case _ => CancelingLookKeeps(s);
    }
  }

  lemma WriteEffect(s: System)
    requires s.holder.Completing? || s.holder.Canceling?
    requires s.holder.job.pc.Write? && IsCompleted(s.holder.job.status)
    ensures var j := s.holder.job;
            AdvanceJob(s) == Some(s.(store := s.store.Put(Completed, j.uuid, Completion(j, j.pc.task)),
                                     holder := s.holder.(job := Written(j, j.pc.task, j.pc.from))))
  {
  }

  lemma EraseEffect(s: System)
    requires s.holder.Completing? || s.holder.Canceling?
    requires s.holder.job.pc.Erase?
    ensures var j := s.holder.job;
            var store := s.store.Delete(j.pc.from, j.pc.task.uuid);
            AdvanceJob(s) == Some(if s.holder.Completing? then s.(store := store, worker := Waiting, holder := Free)
                                  else s.(store := store, holder := Recovering(s.holder.kind, s.holder.rest)))
  {
  }

  lemma WriteSane(s: System)
    requires s.holder.Completing? || s.holder.Canceling?
    requires s.holder.job.pc.Write? && JobSane(s.store, s.holder.job) && s.store.Filed()
    ensures var j := s.holder.job;
            var store := s.store.Put(Completed, j.uuid, Completion(j, j.pc.task));
            && store.Filed() && MovesOn(s.store, store) && store.queued == s.store.queued && store.running == s.store.running
            && store.completed == s.store.completed[j.uuid := Completion(j, j.pc.task)]
            && JobSane(store, Written(j, j.pc.task, j.pc.from))
  {
  }

  lemma EraseMoves(store: Store, j: Job)
    requires JobSane(store, j) && j.pc.Erase?
    ensures MovesOn(store, store.Delete(j.pc.from, j.uuid))
    ensures store.Filed() ==> store.Delete(j.pc.from, j.uuid).Filed()
    ensures store.Delete(j.pc.from, j.uuid).completed == store.completed
  {
  }

  /** A look or a log write changes nothing but the log and the holder's place. */
  lemma CompletingLookStep(s: System)
    requires Inv(s) && s.holder.Completing? && !s.holder.job.pc.Write? && !s.holder.job.pc.Erase?
    ensures var t := AdvanceJob(s).value;
            && t == s.(store := s.store.(logs := t.store.logs), holder := t.holder)
            && t.holder.Completing? && t.holder.job.uuid == s.holder.job.uuid && JobSane(t.store, t.holder.job)
            && (Finishing(s, s.holder.job.uuid) <==> Finishing(t, s.holder.job.uuid))
  {
    assert Settled(s);
    hide Unsettled, Remaining;
    assert s.holder.job.uuid in s.store.running;
    hide Accounted, Findable, Known;
  }

  lemma CancelingLookStep(s: System)
    requires Inv(s) && s.holder.Canceling? && !s.holder.job.pc.Write? && !s.holder.job.pc.Erase?
    ensures AdvanceJob(s).Some?
    ensures var t := AdvanceJob(s).value;
            && t == s.(store := s.store.(logs := t.store.logs), holder := t.holder)
            && t.holder.Canceling? && t.holder.job == s.holder.job.(pc := t.holder.job.pc) && t.holder.rest == s.holder.rest
            && JobSane(t.store, t.holder.job)
  {
    hide Mirrors, Distinct, Suffix;
    assert s.holder.job.uuid in multiset(Remaining(s.holder));
    assert s.holder.job.uuid in s.store.queued || s.holder.job.uuid in s.store.running;
    hide Accounted, Findable, Known;
  }

  lemma DropFirst(u: Uuid, rest: seq<Uuid>, whole: seq<Uuid>)
    requires Distinct([u] + rest) && Suffix([u] + rest, whole)
    ensures Distinct(rest) && Suffix(rest, whole) && u !in rest
  {
    var list := [u] + rest;
    assert list[0] == u;
    forall i | 0 <= i < |rest| ensures rest[i] == whole[|whole| - |rest| + i] && rest[i] != u {
      assert list[i + 1] == rest[i];
    }
    forall i, j | 0 <= i < j < |rest| ensures rest[i] != rest[j] {
      assert list[i + 1] == rest[i] && list[j + 1] == rest[j];
    }
  }

  lemma StartingShapes(s: System, t: System)
    requires s.holder.Erasing? && s.worker == Received(s.holder.uuid) && t.holder.Free?
    requires t.worker == Working(s.holder.uuid) && t.channel == s.channel
    requires Distinct(Live(s)) && Suffix(Live(s), s.added) && t.added == s.added
    ensures Distinct(Live(t)) && Suffix(Live(t), t.added) && s.holder.uuid !in s.channel
  {
    assert Live(s) == Live(t) == [s.holder.uuid] + s.channel;
    DropFirst(s.holder.uuid, s.channel, s.added);
  }

  lemma FinishingShapes(s: System, t: System)
    requires s.holder.Completing? && s.worker == Working(s.holder.job.uuid) && t.holder.Free?
    requires t.worker == Waiting && t.channel == s.channel
    requires Distinct(Live(s)) && Suffix(Live(s), s.added) && t.added == s.added
    ensures Distinct(Live(t)) && Suffix(Live(t), t.added) && s.holder.job.uuid !in s.channel
  {
    assert Live(s) == [s.holder.job.uuid] + s.channel;
    assert Live(t) == s.channel;
    DropFirst(s.holder.job.uuid, s.channel, s.added);
  }

  lemma EraseQueuedMirrors(s: System, t: System)
    requires Mirrors(s) && s.holder.Erasing? && s.worker == Received(s.holder.uuid)
    requires t == s.(holder := Free, worker := Working(s.holder.uuid), store := s.store.Delete(Queued, s.holder.uuid))
    ensures Mirrors(t)
  {
    StartingShapes(s, t);
    hide Pending, Live, Distinct, Suffix;
  }

  lemma CompletingEraseMirrors(s: System, t: System)
    requires Mirrors(s) && MidSwitch(s) && s.holder.Completing? && s.holder.job.pc.Erase?
    requires t == s.(store := s.store.Delete(s.holder.job.pc.from, s.holder.job.uuid), worker := Waiting, holder := Free)
    ensures Mirrors(t)
  {
    FinishingShapes(s, t);
    assert s.holder.job.pc.from == Running;
    hide Pending, Live, Distinct, Suffix;
  }

  lemma CompletingLookKeeps(s: System)
    requires Inv(s) && s.holder.Completing? && !s.holder.job.pc.Write? && !s.holder.job.pc.Erase?
    ensures Inv(AdvanceJob(s).value)
  {
    assert Settled(s);
    hide Unsettled, Remaining;
    var t := AdvanceJob(s).value;
    CompletingLookStep(s);
    assert t.store.(logs := s.store.logs) == s.store;
    hide JobStep;
    assert MovesOn(s.store, t.store);
    ReadersKept(s.readers, s.store, t.store);
    hide Findable, MovesOn;
    assert Live(t) == Live(s) && Pending(t) == Pending(s);
    hide Live, Pending;
  }

  lemma CompletingWriteKeeps(s: System)
    requires Inv(s) && s.holder.Completing? && s.holder.job.pc.Write?
    ensures Inv(AdvanceJob(s).value)
  {
    WriteEffect(s);
    hide AdvanceJob, JobStep;
    var j := s.holder.job;
    var t := s.(store := s.store.Put(Completed, j.uuid, Completion(j, j.pc.task)), holder := Completing(Written(j, j.pc.task, j.pc.from)));
    WriteSane(s);
    ReadersKept(s.readers, s.store, t.store);
    hide Findable, MovesOn, JobSane;
    assert Live(t) == Live(s);
    assert j.uuid in s.added by { assert Live(s)[0] == j.uuid; }
    hide Live, Unsettled;
  }

  lemma CompletingEraseKeeps(s: System)
    requires Inv(s) && s.holder.Completing? && s.holder.job.pc.Erase?
    ensures Inv(AdvanceJob(s).value)
  {
    EraseEffect(s);
    EraseMoves(s.store, s.holder.job);
    hide AdvanceJob, JobStep;
    var t := s.(store := s.store.Delete(s.holder.job.pc.from, s.holder.job.uuid), worker := Waiting, holder := Free);
    ReadersKept(s.readers, s.store, t.store);
    hide Findable, MovesOn;
    CompletingEraseMirrors(s, t);
    hide Mirrors, Pending, Live, Unsettled, JobSane;
  }

  lemma CancelingLookKeeps(s: System)
    requires Inv(s) && s.holder.Canceling? && !s.holder.job.pc.Write? && !s.holder.job.pc.Erase?
    ensures Inv(AdvanceJob(s).value)
  {
    hide *;
    CancelingLookStep(s);
    var t := AdvanceJob(s).value;
    CancelingParts(s);
    LookedOn(s, t);
    LookReaders(s, t);
    CancelingWhole(t);
  }

  /** The invariant while a cancelation is under way. */
  ghost predicate CancelingInv(s: System) {
    && s.holder.Canceling? && s.initialized && s.store.Filed()
    && Known(s) && MidSwitch(s) && Unsettled(s) && Accounted(s)
  }

  lemma CancelingParts(s: System)
    requires Inv(s) && s.holder.Canceling?
    ensures CancelingInv(s) && forall i :: i in s.readers ==> Findable(s.store, s.readers[i])
  {
    hide Known, MidSwitch, Mirrors, Accounted, Findable;
  }

  lemma CancelingWhole(s: System)
    requires CancelingInv(s) && forall i :: i in s.readers ==> Findable(s.store, s.readers[i])
    ensures Inv(s)
  {
    hide Known, MidSwitch, Mirrors, Unsettled, Accounted, Findable;
  }

  lemma LookReaders(s: System, t: System)
    requires t == s.(store := s.store.(logs := t.store.logs), holder := t.holder)
    requires forall i :: i in s.readers ==> Findable(s.store, s.readers[i])
    ensures forall i :: i in t.readers ==> Findable(t.store, t.readers[i])
  {
    ReadersKept(s.readers, s.store, t.store);
    hide Findable;
  }

  /** Only the holder's place and the logs have changed. */
  lemma LookedOn(s: System, t: System)
    requires CancelingInv(s) && t.holder.Canceling? && JobSane(t.store, t.holder.job)
    requires t == s.(store := s.store.(logs := t.store.logs), holder := t.holder)
    requires t.holder.job == s.holder.job.(pc := t.holder.job.pc) && t.holder.rest == s.holder.rest
    ensures CancelingInv(t)
  {
    hide JobSane;
    assert Remaining(t.holder) == Remaining(s.holder);
    hide Remaining;
  }

  lemma CancelingEraseUnsettled(s: System, t: System)
    requires Unsettled(s) && s.initialized && s.holder.Canceling? && JobSane(s.store, s.holder.job) && s.holder.job.pc.Erase?
    requires t == s.(store := s.store.Delete(s.holder.job.pc.from, s.holder.job.uuid),
                     holder := Recovering(s.holder.kind, s.holder.rest))
    ensures Unsettled(t)
  {
    var j, rest := s.holder.job, s.holder.rest;
    assert Remaining(s.holder) == [j.uuid] + rest && Remaining(t.holder) == rest;
    hide Remaining, JobStep;
    DropOne(j.uuid, rest);
    ErasedCount(s.store, j);
    hide JobSane;
  }

  lemma DropOne(u: Uuid, rest: seq<Uuid>)
    ensures forall v :: multiset([u] + rest)[v] == multiset(rest)[v] + Count(v == u)
  {
    assert multiset([u] + rest) == multiset{u} + multiset(rest);
  }

  lemma ErasedCount(store: Store, j: Job)
    requires JobSane(store, j) && j.pc.Erase?
    ensures var after := store.Delete(j.pc.from, j.uuid);
            forall u :: Count(u in after.queued) + Count(u in after.running) == Count(u in store.queued) + Count(u in store.running) - Count(u == j.uuid)
  {
  }

  lemma CancelingEraseAccounted(s: System, t: System)
    requires Accounted(s) && s.initialized && s.holder.Canceling? && JobSane(s.store, s.holder.job) && s.holder.job.pc.Erase?
    requires s.holder.job.status == CANCELED && s.holder.job.reason == INVALIDATED && s.added == []
    requires t == s.(store := s.store.Delete(s.holder.job.pc.from, s.holder.job.uuid),
                     holder := Recovering(s.holder.kind, s.holder.rest))
    ensures Accounted(t)
  {
    assert forall u :: u in Remaining(s.holder) ==> u == s.holder.job.uuid || u in Remaining(t.holder);
  }

  lemma CancelingWriteKeeps(s: System)
    requires Inv(s) && s.holder.Canceling? && s.holder.job.pc.Write?
    ensures Inv(AdvanceJob(s).value)
  {
    WriteEffect(s);
    WriteSane(s);
    hide AdvanceJob, JobStep;
    var j := s.holder.job;
    var t := s.(store := s.store.Put(Completed, j.uuid, Completion(j, j.pc.task)), holder := s.holder.(job := Written(j, j.pc.task, j.pc.from)));
    ReadersKept(s.readers, s.store, t.store);
    hide Findable, MovesOn, JobSane, Mirrors;
    assert Remaining(t.holder) == Remaining(s.holder);
    hide Remaining;
  }

  lemma CancelingEraseKeeps(s: System)
    requires Inv(s) && s.holder.Canceling? && s.holder.job.pc.Erase?
    ensures Inv(AdvanceJob(s).value)
  {
    EraseEffect(s);
    hide *;
    CancelingParts(s);
    CancelingSane(s);
    var t := AdvanceJob(s).value;
    EraseMoves(s.store, s.holder.job);
    ReadersKept(s.readers, s.store, t.store);
    CancelingErased(s, t);
    Parts(t);
    SameReaders(s, t);
  }

  lemma CancelingSane(s: System)
    requires CancelingInv(s)
    ensures JobSane(s.store, s.holder.job) && (s.holder.job.pc.Erase? ==> s.holder.job.pc.task.uuid == s.holder.job.uuid)
  {
  }

  lemma SameReaders(s: System, t: System)
    requires t.readers == s.readers && forall i :: i in s.readers ==> Findable(t.store, s.readers[i])
    ensures AllFindable(t)
  {
    hide Findable;
  }

  lemma CancelingErased(s: System, t: System)
    requires CancelingInv(s) && s.holder.job.pc.Erase?
    requires t == s.(store := s.store.Delete(s.holder.job.pc.from, s.holder.job.uuid),
                     holder := Recovering(s.holder.kind, s.holder.rest))
    ensures Body(t)
  {
    CancelingEraseUnsettled(s, t);
    CancelingEraseAccounted(s, t);
    EraseMoves(s.store, s.holder.job);
    hide Unsettled, Accounted, Remaining, JobSane, MovesOn, Mirrors;
  }

  lemma LockToCleanKeeps(s: System)
    requires Inv(s) && Next(s, Step.LockToClean).Some?
    ensures Inv(Next(s, Step.LockToClean).value)
  {
    hide Distinct, Suffix, JobSane;
  }

  lemma ReleaseKeeps(readers: map<nat, Reader>, store: Store, uuid: Uuid)
    requires forall i :: i in readers ==> Findable(store, readers[i])
    ensures forall i :: i in Release(readers, uuid) ==> Findable(store.Delete(Completed, uuid), Release(readers, uuid)[i])
  {
    forall i | i in readers ensures Findable(store.Delete(Completed, uuid), Release(readers, uuid)[i]) {
      assert Findable(store, readers[i]);
    }
  }

  lemma CleanKeeps(s: System, uuid: Uuid)
    requires Inv(s) && Next(s, Step.Clean(uuid)).Some?
    ensures Inv(Next(s, Step.Clean(uuid)).value)
  {
    CleanEffect(s, uuid);
    hide *;
    var t := Next(s, Step.Clean(uuid)).value;
    Parts(s);
    Parts(t);
    CleanBody(s, t, uuid);
    CleanReaders(s, t, uuid);
  }

  lemma CleanEffect(s: System, uuid: Uuid)
    requires Next(s, Step.Clean(uuid)).Some?
    ensures s.holder.Cleaning?
    ensures Next(s, Step.Clean(uuid)).value ==
            s.(holder := CleaningLog(uuid), store := s.store.Delete(Completed, uuid),
               readers := Release(s.readers, uuid), recovered := s.recovered - {uuid})
  {
    hide Release;
  }

  lemma CleanBody(s: System, t: System, uuid: Uuid)
    requires Body(s) && s.holder.Cleaning?
    requires t == s.(holder := CleaningLog(uuid), store := s.store.Delete(Completed, uuid),
                     readers := t.readers, recovered := s.recovered - {uuid})
    ensures Body(t)
  {
    assert Live(t) == Live(s);
    hide Live, Pending, Distinct, Suffix, Remaining;
  }

  lemma CleanReaders(s: System, t: System, uuid: Uuid)
    requires AllFindable(s) && t.store == s.store.Delete(Completed, uuid) && t.readers == Release(s.readers, uuid)
    ensures AllFindable(t)
  {
    ReleaseKeeps(s.readers, s.store, uuid);
    hide Findable, Release;
  }

  lemma CleanLogKeeps(s: System)
    requires Inv(s) && Next(s, Step.CleanLog).Some?
    ensures Inv(Next(s, Step.CleanLog).value)
  {
    hide Distinct, Suffix, JobSane;
  }

  lemma UnlockKeeps(s: System)
    requires Inv(s) && Next(s, Step.Unlock).Some?
    ensures Inv(Next(s, Step.Unlock).value)
  {
    hide Distinct, Suffix, JobSane;
  }

  lemma StartReadingKeeps(s: System, reader: nat, uuid: Uuid)
    requires Inv(s) && Next(s, Step.StartReading(reader, uuid)).Some?
    ensures Inv(Next(s, Step.StartReading(reader, uuid)).value)
  {
    hide Mirrors, Unsettled, MidSwitch, Accounted, Known;
    OtherReaders(s, s.readers[reader := Looking(uuid, Queued, s.store.Has(uuid))]);
  }

  lemma ReadKeeps(s: System, reader: nat)
    requires Inv(s) && Next(s, Step.Read(reader)).Some?
    ensures Inv(Next(s, Step.Read(reader)).value)
  {
    hide Mirrors, Unsettled, MidSwitch, Accounted, Known;
    OtherReaders(s, s.readers[reader := ReadOnce(s.store, s.readers[reader])]);
  }

  lemma CrashKeeps(s: System)
    requires Inv(s) && Next(s, Step.Crash).Some?
    ensures Inv(Next(s, Step.Crash).value)
  {
  }

  lemma StepKeeps(s: System, step: Step)
    requires Inv(s) && Next(s, step).Some?
    ensures Inv(Next(s, step).value)
  {
    hide Inv;
    if step.SetJob? || step.ResetJob? {
      JobStepEffect(s, step);
    }
    hide Next;
    match step
    case Lock(kind) => LockKeeps(s, kind);
    case Initialize(order) => InitializeKeeps(s, order);
    case ListQueued(order) => ListQueuedKeeps(s, order);
    case Recover(now) => RecoverKeeps(s, now);
    case Proceed => ProceedKeeps(s);
    case CheckRunning => CheckKeeps(s, step);
    case CheckQueued => CheckKeeps(s, step);
    case Create(uuid, now) => CreateKeeps(s, uuid, now);
    case Send => SendKeeps(s);
    case Receive => ReceiveKeeps(s);
    case SetJob => JobKeeps(s, Some(s.worker.uuid));
    case ResetJob => JobKeeps(s, None);
    case LockToStart => LockToStartKeeps(s);
    case ReadQueued(now) => ReadQueuedKeeps(s, now);
    case WriteRunning => WriteRunningKeeps(s);
    case EraseQueued => EraseQueuedKeeps(s);
    case LockToFinish(failed, reason, log, now) => LockToFinishKeeps(s, failed, reason, log, now);
    case Advance => AdvanceKeeps(s);
    case LockToClean => LockToCleanKeeps(s);
    case Clean(uuid) => CleanKeeps(s, uuid);
    case CleanLog => CleanLogKeeps(s);
    case Unlock => UnlockKeeps(s);
    case StartReading(reader, uuid) => StartReadingKeeps(s, reader, uuid);
    case Read(reader) => ReadKeeps(s, reader);
    case Crash => CrashKeeps(s);
  }
}
