/** When the task queue moves, where it comes to rest, and when it cannot. */
module TaskProgress {
  import opened Options
  import opened TaskRecords
  import opened TaskProtocol
  import opened TaskRuns

  // ---------- one task at a time ----------

  /** Only RunTask and AddOptionalTask are called. */
  ghost predicate RunsOnly(steps: seq<Step>) {
    Step.Lock(Add) !in steps
  }

  ghost predicate HolderRuns(h: Holder) {
    h.Entered? || h.ListedRunning? || h.Recovering? || h.Canceling? || h.Ready? ==> h.kind == Run
  }

  ghost predicate Single(s: System) {
    && HolderRuns(s.holder)
    && Outstanding(s) <= 1
    && (s.holder.Creating? ==> Outstanding(s) == 0)
  }

  /** How many tasks are received, waiting, running or about to be sent. */
  function Outstanding(s: System): (n: nat)
    ensures n == |Live(s)|
  {
    (if s.worker.Waiting? then 0 else 1) + |s.channel| + if s.holder.Sending? then 1 else 0
  }

  lemma {:induction false} RunsKeepSingle(steps: seq<Step>)
    requires Exec(Initial(), steps).Some? && RunsOnly(steps)
    ensures Inv(Exec(Initial(), steps).value) && Single(Exec(Initial(), steps).value)
  {
    hide Inv, Next, Single;
    if steps == [] {
      InitialKeeps();
      InitialSingle();
    } else {
      var n := |steps| - 1;
      RunsKeepSingle(steps[..n]);
      var s := Exec(Initial(), steps[..n]).value;
      StepKeeps(s, steps[n]);
      SingleStep(s, steps[n]);
    }
  }

  lemma InitialSingle()
    ensures Single(Initial())
  {
  }

  lemma SingleStep(s: System, step: Step)
    requires Inv(s) && Single(s) && Next(s, step).Some? && step != Step.Lock(Add)
    ensures Single(Next(s, step).value)
  {
    if s.holder.NoneRunning? && s.store.queued == map[] {
      IdleWhenEmpty(s);
    }
    SingleMove(s, step);
  }

  lemma SingleMove(s: System, step: Step)
    requires Single(s) && Next(s, step).Some? && step != Step.Lock(Add)
    requires s.holder.NoneRunning? && s.store.queued == map[] ==> Outstanding(s) == 0
    requires (s.holder.Erasing? ==> s.worker.Received?) && (s.holder.Completing? ==> s.worker.Working?)
    ensures Single(Next(s, step).value)
  {
    hide Live;
    if step.Advance? {
      SingleAdvance(s);
      hide AdvanceJob;
    } else {
      hide AdvanceJob, Lists, ReadOnce, Release;
    }
  }

  lemma SingleAdvance(s: System)
    requires Single(s) && AdvanceJob(s).Some? && (s.holder.Completing? ==> s.worker.Working?)
    ensures Single(AdvanceJob(s).value)
  {
    hide JobStep, Live;
  }

  /** Nothing queued and nothing running means that nothing is outstanding. */
  lemma IdleWhenEmpty(s: System)
    requires Inv(s) && s.holder.NoneRunning? && s.store.queued == map[]
    ensures Outstanding(s) == 0
  {
    var u, w := PendingWitness(s);
    assert !IsPending(s, u) && w !in s.store.running;
  }

  lemma PendingWitness(s: System) returns (u: Uuid, w: Uuid)
    ensures s.worker.Received? || s.channel != [] ==> IsPending(s, u)
    ensures s.worker.Working? ==> s.worker == Working(w)
  {
    u := if s.worker.Received? then s.worker.uuid else if s.channel != [] then s.channel[0] else 0;
    w := if s.worker.Working? then s.worker.uuid else 0;
  }

  /** With RunTask alone at most one task is outstanding, so the send made under the mutex never blocks. */
  lemma OneOutstanding(steps: seq<Step>)
    requires Exec(Initial(), steps).Some? && RunsOnly(steps)
    ensures var s := Exec(Initial(), steps).value;
            && |s.channel| <= 1 && |Live(s)| <= 1
            && (Settled(s) && s.holder.Free? ==> |s.store.queued.Keys + s.store.running.Keys| <= 1)
            && (s.holder.Sending? ==> s.channel == [] && Next(s, Step.Send).Some?)
  {
    hide *;
    RunsKeepSingle(steps);
    var s := Exec(Initial(), steps).value;
    SingleSends(s);
    if Settled(s) && s.holder.Free? {
      SettledMirrors(s);
      OneRecord(s);
    }
  }

  lemma SingleSends(s: System)
    requires Single(s)
    ensures Outstanding(s) <= 1 && |s.channel| <= 1
    ensures s.holder.Sending? ==> s.channel == [] && Next(s, Step.Send).Some?
  {
    hide WorkNext, CleanNext, ReadNext, AdvanceJob;
  }

  lemma SettledMirrors(s: System)
    requires Inv(s) && Settled(s)
    ensures Mirrors(s)
  {
    hide Mirrors, Unsettled, Accounted, Known, Findable, MidSwitch;
  }

  lemma RecordsLive(s: System)
    requires Mirrors(s) && s.holder.Free?
    ensures forall u :: u in s.store.queued.Keys + s.store.running.Keys ==> u in Live(s)
  {
    hide Distinct, Suffix;
    forall u | u in s.store.queued ensures u in Live(s) { PendingMember(s, u); }
  }

  lemma OneRecord(s: System)
    requires Mirrors(s) && s.holder.Free? && Outstanding(s) <= 1
    ensures |s.store.queued.Keys + s.store.running.Keys| <= 1
  {
    var records, live := s.store.queued.Keys + s.store.running.Keys, Live(s);
    RecordsLive(s);
    hide *;
    AtMostOne(records, live);
  }

  lemma AtMostOne(records: set<Uuid>, live: seq<Uuid>)
    requires |live| <= 1 && forall u :: u in records ==> u in live
    ensures |records| <= 1
  {
    if u :| u in records {
      assert records == {u};
    }
  }

  // ---------- progress ----------

  /** Steps that the worker, or whoever holds the mutex, takes by itself. */
  predicate Internal(step: Step) {
    !step.Lock? && !step.LockToClean? && !step.StartReading? && !step.Read? && !step.Crash?
  }

  /** Whoever holds the mutex is about to add a task, busy or not. */
  predicate WillSend(h: Holder) {
    match h
    case Entered(kind) => kind.Add?
    case ListedRunning(kind, _) => kind.Add?
    case Recovering(kind, _) => kind.Add?
    case Canceling(kind, _, _) => kind.Add?
    case Ready(kind) => kind.Add?
    case Creating => true
    case Sending(_) => true
    case _ => false
  }

  /** The holder will wait for room in the channel, and the only thread that could make room will wait for the holder. */
  predicate Doomed(s: System) {
    WillSend(s.holder) && |s.channel| >= CAPACITY && !s.worker.Waiting?
  }

  /** Nothing is left to do. */
  predicate Idle(s: System) {
    s.holder.Free? && s.worker.Waiting? && s.job == None && s.channel == []
  }

  /** Both threads wait for each other. */
  predicate Stuck(s: System) {
    s.holder.Sending? && |s.channel| >= CAPACITY && !s.worker.Waiting? && s.job != None
  }

  ghost predicate CanMove(s: System) {
    exists step :: Internal(step) && Next(s, step).Some?
  }

  lemma Moves(s: System, step: Step)
    requires Internal(step) && Next(s, step).Some?
    ensures CanMove(s)
  {
  }

  lemma FreshUuid(used: set<Uuid>) returns (u: Uuid)
    ensures forall v :: v in used ==> v < u
  {
    if used == {} {
      u := 0;
    } else {
      var v :| v in used;
      var w := FreshUuid(used - {v});
      u := if w <= v then v + 1 else w;
      forall x | x in used ensures x < u {
        assert x == v || x in used - {v};
      }
    }
  }

  lemma Listing(records: map<Uuid, Task>) returns (order: seq<Uuid>)
    ensures Lists(order, records)
  {
    if records == map[] {
      order := [];
    } else {
      var u :| u in records;
      var rest := Listing(records - {u});
      order := [u] + rest;
      assert forall v :: multiset(order)[v] == multiset(rest)[v] + Count(v == u);
    }
  }

  lemma HolderMoves(s: System)
    requires Inv(s) && !s.holder.Free? && !s.holder.Sending?
    ensures CanMove(s)
  {
    assert !s.holder.Broken?;
    hide Inv;
    if OfAdder(s.holder) {
      AdderMoves(s);
    } else {
      OtherMoves(s);
    }
    hide *;
  }

  predicate OfAdder(h: Holder) {
    h.Entered? || h.ListedRunning? || h.Recovering? || h.Canceling? || h.Ready? || h.NoneRunning? || h.Creating?
  }

  lemma AdderMoves(s: System)
    requires OfAdder(s.holder)
    ensures CanMove(s)
  {
    hide JobStep, Lists, WorkNext, CleanNext, ReadNext;
    match s.holder
    case Entered(_) =>
      var order := Listing(s.store.running);
      Moves(s, if s.initialized then Step.Proceed else Step.Initialize(order));
    case ListedRunning(_, _) =>
      var order := Listing(s.store.queued);
      Moves(s, Step.ListQueued(order));
    case Recovering(_, todo) => Moves(s, if todo == [] then Step.Proceed else Step.Recover(0));
    case Canceling(_, _, _) => Moves(s, Step.Advance);
    case Ready(kind) => Moves(s, if kind.Add? then Step.Proceed else Step.CheckRunning);
    case NoneRunning => Moves(s, Step.CheckQueued);
    case Creating =>
      var u := FreshUuid(s.used);
      Moves(s, Step.Create(u, 0));
  }

  lemma OtherMoves(s: System)
    requires !OfAdder(s.holder) && !s.holder.Free? && !s.holder.Sending? && !s.holder.Broken?
    ensures CanMove(s)
  {
    hide JobStep, AddNext, ReadNext;
    match s.holder
    case Starting(_) => Moves(s, Step.ReadQueued(0));
    case Writing(_, _) => Moves(s, Step.WriteRunning);
    case Erasing(_) => Moves(s, Step.EraseQueued);
    case Completing(_) => Moves(s, Step.Advance);
    case Cleaning => Moves(s, Step.Unlock);
    case CleaningLog(_) => Moves(s, Step.CleanLog);
  }

  lemma WorkerMoves(s: System)
    requires s.holder.Free? && !Idle(s) && Fits(s)
    ensures CanMove(s)
  {
    match s.worker
    case Waiting => Moves(s, if s.job == None then Step.Receive else Step.ResetJob);
    case Received(_) => Moves(s, if s.job == None then Step.SetJob else Step.LockToStart);
    case Working(_) => Moves(s, Step.LockToFinish(false, "", "", 0));
  }

  /** The send waits exactly on a full channel whose receiver is not about to take from it. */
  lemma SenderMoves(s: System)
    requires s.holder.Sending? && !Stuck(s) && Fits(s)
    ensures CanMove(s)
  {
    if |s.channel| < CAPACITY {
      Moves(s, Step.Send);
    } else if s.worker.Waiting? {
      Moves(s, if s.job == None then Step.Receive else Step.ResetJob);
    } else {
      Moves(s, Step.SetJob);
    }
  }

  lemma NoMove(s: System)
    requires Stuck(s) || Idle(s)
    ensures !CanMove(s)
  {
    hide JobStep;
  }

  /** The system moves by itself exactly if it is neither idle nor stuck on a full channel. */
  lemma Progress(s: System)
    requires Reached(s)
    ensures CanMove(s) <==> !Idle(s) && !Stuck(s)
  {
    if Stuck(s) || Idle(s) {
      NoMove(s);
    } else if s.holder.Free? {
      WorkerMoves(s);
    } else if s.holder.Sending? {
      SenderMoves(s);
    } else {
      HolderMoves(s);
    }
  }

  /** With RunTask alone the system is never stuck, nor on its way there. */
  lemma NeverDoomed(steps: seq<Step>)
    requires Exec(Initial(), steps).Some? && RunsOnly(steps)
    ensures !Doomed(Exec(Initial(), steps).value)
  {
    OneOutstanding(steps);
  }

  // ---------- coming to rest ----------

  /** How many steps recovery takes at most, for each record it has yet to list or to cancel. */
  const CANCELATION: nat := 7

  /** From the reception of a task to the reset of the current job. */
  const SERVICE: nat := 13

  /** The steps that are left to the holder; negative where they are among those left to the worker. */
  function HolderWork(s: System): int {
    match s.holder
    case Free => 0
    case Entered(_) => 20 + CANCELATION * (|s.store.running| + |s.store.queued|)
    case ListedRunning(_, list) => 19 + CANCELATION * (|list| + |s.store.queued|)
    case Recovering(_, todo) => 18 + CANCELATION * |todo|
    case Canceling(_, job, rest) => 19 + Rank(job.pc) + CANCELATION * |rest|
    case Ready(_) => 17
    case NoneRunning => 16
    case Creating => 15
    case Sending(_) => 14
    case Starting(_) => -1
    case Writing(_, _) => -2
    case Erasing(_) => -3
    case Completing(job) => Rank(job.pc) - 6
    case Cleaning => 1 + 2 * |s.store.completed|
    case CleaningLog(_) => 2 + 2 * |s.store.completed|
    case Broken => 0
  }

  function WorkerWork(s: System): nat {
    match s.worker
    case Waiting => if s.job == None then 0 else 1
    case Received(_) => if s.job == None then 12 else 11
    case Working(_) => 7
  }

  /** A bound on the steps the system can take by itself. */
  function Work(s: System): int {
    HolderWork(s) + WorkerWork(s) + SERVICE * |s.channel|
  }

  lemma {:induction false} ListsLength(order: seq<Uuid>, records: map<Uuid, Task>)
    requires Lists(order, records)
    ensures |order| == |records|
    decreases |order|
  {
    if order == [] {
      assert forall u :: multiset(order)[u] == 0;
      assert forall u :: u !in records;
      assert records == map[];
    } else {
      var u, rest := order[0], order[1..];
      assert order == [u] + rest;
      assert multiset(order)[u] > 0;
      assert forall v :: multiset(rest)[v] == multiset(order)[v] - Count(v == u);
      ListsLength(rest, records - {u});
      assert (records - {u}).Keys == records.Keys - {u};
      assert |records| == |records.Keys| && |records - {u}| == |(records - {u}).Keys|;
    }
  }

  lemma WorkIsLeft(s: System)
    requires Reached(s)
    ensures Work(s) >= 0
  {
    assert MidSwitch(s) && !s.holder.Broken?;
    hide Inv, JobSane;
  }

  lemma JobFalls(store: Store, j: Job)
    requires !j.pc.Done? && !j.pc.NotFound?
    ensures Rank(JobStep(store, j).1.pc) < Rank(j.pc)
    ensures JobStep(store, j).1.uuid == j.uuid
  {
  }

  lemma AdvanceFalls(s: System)
    requires (s.holder.Completing? || s.holder.Canceling?) && JobSane(s.store, s.holder.job)
    requires s.holder.Completing? ==> s.worker.Working? && s.job != None
    requires AdvanceJob(s).Some? && !AdvanceJob(s).value.holder.Broken?
    ensures Work(AdvanceJob(s).value) < Work(s)
  {
    hide *;
    SaneIsNotOver(s.store, s.holder.job);
    JobFalls(s.store, s.holder.job);
    Advanced(s);
    AdvancedFalls(s, AdvanceJob(s).value, JobStep(s.store, s.holder.job).1);
  }

  /** The holder goes on with the job, or has done it. */
  lemma Advanced(s: System)
    requires s.holder.Completing? || s.holder.Canceling?
    requires AdvanceJob(s).Some? && !AdvanceJob(s).value.holder.Broken?
    ensures var t, job := AdvanceJob(s).value, JobStep(s.store, s.holder.job).1;
            && t.channel == s.channel && t.job == s.job
            && t.worker == (if s.holder.Completing? && job.pc.Done? then Waiting else s.worker)
            && t.holder == if s.holder.Completing? then (if job.pc.Done? then Free else Completing(job))
                           else if job.pc.Done? then Recovering(s.holder.kind, s.holder.rest)
                           else Canceling(s.holder.kind, job, s.holder.rest)
  {
    hide JobStep;
  }

  lemma AdvancedFalls(s: System, t: System, job: Job)
    requires s.holder.Completing? || s.holder.Canceling?
    requires s.holder.Completing? ==> s.worker.Working? && s.job != None
    requires Rank(job.pc) < Rank(s.holder.job.pc) && t.channel == s.channel && t.job == s.job
    requires t.worker == if s.holder.Completing? && job.pc.Done? then Waiting else s.worker
    requires t.holder == if s.holder.Completing? then (if job.pc.Done? then Free else Completing(job))
                         else if job.pc.Done? then Recovering(s.holder.kind, s.holder.rest)
                         else Canceling(s.holder.kind, job, s.holder.rest)
    ensures Work(t) < Work(s)
  {
  }

  lemma SaneIsNotOver(store: Store, j: Job)
    requires JobSane(store, j)
    ensures !j.pc.Done? && !j.pc.NotFound?
  {
  }

  lemma OneLess(records: map<Uuid, Task>, uuid: Uuid)
    requires uuid in records
    ensures |records - {uuid}| == |records| - 1
  {
    assert (records - {uuid}).Keys == records.Keys - {uuid};
    assert |records| == |records.Keys| && |records - {uuid}| == |(records - {uuid}).Keys|;
  }

  lemma CleanFalls(s: System, step: Step)
    requires CleanNext(s, step).Some? && !step.LockToClean?
    ensures Work(CleanNext(s, step).value) < Work(s)
  {
    hide *;
    if step.Clean? {
      RecordCleaned(s, step.uuid);
      OneLess(s.store.completed, step.uuid);
      RecordFalls(s, CleanNext(s, step).value);
    } else {
      LogFalls(s, step);
    }
  }

  lemma RecordCleaned(s: System, uuid: Uuid)
    requires CleanNext(s, Step.Clean(uuid)).Some?
    ensures var t := CleanNext(s, Step.Clean(uuid)).value;
            && s.holder.Cleaning? && t.holder.CleaningLog? && uuid in s.store.completed
            && t.store.completed == s.store.completed - {uuid} && t.worker == s.worker && t.job == s.job && t.channel == s.channel
  {
    hide Release;
  }

  lemma RecordFalls(s: System, t: System)
    requires s.holder.Cleaning? && t.holder.CleaningLog? && |t.store.completed| == |s.store.completed| - 1
    requires t.worker == s.worker && t.job == s.job && t.channel == s.channel
    ensures Work(t) < Work(s)
  {
  }

  lemma LogFalls(s: System, step: Step)
    requires CleanNext(s, step).Some? && !step.LockToClean? && !step.Clean?
    ensures Work(CleanNext(s, step).value) < Work(s)
  {
  }

  lemma WorkerFalls(s: System, step: Step)
    requires MidSwitch(s) && Fits(s) && WorkNext(s, step).Some? && !WorkNext(s, step).value.holder.Broken?
    ensures Work(WorkNext(s, step).value) < Work(s)
  {
    SwitchNeeds(s);
    hide MidSwitch, Fits;
    if step.ReadQueued? || step.WriteRunning? || step.EraseQueued? {
      SwitchFalls(s, step);
    } else {
      TurnFalls(s, step);
    }
    hide *;
  }

  lemma SwitchNeeds(s: System)
    requires MidSwitch(s) && Fits(s)
    ensures s.holder.Starting? || s.holder.Writing? || s.holder.Erasing? ==> s.worker.Received? && s.job != None
    ensures s.worker.Working? ==> s.job != None
  {
    hide JobSane;
  }

  lemma SwitchFalls(s: System, step: Step)
    requires s.holder.Starting? || s.holder.Writing? || s.holder.Erasing? ==> s.worker.Received? && s.job != None
    requires step.ReadQueued? || step.WriteRunning? || step.EraseQueued?
    requires WorkNext(s, step).Some? && !WorkNext(s, step).value.holder.Broken?
    ensures Work(WorkNext(s, step).value) < Work(s)
  {
    hide *;
    Switched(s, step);
    SwitchedFalls(s, WorkNext(s, step).value);
  }

  lemma SwitchedFalls(s: System, t: System)
    requires s.worker.Received? && s.job != None && t.channel == s.channel && t.job == s.job
    requires || (s.holder.Starting? && t.holder.Writing? && t.worker == s.worker)
             || (s.holder.Writing? && t.holder.Erasing? && t.worker == s.worker)
             || (s.holder.Erasing? && t.holder.Free? && t.worker.Working?)
    ensures Work(t) < Work(s)
  {
  }

  lemma Switched(s: System, step: Step)
    requires step.ReadQueued? || step.WriteRunning? || step.EraseQueued?
    requires WorkNext(s, step).Some? && !WorkNext(s, step).value.holder.Broken?
    ensures var t := WorkNext(s, step).value;
            && t.channel == s.channel && t.job == s.job
            && (step.ReadQueued? ==> s.holder.Starting? && t.holder.Writing? && t.worker == s.worker)
            && (step.WriteRunning? ==> s.holder.Writing? && t.holder.Erasing? && t.worker == s.worker)
            && (step.EraseQueued? ==> s.holder.Erasing? && t.holder.Free? && t.worker.Working?)
  {
  }

  lemma TurnFalls(s: System, step: Step)
    requires s.worker.Working? ==> s.job != None
    requires !step.ReadQueued? && !step.WriteRunning? && !step.EraseQueued? && WorkNext(s, step).Some?
    ensures Work(WorkNext(s, step).value) < Work(s)
  {
  }

  lemma AdderFalls(s: System, step: Step)
    requires AddNext(s, step).Some? && !step.Lock?
    ensures Work(AddNext(s, step).value) < Work(s)
  {
    hide Lists;
    if step.Initialize? {
      ListsLength(step.order, s.store.running);
    } else if step.ListQueued? {
      ListsLength(step.order, s.store.queued);
    }
  }

  /** What the invariant says of the holder's job. */
  lemma AdvanceNeeds(s: System)
    requires Reached(s) && AdvanceJob(s).Some?
    ensures (s.holder.Completing? || s.holder.Canceling?) && JobSane(s.store, s.holder.job)
    ensures s.holder.Completing? ==> s.worker.Working? && s.job != None
  {
    assert MidSwitch(s);
    hide Inv, JobStep, JobSane;
  }

  /** Every step taken from inside brings the system closer to rest. */
  lemma WorkFalls(s: System, step: Step)
    requires Reached(s) && Next(s, step).Some? && Internal(step)
    ensures 0 <= Work(Next(s, step).value) < Work(s)
  {
    StepKeepsReached(s, step);
    NextIs(s, step);
    assert MidSwitch(s) && Fits(s) && !Next(s, step).value.holder.Broken?;
    assert !step.Lock? && !step.LockToClean? && !step.StartReading? && !step.Read? && !step.Crash?;
    assert OfReader(step) ==> step.StartReading? || step.Read?;
    hide *;
    WorkIsLeft(Next(s, step).value);
    if step.Advance? {
      AdvanceNeeds(s);
      AdvanceFalls(s);
    } else if OfCleaner(step) {
      CleanFalls(s, step);
    } else if OfWorker(step) {
      WorkerFalls(s, step);
    } else {
      AdderFalls(s, step);
    }
  }

  ghost predicate AllInternal(steps: seq<Step>) {
    forall i :: 0 <= i < |steps| ==> Internal(steps[i])
  }

  lemma AdvanceDoom(s: System)
    requires (s.holder.Completing? || s.holder.Canceling?) && AdvanceJob(s).Some? && !AdvanceJob(s).value.holder.Broken?
    ensures Doomed(AdvanceJob(s).value) <==> Doomed(s)
  {
    hide JobStep;
  }

  lemma CleanDoom(s: System, step: Step)
    requires CleanNext(s, step).Some?
    ensures !Doomed(CleanNext(s, step).value) && !Doomed(s)
  {
    hide Release;
  }

  lemma WorkerDoom(s: System, step: Step)
    requires Fits(s) && WorkNext(s, step).Some?
    ensures Doomed(WorkNext(s, step).value) <==> Doomed(s)
  {
  }

  lemma AdderDoom(s: System, step: Step)
    requires AddNext(s, step).Some? && !step.Lock?
    requires s.holder.NoneRunning? && s.store.queued == map[] ==> s.channel == []
    ensures Doomed(AddNext(s, step).value) <==> Doomed(s)
  {
    hide Lists;
  }

  lemma EmptyQueue(s: System)
    requires Inv(s) && s.holder.NoneRunning? && s.store.queued == map[]
    ensures s.channel == []
  {
    assert Mirrors(s);
    hide Inv;
    assert s.channel != [] ==> IsPending(s, s.channel[0]);
  }

  /** No step from inside leads into the deadlock, and none leads out of it. */
  lemma DoomStays(s: System, step: Step)
    requires Reached(s) && Next(s, step).Some? && Internal(step)
    ensures Doomed(Next(s, step).value) <==> Doomed(s)
  {
    StepKeepsReached(s, step);
    NextIs(s, step);
    assert Inv(s) && Fits(s) && !Next(s, step).value.holder.Broken?;
    assert !step.Lock? && !step.Crash? && !OfReader(step);
    hide *;
    if step.Advance? {
      AdvanceNeeds(s);
      AdvanceDoom(s);
    } else if OfCleaner(step) {
      CleanDoom(s, step);
    } else if OfWorker(step) {
      WorkerDoom(s, step);
    } else {
      if s.holder.NoneRunning? && s.store.queued == map[] {
        EmptyQueue(s);
      }
      AdderDoom(s, step);
    }
  }

  /** A run from inside is finite, and it never decides whether the system is doomed. */
  lemma {:induction false} RunsEnd(s: System, steps: seq<Step>)
    requires Reached(s) && AllInternal(steps) && Exec(s, steps).Some?
    ensures var t := Exec(s, steps).value;
            Reached(t) && |steps| + Work(t) <= Work(s) && (Doomed(t) <==> Doomed(s))
  {
    hide Reached, Next, Internal, Doomed, Work;
    if steps != [] {
      var n := |steps| - 1;
      RunsEnd(s, steps[..n]);
      var t := Exec(s, steps[..n]).value;
      WorkFalls(t, steps[n]);
      DoomStays(t, steps[n]);
      StepKeepsReached(t, steps[n]);
    }
  }

  /**
   * Whatever order the threads take their steps in, they come to rest within Work(s) of them: idle if nobody was about
   * to add a task to a full channel behind a busy worker, and stuck exactly otherwise.
   */
  lemma ComesToRest(s: System, steps: seq<Step>)
    requires Reached(s) && AllInternal(steps) && Exec(s, steps).Some?
    ensures |steps| <= Work(s)
    ensures var t := Exec(s, steps).value;
            !CanMove(t) ==> (if Doomed(s) then Stuck(t) else Idle(t))
  {
    RunsEnd(s, steps);
    var t := Exec(s, steps).value;
    WorkIsLeft(t);
    Progress(t);
    hide Reached, Exec, CanMove;
  }

  /** Where the system can move it can do so without a cleanup. */
  lemma QuietMove(s: System) returns (step: Step)
    requires CanMove(s)
    ensures Internal(step) && !step.Clean? && Next(s, step).Some?
  {
    step :| Internal(step) && Next(s, step).Some?;
    if step.Clean? {
      step := Step.Unlock;
    }
  }

  /** There is such a run. */
  lemma {:induction false} RestRun(s: System) returns (steps: seq<Step>)
    requires Reached(s)
    ensures AllInternal(steps) && Exec(s, steps).Some? && !CanMove(Exec(s, steps).value)
    ensures forall u :: Step.Clean(u) !in steps
    decreases Work(s)
  {
    steps := [];
    assert Exec(s, []) == Some(s);
    WorkIsLeft(s);
    if CanMove(s) {
      var step := QuietMove(s);
      hide Internal, Next, Work, Reached, CanMove;
      var t := Next(s, step).value;
      WorkFalls(s, step);
      StepKeepsReached(s, step);
      var rest := RestRun(t);
      ExecFirst(s, step, rest);
      steps := [step] + rest;
    }
  }

  lemma HasAdvance(s: System, u: Uuid)
    requires (s.holder.Completing? || s.holder.Canceling?) && JobSane(s.store, s.holder.job) && s.store.Has(u)
    requires AdvanceJob(s).Some?
    ensures AdvanceJob(s).value.store.Has(u)
  {
    assert JobStep(s.store, s.holder.job).0.Has(u);
    hide JobStep, JobSane;
  }

  lemma HasOther(s: System, step: Step, u: Uuid)
    requires MidSwitch(s) && s.store.Has(u) && step != Step.Clean(u)
    ensures CleanNext(s, step).Some? ==> CleanNext(s, step).value.store.Has(u)
    ensures WorkNext(s, step).Some? ==> WorkNext(s, step).value.store.Has(u)
    ensures AddNext(s, step).Some? ==> AddNext(s, step).value.store.Has(u)
    ensures ReadNext(s, step).Some? ==> ReadNext(s, step).value.store.Has(u)
  {
    hide JobSane, Lists, ReadOnce, Release;
  }

  /** Records are only ever moved on, until they are cleaned up. */
  lemma HasStays(s: System, step: Step, u: Uuid)
    requires Reached(s) && s.store.Has(u) && Next(s, step).Some? && step != Step.Clean(u)
    ensures Next(s, step).value.store.Has(u)
  {
    NextIs(s, step);
    assert MidSwitch(s);
    if step.Crash? {
      hide Inv, MidSwitch, Fits;
    } else {
      hide *;
      if step.Advance? {
        AdvanceNeeds(s);
        HasAdvance(s, u);
      } else {
        HasOther(s, step, u);
      }
    }
  }

  lemma {:induction false} HasStaysOverRun(s: System, steps: seq<Step>, u: Uuid)
    requires Reached(s) && s.store.Has(u) && Exec(s, steps).Some? && Step.Clean(u) !in steps
    ensures Exec(s, steps).value.store.Has(u)
  {
    if steps != [] {
      var n := |steps| - 1;
      HasStaysOverRun(s, steps[..n], u);
      RunKeepsReached(s, steps[..n]);
      hide Reached, Next;
      HasStays(Exec(s, steps[..n]).value, steps[n], u);
    }
  }

  /** At rest in an idle state every task that exists, the ones just added included, is completed. */
  lemma AllServed(s: System, steps: seq<Step>, u: Uuid)
    requires Reached(s) && s.initialized && AllInternal(steps) && Exec(s, steps).Some? && !CanMove(Exec(s, steps).value)
    requires !Doomed(s) && s.store.Has(u) && Step.Clean(u) !in steps
    ensures var t := Exec(s, steps).value;
            t.store.queued == map[] && t.store.running == map[] && u in t.store.completed
  {
    ComesToRest(s, steps);
    HasStaysOverRun(s, steps, u);
    RunsEnd(s, steps);
    InitializedStays(s, steps);
    var t := Exec(s, steps).value;
    hide Exec, CanMove, Work, Doomed;
    IdleIsEmpty(t);
  }

  lemma IdleIsEmpty(s: System)
    requires Inv(s) && Idle(s) && s.initialized
    ensures s.store.queued == map[] && s.store.running == map[]
  {
    assert Mirrors(s);
    hide Inv;
    assert forall u :: u !in s.store.queued && u !in s.store.running;
  }

  lemma {:induction false} InitializedStays(s: System, steps: seq<Step>)
    requires s.initialized && Exec(s, steps).Some? && Step.Crash !in steps
    ensures Exec(s, steps).value.initialized
  {
    if steps != [] {
      var n := |steps| - 1;
      InitializedStays(s, steps[..n]);
      InitializedStep(Exec(s, steps[..n]).value, steps[n]);
      hide Next;
    }
  }

  lemma InitializedStep(s: System, step: Step)
    requires s.initialized && Next(s, step).Some? && step != Step.Crash
    ensures Next(s, step).value.initialized
  {
    hide JobStep;
  }

  // ---------- AddTask can get stuck ----------

  lemma Then(steps: seq<Step>, step: Step) returns (more: seq<Step>)
    requires Exec(Initial(), steps).Some? && Next(Exec(Initial(), steps).value, step).Some?
    ensures more == steps + [step] && Exec(Initial(), more) == Next(Exec(Initial(), steps).value, step)
  {
    more := steps + [step];
    assert more[..|steps|] == steps;
  }

  /** The manager is idle, its worker runs a task, and k more tasks wait in the channel. */
  ghost predicate Filled(s: System, k: nat) {
    && s.initialized && s.holder.Free? && s.worker.Working? && s.job != None && |s.channel| == k
    && forall u :: u in s.used ==> u <= k
  }

  /** The manager holds the mutex for AddTask and nothing has happened yet. */
  ghost predicate Untouched(s: System) {
    s.channel == [] && s.worker.Waiting? && s.job == None && s.used == {} && s.store == EMPTY
  }

  lemma FirstListed() returns (steps: seq<Step>)
    ensures Exec(Initial(), steps).Some?
    ensures var s := Exec(Initial(), steps).value;
            Untouched(s) && s.initialized && s.holder == ListedRunning(Add, [])
  {
    steps := Then([], Step.Lock(Add));
    steps := Then(steps, Step.Initialize([]));
  }

  lemma FirstReady() returns (steps: seq<Step>)
    ensures Exec(Initial(), steps).Some?
    ensures var s := Exec(Initial(), steps).value;
            Untouched(s) && s.initialized && s.holder == Ready(Add)
  {
    steps := FirstListed();
    hide Exec;
    steps := Then(steps, Step.ListQueued([]));
    assert Exec(Initial(), steps).value.holder == Recovering(Add, []);
    steps := Then(steps, Step.Proceed);
  }

  lemma FirstQueued() returns (steps: seq<Step>)
    ensures Exec(Initial(), steps).Some?
    ensures var s := Exec(Initial(), steps).value;
            && s.initialized && s.holder.Free? && s.job == None && s.channel == [0] && s.worker.Waiting? && s.used == {0}
            && s.store == EMPTY.Put(Queued, 0, Task(0, QUEUED, "", 0, 0))
  {
    steps := FirstReady();
    hide Exec;
    steps := Then(steps, Step.Proceed);
    assert Untouched(Exec(Initial(), steps).value) && Exec(Initial(), steps).value.holder.Creating?;
    steps := Then(steps, Step.Create(0, 0));
    steps := Then(steps, Step.Send);
  }

  lemma FirstTask() returns (steps: seq<Step>)
    ensures Exec(Initial(), steps).Some? && Filled(Exec(Initial(), steps).value, 0)
  {
    steps := FirstQueued();
    hide Exec;
    var s := Exec(Initial(), steps).value;
    steps := Then(steps, Step.Receive);
    steps := Then(steps, Step.SetJob);
    steps := Then(steps, Step.LockToStart);
    FirstStarting(s);
    steps := FirstSwitch(steps);
  }

  lemma FirstStarting(s: System)
    requires s.initialized && s.holder.Free? && s.job == None && s.channel == [0] && s.worker.Waiting?
    ensures Next(s, Step.Receive).Some? && Next(Next(s, Step.Receive).value, Step.SetJob).Some?
    ensures var t := Next(Next(Next(s, Step.Receive).value, Step.SetJob).value, Step.LockToStart);
            t == Some(s.(holder := Starting(0), channel := [], worker := Received(0), job := Some(0)))
  {
    assert s.channel[1..] == [];
  }

  lemma FirstSwitch(steps: seq<Step>) returns (more: seq<Step>)
    requires Exec(Initial(), steps).Some?
    requires var s := Exec(Initial(), steps).value;
             s.initialized && s.holder == Starting(0) && s.channel == [] && s.job == Some(0) && s.used == {0} && 0 in s.store.queued
    ensures Exec(Initial(), more).Some? && Filled(Exec(Initial(), more).value, 0)
  {
    hide *;
    var s := Exec(Initial(), steps).value;
    FirstRunning(s);
    more := Then(steps, Step.ReadQueued(0));
    var a := Next(s, Step.ReadQueued(0)).value;
    assert Exec(Initial(), more) == Next(s, Step.ReadQueued(0));
    more := Then(more, Step.WriteRunning);
    var b := Next(a, Step.WriteRunning).value;
    assert Exec(Initial(), more) == Next(a, Step.WriteRunning);
    more := Then(more, Step.EraseQueued);
    assert Exec(Initial(), more) == Next(b, Step.EraseQueued);
  }

  lemma FirstRunning(s: System)
    requires s.initialized && s.holder == Starting(0) && s.channel == [] && s.job == Some(0) && s.used == {0} && 0 in s.store.queued
    ensures var read := Next(s, Step.ReadQueued(0));
            read.Some? &&
            var written := Next(read.value, Step.WriteRunning);
            written.Some? &&
            var erased := Next(written.value, Step.EraseQueued);
            erased.Some? && Filled(erased.value, 0)
  {
  }

  lemma AddAnother(steps: seq<Step>, k: nat) returns (more: seq<Step>)
    requires Exec(Initial(), steps).Some? && Filled(Exec(Initial(), steps).value, k)
    ensures Exec(Initial(), more).Some?
    ensures var s := Exec(Initial(), more).value;
            && s.holder.Sending? && s.worker.Working? && s.job != None && |s.channel| == k && s.initialized
            && forall u :: u in s.used ==> u <= k + 1
  {
    hide Exec;
    more := Then(steps, Step.Lock(Add));
    more := Then(more, Step.Proceed);
    more := Then(more, Step.Proceed);
    more := Then(more, Step.Create(k + 1, 0));
  }

  lemma {:induction false} Fill(k: nat) returns (steps: seq<Step>)
    requires k <= CAPACITY
    ensures Exec(Initial(), steps).Some? && Filled(Exec(Initial(), steps).value, k)
  {
    if k == 0 {
      steps := FirstTask();
    } else {
      hide Exec, Filled;
      steps := Fill(k - 1);
      steps := AddAnother(steps, k - 1);
      SendFills(Exec(Initial(), steps).value, k);
      hide Next;
      steps := Then(steps, Step.Send);
    }
  }

  lemma SendFills(s: System, k: nat)
    requires 0 < k <= CAPACITY && s.holder.Sending? && s.worker.Working? && s.job != None && |s.channel| == k - 1 && s.initialized
    requires forall u :: u in s.used ==> u <= k
    ensures Next(s, Step.Send).Some? && Filled(Next(s, Step.Send).value, k)
  {
  }

  /** AddTask calls alone reach a state from which neither the worker nor the manager can ever move again. */
  lemma AddTaskCanGetStuck()
    ensures exists steps :: Exec(Initial(), steps).Some? && Stuck(Exec(Initial(), steps).value)
  {
    var steps := Fill(CAPACITY);
    steps := AddAnother(steps, CAPACITY);
    assert Stuck(Exec(Initial(), steps).value);
  }

  /**
   * The condition before the call: from the moment AddTask takes the mutex, everything comes to rest stuck if the
   * channel was full and the worker not waiting, and idle otherwise, in whatever order the threads move.
   */
  lemma AddTaskOutcome(s: System, steps: seq<Step>)
    requires Reached(s) && s.holder.Free? && AllInternal(steps)
    requires Exec(s, [Step.Lock(Add)] + steps).Some? && !CanMove(Exec(s, [Step.Lock(Add)] + steps).value)
    ensures var t := Exec(s, [Step.Lock(Add)] + steps).value;
            && (Stuck(t) <==> |s.channel| >= CAPACITY && !s.worker.Waiting?)
            && (Idle(t) <==> !(|s.channel| >= CAPACITY && !s.worker.Waiting?))
  {
    var a := s.(holder := Entered(Add));
    assert Next(s, Step.Lock(Add)) == Some(a);
    assert Doomed(a) <==> |s.channel| >= CAPACITY && !s.worker.Waiting?;
    hide Next, Reached, CanMove, Exec;
    StepKeepsReached(s, Step.Lock(Add));
    ExecFirst(s, Step.Lock(Add), steps);
    ComesToRest(a, steps);
  }

  /** Whatever callers and readers do, a doomed system stays doomed until it crashes, and no waiting task is ever started. */
  lemma {:induction false} DoomedForGood(s: System, steps: seq<Step>)
    requires Reached(s) && Doomed(s) && Exec(s, steps).Some? && Step.Crash !in steps
    ensures var t := Exec(s, steps).value;
            Reached(t) && Doomed(t) && s.store.queued.Keys <= t.store.queued.Keys
  {
    hide Reached, Doomed, Next;
    if steps != [] {
      var n := |steps| - 1;
      DoomedForGood(s, steps[..n]);
      var t := Exec(s, steps[..n]).value;
      DoomedStep(t, steps[n]);
      StepKeepsReached(t, steps[n]);
    }
  }

  lemma DoomedSettled(s: System)
    requires Reached(s) && Doomed(s)
    ensures !s.holder.Canceling?
  {
    assert s.channel != [];
    hide Mirrors, Accounted, Known, Findable, MidSwitch, Fits;
  }

  lemma DoomedOther(s: System, step: Step)
    requires Doomed(s) && !s.holder.Canceling?
    ensures AdvanceJob(s) == None && CleanNext(s, step) == None
    ensures WorkNext(s, step).Some? ==> Doomed(WorkNext(s, step).value) && WorkNext(s, step).value.store == s.store
    ensures ReadNext(s, step).Some? ==> Doomed(ReadNext(s, step).value) && ReadNext(s, step).value.store == s.store
    ensures AddNext(s, step).Some? ==> Doomed(AddNext(s, step).value) && s.store.queued.Keys <= AddNext(s, step).value.store.queued.Keys
  {
    hide Lists, ReadOnce, Release;
  }

  lemma DoomedStep(s: System, step: Step)
    requires Reached(s) && Doomed(s) && Next(s, step).Some? && step != Step.Crash
    ensures Doomed(Next(s, step).value) && s.store.queued.Keys <= Next(s, step).value.store.queued.Keys
  {
    NextIs(s, step);
    hide *;
    DoomedSettled(s);
    DoomedOther(s, step);
  }
}
