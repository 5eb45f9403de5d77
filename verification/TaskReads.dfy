/** Reads that take no lock. */
module TaskReads {
  import opened Options
  import opened TaskRecords
  import opened TaskProtocol
  import opened TaskRuns
  import opened TaskProgress

  // ---------- status reads ----------

  ghost predicate StillExpects(s: System, reader: nat, u: Uuid) {
    reader in s.readers && s.readers[reader].uuid == u && s.readers[reader].expects
  }

  lemma {:induction false} ExpectationStays(s: System, steps: seq<Step>, reader: nat, u: Uuid)
    requires Inv(s) && StillExpects(s, reader, u) && Exec(s, steps).Some?
    requires Step.Crash !in steps && Step.Clean(u) !in steps
    ensures Inv(Exec(s, steps).value) && StillExpects(Exec(s, steps).value, reader, u)
  {
    if steps != [] {
      var n := |steps| - 1;
      ExpectationStays(s, steps[..n], reader, u);
      StepKeeps(Exec(s, steps[..n]).value, steps[n]);
      ExpectationStep(Exec(s, steps[..n]).value, steps[n], reader, u);
      hide Inv, Next, StillExpects;
    }
  }

  lemma ExpectationStep(s: System, step: Step, reader: nat, u: Uuid)
    requires StillExpects(s, reader, u) && Next(s, step).Some? && step != Step.Crash && step != Step.Clean(u)
    ensures StillExpects(Next(s, step).value, reader, u)
  {
    hide JobStep;
  }

  lemma RunKeepsFound(s: System, reader: nat)
    requires Inv(s) && reader in s.readers && s.readers[reader].expects
    ensures s.readers[reader].Answered? ==> s.readers[reader].found
  {
    assert Findable(s.store, s.readers[reader]);
  }

  /** A status read that starts while the task exists finds it, however many steps others take between its three reads. */
  lemma StatusReadFinds(before: seq<Step>, during: seq<Step>, reader: nat, u: Uuid)
    requires Exec(Initial(), before).Some? && Exec(Initial(), before).value.store.Has(u)
    requires Exec(Initial(), before + [Step.StartReading(reader, u)] + during).Some?
    requires Step.Crash !in during && Step.Clean(u) !in during
    ensures var r := Exec(Initial(), before + [Step.StartReading(reader, u)] + during).value.readers;
            reader in r && r[reader].uuid == u && (r[reader].Answered? ==> r[reader].found)
  {
    var start := before + [Step.StartReading(reader, u)];
    assert start[..|start| - 1] == before;
    RunAppend(Initial(), start, during);
    RunKeeps(start);
    var s := Exec(Initial(), start).value;
    assert StillExpects(s, reader, u);
    ExpectationStays(s, during, reader, u);
    hide Next, Exec;
    RunKeepsFound(Exec(s, during).value, reader);
  }

  // ---------- log reads ----------

  /** A log read looks at the current job, then at the completed tasks, then at the queue, each at a moment of its own. */
  predicate LogReadMisses(first: System, second: System, third: System, u: Uuid) {
    first.job != Some(u) && u !in second.store.completed && u !in third.store.queued
  }

  lemma CompletedAdvance(s: System, u: Uuid)
    requires u in s.store.completed && AdvanceJob(s).Some?
    requires (s.holder.Completing? || s.holder.Canceling?) && JobSane(s.store, s.holder.job)
    ensures u in AdvanceJob(s).value.store.completed
  {
    assert u in JobStep(s.store, s.holder.job).0.completed;
    hide JobStep, JobSane;
  }

  lemma CompletedOther(s: System, step: Step, u: Uuid)
    requires u in s.store.completed && step != Step.Clean(u)
    ensures CleanNext(s, step).Some? ==> u in CleanNext(s, step).value.store.completed
    ensures WorkNext(s, step).Some? ==> u in WorkNext(s, step).value.store.completed
    ensures AddNext(s, step).Some? ==> u in AddNext(s, step).value.store.completed
    ensures ReadNext(s, step).Some? ==> u in ReadNext(s, step).value.store.completed
  {
    hide Lists, ReadOnce, Release;
  }

  lemma CompletedStep(s: System, step: Step, u: Uuid)
    requires Reached(s) && u in s.store.completed && Next(s, step).Some? && step != Step.Clean(u)
    ensures u in Next(s, step).value.store.completed
  {
    NextIs(s, step);
    if step.Crash? {
      hide Inv, Fits;
    } else {
      hide *;
      if step.Advance? {
        AdvanceNeeds(s);
        CompletedAdvance(s, u);
      } else {
        CompletedOther(s, step, u);
      }
    }
  }

  lemma {:induction false} CompletedStays(s: System, steps: seq<Step>, u: Uuid)
    requires Reached(s) && u in s.store.completed && Exec(s, steps).Some? && Step.Clean(u) !in steps
    ensures u in Exec(s, steps).value.store.completed
  {
    hide Reached, Next;
    if steps != [] {
      var n := |steps| - 1;
      CompletedStays(s, steps[..n], u);
      RunKeepsReached(s, steps[..n]);
      CompletedStep(Exec(s, steps[..n]).value, steps[n], u);
    }
  }

  /** The task is queued, and the worker has not made it its current job. */
  predicate Waits(s: System, u: Uuid) {
    u in s.store.queued && s.job != Some(u)
  }

  lemma RunningIsCurrentJob(s: System, u: Uuid)
    requires Reached(s) && Settled(s) && u in s.store.running
    ensures s.job == Some(u)
  {
    assert Mirrors(s) && MidSwitch(s);
    hide Inv, JobSane, Distinct, Suffix;
  }

  lemma QueuedIsNotCompleted(s: System, u: Uuid)
    requires Reached(s) && Settled(s) && u in s.store.queued
    ensures u !in s.store.completed
  {
    assert Mirrors(s) && MidSwitch(s);
    hide Inv, JobSane, Suffix;
    if u in s.store.completed {
      assert s.worker == Working(u);
      CurrentNotPending(s);
      PendingMember(s, u);
    }
  }

  /** The record says that the task runs, but no worker has it: a crash left it, and recovery has yet to cancel it. */
  predicate LeftRunning(s: System, u: Uuid) {
    u in s.store.running && s.job != Some(u)
  }

  /** Only a crash leaves a running record without a worker, and only until recovery is over. */
  lemma LeftRunningIsUnsettled(s: System, u: Uuid)
    requires Reached(s) && LeftRunning(s, u)
    ensures !Settled(s)
  {
    if Settled(s) {
      RunningIsCurrentJob(s, u);
    }
    hide *;
  }

  /**
   * A log read misses an existing task exactly if the task waits or was left running at the first look, is not completed
   * at the second, and is not or no longer queued at the third.
   */
  lemma LogReadMissesExactly(s: System, first: seq<Step>, second: seq<Step>, u: Uuid)
    requires Reached(s) && s.store.Has(u) && Step.Clean(u) !in first
    requires Exec(s, first).Some? && Exec(s, first + second).Some?
    ensures var b, c := Exec(s, first).value, Exec(s, first + second).value;
            LogReadMisses(s, b, c, u) <==>
              (Waits(s, u) || LeftRunning(s, u)) && u !in b.store.completed && u !in c.store.queued
    ensures Settled(s) ==> !LeftRunning(s, u)
  {
    if LeftRunning(s, u) {
      LeftRunningIsUnsettled(s, u);
    }
    hide Reached, Exec, Next, Settled;
    if u in s.store.completed {
      CompletedStays(s, first, u);
    }
  }

  /** The reads of a log, in a continuation without a crash and without a cleanup of the task, that answer "not found". */
  ghost predicate CanMiss(s: System, first: seq<Step>, second: seq<Step>, u: Uuid) {
    && Step.Crash !in first + second && Step.Clean(u) !in first + second
    && Exec(s, first).Some? && Exec(s, first + second).Some?
    && LogReadMisses(s, Exec(s, first).value, Exec(s, first + second).value, u)
  }

  /** With nobody in between, a log read misses exactly a task that a crash left running and that is nowhere else. */
  lemma LogReadMissesAtOnce(s: System, u: Uuid)
    requires s.store.Has(u)
    ensures CanMiss(s, [], [], u) <==> LeftRunning(s, u) && u !in s.store.queued && u !in s.store.completed
  {
    var none: seq<Step> := [];
    assert Exec(s, none) == Some(s) && none + none == none;
  }

  // ---------- emptying the queue ----------

  /** A continuation without a crash and without a cleanup of the task. */
  ghost predicate Undisturbed(s: System, steps: seq<Step>, u: Uuid) {
    Exec(s, steps).Some? && Step.Crash !in steps && Step.Clean(u) !in steps
  }

  lemma UndisturbedThen(s: System, a: seq<Step>, b: seq<Step>, u: Uuid)
    requires Undisturbed(s, a, u) && Undisturbed(Exec(s, a).value, b, u)
    ensures Undisturbed(s, a + b, u) && Exec(s, a + b).Some? && Exec(s, a + b) == Exec(Exec(s, a).value, b)
  {
    RunAppend(s, a, b);
  }

  /** Left to itself, the system comes to an idle state. */
  lemma GoIdle(s: System, u: Uuid) returns (steps: seq<Step>)
    requires Reached(s) && !Doomed(s)
    ensures Undisturbed(s, steps, u) && Exec(s, steps).Some?
    ensures var t := Exec(s, steps).value;
            Reached(t) && Idle(t) && (s.initialized ==> t.initialized && t.store.queued == map[])
  {
    steps := RestRun(s);
    NoCrash(steps);
    ComesToRest(s, steps);
    RunsEnd(s, steps);
    var t := Exec(s, steps).value;
    hide Exec, CanMove, Work, Doomed, Idle;
    if s.initialized {
      InitializedStays(s, steps);
      IdleIsEmpty(t);
    }
  }

  lemma NoCrash(steps: seq<Step>)
    requires AllInternal(steps)
    ensures Step.Crash !in steps
  {
  }

  /** The first RunTask after a start, as far as its first listing. */
  lemma Restart(s: System, u: Uuid) returns (steps: seq<Step>)
    requires Reached(s) && Idle(s) && !s.initialized
    ensures Undisturbed(s, steps, u) && Exec(s, steps).Some?
    ensures var t := Exec(s, steps).value; Reached(t) && t.initialized && !Doomed(t)
  {
    var order := Listing(s.store.running);
    var first, second := Step.Lock(Run), Step.Initialize(order);
    RestartSteps(s, order);
    var a := Next(s, first).value;
    steps := [first, second];
    assert steps[..1] == [first] && [first][..0] == [];
    assert Exec(s, [first]) == Some(a);
    assert Exec(s, steps) == Next(a, second);
    hide Exec, Next;
    RunKeepsReached(s, steps);
  }

  lemma RestartSteps(s: System, order: seq<Uuid>)
    requires Idle(s) && !s.initialized && Lists(order, s.store.running)
    ensures Next(s, Step.Lock(Run)).Some?
    ensures var t := Next(Next(s, Step.Lock(Run)).value, Step.Initialize(order));
            t.Some? && t.value.initialized && !Doomed(t.value)
  {
    hide Lists, WorkNext, CleanNext, ReadNext, AdvanceJob;
  }

  /** From every state that is not doomed some continuation empties the queue, recovering first if need be. */
  lemma EmptiesQueue(s: System, u: Uuid) returns (steps: seq<Step>)
    requires Reached(s) && !Doomed(s)
    ensures Undisturbed(s, steps, u) && Exec(s, steps).value.store.queued == map[]
  {
    hide *;
    steps := GoIdle(s, u);
    if !s.initialized {
      var t := Exec(s, steps).value;
      if t.initialized {
        IdleIsNotDoomed(t);
        var more := GoIdle(t, u);
        UndisturbedThen(s, steps, more, u);
        steps := steps + more;
      } else {
        var restart := Restart(t, u);
        UndisturbedThen(s, steps, restart, u);
        var rest := GoIdle(Exec(t, restart).value, u);
        steps := steps + restart;
        UndisturbedThen(s, steps, rest, u);
        steps := steps + rest;
      }
    }
  }

  lemma IdleIsNotDoomed(s: System)
    requires Idle(s)
    ensures !Doomed(s)
  {
  }

  // ---------- the condition at the call ----------

  lemma DoomedTaskIsQueued(s: System, u: Uuid)
    requires Reached(s) && Doomed(s) && s.store.Has(u) && s.job != Some(u) && u !in s.store.completed
    ensures u in s.store.queued
  {
    DoomedIsSettled(s);
    if u in s.store.running {
      LeftRunningIsUnsettled(s, u);
    }
    hide *;
  }

  lemma DoomedIsSettled(s: System)
    requires Reached(s) && Doomed(s)
    ensures Settled(s)
  {
    assert s.channel != [];
    hide Mirrors, Accounted, Known, Findable, MidSwitch, Fits;
  }

  lemma MissingNeeds(s: System, first: seq<Step>, second: seq<Step>, u: Uuid)
    requires Reached(s) && s.store.Has(u) && CanMiss(s, first, second, u)
    ensures s.job != Some(u) && u !in s.store.completed && !Doomed(s)
  {
    hide Reached, Exec, Doomed;
    if u in s.store.completed {
      CompletedStays(s, first, u);
    } else if Doomed(s) {
      DoomedTaskIsQueued(s, u);
      DoomedForGood(s, first + second);
    }
  }

  /**
   * The condition at the call: some continuation makes a log read that begins now miss an existing task if and only if
   * the task is neither the current job nor completed, and the system is not heading for the deadlock.
   */
  lemma LogReadMayMiss(s: System, u: Uuid)
    requires Reached(s) && s.store.Has(u)
    ensures (exists first, second :: CanMiss(s, first, second, u)) <==>
              s.job != Some(u) && u !in s.store.completed && !Doomed(s)
  {
    hide Reached, Exec, Doomed;
    if first, second :| CanMiss(s, first, second, u) {
      MissingNeeds(s, first, second, u);
    }
    if s.job != Some(u) && u !in s.store.completed && !Doomed(s) {
      var steps := EmptiesQueue(s, u);
      MissedWhenEmpty(s, steps, u);
    }
  }

  lemma MissedWhenEmpty(s: System, steps: seq<Step>, u: Uuid)
    requires s.job != Some(u) && u !in s.store.completed
    requires Undisturbed(s, steps, u) && Exec(s, steps).value.store.queued == map[]
    ensures CanMiss(s, [], steps, u)
  {
    assert Exec(s, []) == Some(s);
    assert [] + steps == steps;
  }

  /** A waiting task that can be missed. A status read looks in the order of a task's life and has no such gap. */
  lemma LogReadCanMiss()
    ensures exists s, first, second, u :: Reached(s) && Settled(s) && Waits(s, u) && CanMiss(s, first, second, u)
  {
    var before := FirstQueued();
    InitialReached();
    RunKeepsReached(Initial(), before);
    var s := Exec(Initial(), before).value;
    assert Settled(s) && s.store.Has(0) && Waits(s, 0) && s.store.completed == map[] && !Doomed(s);
    hide *;
    LogReadMayMiss(s, 0);
  }

  /** A running task after a crash, which is missed at once, with nobody in between. */
  lemma LeftRunningIsMissed()
    ensures exists s, u :: Reached(s) && !Doomed(s) && !Waits(s, u) && s.store.Has(u) && CanMiss(s, [], [], u)
  {
    var before := FirstTask();
    InitialReached();
    RunKeepsReached(Initial(), before);
    var s := Exec(Initial(), before).value;
    var u := CurrentTask(s);
    CrashLeavesRunning(s, u);
    StepKeepsReached(s, Step.Crash);
    var t := Next(s, Step.Crash).value;
    hide *;
    LogReadMissesAtOnce(t, u);
  }

  lemma CurrentTask(s: System) returns (u: Uuid)
    requires Reached(s) && Filled(s, 0)
    ensures u in s.store.running && u !in s.store.queued && u !in s.store.completed
  {
    u := s.worker.uuid;
    assert Mirrors(s) && s.channel == [];
    hide Inv, Fits, Distinct, Suffix;
  }

  lemma CrashLeavesRunning(s: System, u: Uuid)
    requires u in s.store.running && u !in s.store.queued && u !in s.store.completed
    ensures Next(s, Step.Crash).Some?
    ensures var t := Next(s, Step.Crash).value;
            && LeftRunning(t, u) && u !in t.store.queued && u !in t.store.completed && t.store.Has(u)
            && !Waits(t, u) && !Doomed(t)
  {
    hide AddNext, WorkNext, CleanNext, ReadNext, AdvanceJob;
  }
}
