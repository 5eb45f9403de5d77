/** What every run of the task queue keeps, and what recovery makes of a crash. */
module TaskRuns {
  import opened Options
  import opened TaskRecords
  import opened TaskProtocol

  // ---------- runs ----------

  /** The invariant holds after every run, whatever the interleaving and however often the plugin crashes. */
  lemma {:induction false} RunKeeps(steps: seq<Step>)
    requires Exec(Initial(), steps).Some?
    ensures Inv(Exec(Initial(), steps).value)
  {
    hide Inv, Next;
    if steps == [] {
      InitialKeeps();
    } else {
      var n := |steps| - 1;
      RunKeeps(steps[..n]);
      StepKeeps(Exec(Initial(), steps[..n]).value, steps[n]);
    }
  }

  lemma InitialKeeps()
    ensures Inv(Initial())
  {
  }

  lemma RunAppend(s: System, a: seq<Step>, b: seq<Step>)
    ensures Exec(s, a + b) == if Exec(s, a).None? then None else Exec(Exec(s, a).value, b)
  {
    hide Next;
    if b == [] {
      assert a + b == a;
    } else {
      var n := |b| - 1;
      assert (a + b)[..|a + b| - 1] == a + b[..n];
      RunAppend(s, a, b[..n]);
    }
  }

  lemma ExecFirst(s: System, first: Step, rest: seq<Step>)
    requires Next(s, first).Some?
    ensures Exec(s, [first] + rest) == Exec(Next(s, first).value, rest)
  {
    assert [first][..0] == [];
    assert Exec(s, [first]) == Next(s, first);
    RunAppend(s, [first], rest);
  }

  /** No callback ever finds its task missing, so none of them panics, and recovery never fails. */
  lemma NeverBroken(steps: seq<Step>)
    requires Exec(Initial(), steps).Some?
    ensures !Exec(Initial(), steps).value.holder.Broken?
  {
    RunKeeps(steps);
  }

  /** Between two operations the three states are disjoint, statuses match, one task runs at most, and queue and records agree. */
  lemma BetweenOperations(steps: seq<Step>)
    requires Exec(Initial(), steps).Some?
    ensures var s := Exec(Initial(), steps).value;
            s.holder.Free? && s.initialized ==>
              && s.store.Filed()
              && s.store.queued.Keys !! s.store.running.Keys !! s.store.completed.Keys
              && s.store.running.Keys == (set u | u in Current(s)) && |s.store.running| <= 1
              && s.store.queued.Keys == (set u | u in Pending(s))
              && Distinct(Live(s)) && Suffix(Live(s), s.added)
  {
    RunKeeps(steps);
    var s := Exec(Initial(), steps).value;
    hide Exec;
    if s.holder.Free? && s.initialized {
      assert Mirrors(s);
      StatesDisjoint(s);
      RunningIsCurrent(s);
      QueuedIsPending(s);
    }
  }

  lemma StatesDisjoint(s: System)
    requires Mirrors(s) && s.holder.Free?
    ensures s.store.queued.Keys !! s.store.running.Keys !! s.store.completed.Keys
  {
    CurrentNotPending(s);
    forall u | u in s.store.queued ensures u in Pending(s) { PendingMember(s, u); }
    hide Pending, Live, Distinct, Suffix;
  }

  lemma RunningIsCurrent(s: System)
    requires Mirrors(s) && s.holder.Free?
    ensures s.store.running.Keys == (set u | u in Current(s)) && |s.store.running| <= 1
  {
    hide Pending, Live, Distinct, Suffix;
    var current := set u | u in Current(s);
    assert s.store.running.Keys == current;
    assert |s.store.running| == |current|;
    if s.worker.Working? {
      assert current == {s.worker.uuid};
    } else {
      assert current == {};
    }
  }

  lemma QueuedIsPending(s: System)
    requires Mirrors(s)
    ensures s.store.queued.Keys == set u | u in Pending(s)
  {
    forall u ensures u in s.store.queued.Keys <==> u in Pending(s) { PendingMember(s, u); }
  }

  lemma PendingMember(s: System, u: Uuid)
    ensures IsPending(s, u) <==> u in Pending(s)
  {
  }

  lemma CurrentNotPending(s: System)
    requires Distinct(Live(s))
    ensures forall u :: u in Current(s) ==> u !in Pending(s)
  {
    if s.worker.Working? {
      var live, pending := Live(s), Pending(s);
      assert live == [s.worker.uuid] + pending;
      forall i | 0 <= i < |pending| ensures pending[i] != s.worker.uuid {
        assert live[i + 1] == pending[i] && live[0] != live[i + 1];
      }
    }
  }

  /** The current job is the worker's task, set before the task starts and reset after it ends; the channel has a capacity. */
  ghost predicate Fits(s: System) {
    && |s.channel| <= CAPACITY
    && (s.job.Some? && !s.worker.Waiting? ==> s.job.value == s.worker.uuid)
    && (s.worker.Working? ==> s.job.Some?)
    && (s.holder.Starting? || s.holder.Writing? || s.holder.Erasing? ==> s.job.Some?)
  }

  lemma StepKeepsFits(s: System, step: Step)
    requires MidSwitch(s) && Fits(s) && Next(s, step).Some?
    ensures Fits(Next(s, step).value)
  {
    NextIs(s, step);
    hide Next;
    if step.Advance? {
      hide JobStep, JobSane;
    } else if step.Crash? {
      CrashFits(s);
    } else {
      hide AdvanceJob, JobSane, Lists, ReadOnce, Release;
    }
  }

  lemma CrashFits(s: System)
    requires Next(s, Step.Crash).Some?
    ensures Fits(Next(s, Step.Crash).value)
  {
  }

  /** What holds after every run, and after every step from there. */
  ghost predicate Reached(s: System) {
    Inv(s) && Fits(s)
  }

  lemma StepKeepsReached(s: System, step: Step)
    requires Reached(s) && Next(s, step).Some?
    ensures Reached(Next(s, step).value)
  {
    StepKeeps(s, step);
    assert MidSwitch(s);
    hide Inv, Next, Fits, MidSwitch;
    StepKeepsFits(s, step);
  }

  lemma {:induction false} RunKeepsReached(s: System, steps: seq<Step>)
    requires Reached(s) && Exec(s, steps).Some?
    ensures Reached(Exec(s, steps).value)
  {
    hide Reached, Next;
    if steps != [] {
      var n := |steps| - 1;
      RunKeepsReached(s, steps[..n]);
      StepKeepsReached(Exec(s, steps[..n]).value, steps[n]);
    }
  }

  lemma InitialReached()
    ensures Reached(Initial())
  {
    InitialKeeps();
  }

  // ---------- recovery ----------

  /** The task was left over by a crash: it waits to be recovered, or recovery has listed it. */
  ghost predicate LeftOver(s: System, u: Uuid) {
    if s.initialized then u in s.recovered else u in s.store.queued || u in s.store.running
  }

  lemma {:induction false} LeftOverStays(s: System, steps: seq<Step>, u: Uuid)
    requires Inv(s) && LeftOver(s, u) && Exec(s, steps).Some?
    requires Step.Crash !in steps && Step.Clean(u) !in steps
    ensures Inv(Exec(s, steps).value) && LeftOver(Exec(s, steps).value, u)
  {
    if steps != [] {
      var n := |steps| - 1;
      LeftOverStays(s, steps[..n], u);
      StepKeeps(Exec(s, steps[..n]).value, steps[n]);
      LeftOverStep(Exec(s, steps[..n]).value, steps[n], u);
      hide Inv, Next, LeftOver;
    }
  }

  lemma LeftOverStep(s: System, step: Step, u: Uuid)
    requires Inv(s) && LeftOver(s, u) && Next(s, step).Some? && step != Step.Crash && step != Step.Clean(u)
    ensures LeftOver(Next(s, step).value, u)
  {
    NextIs(s, step);
    UnsettledHolder(s);
    hide *;
    if step.Advance? {
      LeftOverAdvance(s, u);
    } else {
      LeftOverOther(s, step, u);
    }
  }

  lemma UnsettledHolder(s: System)
    requires Inv(s)
    ensures !s.initialized ==> s.worker.Waiting? && (s.holder.Free? || s.holder.Entered? || s.holder.Cleaning? || s.holder.CleaningLog?)
  {
    hide Mirrors, Accounted, Known, Findable, MidSwitch;
  }

  lemma LeftOverAdvance(s: System, u: Uuid)
    requires LeftOver(s, u) && AdvanceJob(s).Some?
    requires !s.initialized ==> s.holder.Free? || s.holder.Entered? || s.holder.Cleaning? || s.holder.CleaningLog?
    ensures LeftOver(AdvanceJob(s).value, u)
  {
    hide JobStep;
  }

  lemma LeftOverOther(s: System, step: Step, u: Uuid)
    requires LeftOver(s, u) && step != Step.Clean(u)
    requires !s.initialized ==> s.worker.Waiting? && (s.holder.Free? || s.holder.Entered? || s.holder.Cleaning? || s.holder.CleaningLog?)
    ensures CleanNext(s, step).Some? ==> LeftOver(CleanNext(s, step).value, u)
    ensures WorkNext(s, step).Some? ==> LeftOver(WorkNext(s, step).value, u)
    ensures AddNext(s, step).Some? ==> LeftOver(AddNext(s, step).value, u)
    ensures ReadNext(s, step).Some? ==> LeftOver(ReadNext(s, step).value, u)
  {
    hide Lists, ReadOnce, Release;
  }

  /** Once the manager works again, whatever a crash left queued or running is completed as canceled, until it is cleaned up. */
  lemma CrashRecovery(before: seq<Step>, after: seq<Step>, u: Uuid)
    requires Exec(Initial(), before).Some? && Exec(Initial(), before + after).Some?
    requires var s := Exec(Initial(), before).value;
             !s.initialized && (u in s.store.queued || u in s.store.running)
    requires Step.Crash !in after && Step.Clean(u) !in after
    ensures var t := Exec(Initial(), before + after).value;
            Settled(t) ==>
              && u !in t.store.queued && u !in t.store.running && u in t.store.completed
              && t.store.completed[u].status == CANCELED && t.store.completed[u].reason == INVALIDATED
  {
    RunKeeps(before);
    RunAppend(Initial(), before, after);
    var s := Exec(Initial(), before).value;
    LeftOverStays(s, after, u);
    var t := Exec(s, after).value;
    hide Exec;
    if Settled(t) {
      assert u in t.recovered;
      assert u in t.store.completed && u !in t.added;
      LiveAdded(t);
    }
  }

  lemma LiveAdded(s: System)
    requires Inv(s) && Settled(s)
    ensures forall u :: u in s.store.queued || u in s.store.running ==> u in s.added
  {
    forall u | u in s.store.queued || u in s.store.running ensures u in s.added {
      assert u in Live(s);
      var i :| 0 <= i < |Live(s)| && Live(s)[i] == u;
      assert s.added[|s.added| - |Live(s)| + i] == u;
    }
  }
}
