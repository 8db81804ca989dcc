/** The calls of the library, with the guards that stand before the scheduler. */
module Uthreads {
  import opened Types
  import opened Queues
  import opened Machine
  import opened Runs
  import opened Accounting
  import opened SchedulerClass

  /** Makes the scheduler; only a negative quantum length is refused. */
  method UthreadInit(quantumUsecs: Int32) returns (r: Int32, scheduler: Scheduler?)
    ensures quantumUsecs < 0 ==> r == -1 && scheduler == null
    ensures quantumUsecs >= 0 ==>
              && r == 0 && scheduler != null && fresh(scheduler) && fresh(scheduler.threads.Values)
              && scheduler.Valid() && scheduler.View() == Init()
  {
    if quantumUsecs < 0 {
      return -1, null;
    }
    var s := new Scheduler();
    r := s.InitScheduler();
    scheduler := s;
  }

  /** The handler of the timer signal. */
  method CallbackHandler(scheduler: Scheduler)
    requires scheduler.Valid() && scheduler.totalQuantums < INT_MAX
    modifies scheduler, scheduler.threads.Values
    ensures scheduler.Valid() && scheduler.threads == old(scheduler.threads)
    ensures Outcome(scheduler.View(), Switched) == old(Step(scheduler.View(), Tick))
  {
    scheduler.ChangeThread();
  }

  method UthreadSpawn(scheduler: Scheduler, nullEntry: bool) returns (r: Int32)
    requires scheduler.Valid()
    modifies scheduler`threads, scheduler`readyThreads
    ensures scheduler.Valid()
    ensures forall t :: t in scheduler.threads.Values ==> t in old(scheduler.threads.Values) || fresh(t)
    ensures Outcome(scheduler.View(), Returns(r)) == old(Step(scheduler.View(), Spawn(nullEntry)))
  {
    hide Inv, Step, FirstFree;
    ghost var s := scheduler.View();
    StayIsSafe(s, Spawn(nullEntry));
    if nullEntry {
      return -1;
    }
    TableIsSmall(s);
    assert scheduler.threads.Keys == s.threads.Keys;
    assert |scheduler.threads| == |scheduler.threads.Keys|;
    r := scheduler.AddNewThread(Ready, 0);
    assert scheduler.View() == SpawnStep(s, false).state;
  }

  lemma TableIsSmall(s: Sched)
    requires Inv(s)
    ensures |s.threads.Keys| <= MAX_THREAD_NUM
  {
    InvMeans(s);
    Pigeonhole(s.threads.Keys, MAX_THREAD_NUM);
  }

  /** Terminating the main thread empties the table and ends the process. */
  method UthreadTerminate(scheduler: Scheduler, tid: Int32) returns (r: Reply)
    requires scheduler.Valid() && HasRoom(scheduler.View(), Terminate(tid))
    modifies scheduler, scheduler.threads.Values
    ensures tid != 0 ==> scheduler.Valid()
    ensures tid == 0 ==> r == Exits && scheduler.threads == map[]
    ensures scheduler.threads.Values <= old(scheduler.threads.Values)
    ensures Outcome(scheduler.View(), r) == old(Step(scheduler.View(), Terminate(tid)))
  {
    if tid == 0 {
      scheduler.RemoveAll();
      return Exits;
    }
    r := scheduler.RemoveThread(tid);
  }

  method UthreadBlock(scheduler: Scheduler, tid: Int32) returns (r: Reply)
    requires scheduler.Valid() && HasRoom(scheduler.View(), Block(tid))
    modifies scheduler, scheduler.threads.Values
    ensures scheduler.Valid() && scheduler.threads == old(scheduler.threads)
    ensures Outcome(scheduler.View(), r) == old(Step(scheduler.View(), Block(tid)))
  {
    if !scheduler.CheckThread(tid) || tid == 0 {
      OneThreadIsRunning(scheduler.View());
      return Returns(-1);
    }
    r := scheduler.BlockThread(tid);
  }

  method UthreadResume(scheduler: Scheduler, tid: Int32) returns (r: Int32)
    requires scheduler.Valid()
    modifies scheduler, scheduler.threads.Values
    ensures scheduler.Valid() && scheduler.threads == old(scheduler.threads)
    ensures Outcome(scheduler.View(), Returns(r)) == old(Step(scheduler.View(), Resume(tid)))
  {
    if !scheduler.CheckThread(tid) {
      return -1;
    }
    scheduler.UnblockThread(tid);
    return 0;
  }

  method UthreadSleep(scheduler: Scheduler, numQuantums: Int32) returns (r: Reply)
    requires scheduler.Valid() && HasRoom(scheduler.View(), Sleep(numQuantums))
    modifies scheduler, scheduler.threads.Values
    ensures scheduler.Valid() && scheduler.threads == old(scheduler.threads)
    ensures Outcome(scheduler.View(), r) == old(Step(scheduler.View(), Sleep(numQuantums)))
  {
    if numQuantums <= 0 {
      return Returns(-1);
    }
    if scheduler.runningTid == 0 {
      return Returns(-1);
    }
    scheduler.SleepRunningThread(numQuantums);
    return Switched;
  }

  method UthreadGetTotalQuantums(scheduler: Scheduler) returns (r: Int32)
    requires scheduler.Valid()
    ensures r == scheduler.View().total
  {
    IdsAreSmall(scheduler.View());
    r := scheduler.totalQuantums;
  }

  /** Counts the quanta that a live thread has had since it was spawned. */
  method UthreadGetQuantums(scheduler: Scheduler, tid: Int32, ghost j: Journal) returns (r: Int32)
    requires scheduler.Valid() && Balanced(scheduler.View(), j)
    ensures r == if AsSizeT(tid) in j.born then Count(j.trace[j.born[AsSizeT(tid)]..], AsSizeT(tid)) else -1
  {
    if !scheduler.CheckThread(tid) {
      return -1;
    }
    QuantaFitInInt(scheduler.View(), j, AsSizeT(tid));
    r := AsInt32(scheduler.GetThread(AsSizeT(tid)).quantum);
  }

  // ---------------------------------------------------------------- executions

  /** One call, or a tick, on the scheduler object. */
  method Perform(scheduler: Scheduler, c: Call) returns (r: Reply)
    requires scheduler.Valid() && HasRoom(scheduler.View(), c)
    modifies scheduler, scheduler.threads.Values
    ensures c != Terminate(0) ==> scheduler.Valid()
    ensures forall t :: t in scheduler.threads.Values ==> t in old(scheduler.threads.Values) || fresh(t)
    ensures Outcome(scheduler.View(), r) == old(Step(scheduler.View(), c))
  {
    hide Inv, Step;
    match c {
      case Tick =>
        CallbackHandler(scheduler);
        r := Switched;
      case Spawn(nullEntry) =>
        var tid := UthreadSpawn(scheduler, nullEntry);
        r := Returns(tid);
      case Terminate(tid) =>
        r := UthreadTerminate(scheduler, tid);
      case Block(tid) =>
        r := UthreadBlock(scheduler, tid);
      case Resume(tid) =>
        var result := UthreadResume(scheduler, tid);
        r := Returns(result);
      case Sleep(numQuantums) =>
        r := UthreadSleep(scheduler, numQuantums);
    }
  }

  /**
   * A program's execution, call by call. Its states and replies are those of the
   * run of the machine, so what is proved of runs holds of the classes.
   */
  method Execute(scheduler: Scheduler, cs: seq<Call>) returns (replies: seq<Reply>)
    requires scheduler.Valid() && IsRun(scheduler.View(), cs)
    modifies scheduler, scheduler.threads.Values
    ensures scheduler.Valid()
    ensures scheduler.View() == old(Run(scheduler.View(), cs))
    ensures replies == old(Replies(scheduler.View(), cs))
  {
    hide Inv, Step, Continues, Next;
    ghost var s := scheduler.View();
    replies := [];
    var i := 0;
    while i < |cs|
      invariant 0 <= i <= |cs|
      invariant scheduler.Valid() && IsRun(scheduler.View(), cs[i..])
      invariant forall t :: t in scheduler.threads.Values ==> t in old(scheduler.threads.Values) || fresh(t)
      invariant Run(s, cs) == Run(scheduler.View(), cs[i..])
      invariant Replies(s, cs) == replies + Replies(scheduler.View(), cs[i..])
    {
      ghost var before := scheduler.View();
      assert cs[i..][0] == cs[i] && cs[i..][1..] == cs[i + 1..];
      ContinuesMeans(before, cs[i]);
      var r := Perform(scheduler, cs[i]);
      NextIsStep(before, cs[i]);
      replies := replies + [r];
      i := i + 1;
    }
    assert cs[i..] == [];
  }
}
