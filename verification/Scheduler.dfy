/**
 * The classes `Thread` and `Scheduler`, with the fields and the loops of the
 * program, proved to compute the steps of the state machine.
 */
module SchedulerClass {
  import opened Types
  import opened Queues
  import opened Machine

  class Thread {
    var state: State
    var quantum: nat

    constructor (state: State, quantum: nat)
      ensures this.state == state && this.quantum == quantum
    {
      this.state, this.quantum := state, quantum;
    }
  }

  class Scheduler {
    var threads: map<nat, Thread>
    var readyThreads: seq<nat>
    var blockedThreads: set<nat>
    var sleepingThreads: map<nat, nat>
    var runningTid: nat
    var totalQuantums: nat

    /** No two ids share a thread object. */
    ghost predicate Separate()
      reads this
    {
      forall t, u :: t in threads && u in threads && t != u ==> threads[t] != threads[u]
    }

    /** The thread objects as values. */
    ghost function Tcbs(): map<nat, Tcb>
      reads this`threads, threads.Values
    {
      map t | t in threads :: Tcb(threads[t].state, threads[t].quantum)
    }

    /** The state as a value. */
    ghost function View(): Sched
      reads this, threads.Values
    {
      Sched(Tcbs(), readyThreads, blockedThreads, sleepingThreads, runningTid, totalQuantums)
    }

    ghost predicate Valid()
      reads this, threads.Values
    {
      Separate() && Inv(View())
    }

    // ---------------------------------------------------------------- construction

    constructor ()
      ensures threads == map[] && readyThreads == [] && blockedThreads == {} && sleepingThreads == map[]
      ensures runningTid == 0 && totalQuantums == 0
    {
      threads, readyThreads, blockedThreads, sleepingThreads := map[], [], {}, map[];
      runningTid, totalQuantums := 0, 0;
    }

    /** Makes the main thread, running in its first quantum. */
    method InitScheduler() returns (r: Int32)
      requires threads == map[] && readyThreads == [] && blockedThreads == {} && sleepingThreads == map[]
      requires runningTid == 0 && totalQuantums == 0
      modifies this
      ensures r == 0 && Valid() && View() == Init()
      ensures fresh(threads.Values)
    {
      var thread := new Thread(Running, 1);
      r := SetThread(0, thread);
      if r == -1 {
        return;
      }
      totalQuantums := totalQuantums + 1;
      InitInv();
    }

    // ---------------------------------------------------------------- the thread table

    method SetThread(i: nat, thread: Thread) returns (r: Int32)
      modifies this`threads
      ensures |old(threads)| > MAX_THREAD_NUM ==> r == -1 && threads == old(threads)
      ensures |old(threads)| <= MAX_THREAD_NUM ==> r == 0 && threads == old(threads)[i := thread]
    {
      if |threads| > MAX_THREAD_NUM {
        return -1;
      }
      threads := threads[i := thread];
      return 0;
    }

    /** A lookup; `operator[]` on a missing id would insert a null pointer. */
    function GetThread(i: nat): Thread
      requires i in threads
      reads this
    {
      threads[i]
    }

    predicate CheckThread(tid: Int32)
      reads this
    {
      AsSizeT(tid) in threads
    }

    /**
     * Tries the ids from 0 up. A table that is too large refuses the thread, but
     * its id is queued and returned all the same.
     */
    method AddNewThread(state: State, quantum: nat) returns (r: Int32)
      modifies this`threads, this`readyThreads
      ensures r == FirstFree(old(threads.Keys), 0)
      ensures r == -1 || |old(threads)| > MAX_THREAD_NUM ==> threads == old(threads)
      ensures r != -1 && |old(threads)| <= MAX_THREAD_NUM ==>
                && r in threads && fresh(threads[r])
                && threads == old(threads)[r as nat := threads[r]]
                && threads[r].state == state && threads[r].quantum == quantum
      ensures readyThreads == if r != -1 && state == Ready then old(readyThreads) + [r as nat] else old(readyThreads)
    {
      var tid: nat := 0;
      while tid < MAX_THREAD_NUM
        invariant tid <= MAX_THREAD_NUM
        invariant threads == old(threads) && readyThreads == old(readyThreads)
        invariant FirstFree(old(threads.Keys), 0) == FirstFree(old(threads.Keys), tid)
      {
        if !CheckThread(tid) {
          var thread := new Thread(state, quantum);
          var _ := SetThread(tid, thread);
          if state == Ready {
            readyThreads := readyThreads + [tid];
          }
          return tid;
        }
        tid := tid + 1;
      }
      return -1;
    }

    // ---------------------------------------------------------------- the ready queue

    /** Erases at index i and advances i all the same. */
    method RemoveThreadFromReady(tid: nat)
      modifies this`readyThreads
      ensures View() == old(View()).(ready := EraseSkipping(old(readyThreads), tid))
      ensures readyThreads == Without(old(readyThreads), tid) <==> !AdjacentCopies(old(readyThreads), tid)
    {
      EraseSkippingIffNotAdjacent(readyThreads, tid);
      var i: nat := 0;
      assert readyThreads[0..] == readyThreads;
      while i < |readyThreads|
        invariant i <= |readyThreads| + 1
        invariant i <= |readyThreads| ==>
                    readyThreads[..i] + EraseSkipping(readyThreads[i..], tid) == EraseSkipping(old(readyThreads), tid)
        invariant i > |readyThreads| ==> readyThreads == EraseSkipping(old(readyThreads), tid)
        decreases |readyThreads| + 1 - i
      {
        ghost var before := readyThreads;
        if readyThreads[i] == tid {
          readyThreads := readyThreads[..i] + readyThreads[i + 1..];
        }
        ScanStep(before, i, tid);
        i := i + 1;
      }
      assert i == |readyThreads| ==> readyThreads[..i] == readyThreads && readyThreads[i..] == [];
    }

    /** Marks a thread ready, and queues it unless it sleeps. */
    method ReadyThread(tid: nat)
      requires Separate() && tid in threads
      modifies this`readyThreads, GetThread(tid)`state
      ensures View() == MakeReady(old(View()), tid)
    {
      GetThread(tid).state := Ready;
      if tid !in sleepingThreads {
        readyThreads := readyThreads + [tid];
      }
    }

    // ---------------------------------------------------------------- the sleepers

    /** Queues the sleepers whose time has come, in order of id, and erases their entries. */
    method HandleSleepThreads()
      requires sleepingThreads.Keys <= threads.Keys
      modifies this`readyThreads, this`sleepingThreads
      ensures View() == Wake(old(View()))
    {
      ghost var s := View();
      var awake := QueueAwakeThreads();
      EraseAwakeThreads(awake);
      assert sleepingThreads == s.sleeping - DueThreads(s);
    }

    /** First pass: visits the sleepers by id. */
    method QueueAwakeThreads() returns (awake: seq<nat>)
      requires sleepingThreads.Keys <= threads.Keys
      modifies this`readyThreads
      ensures forall t :: t in awake <==> t in DueThreads(old(View()))
      ensures readyThreads == old(readyThreads) + Ascending(Woken(old(View())))
    {
      hide AsInt32, Ascending, Woken, DueThreads, StrictlyIncreasing, Inv;
      awake := [];
      var pending := sleepingThreads.Keys;
      ghost var s, queued: seq<nat> := View(), [];
      DueSleep(s);
      assert StrictlyIncreasing(queued) by { NothingIncreases(); }
      while pending != {}
        invariant pending <= sleepingThreads.Keys
        invariant readyThreads == s.ready + queued
        invariant StrictlyIncreasing(queued)
        invariant forall t :: t in queued <==> t in Woken(s) && t !in pending
        invariant forall t :: t in awake <==> t in DueThreads(s) && t !in pending
        invariant forall t, u :: t in queued && u in pending ==> t < u
        decreases |pending|
      {
        ghost var least := LeastExists(pending);
        var tid :| tid in pending && forall x :: x in pending ==> tid <= x;
        pending := pending - {tid};
        var numQuantums := sleepingThreads[tid];
        var thread := GetThread(tid);
        DueOne(s, tid);
        if AsInt32(AsInt32(numQuantums) - 1) <= totalQuantums {
          awake := awake + [tid];
          if thread.state == Ready {
            readyThreads := readyThreads + [tid];
            AppendKeepsIncreasing(queued, tid);
            queued := queued + [tid];
          }
        }
      }
      AscendingIsUnique(queued, Woken(s));
    }

    /** Second pass. */
    method EraseAwakeThreads(awake: seq<nat>)
      modifies this`sleepingThreads
      ensures sleepingThreads == old(sleepingThreads) - set t | t in awake
    {
      var i := 0;
      while i < |awake|
        invariant 0 <= i <= |awake|
        invariant sleepingThreads == old(sleepingThreads) - set t | t in awake[..i]
      {
        sleepingThreads := sleepingThreads - {awake[i]};
        assert awake[..i + 1] == awake[..i] + [awake[i]];
        i := i + 1;
      }
      assert awake[..i] == awake;
    }

    method EraseSleeper(tid: nat)
      modifies this`sleepingThreads
      ensures View() == old(View()).(sleeping := old(sleepingThreads) - {tid})
    {
      if tid in sleepingThreads {
        sleepingThreads := sleepingThreads - {tid};
      }
      assert sleepingThreads == old(sleepingThreads) - {tid};
    }

    // ---------------------------------------------------------------- switching

    /** Starts a quantum of the thread at the front of the queue, which must not be empty. */
    method RunNextThread()
      requires Separate()
      requires readyThreads != [] && readyThreads[0] in threads
      modifies this`totalQuantums, this`runningTid, this`readyThreads, GetThread(readyThreads[0])
      ensures View() == Dispatch(old(View()))
    {
      totalQuantums := totalQuantums + 1;
      runningTid := readyThreads[0];
      readyThreads := readyThreads[1..];
      var newThread := GetThread(runningTid);
      newThread.state := Running;
      newThread.quantum := newThread.quantum + 1;
    }

    // ---------------------------------------------------------------- the steps

    /** The timer handler: wakes sleepers, requeues the running thread, runs the next. */
    method ChangeThread()
      requires Valid() && totalQuantums < INT_MAX
      modifies this, threads.Values
      ensures Valid() && threads == old(threads)
      ensures Outcome(View(), Switched) == old(Step(View(), Tick))
    {
      hide Inv, Step, Wake, MakeReady, Dispatch;
      ghost var s := View();
      SwitchIsSafe(s, Tick);
      WakeKeepsThreads(s);
      HandleSleepThreads();
      ReadyThread(runningTid);
      RunNextThread();
    }

    /** The common end of the calls in which the running thread gives up the processor. */
    method WakeAndRunNext(ghost s: Sched, ghost c: Call)
      requires Separate() && Inv(s) && HasRoom(s, c) && Switches(s, c) && c != Tick
      requires s.running in s.threads && View() == Leave(s, c)
      modifies this`readyThreads, this`sleepingThreads, this`totalQuantums, this`runningTid, threads.Values
      ensures Valid() && Outcome(View(), Switched) == Step(s, c)
    {
      hide Inv, Step, Wake, Dispatch, Leave;
      SwitchIsSafe(s, c);
      WakeKeepsThreads(View());
      HandleSleepThreads();
      RunNextThread();
    }

    /** Drops the thread from the table, then from whatever container holds it. */
    method RemoveThread(id: Int32) returns (r: Reply)
      requires Valid() && id != 0
      requires AsSizeT(id) == runningTid ==> totalQuantums < INT_MAX
      modifies this, threads.Values
      ensures Valid()
      ensures threads == if AsSizeT(id) in old(threads) then old(threads) - {AsSizeT(id)} else old(threads)
      ensures Outcome(View(), r) == old(Step(View(), Terminate(id)))
    {
      hide Inv, Step, TerminateStep, EraseSkipping, Without, AdjacentCopies;
      ghost var s := View();
      OneThreadIsRunning(s);
      TerminateOutcome(s, id);
      var tid := AsSizeT(id);
      if !CheckThread(id) {
        return Returns(-1);
      }
      var thread := GetThread(tid);
      threads := threads - {tid};
      assert View() == s.(threads := s.threads - {tid});
      match thread.state {
        case Ready =>
          QueueErasesAll(s, tid);
          RemoveThreadFromReady(tid);
        case Running =>
          assert View() == Leave(s, Terminate(id));
          WakeAndRunNext(s, Terminate(id));
          return Switched;
        case Blocked =>
          blockedThreads := blockedThreads - {tid};
          assert View() == s.(threads := s.threads - {tid}, blocked := s.blocked - {tid});
      }
      EraseSleeper(tid);
      assert View() == Step(s, Terminate(id)).state;
      return Returns(0);
    }

    method BlockThread(id: Int32) returns (r: Reply)
      requires Valid() && id != 0 && CheckThread(id)
      requires AsSizeT(id) == runningTid ==> totalQuantums < INT_MAX
      modifies this, threads.Values
      ensures Valid() && threads == old(threads)
      ensures Outcome(View(), r) == old(Step(View(), Block(id)))
    {
      hide Inv, Step, Wake, Dispatch, EraseSkipping, Without, AdjacentCopies;
      ghost var s := View();
      OneThreadIsRunning(s);
      if !Switches(s, Block(id)) {
        StayIsSafe(s, Block(id));
      }
      var tid := AsSizeT(id);
      var thread := GetThread(tid);
      match thread.state {
        case Ready =>
          QueueErasesAll(s, tid);
          blockedThreads := blockedThreads + {tid};
          thread.state := Blocked;
          RemoveThreadFromReady(tid);
          assert View() == BlockStep(s, id).state;
          return Returns(0);
        case Running =>
          blockedThreads := blockedThreads + {tid};
          thread.state := Blocked;
          WakeAndRunNext(s, Block(id));
          return Switched;
        case Blocked =>
          return Returns(0);
      }
    }

    method UnblockThread(id: Int32)
      requires Valid() && CheckThread(id)
      modifies this, threads.Values
      ensures Valid() && threads == old(threads)
      ensures Outcome(View(), Returns(0)) == old(Step(View(), Resume(id)))
    {
      hide Inv, Step;
      ghost var s := View();
      StayIsSafe(s, Resume(id));
      var tid := AsSizeT(id);
      var thread := GetThread(tid);
      if thread.state == Blocked {
        ReadyThread(tid);
        blockedThreads := blockedThreads - {tid};
      }
      assert View() == ResumeStep(s, id).state;
    }

    method SleepRunningThread(numQuantums: Int32)
      requires Valid() && runningTid != 0 && numQuantums > 0 && totalQuantums < INT_MAX
      modifies this, threads.Values
      ensures Valid() && threads == old(threads)
      ensures Outcome(View(), Switched) == old(Step(View(), Sleep(numQuantums)))
    {
      hide Inv, Step;
      ghost var s, c := View(), Sleep(numQuantums);
      OneThreadIsRunning(s);
      var tid := runningTid;
      sleepingThreads := sleepingThreads[tid := totalQuantums + AsSizeT(numQuantums) + 1];
      GetThread(tid).state := Ready;
      WakeAndRunNext(s, c);
    }

    method RemoveAll()
      modifies this`threads
      ensures threads == map[]
    {
      threads := map[];
    }
  }

  /** What a switching method needs to know of the state it starts in. */
  lemma SwitchIsSafe(s: Sched, c: Call)
    requires Inv(s) && HasRoom(s, c) && Switches(s, c)
    ensures s.running in s.threads
    ensures s.sleeping.Keys <= s.threads.Keys
    ensures Leave(s, c).sleeping.Keys <= Leave(s, c).threads.Keys
    ensures var b := BeforeDispatch(s, c); b.ready != [] && b.ready[0] in b.threads
    ensures Step(s, c) == Outcome(Dispatch(BeforeDispatch(s, c)), Switched) && Inv(Dispatch(BeforeDispatch(s, c)))
  {
    InvMeans(s);
    BeforeDispatchIsSound(s, c);
    DispatchKeepsInv(BeforeDispatch(s, c));
    if c != Tick {
      LeaveIsSound(s, c);
    }
  }

  /** What any other method needs. */
  lemma StayIsSafe(s: Sched, c: Call)
    requires Inv(s) && Continues(s, c) && !Switches(s, c)
    ensures Step(s, c) == StayStep(s, c) && Inv(StayStep(s, c).state)
  {
    StepKeepsInv(s, c);
  }

  lemma TerminateOutcome(s: Sched, id: Int32)
    requires Inv(s) && id != 0 && HasRoom(s, Terminate(id))
    ensures var t, o := AsSizeT(id), Step(s, Terminate(id));
            if t !in s.threads then o == Outcome(s, Returns(-1))
            else
              var rest := s.(threads := s.threads - {t}, sleeping := s.sleeping - {t});
              && (s.threads[t].state == Ready ==>
                   o == Outcome(rest.(ready := Without(s.ready, t)), Returns(0)) && Inv(o.state))
              && (s.threads[t].state == Blocked ==>
                   o == Outcome(rest.(blocked := s.blocked - {t}), Returns(0)) && Inv(o.state))
  {
    hide Inv, Step;
    OneThreadIsRunning(s);
    if !Switches(s, Terminate(id)) {
      StayIsSafe(s, Terminate(id));
    }
  }

  lemma OneThreadIsRunning(s: Sched)
    requires Inv(s)
    ensures s.running in s.threads
    ensures forall t :: t in s.threads ==> (s.threads[t].state == Running <==> t == s.running)
  {
    InvMeans(s);
  }

  /** A queue without duplicates is scanned correctly. */
  lemma QueueErasesAll(s: Sched, t: nat)
    requires Inv(s)
    ensures !AdjacentCopies(s.ready, t) && EraseSkipping(s.ready, t) == Without(s.ready, t)
  {
    EraseSkippingIffNotAdjacent(s.ready, t);
  }

  lemma DueOne(s: Sched, t: nat)
    requires t in s.sleeping && t in s.threads
    ensures t in DueThreads(s) <==> AsInt32(AsInt32(s.sleeping[t]) - 1) <= s.total
    ensures t in Woken(s) <==> t in DueThreads(s) && s.threads[t].state == Ready
  {
  }

  lemma NothingIncreases()
    ensures StrictlyIncreasing([])
  {
  }

  lemma DueSleep(s: Sched)
    ensures Woken(s) <= DueThreads(s) <= s.sleeping.Keys
  {
  }

  lemma ScanStep(q: seq<nat>, i: nat, tid: nat)
    requires i < |q|
    ensures q[i] != tid ==>
              q[..i] + EraseSkipping(q[i..], tid) == q[..i + 1] + EraseSkipping(q[i + 1..], tid)
    ensures q[i] == tid ==>
              var r := q[..i] + q[i + 1..];
              if i < |r| then q[..i] + EraseSkipping(q[i..], tid) == r[..i + 1] + EraseSkipping(r[i + 1..], tid)
              else q[..i] + EraseSkipping(q[i..], tid) == r
  {
    assert q[i..][1..] == q[i + 1..];
    if q[i] == tid {
      var r := q[..i] + q[i + 1..];
      if i < |r| {
        assert q[i..][2..] == q[i + 2..] == r[i + 1..];
        assert r[..i + 1] == q[..i] + [q[i + 1]];
      }
    } else {
      assert q[..i + 1] == q[..i] + [q[i]];
    }
  }
}
