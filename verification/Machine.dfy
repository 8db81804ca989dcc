/**
 * The scheduler as a state machine on values: the containers of the class
 * `Scheduler`, and what each library call does to them. The classes in
 * Scheduler.dfy are proved to compute exactly these steps.
 */
module Machine {
  import opened Types
  import opened Queues

  /** The fields of `Thread` that the scheduler reads. */
  datatype Tcb = Tcb(state: State, quanta: nat)

  /** The fields of `Scheduler`. */
  datatype Sched = Sched(
    threads: map<nat, Tcb>,
    ready: seq<nat>,
    blocked: set<nat>,
    sleeping: map<nat, nat>,
    running: nat,
    total: nat)

  datatype Outcome = Outcome(state: Sched, reply: Reply)

  /** The state after `init_scheduler`. */
  function Init(): Sched {
    Sched(map[0 := Tcb(Running, 1)], [], {}, map[], 0, 1)
  }

  // ---------------------------------------------------------------- invariant

  /** The containers agree about thread `t`. */
  ghost predicate AgreesOn(s: Sched, t: nat) {
    && (t in s.threads ==> t < MAX_THREAD_NUM)
    && (t in s.blocked <==> t in s.threads && s.threads[t].state == Blocked)
    && (t in s.ready <==> t in s.threads && s.threads[t].state == Ready && t !in s.sleeping)
    && (t in s.sleeping ==> t in s.threads && s.threads[t].state != Running)
  }

  /** The containers agree; says nothing of the running thread or of deadlines. */
  ghost predicate Consistent(s: Sched) {
    && (forall t: nat :: AgreesOn(s, t))
    && 0 in s.threads && s.threads[0].state != Blocked && 0 !in s.sleeping
    && NoDuplicates(s.ready)
  }

  ghost predicate MarkedRunning(s: Sched, t: nat) {
    t in s.threads && s.threads[t].state == Running
  }

  ghost predicate OneRunning(s: Sched) {
    && s.running in s.threads
    && forall t: nat :: MarkedRunning(s, t) <==> t == s.running
  }

  ghost predicate NoneRunning(s: Sched) {
    forall t: nat :: !MarkedRunning(s, t)
  }

  /** A sleeper has a quantum to wait after `now`, and its deadline fits in an `int`. */
  ghost predicate DeadlineAhead(s: Sched, t: nat, now: int) {
    t in s.sleeping ==> now < s.sleeping[t] <= INT_MAX + 1
  }

  ghost predicate DeadlinesAhead(s: Sched, now: int) {
    forall t: nat :: DeadlineAhead(s, t, now)
  }

  ghost predicate Inv(s: Sched) {
    && Consistent(s)
    && OneRunning(s)
    && 1 <= s.total <= INT_MAX
    && DeadlinesAhead(s, s.total)
  }

  /** The agreement of the containers, thread by thread. */
  lemma ConsistentMeans(s: Sched)
    requires Consistent(s)
    ensures forall t :: t in s.threads ==> t < MAX_THREAD_NUM
    ensures forall t :: t in s.blocked <==> t in s.threads && s.threads[t].state == Blocked
    ensures forall t :: t in s.ready <==> t in s.threads && s.threads[t].state == Ready && t !in s.sleeping
    ensures forall t :: t in s.sleeping ==> t in s.threads && s.threads[t].state != Running
  {
    forall t: nat
      ensures t in s.threads ==> t < MAX_THREAD_NUM
      ensures t in s.blocked <==> t in s.threads && s.threads[t].state == Blocked
      ensures t in s.ready <==> t in s.threads && s.threads[t].state == Ready && t !in s.sleeping
      ensures t in s.sleeping ==> t in s.threads && s.threads[t].state != Running
    {
      assert AgreesOn(s, t);
    }
  }

  /** The whole invariant, thread by thread. */
  lemma InvMeans(s: Sched)
    requires Inv(s)
    ensures forall t :: t in s.threads ==> t < MAX_THREAD_NUM
    ensures forall t :: t in s.blocked <==> t in s.threads && s.threads[t].state == Blocked
    ensures forall t :: t in s.ready <==> t in s.threads && s.threads[t].state == Ready && t !in s.sleeping
    ensures forall t :: t in s.sleeping ==> t in s.threads && s.threads[t].state != Running
    ensures forall t :: t in s.sleeping ==> s.total < s.sleeping[t] <= INT_MAX + 1
    ensures s.running in s.threads
    ensures forall t :: t in s.threads ==> (s.threads[t].state == Running <==> t == s.running)
  {
    ConsistentMeans(s);
    forall t | t in s.threads
      ensures s.threads[t].state == Running <==> t == s.running
    {
      assert MarkedRunning(s, t) <==> t == s.running;
    }
    forall t | t in s.sleeping
      ensures s.total < s.sleeping[t] <= INT_MAX + 1
    {
      assert DeadlineAhead(s, t, s.total);
    }
  }

  // ---------------------------------------------------------------- pieces of a step

  /** The wake-up test, with both conversions of the source. */
  predicate Due(deadline: nat, now: int) {
    AsInt32(AsInt32(deadline) - 1) <= now
  }

  /**
   * The test on any deadline a sleep call can store: met when the last quantum
   * of the sleep is running or over, or when the deadline overflows an `int`.
   */
  lemma DueMeans(deadline: nat, now: int)
    requires 1 <= deadline < 0x1_0000_0000 && 1 <= now
    ensures Due(deadline, now) <==> deadline - 1 <= now || deadline - 1 > INT_MAX
  {
    if deadline == INT_MAX + 1 {
      assert AsInt32(deadline) == INT_MIN && AsInt32(INT_MIN - 1) == INT_MAX;
    } else if deadline > INT_MAX {
      assert AsInt32(deadline) == deadline - 0x1_0000_0000;
      assert AsInt32(AsInt32(deadline) - 1) == deadline - 0x1_0000_0001;
    }
  }

  ghost function DueThreads(s: Sched): set<nat> {
    set t | t in s.sleeping && Due(s.sleeping[t], s.total)
  }

  /** The due sleepers that are not blocked as well. */
  ghost function Woken(s: Sched): set<nat> {
    set t | t in DueThreads(s) && t in s.threads && s.threads[t].state == Ready
  }

  /** `_handle_sleep_threads`: due entries go, and the woken queue up by id. */
  ghost function Wake(s: Sched): Sched {
    s.(sleeping := s.sleeping - DueThreads(s), ready := s.ready + Ascending(Woken(s)))
  }

  /** `ready_thread`: queue `t` unless it sleeps. */
  function MakeReady(s: Sched, t: nat): Sched
    requires t in s.threads
  {
    s.(threads := s.threads[t := s.threads[t].(state := Ready)],
       ready := if t in s.sleeping then s.ready else s.ready + [t])
  }

  /** `run_next_thread`: start a quantum of the thread at the head of the queue. */
  function Dispatch(s: Sched): Sched
    requires s.ready != [] && s.ready[0] in s.threads
  {
    var t := s.ready[0];
    s.(total := s.total + 1,
       running := t,
       ready := s.ready[1..],
       threads := s.threads[t := Tcb(Running, s.threads[t].quanta + 1)])
  }

  /** The smallest id from `from` on that is not in use, or -1. */
  function FirstFree(used: set<nat>, from: nat): (r: int)
    requires from <= MAX_THREAD_NUM
    ensures r == -1 <==> forall t :: from <= t < MAX_THREAD_NUM ==> t in used
    ensures r != -1 ==> from <= r < MAX_THREAD_NUM && r !in used && forall t :: from <= t < r ==> t in used
    decreases MAX_THREAD_NUM - from
  {
    if from == MAX_THREAD_NUM then -1
    else if from !in used then from
    else FirstFree(used, from + 1)
  }

  // ---------------------------------------------------------------- the calls

  /** The running thread gives up the processor. */
  predicate Switches(s: Sched, c: Call) {
    match c
    case Tick => true
    case Spawn(_) => false
    case Terminate(tid) => tid != 0 && AsSizeT(tid) == s.running
    case Block(tid) => tid != 0 && AsSizeT(tid) == s.running
    case Resume(_) => false
    case Sleep(n) => n > 0 && s.running != 0
  }

  /** The quantum counter is a C `int`: one more quantum must fit. */
  predicate HasRoom(s: Sched, c: Call) {
    Switches(s, c) ==> s.total < INT_MAX
  }

  /** The process goes on after the call. */
  predicate Continues(s: Sched, c: Call) {
    HasRoom(s, c) && c != Terminate(0)
  }

  /** A call has room exactly if the `int` counter does not overflow in it. */
  lemma RoomIsExact(s: Sched, c: Call)
    requires Inv(s)
    ensures HasRoom(s, c) <==> var quanta := s.total + (if Switches(s, c) then 1 else 0); AsInt32(quanta) == quanta
  {
  }

  /** What a switching call does to the running thread before it looks at the sleepers. */
  function Leave(s: Sched, c: Call): Sched
    requires s.running in s.threads
  {
    var t := s.running;
    match c
    case Terminate(_) => s.(threads := s.threads - {t})
    case Block(_) =>
      s.(blocked := s.blocked + {t}, threads := s.threads[t := s.threads[t].(state := Blocked)])
    case Sleep(n) =>
      s.(sleeping := s.sleeping[t := s.total + AsSizeT(n) + 1],
         threads := s.threads[t := s.threads[t].(state := Ready)])
    case _ => s
  }

  /** The state in which a switching call reaches `run_next_thread`. */
  ghost function BeforeDispatch(s: Sched, c: Call): Sched
    requires s.running in s.threads
  {
    if c == Tick then MakeReady(Wake(s), s.running) else Wake(Leave(s, c))
  }

  /** `uthread_spawn`. */
  function SpawnStep(s: Sched, nullEntry: bool): Outcome {
    var tid := FirstFree(s.threads.Keys, 0);
    if nullEntry || tid == -1 then Outcome(s, Returns(-1))
    else Outcome(s.(threads := s.threads[tid := Tcb(Ready, 0)], ready := s.ready + [tid]), Returns(tid))
  }

  /** `uthread_terminate` on a thread that is not running. */
  function TerminateStep(s: Sched, tid: Int32): Outcome {
    var t := AsSizeT(tid);
    if tid == 0 then Outcome(s.(threads := map[]), Exits)
    else if t !in s.threads then Outcome(s, Returns(-1))
    else if s.threads[t].state == Ready then
      Outcome(s.(threads := s.threads - {t}, ready := Without(s.ready, t), sleeping := s.sleeping - {t}), Returns(0))
    else
      Outcome(s.(threads := s.threads - {t}, blocked := s.blocked - {t}, sleeping := s.sleeping - {t}), Returns(0))
  }

  /** `uthread_block` on a thread that is not running. */
  function BlockStep(s: Sched, tid: Int32): Outcome {
    var t := AsSizeT(tid);
    if t !in s.threads || tid == 0 then Outcome(s, Returns(-1))
    else if s.threads[t].state == Ready then
      Outcome(s.(threads := s.threads[t := s.threads[t].(state := Blocked)],
                 blocked := s.blocked + {t},
                 ready := Without(s.ready, t)), Returns(0))
    else Outcome(s, Returns(0))
  }

  /** `uthread_resume`. */
  function ResumeStep(s: Sched, tid: Int32): Outcome {
    var t := AsSizeT(tid);
    if t !in s.threads then Outcome(s, Returns(-1))
    else if s.threads[t].state == Blocked then
      Outcome(MakeReady(s, t).(blocked := s.blocked - {t}), Returns(0))
    else Outcome(s, Returns(0))
  }

  /** A call after which the same thread runs on. */
  function StayStep(s: Sched, c: Call): Outcome {
    match c
    case Spawn(nullEntry) => SpawnStep(s, nullEntry)
    case Terminate(tid) => TerminateStep(s, tid)
    case Block(tid) => BlockStep(s, tid)
    case Resume(tid) => ResumeStep(s, tid)
    case _ => Outcome(s, Returns(-1))
  }

  /** One call, in full: the new state and how the call ends. */
  ghost function Step(s: Sched, c: Call): Outcome
    requires Inv(s) && HasRoom(s, c)
  {
    if Switches(s, c) then
      BeforeDispatchIsSound(s, c);
      Outcome(Dispatch(BeforeDispatch(s, c)), Switched)
    else
      StayStep(s, c)
  }

  // ---------------------------------------------------------------- invariance

  /** What holds whenever `run_next_thread` is reached: it finds a thread to run. */
  ghost predicate CanDispatch(s: Sched) {
    && Consistent(s)
    && NoneRunning(s)
    && 1 <= s.total < INT_MAX
    && DeadlinesAhead(s, s.total + 1)
    && s.ready != [] && s.ready[0] in s.threads
  }

  lemma CanDispatchMeans(b: Sched)
    requires CanDispatch(b)
    ensures b.ready != [] && b.ready[0] in b.threads && b.ready[0] !in b.sleeping
  {
    ConsistentMeans(b);
    assert b.ready[0] in b.ready;
  }

  lemma InitInv()
    ensures Inv(Init())
  {
  }

  /** Waking up keeps the containers in agreement and moves every deadline ahead. */
  lemma WakeIsSound(s: Sched)
    requires Consistent(s) && 1 <= s.total < INT_MAX
    requires forall t :: t in s.sleeping ==> s.total < s.sleeping[t] < 0x1_0000_0000
    ensures Consistent(Wake(s))
    ensures DeadlinesAhead(Wake(s), s.total + 1)
  {
    hide Due, Ascending;
    ConsistentMeans(s);
    var w, soon := Wake(s), s.total + 1;
    forall t: nat
      ensures AgreesOn(w, t)
    {
    }
    forall t: nat
      ensures DeadlineAhead(w, t, soon)
    {
      if t in s.sleeping {
        DueMeans(s.sleeping[t], s.total);
        assert t in w.sleeping ==> !Due(s.sleeping[t], s.total);
      }
    }
    AppendKeepsNoDuplicates(s.ready, Ascending(Woken(s)));
  }

  lemma LeaveIsSound(s: Sched, c: Call)
    requires Inv(s) && HasRoom(s, c) && Switches(s, c) && c != Tick
    ensures Consistent(Leave(s, c)) && NoneRunning(Leave(s, c))
    ensures Leave(s, c).total == s.total
    ensures forall t :: t in Leave(s, c).sleeping ==> s.total < Leave(s, c).sleeping[t] < 0x1_0000_0000
  {
    InvMeans(s);
  }

  lemma RequeueIsSound(s: Sched, t: nat)
    requires Consistent(s) && t in s.threads && s.threads[t].state == Running && t !in s.sleeping
    requires forall x :: x in s.threads ==> (s.threads[x].state == Running <==> x == t)
    ensures Consistent(MakeReady(s, t)) && NoneRunning(MakeReady(s, t))
  {
    ConsistentMeans(s);
    AppendKeepsNoDuplicates(s.ready, [t]);
  }

  lemma RequeueKeepsSleepers(s: Sched, t: nat, now: int)
    requires t in s.threads && DeadlinesAhead(s, now)
    ensures DeadlinesAhead(MakeReady(s, t), now)
  {
    forall x: nat
      ensures DeadlineAhead(MakeReady(s, t), x, now)
    {
      assert DeadlineAhead(s, x, now);
    }
  }

  lemma WakeKeepsThreads(s: Sched)
    ensures Wake(s).threads == s.threads && Wake(s).running == s.running && Wake(s).total == s.total
    ensures Wake(s).sleeping.Keys <= s.sleeping.Keys
    ensures NoneRunning(s) ==> NoneRunning(Wake(s))
  {
    if NoneRunning(s) {
      forall t: nat
        ensures !MarkedRunning(Wake(s), t)
      {
        assert !MarkedRunning(s, t);
      }
    }
  }

  lemma InvParts(s: Sched)
    requires Inv(s)
    ensures Consistent(s) && 1 <= s.total <= INT_MAX && 0 in s.threads && 0 !in s.sleeping
  {
  }

  /** Thread 0 is always either running or queued. */
  lemma MainIsQueued(s: Sched)
    requires Consistent(s) && NoneRunning(s)
    ensures 0 in s.ready && s.ready[0] in s.threads
  {
    ConsistentMeans(s);
    assert !MarkedRunning(s, 0);
    assert 0 in s.ready;
  }

  /** At every call of `run_next_thread` the queue is not empty. */
  lemma BeforeDispatchIsSound(s: Sched, c: Call)
    requires Inv(s) && HasRoom(s, c) && Switches(s, c)
    ensures CanDispatch(BeforeDispatch(s, c))
  {
    hide Consistent, Inv, Wake, Leave, NoneRunning, DeadlinesAhead;
    InvMeans(s);
    InvParts(s);
    if c == Tick {
      WakeIsSound(s);
      WakeKeepsThreads(s);
      RequeueIsSound(Wake(s), s.running);
      RequeueKeepsSleepers(Wake(s), s.running, s.total + 1);
    } else {
      LeaveIsSound(s, c);
      WakeIsSound(Leave(s, c));
      WakeKeepsThreads(Leave(s, c));
    }
    MainIsQueued(BeforeDispatch(s, c));
  }

  lemma DispatchKeepsInv(s: Sched)
    requires CanDispatch(s)
    ensures Inv(Dispatch(s))
  {
    ConsistentMeans(s);
    var d := Dispatch(s);
    assert s.ready == [s.ready[0]] + d.ready;
    forall t: nat
      ensures MarkedRunning(d, t) <==> t == d.running
      ensures DeadlineAhead(d, t, d.total)
    {
      assert !MarkedRunning(s, t) && DeadlineAhead(s, t, s.total + 1);
    }
  }

  lemma SpawnKeepsInv(s: Sched, nullEntry: bool)
    requires Inv(s)
    ensures Inv(SpawnStep(s, nullEntry).state)
  {
    InvMeans(s);
  }

  lemma TerminateKeepsInv(s: Sched, tid: Int32)
    requires Inv(s) && tid != 0 && AsSizeT(tid) != s.running
    ensures Inv(TerminateStep(s, tid).state)
  {
    var s' := TerminateStep(s, tid).state;
    WithoutKeepsNoDuplicates(s.ready, AsSizeT(tid));
    forall t: nat
      ensures AgreesOn(s', t) && (MarkedRunning(s', t) <==> t == s'.running) && DeadlineAhead(s', t, s'.total)
    {
      assert AgreesOn(s, t) && (MarkedRunning(s, t) <==> t == s.running) && DeadlineAhead(s, t, s.total);
    }
  }

  lemma BlockKeepsInv(s: Sched, tid: Int32)
    requires Inv(s) && AsSizeT(tid) != s.running
    ensures Inv(BlockStep(s, tid).state)
  {
    var s' := BlockStep(s, tid).state;
    WithoutKeepsNoDuplicates(s.ready, AsSizeT(tid));
    forall t: nat
      ensures AgreesOn(s', t) && (MarkedRunning(s', t) <==> t == s'.running) && DeadlineAhead(s', t, s'.total)
    {
      assert AgreesOn(s, t) && (MarkedRunning(s, t) <==> t == s.running) && DeadlineAhead(s, t, s.total);
    }
  }

  lemma ResumeKeepsInv(s: Sched, tid: Int32)
    requires Inv(s)
    ensures Inv(ResumeStep(s, tid).state)
  {
    InvMeans(s);
  }

  lemma StepKeepsInv(s: Sched, c: Call)
    requires Inv(s) && Continues(s, c)
    ensures Inv(Step(s, c).state)
  {
    hide Consistent, DeadlinesAhead, SpawnStep, TerminateStep, ResumeStep, Dispatch, BeforeDispatch;
    if Switches(s, c) {
      BeforeDispatchIsSound(s, c);
      DispatchKeepsInv(BeforeDispatch(s, c));
    } else {
      match c {
        case Spawn(nullEntry) => SpawnKeepsInv(s, nullEntry);
        case Terminate(tid) => TerminateKeepsInv(s, tid);
        case Block(tid) =>
          if AsSizeT(tid) != s.running {
            BlockKeepsInv(s, tid);
          }
        case Resume(tid) => ResumeKeepsInv(s, tid);
        case Sleep(_) =>
      }
    }
  }

  /** The state after a call from which the process goes on. */
  ghost function Next(s: Sched, c: Call): (s': Sched)
    requires Inv(s) && Continues(s, c)
    ensures Inv(s')
  {
    StepKeepsInv(s, c);
    Step(s, c).state
  }

  lemma ContinuesMeans(s: Sched, c: Call)
    requires Continues(s, c)
    ensures HasRoom(s, c) && c != Terminate(0)
  {
  }

  lemma NextIsStep(s: Sched, c: Call)
    requires Inv(s) && Continues(s, c)
    ensures Next(s, c) == Step(s, c).state
  {
  }

  /** Every switch ends in `run_next_thread`, called where it finds a thread to run. */
  lemma NextIsDispatch(s: Sched, c: Call)
    requires Inv(s) && Continues(s, c) && Switches(s, c)
    ensures s.running in s.threads && CanDispatch(BeforeDispatch(s, c))
    ensures Next(s, c) == Dispatch(BeforeDispatch(s, c)) && Step(s, c).reply == Switched
  {
    BeforeDispatchIsSound(s, c);
  }

  lemma NextIsStay(s: Sched, c: Call)
    requires Inv(s) && Continues(s, c) && !Switches(s, c)
    ensures Step(s, c) == StayStep(s, c) && Next(s, c) == StayStep(s, c).state
  {
  }

  /** Whoever becomes ready in a switch queues behind those who were. */
  lemma JoinersGoBehind(s: Sched, c: Call)
    requires s.running in s.threads
    ensures s.ready <= BeforeDispatch(s, c).ready
  {
  }

  lemma HeadIsLive(s: Sched, c: Call)
    requires Inv(s) && HasRoom(s, c) && Switches(s, c)
    ensures s.running in s.threads
    ensures var b := BeforeDispatch(s, c); b.ready != [] && b.ready[0] in b.threads
  {
    BeforeDispatchIsSound(s, c);
  }

  lemma IdsAreSmall(s: Sched)
    requires Inv(s)
    ensures forall t :: t in s.threads ==> t < MAX_THREAD_NUM
    ensures s.total <= INT_MAX
  {
    InvMeans(s);
  }
}
