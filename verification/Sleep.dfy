/** How long a sleep lasts, and why blocking a sleeper cannot change it. */
module Sleep {
  import opened Types
  import opened Queues
  import opened Machine
  import opened Runs
  import opened Fairness

  /** The call names thread `t`. */
  predicate Names(c: Call, t: nat) {
    (c.Terminate? || c.Block? || c.Resume?) && AsSizeT(c.tid) == t
  }

  predicate Terminates(c: Call, t: nat) {
    c.Terminate? && AsSizeT(c.tid) == t
  }

  /** The calls meant by `Names`, `Terminates` and `Pulls`, for an id that is not negative. */
  lemma CallsAgainst(c: Call, t: Int32)
    requires t >= 0
    ensures Names(c, t) <==> c == Terminate(t) || c == Block(t) || c == Resume(t)
    ensures Terminates(c, t) <==> c == Terminate(t)
    ensures Pulls(c, t) <==> t != 0 && (c == Terminate(t) || c == Block(t))
  {
  }

  /** `t` is at rest: neither running nor queued. */
  predicate Idle(s: Sched, t: nat) {
    t != s.running && t !in s.ready
  }

  lemma SleeperIsIdle(s: Sched, t: nat)
    requires Inv(s) && (t in s.sleeping || t in s.blocked)
    ensures t in s.threads && t < MAX_THREAD_NUM && Idle(s, t)
    ensures t in s.blocked <==> s.threads[t].state == Blocked
    ensures t !in s.blocked <==> s.threads[t].state == Ready
    ensures t in s.sleeping ==> s.total < s.sleeping[t]
  {
    InvMeans(s);
  }

  // ---------------------------------------------------------------- one call

  /**
   * Going to sleep: the entry survives the switch exactly if the deadline fits.
   * Where C++ defines the wake-up test this says: it does for Q + n < INT_MAX and
   * does not for Q + n > INT_MAX. At Q + n == INT_MAX it is the two's-complement
   * reading of a subtraction that C++ leaves undefined (`WakeTestOverflows`).
   */
  lemma SleepTakesHoldIffItFits(s: Sched, n: Int32)
    requires Inv(s) && s.running != 0 && n > 0 && s.total < INT_MAX
    ensures s.running in Next(s, Sleep(n)).sleeping <==> s.total + n <= INT_MAX
    ensures s.total + n <= INT_MAX ==> Next(s, Sleep(n)).sleeping[s.running] == s.total + n + 1
    ensures s.total + n > INT_MAX ==> !Idle(Next(s, Sleep(n)), s.running)
  {
    var c := Sleep(n);
    NextIsDispatch(s, c);
    DueMeans(s.total + n + 1, s.total);
    hide Inv, Due;
    var b := BeforeDispatch(s, c);
    assert s.running in Leave(s, c).sleeping;
    if s.total + n > INT_MAX {
      assert s.running in Woken(Leave(s, c));
      assert s.running in b.ready;
    }
  }

  // ---------------------------------------------------------------- where the test is defined

  /** The subtraction in the wake-up test leaves the range of `int` for one deadline only. */
  lemma WakeTestOverflows(deadline: nat)
    requires 1 <= deadline < 0x1_0000_0000
    ensures AsInt32(deadline) - 1 < INT_MIN <==> deadline == INT_MAX + 1
  {
    if deadline > INT_MAX {
      assert AsInt32(deadline) == deadline - 0x1_0000_0000;
    }
  }

  /** Every wake-up test on the sleepers of `s` is defined in C++. */
  ghost predicate TestsDefined(s: Sched) {
    forall t :: t in s.sleeping ==> AsInt32(s.sleeping[t]) - 1 >= INT_MIN
  }

  /** The call is not a sleep that takes hold in quantum Q with Q + n == INT_MAX. */
  predicate OffBoundary(s: Sched, c: Call) {
    c.Sleep? && Switches(s, c) ==> s.total + c.quantums != INT_MAX
  }

  ghost predicate RunOffBoundary(s: Sched, cs: seq<Call>)
    requires Inv(s) && IsRun(s, cs)
    decreases cs
  {
    cs == [] || (OffBoundary(s, cs[0]) && RunOffBoundary(Next(s, cs[0]), cs[1..]))
  }

  /** That is: no call of the run is a sleep on the boundary. */
  lemma {:induction false} RunOffBoundaryMeans(s: Sched, cs: seq<Call>)
    requires Inv(s) && IsRun(s, cs)
    ensures RunOffBoundary(s, cs) <==>
            forall i :: 0 <= i < |cs| && cs[i].Sleep? && cs[i].quantums > 0 && After(s, cs, i).running != 0 ==>
              After(s, cs, i).total + cs[i].quantums != INT_MAX
    decreases cs
  {
    hide Inv, Next, Continues, After;
    AfterEnds(s, cs);
    if cs != [] {
      var s', rest := Next(s, cs[0]), cs[1..];
      RunOffBoundaryMeans(s', rest);
      assert forall i :: 0 <= i < |rest| ==> rest[i] == cs[i + 1];
      forall i | 0 < i < |cs|
        ensures After(s, cs, i) == After(s', rest, i - 1) && cs[i] == rest[i - 1]
      {
        AfterFirst(s, cs, i);
      }
    }
  }

  /** No call but a sleep adds an entry, and no call changes one. */
  lemma EntriesComeFromSleeps(s: Sched, c: Call, t: nat)
    requires Inv(s) && Continues(s, c) && t in Next(s, c).sleeping
    ensures if t == s.running && c.Sleep? && Switches(s, c)
            then Next(s, c).sleeping[t] == s.total + c.quantums + 1
            else t in s.sleeping && Next(s, c).sleeping[t] == s.sleeping[t]
  {
    hide Inv, Next, Due;
    if Switches(s, c) {
      NextIsDispatch(s, c);
      NotAsleepWhileRunning(s);
    } else {
      NextIsStay(s, c);
    }
  }

  lemma NotAsleepWhileRunning(s: Sched)
    requires Inv(s)
    ensures s.running !in s.sleeping
    ensures forall t :: t in s.sleeping ==> 1 <= s.sleeping[t] <= INT_MAX + 1
  {
    InvMeans(s);
  }

  /**
   * A switching call evaluates the test on the sleepers it leaves for the wake-up
   * loop: all of these tests are defined if and only if the call is off the boundary.
   */
  lemma DefinedIffOffBoundary(s: Sched, c: Call)
    requires Inv(s) && Continues(s, c) && TestsDefined(s)
    ensures s.running in s.threads && (Switches(s, c) ==> (TestsDefined(Leave(s, c)) <==> OffBoundary(s, c)))
    ensures OffBoundary(s, c) ==> TestsDefined(Next(s, c))
  {
    hide Inv, Next, AsInt32;
    InvMeans(s);
    if c.Sleep? && Switches(s, c) {
      WakeTestOverflows(s.total + c.quantums + 1);
      assert s.running in Leave(s, c).sleeping;
    }
    if OffBoundary(s, c) {
      forall t | t in Next(s, c).sleeping
        ensures AsInt32(Next(s, c).sleeping[t]) - 1 >= INT_MIN
      {
        EntriesComeFromSleeps(s, c, t);
      }
    }
  }

  /** A run off the boundary never meets the undefined subtraction. */
  lemma {:induction false} RunOffBoundaryIsDefined(s: Sched, cs: seq<Call>)
    requires Inv(s) && IsRun(s, cs) && TestsDefined(s) && RunOffBoundary(s, cs)
    ensures TestsDefined(Run(s, cs))
    decreases cs
  {
    hide Inv, Next, Continues, OffBoundary, TestsDefined;
    if cs != [] {
      DefinedIffOffBoundary(s, cs[0]);
      RunOffBoundaryIsDefined(Next(s, cs[0]), cs[1..]);
    }
  }

  // ---------------------------------------------------------------- one call on a sleeper

  /** What any other thread's call, or a tick, does to a sleeping thread. */
  lemma SleeperStep(s: Sched, c: Call, t: nat)
    requires Inv(s) && Continues(s, c) && t in s.sleeping && !Terminates(c, t)
    ensures var s' := Next(s, c);
            if Switches(s, c) && s.sleeping[t] == s.total + 1
            then t !in s'.sleeping && (t in s'.blocked <==> t in s.blocked) && (t in s'.blocked <==> Idle(s', t))
            else t in s'.sleeping && s'.sleeping[t] == s.sleeping[t]
  {
    hide Inv, Next;
    SleeperIsIdle(s, t);
    if Switches(s, c) {
      SwitchAndSleeper(s, c, t);
    } else {
      NextIsStay(s, c);
    }
  }

  lemma SwitchAndSleeper(s: Sched, c: Call, t: nat)
    requires Inv(s) && Continues(s, c) && t in s.sleeping && Switches(s, c)
    ensures var s' := Next(s, c);
            if s.sleeping[t] == s.total + 1
            then t !in s'.sleeping && (t in s'.blocked <==> t in s.blocked) && (t in s'.blocked <==> Idle(s', t))
            else t in s'.sleeping && s'.sleeping[t] == s.sleeping[t]
  {
    InvMeans(s);
    SleeperIsIdle(s, t);
    NextIsDispatch(s, c);
    DueMeans(s.sleeping[t], s.total);
    assert s.sleeping[t] <= INT_MAX + 1;
    hide Inv, Due, CanDispatch;
    var b := BeforeDispatch(s, c);
    assert t in b.threads && b.threads[t].state == s.threads[t].state;
    assert t in b.sleeping <==> !Due(s.sleeping[t], s.total);
    if Due(s.sleeping[t], s.total) && t !in s.blocked {
      assert t in Woken(Leave(s, c));
      assert t in b.ready;
    }
    if Due(s.sleeping[t], s.total) && t in s.blocked {
      SleeperIsIdle(Next(s, c), t);
    }
  }

  // ---------------------------------------------------------------- whole runs

  /** Whatever else is called, a sleeper keeps its entry until its last quantum ends. */
  lemma {:induction false} SleeperStaysAsleep(s: Sched, cs: seq<Call>, t: nat)
    requires Inv(s) && IsRun(s, cs) && t in s.sleeping
    requires forall c :: c in cs ==> !Terminates(c, t)
    requires Run(s, cs).total < s.sleeping[t]
    ensures t in Run(s, cs).sleeping && Run(s, cs).sleeping[t] == s.sleeping[t]
    decreases cs
  {
    hide Inv, Next, Continues, Switches;
    if cs != [] {
      SleeperStep(s, cs[0], t);
      OneStepTotal(s, cs[0]);
      TotalCountsSwitches(Next(s, cs[0]), cs[1..]);
      SleeperStaysAsleep(Next(s, cs[0]), cs[1..], t);
    }
  }

  /**
   * Exact sleep, first half. A thread that sleeps for n quanta from quantum Q is
   * neither running nor queued in any of the quanta Q+1 .. Q+n, whatever is called
   * in them short of terminating it.
   */
  lemma SleepsThroughItsQuanta(s: Sched, n: Int32, cs: seq<Call>)
    requires Inv(s) && s.running != 0 && n > 0 && s.total + n <= INT_MAX
    requires Continues(s, Sleep(n)) && IsRun(Next(s, Sleep(n)), cs)
    requires forall c :: c in cs ==> !Terminates(c, s.running)
    requires Run(Next(s, Sleep(n)), cs).total <= s.total + n
    ensures var s' := Run(Next(s, Sleep(n)), cs);
            && s.total + 1 <= s'.total
            && s.running in s'.sleeping && s'.sleeping[s.running] == s.total + n + 1
            && Idle(s', s.running)
  {
    hide Inv, Next;
    var s1 := Next(s, Sleep(n));
    SleepTakesHoldIffItFits(s, n);
    OneStepTotal(s, Sleep(n));
    TotalCountsSwitches(s1, cs);
    SleeperStaysAsleep(s1, cs, s.running);
    SleeperIsIdle(Run(s1, cs), s.running);
  }

  /**
   * So it is in every state along the way: after any i calls of any run, while
   * quantum Q+n is not over, the thread is idle and keeps its entry.
   */
  lemma SleepsInEveryState(s: Sched, n: Int32, cs: seq<Call>, i: nat)
    requires Inv(s) && s.running != 0 && n > 0 && s.total + n <= INT_MAX
    requires Continues(s, Sleep(n)) && IsRun(Next(s, Sleep(n)), cs)
    requires i <= |cs| && forall c :: c in cs[..i] ==> !Terminates(c, s.running)
    ensures var s' := After(Next(s, Sleep(n)), cs, i);
            s'.total <= s.total + n ==>
              && s.running in s'.sleeping && s'.sleeping[s.running] == s.total + n + 1
              && Idle(s', s.running)
  {
    hide Inv, Next, Idle;
    var s1 := Next(s, Sleep(n));
    assert cs == cs[..i] + cs[i..];
    RunSplit(s1, cs[..i], cs[i..]);
    if After(s1, cs, i).total <= s.total + n {
      SleepsThroughItsQuanta(s, n, cs[..i]);
    }
  }

  /**
   * The switch that ends a sleeper's last quantum erases its entry. An unblocked
   * thread then joins behind all who were queued (and runs at once if nobody
   * was); a blocked one stays idle.
   */
  lemma SleeperWakesOnTime(s: Sched, cs: seq<Call>, t: nat, c: Call)
    requires Inv(s) && IsRun(s, cs) && t in s.sleeping
    requires forall c' :: c' in cs ==> !Terminates(c', t)
    requires Run(s, cs).total + 1 == s.sleeping[t]
    requires Continues(Run(s, cs), c) && Switches(Run(s, cs), c)
    ensures var before := Run(s, cs);
            var after := Next(before, c);
            && after.total == s.sleeping[t]
            && t !in after.sleeping
            && (t in after.blocked <==> t in before.blocked)
            && (t in after.blocked <==> Idle(after, t))
            && t !in before.ready && before.ready <= [after.running] + after.ready
  {
    hide Inv, Next, Run, IsRun;
    var before := Run(s, cs);
    SleeperStaysAsleep(s, cs, t);
    SleeperIsIdle(before, t);
    SwitchAndSleeper(before, c, t);
    OneStepTotal(before, c);
    SwitchIsFifo(before, c);
  }

  /**
   * Exact sleep, second half: all of this happens at the switch that ends
   * quantum Q+n.
   */
  lemma SleepEndsOnTime(s: Sched, n: Int32, cs: seq<Call>, c: Call)
    requires Inv(s) && s.running != 0 && n > 0 && s.total + n <= INT_MAX
    requires Continues(s, Sleep(n)) && IsRun(Next(s, Sleep(n)), cs)
    requires forall c' :: c' in cs ==> !Terminates(c', s.running)
    requires Run(Next(s, Sleep(n)), cs).total == s.total + n
    requires Continues(Run(Next(s, Sleep(n)), cs), c) && Switches(Run(Next(s, Sleep(n)), cs), c)
    ensures var t, before := s.running, Run(Next(s, Sleep(n)), cs);
            var after := Next(before, c);
            && after.total == s.total + n + 1
            && t !in after.sleeping
            && (t in after.blocked <==> t in before.blocked)
            && (t in after.blocked <==> Idle(after, t))
            && t !in before.ready && before.ready <= [after.running] + after.ready
  {
    hide Inv, Next, Run, IsRun, Idle;
    SleepTakesHoldIffItFits(s, n);
    SleeperWakesOnTime(Next(s, Sleep(n)), cs, s.running, c);
  }

  /**
   * A thread that is awake and unblocked, and that nobody then blocks or
   * terminates, runs now or in one of the next MAX_THREAD_NUM - 1 quanta.
   */
  lemma AwakeRunsSoon(s: Sched, ds: seq<Call>, t: nat)
    requires Inv(s) && IsRun(s, ds) && !Idle(s, t) && Undisturbed(s, ds, t)
    requires |Dispatched(s, ds)| >= MAX_THREAD_NUM - 1
    ensures t == s.running || t in Dispatched(s, ds)[..MAX_THREAD_NUM - 1]
  {
    hide Inv, IsRun, Dispatched, Undisturbed;
    if t != s.running {
      var k :| 0 <= k < |s.ready| && s.ready[k] == t;
      QueueIsShort(s);
      BoundedWait(s, ds, t, k);
      InLongerPrefix(Dispatched(s, ds), t, k + 1, MAX_THREAD_NUM - 1);
    }
  }

  /**
   * From the call to the processor: an unblocked sleeper that nobody then blocks
   * or terminates runs in quantum Q+n+1 or in one of the MAX_THREAD_NUM - 1 after it.
   */
  lemma SleeperRunsSoon(s: Sched, n: Int32, cs: seq<Call>, c: Call, after: Sched, ds: seq<Call>)
    requires Inv(s) && s.running != 0 && n > 0 && s.total + n <= INT_MAX
    requires Continues(s, Sleep(n)) && IsRun(Next(s, Sleep(n)), cs)
    requires forall c' :: c' in cs ==> !Terminates(c', s.running)
    requires Run(Next(s, Sleep(n)), cs).total == s.total + n
    requires s.running !in Run(Next(s, Sleep(n)), cs).blocked
    requires Continues(Run(Next(s, Sleep(n)), cs), c) && Switches(Run(Next(s, Sleep(n)), cs), c)
    requires after == Next(Run(Next(s, Sleep(n)), cs), c)
    requires IsRun(after, ds) && Undisturbed(after, ds, s.running)
    requires |Dispatched(after, ds)| >= MAX_THREAD_NUM - 1
    ensures after.total == s.total + n + 1
    ensures s.running == after.running || s.running in Dispatched(after, ds)[..MAX_THREAD_NUM - 1]
  {
    hide *;
    SleepEndsOnTime(s, n, cs, c);
    AwakeRunsSoon(after, ds, s.running);
  }

  lemma InLongerPrefix(q: seq<nat>, t: nat, a: nat, b: nat)
    requires a <= b <= |q| && t in q[..a]
    ensures t in q[..b]
  {
    var i :| 0 <= i < a && q[..a][i] == t;
    assert q[..b][i] == t;
  }

  /** Blocking is for good until a resume: only `uthread_resume` ends it. */
  lemma {:induction false} BlockedUntilResumed(s: Sched, cs: seq<Call>, t: Int32)
    requires Inv(s) && IsRun(s, cs) && t in s.blocked
    requires forall c :: c in cs ==> !Terminates(c, t) && c != Resume(t)
    ensures t in Run(s, cs).blocked && Idle(Run(s, cs), t)
    ensures t !in s.sleeping ==> t !in Run(s, cs).sleeping
    decreases cs
  {
    hide Inv, Next, Continues, Switches;
    SleeperIsIdle(s, t);
    if cs != [] {
      BlockedStep(s, cs[0], t);
      BlockedUntilResumed(Next(s, cs[0]), cs[1..], t);
    }
  }

  lemma BlockedStep(s: Sched, c: Call, t: Int32)
    requires Inv(s) && Continues(s, c) && t in s.blocked
    requires !Terminates(c, t) && c != Resume(t)
    ensures t in Next(s, c).blocked
    ensures t !in s.sleeping ==> t !in Next(s, c).sleeping
  {
    hide Inv, Next, Due;
    SleeperIsIdle(s, t);
    if Switches(s, c) {
      NextIsDispatch(s, c);
    } else {
      NextIsStay(s, c);
    }
  }

  /** The first resume after the wake-up puts the thread at the end of the queue. */
  lemma ResumeQueuesAwakeThread(s: Sched, t: Int32)
    requires Inv(s) && t in s.blocked
    ensures Next(s, Resume(t)).ready == if t in s.sleeping then s.ready else s.ready + [t]
    ensures Next(s, Resume(t)).sleeping == s.sleeping && t !in Next(s, Resume(t)).blocked
  {
    InvMeans(s);
  }

  /**
   * A thread that is awake but blocked stays out of the queue until the first
   * resume, and that resume puts it at the end.
   */
  lemma FirstResumeQueues(s: Sched, cs: seq<Call>, t: Int32)
    requires Inv(s) && IsRun(s, cs) && t in s.blocked && t !in s.sleeping
    requires forall c :: c in cs ==> !Terminates(c, t) && c != Resume(t)
    ensures Idle(Run(s, cs), t)
    ensures Continues(Run(s, cs), Resume(t))
    ensures Next(Run(s, cs), Resume(t)).ready == Run(s, cs).ready + [t]
  {
    hide Inv, Next;
    BlockedUntilResumed(s, cs, t);
    ResumeQueuesAwakeThread(Run(s, cs), t);
  }

  /** Blocking a queued thread and resuming it costs it its place, and nothing else. */
  lemma BlockResumeMovesToBack(s: Sched, t: Int32)
    requires Inv(s) && t in s.ready && t != 0
    ensures Continues(s, Block(t)) && Continues(Next(s, Block(t)), Resume(t))
    ensures Next(Next(s, Block(t)), Resume(t)) == s.(ready := Without(s.ready, t) + [t])
  {
    hide Inv, Next;
    QueuedIsReady(s, t);
    NextIsStay(s, Block(t));
    var s' := Next(s, Block(t));
    NextIsStay(s', Resume(t));
  }

  lemma QueuedIsReady(s: Sched, t: nat)
    requires Inv(s) && t in s.ready
    ensures t in s.threads && s.threads[t].state == Ready && t !in s.sleeping && t !in s.blocked && t != s.running
  {
    InvMeans(s);
  }

  // ---------------------------------------------------------------- overflow

  lemma ExampleTwoThreads()
    ensures Inv(Init()) && Continues(Init(), Spawn(false))
    ensures Next(Init(), Spawn(false)) == Sched(map[0 := Tcb(Running, 1), 1 := Tcb(Ready, 0)], [1], {}, map[], 0, 1)
  {
    InitInv();
    hide Inv;
    assert FirstFree(Init().threads.Keys, 0) == FirstFree(Init().threads.Keys, 1) == 1;
  }

  lemma ExampleTick(s: Sched)
    requires Inv(s) && s == Sched(map[0 := Tcb(Running, 1), 1 := Tcb(Ready, 0)], [1], {}, map[], 0, 1)
    ensures Next(s, Tick) == Sched(map[0 := Tcb(Ready, 1), 1 := Tcb(Running, 1)], [0], {}, map[], 1, 2)
  {
    hide Inv, CanDispatch, Next, Continues, Due;
    NextIsDispatch(s, Tick);
    assert DueThreads(s) == {} && Woken(s) == {};
    assert Wake(s) == s;
    var b := MakeReady(s, 0);
    assert b.ready == [1, 0] && b.ready[1..] == [0];
    assert b.threads == map[0 := Tcb(Ready, 1), 1 := Tcb(Ready, 0)];
  }

  /** A reachable sleep call whose deadline overflows: the thread is queued again at once. */
  lemma OverflowingSleepExample()
    ensures Inv(Init()) && IsRun(Init(), [Spawn(false), Tick])
    ensures var s := Run(Init(), [Spawn(false), Tick]);
            && s.running == 1 && s.total == 2 && Continues(s, Sleep(INT_MAX))
            && 1 !in Next(s, Sleep(INT_MAX)).sleeping
            && 1 in Next(s, Sleep(INT_MAX)).ready
  {
    hide Inv, Next, Step;
    ExampleTwoThreads();
    var s1 := Next(Init(), Spawn(false));
    ExampleTick(s1);
    var s2 := Next(s1, Tick);
    OneCallRun(Init(), Spawn(false));
    OneCallRun(s1, Tick);
    RunConcat(Init(), [Spawn(false)], [Tick]);
    assert [Spawn(false)] + [Tick] == [Spawn(false), Tick];
    SleepTakesHoldIffItFits(s2, INT_MAX);
    SwitchIsFifo(s2, Sleep(INT_MAX));
    var s3 := Next(s2, Sleep(INT_MAX));
    assert s2.ready[0] == ([s3.running] + s3.ready)[0];
  }

  // ---------------------------------------------------------------- non-interference

  /** `s` with thread `t` marked blocked and nothing else changed. */
  ghost function Marked(s: Sched, t: nat): Sched
    requires t in s.threads
  {
    s.(threads := s.threads[t := s.threads[t].(state := Blocked)], blocked := s.blocked + {t})
  }

  lemma MarkedInv(s: Sched, t: nat)
    requires Inv(s) && t in s.threads && t in s.sleeping
    ensures Inv(Marked(s, t))
  {
    InvMeans(s);
  }

  /** Blocking a sleeper marks it, and resuming it before its deadline removes the mark. */
  lemma BlockMarks(s: Sched, t: Int32)
    requires Inv(s) && t in s.threads && t in s.sleeping && t !in s.blocked
    ensures Continues(s, Block(t)) && !Switches(s, Block(t)) && Next(s, Block(t)) == Marked(s, t)
    ensures Step(s, Block(t)).reply == Returns(0)
    ensures Inv(Marked(s, t)) && Step(Marked(s, t), Resume(t)).reply == Returns(0)
    ensures !Switches(Marked(s, t), Resume(t))
    ensures Continues(Marked(s, t), Resume(t)) && Next(Marked(s, t), Resume(t)) == s
  {
    SleeperIsIdle(s, t);
    assert 0 !in s.sleeping;
    MarkedInv(s, t);
    hide Inv;
  }

  /** The mark stays out of the way of every call that does not name the sleeper. */
  lemma MarkedStep(s: Sched, c: Call, t: nat)
    requires Inv(s) && t in s.threads && t in s.sleeping && t !in s.blocked && Inv(Marked(s, t))
    requires Continues(s, c) && !Names(c, t)
    requires Switches(s, c) ==> s.total + 1 < s.sleeping[t]
    ensures Continues(Marked(s, t), c) && (Switches(Marked(s, t), c) <==> Switches(s, c))
    ensures t in Next(s, c).threads
    ensures Next(Marked(s, t), c) == Marked(Next(s, c), t)
    ensures Step(Marked(s, t), c).reply == Step(s, c).reply
  {
    hide Inv, Next, Step;
    SleeperIsIdle(s, t);
    if Switches(s, c) {
      MarkedSwitch(s, c, t);
      NextIsDispatch(s, c);
      NextIsDispatch(Marked(s, t), c);
    } else {
      NextIsStay(s, c);
      NextIsStay(Marked(s, t), c);
      MarkedStay(s, c, t);
    }
  }

  lemma MarkedStay(s: Sched, c: Call, t: nat)
    requires t in s.threads && !Names(c, t) && c != Terminate(0)
    ensures var m, o := StayStep(Marked(s, t), c), StayStep(s, c);
            t in o.state.threads && m.state == Marked(o.state, t) && m.reply == o.reply
  {
    hide TerminateStep, BlockStep, ResumeStep;
    assert Marked(s, t).threads.Keys == s.threads.Keys;
    match c {
      case Terminate(tid) => MarkedTerminate(s, tid, t);
      case Block(tid) => MarkedBlock(s, tid, t);
      case Resume(tid) => MarkedResume(s, tid, t);
      case _ =>
    }
  }

  lemma MarkedTerminate(s: Sched, tid: Int32, t: nat)
    requires t in s.threads && tid != 0 && AsSizeT(tid) != t
    ensures var m, o := TerminateStep(Marked(s, t), tid), TerminateStep(s, tid);
            t in o.state.threads && m.state == Marked(o.state, t) && m.reply == o.reply
  {
  }

  lemma MarkedBlock(s: Sched, tid: Int32, t: nat)
    requires t in s.threads && AsSizeT(tid) != t
    ensures var m, o := BlockStep(Marked(s, t), tid), BlockStep(s, tid);
            t in o.state.threads && m.state == Marked(o.state, t) && m.reply == o.reply
  {
  }

  lemma MarkedResume(s: Sched, tid: Int32, t: nat)
    requires t in s.threads && AsSizeT(tid) != t
    ensures var m, o := ResumeStep(Marked(s, t), tid), ResumeStep(s, tid);
            t in o.state.threads && m.state == Marked(o.state, t) && m.reply == o.reply
  {
  }

  lemma MarkedWake(s: Sched, t: nat)
    requires t in s.threads && t in s.sleeping && !Due(s.sleeping[t], s.total)
    ensures Wake(Marked(s, t)) == Marked(Wake(s), t)
  {
    assert DueThreads(Marked(s, t)) == DueThreads(s);
    assert Woken(Marked(s, t)) == Woken(s);
  }

  lemma MarkedLeave(s: Sched, c: Call, t: nat)
    requires s.running in s.threads && t in s.threads && t in s.sleeping && t != s.running
    ensures t in Leave(s, c).threads && t in Leave(s, c).sleeping
    ensures Leave(s, c).sleeping[t] == s.sleeping[t] && Leave(s, c).total == s.total
    ensures Leave(Marked(s, t), c) == Marked(Leave(s, c), t)
  {
    var r := s.running;
    match c {
      case Terminate(_) => assert Marked(s, t).threads - {r} == Marked(Leave(s, c), t).threads;
      case Block(_) => assert Leave(Marked(s, t), c).blocked == Marked(Leave(s, c), t).blocked;
      case _ =>
    }
  }

  lemma MarkedMakeReady(s: Sched, r: nat, t: nat)
    requires r in s.threads && t in s.threads && r != t
    ensures MakeReady(Marked(s, t), r) == Marked(MakeReady(s, r), t)
  {
  }

  lemma MarkedBeforeDispatch(s: Sched, c: Call, t: nat)
    requires s.running in s.threads && t in s.threads && t in s.sleeping && t != s.running
    requires !Due(s.sleeping[t], s.total)
    ensures t in BeforeDispatch(s, c).threads
    ensures BeforeDispatch(Marked(s, t), c) == Marked(BeforeDispatch(s, c), t)
  {
    hide Due, Woken, DueThreads, Leave;
    if c == Tick {
      MarkedWake(s, t);
      MarkedMakeReady(Wake(s), s.running, t);
    } else {
      MarkedLeave(s, c, t);
      MarkedWake(Leave(s, c), t);
    }
  }

  lemma MarkedDispatch(s: Sched, t: nat)
    requires s.ready != [] && s.ready[0] in s.threads && t in s.threads && s.ready[0] != t
    ensures t in Dispatch(s).threads
    ensures Dispatch(Marked(s, t)) == Marked(Dispatch(s), t)
  {
  }

  lemma MarkedSwitch(s: Sched, c: Call, t: nat)
    requires Inv(s) && t in s.threads && t in s.sleeping && t !in s.blocked && Inv(Marked(s, t))
    requires Continues(s, c) && Switches(s, c) && s.total + 1 < s.sleeping[t]
    ensures t in Next(s, c).threads
    ensures Next(Marked(s, t), c) == Marked(Next(s, c), t)
  {
    hide Inv, Next, Due, BeforeDispatch, Dispatch, CanDispatch;
    SleeperIsIdle(s, t);
    NextIsDispatch(s, c);
    NextIsDispatch(Marked(s, t), c);
    DeadlineFits(s, t);
    DueMeans(s.sleeping[t], s.total);
    MarkedBeforeDispatch(s, c, t);
    HeadIsAwake(s, c, t);
    MarkedDispatch(BeforeDispatch(s, c), t);
  }

  lemma DeadlineFits(s: Sched, t: nat)
    requires Inv(s) && t in s.sleeping
    ensures 1 <= s.total < s.sleeping[t] <= INT_MAX + 1
  {
    InvMeans(s);
  }

  lemma HeadIsAwake(s: Sched, c: Call, t: nat)
    requires Inv(s) && Continues(s, c) && Switches(s, c)
    requires t in s.sleeping && !Due(s.sleeping[t], s.total)
    ensures var b := BeforeDispatch(s, c);
            b.ready != [] && b.ready[0] in b.threads && b.ready[0] != t
  {
    hide Inv, Due, CanDispatch;
    SleeperIsIdle(s, t);
    NextIsDispatch(s, c);
    var b := BeforeDispatch(s, c);
    CanDispatchMeans(b);
    assert t in b.sleeping;
  }

  lemma SleeperUnblocked(s: Sched, c: Call, t: nat)
    requires Inv(s) && Continues(s, c) && !Names(c, t) && t in s.sleeping && t !in s.blocked
    requires t in Next(s, c).sleeping
    ensures t !in Next(s, c).blocked
  {
    hide Inv, Next, Due;
    SleeperIsIdle(s, t);
    if Switches(s, c) {
      NextIsDispatch(s, c);
    } else {
      NextIsStay(s, c);
    }
  }

  lemma {:induction false} MarkedRun(s: Sched, cs: seq<Call>, t: nat)
    requires Inv(s) && IsRun(s, cs) && t in s.threads && t in s.sleeping && t !in s.blocked && Inv(Marked(s, t))
    requires forall c :: c in cs ==> !Names(c, t)
    requires Run(s, cs).total < s.sleeping[t]
    ensures t in Run(s, cs).threads && t in Run(s, cs).sleeping && t !in Run(s, cs).blocked
    ensures IsRun(Marked(s, t), cs) && Run(Marked(s, t), cs) == Marked(Run(s, cs), t)
    ensures Dispatched(Marked(s, t), cs) == Dispatched(s, cs)
    ensures Replies(Marked(s, t), cs) == Replies(s, cs)
    decreases cs
  {
    hide Inv, Next, Continues, Switches, Step;
    if cs != [] {
      var s' := Next(s, cs[0]);
      OneStepTotal(s, cs[0]);
      TotalCountsSwitches(s', cs[1..]);
      assert cs[0] in cs;
      SleeperStep(s, cs[0], t);
      MarkedStep(s, cs[0], t);
      SleeperUnblocked(s, cs[0], t);
      MarkedRun(s', cs[1..], t);
    }
  }

  /**
   * Non-interference: blocking a sleeping thread and resuming it before its
   * deadline leaves no trace. The run between dispatches the same threads, its
   * calls get the same replies, and the states after the resume are equal.
   */
  lemma BlockResumeLeavesNoTrace(s: Sched, cs: seq<Call>, t: Int32)
    requires Inv(s) && IsRun(s, cs) && t in s.sleeping && t !in s.blocked
    requires forall c :: c in cs ==> !Names(c, t)
    requires Run(s, cs).total < s.sleeping[t]
    ensures IsRun(s, [Block(t)] + cs + [Resume(t)])
    ensures Run(s, [Block(t)] + cs + [Resume(t)]) == Run(s, cs)
    ensures Dispatched(s, [Block(t)] + cs + [Resume(t)]) == Dispatched(s, cs)
    ensures Replies(s, [Block(t)] + cs + [Resume(t)]) == [Returns(0)] + Replies(s, cs) + [Returns(0)]
  {
    hide Inv, Next, Continues, Switches, Step;
    SleeperIsIdle(s, t);
    BlockMarks(s, t);
    OneCallRun(s, Block(t));
    MarkedRun(s, cs, t);
    SleeperStaysAsleep(s, cs, t);
    RunConcat(s, [Block(t)], cs);
    TraceConcat(s, [Block(t)], cs);
    var s' := Run(s, cs);
    SleeperIsIdle(s', t);
    BlockMarks(s', t);
    OneCallRun(Marked(s', t), Resume(t));
    RunConcat(s, [Block(t)] + cs, [Resume(t)]);
    TraceConcat(s, [Block(t)] + cs, [Resume(t)]);
  }
}
