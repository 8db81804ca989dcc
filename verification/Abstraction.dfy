/**
 * What the scheduler means: one status per live thread and one queue. The
 * containers of the implementation are a redundant form of it, and the casts
 * and inequalities of the wake-up loop come down to one equation.
 */
module Abstraction {
  import opened Types
  import opened Queues
  import opened Machine
  import opened Runs

  datatype Status = IsRunning | IsReady | Sleeping(until: nat) | IsBlocked | BlockedSleeping(until: nat)

  datatype Abstract = Abstract(status: map<nat, Status>, queue: seq<nat>, current: nat, now: nat)

  // ---------------------------------------------------------------- the abstract machine

  /** Time reaches the quantum in which `st` sleeps no longer. */
  function Roused(st: Status, quantum: nat): Status {
    match st
    case Sleeping(w) => if w == quantum then IsReady else st
    case BlockedSleeping(w) => if w == quantum then IsBlocked else st
    case _ => st
  }

  function RousedAll(status: map<nat, Status>, quantum: nat): map<nat, Status> {
    map t | t in status :: Roused(status[t], quantum)
  }

  ghost function Risers(status: map<nat, Status>, quantum: nat): set<nat> {
    set t | t in status && status[t] == Sleeping(quantum)
  }

  /**
   * A new quantum starts: those whose sleep is over queue up in order of id,
   * then `last`, and the head of the queue runs.
   */
  ghost predicate Elapses(a: Abstract, status: map<nat, Status>, also: set<nat>, last: seq<nat>, a': Abstract) {
    && a'.now == a.now + 1
    && [a'.current] + a'.queue == a.queue + Ascending(Risers(status, a.now + 1) + also) + last
    && a'.status == RousedAll(status, a.now + 1)[a'.current := IsRunning]
  }

  ghost predicate IsLowestFree(status: map<nat, Status>, t: nat) {
    t < MAX_THREAD_NUM && t !in status && forall x :: 0 <= x < t ==> x in status
  }

  ghost predicate AbstractSpawn(a: Abstract, nullEntry: bool, a': Abstract) {
    if nullEntry || forall t :: 0 <= t < MAX_THREAD_NUM ==> t in a.status then a' == a
    else exists t :: IsLowestFree(a.status, t) && a' == a.(status := a.status[t := IsReady], queue := a.queue + [t])
  }

  ghost predicate AbstractTerminate(a: Abstract, t: nat, a': Abstract) {
    if t == 0 then a' == a.(status := map[])
    else if t !in a.status then a' == a
    else if t == a.current then Elapses(a, a.status - {t}, {}, [], a')
    else a' == a.(status := a.status - {t}, queue := Without(a.queue, t))
  }

  ghost predicate AbstractBlock(a: Abstract, t: nat, a': Abstract) {
    if t == 0 || t !in a.status then a' == a
    else match a.status[t]
      case IsRunning => Elapses(a, a.status[t := IsBlocked], {}, [], a')
      case IsReady => a' == a.(status := a.status[t := IsBlocked], queue := Without(a.queue, t))
      case Sleeping(w) => a' == a.(status := a.status[t := BlockedSleeping(w)])
      case _ => a' == a
  }

  ghost predicate AbstractResume(a: Abstract, t: nat, a': Abstract) {
    if t !in a.status then a' == a
    else match a.status[t]
      case IsBlocked => a' == a.(status := a.status[t := IsReady], queue := a.queue + [t])
      case BlockedSleeping(w) => a' == a.(status := a.status[t := Sleeping(w)])
      case _ => a' == a
  }

  ghost predicate AbstractSleep(a: Abstract, n: Int32, a': Abstract) {
    if n <= 0 || a.current == 0 then a' == a
    else if a.now + n <= INT_MAX then
      Elapses(a, a.status[a.current := Sleeping(a.now + n + 1)], {}, [], a')
    else
      Elapses(a, a.status[a.current := IsReady], {a.current}, [], a')
  }

  ghost predicate AbstractStep(a: Abstract, c: Call, a': Abstract) {
    match c
    case Tick => Elapses(a, a.status[a.current := IsReady], {}, [a.current], a')
    case Spawn(nullEntry) => AbstractSpawn(a, nullEntry, a')
    case Terminate(tid) => AbstractTerminate(a, AsSizeT(tid), a')
    case Block(tid) => AbstractBlock(a, AsSizeT(tid), a')
    case Resume(tid) => AbstractResume(a, AsSizeT(tid), a')
    case Sleep(n) => AbstractSleep(a, n, a')
  }

  /** How a call ends, told from the statuses alone. */
  ghost predicate AbstractReply(a: Abstract, c: Call, r: Reply) {
    match c
    case Tick => r == Switched
    case Spawn(nullEntry) =>
      if nullEntry || forall t :: 0 <= t < MAX_THREAD_NUM ==> t in a.status then r == Returns(-1)
      else r.Returns? && r.value >= 0 && IsLowestFree(a.status, r.value)
    case Terminate(tid) =>
      r == if tid == 0 then Exits
           else if AsSizeT(tid) !in a.status then Returns(-1)
           else if AsSizeT(tid) == a.current then Switched
           else Returns(0)
    case Block(tid) =>
      r == if tid == 0 || AsSizeT(tid) !in a.status then Returns(-1)
           else if AsSizeT(tid) == a.current then Switched
           else Returns(0)
    case Resume(tid) =>
      r == if AsSizeT(tid) in a.status then Returns(0) else Returns(-1)
    case Sleep(n) =>
      r == if n <= 0 || a.current == 0 then Returns(-1) else Switched
  }

  // ---------------------------------------------------------------- the abstraction

  function StatusOf(s: Sched, t: nat): Status
    requires t in s.threads
  {
    match s.threads[t].state
    case Running => IsRunning
    case Ready => if t in s.sleeping then Sleeping(s.sleeping[t]) else IsReady
    case Blocked => if t in s.sleeping then BlockedSleeping(s.sleeping[t]) else IsBlocked
  }

  function Statuses(s: Sched): map<nat, Status> {
    map t | t in s.threads :: StatusOf(s, t)
  }

  function Meaning(s: Sched): Abstract {
    Abstract(Statuses(s), s.ready, s.running, s.total)
  }

  /** Each container holds exactly the threads of the statuses it stands for. */
  lemma ContainersMatchStatuses(s: Sched, t: nat)
    requires Inv(s)
    ensures t in s.ready <==> t in s.threads && StatusOf(s, t) == IsReady
    ensures t in s.blocked <==> t in s.threads && (StatusOf(s, t).IsBlocked? || StatusOf(s, t).BlockedSleeping?)
    ensures t in s.sleeping <==> t in s.threads && (StatusOf(s, t).Sleeping? || StatusOf(s, t).BlockedSleeping?)
    ensures t in s.sleeping ==> StatusOf(s, t).until == s.sleeping[t]
    ensures t in s.threads ==> (t == s.running <==> StatusOf(s, t) == IsRunning)
  {
    InvMeans(s);
  }

  /** The statuses, the queue and the counts determine every container. */
  lemma MeaningIsFaithful(p: Sched, q: Sched)
    requires Inv(p) && Inv(q) && Meaning(p) == Meaning(q)
    requires forall t :: t in p.threads && t in q.threads ==> p.threads[t].quanta == q.threads[t].quanta
    ensures p == q
  {
    hide Inv;
    assert p.threads.Keys == Statuses(p).Keys == Statuses(q).Keys == q.threads.Keys;
    forall t
      ensures t in p.blocked <==> t in q.blocked
      ensures t in p.sleeping <==> t in q.sleeping
      ensures t in p.sleeping ==> p.sleeping[t] == q.sleeping[t]
      ensures t in p.threads ==> p.threads[t] == q.threads[t]
    {
      ContainersMatchStatuses(p, t);
      ContainersMatchStatuses(q, t);
      if t in p.threads {
        assert StatusOf(p, t) == Statuses(p)[t] == Statuses(q)[t] == StatusOf(q, t);
      }
    }
  }

  // ---------------------------------------------------------------- refinement

  /** With every deadline ahead, being due means being due in the very next quantum. */
  lemma DueMeansNextQuantum(deadline: nat, now: nat)
    requires 1 <= now < deadline < 0x1_0000_0000
    ensures Due(deadline, now) <==> deadline == now + 1 || deadline > INT_MAX + 1
  {
    DueMeans(deadline, now);
  }

  predicate Overflowed(s: Sched, t: nat) {
    t in s.sleeping && s.sleeping[t] > INT_MAX + 1
  }

  /** A sleeper that the wake-up loop can meet: not yet late, and not running. */
  predicate MayWake(s: Sched, t: nat)
    requires t in s.threads
  {
    && 1 <= s.total < INT_MAX
    && (t in s.sleeping ==> s.threads[t].state != Running && s.total < s.sleeping[t] < 0x1_0000_0000)
    && (Overflowed(s, t) ==> s.threads[t].state == Ready)
  }

  /** The wake-up loop as seen in the status of one thread. */
  lemma WakeRousesOne(s: Sched, t: nat)
    requires t in s.threads && MayWake(s, t)
    ensures t in Wake(s).threads
    ensures StatusOf(Wake(s), t) == if Overflowed(s, t) then IsReady else Roused(StatusOf(s, t), s.total + 1)
    ensures t in Woken(s) <==> Overflowed(s, t) || StatusOf(s, t) == Sleeping(s.total + 1)
  {
    if t in s.sleeping {
      DueMeansNextQuantum(s.sleeping[t], s.total);
    }
    hide Due;
  }

  /**
   * The wake-up loop as seen in all the statuses; `status` shows the sleepers
   * whose deadline overflowed (those in `o`) as ready.
   */
  lemma WakeRouses(s: Sched, status: map<nat, Status>, o: set<nat>)
    requires forall t :: t in s.threads ==> MayWake(s, t)
    requires status.Keys == s.threads.Keys && o <= s.threads.Keys
    requires forall t :: t in s.threads ==> (t in o <==> Overflowed(s, t))
    requires forall t :: t in s.threads ==> status[t] == if t in o then IsReady else StatusOf(s, t)
    ensures Woken(s) == Risers(status, s.total + 1) + o
    ensures Statuses(Wake(s)) == RousedAll(status, s.total + 1)
  {
    hide Due, MayWake, Overflowed, StatusOf, DueThreads;
    assert Wake(s).threads == s.threads;
    var risers := Risers(status, s.total + 1) + o;
    forall t | t in s.threads
      ensures t in Woken(s) <==> t in risers
      ensures StatusOf(Wake(s), t) == Roused(status[t], s.total + 1)
    {
      WakeRousesOne(s, t);
    }
    assert Woken(s) <= s.threads.Keys && risers <= s.threads.Keys;
  }

  lemma DispatchRuns(b: Sched)
    requires b.ready != [] && b.ready[0] in b.threads
    requires b.ready[0] !in b.sleeping
    ensures Dispatch(b).total == b.total + 1 && Dispatch(b).running == b.ready[0]
    ensures [Dispatch(b).running] + Dispatch(b).ready == b.ready
    ensures Statuses(Dispatch(b)) == Statuses(b)[b.ready[0] := IsRunning]
  {
  }

  lemma LeaversMayWake(s: Sched, c: Call)
    requires Inv(s) && Continues(s, c) && Switches(s, c)
    ensures s.running in s.threads && s.running !in s.sleeping && (s.running != 0 || c == Tick)
    ensures s.threads[s.running].state == Running
    ensures forall t :: t in Leave(s, c).threads ==> MayWake(Leave(s, c), t)
    ensures forall t :: t in Leave(s, c).sleeping && !(t == s.running && c.Sleep?) ==> !Overflowed(Leave(s, c), t)
  {
    InvMeans(s);
  }

  lemma SwitchRefines(s: Sched, c: Call, status: map<nat, Status>, also: set<nat>, last: seq<nat>)
    requires Inv(s) && Continues(s, c) && Switches(s, c)
    requires s.running in s.threads
    requires BeforeDispatch(s, c).ready == s.ready + Ascending(Risers(status, s.total + 1) + also) + last
    requires Statuses(BeforeDispatch(s, c)) == RousedAll(status, s.total + 1)
    ensures Elapses(Meaning(s), status, also, last, Meaning(Next(s, c)))
  {
    hide Inv, Next, Statuses, Risers, CanDispatch, RousedAll, BeforeDispatch, Dispatch, Switches, Continues, Ascending;
    NextIsDispatch(s, c);
    BeforeDispatchTotal(s, c);
    var b := BeforeDispatch(s, c);
    CanDispatchMeans(b);
    DispatchRuns(b);
  }

  lemma BeforeDispatchTotal(s: Sched, c: Call)
    requires s.running in s.threads
    ensures BeforeDispatch(s, c).total == s.total
  {
  }

  lemma TickRefines(s: Sched)
    requires Inv(s) && Continues(s, Tick)
    ensures AbstractStep(Meaning(s), Tick, Meaning(Next(s, Tick)))
  {
    TickMayWake(s);
    TickElapses(s, Statuses(s)[s.running := IsReady]);
    hide Inv, Next, Elapses, Statuses;
  }

  lemma TickMayWake(s: Sched)
    requires Inv(s) && Continues(s, Tick)
    ensures Switches(s, Tick) && s.running in s.threads && s.running !in s.sleeping
    ensures Statuses(s).Keys == s.threads.Keys
    ensures forall t :: t in s.threads ==> MayWake(s, t) && !Overflowed(s, t) && Statuses(s)[t] == StatusOf(s, t)
    ensures Statuses(s)[s.running] == IsRunning
  {
    InvMeans(s);
  }

  lemma TickElapses(s: Sched, status: map<nat, Status>)
    requires Inv(s) && Continues(s, Tick)
    requires s.running in s.threads && status == Statuses(s)[s.running := IsReady]
    ensures Elapses(Meaning(s), status, {}, [s.running], Meaning(Next(s, Tick)))
  {
    hide *;
    var r := s.running;
    TickMayWake(s);
    WakeRouses(s, Statuses(s), {});
    TickBeforeDispatch(s);
    RequeuedRises(Statuses(s), r, s.total + 1);
    SwitchRefines(s, Tick, status, {}, [r]);
  }

  lemma TickBeforeDispatch(s: Sched)
    requires s.running in s.threads && s.running !in s.sleeping
    ensures BeforeDispatch(s, Tick).ready == s.ready + Ascending(Woken(s)) + [s.running]
    ensures Statuses(BeforeDispatch(s, Tick)) == Statuses(Wake(s))[s.running := IsReady]
  {
  }

  lemma RequeuedRises(status: map<nat, Status>, r: nat, quantum: nat)
    requires r in status && status[r] == IsRunning
    ensures Risers(status[r := IsReady], quantum) + {} == Risers(status, quantum) + {}
    ensures RousedAll(status[r := IsReady], quantum) == RousedAll(status, quantum)[r := IsReady]
  {
  }

  lemma LeavingRefines(s: Sched, c: Call, status: map<nat, Status>, o: set<nat>)
    requires Inv(s) && Continues(s, c) && Switches(s, c) && c != Tick
    requires s.running in s.threads
    requires status.Keys == Leave(s, c).threads.Keys && o <= Leave(s, c).threads.Keys
    requires forall t :: t in Leave(s, c).threads ==> (t in o <==> Overflowed(Leave(s, c), t))
    requires forall t :: t in Leave(s, c).threads ==>
               status[t] == if t in o then IsReady else StatusOf(Leave(s, c), t)
    ensures Elapses(Meaning(s), status, o, [], Meaning(Next(s, c)))
  {
    hide *;
    LeaversMayWake(s, c);
    LeavingQueue(s, c);
    WakeRouses(Leave(s, c), status, o);
    assert BeforeDispatch(s, c).ready == s.ready + Ascending(Risers(status, s.total + 1) + o) + [];
    SwitchRefines(s, c, status, o, []);
  }

  lemma LeavingQueue(s: Sched, c: Call)
    requires s.running in s.threads && c != Tick
    ensures Leave(s, c).total == s.total
    ensures BeforeDispatch(s, c) == Wake(Leave(s, c))
    ensures Wake(Leave(s, c)).ready == s.ready + Ascending(Woken(Leave(s, c)))
  {
  }

  lemma TerminateSelfRefines(s: Sched, c: Call)
    requires Inv(s) && Continues(s, c) && Switches(s, c) && c.Terminate?
    ensures AbstractStep(Meaning(s), c, Meaning(Next(s, c)))
  {
    hide Inv, Next, Due, Continues, MayWake, Elapses;
    LeaversMayWake(s, c);
    LeavingRefines(s, c, Statuses(s) - {s.running}, {});
  }

  lemma BlockSelfRefines(s: Sched, c: Call)
    requires Inv(s) && Continues(s, c) && Switches(s, c) && c.Block?
    ensures AbstractStep(Meaning(s), c, Meaning(Next(s, c)))
  {
    hide Inv, Next, Due, Continues, MayWake, Elapses;
    LeaversMayWake(s, c);
    LeavingRefines(s, c, Statuses(s)[s.running := IsBlocked], {});
  }

  lemma SleepRefines(s: Sched, c: Call)
    requires Inv(s) && Continues(s, c) && Switches(s, c) && c.Sleep?
    ensures AbstractStep(Meaning(s), c, Meaning(Next(s, c)))
  {
    hide Inv, Next, Due, Continues, MayWake, Elapses;
    LeaversMayWake(s, c);
    var r, w := s.running, s.total + AsSizeT(c.quantums) + 1;
    if w <= INT_MAX + 1 {
      LeavingRefines(s, c, Statuses(s)[r := Sleeping(w)], {});
    } else {
      LeavingRefines(s, c, Statuses(s)[r := IsReady], {r});
    }
  }

  lemma StayRefines(s: Sched, c: Call)
    requires Inv(s) && Continues(s, c) && !Switches(s, c)
    ensures AbstractStep(Meaning(s), c, Meaning(Next(s, c)))
  {
    hide Inv, Next;
    NextIsStay(s, c);
    match c {
      case Spawn(nullEntry) => SpawnRefines(s, nullEntry);
      case Terminate(tid) => TerminateRefines(s, tid);
      case Block(tid) => BlockRefines(s, tid);
      case Resume(tid) => ResumeRefines(s, tid);
      case Sleep(_) =>
    }
  }

  lemma SpawnRefines(s: Sched, nullEntry: bool)
    requires Inv(s)
    ensures AbstractSpawn(Meaning(s), nullEntry, Meaning(SpawnStep(s, nullEntry).state))
  {
    hide Inv, FirstFree;
    var a, t := Meaning(s), FirstFree(s.threads.Keys, 0);
    assert a.status.Keys == s.threads.Keys;
    if !nullEntry && t != -1 {
      NewIdIsUnknown(s, t);
      assert IsLowestFree(a.status, t);
      assert Statuses(SpawnStep(s, false).state) == a.status[t as nat := IsReady];
    }
  }

  lemma TerminateRefines(s: Sched, tid: Int32)
    requires Inv(s) && tid != 0 && AsSizeT(tid) != s.running
    ensures AbstractTerminate(Meaning(s), AsSizeT(tid), Meaning(TerminateStep(s, tid).state))
  {
    hide Inv, Elapses;
    ContainersMatchStatuses(s, AsSizeT(tid));
  }

  lemma BlockRefines(s: Sched, tid: Int32)
    requires Inv(s) && (tid == 0 || AsSizeT(tid) != s.running)
    ensures AbstractBlock(Meaning(s), AsSizeT(tid), Meaning(BlockStep(s, tid).state))
  {
    hide Inv, Elapses;
    ContainersMatchStatuses(s, AsSizeT(tid));
  }

  lemma ResumeRefines(s: Sched, tid: Int32)
    requires Inv(s)
    ensures AbstractResume(Meaning(s), AsSizeT(tid), Meaning(ResumeStep(s, tid).state))
  {
    hide Inv;
    ContainersMatchStatuses(s, AsSizeT(tid));
  }

  lemma NewIdIsUnknown(s: Sched, t: nat)
    requires Inv(s) && t !in s.threads
    ensures t !in s.sleeping && t !in s.blocked && t !in s.ready
  {
    InvMeans(s);
  }

  /** Every reply is the one the statuses call for, and a call that fails changes nothing. */
  lemma RepliesAreRight(s: Sched, c: Call)
    requires Inv(s) && HasRoom(s, c)
    ensures AbstractReply(Meaning(s), c, Step(s, c).reply)
    ensures Step(s, c).reply == Returns(-1) ==> Step(s, c).state == s
  {
    LiveIds(s);
    hide Inv, FirstFree, Dispatch, BeforeDispatch;
  }

  lemma LiveIds(s: Sched)
    requires Inv(s)
    ensures s.running in s.threads
    ensures Meaning(s).status.Keys == s.threads.Keys
  {
    InvMeans(s);
  }

  lemma ExitRefines(s: Sched)
    requires Inv(s)
    ensures AbstractStep(Meaning(s), Terminate(0), Meaning(Step(s, Terminate(0)).state))
  {
    hide Inv;
    assert Statuses(Step(s, Terminate(0)).state) == map[];
  }

  /** Every call on the containers, the last one included, is the abstract call on the statuses. */
  lemma StepRefines(s: Sched, c: Call)
    requires Inv(s) && HasRoom(s, c)
    ensures AbstractStep(Meaning(s), c, Meaning(Step(s, c).state))
  {
    hide Inv, Next, Step, AbstractStep, Meaning;
    if c == Terminate(0) {
      ExitRefines(s);
      return;
    }
    NextIsStep(s, c);
    if c == Tick {
      TickRefines(s);
    } else if Switches(s, c) {
      match c {
        case Terminate(_) => TerminateSelfRefines(s, c);
        case Block(_) => BlockSelfRefines(s, c);
        case Sleep(_) => SleepRefines(s, c);
      }
    } else {
      StayRefines(s, c);
    }
  }

  /** Every run of the scheduler is, call by call, a run of the abstract machine with its replies. */
  lemma RunRefines(s: Sched, cs: seq<Call>, i: nat)
    requires Inv(s) && IsRun(s, cs) && i < |cs|
    ensures AbstractStep(Meaning(After(s, cs, i)), cs[i], Meaning(After(s, cs, i + 1)))
    ensures AbstractReply(Meaning(After(s, cs, i)), cs[i], Replies(s, cs)[i])
  {
    hide *;
    RunIsSteps(s, cs, i);
    ContinuesMeans(After(s, cs, i), cs[i]);
    NextIsStep(After(s, cs, i), cs[i]);
    StepRefines(After(s, cs, i), cs[i]);
    RepliesAreRight(After(s, cs, i), cs[i]);
  }

  /** The abstract machine leaves no choice: it fixes what the scheduler may do. */
  lemma AbstractStepIsDeterministic(a: Abstract, c: Call, p: Abstract, q: Abstract)
    requires AbstractStep(a, c, p) && AbstractStep(a, c, q)
    ensures p == q
  {
    if c.Spawn? && p != a {
      var t :| IsLowestFree(a.status, t) && p == a.(status := a.status[t := IsReady], queue := a.queue + [t]);
      var u :| IsLowestFree(a.status, u) && q == a.(status := a.status[u := IsReady], queue := a.queue + [u]);
      assert t == u;
    } else if [p.current] + p.queue == [q.current] + q.queue {
      assert p.current == ([p.current] + p.queue)[0] && p.queue == ([p.current] + p.queue)[1..];
      assert q.current == ([q.current] + q.queue)[0] && q.queue == ([q.current] + q.queue)[1..];
    }
  }
}
