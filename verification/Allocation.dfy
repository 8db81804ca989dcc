/** Thread ids: which one a spawn gets, and what a terminated one leaves behind. */
module Allocation {
  import opened Types
  import opened Queues
  import opened Machine
  import opened Runs
  import opened Abstraction

  /** The ids not in use. */
  ghost function FreeIds(s: Sched): set<nat> {
    set t: nat | t < MAX_THREAD_NUM && t !in s.threads
  }

  /** No container mentions `t`. */
  ghost predicate Forgotten(s: Sched, t: nat) {
    t !in s.threads && t !in s.ready && t !in s.blocked && t !in s.sleeping && t != s.running
  }

  // ---------------------------------------------------------------- one spawn

  /**
   * A spawn takes the smallest free id and fails exactly when a hundred threads
   * are live; the table never exceeds that size.
   */
  lemma SpawnTakesLeastFreeId(s: Sched)
    requires Inv(s)
    ensures |s.threads| <= 100
    ensures var r := Step(s, Spawn(false)).reply;
            && r.Returns?
            && (r.value == -1 <==> |s.threads| == 100)
            && (r.value == -1 <==> FreeIds(s) == {})
            && (r.value != -1 ==> 0 <= r.value && r.value in FreeIds(s) && forall t :: t in FreeIds(s) ==> r.value <= t)
  {
    InvMeans(s);
    NextIsStay(s, Spawn(false));
    hide Step, Next, OneRunning, DeadlinesAhead;
    Pigeonhole(s.threads.Keys, MAX_THREAD_NUM);
    assert |s.threads| == |s.threads.Keys|;
    var r := FirstFree(s.threads.Keys, 0);
    if r == -1 {
      assert forall t :: 0 <= t < MAX_THREAD_NUM ==> t in s.threads.Keys;
    } else {
      assert r in FreeIds(s);
    }
  }

  /** A new thread starts clean: ready at the end of the queue, with no quantum and no past. */
  lemma SpawnStartsClean(s: Sched, t: Int32)
    requires Inv(s) && Step(s, Spawn(false)).reply == Returns(t) && t != -1
    ensures t >= 0 && Forgotten(s, t)
    ensures var s' := Next(s, Spawn(false));
            && s' == s.(threads := s.threads[t := Tcb(Ready, 0)], ready := s.ready + [t])
            && t !in s'.sleeping && t !in s'.blocked && t != s'.running
  {
    InvMeans(s);
  }

  // ---------------------------------------------------------------- termination

  /** Whatever state a thread is in, nothing is left of it once it is terminated. */
  lemma TerminateForgets(s: Sched, tid: Int32)
    requires Inv(s) && Continues(s, Terminate(tid)) && AsSizeT(tid) in s.threads
    ensures Forgotten(Next(s, Terminate(tid)), AsSizeT(tid))
    ensures Next(s, Terminate(tid)).threads.Keys == s.threads.Keys - {AsSizeT(tid)}
  {
    hide Inv, Next;
    TerminateRemoves(s, tid);
    UnknownIsForgotten(Next(s, Terminate(tid)), AsSizeT(tid));
  }

  lemma TerminateRemoves(s: Sched, tid: Int32)
    requires Inv(s) && Continues(s, Terminate(tid)) && AsSizeT(tid) in s.threads
    ensures Next(s, Terminate(tid)).threads.Keys == s.threads.Keys - {AsSizeT(tid)}
  {
    InvMeans(s);
  }

  lemma UnknownIsForgotten(s: Sched, t: nat)
    requires Inv(s) && t !in s.threads
    ensures Forgotten(s, t)
  {
    InvMeans(s);
  }

  /** Terminating a thread just spawned undoes the spawn. */
  lemma TerminateUndoesSpawn(s: Sched, t: Int32)
    requires Inv(s) && Step(s, Spawn(false)).reply == Returns(t) && t != -1
    ensures Continues(Next(s, Spawn(false)), Terminate(t))
    ensures Next(Next(s, Spawn(false)), Terminate(t)) == s
  {
    hide Inv, Step, Next, FreeIds;
    SpawnTakesLeastFreeId(s);
    MainIsLive(s);
    SpawnStartsClean(s, t);
    var s' := Next(s, Spawn(false));
    NextIsStay(s', Terminate(t));
    WithoutNewcomer(s.ready, t);
    assert s'.threads - {t as nat} == s.threads;
    assert s'.sleeping - {t as nat} == s.sleeping;
  }

  lemma MainIsLive(s: Sched)
    requires Inv(s)
    ensures 0 in s.threads && 0 !in FreeIds(s)
  {
    InvMeans(s);
  }

  /**
   * The end of the process: only the termination of thread 0 brings it about, it
   * alone leaves the table empty, and it touches nothing else.
   */
  lemma OnlyExitEmptiesTable(s: Sched, c: Call)
    requires Inv(s) && HasRoom(s, c)
    ensures c == Terminate(0) <==> Step(s, c).reply == Exits
    ensures c == Terminate(0) <==> Step(s, c).state.threads == map[]
    ensures c == Terminate(0) ==>
              var e := Step(s, c).state;
              && e.ready == s.ready && e.blocked == s.blocked && e.sleeping == s.sleeping
              && e.running == s.running && e.total == s.total
  {
    if c != Terminate(0) {
      NextIsStep(s, c);
      MainIsLive(Next(s, c));
    }
    hide Inv, Next, FirstFree, BeforeDispatch, Dispatch;
  }

  /** A negative id names no thread. */
  lemma NegativeIdsFail(s: Sched, c: Call)
    requires Inv(s) && (c.Terminate? || c.Block? || c.Resume?) && c.tid < 0
    ensures HasRoom(s, c) && Step(s, c) == Outcome(s, Returns(-1))
  {
    InvMeans(s);
  }

  // ---------------------------------------------------------------- order of allocation

  /** How the free ids change: by one termination or one spawn, and not otherwise. */
  lemma FreeIdsStep(s: Sched, c: Call)
    requires Inv(s) && Continues(s, c)
    ensures FreeIds(Next(s, c)) ==
            if c.Terminate? && AsSizeT(c.tid) in s.threads then FreeIds(s) + {AsSizeT(c.tid)}
            else if c == Spawn(false) && FreeIds(s) != {} then FreeIds(s) - {Least(FreeIds(s))}
            else FreeIds(s)
  {
    hide Inv, Next, Step;
    if c.Terminate? && AsSizeT(c.tid) in s.threads {
      IdsAreSmall(s);
      TerminateRemoves(s, c.tid);
    } else if c == Spawn(false) {
      SpawnTakesFromFreeIds(s);
    } else {
      OtherCallsKeepIds(s, c);
    }
  }

  /** A spawn returns the least free id, or -1 if there is none. */
  lemma SpawnReturnsLeast(s: Sched)
    requires Inv(s)
    ensures Step(s, Spawn(false)).reply == Returns(if FreeIds(s) != {} then Least(FreeIds(s)) else -1)
  {
    hide Inv, Step;
    SpawnTakesLeastFreeId(s);
  }

  lemma SpawnTakesFromFreeIds(s: Sched)
    requires Inv(s)
    ensures FreeIds(Next(s, Spawn(false))) == if FreeIds(s) != {} then FreeIds(s) - {Least(FreeIds(s))} else FreeIds(s)
  {
    hide Inv, Next, Step, FreeIds, FirstFree, Least;
    SpawnReturnsLeast(s);
    NextIsStay(s, Spawn(false));
    if FreeIds(s) != {} {
      TakenIdIsNotFree(s, Next(s, Spawn(false)), Least(FreeIds(s)));
    }
  }

  lemma TakenIdIsNotFree(p: Sched, q: Sched, t: nat)
    requires q.threads.Keys == p.threads.Keys + {t}
    ensures FreeIds(q) == FreeIds(p) - {t}
  {
  }

  lemma OtherCallsKeepIds(s: Sched, c: Call)
    requires Inv(s) && Continues(s, c) && c != Spawn(false)
    requires c.Terminate? ==> AsSizeT(c.tid) !in s.threads
    ensures Next(s, c).threads.Keys == s.threads.Keys
  {
    hide Inv, Next, Due, Woken, DueThreads;
    if Switches(s, c) {
      NextIsDispatch(s, c);
      HeadIsLive(s, c);
    } else {
      NextIsStay(s, c);
    }
  }

  /** How many calls of `cs` are spawns of a proper entry point. */
  function SpawnsIn(cs: seq<Call>): nat {
    if cs == [] then 0 else (if cs[0] == Spawn(false) then 1 else 0) + SpawnsIn(cs[1..])
  }

  /** The ids a run terminates. */
  ghost function TerminatedIds(s: Sched, cs: seq<Call>): set<nat>
    requires Inv(s) && IsRun(s, cs)
    decreases cs
  {
    if cs == [] then {}
    else
      (if cs[0].Terminate? && AsSizeT(cs[0].tid) in s.threads then {AsSizeT(cs[0].tid)} else {})
      + TerminatedIds(Next(s, cs[0]), cs[1..])
  }

  /** Call number `i` of the run is a successful termination of `t`. */
  ghost predicate TerminatesAt(s: Sched, cs: seq<Call>, t: nat, i: nat)
    requires Inv(s) && IsRun(s, cs) && i < |cs|
  {
    && cs[i].Terminate? && AsSizeT(cs[i].tid) == t
    && (Replies(s, cs)[i] == Returns(0) || Replies(s, cs)[i] == Switched)
  }

  /** They are the ids whose termination some call of the run asks for and gets. */
  lemma {:induction false} TerminatedIdsMeans(s: Sched, cs: seq<Call>, t: nat)
    requires Inv(s) && IsRun(s, cs)
    ensures t in TerminatedIds(s, cs) <==> exists i :: 0 <= i < |cs| && TerminatesAt(s, cs, t, i)
    decreases cs
  {
    hide Inv, Next, Continues, Step, TerminatesAt;
    if cs != [] {
      var s', rest := Next(s, cs[0]), cs[1..];
      TerminatedIdsMeans(s', rest, t);
      TerminatesFirst(s, cs, t);
      forall i | 0 <= i < |rest|
        ensures TerminatesAt(s', rest, t, i) == TerminatesAt(s, cs, t, i + 1)
      {
        TerminatesLater(s, cs, t, i);
      }
      if i :| 0 < i < |cs| && TerminatesAt(s, cs, t, i) {
        assert TerminatesAt(s', rest, t, i - 1);
      }
    }
  }

  lemma TerminatesFirst(s: Sched, cs: seq<Call>, t: nat)
    requires Inv(s) && IsRun(s, cs) && cs != []
    ensures TerminatesAt(s, cs, t, 0) <==> cs[0].Terminate? && AsSizeT(cs[0].tid) == t && t in s.threads
  {
    RepliesAreRight(s, cs[0]);
    LiveIds(s);
    hide Inv, Next, Step;
  }

  lemma TerminatesLater(s: Sched, cs: seq<Call>, t: nat, i: nat)
    requires Inv(s) && IsRun(s, cs) && cs != [] && i < |cs| - 1
    ensures Continues(s, cs[0]) && IsRun(Next(s, cs[0]), cs[1..])
    ensures TerminatesAt(Next(s, cs[0]), cs[1..], t, i) == TerminatesAt(s, cs, t, i + 1)
  {
    hide Inv, Next, Step, Continues;
  }

  /** Without spawns, the ids that become free are the ids terminated, all of which were live. */
  lemma {:induction false} TerminationsFreeIds(s: Sched, cs: seq<Call>)
    requires Inv(s) && IsRun(s, cs)
    requires forall c :: c in cs ==> c != Spawn(false)
    ensures FreeIds(Run(s, cs)) == FreeIds(s) + TerminatedIds(s, cs)
    ensures TerminatedIds(s, cs) <= s.threads.Keys
    decreases cs
  {
    hide Inv, Next, Continues, FreeIds;
    if cs != [] {
      assert cs[0] in cs;
      FreeIdsStep(s, cs[0]);
      KeysOnlyShrink(s, cs[0]);
      assert forall c :: c in cs[1..] ==> c in cs;
      TerminationsFreeIds(Next(s, cs[0]), cs[1..]);
    }
  }

  lemma KeysOnlyShrink(s: Sched, c: Call)
    requires Inv(s) && Continues(s, c) && c != Spawn(false)
    ensures Next(s, c).threads.Keys <= s.threads.Keys
  {
    hide Inv, Next, Continues;
    if c.Terminate? && AsSizeT(c.tid) in s.threads {
      TerminateRemoves(s, c.tid);
    } else {
      OtherCallsKeepIds(s, c);
    }
  }

  /** Without terminations, spawns hand out the free ids in increasing order, then fail. */
  lemma {:induction false} SpawnsTakeFreeIdsInOrder(s: Sched, cs: seq<Call>, i: nat)
    requires Inv(s) && IsRun(s, cs)
    requires forall c :: c in cs ==> !c.Terminate?
    requires i < |cs| && cs[i] == Spawn(false)
    ensures var k, reply := SpawnsIn(cs[..i]), Replies(s, cs)[i];
            reply.Returns? && reply.value == if k < |FreeIds(s)| then Ascending(FreeIds(s))[k] else -1
    decreases cs
  {
    hide Inv, Next, Step, Continues, Switches, FreeIds, Ascending, Least;
    var s', rest := Next(s, cs[0]), cs[1..];
    if i == 0 {
      SpawnReturnsLeast(s);
      if FreeIds(s) != {} {
        WithoutLeast(FreeIds(s), 0);
      }
    } else {
      assert cs[0] in cs;
      FreeIdsStep(s, cs[0]);
      assert cs[..i][0] == cs[0] && cs[..i][1..] == rest[..i - 1];
      SpawnsTakeFreeIdsInOrder(s', rest, i - 1);
      assert Replies(s, cs)[i] == Replies(s', rest)[i - 1];
      if cs[0] == Spawn(false) && FreeIds(s) != {} {
        WithoutLeast(FreeIds(s), SpawnsIn(rest[..i - 1]));
      } else {
        assert FreeIds(s') == FreeIds(s);
      }
    }
  }

  lemma WithoutLeast(free: set<nat>, k: nat)
    requires free != {}
    ensures |free| == |free - {Least(free)}| + 1 && Ascending(free)[0] == Least(free)
    ensures k + 1 < |free| ==> Ascending(free)[k + 1] == Ascending(free - {Least(free)})[k]
  {
    AscendingStartsWithLeast(free);
    hide Ascending, Least;
  }

  /**
   * Allocation order: from a full table, terminate any threads in any order
   * (other calls may come between) and then spawn: the spawns return exactly the
   * terminated ids, smallest first, and -1 once these are used up.
   */
  lemma FreedIdsComeBackInOrder(s: Sched, cs: seq<Call>, ds: seq<Call>, i: nat)
    requires Inv(s) && |s.threads| == 100
    requires IsRun(s, cs) && forall c :: c in cs ==> c != Spawn(false)
    requires IsRun(Run(s, cs), ds) && forall c :: c in ds ==> !c.Terminate?
    requires i < |ds| && ds[i] == Spawn(false)
    ensures var freed, k, reply := TerminatedIds(s, cs), SpawnsIn(ds[..i]), Replies(Run(s, cs), ds)[i];
            reply.Returns? && reply.value == if k < |freed| then Ascending(freed)[k] else -1
  {
    hide Inv, Step, FreeIds, Ascending, Replies, TerminatedIds, Run, IsRun;
    SpawnTakesLeastFreeId(s);
    TerminationsFreeIds(s, cs);
    assert FreeIds(Run(s, cs)) == TerminatedIds(s, cs);
    SpawnsTakeFreeIdsInOrder(Run(s, cs), ds, i);
  }

  // ---------------------------------------------------------------- the first ids

  /** At the start the ids 1 to 99 are free. */
  lemma FreeAtTheStart()
    ensures Inv(Init())
    ensures Ascending(FreeIds(Init())) == seq(99, i => i + 1) && |FreeIds(Init())| == 99
  {
    InitInv();
    var ids: seq<nat> := seq(99, i => i + 1);
    forall t: nat
      ensures t in ids <==> t in FreeIds(Init())
    {
      if t in FreeIds(Init()) {
        assert ids[t - 1] == t;
      }
    }
    AscendingIsUnique(ids, FreeIds(Init()));
  }

  /**
   * From the initial state, with no termination yet, the spawns return 1 to 99 in
   * order, whatever calls come between, and every spawn after these fails.
   */
  lemma FirstSpawns(cs: seq<Call>, i: nat)
    requires Inv(Init()) && IsRun(Init(), cs)
    requires forall c :: c in cs ==> !c.Terminate?
    requires i < |cs| && cs[i] == Spawn(false)
    ensures var k := SpawnsIn(cs[..i]);
            Replies(Init(), cs)[i] == if k < 99 then Returns(k + 1) else Returns(-1)
  {
    hide Inv, IsRun, Replies, FreeIds, Ascending;
    FreeAtTheStart();
    SpawnsTakeFreeIdsInOrder(Init(), cs, i);
  }

  /** A hundred spawns from the initial state return 1 to 99 and then -1. */
  lemma FirstHundredSpawns(cs: seq<Call>)
    requires |cs| == 100 && forall c :: c in cs ==> c == Spawn(false)
    ensures Inv(Init()) && IsRun(Init(), cs)
    ensures Replies(Init(), cs) == seq(99, i requires 0 <= i < 99 => Returns(i + 1)) + [Returns(-1)]
  {
    InitInv();
    hide Inv, Replies, IsRun;
    SpawnsAlwaysRun(Init(), cs);
    forall i | 0 <= i < 100
      ensures Replies(Init(), cs)[i] == if i < 99 then Returns(i + 1) else Returns(-1)
    {
      assert cs[i] in cs;
      AllAreSpawns(cs, i);
      FirstSpawns(cs, i);
    }
  }

  lemma {:induction false} SpawnsAlwaysRun(s: Sched, cs: seq<Call>)
    requires Inv(s) && forall c :: c in cs ==> c == Spawn(false)
    ensures IsRun(s, cs)
    decreases cs
  {
    hide Inv, Next;
    if cs != [] {
      assert cs[0] in cs;
      assert forall c :: c in cs[1..] ==> c in cs;
      SpawnsAlwaysRun(Next(s, cs[0]), cs[1..]);
    }
  }

  lemma {:induction false} AllAreSpawns(cs: seq<Call>, i: nat)
    requires i <= |cs| && forall c :: c in cs ==> c == Spawn(false)
    ensures SpawnsIn(cs[..i]) == i
  {
    if i > 0 {
      assert cs[0] in cs;
      assert forall c :: c in cs[1..] ==> c in cs;
      assert cs[..i][1..] == cs[1..][..i - 1];
      AllAreSpawns(cs[1..], i - 1);
    }
  }
}
