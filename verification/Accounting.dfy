/** Where the quanta went: every one is charged to exactly one thread. */
module Accounting {
  import opened Types
  import opened Machine
  import opened Runs

  /** A terminated thread: its id, the span of the trace in which it lived, its final count. */
  datatype Retired = Retired(id: nat, born: nat, died: nat, quanta: nat)

  /**
   * What an observer writes down: the thread of every quantum so far, where in
   * that trace each live thread was created, and the threads that are gone.
   */
  datatype Journal = Journal(trace: seq<nat>, born: map<nat, nat>, retired: seq<Retired>)

  function FirstPage(): Journal {
    Journal([0], map[0 := 0], [])
  }

  /** The thread that a call does away with, if it does. */
  predicate Kills(s: Sched, c: Call) {
    c.Terminate? && c.tid != 0 && AsSizeT(c.tid) in s.threads
  }

  ghost function Record(j: Journal, s: Sched, c: Call): Journal
    requires Inv(s) && Continues(s, c)
    requires j.born.Keys == s.threads.Keys
  {
    var s' := Next(s, c);
    var j' := if Switches(s, c) then j.(trace := j.trace + [s'.running]) else j;
    if Kills(s, c) then
      var t := AsSizeT(c.tid);
      j'.(born := j.born - {t},
          retired := j.retired + [Retired(t, j.born[t], |j.trace|, s.threads[t].quanta)])
    else
      j'.(born := map t | t in s'.threads :: if t in j.born then j.born[t] else |j.trace|)
  }

  function Count(q: seq<nat>, t: nat): nat {
    if q == [] then 0 else Count(q[..|q| - 1], t) + if q[|q| - 1] == t then 1 else 0
  }

  /** The sum of `quantum_t` over the live threads with an id below `n`. */
  function QuantaBelow(threads: map<nat, Tcb>, n: nat): nat {
    if n == 0 then 0
    else QuantaBelow(threads, n - 1) + if n - 1 in threads then threads[n - 1].quanta else 0
  }

  function RetiredQuanta(r: seq<Retired>): nat {
    if r == [] then 0 else RetiredQuanta(r[..|r| - 1]) + r[|r| - 1].quanta
  }

  ghost predicate LiveCountsAreRight(s: Sched, j: Journal) {
    && j.born.Keys == s.threads.Keys
    && forall t :: t in s.threads ==>
         j.born[t] <= |j.trace| && s.threads[t].quanta == Count(j.trace[j.born[t]..], t)
  }

  ghost predicate RetiredCountsAreRight(j: Journal) {
    forall r :: r in j.retired ==>
      r.born <= r.died <= |j.trace| && r.quanta == Count(j.trace[r.born..r.died], r.id)
  }

  /** Quantum conservation. */
  ghost predicate Balanced(s: Sched, j: Journal) {
    && j.born.Keys == s.threads.Keys
    && s.total == |j.trace|
    && j.trace != [] && j.trace[|j.trace| - 1] == s.running
    && s.total == QuantaBelow(s.threads, MAX_THREAD_NUM) + RetiredQuanta(j.retired)
    && LiveCountsAreRight(s, j)
    && RetiredCountsAreRight(j)
  }

  // ---------------------------------------------------------------- sums

  lemma {:induction false} QuantaBelowAfter(a: map<nat, Tcb>, b: map<nat, Tcb>, t: nat, n: nat)
    requires forall x :: x != t ==> (x in a <==> x in b)
    requires forall x :: x != t && x in a ==> b[x].quanta == a[x].quanta
    ensures var before, after := if t in a then a[t].quanta else 0, if t in b then b[t].quanta else 0;
            QuantaBelow(b, n) - QuantaBelow(a, n) == if t < n then after - before else 0
  {
    if n != 0 {
      QuantaBelowAfter(a, b, t, n - 1);
    }
  }

  lemma CountAppend(q: seq<nat>, x: nat, t: nat)
    ensures Count(q + [x], t) == Count(q, t) + if x == t then 1 else 0
  {
  }

  // ---------------------------------------------------------------- one call

  /** The ids and counts a switch leaves: all as they were but for the thread it dispatches. */
  lemma SwitchCharges(s: Sched, c: Call)
    requires Inv(s) && Continues(s, c) && Switches(s, c)
    ensures var s' := Next(s, c);
            && s'.running in s.threads
            && s'.threads.Keys == (if Kills(s, c) then s.threads.Keys - {AsSizeT(c.tid)} else s.threads.Keys)
            && s'.running in s'.threads
            && (forall t :: t in s'.threads ==>
                 s'.threads[t].quanta == s.threads[t].quanta + if t == s'.running then 1 else 0)
  {
    hide Inv, Next, Due, Woken, DueThreads, CanDispatch;
    NextIsDispatch(s, c);
    HeadIsLive(s, c);
  }

  /** A call that does not switch charges nobody. */
  lemma StayCharges(s: Sched, c: Call)
    requires Inv(s) && Continues(s, c) && !Switches(s, c)
    ensures var s' := Next(s, c);
            && s'.total == s.total && s'.running == s.running
            && (forall t :: t in s.threads && t in s'.threads ==> s'.threads[t].quanta == s.threads[t].quanta)
            && (Kills(s, c) ==> s'.threads.Keys == s.threads.Keys - {AsSizeT(c.tid)})
            && (!Kills(s, c) ==> s'.threads.Keys == s.threads.Keys || SpawnsOne(s, s'))
  {
    hide Inv, Next;
    NextIsStay(s, c);
    if c.Spawn? && s.threads.Keys != Next(s, c).threads.Keys {
      var t := FirstFree(s.threads.Keys, 0);
      assert IsNewborn(s, Next(s, c), t);
    }
  }

  predicate IsNewborn(s: Sched, s': Sched, t: nat) {
    t !in s.threads && s'.threads.Keys == s.threads.Keys + {t} && s'.threads[t].quanta == 0
  }

  ghost predicate SpawnsOne(s: Sched, s': Sched) {
    exists t :: IsNewborn(s, s', t)
  }

  lemma RecordKeepsLiveCounts(j: Journal, s: Sched, c: Call)
    requires Inv(s) && Continues(s, c) && LiveCountsAreRight(s, j) && s.total == |j.trace|
    ensures LiveCountsAreRight(Next(s, c), Record(j, s, c))
  {
    hide Inv, Next, Continues, Switches, Record;
    var s', j' := Next(s, c), Record(j, s, c);
    RecordKeepsIds(j, s, c);
    forall t | t in s'.threads
      ensures j'.born[t] <= |j'.trace| && s'.threads[t].quanta == Count(j'.trace[j'.born[t]..], t)
    {
      RecordKeepsLiveCount(j, s, c, t);
    }
  }

  lemma RecordKeepsIds(j: Journal, s: Sched, c: Call)
    requires Inv(s) && Continues(s, c) && j.born.Keys == s.threads.Keys
    ensures Record(j, s, c).trace == if Switches(s, c) then j.trace + [Next(s, c).running] else j.trace
    ensures Record(j, s, c).born.Keys == Next(s, c).threads.Keys
    ensures forall t :: t in Next(s, c).threads ==>
              Record(j, s, c).born[t] == if t in s.threads then j.born[t] else |j.trace|
  {
    hide Inv, Next, Continues;
    if Switches(s, c) {
      SwitchCharges(s, c);
    } else {
      StayCharges(s, c);
    }
  }

  lemma RecordKeepsLiveCount(j: Journal, s: Sched, c: Call, t: nat)
    requires Inv(s) && Continues(s, c) && LiveCountsAreRight(s, j)
    requires t in Next(s, c).threads && t in Record(j, s, c).born
    ensures var s', j' := Next(s, c), Record(j, s, c);
            j'.born[t] <= |j'.trace| && s'.threads[t].quanta == Count(j'.trace[j'.born[t]..], t)
  {
    hide Inv, Next, Continues, Switches, Record, Kills, LiveCountsAreRight, Count;
    LiveCountOf(s, j);
    var s' := Next(s, c);
    RecordKeepsIds(j, s, c);
    if Switches(s, c) {
      SwitchCharges(s, c);
      ChargeOne(j.trace, j.born[t], s'.running, t);
    } else {
      StayCharges(s, c);
      if t !in s.threads {
        NewbornHasNoQuanta(s, s', j.trace, t);
      }
    }
  }

  lemma LiveCountOf(s: Sched, j: Journal)
    requires LiveCountsAreRight(s, j)
    ensures j.born.Keys == s.threads.Keys
    ensures forall t :: t in s.threads ==>
              j.born[t] <= |j.trace| && s.threads[t].quanta == Count(j.trace[j.born[t]..], t)
  {
  }

  lemma ChargeOne(trace: seq<nat>, b: nat, x: nat, t: nat)
    requires b <= |trace|
    ensures Count((trace + [x])[b..], t) == Count(trace[b..], t) + if t == x then 1 else 0
  {
    assert (trace + [x])[b..] == trace[b..] + [x];
    CountAppend(trace[b..], x, t);
  }

  lemma NewbornHasNoQuanta(s: Sched, s': Sched, trace: seq<nat>, t: nat)
    requires t in s'.threads && t !in s.threads
    requires s'.threads.Keys <= s.threads.Keys || SpawnsOne(s, s')
    ensures s'.threads[t].quanta == 0 == Count(trace[|trace|..], t)
  {
  }

  lemma RecordKeepsRetiredCounts(j: Journal, s: Sched, c: Call)
    requires Inv(s) && Continues(s, c) && Balanced(s, j)
    ensures RetiredCountsAreRight(Record(j, s, c))
  {
    hide Inv, Next, Continues, Switches, LiveCountsAreRight, Count;
    var j', t := Record(j, s, c), if Kills(s, c) then AsSizeT(c.tid) else 0;
    LiveCountOf(s, j);
    var more := if Switches(s, c) then [Next(s, c).running] else [];
    assert j'.trace == j.trace + more;
    forall r | r in j'.retired
      ensures r.born <= r.died <= |j'.trace| && r.quanta == Count(j'.trace[r.born..r.died], r.id)
    {
      if r in j.retired {
        SliceOfExtension(j.trace, more, r.born, r.died);
      } else {
        assert j'.retired[..|j'.retired| - 1] == j.retired;
        assert r == j'.retired[|j'.retired| - 1];
        SliceOfExtension(j.trace, more, j.born[t], |j.trace|);
        assert j.trace[j.born[t]..|j.trace|] == j.trace[j.born[t]..];
      }
    }
  }

  lemma SliceOfExtension(q: seq<nat>, more: seq<nat>, a: nat, b: nat)
    requires a <= b <= |q|
    ensures (q + more)[a..b] == q[a..b]
  {
  }

  /** What a killed thread had is moved from the live to the retired. */
  lemma RecordKeepsSum(j: Journal, s: Sched, c: Call)
    requires Inv(s) && Continues(s, c) && Balanced(s, j)
    ensures var s', j' := Next(s, c), Record(j, s, c);
            s'.total == QuantaBelow(s'.threads, MAX_THREAD_NUM) + RetiredQuanta(j'.retired)
  {
    hide Inv, Next, Continues, Switches, LiveCountsAreRight, RetiredCountsAreRight;
    IdsAreSmall(s);
    var s', j' := Next(s, c), Record(j, s, c);
    OneStepTotal(s, c);
    var survivors := s.threads;
    if Kills(s, c) {
      var t := AsSizeT(c.tid);
      survivors := s.threads - {t};
      QuantaBelowAfter(s.threads, survivors, t, MAX_THREAD_NUM);
      assert j'.retired[..|j'.retired| - 1] == j.retired;
    }
    if Switches(s, c) {
      SwitchCharges(s, c);
      QuantaBelowAfter(survivors, s'.threads, s'.running, MAX_THREAD_NUM);
    } else {
      StayCharges(s, c);
      if survivors.Keys == s'.threads.Keys {
        QuantaBelowAfter(survivors, s'.threads, 0, MAX_THREAD_NUM);
      } else {
        var t :| IsNewborn(s, s', t);
        QuantaBelowAfter(survivors, s'.threads, t, MAX_THREAD_NUM);
      }
    }
  }

  lemma RecordKeepsBalance(j: Journal, s: Sched, c: Call)
    requires Inv(s) && Continues(s, c) && Balanced(s, j)
    ensures Balanced(Next(s, c), Record(j, s, c))
  {
    hide Inv, Next, Continues, Switches, LiveCountsAreRight, RetiredCountsAreRight;
    OneStepTotal(s, c);
    RecordKeepsIds(j, s, c);
    RecordKeepsLiveCounts(j, s, c);
    RecordKeepsRetiredCounts(j, s, c);
    RecordKeepsSum(j, s, c);
  }

  /**
   * The journal gets one entry for each successful termination, for that thread
   * and with the quanta it had since its spawn, and no other entry.
   */
  lemma TerminationsAreRecorded(j: Journal, s: Sched, c: Call)
    requires Inv(s) && Continues(s, c) && Balanced(s, j)
    ensures var retired, reply := Record(j, s, c).retired, Step(s, c).reply;
            if c.Terminate? && (reply == Returns(0) || reply == Switched) then
              var t := AsSizeT(c.tid);
              t in j.born && j.born[t] <= s.total
              && retired == j.retired + [Retired(t, j.born[t], s.total, Count(j.trace[j.born[t]..], t))]
            else retired == j.retired
  {
    LiveCountOf(s, j);
    TerminationReply(s, c);
    hide Inv, Next, Step, Balanced;
  }

  lemma TerminationReply(s: Sched, c: Call)
    requires Inv(s) && Continues(s, c)
    ensures Kills(s, c) <==> c.Terminate? && (Step(s, c).reply == Returns(0) || Step(s, c).reply == Switched)
  {
    InvMeans(s);
  }

  // ---------------------------------------------------------------- whole runs

  /** The journal kept along a run. */
  ghost function Chronicle(j: Journal, s: Sched, cs: seq<Call>): Journal
    requires Inv(s) && IsRun(s, cs) && Balanced(s, j)
    decreases cs
  {
    hide Inv, Next, Continues, Switches, LiveCountsAreRight, RetiredCountsAreRight;
    if cs == [] then j
    else
      RecordKeepsBalance(j, s, cs[0]);
      Chronicle(Record(j, s, cs[0]), Next(s, cs[0]), cs[1..])
  }

  /** Quantum conservation is kept by every run. */
  lemma {:induction false} RunKeepsBalance(j: Journal, s: Sched, cs: seq<Call>)
    requires Inv(s) && IsRun(s, cs) && Balanced(s, j)
    ensures Balanced(Run(s, cs), Chronicle(j, s, cs))
    ensures Chronicle(j, s, cs).trace == j.trace + Dispatched(s, cs)
    decreases cs
  {
    hide Inv, Next, Continues, Switches, LiveCountsAreRight, RetiredCountsAreRight, Record;
    if cs != [] {
      RecordKeepsBalance(j, s, cs[0]);
      RecordKeepsIds(j, s, cs[0]);
      RunKeepsBalance(Record(j, s, cs[0]), Next(s, cs[0]), cs[1..]);
    }
  }

  /** The books balance in every state reachable from the initial one. */
  lemma QuantaAreConserved(cs: seq<Call>)
    requires Inv(Init()) && IsRun(Init(), cs)
    ensures Balanced(Init(), FirstPage())
    ensures Balanced(Run(Init(), cs), Chronicle(FirstPage(), Init(), cs))
    ensures Chronicle(FirstPage(), Init(), cs).trace == [0] + Dispatched(Init(), cs)
  {
    hide Inv, Balanced, IsRun;
    FirstPageBalances();
    RunKeepsBalance(FirstPage(), Init(), cs);
  }

  lemma FirstPageBalances()
    ensures Balanced(Init(), FirstPage())
  {
    QuantaBelowAfter(map[], Init().threads, 0, MAX_THREAD_NUM);
    NobodyHasQuanta(MAX_THREAD_NUM);
    assert [0][0..] == [] + [0];
    CountAppend([], 0, 0);
  }

  lemma {:induction false} NobodyHasQuanta(n: nat)
    ensures QuantaBelow(map[], n) == 0
  {
    if n != 0 {
      NobodyHasQuanta(n - 1);
    }
  }

  /** So the `int` that `uthread_get_quantums` returns is the count itself. */
  lemma {:induction false} QuantaFitInInt(s: Sched, j: Journal, t: nat)
    requires Inv(s) && Balanced(s, j) && t in s.threads
    ensures s.threads[t].quanta <= s.total && AsInt32(s.threads[t].quanta) == s.threads[t].quanta
  {
    hide Inv, LiveCountsAreRight, RetiredCountsAreRight;
    IdsAreSmall(s);
    OneIsPartOfSum(s.threads, t, MAX_THREAD_NUM);
  }

  lemma {:induction false} OneIsPartOfSum(threads: map<nat, Tcb>, t: nat, n: nat)
    requires t in threads && t < n
    ensures threads[t].quanta <= QuantaBelow(threads, n)
  {
    if t < n - 1 {
      OneIsPartOfSum(threads, t, n - 1);
    }
  }
}
