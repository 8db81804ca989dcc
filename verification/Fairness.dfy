/** How long a queued thread waits, and who may run before it. */
module Fairness {
  import opened Types
  import opened Queues
  import opened Machine
  import opened Runs

  /** The call blocks or terminates thread `t` (thread 0 can suffer neither and go on). */
  predicate Pulls(c: Call, t: nat) {
    (c.Terminate? || c.Block?) && c.tid != 0 && AsSizeT(c.tid) == t
  }

  /** Until `t` is dispatched, no call blocks or terminates it. */
  ghost predicate Undisturbed(s: Sched, cs: seq<Call>, t: nat)
    requires Inv(s) && IsRun(s, cs)
    decreases cs
  {
    t == s.running || cs == [] || (!Pulls(cs[0], t) && Undisturbed(Next(s, cs[0]), cs[1..], t))
  }

  // ---------------------------------------------------------------- what disturbs a thread

  lemma {:induction false} FirstPull(s: Sched, cs: seq<Call>, t: nat) returns (i: nat)
    requires Inv(s) && IsRun(s, cs) && !Undisturbed(s, cs, t)
    ensures i < |cs| && Pulls(cs[i], t) && forall j :: 0 <= j <= i ==> After(s, cs, j).running != t
    decreases cs
  {
    hide Inv, Next, Continues, After, Pulls;
    AfterEnds(s, cs);
    if Pulls(cs[0], t) {
      i := 0;
    } else {
      i := FirstPull(Next(s, cs[0]), cs[1..], t);
      i := i + 1;
      forall j | 0 <= j <= i
        ensures After(s, cs, j).running != t
      {
        if j > 0 {
          AfterFirst(s, cs, j);
        }
      }
    }
  }

  lemma {:induction false} RanBeforePull(s: Sched, cs: seq<Call>, t: nat, i: nat) returns (j: nat)
    requires Inv(s) && IsRun(s, cs) && Undisturbed(s, cs, t)
    requires i < |cs| && Pulls(cs[i], t)
    ensures j <= i && After(s, cs, j).running == t
    decreases cs
  {
    hide Inv, Next, Continues, After, Pulls;
    AfterEnds(s, cs);
    j := 0;
    if t != s.running {
      j := RanBeforePull(Next(s, cs[0]), cs[1..], t, i - 1);
      j := j + 1;
      AfterFirst(s, cs, j);
    }
  }

  /** A thread is undisturbed exactly if it runs before any call blocks or terminates it. */
  lemma UndisturbedMeans(s: Sched, cs: seq<Call>, t: Int32)
    requires Inv(s) && IsRun(s, cs) && t > 0
    ensures Undisturbed(s, cs, t) <==>
            forall i :: 0 <= i < |cs| && (cs[i] == Block(t) || cs[i] == Terminate(t)) ==>
              exists j :: 0 <= j <= i && After(s, cs, j).running == t
  {
    hide Inv, IsRun, Undisturbed, After;
    if Undisturbed(s, cs, t) {
      forall i | 0 <= i < |cs| && (cs[i] == Block(t) || cs[i] == Terminate(t))
        ensures exists j :: 0 <= j <= i && After(s, cs, j).running == t
      {
        var j := RanBeforePull(s, cs, t, i);
      }
    } else {
      var i := FirstPull(s, cs, t);
      assert cs[i] == Block(t) || cs[i] == Terminate(t);
    }
  }

  // ---------------------------------------------------------------- one call

  /** A switch takes the head of the queue; newcomers join behind everyone already there. */
  lemma SwitchIsFifo(s: Sched, c: Call)
    requires Inv(s) && Continues(s, c) && Switches(s, c)
    ensures s.ready <= [Next(s, c).running] + Next(s, c).ready
  {
    hide Inv;
    NextIsDispatch(s, c);
    JoinersGoBehind(s, c);
    var b := BeforeDispatch(s, c);
    assert b.ready == [b.ready[0]] + b.ready[1..];
  }

  /** Any other call leaves the queue, adds one thread behind it, or takes one pulled thread out. */
  lemma OtherCallOnQueue(s: Sched, c: Call)
    requires Inv(s) && Continues(s, c) && !Switches(s, c)
    ensures Next(s, c).running == s.running
    ensures s.ready <= Next(s, c).ready
         || exists t :: Pulls(c, t) && Next(s, c).ready == Without(s.ready, t)
  {
    hide Inv, Next;
    NextIsStay(s, c);
    if (c.Terminate? || c.Block?) && c.tid != 0 {
      var t := AsSizeT(c.tid);
      assert Pulls(c, t);
    }
  }

  /** No call lets a waiting thread fall back, and a switch brings it forward by one. */
  lemma StepKeepsPlace(s: Sched, c: Call, t: nat, k: nat) returns (k': nat)
    requires Inv(s) && Continues(s, c) && !Pulls(c, t)
    requires k < |s.ready| && s.ready[k] == t
    ensures Switches(s, c) && k == 0 ==> Next(s, c).running == t
    ensures Switches(s, c) && k > 0 ==> k' == k - 1
    ensures !Switches(s, c) ==> k' <= k
    ensures !(Switches(s, c) && k == 0) ==> k' < |Next(s, c).ready| && Next(s, c).ready[k'] == t
    ensures !(Switches(s, c) && k == 0) ==> forall x :: x in Next(s, c).ready[..k'] ==> x in s.ready[..k]
    ensures Switches(s, c) ==> Next(s, c).running == s.ready[0]
  {
    hide Inv, Next, Continues;
    var s' := Next(s, c);
    if Switches(s, c) {
      SwitchIsFifo(s, c);
      var joined := [s'.running] + s'.ready;
      assert joined[0] == s.ready[0] && joined[k] == s.ready[k];
      k' := if k == 0 then 0 else k - 1;
      if k > 0 {
        assert s'.ready[..k'] == joined[..k][1..] == s.ready[..k][1..];
      }
    } else {
      OtherCallOnQueue(s, c);
      if s.ready <= s'.ready {
        k' := k;
        assert s'.ready[..k] == s.ready[..k];
      } else {
        var x :| Pulls(c, x) && s'.ready == Without(s.ready, x);
        k' := WithoutMovesUp(s.ready, x, k);
      }
    }
  }

  // ---------------------------------------------------------------- whole runs

  /** Either `t` ran as dispatch number `j`, or it still waits at index `j`. */
  lemma {:induction false} WaitOf(s: Sched, cs: seq<Call>, t: nat, k: nat) returns (ran: bool, j: nat)
    requires Inv(s) && IsRun(s, cs) && Undisturbed(s, cs, t)
    requires k < |s.ready| && s.ready[k] == t
    ensures ran ==> j <= k && j < |Dispatched(s, cs)| && Dispatched(s, cs)[j] == t
    ensures !ran ==> |Dispatched(s, cs)| + j <= k && j < |Run(s, cs).ready| && Run(s, cs).ready[j] == t
    decreases cs
  {
    hide Inv, Next, Continues, Switches;
    RunningIsNotQueued(s);
    if cs == [] {
      ran, j := false, k;
    } else {
      var s' := Next(s, cs[0]);
      var k' := StepKeepsPlace(s, cs[0], t, k);
      if !Switches(s, cs[0]) {
        ran, j := WaitOf(s', cs[1..], t, k');
      } else if k == 0 {
        ran, j := true, 0;
      } else {
        ran, j := WaitOf(s', cs[1..], t, k');
        j := if ran then j + 1 else j;
      }
    }
  }

  /**
   * Bounded waiting: the thread at index k is dispatched within k + 1 switches,
   * and while it waits its index has dropped by one for every switch so far.
   */
  lemma BoundedWait(s: Sched, cs: seq<Call>, t: nat, k: nat)
    requires Inv(s) && IsRun(s, cs) && Undisturbed(s, cs, t)
    requires k < |s.ready| && s.ready[k] == t
    ensures |Dispatched(s, cs)| > k ==> t in Dispatched(s, cs)[..k + 1]
    ensures t !in Dispatched(s, cs) ==>
              exists j :: 0 <= j <= k - |Dispatched(s, cs)| && j < |Run(s, cs).ready| && Run(s, cs).ready[j] == t
  {
    hide *;
    var ran, j := WaitOf(s, cs, t, k);
    if ran && |Dispatched(s, cs)| > k {
      assert Dispatched(s, cs)[..k + 1][j] == t;
    }
  }

  lemma RunningIsNotQueued(s: Sched)
    requires Inv(s)
    ensures s.running !in s.ready
  {
    InvMeans(s);
  }

  /**
   * No overtaking: a thread that is neither running nor ahead of `a` in the queue
   * cannot be dispatched before `a`, whatever is spawned, resumed or woken meanwhile.
   */
  lemma {:induction false} NoOvertaking(s: Sched, cs: seq<Call>, a: nat, b: nat, k: nat)
    requires Inv(s) && IsRun(s, cs) && Undisturbed(s, cs, a)
    requires k < |s.ready| && s.ready[k] == a
    requires b != a && b !in s.ready[..k]
    ensures forall j :: 0 <= j < |Dispatched(s, cs)| && Dispatched(s, cs)[j] == b ==> a in Dispatched(s, cs)[..j]
    decreases cs
  {
    hide Inv, Next, Continues, Switches;
    RunningIsNotQueued(s);
    if cs != [] {
      var s' := Next(s, cs[0]);
      var k' := StepKeepsPlace(s, cs[0], a, k);
      var rest := Dispatched(s', cs[1..]);
      var all := Dispatched(s, cs);
      if Switches(s, cs[0]) {
        assert all == [s'.running] + rest;
        if k == 0 {
          assert all[0] == a;
          assert forall j :: 0 < j < |all| ==> all[..j][0] == a;
        } else {
          assert s'.running == s.ready[0] && s.ready[0] in s.ready[..k];
          NoOvertaking(s', cs[1..], a, b, k');
          assert forall j :: 0 < j < |all| ==> all[..j] == [s'.running] + rest[..j - 1];
        }
      } else {
        assert all == rest;
        NoOvertaking(s', cs[1..], a, b, k');
      }
    }
  }

  /** No call of the run blocks or terminates a thread while it is queued. */
  ghost predicate NonePulled(s: Sched, cs: seq<Call>)
    requires Inv(s) && IsRun(s, cs)
    decreases cs
  {
    cs == [] || ((forall t :: t in s.ready ==> !Pulls(cs[0], t)) && NonePulled(Next(s, cs[0]), cs[1..]))
  }

  /** That is: whoever a call blocks or terminates is not queued at that moment. */
  lemma {:induction false} NonePulledMeans(s: Sched, cs: seq<Call>)
    requires Inv(s) && IsRun(s, cs)
    ensures NonePulled(s, cs) <==>
            forall i :: 0 <= i < |cs| && (cs[i].Block? || cs[i].Terminate?) && cs[i].tid != 0 ==>
              AsSizeT(cs[i].tid) !in After(s, cs, i).ready
    decreases cs
  {
    hide Inv, Next, Continues, After;
    AfterEnds(s, cs);
    if cs != [] {
      var s', rest := Next(s, cs[0]), cs[1..];
      NonePulledMeans(s', rest);
      assert forall i :: 0 <= i < |rest| ==> rest[i] == cs[i + 1];
      forall i | 0 < i < |cs|
        ensures After(s, cs, i) == After(s', rest, i - 1) && cs[i] == rest[i - 1]
      {
        AfterFirst(s, cs, i);
      }
    }
  }

  /**
   * The queue law: if nobody is pulled out of the queue, the threads dispatched
   * followed by those still queued start with the original queue, in order.
   */
  lemma {:induction false} DispatchOrderIsQueueOrder(s: Sched, cs: seq<Call>)
    requires Inv(s) && IsRun(s, cs) && NonePulled(s, cs)
    ensures s.ready <= Dispatched(s, cs) + Run(s, cs).ready
    decreases cs
  {
    hide Inv, Next, Continues, Switches;
    if cs == [] {
      assert Dispatched(s, cs) + Run(s, cs).ready == s.ready;
    } else {
      var c, s' := cs[0], Next(s, cs[0]);
      DispatchOrderIsQueueOrder(s', cs[1..]);
      var later := Dispatched(s', cs[1..]) + Run(s', cs[1..]).ready;
      if Switches(s, c) {
        SwitchIsFifo(s, c);
        assert Dispatched(s, cs) + Run(s, cs).ready == [s'.running] + later;
      } else {
        OtherCallOnQueue(s, c);
        assert s.ready <= s'.ready;
        assert Dispatched(s, cs) + Run(s, cs).ready == later;
      }
    }
  }

  // ---------------------------------------------------------------- the main thread

  /** At most MAX_THREAD_NUM - 1 threads wait at a time. */
  lemma QueueIsShort(s: Sched)
    requires Inv(s)
    ensures |s.ready| <= |s.threads| - 1 <= MAX_THREAD_NUM - 1
  {
    InvMeans(s);
    NoDuplicatesLength(s.ready, s.threads.Keys - {s.running});
    Pigeonhole(s.threads.Keys, MAX_THREAD_NUM);
  }

  lemma MainIsRunningOrQueued(s: Sched) returns (k: nat)
    requires Inv(s)
    ensures s.running != 0 ==> k < |s.ready| && s.ready[k] == 0
  {
    InvMeans(s);
    k := 0;
    if s.running != 0 {
      assert 0 in s.ready;
      k :| k < |s.ready| && s.ready[k] == 0;
    }
  }

  lemma {:induction false} MainIsUndisturbed(s: Sched, cs: seq<Call>)
    requires Inv(s) && IsRun(s, cs)
    ensures Undisturbed(s, cs, 0)
    decreases cs
  {
    hide Inv, Next, Continues, Switches;
    if cs != [] {
      MainIsUndisturbed(Next(s, cs[0]), cs[1..]);
    }
  }

  /**
   * Main-thread liveness: of any MAX_THREAD_NUM consecutive quanta of a run,
   * starting with the one under way, one (number m) belongs to thread 0.
   */
  lemma {:induction false} MainRunsInEveryWindow(s: Sched, cs: seq<Call>, i: nat) returns (m: nat)
    requires Inv(s) && IsRun(s, cs)
    requires i + MAX_THREAD_NUM <= 1 + |Dispatched(s, cs)|
    ensures i <= m < i + MAX_THREAD_NUM && ([s.running] + Dispatched(s, cs))[m] == 0
    decreases cs
  {
    hide Inv, Next, Continues, Switches;
    if i == 0 && s.running == 0 {
      m := 0;
    } else if i == 0 {
      var k := MainIsRunningOrQueued(s);
      QueueIsShort(s);
      MainIsUndisturbed(s, cs);
      var ran, j := WaitOf(s, cs, 0, k);
      m := j + 1;
    } else {
      OneStepTotal(s, cs[0]);
      var s' := Next(s, cs[0]);
      if Switches(s, cs[0]) {
        m := MainRunsInEveryWindow(s', cs[1..], i - 1);
        m := m + 1;
      } else {
        m := MainRunsInEveryWindow(s', cs[1..], i);
      }
    }
  }
}
