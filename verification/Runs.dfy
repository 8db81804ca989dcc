/** Runs: finite sequences of calls after each of which the process goes on. */
module Runs {
  import opened Types
  import opened Machine

  ghost predicate IsRun(s: Sched, cs: seq<Call>)
    requires Inv(s)
    decreases cs
  {
    cs == [] || (Continues(s, cs[0]) && IsRun(Next(s, cs[0]), cs[1..]))
  }

  ghost function Run(s: Sched, cs: seq<Call>): (s': Sched)
    requires Inv(s) && IsRun(s, cs)
    ensures Inv(s')
    decreases cs
  {
    if cs == [] then s else Run(Next(s, cs[0]), cs[1..])
  }

  /** The threads dispatched along a run, one per switch. */
  ghost function Dispatched(s: Sched, cs: seq<Call>): seq<nat>
    requires Inv(s) && IsRun(s, cs)
    decreases cs
  {
    if cs == [] then []
    else
      var s' := Next(s, cs[0]);
      (if Switches(s, cs[0]) then [s'.running] else []) + Dispatched(s', cs[1..])
  }

  /** The replies of the calls along a run. */
  ghost function Replies(s: Sched, cs: seq<Call>): (r: seq<Reply>)
    requires Inv(s) && IsRun(s, cs)
    ensures |r| == |cs|
    decreases cs
  {
    if cs == [] then [] else [Step(s, cs[0]).reply] + Replies(Next(s, cs[0]), cs[1..])
  }

  lemma {:induction false} RunConcat(s: Sched, xs: seq<Call>, ys: seq<Call>)
    requires Inv(s) && IsRun(s, xs) && IsRun(Run(s, xs), ys)
    ensures IsRun(s, xs + ys)
    ensures Run(s, xs + ys) == Run(Run(s, xs), ys)
    decreases xs
  {
    hide Inv, Next, Step, Continues, Switches;
    if xs == [] {
      assert xs + ys == ys;
    } else {
      RunConcat(Next(s, xs[0]), xs[1..], ys);
      assert (xs + ys)[1..] == xs[1..] + ys;
    }
  }

  /** A run in two parts has the dispatches and the replies of its parts, in order. */
  lemma {:induction false} TraceConcat(s: Sched, xs: seq<Call>, ys: seq<Call>)
    requires Inv(s) && IsRun(s, xs + ys)
    requires IsRun(s, xs) && IsRun(Run(s, xs), ys)
    ensures Dispatched(s, xs + ys) == Dispatched(s, xs) + Dispatched(Run(s, xs), ys)
    ensures Replies(s, xs + ys) == Replies(s, xs) + Replies(Run(s, xs), ys)
    decreases xs
  {
    hide Inv, Next, Step, Switches, HasRoom;
    if xs == [] {
      assert xs + ys == ys;
    } else {
      var c, s' := xs[0], Next(s, xs[0]);
      assert (xs + ys)[1..] == xs[1..] + ys;
      TraceConcat(s', xs[1..], ys);
      assert Run(s, xs) == Run(s', xs[1..]);
      PrependConcat(if Switches(s, c) then [s'.running] else [], Dispatched(s', xs[1..]), Dispatched(Run(s, xs), ys));
      PrependConcat([Step(s, c).reply], Replies(s', xs[1..]), Replies(Run(s, xs), ys));
    }
  }

  lemma PrependConcat<T>(x: seq<T>, y: seq<T>, z: seq<T>)
    ensures (x + y) + z == x + (y + z)
  {
  }

  lemma OneCallRun(s: Sched, c: Call)
    requires Inv(s) && Continues(s, c)
    ensures IsRun(s, [c]) && Run(s, [c]) == Next(s, c)
    ensures Dispatched(s, [c]) == if Switches(s, c) then [Next(s, c).running] else []
    ensures Replies(s, [c]) == [Step(s, c).reply]
  {
    hide Inv, Next, Continues, Switches, Step;
    assert [c][1..] == [];
  }

  lemma {:induction false} RunSplit(s: Sched, xs: seq<Call>, ys: seq<Call>)
    requires Inv(s) && IsRun(s, xs + ys)
    ensures IsRun(s, xs) && IsRun(Run(s, xs), ys)
    ensures Run(s, xs + ys) == Run(Run(s, xs), ys)
    decreases xs
  {
    hide Inv, Next, Step, Continues, Switches;
    if xs == [] {
      assert xs + ys == ys;
    } else {
      assert (xs + ys)[1..] == xs[1..] + ys;
      RunSplit(Next(s, xs[0]), xs[1..], ys);
    }
  }

  // ---------------------------------------------------------------- states along a run

  /** The state after the first `i` calls. */
  ghost function After(s: Sched, cs: seq<Call>, i: nat): (s': Sched)
    requires Inv(s) && IsRun(s, cs) && i <= |cs|
    ensures Inv(s')
  {
    hide *;
    assert cs == cs[..i] + cs[i..];
    RunSplit(s, cs[..i], cs[i..]);
    Run(s, cs[..i])
  }

  lemma AfterEnds(s: Sched, cs: seq<Call>)
    requires Inv(s) && IsRun(s, cs)
    ensures After(s, cs, 0) == s && After(s, cs, |cs|) == Run(s, cs)
  {
    hide Inv, IsRun;
    assert cs[..0] == [] && cs[..|cs|] == cs;
  }

  lemma AfterFirst(s: Sched, cs: seq<Call>, i: nat)
    requires Inv(s) && IsRun(s, cs) && 0 < i <= |cs|
    ensures Continues(s, cs[0]) && IsRun(Next(s, cs[0]), cs[1..])
    ensures After(s, cs, i) == After(Next(s, cs[0]), cs[1..], i - 1)
  {
    hide Inv, Next, Continues;
    assert cs[..i][0] == cs[0] && cs[..i][1..] == cs[1..][..i - 1];
  }

  /** A run takes one step per call, and gets the reply of that step. */
  lemma {:induction false} RunIsSteps(s: Sched, cs: seq<Call>, i: nat)
    requires Inv(s) && IsRun(s, cs) && i < |cs|
    ensures Continues(After(s, cs, i), cs[i])
    ensures After(s, cs, i + 1) == Next(After(s, cs, i), cs[i])
    ensures Replies(s, cs)[i] == Step(After(s, cs, i), cs[i]).reply
    decreases cs
  {
    hide Inv, Next, Continues, Step, After;
    AfterEnds(s, cs);
    AfterFirst(s, cs, i + 1);
    if i == 0 {
      AfterEnds(Next(s, cs[0]), cs[1..]);
    } else {
      AfterFirst(s, cs, i);
      RunIsSteps(Next(s, cs[0]), cs[1..], i - 1);
    }
  }

  // ---------------------------------------------------------------- the quantum counter

  /** The quantum counter moves at a switch, and so does the running thread; not otherwise. */
  lemma OneStepTotal(s: Sched, c: Call)
    requires Inv(s) && Continues(s, c)
    ensures Next(s, c).total == if Switches(s, c) then s.total + 1 else s.total
    ensures !Switches(s, c) ==> Next(s, c).running == s.running
  {
    hide Inv;
    if !Switches(s, c) {
      NextIsStay(s, c);
    }
  }

  /** The quantum counter counts switches. */
  lemma {:induction false} TotalCountsSwitches(s: Sched, cs: seq<Call>)
    requires Inv(s) && IsRun(s, cs)
    ensures Run(s, cs).total == s.total + |Dispatched(s, cs)|
    decreases cs
  {
    hide Inv, Next, Step, Continues, Switches;
    if cs != [] {
      OneStepTotal(s, cs[0]);
      TotalCountsSwitches(Next(s, cs[0]), cs[1..]);
    }
  }
}
