/** Concrete schedules: the stuck state of two harts, and why reuse by three is unsafe. */
module BarrierCases {
  import opened Barrier
  import BarrierTwo

  /** A fresh barrier for n harts. */
  function Fresh(n: nat, passed: int): State {
    State(false, n, passed, n, 0, seq(n, i => Hart(Out, 0, 0, 0)))
  }

  /** k steps of hart h in a row. */
  function Steps(s: State, h: nat, k: nat): (s': State)
    requires h < |s.harts|
    ensures |s'.harts| == |s.harts|
    decreases k
  {
    if k == 0 then s else Step(Steps(s, h, k - 1), h)
  }

  /** s is where some schedule takes s0. */
  ghost predicate Reaches(s0: State, s: State) {
    exists sched: seq<nat> :: Schedule(sched, |s0.harts|) && Run(s0, sched) == s
  }

  lemma {:induction false} RunSnoc(s: State, sched: seq<nat>, h: nat)
    requires Schedule(sched, |s.harts|) && h < |s.harts|
    ensures Schedule(sched + [h], |s.harts|) && Run(s, sched + [h]) == Step(Run(s, sched), h)
    decreases |sched|
  {
    hide Step;
    if sched == [] {
      assert (sched + [h])[1..] == [];
    } else {
      assert (sched + [h])[0] == sched[0] && (sched + [h])[1..] == sched[1..] + [h];
      RunSnoc(Step(s, sched[0]), sched[1..], h);
    }
  }

  lemma {:induction false} Go(s0: State, s: State, h: nat, k: nat)
    requires Reaches(s0, s) && h < |s.harts|
    ensures Reaches(s0, Steps(s, h, k))
  {
    hide Step;
    if k > 0 {
      Go(s0, s, h, k - 1);
      var sched: seq<nat> :| Schedule(sched, |s0.harts|) && Run(s0, sched) == Steps(s, h, k - 1);
      RunSnoc(s0, sched, h);
    }
  }

  lemma Start(s0: State)
    ensures Reaches(s0, s0)
  {
    assert Schedule([], |s0.harts|) && Run(s0, []) == s0;
  }

  /** One hart's part of a state: lock word, counters and the hart itself. */
  function With(s: State, h: nat, tokens: int, passed: int, t: Hart): (s': State)
    requires h < |s.harts|
  {
    s.(tokens := tokens, passed := passed, harts := s.harts[h := t])
  }

  /** Call wait_barrier and take a token, undisturbed. */
  lemma Arrive(s0: State, s: State, h: nat)
    requires Reaches(s0, s) && h < |s.harts| && s.harts[h].pc.Out? && !s.locked
    ensures Reaches(s0, With(s, h, s.tokens - 1, s.passed,
            Hart(LastRead, s.tokens, s.harts[h].begun + 1, s.harts[h].finished)))
  {
    hide Reaches;
    Go(s0, s, h, 6);
    var t := s.harts[h];
    var s3 := s.(locked := true, harts := s.harts[h := t.(pc := DecRead, begun := t.begun + 1)]);
    assert Steps(s, h, 3) == s3 by {
      assert Steps(s, h, 1).harts[h] == t.(pc := TestA, begun := t.begun + 1);
      assert Steps(s, h, 2).harts[h] == t.(pc := SwapA, begun := t.begun + 1);
      assert Steps(s, h, 3).harts == s3.harts;
    }
    var s6 := With(s, h, s.tokens - 1, s.passed, Hart(LastRead, s.tokens, t.begun + 1, t.finished));
    assert Steps(s, h, 6) == s6 by {
      assert Steps(s, h, 4).harts[h] == Hart(DecWrite, s.tokens, t.begun + 1, t.finished);
      assert Steps(s, h, 5).harts[h] == Hart(RelA, s.tokens, t.begun + 1, t.finished);
      assert Steps(s, h, 6).harts == s6.harts;
    }
  }

  /** Leave as one of the waiting harts after a reset, undisturbed. */
  lemma Pass(s0: State, s: State, h: nat)
    requires Reaches(s0, s) && h < |s.harts| && s.harts[h].pc.SpinTokens? && !s.locked && s.tokens == s.initial
    ensures Reaches(s0, With(s, h, s.tokens, s.passed + 1,
            Hart(Out, s.passed, s.harts[h].begun, s.harts[h].finished + 1)))
  {
    hide Reaches;
    Go(s0, s, h, 6);
    var t := s.harts[h];
    var s3 := s.(locked := true, harts := s.harts[h := t.(pc := IncRead)]);
    assert Steps(s, h, 3) == s3 by {
      assert Steps(s, h, 1).harts[h] == t.(pc := TestB);
      assert Steps(s, h, 2).harts[h] == t.(pc := SwapB);
      assert Steps(s, h, 3).harts == s3.harts;
    }
    var s6 := With(s, h, s.tokens, s.passed + 1, Hart(Out, s.passed, t.begun, t.finished + 1));
    assert Steps(s, h, 6) == s6 by {
      assert Steps(s, h, 4).harts[h] == Hart(IncWrite, s.passed, t.begun, t.finished);
      assert Steps(s, h, 5).harts[h] == Hart(RelB, s.passed, t.begun, t.finished);
      assert Steps(s, h, 6).harts == s6.harts;
    }
  }

  /** Read LAST_HART. */
  lemma Decide(s0: State, s: State, h: nat)
    requires Reaches(s0, s) && h < |s.harts| && s.harts[h].pc.LastRead?
    ensures Reaches(s0, With(s, h, s.tokens, s.passed,
            s.harts[h].(pc := if s.tokens == 0 then SetPassed else SpinTokens)))
  {
    hide Reaches;
    Go(s0, s, h, 1);
    assert Steps(s, h, 1) == Step(Steps(s, h, 0), h);
  }

  /** Set `passed` to 1. */
  lemma Restart(s0: State, s: State, h: nat)
    requires Reaches(s0, s) && h < |s.harts| && s.harts[h].pc.SetPassed?
    ensures Reaches(s0, With(s, h, s.tokens, 1, s.harts[h].(pc := ResetTokens)))
  {
    hide Reaches;
    Go(s0, s, h, 1);
    assert Steps(s, h, 1) == Step(Steps(s, h, 0), h);
  }

  /** Reset the tokens. */
  lemma Refill(s0: State, s: State, h: nat)
    requires Reaches(s0, s) && h < |s.harts| && s.harts[h].pc.ResetTokens?
    ensures Reaches(s0, With(s, h, s.initial, s.passed, s.harts[h].(pc := SpinPassed)).(resets := s.resets + 1))
  {
    hide Reaches;
    Go(s0, s, h, 1);
    assert Steps(s, h, 1) == Step(Steps(s, h, 0), h);
  }

  lemma Stays(s: State, h: nat)
    requires h < |s.harts| && s.harts[h].pc.SpinPassed? && s.passed != s.initial
    ensures Step(s, h) == s
  {
  }

  /** Two harts decrement before either reads LAST_HART: both take the last-hart branch, both
  end up waiting for `passed` to become 2, and no step changes anything any more. */
  lemma StuckReachable() returns (s: State)
    ensures Init(Fresh(2, 0), 2) && Reaches(Fresh(2, 0), s)
    ensures |s.harts| == 2 && BarrierTwo.Doomed(s) && Step(s, 0) == s && Step(s, 1) == s
  {
    hide Reaches;
    var s0 := Fresh(2, 0);
    var o := Hart(Out, 0, 0, 0);
    assert s0.harts == [o, o];
    Start(s0);
    Arrive(s0, s0, 0);
    var a, b := Hart(LastRead, 2, 1, 0), Hart(LastRead, 1, 1, 0);
    var s1 := With(s0, 0, 1, 0, a);
    Arrive(s0, s1, 1);
    assert With(s1, 1, 0, 0, b).harts == [a, b];
    s := BothDecide(s0);
  }

  lemma BothDecide(s0: State) returns (s: State)
    requires Reaches(s0, State(false, 0, 0, 2, 0, [Hart(LastRead, 2, 1, 0), Hart(LastRead, 1, 1, 0)]))
    ensures Reaches(s0, s)
    ensures |s.harts| == 2 && BarrierTwo.Doomed(s) && Step(s, 0) == s && Step(s, 1) == s
  {
    hide Reaches, Step;
    var a, b := Hart(LastRead, 2, 1, 0), Hart(LastRead, 1, 1, 0);
    s := State(false, 0, 0, 2, 0, [a, b]);
    Decide(s0, s, 0);
    s := With(s, 0, 0, 0, a.(pc := SetPassed));
    Decide(s0, s, 1);
    s := With(s, 1, 0, 0, b.(pc := SetPassed));
    Restart(s0, s, 0);
    s := With(s, 0, 0, 1, a.(pc := ResetTokens));
    Restart(s0, s, 1);
    s := With(s, 1, 0, 1, b.(pc := ResetTokens));
    Refill(s0, s, 0);
    s := With(s, 0, 2, 1, a.(pc := SpinPassed)).(resets := 1);
    Refill(s0, s, 1);
    s := With(s, 1, 2, 1, b.(pc := SpinPassed)).(resets := 2);
    Stays(s, 0);
    Stays(s, 1);
  }

  /** Harts 0 and 3..k-1 of n arrive and wait for the reset. */
  lemma {:induction false} Gather(n: nat, k: nat) returns (s: State)
    requires 3 <= k <= n
    ensures Reaches(Fresh(n, 0), s) && |s.harts| == n && s.initial == n
    ensures !s.locked && s.tokens == n + 2 - k
    ensures s.harts[0].pc.SpinTokens? && s.harts[0].begun == 1 && s.harts[0].finished == 0
    ensures forall i :: 1 <= i < n && (i < 3 || k <= i) ==> s.harts[i] == Hart(Out, 0, 0, 0)
  {
    hide Reaches, Step;
    var s0 := Fresh(n, 0);
    if k == 3 {
      Start(s0);
      s := Queue(s0, s0, 0);
    } else {
      s := Gather(n, k - 1);
      s := Queue(s0, s, k - 1);
    }
  }

  /** Arrive, but not as the last. */
  lemma Queue(s0: State, s: State, h: nat) returns (s': State)
    requires Reaches(s0, s) && h < |s.harts| && s.harts[h].pc.Out? && !s.locked && s.tokens != 1
    ensures s' == With(s, h, s.tokens - 1, s.passed,
            Hart(SpinTokens, s.tokens, s.harts[h].begun + 1, s.harts[h].finished))
    ensures Reaches(s0, s')
  {
    hide Reaches, Step;
    Arrive(s0, s, h);
    s' := With(s, h, s.tokens - 1, s.passed, Hart(LastRead, s.tokens, s.harts[h].begun + 1, s.harts[h].finished));
    Decide(s0, s', h);
    s' := With(s', h, s.tokens - 1, s.passed, s'.harts[h].(pc := SpinTokens));
    assert s'.harts == s.harts[h := s'.harts[h]];
  }

  /** With three or more harts reuse is not safe. Harts 1 and 2 both take the last-hart branch
  of the first round; hart 0 leaves, begins its second call and takes a token; then the reset
  by hart 2 lets it finish that second call while hart 1 has begun only one. */
  lemma ManyHartsUnsafe(n: nat) returns (s: State)
    requires n >= 3
    ensures Init(Fresh(n, 0), n) && Reaches(Fresh(n, 0), s)
    ensures |s.harts| == n && s.harts[0].finished == 2 && s.harts[1].begun == 1
  {
    hide Reaches, Step;
    var s0 := Fresh(n, 0);
    s := Gather(n, n);
    Arrive(s0, s, 1);
    s := With(s, 1, 1, s.passed, Hart(LastRead, 2, 1, 0));
    Arrive(s0, s, 2);
    s := With(s, 2, 0, s.passed, Hart(LastRead, 1, 1, 0));
    s := TwoLast(s0, s);
    s := SecondReset(s0, s);
  }

  lemma TwoLast(s0: State, s: State) returns (s': State)
    requires Reaches(s0, s) && |s.harts| >= 3 && s.tokens == 0 && s.harts[1].pc.LastRead? && s.harts[2].pc.LastRead?
    ensures Reaches(s0, s') && |s'.harts| == |s.harts| && s'.initial == s.initial && s'.locked == s.locked
    ensures s'.tokens == s.initial && s'.passed == 1 && s'.harts[0] == s.harts[0]
    ensures s'.harts[1] == s.harts[1].(pc := SpinPassed) && s'.harts[2] == s.harts[2].(pc := SetPassed)
  {
    hide Reaches, Step;
    s' := s;
    Decide(s0, s', 1);
    s' := With(s', 1, 0, s.passed, s.harts[1].(pc := SetPassed));
    Decide(s0, s', 2);
    s' := With(s', 2, 0, s.passed, s.harts[2].(pc := SetPassed));
    Restart(s0, s', 1);
    s' := With(s', 1, 0, 1, s.harts[1].(pc := ResetTokens));
    Refill(s0, s', 1);
    s' := With(s', 1, s.initial, 1, s.harts[1].(pc := SpinPassed)).(resets := s.resets + 1);
  }

  lemma SecondReset(s0: State, s: State) returns (s': State)
    requires Reaches(s0, s) && |s.harts| >= 3 && !s.locked && s.tokens == s.initial && s.initial >= 3
    requires s.harts[0].pc.SpinTokens? && s.harts[2].pc.SetPassed?
    ensures Reaches(s0, s') && |s'.harts| == |s.harts| && s'.harts[1] == s.harts[1]
    ensures s'.harts[0].finished == s.harts[0].finished + 2
  {
    hide Reaches, Step;
    s' := s;
    Pass(s0, s', 0);
    s' := With(s', 0, s'.tokens, s'.passed + 1, Hart(Out, s'.passed, s'.harts[0].begun, s'.harts[0].finished + 1));
    s' := Queue(s0, s', 0);
    Restart(s0, s', 2);
    s' := With(s', 2, s'.tokens, 1, s'.harts[2].(pc := ResetTokens));
    Refill(s0, s', 2);
    s' := With(s', 2, s'.initial, 1, s'.harts[2].(pc := SpinPassed)).(resets := s'.resets + 1);
    Pass(s0, s', 0);
    s' := With(s', 0, s'.tokens, 2, Hart(Out, 1, s'.harts[0].begun, s'.harts[0].finished + 1));
  }

  /** In s no hart has finished more calls than every hart has begun. */
  ghost predicate InStep(s: State) {
    forall i, j :: 0 <= i < |s.harts| && 0 <= j < |s.harts| ==> s.harts[i].finished <= s.harts[j].begun
  }

  /** n harts can use the barrier again and again. */
  ghost predicate Reusable(n: nat) {
    forall s0, s :: Init(s0, n) && Reaches(s0, s) ==> InStep(s)
  }

  lemma {:induction false} OneHart(s: State, sched: seq<nat>)
    requires |s.harts| == 1 && Schedule(sched, 1)
    requires s.harts[0].begun == s.harts[0].finished + if s.harts[0].pc.Out? then 0 else 1
    ensures InStep(Run(s, sched))
    decreases |sched|
  {
    if sched != [] {
      OneHart(Step(s, sched[0]), sched[1..]);
    }
  }

  lemma TwoHarts(s: State, sched: seq<nat>)
    requires Init(s, 2) && Schedule(sched, 2)
    ensures InStep(Run(s, sched))
  {
    hide Step, Run;
    BarrierTwo.NoEarlyExit(s, sched);
  }

  /** The barrier can be used again exactly by at most two harts. */
  lemma ReusableExactly(n: nat)
    ensures Reusable(n) <==> n <= 2
  {
    hide Step;
    if n >= 3 {
      var s := ManyHartsUnsafe(n);
      assert !InStep(s);
    } else {
      forall s0, s | Init(s0, n) && Reaches(s0, s)
        ensures InStep(s)
      {
        var sched: seq<nat> :| Schedule(sched, |s0.harts|) && Run(s0, sched) == s;
        assert |s.harts| == n;
        if n == 2 {
          TwoHarts(s0, sched);
        } else if n == 1 {
          assert s0.harts[0] in s0.harts;
          OneHart(s0, sched);
        }
      }
    }
  }
}
