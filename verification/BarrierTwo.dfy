/** The barrier with two harts, the configured number: any number of rounds. */
module BarrierTwo {
  import opened Barrier

  /** Stages of a call: Enter (before the token is taken), Taken, Pass and Reset (last-hart
  branch), Last (waiting for the other), Wait, Count (about to increment passed), Leave. */
  datatype Stage = Idle | Enter | Taken | Pass | Reset | Last | Wait | Counting | Leave

  function StageOf(pc: Pc): Stage {
    match pc
    case Out => Idle
    case TestA => Enter case SwapA => Enter case DecRead => Enter case DecWrite => Enter
    case RelA => Taken case LastRead => Taken
    case SetPassed => Pass
    case ResetTokens => Reset
    case SpinPassed => Last
    case SpinTokens => Wait
    case TestB => Counting case SwapB => Counting case IncRead => Counting case IncWrite => Counting
    case RelB => Leave
  }

  /** Two harts in the same round: what tokens (t) and passed (p) are. */
  predicate Level(a: Stage, b: Stage, t: int, p: int) {
    match a
    case Idle => (b.Idle? && t == 2) || ((b.Last? || b.Leave?) && t == 2 && p == 2)
    case Enter => (b.Enter? && t == 2) || ((b.Taken? || b.Wait?) && t == 1)
    case Taken => ((b.Taken? || b.Wait? || b.Pass?) && t == 0) || (b.Reset? && t == 0 && p == 1)
                  || (b.Last? && t == 2 && p == 1)
    case Pass => ((b.Pass? || b.Wait?) && t == 0) || (b.Reset? && t == 0 && p == 1) || (b.Last? && t == 2 && p == 1)
    case Reset => ((b.Reset? || b.Wait?) && t == 0 && p == 1) || (b.Last? && t == 2 && p == 1)
    case Last => ((b.Last? || b.Wait? || b.Counting?) && t == 2 && p == 1) || (b.Leave? && t == 2 && p == 2)
    case _ => false
  }

  /** Hart a has begun one round more than hart b, which may still be leaving. */
  predicate Ahead(a: Stage, b: Stage, t: int, p: int) {
    match a
    case Enter => (b.Idle? && t == 2) || ((b.Last? || b.Leave?) && t == 2 && p == 2)
    case Taken => (b.Idle? && t == 1) || (b.Last? && t == 1 && p == 2)
    case Wait => (b.Idle? && t == 1) || (b.Last? && t == 1 && p == 2)
    case _ => false
  }

  predicate Related(a: Stage, b: Stage, lead: int, t: int, p: int) {
    if lead == 0 then Level(a, b, t, p) || Level(b, a, t, p)
    else if lead == 1 then Ahead(a, b, t, p)
    else if lead == -1 then Ahead(b, a, t, p)
    else false
  }

  predicate HartOk(s: State, h: Hart) {
    && h.begun == h.finished + (if h.pc.Out? then 0 else 1)
    && (h.pc.DecWrite? ==> h.reg == s.tokens)
    && (h.pc.IncWrite? ==> h.reg == s.passed)
  }

  /** The invariant from the point of view of hart h. */
  predicate Seen(s: State, h: nat)
    requires |s.harts| == 2 && h < 2
  {
    && s.initial == 2 && HartOk(s, s.harts[h]) && HartOk(s, s.harts[1 - h])
    && Related(StageOf(s.harts[h].pc), StageOf(s.harts[1 - h].pc), s.harts[h].begun - s.harts[1 - h].begun, s.tokens,
       s.passed)
  }

  predicate Exclusive(s: State, h: nat)
    requires |s.harts| == 2 && h < 2
  {
    !(Holds(s.harts[h].pc) && Holds(s.harts[1 - h].pc))
  }

  lemma EnterStep(s: State, h: nat)
    requires |s.harts| == 2 && h < 2 && Seen(s, h) && Exclusive(s, h)
    requires var pc := s.harts[h].pc; pc.Out? || pc.TestA? || pc.SwapA? || pc.DecRead?
    ensures Seen(Step(s, h), h)
  {
  }

  lemma TakeStep(s: State, h: nat)
    requires |s.harts| == 2 && h < 2 && Seen(s, h) && Exclusive(s, h)
    requires var pc := s.harts[h].pc; pc.DecWrite? || pc.RelA?
    ensures Seen(Step(s, h), h)
  {
  }

  lemma DecideStep(s: State, h: nat)
    requires |s.harts| == 2 && h < 2 && Seen(s, h) && Exclusive(s, h)
    requires var pc := s.harts[h].pc; pc.LastRead? || pc.SetPassed?
    ensures Seen(Step(s, h), h)
  {
  }

  lemma LastStep(s: State, h: nat)
    requires |s.harts| == 2 && h < 2 && Seen(s, h) && Exclusive(s, h)
    requires var pc := s.harts[h].pc; pc.ResetTokens? || pc.SpinPassed? || pc.SpinTokens?
    ensures Seen(Step(s, h), h)
  {
  }

  lemma PassStep(s: State, h: nat)
    requires |s.harts| == 2 && h < 2 && Seen(s, h) && Exclusive(s, h)
    requires var pc := s.harts[h].pc; pc.TestB? || pc.SwapB? || pc.IncRead?
    ensures Seen(Step(s, h), h)
  {
  }

  lemma LeaveStep(s: State, h: nat)
    requires |s.harts| == 2 && h < 2 && Seen(s, h) && Exclusive(s, h)
    requires var pc := s.harts[h].pc; pc.IncWrite? || pc.RelB?
    ensures Seen(Step(s, h), h)
  {
  }

  lemma RelatedFlip(a: Stage, b: Stage, lead: int, t: int, p: int)
    ensures Related(a, b, lead, t, p) <==> Related(b, a, -lead, t, p)
  {
  }

  lemma SeenFlip(s: State)
    requires |s.harts| == 2
    ensures Seen(s, 0) <==> Seen(s, 1)
  {
    hide Related;
    RelatedFlip(StageOf(s.harts[0].pc), StageOf(s.harts[1].pc), s.harts[0].begun - s.harts[1].begun, s.tokens,
        s.passed);
  }

  ghost predicate TwoInv(s: State) {
    |s.harts| == 2 && LockInv(s) && Seen(s, 0)
  }

  lemma TwoStep(s: State, h: nat)
    requires TwoInv(s) && h < 2
    ensures TwoInv(Step(s, h))
  {
    hide Seen, Step, Holds;
    SeenFlip(s);
    LockStep(s, h);
    assert Exclusive(s, h);
    match s.harts[h].pc {
      case Out => EnterStep(s, h);
      case TestA => EnterStep(s, h);
      case SwapA => EnterStep(s, h);
      case DecRead => EnterStep(s, h);
      case DecWrite => TakeStep(s, h);
      case RelA => TakeStep(s, h);
      case LastRead => DecideStep(s, h);
      case SetPassed => DecideStep(s, h);
      case ResetTokens => LastStep(s, h);
      case SpinPassed => LastStep(s, h);
      case SpinTokens => LastStep(s, h);
      case TestB => PassStep(s, h);
      case SwapB => PassStep(s, h);
      case IncRead => PassStep(s, h);
      case IncWrite => LeaveStep(s, h);
      case RelB => LeaveStep(s, h);
    }
    SeenFlip(Step(s, h));
  }

  lemma {:induction false} TwoRun(s: State, sched: seq<nat>)
    requires TwoInv(s) && Schedule(sched, 2)
    ensures TwoInv(Run(s, sched))
    decreases |sched|
  {
    hide TwoInv, Step;
    SizeTwo(s);
    if sched != [] {
      TwoStep(s, sched[0]);
      TwoRun(Step(s, sched[0]), sched[1..]);
    }
  }

  lemma SizeTwo(s: State)
    requires TwoInv(s)
    ensures |s.harts| == 2
  {
  }

  /** With two harts, over any number of rounds and for every schedule: no hart finishes its
  k-th wait_barrier before both have begun their k-th, although LAST_HART is read outside
  the lock and a fast hart may already be in the next round. */
  lemma NoEarlyExit(s: State, sched: seq<nat>)
    requires Init(s, 2) && Schedule(sched, 2)
    ensures var r := Run(s, sched);
            forall i, j :: 0 <= i < 2 && 0 <= j < 2 ==> r.harts[i].finished <= r.harts[j].begun
  {
    hide Step;
    InitInv(s, 2);
    assert s.harts[0] in s.harts && s.harts[1] in s.harts;
    TwoRun(s, sched);
  }

  // ---- the stuck states ----

  predicate InLastBranch(pc: Pc) {
    pc.SetPassed? || pc.ResetTokens? || pc.SpinPassed?
  }

  /** Both harts took the last-hart branch of one round. */
  predicate Doomed(s: State)
    requires |s.harts| == 2
  {
    InLastBranch(s.harts[0].pc) && InLastBranch(s.harts[1].pc)
  }

  /** A doomed state is never left: no hart finishes again, whatever the schedule. */
  lemma {:induction false} DoomedForever(s: State, sched: seq<nat>)
    requires TwoInv(s) && Doomed(s) && Schedule(sched, 2)
    ensures var r := Run(s, sched);
            Doomed(r) && r.harts[0].finished == s.harts[0].finished && r.harts[1].finished == s.harts[1].finished
    decreases |sched|
  {
    hide Step, TwoInv;
    SizeTwo(s);
    if sched != [] {
      TwoStep(s, sched[0]);
      DoomedStep(s, sched[0]);
      DoomedForever(Step(s, sched[0]), sched[1..]);
    }
  }

  lemma DoomedStep(s: State, h: nat)
    requires TwoInv(s) && Doomed(s) && h < 2
    ensures var r := Step(s, h);
            Doomed(r) && r.harts[0].finished == s.harts[0].finished && r.harts[1].finished == s.harts[1].finished
  {
    hide LockInv;
  }

  /** A step that gets its hart on: not a failed spin check or a lost race for the lock. */
  predicate Productive(s: State, h: nat)
    requires h < |s.harts|
  {
    Step(s, h) != s && !((s.harts[h].pc.SwapA? || s.harts[h].pc.SwapB?) && s.locked)
  }

  /** In every other reachable state some hart has a productive step. */
  lemma OthersProgress(s: State)
    requires TwoInv(s) && !Doomed(s)
    ensures Productive(s, 0) || Productive(s, 1)
  {
    if s.locked {
      var i :| 0 <= i < 2 && Holds(s.harts[i].pc);
      HolderProgress(s, i);
    } else {
      FreeProgress(s);
    }
  }

  lemma HolderProgress(s: State, i: nat)
    requires i < |s.harts| && Holds(s.harts[i].pc)
    ensures Productive(s, i)
  {
    assert Step(s, i).harts[i].pc != s.harts[i].pc;
  }

  lemma FreeProgress(s: State)
    requires TwoInv(s) && !Doomed(s) && !s.locked
    ensures Productive(s, 0) || Productive(s, 1)
  {
    hide LockInv, HartOk;
    if Moves(s, 0) {
      assert Step(s, 0).harts[0].pc != s.harts[0].pc;
    } else if Moves(s, 1) {
      assert Step(s, 1).harts[1].pc != s.harts[1].pc;
    } else {
      Waiting(s);
    }
  }

  /** Hart h is not at a spin check that fails. */
  predicate Moves(s: State, h: nat)
    requires h < |s.harts|
  {
    !(s.harts[h].pc.SpinPassed? && s.passed != s.initial) && !(s.harts[h].pc.SpinTokens? && s.tokens != s.initial)
  }

  lemma Waiting(s: State)
    requires TwoInv(s) && !Moves(s, 0) && !Moves(s, 1)
    ensures Doomed(s)
  {
    hide LockInv, HartOk;
  }

  /** The stuck end of a doomed state: both harts spin on passed, which stays 1. */
  lemma DoomedEnd(s: State)
    requires TwoInv(s) && s.harts[0].pc.SpinPassed? && s.harts[1].pc.SpinPassed?
    ensures Step(s, 0) == s && Step(s, 1) == s && s.passed == 1
  {
    hide LockInv, HartOk;
  }

  /** No step changes anything exactly when both harts wait for `passed` to reach 2. */
  lemma StuckExactly(s: State)
    requires TwoInv(s)
    ensures Step(s, 0) == s && Step(s, 1) == s <==>
            s.harts[0].pc.SpinPassed? && s.harts[1].pc.SpinPassed? && s.passed == 1
  {
    if s.harts[0].pc.SpinPassed? && s.harts[1].pc.SpinPassed? {
      DoomedEnd(s);
    } else if Doomed(s) {
      hide TwoInv;
      var h := if s.harts[0].pc.SpinPassed? then 1 else 0;
      assert Step(s, h).harts[h].pc != s.harts[h].pc;
    } else {
      OthersProgress(s);
    }
  }
}
