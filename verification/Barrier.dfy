/** The self-resetting barrier (lock.c) over the spinlock (spinlock.S), as an interleaving of
n harts with one step per shared read or write, under sequential consistency. */
module Barrier {

  /** Where a hart is. The comments name the access that the next step makes. */
  datatype Pc =
    | Out // not in wait_barrier
    | TestA | SwapA // acquire: lw, amoswap
    | DecRead | DecWrite // tokens--
    | RelA // release
    | LastRead // LAST_HART, outside the lock
    | SetPassed | ResetTokens | SpinPassed // last hart
    | SpinTokens // other harts
    | TestB | SwapB | IncRead | IncWrite | RelB // passed++ under the lock

  /** `reg` is the register between a read and a write; `begun` and `finished` count calls. */
  datatype Hart = Hart(pc: Pc, reg: int, begun: nat, finished: nat)

  /** `initial` never changes; `resets` counts executions of the reset, for the specification. */
  datatype State = State(locked: bool, tokens: int, passed: int, initial: int, resets: nat, harts: seq<Hart>)

  function Goto(s: State, h: nat, pc: Pc): State
    requires h < |s.harts|
  {
    s.(harts := s.harts[h := s.harts[h].(pc := pc)])
  }

  function Finish(s: State, h: nat): State
    requires h < |s.harts|
  {
    s.(harts := s.harts[h := s.harts[h].(pc := Out, finished := s.harts[h].finished + 1)])
  }

  /** The next step of hart h; a failed spin check leaves the state as it is. */
  function Step(s: State, h: nat): (s': State)
    requires h < |s.harts|
    ensures |s'.harts| == |s.harts| && s'.initial == s.initial
    ensures forall j :: 0 <= j < |s.harts| && j != h ==> s'.harts[j] == s.harts[j]
  {
    var t := s.harts[h];
    match t.pc
    case Out => s.(harts := s.harts[h := t.(pc := TestA, begun := t.begun + 1)])
    case TestA => if s.locked then s else Goto(s, h, SwapA)
    case SwapA => if s.locked then Goto(s, h, TestA) else Goto(s.(locked := true), h, DecRead)
    case DecRead => s.(harts := s.harts[h := t.(pc := DecWrite, reg := s.tokens)])
    case DecWrite => Goto(s.(tokens := t.reg - 1), h, RelA)
    case RelA => Goto(s.(locked := false), h, LastRead)
    case LastRead => if s.tokens == 0 then Goto(s, h, SetPassed) else Goto(s, h, SpinTokens)
    case SetPassed => Goto(s.(passed := 1), h, ResetTokens)
    case ResetTokens => Goto(s.(tokens := s.initial, resets := s.resets + 1), h, SpinPassed)
    case SpinPassed => if s.passed == s.initial then Finish(s, h) else s
    case SpinTokens => if s.tokens == s.initial then Goto(s, h, TestB) else s
    case TestB => if s.locked then s else Goto(s, h, SwapB)
    case SwapB => if s.locked then Goto(s, h, TestB) else Goto(s.(locked := true), h, IncRead)
    case IncRead => s.(harts := s.harts[h := t.(pc := IncWrite, reg := s.passed)])
    case IncWrite => Goto(s.(passed := t.reg + 1), h, RelB)
    case RelB => Finish(s.(locked := false), h)
  }

  /** A schedule is any sequence of hart numbers. */
  predicate Schedule(sched: seq<nat>, n: nat) {
    forall i :: 0 <= i < |sched| ==> sched[i] < n
  }

  function Run(s: State, sched: seq<nat>): (s': State)
    requires Schedule(sched, |s.harts|)
    ensures |s'.harts| == |s.harts|
    decreases |sched|
  {
    if sched == [] then s else Run(Step(s, sched[0]), sched[1..])
  }

  /** After init_barrier(bar, n): `passed` is not initialised, nobody has called yet. */
  predicate Init(s: State, n: nat) {
    && |s.harts| == n && s.initial == n && s.tokens == n && !s.locked && s.resets == 0
    && forall h <- s.harts :: h.pc == Out && h.begun == 0 && h.finished == 0
  }

  // ---- the spinlock ----

  predicate Holds(pc: Pc) {
    pc.DecRead? || pc.DecWrite? || pc.RelA? || pc.IncRead? || pc.IncWrite? || pc.RelB?
  }

  /** At most one hart is in a critical section, and the lock word says whether one is. */
  ghost predicate LockInv(s: State) {
    && (forall i, j :: 0 <= i < j < |s.harts| ==> !(Holds(s.harts[i].pc) && Holds(s.harts[j].pc)))
    && (s.locked <==> exists i :: 0 <= i < |s.harts| && Holds(s.harts[i].pc))
  }

  lemma LockStep(s: State, h: nat)
    requires LockInv(s) && h < |s.harts|
    ensures LockInv(Step(s, h))
  {
    var s' := Step(s, h);
    if Holds(s.harts[h].pc) || Holds(s'.harts[h].pc) {
      if s'.locked {
        assert Holds(s'.harts[h].pc);
      }
    } else if s.locked {
      var i :| 0 <= i < |s.harts| && Holds(s.harts[i].pc);
      assert Holds(s'.harts[i].pc);
    } else {
      forall i | 0 <= i < |s'.harts|
        ensures !Holds(s'.harts[i].pc)
      {
        assert i != h ==> s'.harts[i] == s.harts[i];
      }
    }
  }

  // ---- first use, any number of harts ----

  /** The hart has taken its first token. */
  predicate Arrived(h: Hart) {
    h.begun >= 2 || (h.begun == 1 && !(h.pc.TestA? || h.pc.SwapA? || h.pc.DecRead? || h.pc.DecWrite?))
  }

  function Count(hs: seq<Hart>): (c: nat)
    ensures c <= |hs|
  {
    if hs == [] then 0 else Count(hs[..|hs| - 1]) + if Arrived(hs[|hs| - 1]) then 1 else 0
  }

  lemma {:induction false} CountUpdate(hs: seq<Hart>, h: nat, t: Hart)
    requires h < |hs|
    ensures Count(hs[h := t]) == Count(hs) - (if Arrived(hs[h]) then 1 else 0) + (if Arrived(t) then 1 else 0)
    decreases |hs|
  {
    var n := |hs| - 1;
    var hs' := hs[h := t];
    if h == n {
      assert hs'[..n] == hs[..n];
    } else {
      assert hs'[..n] == hs[..n][h := t];
      CountUpdate(hs[..n], h, t);
    }
  }

  lemma {:induction false} CountFull(hs: seq<Hart>)
    ensures Count(hs) == |hs| <==> forall i :: 0 <= i < |hs| ==> Arrived(hs[i])
  {
    if hs != [] {
      var n := |hs| - 1;
      CountFull(hs[..n]);
      if forall i :: 0 <= i < |hs| ==> Arrived(hs[i]) {
        assert forall i :: 0 <= i < n ==> Arrived(hs[..n][i]);
      } else if Count(hs[..n]) == n {
        assert forall i :: 0 <= i < n ==> Arrived(hs[i]) by {
          assert forall i :: 0 <= i < n ==> hs[i] == hs[..n][i];
        }
      }
    }
  }

  lemma {:induction false} CountPositive(hs: seq<Hart>, h: nat)
    requires h < |hs| && Arrived(hs[h])
    ensures Count(hs) >= 1
  {
    if h < |hs| - 1 {
      CountPositive(hs[..|hs| - 1], h);
    }
  }

  /** A hart before the first reset: in its first call at most, and in the last-hart branch
  only if everybody has arrived. */
  predicate Early(s: State, t: Hart) {
    && t.finished == 0
    && (t.begun == 0 <==> t.pc.Out?) && t.begun <= 1
    && (t.pc.DecWrite? ==> t.reg == s.tokens)
    && (t.pc.SetPassed? || t.pc.ResetTokens? ==> Count(s.harts) == |s.harts|)
    && !t.pc.SpinPassed? && !t.pc.TestB? && !t.pc.SwapB? && !t.pc.IncRead? && !t.pc.IncWrite? && !t.pc.RelB?
  }

  /** Before the first reset every decrement counts: tokens are the harts still missing.
  From the reset on, everybody has arrived. */
  ghost predicate FirstUse(s: State) {
    if s.resets == 0 then
      s.tokens == |s.harts| - Count(s.harts) && forall i :: 0 <= i < |s.harts| ==> Early(s, s.harts[i])
    else
      forall i :: 0 <= i < |s.harts| ==> Arrived(s.harts[i])
  }

  /** What one step does to the number of arrived harts before the first reset. */
  lemma CountStep(s: State, h: nat)
    requires s.resets == 0 && h < |s.harts| && Early(s, s.harts[h])
    ensures Count(Step(s, h).harts) == Count(s.harts) + if s.harts[h].pc.DecWrite? then 1 else 0
  {
    hide Count;
    var t' := Step(s, h).harts[h];
    assert Step(s, h).harts == s.harts[h := t'];
    CountUpdate(s.harts, h, t');
  }

  lemma EarlySelf(s: State, h: nat)
    requires s.resets == 0 && s.initial == |s.harts| && h < |s.harts| && Early(s, s.harts[h])
    requires s.tokens == |s.harts| - Count(s.harts) && Step(s, h).resets == 0
    ensures Early(Step(s, h), Step(s, h).harts[h])
  {
    hide Count;
    CountStep(s, h);
    if Arrived(s.harts[h]) {
      CountPositive(s.harts, h);
    }
  }

  lemma EarlyOther(s: State, h: nat, i: nat)
    requires s.resets == 0 && s.initial == |s.harts| && h < |s.harts| && i < |s.harts| && i != h
    requires Early(s, s.harts[h]) && Early(s, s.harts[i]) && Step(s, h).resets == 0
    requires !(Holds(s.harts[i].pc) && Holds(s.harts[h].pc))
    ensures Early(Step(s, h), Step(s, h).harts[i])
  {
    hide Count;
    CountStep(s, h);
    CountAtMost(Step(s, h).harts);
  }

  lemma CountAtMost(hs: seq<Hart>)
    ensures Count(hs) <= |hs|
  {
  }

  lemma FirstUseStep(s: State, h: nat)
    requires LockInv(s) && FirstUse(s) && s.initial == |s.harts| && h < |s.harts|
    ensures FirstUse(Step(s, h))
  {
    hide Count, Early, Holds;
    var s' := Step(s, h);
    if s.resets > 0 {
      forall i | 0 <= i < |s.harts|
        ensures Arrived(s'.harts[i])
      {
        assert Arrived(s.harts[i]);
      }
    } else if s'.resets == 0 {
      CountStep(s, h);
      TokensStep(s, h);
      forall i | 0 <= i < |s.harts|
        ensures Early(s', s'.harts[i])
      {
        if i == h {
          EarlySelf(s, h);
        } else {
          EarlyOther(s, h, i);
        }
      }
    } else {
      FirstReset(s, h);
    }
  }

  lemma TokensStep(s: State, h: nat)
    requires s.resets == 0 && h < |s.harts| && Early(s, s.harts[h]) && Step(s, h).resets == 0
    ensures Step(s, h).tokens == s.tokens - if s.harts[h].pc.DecWrite? then 1 else 0
  {
    hide Count;
  }

  /** The first reset happens when all have arrived. */
  lemma FirstReset(s: State, h: nat)
    requires s.resets == 0 && h < |s.harts| && Early(s, s.harts[h]) && Step(s, h).resets > 0
    ensures forall i :: 0 <= i < |s.harts| ==> Arrived(Step(s, h).harts[i])
  {
    hide Count;
    CountFull(s.harts);
    forall i | 0 <= i < |s.harts|
      ensures Arrived(Step(s, h).harts[i])
    {
      assert Arrived(s.harts[i]);
    }
  }

  lemma InitInv(s: State, n: nat)
    requires Init(s, n)
    ensures LockInv(s) && FirstUse(s)
  {
    forall i | 0 <= i < n
      ensures s.harts[i].pc == Out && s.harts[i].begun == 0 && s.harts[i].finished == 0
    {
      assert s.harts[i] in s.harts;
    }
    NobodyArrived(s.harts);
  }

  lemma {:induction false} NobodyArrived(hs: seq<Hart>)
    requires forall i :: 0 <= i < |hs| ==> !Arrived(hs[i])
    ensures Count(hs) == 0
  {
    if hs != [] {
      NobodyArrived(hs[..|hs| - 1]);
    }
  }

  lemma {:induction false} RunInv(s: State, sched: seq<nat>)
    requires LockInv(s) && FirstUse(s) && s.initial == |s.harts| && Schedule(sched, |s.harts|)
    ensures LockInv(Run(s, sched)) && FirstUse(Run(s, sched))
    decreases |sched|
  {
    hide LockInv, FirstUse, Step;
    if sched != [] {
      LockStep(s, sched[0]);
      FirstUseStep(s, sched[0]);
      RunInv(Step(s, sched[0]), sched[1..]);
    }
  }

  /** For any number of harts and every schedule: the spinlock has at most one holder at any
  time; until the first reset no decrement of tokens is lost; and a hart that has left its
  first wait_barrier did so after all n harts had taken their token. */
  lemma FirstUseSafe(s: State, n: nat, sched: seq<nat>)
    requires Init(s, n) && Schedule(sched, n)
    ensures var r := Run(s, sched);
            && (forall i, j :: 0 <= i < j < n ==> !(Holds(r.harts[i].pc) && Holds(r.harts[j].pc)))
            && (r.resets == 0 ==> r.tokens == n - Count(r.harts))
            && ((exists i :: 0 <= i < n && r.harts[i].finished >= 1) ==> forall j :: 0 <= j < n ==> Arrived(r.harts[j]))
  {
    hide Step, Arrived, Count;
    InitInv(s, n);
    RunInv(s, sched);
  }
}
