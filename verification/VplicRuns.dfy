/** Runs of the emulated interrupt controller: any interleaving of guest stores and
external interrupts on all harts, over the one physical PLIC. */
module VplicRuns {
  import opened Wrappers
  import opened Bits
  import opened Config
  import opened Plic
  import opened Vplic

  /** What a hart does to the claim/complete register of its physical context. */
  datatype PlicEvent = Claimed(id: Word32) | Completed(id: Word32)

  datatype Cpu = Cpu(last: Word32, vseip: bool, log: seq<PlicEvent>)

  datatype Sys = Sys(w: Regs, cpus: seq<Cpu>)

  datatype Event = GuestStore(hart: nat, off: nat, val: Word32) | Interrupt(hart: nat, id: Word32)

  ghost predicate ConfigOk(hs: seq<Hart>) {
    && (forall i :: 0 <= i < |hs| ==> DevsOk(hs[i].devs) && Context(hs[i].pctx))
    && (forall i, j :: 0 <= i < j < |hs| ==> hs[i].pctx != hs[j].pctx)
  }

  /** The PLIC hands out enabled sources only, or 0 when nothing is pending. */
  predicate Possible(hs: seq<Hart>, s: Sys, e: Event)
    requires |s.cpus| == |hs|
  {
    && e.hart < |hs|
    && (e.Interrupt? ==> e.id == 0 || IsEnabled(s.w, hs[e.hart].pctx, e.id))
  }

  /** A guest store as emulate_store carries it out, or vplic_handle_interrupt. */
  function Step(hs: seq<Hart>, s: Sys, e: Event): (s': Sys)
    requires |s.cpus| == |hs| && Possible(hs, s, e)
    ensures |s'.cpus| == |hs|
  {
    var h, c := hs[e.hart], s.cpus[e.hart];
    match e
    case GuestStore(_, off, val) =>
      var done := Completes(h, c.last, off, val);
      Sys(StoreRegs(s.w, h, c.last, off, val),
          s.cpus[e.hart := Cpu(StoreLast(h, c.last, off, val), c.vseip && !done,
                               if done then c.log + [Completed(c.last)] else c.log)])
    case Interrupt(_, id) =>
      s.(cpus := s.cpus[e.hart := Cpu(id, c.vseip || id != 0, c.log + [Claimed(id)])])
  }

  /** Boot: no source enabled in the harts' contexts, nothing claimed, hvip clear. */
  ghost predicate Init(hs: seq<Hart>, s: Sys) {
    && |s.cpus| == |hs|
    && (forall i, p :: 0 <= i < |hs| ==> !IsEnabled(s.w, hs[i].pctx, p))
    && (forall i :: 0 <= i < |hs| ==> s.cpus[i] == Cpu(0, false, []))
  }

  /** A run is a list of states, each one step after the other. */
  ghost predicate IsRun(hs: seq<Hart>, ss: seq<Sys>, es: seq<Event>) {
    && |ss| == |es| + 1 && Init(hs, ss[0])
    && (forall i :: 0 <= i < |ss| ==> |ss[i].cpus| == |hs|)
    && (forall i :: 0 <= i < |es| ==> Possible(hs, ss[i], es[i]) && ss[i + 1] == Step(hs, ss[i], es[i]))
  }

  // ---- claim logs ----

  /** Contents of last_claimed_irq_id after a log. */
  function LastOf(log: seq<PlicEvent>): Word32 {
    if log == [] || log[|log| - 1].Completed? then 0 else log[|log| - 1].id
  }

  /** Every completion names the most recent claim, not completed yet. */
  ghost predicate LogOk(log: seq<PlicEvent>) {
    forall i :: 0 <= i < |log| && log[i].Completed? ==> log[i].id == LastOf(log[..i])
  }

  function Claims(log: seq<PlicEvent>): nat {
    if log == [] then 0
    else Claims(log[..|log| - 1]) + if log[|log| - 1].Claimed? && log[|log| - 1].id != 0 then 1 else 0
  }

  function Completions(log: seq<PlicEvent>): nat {
    if log == [] then 0
    else Completions(log[..|log| - 1]) + if log[|log| - 1].Completed? && log[|log| - 1].id != 0 then 1 else 0
  }

  /** Claims that a later claim overwrote before the guest completed them. */
  function Lost(log: seq<PlicEvent>): nat {
    if log == [] then 0
    else Lost(log[..|log| - 1]) + if log[|log| - 1].Claimed? && LastOf(log[..|log| - 1]) != 0 then 1 else 0
  }

  /** Conservation: every nonzero claim is completed, outstanding, or was overwritten. */
  lemma {:induction false} ClaimsConserved(log: seq<PlicEvent>)
    requires LogOk(log)
    ensures Claims(log) == Completions(log) + (if LastOf(log) != 0 then 1 else 0) + Lost(log)
  {
    if log != [] {
      var n := |log| - 1;
      var front := log[..n];
      forall i | 0 <= i < n && front[i].Completed?
        ensures front[i].id == LastOf(front[..i])
      {
        assert front[..i] == log[..i];
      }
      ClaimsConserved(front);
    }
  }

  lemma LogStep(log: seq<PlicEvent>, e: PlicEvent)
    requires LogOk(log) && (e.Completed? ==> e.id == LastOf(log))
    ensures LogOk(log + [e]) && LastOf(log + [e]) == if e.Completed? then 0 else e.id
  {
    var log' := log + [e];
    forall i | 0 <= i < |log'| && log'[i].Completed?
      ensures log'[i].id == LastOf(log'[..i])
    {
      if i < |log| {
        assert log'[..i] == log[..i];
      } else {
        assert log'[..i] == log;
      }
    }
  }

  // ---- what every step keeps ----

  ghost predicate CpuOk(h: Hart, c: Cpu) {
    && (c.last == 0 || Owns(h.devs, c.last))
    && (c.last != 0 ==> c.vseip)
    && c.last == LastOf(c.log) && LogOk(c.log)
  }

  /** A context's enabled sources are interrupts of the VM the hart runs. */
  ghost predicate OwnEnables(w: Regs, h: Hart) {
    forall p :: IsEnabled(w, h.pctx, p) ==> Owns(h.devs, p)
  }

  ghost predicate SysOk(hs: seq<Hart>, s: Sys) {
    && |s.cpus| == |hs|
    && (forall i :: 0 <= i < |hs| ==> CpuOk(hs[i], s.cpus[i]) && OwnEnables(s.w, hs[i]))
  }

  lemma StoreKeepsOwnEnables(w: Regs, h: Hart, last: Word32, off: nat, val: Word32)
    requires DevsOk(h.devs) && OwnEnables(w, h)
    ensures OwnEnables(StoreRegs(w, h, last, off, val), h)
  {
    hide V2P, P2V, IsEnabled, SetGroup, SetPriority, SetThreshold, SetClaim, DevsOk, Owns, Completes, IsContextReg;
    var w' := StoreRegs(w, h, last, off, val);
    forall p | IsEnabled(w', h.pctx, p)
      ensures Owns(h.devs, p)
    {
      SetPriorityEffect(w, V2P(h.devs, off / 4), val, h.pctx, p);
      SetThresholdEffect(w, h.pctx, val, h.pctx, p);
      SetClaimEffect(w, h.pctx, last, h.pctx, p);
      if IsEnableAccess(off) && (off - 0x2000) / 0x80 == h.vctx {
        EnabledByGroup(w, h, EnableGroup(off), val, p);
      }
    }
  }

  lemma EnabledByGroup(w: Regs, h: Hart, g: nat, val: Word32, p: int)
    requires DevsOk(h.devs) && IsEnabled(SetGroup(w, h, g, val, 32), h.pctx, p)
    ensures IsEnabled(w, h.pctx, p) || Owns(h.devs, p)
  {
    hide V2P, P2V, SetGroup, DevsOk, Owns, Bit;
    SetGroupEffect(w, h, g, val, 32, h.pctx, p);
    if !IsEnabled(w, h.pctx, p) {
      var i: nat :| i < 32 && GroupSource(h.devs, g, i) == p;
      RenamingInverse(h.devs, 32 * g + i);
    }
  }

  lemma StoreKeepsOtherEnables(w: Regs, h: Hart, last: Word32, off: nat, val: Word32, h': Hart)
    requires h.pctx != h'.pctx && OwnEnables(w, h')
    ensures OwnEnables(StoreRegs(w, h, last, off, val), h')
  {
    hide IsEnabled, StoreRegs, Owns;
    forall p | IsEnabled(StoreRegs(w, h, last, off, val), h'.pctx, p)
      ensures Owns(h'.devs, p)
    {
      StoreElsewhere(w, h, last, off, val, h'.pctx, p);
    }
  }

  lemma StoreKeepsCpu(h: Hart, c: Cpu, off: nat, val: Word32)
    requires CpuOk(h, c)
    ensures var done := Completes(h, c.last, off, val);
            CpuOk(h, Cpu(StoreLast(h, c.last, off, val), c.vseip &&
                !done, if done then c.log + [Completed(c.last)] else c.log))
  {
    hide Completes, LogOk, LastOf, Owns;
    LogStep(c.log, Completed(c.last));
  }

  lemma StepKeeps(hs: seq<Hart>, s: Sys, e: Event)
    requires ConfigOk(hs) && SysOk(hs, s) && Possible(hs, s, e)
    ensures SysOk(hs, Step(hs, s, e))
  {
    hide DevsOk, LogOk, LastOf, Owns, StoreRegs, StoreLast, Completes, IsEnabled, CpuOk, OwnEnables;
    var h, c := hs[e.hart], s.cpus[e.hart];
    var s' := Step(hs, s, e);
    match e
    case GuestStore(_, off, val) =>
      StoreKeepsCpu(h, c, off, val);
      forall i | 0 <= i < |hs|
        ensures OwnEnables(s'.w, hs[i])
      {
        if i == e.hart {
          StoreKeepsOwnEnables(s.w, h, c.last, off, val);
        } else {
          StoreKeepsOtherEnables(s.w, h, c.last, off, val, hs[i]);
        }
      }
    case Interrupt(_, id) =>
      ClaimKeepsCpu(s.w, h, c, id);
  }

  lemma ClaimKeepsCpu(w: Regs, h: Hart, c: Cpu, id: Word32)
    requires CpuOk(h, c) && OwnEnables(w, h) && (id == 0 || IsEnabled(w, h.pctx, id))
    ensures CpuOk(h, Cpu(id, c.vseip || id != 0, c.log + [Claimed(id)]))
  {
    hide Bit, LogOk, LastOf, Owns;
    LogStep(c.log, Claimed(id));
  }

  lemma {:induction false} RunKeeps(hs: seq<Hart>, ss: seq<Sys>, es: seq<Event>, n: nat)
    requires ConfigOk(hs) && IsRun(hs, ss, es) && n < |ss|
    ensures SysOk(hs, ss[n])
  {
    hide Possible, Step, ConfigOk, IsEnabled, Owns;
    if n > 0 {
      RunKeeps(hs, ss, es, n - 1);
      StepKeeps(hs, ss[n - 1], es[n - 1]);
    }
  }

  // ---- results over all runs ----

  /** In every state of every run, on every hart: nonzero physical claims are nonzero
  completions, plus the outstanding one, plus those overwritten by a further claim; every
  completion named the most recent claim; and an outstanding claim is signalled to the guest. */
  lemma ClaimAccounting(hs: seq<Hart>, ss: seq<Sys>, es: seq<Event>, n: nat, i: nat)
    requires ConfigOk(hs) && IsRun(hs, ss, es) && n < |ss| && i < |hs|
    ensures |ss[n].cpus| == |hs|
    ensures var c := ss[n].cpus[i];
            && Claims(c.log) == Completions(c.log) + (if c.last != 0 then 1 else 0) + Lost(c.log)
            && LogOk(c.log)
            && (c.last != 0 ==> c.vseip)
  {
    hide LogOk, LastOf, Owns, IsRun, ConfigOk;
    RunKeeps(hs, ss, es, n);
    assert CpuOk(hs[i], ss[n].cpus[i]);
    ClaimsConserved(ss[n].cpus[i].log);
  }

  /** In every state of every run a context has enabled interrupts of its own VM only. So
  while a claim is outstanding, the guest's claim read yields a nonzero virtual interrupt,
  and writing that number back completes exactly the claimed source. */
  lemma ClaimRoundTrip(hs: seq<Hart>, ss: seq<Sys>, es: seq<Event>, n: nat, i: nat)
    requires ConfigOk(hs) && IsRun(hs, ss, es) && n < |ss| && i < |hs|
    requires hs[i].vctx < CONTEXTS && |ss[n].cpus| == |hs|
    ensures OwnEnables(ss[n].w, hs[i])
    ensures var h, c, off := hs[i], ss[n].cpus[i], 0x20_0004 + 0x1000 * hs[i].vctx;
            c.last != 0 ==>
              && 0 < P2V(h.devs, c.last) < 0x8000_0000
              && AbsLoad(Project(ss[n].w, h, c.last), h.vctx, off) == Some(P2V(h.devs, c.last))
              && Completes(h, c.last, off, P2V(h.devs, c.last)) && h.pctx <= 15871
              && Written(ss[n].w, StoreRegs(ss[n].w, h, c.last, off, P2V(h.devs, c.last)),
                         0x20_0004 + 0x1000 * h.pctx, c.last)
  {
    hide LogOk, LastOf, Owns, IsRun, ConfigOk, V2P, P2V, IsContextReg, GroupWord, Prios, Pendings, Enables,
         GetThreshold, SetClaim, SetGroup, SetPriority, SetThreshold;
    RunKeeps(hs, ss, es, n);
    var h, c := hs[i], ss[n].cpus[i];
    assert CpuOk(h, c) && OwnEnables(ss[n].w, h);
    if c.last != 0 {
      HartOk(hs, i);
      var off := ContextReg(CLAIM_BASE, h.vctx);
      ClaimOffset(h.vctx);
      OwnedInt(h.devs, c.last);
      RenamingInverse(h.devs, c.last);
      StoreComplete(h, c.last, 0);
      StoreComplete(h, c.last, P2V(h.devs, c.last));
      PhysicalContext(hs, i);
      ClaimWritten(ss[n].w, h.pctx, c.last);
    }
  }

  /** The register at a byte offset holds v now, and every other register what it held. */
  predicate Written(w: Regs, w': Regs, byte: nat, v: Word32) {
    forall j :: 0 <= j < PLIC_WORDS ==> w'[j] == if 4 * j == byte then v else w[j]
  }

  lemma ClaimWritten(w: Regs, c: nat, id: Word32)
    requires Context(c)
    ensures Written(w, SetClaim(w, c, id), 0x20_0004 + 0x1000 * c, id) && c <= 15871
  {
    hide SetClaim;
    forall j | 0 <= j < PLIC_WORDS
      ensures SetClaim(w, c, id)[j] == if 4 * j == 0x20_0004 + 0x1000 * c then id else w[j]
    {
      WritesAt(w, c, 0, id, j);
    }
  }

  /** The log tells the truth about the PLIC: a guest store writes the claim register of a context
  exactly if it is logged as a completion by the hart of that context, and writes the id logged. */
  lemma CompletionWritten(hs: seq<Hart>, s: Sys, e: Event, c: nat)
    requires ConfigOk(hs) && |s.cpus| == |hs| && Possible(hs, s, e) && e.GuestStore? && c <= 15871
    ensures var byte, s' := 0x20_0004 + 0x1000 * c, Step(hs, s, e);
            var u, u' := s.cpus[e.hart], s'.cpus[e.hart];
            if u'.log == u.log then At(s'.w, byte) == At(s.w, byte)
            else
              && u'.log == u.log + [Completed(u.last)]
              && At(s'.w, byte) == if c == hs[e.hart].pctx then u.last else At(s.w, byte)
  {
    hide ConfigOk, V2P, AsInt, IsContextReg, SetGroup, SetPriority, SetThreshold, SetClaim, IsEnabled;
    var h, u := hs[e.hart], s.cpus[e.hart];
    var i := 0x8_0001 + 0x400 * c;
    PhysicalContext(hs, e.hart);
    WritesAt(s.w, h.pctx, V2P(h.devs, e.off / 4), e.val, i);
    WritesAt(s.w, h.pctx, 0, u.last, i);
    if IsEnableAccess(e.off) {
      GroupElsewhere(s.w, h, EnableGroup(e.off), e.val, 32, i);
    }
    Quarter(i);
  }

  lemma PhysicalContext(hs: seq<Hart>, i: nat)
    requires ConfigOk(hs) && i < |hs|
    ensures 0 <= hs[i].pctx <= 15871
  {
  }

  /** The enable loop stays below the context registers. */
  lemma {:induction false} GroupElsewhere(w: Regs, h: Hart, g: nat, val: Word32, n: nat, i: nat)
    requires 0x8_0000 <= i < PLIC_WORDS && n <= 32
    ensures SetGroup(w, h, g, val, n)[i] == w[i]
  {
    hide Bit, V2P;
    if n > 0 {
      GroupElsewhere(w, h, g, val, n - 1, i);
    }
  }

  lemma HartOk(hs: seq<Hart>, i: nat)
    requires ConfigOk(hs) && i < |hs|
    ensures DevsOk(hs[i].devs)
  {
  }

  /** Interrupts of a VM are nonnegative as an int. */
  lemma OwnedInt(devs: seq<MmioDev>, p: Word32)
    requires DevsOk(devs) && Owns(devs, p)
    ensures AsInt(p) == p
  {
  }

  lemma ClaimOffset(vctx: nat)
    requires vctx < CONTEXTS
    ensures var off := ContextReg(CLAIM_BASE, vctx);
            && IsContextReg(off, CLAIM_BASE) && (off - CLAIM_BASE) / 0x1000 == vctx &&
               !IsContextReg(off, THRESHOLD_BASE)
            && !IsPriorityAccess(off) && !IsPendingAccess(off) && !IsEnableAccess(off)
  {
    ModUnique(vctx * 0x1000, 0x1000, vctx, 0);
    ClassifiersDisjoint(ContextReg(CLAIM_BASE, vctx));
  }

  // ---- when a claim is lost ----

  /** Up to state n, hart i took no interrupt while a claim of its own was outstanding. */
  ghost predicate NeverOverwritten(hs: seq<Hart>, ss: seq<Sys>, es: seq<Event>, n: nat, i: nat)
    requires n <= |es| <= |ss| && forall m :: 0 <= m < |ss| ==> i < |ss[m].cpus|
  {
    forall m :: 0 <= m < n && es[m].Interrupt? && es[m].hart == i ==> ss[m].cpus[i].last == 0
  }

  /** In every run: no claim of hart i has been lost if and only if it took no interrupt while
  one was outstanding. */
  lemma {:induction false} LostExactly(hs: seq<Hart>, ss: seq<Sys>, es: seq<Event>, n: nat, i: nat)
    requires ConfigOk(hs) && IsRun(hs, ss, es) && n < |ss| && i < |hs|
    ensures |ss[n].cpus| == |hs|
    ensures Lost(ss[n].cpus[i].log) == 0 <==> NeverOverwritten(hs, ss, es, n, i)
    decreases n
  {
    hide ConfigOk, StoreRegs, StoreLast, Completes, IsEnabled, LogOk, LastOf;
    if n > 0 {
      LostExactly(hs, ss, es, n - 1, i);
      RunKeeps(hs, ss, es, n - 1);
      assert CpuOk(hs[i], ss[n - 1].cpus[i]);
      LostStep(hs, ss[n - 1], es[n - 1], i);
      var now := es[n - 1].Interrupt? && es[n - 1].hart == i && ss[n - 1].cpus[i].last != 0;
      assert NeverOverwritten(hs, ss, es, n, i) <==> NeverOverwritten(hs, ss, es, n - 1, i) && !now;
    }
  }

  /** What one step does to the number of lost claims of hart i. */
  lemma LostStep(hs: seq<Hart>, s: Sys, e: Event, i: nat)
    requires |s.cpus| == |hs| && Possible(hs, s, e) && i < |hs| && CpuOk(hs[i], s.cpus[i])
    ensures var now := e.Interrupt? && e.hart == i && s.cpus[i].last != 0;
            Lost(Step(hs, s, e).cpus[i].log) == Lost(s.cpus[i].log) + if now then 1 else 0
  {
    hide StoreRegs, StoreLast, Completes, IsEnabled, LogOk, Owns, LastOf;
    if e.hart == i {
      var log := s.cpus[i].log;
      LostSnoc(log, Completed(s.cpus[i].last));
      if e.Interrupt? {
        LostSnoc(log, Claimed(e.id));
      }
    }
  }

  lemma LostSnoc(log: seq<PlicEvent>, e: PlicEvent)
    ensures Lost(log + [e]) == Lost(log) + if e.Claimed? && LastOf(log) != 0 then 1 else 0
  {
    assert (log + [e])[..|log|] == log;
  }

  /** A claim that returns 0 drops the outstanding id all the same: the guest then reads 0 from
  its claim register although VSEIP is still set. */
  lemma ZeroClaim(hs: seq<Hart>, ss: seq<Sys>, es: seq<Event>, n: nat, i: nat)
    requires ConfigOk(hs) && IsRun(hs, ss, es) && n < |es| && i < |hs| && hs[i].vctx < CONTEXTS
    requires es[n] == Interrupt(i, 0)
    ensures |ss[n].cpus| == |ss[n + 1].cpus| == |hs|
    ensures var c, c', off := ss[n].cpus[i], ss[n + 1].cpus[i], ContextReg(CLAIM_BASE, hs[i].vctx);
            && c'.last == 0 && c'.vseip == c.vseip
            && AbsLoad(Project(ss[n + 1].w, hs[i], c'.last), hs[i].vctx, off) == Some(0)
            && (c.last != 0 ==> c'.vseip && Lost(c'.log) == Lost(c.log) + 1)
  {
    hide ConfigOk, IsEnabled, LogOk, LastOf, Owns, P2V, V2P, IsContextReg, GroupWord, Prios, Pendings, Enables,
         GetThreshold, Lost;
    RunKeeps(hs, ss, es, n);
    assert CpuOk(hs[i], ss[n].cpus[i]);
    LostStep(hs, ss[n], es[n], i);
    HartOk(hs, i);
    ClaimOffset(hs[i].vctx);
    StoreComplete(hs[i], 0, 0);
  }

  // ---- a run that loses a claim ----

  function OneHart(): Hart {
    Hart([MmioDev(0x1000_0000, 0x1000_0000, 0x1000, 6, 10, 10)], 1, 1)
  }

  function Silent(): Regs {
    seq(PLIC_WORDS, i => 0)
  }

  lemma SilentDisabled(c: int, p: int)
    ensures !IsEnabled(Silent(), c, p)
  {
    if Source(p) && Context(c) {
      ZeroBit(p % 32);
    }
  }

  /** The guest enables interrupt 10. */
  lemma EnableTen()
    ensures IsEnabled(StoreRegs(Silent(), OneHart(), 0, 0x2080, 1024), 1, 10)
    ensures !Completes(OneHart(), 0, 0x2080, 1024) && DevsOk(OneHart().devs)
  {
    hide IsEnabled, SetGroup, Bit, V2P, Pow2, DevsOk, IsContextReg;
    TenWired();
    BitTen();
    SetGroupBit(Silent(), OneHart(), 0, 1024, 32, 10);
  }

  lemma TenWired()
    ensures V2P(OneHart().devs, 10) == 10 && DevsOk(OneHart().devs)
  {
  }

  lemma BitTen()
    ensures Bit(1024, 10)
  {
    assert Pow2(10) == 1024;
    Pow2Bit(10, 10);
  }

  /** The guest enables interrupt 10, it is claimed, and before the guest completes it there is
  another interrupt, which claims 10 again or nothing. One claim is lost. */
  lemma LosingRun(again: Word32) returns (hs: seq<Hart>, ss: seq<Sys>, es: seq<Event>)
    requires again == 10 || again == 0
    ensures ConfigOk(hs) && |hs| == 1 && IsRun(hs, ss, es) && |es| == 3 && |ss[3].cpus| == 1
    ensures es[1] == Interrupt(0, 10) && es[2] == Interrupt(0, again)
    ensures Lost(ss[3].cpus[0].log) == 1 && ss[3].cpus[0].last == again && ss[3].cpus[0].vseip
  {
    hide IsEnabled, StoreRegs, Completes, DevsOk, Silent, Lost, StoreLast;
    hs := [OneHart()];
    es := [GuestStore(0, 0x2080, 1024), Interrupt(0, 10), Interrupt(0, again)];
    EnableTen();
    var w := StoreRegs(Silent(), OneHart(), 0, 0x2080, 1024);
    ss := [Sys(Silent(), [Cpu(0, false, [])]), Sys(w, [Cpu(0, false, [])]), Sys(w, [Cpu(10, true, [Claimed(10)])]),
           Sys(w, [Cpu(again, true, [Claimed(10), Claimed(again)])])];
    forall p
      ensures !IsEnabled(Silent(), 1, p)
    {
      SilentDisabled(1, p);
    }
    FirstStep(hs, ss[0], ss[1]);
    assert [] + [Claimed(10)] == [Claimed(10)];
    assert ss[2] == Step(hs, ss[1], es[1]);
    assert [Claimed(10)] + [Claimed(again)] == [Claimed(10), Claimed(again)];
    assert ss[3] == Step(hs, ss[2], es[2]);
    LostTwo(again);
  }

  lemma LostTwo(again: Word32)
    ensures Lost([Claimed(10), Claimed(again)]) == 1
  {
    assert [] + [Claimed(10)] == [Claimed(10)];
    assert [Claimed(10)] + [Claimed(again)] == [Claimed(10), Claimed(again)];
    LostSnoc([], Claimed(10));
    LostSnoc([Claimed(10)], Claimed(again));
  }

  lemma FirstStep(hs: seq<Hart>, s: Sys, s': Sys)
    requires hs == [OneHart()] && s == Sys(Silent(), [Cpu(0, false, [])])
    requires s' == Sys(StoreRegs(Silent(), OneHart(), 0, 0x2080, 1024), [Cpu(0, false, [])])
    ensures s' == Step(hs, s, GuestStore(0, 0x2080, 1024))
  {
    hide StoreRegs, Completes;
    EnableTen();
  }
}
