/** Whole runs of the machine: any sequence of guest PLIC accesses and interrupts on all harts,
carried out by the trap path, is a run of the emulated interrupt controller. */
module TrapRuns {
  import opened Wrappers
  import opened Bits
  import opened Plic
  import opened Vplic
  import opened Emulate
  import opened VplicRuns
  import Tables
  import Kmem
  import opened Trap

  /** What happens next, and on which hart. An interrupt claims the wished source if it is
  enabled in the hart's context, and nothing otherwise. */
  datatype Action =
    | Load(hart: nat, rd: nat, funct3: nat, compressed: bool, htval: Word)
    | Store(hart: nat, rs2: nat, compressed: bool, htval: Word)
    | Irq(hart: nat, scause: Word, wish: Word32)

  predicate ActionOk(a: Action, n: nat) {
    && a.hart < n
    && (a.Load? ==> a.rd < 32 && (a.funct3 == 2 || a.funct3 == 6))
    && (a.Store? ==> a.rs2 < 32)
    && (a.Irq? ==> a.scause >= 0x8000_0000_0000_0000)
  }

  /** The harts of one machine: different cores and vCPUs over one PLIC and one memory. */
  ghost predicate Machine(cores: seq<Core>, plic: array<Word32>, k: Kmem.Kmem) {
    && (forall i :: 0 <= i < |cores| ==> cores[i].vcpu.driver.plic == plic && cores[i].kmem == k)
    && (forall i, j :: 0 <= i < j < |cores| ==> cores[i] != cores[j] && cores[i].vcpu != cores[j].vcpu)
  }

  /** Core c runs its guest, and its part of the state is (w, u). */
  ghost predicate Shown(c: Core, h: Hart, w: Regs, u: Cpu)
    reads c, c.vcpu, c.vcpu.driver.plic, c.kmem
  {
    && c.GuestMode() && c.TableOk() && c.vcpu.hart == h
    && c.vcpu.driver.Words() == w && c.vcpu.last == u.last && c.vcpu.vseip == u.vseip
  }

  ghost predicate Shows(cores: seq<Core>, plic: array<Word32>, k: Kmem.Kmem, hs: seq<Hart>, s: Sys)
    requires Machine(cores, plic, k)
    reads (set c <- cores), (set c <- cores :: c.vcpu), plic, k
  {
    && |cores| == |hs| == |s.cpus|
    && forall i :: 0 <= i < |cores| ==> Shown(cores[i], hs[i], s.w, s.cpus[i])
  }

  lemma RunSnoc(hs: seq<Hart>, ss: seq<Sys>, es: seq<Event>, e: Event)
    requires IsRun(hs, ss, es) && Possible(hs, ss[|es|], e)
    ensures IsRun(hs, ss + [Step(hs, ss[|es|], e)], es + [e])
  {
    hide Step, Possible, Init;
  }

  // ---- what an action does ----

  /** The action does not end in a panic: a load or store that hits an existing PLIC register, the
  external interrupt or the timer. */
  predicate Proceeds(m: Tables.Memory, table: nat, a: Action, h: Hart, w: Regs, last: Word32) {
    match a
    case Load(_, _, _, _, htval) => LoadOf(m, table, htval, Project(w, h, last), h).Some?
    case Store(_, _, _, htval) =>
      var pa := PlicAddress(m, table, htval);
      pa.Some? && StoreAccepted(pa.value - DTB_PLIC)
    case Irq(_, scause, _) => scause == 0x8000_0000_0000_0009 || scause == 0x8000_0000_0000_0005
  }

  /** The event that the interrupt controller sees of it; `val` is the value a store stores. */
  function EventOf(m: Tables.Memory, table: nat, a: Action, h: Hart, w: Regs, val: Word32): Option<Event> {
    match a
    case Load(_, _, _, _, _) => None
    case Store(i, _, _, htval) =>
      var pa := PlicAddress(m, table, htval);
      if pa.Some? then Some(GuestStore(i, pa.value - DTB_PLIC, val)) else None
    case Irq(i, scause, wish) =>
      if scause == 0x8000_0000_0000_0009 then Some(Interrupt(i, if IsEnabled(w, h.pctx, wish) then wish else 0))
      else None
  }

  /** What `sw rs2` would store now. */
  function StoredNow(c: Core, rs2: nat): Word32
    requires rs2 < 32 && |c.x| == 32 && |c.vcpu.x| == 32
    reads c, c.vcpu
  {
    (if rs2 == 0 then c.vcpu.x[0] else c.x[rs2]) % WORD32
  }

  /** One action of one core, and the state it leads to. */
  method CoreStep(c: Core, a: Action, ghost h: Hart, ghost w: Regs, ghost u: Cpu, stackTop: Word, clobbered: seq<Word>)
    returns (ok: bool)
    requires Shown(c, h, w, u) && ActionOk(a, a.hart + 1) && |clobbered| == 32 && clobbered[0] == 0
    modifies c, c.vcpu, c.vcpu.driver.plic, c.kmem`mem, c.kmem`freelist, c.kmem`own
    ensures c.SameMemory()
    ensures ok <==> Proceeds(c.kmem.mem, c.table, a, h, w, u.last)
    ensures ok ==>
      match a
      case Load(_, _, _, _, _) => Shown(c, h, w, u)
      case Store(_, rs2, _, htval) =>
        var off, val := PlicAddress(c.kmem.mem, c.table, htval).value - DTB_PLIC, old(StoredNow(c, rs2));
        Shown(c, h, StoreRegs(w, h, u.last, off, val),
              Cpu(StoreLast(h, u.last, off, val), u.vseip && !Completes(h, u.last, off, val), []))
      case Irq(_, scause, wish) =>
        var id := if IsEnabled(w, h.pctx, wish) then wish else 0;
        Shown(c, h, w, if scause == 0x8000_0000_0000_0009 then Cpu(id, u.vseip || id != 0, []) else u)
  {
    hide DevsOk, LoadOf, Loaded, Project, StoreRegs, StoreLast, Completes, PlicAddress, AbsStore, StoreAccepted,
         IsEnabled, Tables.Inv;
    match a
    case Load(_, rd, funct3, compressed, htval) =>
      ok := c.TrappedLoad(rd, funct3, compressed, htval, stackTop, clobbered);
    case Store(_, rs2, compressed, htval) =>
      ok := c.TrappedStore(rs2, compressed, htval, stackTop, clobbered);
    case Irq(_, scause, wish) =>
      var enabled := c.vcpu.driver.PlicGetEnabled(c.vcpu.hart.pctx, wish);
      ok := c.TrappedInterrupt(scause, if enabled != 0 then wish else 0, stackTop, clobbered);
  }

  // ---- all harts ----

  /** One action of one of the harts: it goes through exactly if it hits something that exists;
  then the interrupt controller makes the step of its event, or none, and the other harts stay as
  they are. */
  method MachineStep(cores: seq<Core>, ghost plic: array<Word32>, ghost k: Kmem.Kmem, a: Action,
                     stackTop: Word, clobbered: seq<Word>, ghost hs: seq<Hart>, ghost s: Sys)
    returns (ok: bool, ghost e: Option<Event>)
    requires Machine(cores, plic, k) && ActionOk(a, |cores|) && Shows(cores, plic, k, hs, s)
    requires |clobbered| == 32 && clobbered[0] == 0
    modifies (set c <- cores), (set c <- cores :: c.vcpu), plic, k`mem, k`freelist, k`own
    ensures k.mem == old(k.mem) && k.freelist == old(k.freelist) && k.own == old(k.own) && |s.cpus| == |hs| == |cores|
    ensures ok <==> Proceeds(k.mem, cores[a.hart].table, a, hs[a.hart], s.w, s.cpus[a.hart].last)
    ensures e == EventOf(k.mem, cores[a.hart].table, a, hs[a.hart], s.w,
                         if a.Store? then old(StoredNow(cores[a.hart], a.rs2)) else 0)
    ensures ok ==> Fits(a, e)
    ensures ok && e.Some? ==> Possible(hs, s, e.value) && Shows(cores, plic, k, hs, Step(hs, s, e.value))
    ensures ok && e.None? ==> Shows(cores, plic, k, hs, s)
  {
    hide Tables.Inv, DevsOk, StoreRegs, StoreLast, Completes, IsEnabled, Project, PlicAddress, LoadOf, StoreAccepted,
         Fits;
    var i := a.hart;
    assert Shown(cores[i], hs[i], s.w, s.cpus[i]);
    assert cores[i].vcpu.driver.plic == plic && cores[i].kmem == k;
    ghost var val := if a.Store? then StoredNow(cores[i], a.rs2) else 0;
    ok := CoreStep(cores[i], a, hs[i], s.w, s.cpus[i], stackTop, clobbered);
    e := EventOf(k.mem, cores[i].table, a, hs[i], s.w, val);
    if ok {
      EventFits(k.mem, cores[i].table, a, hs[i], s.w, s.cpus[i].last, val);
      ghost var s' := if e.Some? then Step(hs, s, e.value) else s;
      forall j | 0 <= j < |cores| && j != i
        ensures Shown(cores[j], hs[j], s'.w, s'.cpus[j])
      {
        assert old(Shown(cores[j], hs[j], s.w, s.cpus[j]));
      }
    }
  }

  /** What an action can be to the interrupt controller: a load and the timer are nothing, a store
  is a store of that hart, an external interrupt a claim of the source wished or of nothing. */
  predicate Fits(a: Action, e: Option<Event>) {
    match a
    case Load(_, _, _, _, _) => e.None?
    case Store(i, _, _, _) => e.Some? && e.value.GuestStore? && e.value.hart == i
    case Irq(i, scause, wish) =>
      if scause == 0x8000_0000_0000_0009 then e == Some(Interrupt(i, wish)) || e == Some(Interrupt(i, 0)) else e.None?
  }

  function Events(trace: seq<Option<Event>>): seq<Event> {
    if trace == [] then []
    else
      var n := |trace| - 1;
      Events(trace[..n]) + if trace[n].Some? then [trace[n].value] else []
  }

  lemma EventsSnoc(trace: seq<Option<Event>>, e: Option<Event>)
    ensures Events(trace + [e]) == Events(trace) + if e.Some? then [e.value] else []
  {
    assert (trace + [e])[..|trace|] == trace;
  }

  lemma EventFits(m: Tables.Memory, table: nat, a: Action, h: Hart, w: Regs, last: Word32, val: Word32)
    requires Proceeds(m, table, a, h, w, last)
    ensures Fits(a, EventOf(m, table, a, h, w, val))
  {
    hide PlicAddress, LoadOf, IsEnabled, StoreAccepted, Project;
  }

  /** Any sequence of actions from boot, on all harts in any order. Every action is carried out
  until one panics (`ok` tells whether all were), the events of those carried out are the run so
  far, and after the last the machine is in the run's last state. So all that is proved about runs
  of the interrupt controller holds of the machine; and memory and tables never change. */
  method RunTraps(cores: seq<Core>, ghost plic: array<Word32>, ghost k: Kmem.Kmem, actions: seq<Action>,
                  stackTop: Word, clobbered: seq<Word>, ghost hs: seq<Hart>, ghost s0: Sys)
    returns (ok: bool, n: nat, ghost ss: seq<Sys>, ghost trace: seq<Option<Event>>)
    requires Machine(cores, plic, k) && Shows(cores, plic, k, hs, s0) && Init(hs, s0)
    requires forall i :: 0 <= i < |actions| ==> ActionOk(actions[i], |cores|)
    requires |clobbered| == 32 && clobbered[0] == 0
    modifies (set c <- cores), (set c <- cores :: c.vcpu), plic, k`mem, k`freelist, k`own
    ensures k.mem == old(k.mem) && k.freelist == old(k.freelist) && k.own == old(k.own)
    ensures n == |trace| <= |actions| && (forall i :: 0 <= i < n ==> Fits(actions[i], trace[i]))
    ensures IsRun(hs, ss, Events(trace)) && ss[0] == s0 && |hs| == |cores|
    ensures ok ==> n == |actions| && Shows(cores, plic, k, hs, ss[|ss| - 1])
    ensures !ok ==> n < |actions| && Panics(k.mem, cores, actions[n], hs, ss[|ss| - 1])
  {
    hide Tables.Inv, DevsOk, Step, Possible, Proceeds, EventOf, Fits, Events, Shown;
    ss, trace, ok, n := [s0], [], true, 0;
    StartRun(hs, s0);
    while ok && n < |actions|
      invariant 0 <= n == |trace| <= |actions| && forall i :: 0 <= i < n ==> Fits(actions[i], trace[i])
      invariant k.mem == old(k.mem) && k.freelist == old(k.freelist) && k.own == old(k.own)
      invariant IsRun(hs, ss, Events(trace)) && ss[0] == s0
      invariant ok ==> Shows(cores, plic, k, hs, ss[|ss| - 1])
      invariant !ok ==> n < |actions| && Panics(k.mem, cores, actions[n], hs, ss[|ss| - 1])
    {
      ghost var a, s := actions[n], ss[|ss| - 1];
      ghost var e;
      ok, e := MachineStep(cores, plic, k, actions[n], stackTop, clobbered, hs, s);
      if ok {
        EventsSnoc(trace, e);
        if e.Some? {
          RunSnoc(hs, ss, Events(trace), e.value);
          ss := ss + [Step(hs, s, e.value)];
        }
        trace := trace + [e];
        n := n + 1;
      }
    }
  }

  /** Action a would panic in state s. */
  predicate Panics(m: Tables.Memory, cores: seq<Core>, a: Action, hs: seq<Hart>, s: Sys) {
    && |s.cpus| == |hs| == |cores| && ActionOk(a, |cores|)
    && !Proceeds(m, cores[a.hart].table, a, hs[a.hart], s.w, s.cpus[a.hart].last)
  }

  lemma StartRun(hs: seq<Hart>, s0: Sys)
    requires Init(hs, s0)
    ensures IsRun(hs, [s0], Events([]))
  {
  }
}
