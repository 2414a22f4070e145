/** Trap entry and return (trap.S) around the emulation: what one trapped guest access does
to the guest's registers. */
module Trap {
  import opened Wrappers
  import opened Bits
  import opened Layout
  import opened Config
  import Tables
  import Kmem
  import Vmem
  import Translation
  import opened Regions
  import GuestPlan
  import GuestMap
  import HwWalk
  import opened Plic
  import opened Vplic
  import opened Emulate

  const INTERRUPT := 0x8000_0000_0000_0000 // bit 63 of scause
  const INT_SUPERVISOR_TIM := 5
  const INT_SUPERVISOR_EXT := 9
  const EXC_ECALL_FROM_VS := 10
  const EXC_LOAD_GUEST_PAGE_FAULT := 21
  const EXC_STORE_OR_AMO_GUEST_PAGE_FAULT := 23
  const DTB_PLIC_SIZE := 0x60_0000

  /** Registers other than x0 that `a` and `b` agree on. */
  ghost predicate SameRegs(a: seq<Word>, b: seq<Word>) {
    |a| == 32 && |b| == 32 && forall i :: 1 <= i < 32 ==> a[i] == b[i]
  }

  /** A hart that runs one vCPU: live registers, sscratch, and the address of the saved ones. */
  class Core {
    const vcpu: Vcpu
    const regsAddr: Word // &vcpu->regs
    const kmem: Kmem.Kmem
    const table: nat // vm_pgtable of the vCPU's VM
    var x: seq<Word>
    var sscratch: Word

    /** While the guest runs: sscratch points to the saved registers. */
    ghost predicate GuestMode()
      reads this, vcpu
    {
      vcpu.Valid() && |x| == 32 && x[0] == 0 && sscratch == regsAddr
    }

    /** The guest's table exists. */
    ghost predicate TableOk()
      reads this, kmem
    {
      kmem.Valid() && table in kmem.own.tables && kmem.own.tables[table] == Tables.Root(true)
    }

    constructor (vcpu: Vcpu, regsAddr: Word, kmem: Kmem.Kmem, table: nat)
      requires vcpu.Valid()
      ensures this.vcpu == vcpu && this.regsAddr == regsAddr && this.kmem == kmem && this.table == table && GuestMode()
    {
      this.vcpu, this.regsAddr, this.kmem, this.table := vcpu, regsAddr, kmem, table;
      sscratch := regsAddr;
      x := seq(32, i => 0);
    }

    /** `sd reg, i*8(base)`: the base register has to hold the address of the saved registers. */
    method Sd(i: nat, base: Word, v: Word)
      requires i < 32 && base == regsAddr && |vcpu.x| == 32
      modifies vcpu`x
      ensures vcpu.x == old(vcpu.x)[i := v]
    {
      vcpu.x := vcpu.x[i := v];
    }

    /** `csrrw x31, sscratch, x31`. */
    method SwapScratch()
      requires |x| == 32
      modifies this`x, this`sscratch
      ensures x == old(x)[31 := old(sscratch)] && sscratch == old(x)[31]
    {
      var t := sscratch;
      sscratch := x[31];
      x := x[31 := t];
    }

    /** VM_EXIT: all guest registers but x0 are saved, sscratch is what it was, sp is the
    hart's stack. */
    method VmExit(stackTop: Word)
      requires GuestMode()
      modifies this`x, this`sscratch, vcpu`x
      ensures GuestMode() && SameRegs(vcpu.x, old(x)) && vcpu.x[0] == old(vcpu.x)[0] && x[2] == stackTop
    {
      hide DevsOk, Owns;
      SwapScratch();
      var i := 1;
      while i <= 30
        invariant 1 <= i <= 31
        invariant |x| == 32 && x[31] == regsAddr && x[0] == 0 && sscratch == old(x)[31] && |vcpu.x| == 32
        invariant forall j :: 1 <= j <= 30 ==> x[j] == old(x)[j]
        invariant forall j :: 1 <= j < i ==> vcpu.x[j] == old(x)[j]
        invariant vcpu.x[0] == old(vcpu.x)[0]
      {
        Sd(i, x[31], x[i]);
        i := i + 1;
      }
      x := x[2 := x[31]];
      SwapScratch();
      Sd(31, x[2], x[31]);
      x := x[2 := stackTop];
    }

    /** VM_ENTER: every register but x0 comes from the saved ones. */
    method VmEnter()
      requires GuestMode()
      modifies this`x
      ensures GuestMode() && SameRegs(x, vcpu.x)
    {
      hide DevsOk, Owns;
      x := x[31 := sscratch];
      var i := 1;
      while i <= 30
        invariant 1 <= i <= 31
        invariant |x| == 32 && x[31] == regsAddr && x[0] == 0
        invariant forall j :: 1 <= j < i ==> x[j] == vcpu.x[j]
      {
        x := x[i := vcpu.x[i]];
        i := i + 1;
      }
      x := x[31 := vcpu.x[31]];
    }

    /** Memory, tables and free list are as they were. */
    twostate predicate SameMemory()
      reads this, kmem
    {
      kmem.mem == old(kmem.mem) && kmem.freelist == old(kmem.freelist) && kmem.own == old(kmem.own)
    }

    /** So are the PLIC's registers, the claimed id and VSEIP. */
    twostate predicate SamePlic()
      requires old(vcpu.Valid()) && vcpu.Valid()
      reads this, vcpu, vcpu.driver.plic
    {
      vcpu.driver.Words() == old(vcpu.driver.Words()) && vcpu.last == old(vcpu.last) && vcpu.vseip == old(vcpu.vseip)
    }

    /** They changed as a store of `val` at offset `off` demands. */
    twostate predicate StoredPlic(off: nat, val: Word32)
      requires old(vcpu.Valid()) && vcpu.Valid()
      reads this, vcpu, vcpu.driver.plic
    {
      && vcpu.driver.Words() == StoreRegs(old(vcpu.driver.Words()), vcpu.hart, old(vcpu.last), off, val)
      && vcpu.last == StoreLast(vcpu.hart, old(vcpu.last), off, val)
      && vcpu.vseip == (old(vcpu.vseip) && !Completes(vcpu.hart, old(vcpu.last), off, val))
      && vcpu.View() == AbsStore(old(vcpu.View()), vcpu.hart.devs, vcpu.hart.vctx, off, val)
    }

    /** Saved registers and program counter are as they were. */
    twostate predicate SameVcpu()
      reads this, vcpu
    {
      vcpu.x == old(vcpu.x) && vcpu.sepc == old(vcpu.sepc)
    }

    /** A call from the guest: a0 gets its translation, or there is a panic. */
    twostate predicate EcallDone(ok: bool)
      requires old(vcpu.Valid()) && vcpu.Valid()
      reads this, vcpu, vcpu.driver.plic, kmem
    {
      var pa := Vmem.Translate(kmem.mem, table, old(vcpu.x)[10], true);
      && (ok <==> pa.Some?)
      && (ok ==> pa.value < WORD && vcpu.x == old(vcpu.x)[10 := pa.value] && vcpu.sepc == Wrap(old(vcpu.sepc) + 4))
      && SamePlic()
    }

    /** A load fault: rd gets the register, or there is a panic. */
    twostate predicate LoadDone(ok: bool, htinst: Word, htval: Word)
      requires old(vcpu.Valid()) && vcpu.Valid()
      reads this, vcpu, vcpu.driver.plic, kmem
    {
      var pa := PlicAddress(kmem.mem, table, htval);
      && (ok <==> pa.Some? && LoadTrap(htinst, pa.value, old(vcpu.View()), vcpu.hart))
      && (ok ==>
            var i, v := Parse(htinst).value, AbsLoad(old(vcpu.View()), vcpu.hart.vctx, pa.value - DTB_PLIC).value;
            && v < WORD32 && i.rd < 32 && vcpu.x == old(vcpu.x)[i.rd := Loaded(i.funct3, v)]
            && vcpu.sepc == NextPc(old(vcpu.sepc), i.opcode))
      && SamePlic()
    }

    /** A store fault: the PLIC gets the low word of rs2, or there is a panic. */
    twostate predicate StoreDone(ok: bool, htinst: Word, htval: Word)
      requires old(vcpu.Valid()) && vcpu.Valid()
      reads this, vcpu, vcpu.driver.plic, kmem
    {
      var pa := PlicAddress(kmem.mem, table, htval);
      && (ok <==> pa.Some? && StoreTrap(htinst, pa.value))
      && (ok ==>
            var i := Parse(htinst).value;
            && i.rs2 < 32 && vcpu.x == old(vcpu.x) && vcpu.sepc == NextPc(old(vcpu.sepc), i.opcode)
            && StoredPlic(pa.value - DTB_PLIC, old(vcpu.x)[i.rs2] % WORD32))
    }

    /** An interrupt: the external one (2^63 + 9) replaces the claimed id and signals a nonzero one,
    the timer (2^63 + 5) changes nothing of the guest, any other is a panic. */
    twostate predicate InterruptDone(ok: bool, scause: Word, id: Word32)
      requires old(vcpu.Valid()) && vcpu.Valid()
      reads this, vcpu, vcpu.driver.plic
    {
      && (ok <==> scause == 0x8000_0000_0000_0009 || scause == 0x8000_0000_0000_0005)
      && (if scause == 0x8000_0000_0000_0009
          then vcpu.last == id && vcpu.vseip == (old(vcpu.vseip) || id != 0)
          else vcpu.last == old(vcpu.last) && vcpu.vseip == old(vcpu.vseip))
      && SameVcpu() && vcpu.driver.Words() == old(vcpu.driver.Words())
    }

    /** convert_va_to_pa on the guest's table. */
    method Convert(gpa: Word) returns (pa: Option<Word>)
      requires TableOk()
      modifies kmem`mem, kmem`freelist, kmem`own
      ensures TableOk() && SameMemory()
      ensures pa == Vmem.Translate(kmem.mem, table, gpa, true)
    {
      hide Tables.Inv, Vmem.Translate;
      var r := Vmem.ConvertVaToPa(kmem, table, gpa, true);
      TranslateWord(kmem.mem, table, gpa);
      pa := if r.Some? then Some(r.value) else None;
    }

    /** is_access_to_plic with get_pa: the physical address, or None for the panics. */
    method IsAccessToPlic(htval: Word) returns (pa: Option<Word>)
      requires TableOk()
      modifies kmem`mem, kmem`freelist, kmem`own
      ensures TableOk() && SameMemory()
      ensures pa == PlicAddress(kmem.mem, table, htval)
    {
      hide Tables.Inv, Vmem.Translate;
      pa := Convert(Wrap(htval * 4));
      if pa.Some? && !(DTB_PLIC <= pa.value < DTB_PLIC + DTB_PLIC_SIZE) {
        pa := None;
      }
    }

    /** perform_walk_for_guest and the step over the ecall. */
    method HandleEcall() returns (ok: bool)
      requires vcpu.Valid() && TableOk()
      modifies vcpu`x, vcpu`sepc, kmem`mem, kmem`freelist, kmem`own
      ensures vcpu.Valid() && TableOk() && SameMemory()
      ensures var pa := Vmem.Translate(kmem.mem, table, old(vcpu.x)[10], true);
              && (ok <==> pa.Some?)
              && (ok ==> pa.value < WORD && vcpu.x == old(vcpu.x)[10 := pa.value])
      ensures ok ==> vcpu.sepc == Wrap(old(vcpu.sepc) + 4)
      ensures !ok ==> vcpu.x == old(vcpu.x) && vcpu.sepc == old(vcpu.sepc)
    {
      hide Tables.Inv, Vmem.Translate, DevsOk, Wrap;
      var pa := Convert(vcpu.x[10]);
      ok := pa.Some?;
      if ok {
        vcpu.x := vcpu.x[10 := pa.value];
        vcpu.sepc := Wrap(vcpu.sepc + 4);
      }
    }

    /** hs_exception_handler. False stands for the panics, which change nothing. A call from the
    guest translates a0; a guest page fault is an access to the emulated PLIC or a panic. */
    method HsExceptionHandler(scause: Word, htinst: Word, htval: Word) returns (ok: bool)
      requires vcpu.Valid() && TableOk()
      modifies vcpu, vcpu.driver.plic, kmem`mem, kmem`freelist, kmem`own
      ensures vcpu.Valid() && TableOk() && SameMemory()
      ensures !ok ==> SameVcpu() && SamePlic()
      ensures scause == 10 ==> EcallDone(ok)
      ensures scause == 21 ==> LoadDone(ok, htinst, htval)
      ensures scause == 23 ==> StoreDone(ok, htinst, htval)
      ensures scause !in {10, 21, 23} ==> !ok
    {
      hide DevsOk, Owns, Parse, AbsLoad, AbsStore, Loaded, NextPc, Project, StoreRegs, StoreLast, Completes,
           StoreAccepted, Wrap, Tables.Inv, Vmem.Translate, PlicAddress;
      ParseBounds(htinst);
      ok := false;
      if scause == EXC_ECALL_FROM_VS {
        ok := HandleEcall();
      } else if scause == EXC_LOAD_GUEST_PAGE_FAULT {
        var pa := IsAccessToPlic(htval);
        if pa.Some? {
          ok := vcpu.HandleLoadPageFault(htinst, pa.value);
        }
      } else if scause == EXC_STORE_OR_AMO_GUEST_PAGE_FAULT {
        var pa := IsAccessToPlic(htval);
        if pa.Some? {
          ok := vcpu.HandleStorePageFault(htinst, pa.value);
        }
      }
    }

    /** hs_interrupt_handler; the timer branch only rearms the timer. `id` is what the claim
    register of the hart's context returns. */
    method HsInterruptHandler(scause: Word, id: Word32) returns (ok: bool)
      requires vcpu.Valid()
      modifies vcpu`last, vcpu`vseip
      ensures vcpu.Valid()
      ensures scause >= INTERRUPT ==> InterruptDone(ok, scause, id)
    {
      hide DevsOk, Owns, ShiftPair;
      var code := ShiftPair(scause);
      CauseCode(scause);
      if code == INT_SUPERVISOR_TIM {
        return true;
      }
      if code == INT_SUPERVISOR_EXT {
        vcpu.HandleInterrupt(id);
        return true;
      }
      ok := false;
    }

    /** hstrapvec between saving and restoring: bit 63 of scause tells interrupts from exceptions. */
    method Dispatch(scause: Word, htinst: Word, htval: Word, id: Word32) returns (ok: bool)
      requires vcpu.Valid() && TableOk()
      modifies vcpu, vcpu.driver.plic, kmem`mem, kmem`freelist, kmem`own
      ensures vcpu.Valid() && TableOk() && SameMemory()
      ensures !ok ==> SameVcpu() && SamePlic()
      ensures scause >= 0x8000_0000_0000_0000 ==> InterruptDone(ok, scause, id)
      ensures scause == 10 ==> EcallDone(ok)
      ensures scause == 21 ==> LoadDone(ok, htinst, htval)
      ensures scause == 23 ==> StoreDone(ok, htinst, htval)
      ensures scause < 0x8000_0000_0000_0000 && scause !in {10, 21, 23} ==> !ok
    {
      hide DevsOk, Owns, EcallDone, LoadDone, StoreDone, StoredPlic, Tables.Inv;
      CauseBit(scause);
      if scause / INTERRUPT == 0 {
        ok := HsExceptionHandler(scause, htinst, htval);
      } else {
        ok := HsInterruptHandler(scause, id);
      }
    }

    /** A trapped load from entry to return. Whatever the C code leaves in the live registers
    (`clobbered`), the guest resumes with rd loaded, every other register as it was, the
    program counter behind the instruction, sscratch in place, and no memory, table, PLIC or
    claim state changed. A load into x0 shows in the saved slot 0 alone. */
    method TrappedLoad(rd: nat, funct3: nat, compressed: bool, htval: Word, stackTop: Word, clobbered: seq<Word>)
      returns (ok: bool)
      requires GuestMode() && TableOk() && rd < 32 && (funct3 == 2 || funct3 == 6)
      requires |clobbered| == 32 && clobbered[0] == 0
      modifies this, vcpu, vcpu.driver.plic, kmem`mem, kmem`freelist, kmem`own
      ensures vcpu.Valid() && TableOk() && SameMemory() && SamePlic()
      ensures ok <==> LoadOf(kmem.mem, table, htval, old(vcpu.View()), vcpu.hart).Some?
      ensures ok ==>
        var v := LoadOf(kmem.mem, table, htval, old(vcpu.View()), vcpu.hart).value;
        && GuestMode() && v < WORD32 && x == old(x)[rd := if rd == 0 then 0 else Loaded(funct3, v)]
        && vcpu.x[0] == (if rd == 0 then Loaded(funct3, v) else old(vcpu.x)[0])
        && vcpu.sepc == Wrap(old(vcpu.sepc) + if compressed then 2 else 4)
    {
      hide DevsOk, Owns, Parse, AbsLoad, AbsStore, Loaded, TransformedLoad, Wrap, Project, SameRegs, PlicAddress,
           Tables.Inv;
      ParseLoad(rd, funct3, compressed);
      ghost var before := x;
      VmExit(stackTop);
      ghost var saved := vcpu.x;
      x := clobbered;
      ok := Dispatch(21, TransformedLoad(rd, funct3, compressed), htval, 0);
      if ok {
        VmEnter();
        RestoredExcept(before, saved, vcpu.x, x, rd);
      }
    }

    /** A trapped store: no guest register changes. The value stored is the guest's rs2, but for
    rs2 = x0 it is what the saved slot 0 holds. */
    method TrappedStore(rs2: nat, compressed: bool, htval: Word, stackTop: Word, clobbered: seq<Word>)
      returns (ok: bool)
      requires GuestMode() && TableOk() && rs2 < 32
      requires |clobbered| == 32 && clobbered[0] == 0
      modifies this, vcpu, vcpu.driver.plic, kmem`mem, kmem`freelist, kmem`own
      ensures vcpu.Valid() && TableOk() && SameMemory()
      ensures var pa := PlicAddress(kmem.mem, table, htval);
              && (ok <==> pa.Some? && StoreAccepted(pa.value - DTB_PLIC))
              && (ok ==> StoredPlic(pa.value - DTB_PLIC, (if rs2 == 0 then old(vcpu.x)[0] else old(x)[rs2]) % WORD32))
      ensures !ok ==> SamePlic()
      ensures ok ==> GuestMode() && x == old(x) && vcpu.x[0] == old(vcpu.x)[0]
      ensures ok ==> vcpu.sepc == Wrap(old(vcpu.sepc) + if compressed then 2 else 4)
    {
      hide DevsOk, Owns, Parse, AbsLoad, AbsStore, StoreAccepted, TransformedStore, Wrap, Project, SameRegs,
           PlicAddress, Tables.Inv, StoreRegs, StoreLast, Completes;
      ParseStore(rs2, compressed);
      ghost var before := x;
      VmExit(stackTop);
      ghost var saved := vcpu.x;
      SavedReg(before, saved, rs2);
      x := clobbered;
      ok := Dispatch(23, TransformedStore(rs2, compressed), htval, 0);
      if ok {
        VmEnter();
        Restored(before, saved, x);
      }
    }

    /** A trapped interrupt: the guest resumes exactly where it was. An external one replaces the
    claimed id and signals a nonzero one, the timer leaves both alone. */
    method TrappedInterrupt(scause: Word, id: Word32, stackTop: Word, clobbered: seq<Word>) returns (ok: bool)
      requires GuestMode() && TableOk() && scause >= 0x8000_0000_0000_0000 && |clobbered| == 32 && clobbered[0] == 0
      modifies this, vcpu, vcpu.driver.plic, kmem`mem, kmem`freelist, kmem`own
      ensures vcpu.Valid() && TableOk() && SameMemory() && vcpu.driver.Words() == old(vcpu.driver.Words())
      ensures ok <==> scause == 0x8000_0000_0000_0009 || scause == 0x8000_0000_0000_0005
      ensures if scause == 0x8000_0000_0000_0009
              then vcpu.last == id && vcpu.vseip == (old(vcpu.vseip) || id != 0)
              else vcpu.last == old(vcpu.last) && vcpu.vseip == old(vcpu.vseip)
      ensures ok ==> GuestMode() && x == old(x) && vcpu.sepc == old(vcpu.sepc) && vcpu.x[0] == old(vcpu.x)[0]
    {
      hide DevsOk, Owns, SameRegs, Tables.Inv, EcallDone, LoadDone, StoreDone;
      ghost var before := x;
      VmExit(stackTop);
      ghost var saved := vcpu.x;
      x := clobbered;
      ok := Dispatch(scause, 0, 0, id);
      if ok {
        VmEnter();
        Restored(before, saved, x);
      }
    }

    /** The x0 slot, end to end: a PLIC load into x0 and then `sw x0`. The guest's registers are
    as they were, but the store writes the value loaded, so it writes 0 if and only if that
    value was 0. */
    method LoadIntoX0(funct3: nat, compressed: bool, from: Word, to: Word, stackTop: Word, clobbered: seq<Word>)
      returns (ok: bool)
      requires GuestMode() && TableOk() && (funct3 == 2 || funct3 == 6)
      requires |clobbered| == 32 && clobbered[0] == 0
      modifies this, vcpu, vcpu.driver.plic, kmem`mem, kmem`freelist, kmem`own
      ensures vcpu.Valid() && TableOk() && SameMemory()
      ensures var v, pa := LoadOf(kmem.mem, table, from, old(vcpu.View()), vcpu.hart), PlicAddress(kmem.mem, table, to);
              && (ok <==> v.Some? && pa.Some? && StoreAccepted(pa.value - DTB_PLIC))
              && (ok ==> v.value < WORD32 && StoredPlic(pa.value - DTB_PLIC, v.value) && GuestMode() && x == old(x))
    {
      hide DevsOk, Owns, AbsLoad, AbsStore, Project, PlicAddress, Tables.Inv, StoreRegs, StoreLast, Completes,
           StoreAccepted, LoadOf, Loaded, Wrap;
      ok := TrappedLoad(0, funct3, compressed, from, stackTop, clobbered);
      if ok {
        ghost var v := LoadOf(kmem.mem, table, from, old(vcpu.View()), vcpu.hart).value;
        LowWord(funct3, v);
        assert x == old(x);
        ok := TrappedStore(0, compressed, to, stackTop, clobbered);
      }
    }
  }

  /** Storing the low word of a loaded register stores what was loaded. */
  lemma LowWord(funct3: nat, v: Word32)
    ensures Loaded(funct3, v) % WORD32 == v
  {
    ModUnique(v, WORD32, 0, v);
    ModUnique(v + (WORD - WORD32), WORD32, WORD32 - 1, v);
  }

  /** `scause << 1 >> 1`. */
  function ShiftPair(scause: Word): int {
    ((scause * 2) % WORD) / 2
  }

  /** It drops the interrupt bit. */
  lemma CauseCode(scause: Word)
    ensures ShiftPair(scause) == if scause >= INTERRUPT then scause - INTERRUPT else scause
  {
    if scause >= INTERRUPT {
      ModUnique(scause * 2, WORD, 1, scause * 2 - WORD);
    }
  }

  lemma CauseBit(scause: Word)
    ensures scause / INTERRUPT == 0 <==> scause < INTERRUPT
  {
  }

  predicate IsPlic(pa: int) {
    DTB_PLIC <= pa < DTB_PLIC + DTB_PLIC_SIZE
  }

  /** What is_access_to_plic finds for a fault: a PLIC address or nothing. */
  function PlicAddress(m: Tables.Memory, table: nat, htval: Word): (pa: Option<nat>)
    ensures pa.Some? ==> IsPlic(pa.value)
  {
    var pa := Vmem.Translate(m, table, Wrap(htval * 4), true);
    if pa.Some? && IsPlic(pa.value) then pa else None
  }

  /** What a trapped load reads: None if the fault is no PLIC access or hits no register. */
  function LoadOf(m: Tables.Memory, table: nat, htval: Word, a: VPlic, h: Hart): Option<nat>
    requires |a.prio| == 1024 && |a.pending| == 1024 && |a.enable| == 1024
  {
    var pa := PlicAddress(m, table, htval);
    if pa.Some? then AbsLoad(a, h.vctx, pa.value - DTB_PLIC) else None
  }

  lemma TranslateWord(m: Tables.Memory, table: nat, gpa: Word)
    ensures var r := Vmem.Translate(m, table, gpa, true); r.Some? ==> 0 <= r.value < WORD
  {
    hide Or, PTE2PA, Vmem.Index;
    var t := Tables.LeafTable(m, Vmem.KeyOf(table, gpa, true));
    if t.Some? {
      var e := Tables.Rd(m, t.value, Vmem.Index(gpa, 0, true));
      Translation.PageAddress(e);
      Translation.OffsetOr(PTE2PA(e), gpa);
    }
  }

  predicate LoadTrap(htinst: Word, pa: nat, a: VPlic, h: Hart)
    requires IsPlic(pa) && |a.prio| == 1024 && |a.pending| == 1024 && |a.enable| == 1024
  {
    LoadAccepted(Parse(htinst)) && AbsLoad(a, h.vctx, pa - DTB_PLIC).Some?
  }

  predicate StoreTrap(htinst: Word, pa: nat)
    requires IsPlic(pa)
  {
    WriteAccepted(Parse(htinst)) && StoreAccepted(pa - DTB_PLIC)
  }

  lemma RestoredExcept(before: seq<Word>, saved: seq<Word>, loaded: seq<Word>, after: seq<Word>, rd: nat)
    requires rd < 32 && SameRegs(saved, before) && SameRegs(after, loaded) && before[0] == 0 && after[0] == 0
    requires loaded == saved[rd := loaded[rd]]
    ensures after == before[rd := if rd == 0 then 0 else loaded[rd]]
  {
  }

  lemma Restored(before: seq<Word>, saved: seq<Word>, after: seq<Word>)
    requires SameRegs(saved, before) && SameRegs(after, saved) && before[0] == 0 && after[0] == 0
    ensures after == before
  {
  }

  lemma SavedReg(before: seq<Word>, saved: seq<Word>, i: nat)
    requires i < 32 && SameRegs(saved, before)
    ensures saved[i] == if i == 0 then saved[0] else before[i]
  {
  }

  /** End to end: a guest access to its emulated PLIC window faults in hardware whatever its
  kind, and get_pa (htval shifted left by two) finds the physical PLIC register word. */
  lemma PlicAccessTraps(m: Tables.Memory, o: Tables.Own, c: VmConfig, ram: seq<nat>, dev: MmioDev, d: nat,
                        acc: HwWalk.Access)
    requires Tables.Shape(o) && Tables.Tree(m, o.tables) && c.table in o.tables &&
            o.tables[c.table] == Tables.Root(true)
    requires GuestMap.GuestMapped(Tables.MappingOf(m, o.tables), c, ram) && dev in c.devices
    requires dev.perm == 0 && dev.physBase == 0xc00_0000 && dev.size == 0x60_0000
    requires dev.virtBase % 4096 == 0 && dev.virtBase + 0x60_0000 <= 0x200_0000_0000 && d < 0x60_0000
    ensures var gpa: Word := dev.virtBase + d;
            && HwWalk.HwTranslate(m, c.table, gpa, true, acc) == None
            && PlicAddress(m, c.table, gpa / 4) == Some(0xc00_0000 + d - d % 4)
  {
    hide Tables.Shape, Tables.Tree, Tables.MappingOf, Vmem.Translate, HwWalk.HwTranslate, GuestMap.GuestMapped,
         GuestPlan.DeviceFlags, Translation.RangeMapped, Vmem.KeyOf, LeafEntry, HwWalk.Permits, Wrap, Vmem.PageCount;
    var M := Tables.MappingOf(m, o.tables);
    PlicMapped(M, c, ram, dev);
    PlicPages();
    var targets := LinearTargets(DTB_PLIC, 0x600);
    var gpa: Word := dev.virtBase + d;
    assert d / 4096 < 0x600;
    Translation.MappedTranslates(m, o.tables, c.table, dev.virtBase, PTE_U, true, targets, d);
    PlainSum(gpa);
    HwWalk.HardwareAgrees(m, o, c.table, gpa, true, acc);
    HwWalk.NoPermission(targets[d / 4096], acc);
    GuestMap.GuestDeviceLinear(m, o.tables, c, ram, dev, d - d % 4);
    WordOffset(dev.virtBase, d);
    PlainSum(dev.virtBase + d - d % 4);
    PlainSum(DTB_PLIC + d - d % 4);
  }

  lemma PlicMapped(M: Tables.Mapping, c: VmConfig, ram: seq<nat>, dev: MmioDev)
    requires GuestMap.GuestMapped(M, c, ram) && dev in c.devices && dev.perm == 0 && dev.physBase == DTB_PLIC
    ensures var targets := LinearTargets(DTB_PLIC, Vmem.PageCount(dev.size));
            Translation.RangeMapped(M, c.table, dev.virtBase, PTE_U, true, targets)
  {
    hide Translation.RangeMapped, LinearTargets, Vmem.PageCount, GuestPlan.DeviceFlags, GuestMap.ImageMapped,
         GuestMap.RamMapped;
    var j :| 0 <= j < |c.devices| && c.devices[j] == dev;
    GuestPlan.DeviceFlagsSmall(dev);
    assert GuestMap.DeviceMapped(M, c, dev);
  }

  lemma PlicPages()
    ensures Vmem.PageCount(DTB_PLIC_SIZE) == 0x600
  {
  }

  lemma WordOffset(base: nat, d: nat)
    requires base % 4096 == 0 && d < DTB_PLIC_SIZE
    ensures ((base + d) / 4) * 4 == base + d - d % 4
    ensures (d - d % 4) / 4096 < 0x600
  {
    var b := base / 4096;
    ModUnique(base + d, 4, b * 1024 + d / 4, d % 4);
  }
}
