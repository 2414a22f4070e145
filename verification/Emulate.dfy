/** Trap and emulate (vplic.c, trap.c): the handlers that carry out a guest's PLIC access,
on a vCPU whose registers are saved in memory. */
module Emulate {
  import opened Wrappers
  import opened Bits
  import opened Config
  import opened Plic
  import opened Vplic

  // ---- instruction decoding ----

  datatype Instr = Instr(opcode: nat, rd: nat, funct3: nat, rs2: nat)

  /** parse_htinst; None stands for its two panics. */
  function Parse(htinst: Word): Option<Instr> {
    if (htinst / 0x8000) % 32 != 0 || (htinst / 0x200_0000) % 128 != 0 then None
    else Some(Instr(htinst % 128, (htinst / 128) % 32, (htinst / 4096) % 8, (htinst / 0x10_0000) % 32))
  }

  method ParseHtinst(htinst: Word) returns (r: Option<Instr>)
    ensures r == Parse(htinst)
  {
    FieldWidths();
    var opcode := GetValue(htinst, 0, 7);
    var rd := GetValue(htinst, 7, 5);
    var funct3 := GetValue(htinst, 12, 3);
    var addrOffset := GetValue(htinst, 15, 5);
    var rs2 := GetValue(htinst, 20, 5);
    if addrOffset != 0 {
      return None;
    }
    var funct7 := GetValue(htinst, 25, 7);
    if funct7 != 0 {
      return None;
    }
    r := Some(Instr(opcode, rd, funct3, rs2));
  }

  lemma ParseBounds(htinst: Word)
    ensures Parse(htinst).Some? ==> Parse(htinst).value.rd < 32 && Parse(htinst).value.rs2 < 32
  {
  }

  lemma FieldWidths()
    ensures Pow2(0) == 1 && Pow2(3) == 8 && Pow2(5) == 32 && Pow2(7) == 128 && Pow2(12) == 4096
    ensures Pow2(15) == 0x8000 && Pow2(20) == 0x10_0000 && Pow2(25) == 0x200_0000
  {
    assert Pow2(10) == 1024;
    assert Pow2(20) == 0x10_0000;
  }

  /** Transformed instructions, section 8.6.3 of the Privileged Specification: bit 1 of the
  opcode is cleared for a compressed instruction. */
  function TransformedLoad(rd: nat, funct3: nat, compressed: bool): nat {
    funct3 * 4096 + rd * 128 + (if compressed then 1 else 3)
  }

  function TransformedStore(rs2: nat, compressed: bool): nat {
    rs2 * 0x10_0000 + 2 * 4096 + (if compressed then 0x21 else 0x23)
  }

  /** Decoding recovers what the hart encoded. */
  lemma ParseLoad(rd: nat, funct3: nat, compressed: bool)
    requires rd < 32 && funct3 < 8
    ensures TransformedLoad(rd, funct3, compressed) < WORD
    ensures Parse(TransformedLoad(rd, funct3, compressed)) == Some(Instr(if compressed then 1 else 3, rd, funct3, 0))
  {
    var op := if compressed then 1 else 3;
    var h := TransformedLoad(rd, funct3, compressed);
    ModUnique(h, 128, funct3 * 32 + rd, op);
    ModUnique(h, 4096, funct3, rd * 128 + op);
    ModUnique(h, 0x8000, 0, h);
    ModUnique(h, 0x10_0000, 0, h);
    ModUnique(h, 0x200_0000, 0, h);
    ModUnique(funct3 * 32 + rd, 32, funct3, rd);
  }

  lemma ParseStore(rs2: nat, compressed: bool)
    requires rs2 < 32
    ensures TransformedStore(rs2, compressed) < WORD
    ensures Parse(TransformedStore(rs2, compressed)) == Some(Instr(if compressed then 0x21 else 0x23, 0, 2, rs2))
  {
    var op := if compressed then 0x21 else 0x23;
    var h := TransformedStore(rs2, compressed);
    ModUnique(h, 128, rs2 * 0x2000 + 64, op);
    ModUnique(rs2 * 0x2000 + 64, 32, rs2 * 256 + 2, 0);
    ModUnique(h, 4096, rs2 * 256 + 2, op);
    ModUnique(rs2 * 256 + 2, 8, rs2 * 32, 2);
    ModUnique(h, 0x8000, rs2 * 32, 2 * 4096 + op);
    ModUnique(rs2 * 32, 32, rs2, 0);
    ModUnique(h, 0x10_0000, rs2, 2 * 4096 + op);
    ModUnique(h, 0x200_0000, 0, h);
  }

  // ---- renaming loops ----

  method VirtToPhysIrq(devs: seq<MmioDev>, virq: int) returns (p: int)
    requires |devs| <= MAX_DEVS
    ensures p == V2P(devs, virq)
  {
    var i := 0;
    while i < |devs|
      invariant 0 <= i <= |devs|
      invariant V2P(devs, virq) == V2P(devs[i..], virq)
    {
      if virq == devs[i].virtIrq {
        return devs[i].physIrq;
      }
      i := i + 1;
    }
    p := 0;
  }

  method PhysToVirtIrq(devs: seq<MmioDev>, pirq: int) returns (v: int)
    requires |devs| <= MAX_DEVS
    ensures v == P2V(devs, pirq)
  {
    var i := 0;
    while i < |devs|
      invariant 0 <= i <= |devs|
      invariant P2V(devs, pirq) == P2V(devs[i..], pirq)
    {
      if pirq == devs[i].physIrq {
        return devs[i].virtIrq;
      }
      i := i + 1;
    }
    v := 0;
  }

  // ---- masks ----

  /** `masked |= 1 << i` for a number that has bits below i only. */
  lemma SetNextBit(masked: nat, i: nat)
    requires masked < Pow2(i)
    ensures Or(masked, Pow2(i)) < Pow2(i + 1) && masked < Pow2(i + 1)
    ensures forall j: nat :: Bit(Or(masked, Pow2(i)), j) <==> j == i || Bit(masked, j)
  {
    OrBound(masked, Pow2(i), i + 1);
    forall j: nat
      ensures Bit(Or(masked, Pow2(i)), j) <==> j == i || Bit(masked, j)
    {
      OrBit(masked, Pow2(i), j);
      Pow2Bit(i, j);
    }
  }

  lemma MaskIsPack(masked: nat, bs: seq<bool>)
    requires |bs| == 32 && masked < Pow2(32) && forall i: nat :: i < 32 ==> (Bit(masked, i) <==> bs[i])
    ensures masked == Pack(bs) && Pow2(32) == WORD32
  {
    hide Bit, Pack, Pow2;
    PackBits(bs);
    BitExtensionality(masked, Pack(bs), 32);
    Pow2Values();
  }

  /** Sign extension from bit 31, as the two steps of emulate_load. */
  function SignExtended(val: Word32): Word {
    if val >= 0x8000_0000 then val + (WORD - WORD32) else val
  }

  lemma SignSteps(val: Word32)
    ensures And(val, 0x8000_0000) != 0 <==> val >= 0x8000_0000
    ensures Or(val, 0xffff_ffff_0000_0000) == val + (WORD - WORD32)
  {
    hide And, Or, Pow2, Bit;
    Pow2Values();
    AndPow2(val, 31);
    TopBit(val, 31);
    OrDisjoint(0xffff_ffff, val, 32);
  }

  lemma {:induction false} TopBit(x: nat, n: nat)
    requires x < Pow2(n + 1)
    ensures Bit(x, n) <==> x >= Pow2(n)
    decreases n
  {
    if n > 0 {
      TopBit(x / 2, n - 1);
    }
  }

  const DTB_PLIC := 0xc00_0000

  /** What a load of type funct3 (2: lw, 6: lwu) puts into its register. */
  function Loaded(funct3: nat, val: Word32): Word {
    if funct3 == 2 then SignExtended(val) else val
  }

  function NextPc(pc: Word, opcode: nat): Word {
    Wrap(pc + if (opcode / 2) % 2 == 1 then 4 else 2)
  }

  /** One vCPU and the CSRs that belong to it. */
  class Vcpu {
    const driver: Driver
    const hart: Hart // devices of its VM; contexts 2 * vhartid + 1 and 2 * hartid + 1
    var last: Word32 // last_claimed_irq_id
    var x: seq<Word> // saved guest registers
    var vseip: bool // hvip.VSEIP
    var sepc: Word

    ghost predicate Valid()
      reads this
    {
      driver.Valid() && DevsOk(hart.devs) && |hart.devs| <= MAX_DEVS && Context(hart.pctx) && |x| == 32
    }

    ghost function View(): VPlic
      requires Valid()
      reads this, driver.plic
    {
      Project(driver.Words(), hart, last)
    }

    /** init_vcpu: registers cleared, a0 the virtual hart id, a1 the boot argument. */
    constructor (driver: Driver, devs: seq<MmioDev>, vhartid: nat, hartid: nat)
      requires driver.Valid() && DevsOk(devs) && Context(2 * hartid + 1) && vhartid < WORD
      ensures Valid() && this.driver == driver && hart == Hart(devs, 2 * vhartid + 1, 2 * hartid + 1)
      ensures last == 0 && !vseip
      ensures forall i :: 0 <= i < 32 ==> x[i] == (if i == 10 then vhartid else if i == 11 then 0xff else 0)
    {
      this.driver := driver;
      hart := Hart(devs, 2 * vhartid + 1, 2 * hartid + 1);
      last, vseip, sepc := 0, false, 0;
      x := seq(32, i => if i == 10 then vhartid else if i == 11 then 0xff else 0);
    }

    /** The mask loop of handle_pending_regs_load. */
    method PendingLoad(g: nat) returns (masked: nat)
      requires Valid() && g < 32
      ensures masked == GroupWord(View().pending, g) && masked < WORD32
    {
      hide Bit, Or, Pow2, IsPending, V2P, DevsOk, Owns, Pack;
      ghost var bs := View().pending;
      masked := 0;
      var i := 0;
      Pow2Zero();
      while i < 32
        invariant 0 <= i <= 32
        invariant masked < Pow2(i)
        invariant forall j: nat :: j < i ==> (Bit(masked, j) <==> bs[32 * g + j])
      {
        var s := VirtToPhysIrq(hart.devs, 32 * g + i);
        var p := driver.PlicGetPending(s);
        SetNextBit(masked, i);
        HighBit(masked, i, i);
        assert (p != 0) == bs[32 * g + i];
        if p != 0 {
          masked := Or(masked, Pow2(i));
        }
        i := i + 1;
      }
      MaskIsPack(masked, bs[32 * g..32 * g + 32]);
    }

    /** The mask loop of handle_enable_regs_load. */
    method EnableLoad(g: nat) returns (masked: nat)
      requires Valid() && g < 32
      ensures masked == GroupWord(View().enable, g) && masked < WORD32
    {
      hide Bit, Or, Pow2, IsEnabled, V2P, DevsOk, Owns, Pack;
      ghost var bs := View().enable;
      masked := 0;
      var i := 0;
      Pow2Zero();
      while i < 32
        invariant 0 <= i <= 32
        invariant masked < Pow2(i)
        invariant forall j: nat :: j < i ==> (Bit(masked, j) <==> bs[32 * g + j])
      {
        var s := VirtToPhysIrq(hart.devs, 32 * g + i);
        var e := driver.PlicGetEnabled(hart.pctx, s);
        SetNextBit(masked, i);
        HighBit(masked, i, i);
        assert (e != 0) == bs[32 * g + i];
        if e != 0 {
          masked := Or(masked, Pow2(i));
        }
        i := i + 1;
      }
      MaskIsPack(masked, bs[32 * g..32 * g + 32]);
    }

    /** The register dispatch of emulate_load: every offset yields exactly what the abstract
    PLIC of this virtual hart holds there; None is the "Bad PLIC access" panic. */
    method LoadValue(off: Word) returns (r: Option<nat>)
      requires Valid()
      ensures r == AbsLoad(View(), hart.vctx, off)
      ensures r.Some? ==> r.value < WORD32
    {
      hide V2P, P2V, GetPriority, IsEnabled, IsPending, GetThreshold, IsContextReg, DevsOk, Owns, GroupWord;
      if IsPriorityAccess(off) {
        var s := VirtToPhysIrq(hart.devs, off / 4);
        var v := driver.PlicGetPriority(s);
        return Some(v);
      }
      if IsPendingAccess(off) {
        var v := PendingLoad((off - 0x1000) / 4);
        return Some(v);
      }
      if IsEnableAccess(off) {
        if hart.vctx != (off - 0x2000) / 0x80 {
          return Some(0);
        }
        GroupOffset(off, hart.vctx);
        var v := EnableLoad((off - 0x2000 - hart.vctx * 0x80) / 4);
        return Some(v);
      }
      var isThreshold := IsAccessToContextReg(off, THRESHOLD_BASE);
      if isThreshold {
        if hart.vctx != (off - THRESHOLD_BASE) / 0x1000 {
          return Some(0);
        }
        var v := driver.PlicGetThreshold(hart.pctx);
        return Some(v);
      }
      var isClaim := IsAccessToContextReg(off, CLAIM_BASE);
      if isClaim {
        ClaimBase(off);
        if hart.vctx != (off - CLAIM_BASE) / 0x1000 {
          return Some(0);
        }
        var v := PhysToVirtIrq(hart.devs, AsInt(last));
        StoreComplete(hart, last, 0);
        return Some(v);
      }
      return None;
    }

    /** emulate_load after the decoding checks. Panics return false and leave the guest
    stopped. */
    method EmulateLoad(instr: Instr, addr: Word) returns (ok: bool)
      requires Valid() && instr.rd < 32 && addr >= DTB_PLIC && (instr.funct3 == 2 || instr.funct3 == 6)
      modifies this`x, this`sepc
      ensures Valid() && View() == old(View())
      ensures ok <==> AbsLoad(View(), hart.vctx, addr - DTB_PLIC).Some?
      ensures !ok ==> x == old(x) && sepc == old(sepc)
      ensures ok ==> AbsLoad(View(), hart.vctx, addr - DTB_PLIC).value < WORD32
      ensures ok ==> x == old(x)[instr.rd := Loaded(instr.funct3, AbsLoad(View(), hart.vctx, addr - DTB_PLIC).value)]
      ensures ok ==> sepc == NextPc(old(sepc), instr.opcode)
    {
      hide AbsLoad, DevsOk, Owns, And, Or, Wrap;
      var v := LoadValue(addr - DTB_PLIC);
      if v.None? {
        return false;
      }
      SignSteps(v.value);
      x := x[instr.rd := v.value];
      if instr.funct3 == 2 && And(v.value, 0x8000_0000) != 0 {
        x := x[instr.rd := Or(x[instr.rd], 0xffff_ffff_0000_0000)];
      }
      Advance(instr.opcode);
      ok := true;
    }

    method Advance(opcode: nat)
      modifies this`sepc
      ensures sepc == NextPc(old(sepc), opcode)
    {
      OpcodeBit(opcode);
      if And(opcode, 2) != 0 {
        sepc := Wrap(sepc + 4);
      } else {
        sepc := Wrap(sepc + 2);
      }
    }

    /** vplic_handle_load_page_fault. */
    method HandleLoadPageFault(htinst: Word, addr: Word) returns (ok: bool)
      requires Valid() && addr >= DTB_PLIC
      modifies this`x, this`sepc
      ensures Valid() && View() == old(View())
      ensures ok <==> LoadAccepted(Parse(htinst)) && AbsLoad(View(), hart.vctx, addr - DTB_PLIC).Some?
      ensures !ok ==> x == old(x) && sepc == old(sepc)
      ensures ok ==>
        var i, v := Parse(htinst).value, AbsLoad(View(), hart.vctx, addr - DTB_PLIC).value;
        v < WORD32 && i.rd < 32 && x == old(x)[i.rd := Loaded(i.funct3, v)] && sepc == NextPc(old(sepc), i.opcode)
    {
      hide AbsLoad, DevsOk, Owns, Loaded, NextPc, Parse, Or;
      ParseBounds(htinst);
      var i := ParseHtinst(htinst);
      if i.None? {
        return false;
      }
      OpcodeOr(i.value.opcode);
      if Or(i.value.opcode, 2) != 3 {
        return false;
      }
      if i.value.funct3 != 2 && i.value.funct3 != 6 {
        return false;
      }
      ok := EmulateLoad(i.value, addr);
    }

    /** The store loop over 32 enable bits. */
    method EnableStore(g: nat, val: Word32)
      requires Valid() && g < 32
      modifies driver.plic
      ensures driver.Words() == SetGroup(old(driver.Words()), hart, g, val, 32)
    {
      hide Bit, And, SetEnabled, V2P, DevsOk, Owns, Pow2;
      ghost var w := driver.Words();
      var i := 0;
      while i < 32
        invariant 0 <= i <= 32
        invariant driver.Words() == SetGroup(w, hart, g, val, i)
      {
        var s := VirtToPhysIrq(hart.devs, 32 * g + i);
        AndPow2(val, i);
        driver.PlicSetEnabled(hart.pctx, s, And(val, Pow2(i)) != 0);
        i := i + 1;
      }
    }

    /** The register dispatch of emulate_store. */
    method StoreValue(off: Word, val: Word32) returns (ok: bool)
      requires Valid()
      modifies this`last, this`vseip, driver.plic
      ensures Valid()
      ensures driver.Words() == StoreRegs(old(driver.Words()), hart, old(last), off, val)
      ensures last == StoreLast(hart, old(last), off, val)
      ensures vseip == (old(vseip) && !Completes(hart, old(last), off, val))
      ensures View() == AbsStore(old(View()), hart.devs, hart.vctx, off, val)
      ensures ok <==> StoreAccepted(off)
    {
      hide V2P, P2V, SetPriority, SetThreshold, SetClaim, SetGroup, IsContextReg, DevsOk, Owns, Project, AbsStore,
           AsInt;
      ghost var w, l := driver.Words(), last;
      StoreRefines(w, hart, l, off, val);
      ok := true;
      if IsPriorityAccess(off) {
        var s := VirtToPhysIrq(hart.devs, off / 4);
        driver.PlicSetPriority(s, val);
      } else if IsPendingAccess(off) {
        // pending bits are read only
      } else if IsEnableAccess(off) {
        if hart.vctx == (off - 0x2000) / 0x80 {
          GroupOffset(off, hart.vctx);
          EnableStore((off - 0x2000 - hart.vctx * 0x80) / 4, val);
        }
      } else {
        var isThreshold := IsAccessToContextReg(off, THRESHOLD_BASE);
        if isThreshold {
          if hart.vctx == (off - THRESHOLD_BASE) / 0x1000 {
            driver.PlicSetThreshold(hart.pctx, val);
          }
        } else {
          var isClaim := IsAccessToContextReg(off, CLAIM_BASE);
          if isClaim {
            ClaimBase(off);
            CompleteStore(off, val);
          } else {
            ok := false;
          }
        }
      }
    }

    /** handle_complete_reg_store. */
    method CompleteStore(off: Word, val: Word32)
      requires Valid() && IsContextReg(off, CLAIM_BASE) && off >= CLAIM_BASE
      requires !IsPriorityAccess(off) && !IsPendingAccess(off) && !IsEnableAccess(off) &&
              !IsContextReg(off, THRESHOLD_BASE)
      modifies this`last, this`vseip, driver.plic
      ensures Valid()
      ensures driver.Words() == if Completes(hart, old(last), off, val)
              then SetClaim(old(driver.Words()), hart.pctx, old(last)) else old(driver.Words())
      ensures last == StoreLast(hart, old(last), off, val)
      ensures vseip == (old(vseip) && !Completes(hart, old(last), off, val))
    {
      hide V2P, P2V, SetClaim, IsContextReg, DevsOk, AsInt;
      if hart.vctx != (off - CLAIM_BASE) / 0x1000 {
        return;
      }
      var p := VirtToPhysIrq(hart.devs, AsInt(val));
      if p == last {
        driver.PlicComplete(hart.pctx, last);
        last := 0;
        vseip := false;
      }
    }

    /** emulate_store and vplic_handle_store_or_amo_page_fault. */
    method HandleStorePageFault(htinst: Word, addr: Word) returns (ok: bool)
      requires Valid() && addr >= DTB_PLIC
      modifies this`last, this`vseip, this`sepc, driver.plic
      ensures Valid()
      ensures ok <==> WriteAccepted(Parse(htinst)) && StoreAccepted(addr - DTB_PLIC)
      ensures !ok ==> sepc == old(sepc) && driver.Words() == old(driver.Words()) && last == old(last)
      ensures !ok ==> vseip == old(vseip) && View() == old(View())
      ensures ok ==>
        var i := Parse(htinst).value;
        var val := old(x)[i.rs2] % WORD32;
        && View() == AbsStore(old(View()), hart.devs, hart.vctx, addr - DTB_PLIC, val)
        && driver.Words() == StoreRegs(old(driver.Words()), hart, old(last), addr - DTB_PLIC, val)
        && last == StoreLast(hart, old(last), addr - DTB_PLIC, val)
        && vseip == (old(vseip) && !Completes(hart, old(last), addr - DTB_PLIC, val))
        && sepc == NextPc(old(sepc), i.opcode)
    {
      hide AbsStore, StoreRegs, StoreLast, DevsOk, Owns, NextPc, StoreAccepted, Completes, Project, Parse, Or;
      ParseBounds(htinst);
      var i := ParseHtinst(htinst);
      if i.None? {
        return false;
      }
      OpcodeOr(i.value.opcode);
      if Or(i.value.opcode, 2) != 0x23 {
        return false;
      }
      if i.value.funct3 != 2 {
        return false;
      }
      var val: Word32 := x[i.value.rs2] % WORD32;
      RejectedStore(driver.Words(), hart, last, addr - DTB_PLIC, val);
      ok := StoreValue(addr - DTB_PLIC, val);
      if ok {
        Advance(i.value.opcode);
      }
    }

    /** vplic_handle_interrupt: `id` is what the claim register returned. */
    method HandleInterrupt(id: Word32)
      requires Valid()
      modifies this`last, this`vseip
      ensures Valid() && last == id && vseip == (old(vseip) || id != 0)
    {
      last := id;
      if last != 0 {
        vseip := true;
      }
    }
  }

  predicate StoreAccepted(off: nat) {
    IsPriorityAccess(off) || IsPendingAccess(off) || IsEnableAccess(off) || IsContextReg(off, THRESHOLD_BASE) ||
        IsContextReg(off, CLAIM_BASE)
  }

  /** lw and lwu, compressed or not. */
  predicate LoadAccepted(i: Option<Instr>) {
    i.Some? && (i.value.opcode == 1 || i.value.opcode == 3) && (i.value.funct3 == 2 || i.value.funct3 == 6)
  }

  /** sw, compressed or not. */
  predicate WriteAccepted(i: Option<Instr>) {
    i.Some? && (i.value.opcode == 0x21 || i.value.opcode == 0x23) && i.value.funct3 == 2
  }

  lemma RejectedStore(w: Regs, h: Hart, last: Word32, off: nat, val: Word32)
    ensures !StoreAccepted(off) ==>
              StoreRegs(w, h, last, off, val) == w && StoreLast(h, last, off, val) == last &&
                  !Completes(h, last, off, val)
  {
  }

  lemma GroupOffset(off: nat, vctx: nat)
    requires IsEnableAccess(off) && vctx == (off - 0x2000) / 0x80
    ensures off - 0x2000 - vctx * 0x80 >= 0 && (off - 0x2000 - vctx * 0x80) / 4 == EnableGroup(off) < 32
  {
  }

  lemma ClaimBase(off: nat)
    requires IsContextReg(off, CLAIM_BASE)
    ensures off >= CLAIM_BASE && !IsContextReg(off, THRESHOLD_BASE)
  {
    ClassifiersDisjoint(off);
  }

  /** `opcode & 2` and `opcode | 2` on a seven-bit opcode. */
  lemma OpcodeBit(opcode: nat)
    ensures And(opcode, 2) != 0 <==> (opcode / 2) % 2 == 1
  {
    assert Pow2(1) == 2;
    AndPow2(opcode, 1);
  }

  lemma OpcodeOr(opcode: nat)
    ensures Or(opcode, 2) == 3 <==> opcode == 1 || opcode == 3
    ensures Or(opcode, 2) == 0x23 <==> opcode == 0x21 || opcode == 0x23
  {
    hide Or;
    var q, a, b := opcode / 4, (opcode / 2) % 2, opcode % 2;
    OrTwo(q, a, b);
    assert opcode == 4 * q + 2 * a + b;
  }

  lemma OrTwo(q: nat, a: nat, b: nat)
    requires a <= 1 && b <= 1
    ensures Or(4 * q + 2 * a + b, 2) == 4 * q + 2 + b
  {
    OrOdd(q, a);
    OrStep(2 * q + a, b);
  }

  lemma OrStep(h: nat, b: nat)
    requires b <= 1
    ensures Or(2 * h + b, 2) == b + 2 * Or(h, 1)
  {
    if h == 0 {
      assert Or(0, 1) == 1;
    }
  }
}
