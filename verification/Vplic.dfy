/** The emulated PLIC (vplic.c): which register a guest access hits, how interrupt numbers
are renamed, and what a load or store does to the physical PLIC. */
module Vplic {
  import opened Wrappers
  import opened Bits
  import opened Config
  import opened Plic

  // ---- interrupt renaming ----

  function V2P(devs: seq<MmioDev>, virq: int): int {
    if devs == [] then 0 else if virq == devs[0].virtIrq then devs[0].physIrq else V2P(devs[1..], virq)
  }

  function P2V(devs: seq<MmioDev>, pirq: int): int {
    if devs == [] then 0 else if pirq == devs[0].physIrq then devs[0].virtIrq else P2V(devs[1..], pirq)
  }

  /** vm_config.h: interrupt numbers are renamed 1:1, and 0 means "no interrupt" on both sides. */
  ghost predicate DevsOk(devs: seq<MmioDev>) {
    && |devs| <= MAX_DEVS
    && (forall i :: 0 <= i < |devs| ==> (devs[i].virtIrq == 0 <==> devs[i].physIrq == 0))
    && (forall i :: 0 <= i < |devs| ==> 0 <= devs[i].virtIrq < 0x8000_0000 && 0 <= devs[i].physIrq < 0x8000_0000)
    && (forall i, j :: 0 <= i < j < |devs| && devs[i].virtIrq != 0 ==> devs[i].virtIrq != devs[j].virtIrq)
    && (forall i, j :: 0 <= i < j < |devs| && devs[i].physIrq != 0 ==> devs[i].physIrq != devs[j].physIrq)
  }

  /** Some device of the VM raises this physical interrupt. */
  ghost predicate Owns(devs: seq<MmioDev>, pirq: int) {
    pirq != 0 && exists i :: 0 <= i < |devs| && devs[i].physIrq == pirq
  }

  lemma {:induction false} V2PIndex(devs: seq<MmioDev>, i: nat)
    requires DevsOk(devs) && i < |devs| && devs[i].virtIrq != 0
    ensures V2P(devs, devs[i].virtIrq) == devs[i].physIrq
    ensures P2V(devs, devs[i].physIrq) == devs[i].virtIrq
  {
    if i > 0 {
      assert devs[1..][i - 1] == devs[i];
      V2PIndex(devs[1..], i - 1);
    }
  }

  lemma {:induction false} V2PFound(devs: seq<MmioDev>, v: int) returns (i: nat)
    requires V2P(devs, v) != 0
    ensures i < |devs| && devs[i].virtIrq == v && devs[i].physIrq == V2P(devs, v)
  {
    if v == devs[0].virtIrq {
      i := 0;
    } else {
      var j := V2PFound(devs[1..], v);
      i := j + 1;
    }
  }

  lemma {:induction false} P2VFound(devs: seq<MmioDev>, p: int) returns (i: nat)
    requires P2V(devs, p) != 0
    ensures i < |devs| && devs[i].physIrq == p && devs[i].virtIrq == P2V(devs, p)
  {
    if p == devs[0].physIrq {
      i := 0;
    } else {
      var j := P2VFound(devs[1..], p);
      i := j + 1;
    }
  }

  /** Renaming to virtual numbers and back is the identity on the VM's interrupts, both
  ways, and everything else goes to 0. */
  lemma RenamingInverse(devs: seq<MmioDev>, x: int)
    requires DevsOk(devs)
    ensures V2P(devs, x) != 0 ==> P2V(devs, V2P(devs, x)) == x && x != 0
    ensures P2V(devs, x) != 0 ==> V2P(devs, P2V(devs, x)) == x && x != 0
    ensures Owns(devs, x) <==> P2V(devs, x) != 0
    ensures V2P(devs, x) != 0 ==> Owns(devs, V2P(devs, x))
  {
    hide V2P, P2V;
    if V2P(devs, x) != 0 {
      var i := V2PFound(devs, x);
      V2PIndex(devs, i);
    }
    if P2V(devs, x) != 0 {
      var i := P2VFound(devs, x);
      V2PIndex(devs, i);
    }
    if Owns(devs, x) {
      var i :| 0 <= i < |devs| && devs[i].physIrq == x;
      V2PIndex(devs, i);
    }
  }

  /** Different virtual interrupts never reach the same physical source. */
  lemma V2PInjective(devs: seq<MmioDev>, v: int, v': int)
    requires DevsOk(devs) && V2P(devs, v) != 0 && V2P(devs, v) == V2P(devs, v')
    ensures v == v'
  {
    hide V2P, P2V;
    RenamingInverse(devs, v);
    RenamingInverse(devs, v');
  }

  // ---- register classification ----

  predicate IsPriorityAccess(off: nat) { off < 0x1000 }

  predicate IsPendingAccess(off: nat) { 0x1000 <= off < 0x1080 }

  predicate IsEnableAccess(off: nat) { 0x2000 <= off < 0x20_0000 }

  /** Closed form of the two search loops over all contexts. */
  predicate IsContextReg(off: nat, base: nat) {
    base <= off && (off - base) % 0x1000 == 0 && (off - base) / 0x1000 < CONTEXTS
  }

  const THRESHOLD_BASE := 0x20_0000
  const CLAIM_BASE := 0x20_0004

  function ContextReg(base: nat, ctx: nat): nat { base + ctx * 0x1000 }

  lemma ContextRegOf(off: nat, base: nat)
    ensures IsContextReg(off, base) ==> off == ContextReg(base, (off - base) / 0x1000)
  {
  }

  method IsAccessToContextReg(off: Word, base: nat) returns (r: bool)
    ensures r <==> IsContextReg(off, base)
  {
    var ctx := 0;
    while ctx < 15872
      invariant 0 <= ctx <= 15872
      invariant forall c: nat :: c < ctx ==> ContextReg(base, c) != off
    {
      if ContextReg(base, ctx) == off {
        ModUnique(off - base, 0x1000, ctx, 0);
        return true;
      }
      ctx := ctx + 1;
    }
    ContextRegOf(off, base);
    r := false;
  }

  /** The classifiers are pairwise disjoint. */
  lemma ClassifiersDisjoint(off: nat)
    ensures !(IsPriorityAccess(off) && IsPendingAccess(off))
    ensures IsEnableAccess(off) ==> !IsPriorityAccess(off) && !IsPendingAccess(off)
    ensures IsContextReg(off, THRESHOLD_BASE) ==>
              !IsPriorityAccess(off) && !IsPendingAccess(off) && !IsEnableAccess(off)
    ensures IsContextReg(off, CLAIM_BASE) ==> !IsPriorityAccess(off) && !IsPendingAccess(off) && !IsEnableAccess(off)
    ensures !(IsContextReg(off, THRESHOLD_BASE) && IsContextReg(off, CLAIM_BASE))
  {
  }

  /** The emulator's decoding of an offset inverts the driver's encoding of a register. */
  lemma DecodeInverts(c: nat, s: nat)
    requires Context(c) && Source(s)
    ensures var off := 4 * EnableWord(c, s);
            off - 0x2000 >= 0 && (off - 0x2000) / 0x80 == c && (off - 0x2000 - c * 0x80) / 4 == s / 32
    ensures var off := 4 * ThresholdWord(c); IsContextReg(off, THRESHOLD_BASE) && (off - THRESHOLD_BASE) / 0x1000 == c
    ensures var off := 4 * ClaimWord(c); IsContextReg(off, CLAIM_BASE) && (off - CLAIM_BASE) / 0x1000 == c
  {
    var off := 4 * EnableWord(c, s);
    assert s / 32 < 32;
    ModUnique(off - 0x2000, 0x80, c, 4 * (s / 32));
    ModUnique(0x1000 * c, 0x1000, c, 0);
  }

  // ---- the abstract PLIC of one virtual hart ----

  /** Registers as the guest sees them, indexed by virtual interrupt number. */
  datatype VPlic = VPlic(prio: seq<Word32>, pending: seq<bool>, enable: seq<bool>, threshold: Word32, claimed: int)

  /** Virtual interrupts that are wired to a source. */
  predicate Wired(devs: seq<MmioDev>, v: int) {
    Source(V2P(devs, v))
  }

  /** One hart of a VM: its device list and its virtual and physical PLIC context. */
  datatype Hart = Hart(devs: seq<MmioDev>, vctx: nat, pctx: nat)

  function Prios(w: Regs, devs: seq<MmioDev>): seq<Word32> {
    seq(1024, v => GetPriority(w, V2P(devs, v)))
  }

  function Pendings(w: Regs, devs: seq<MmioDev>): seq<bool> {
    seq(1024, v => IsPending(w, V2P(devs, v)))
  }

  function Enables(w: Regs, devs: seq<MmioDev>, pctx: int): seq<bool> {
    seq(1024, v => IsEnabled(w, pctx, V2P(devs, v)))
  }

  /** The abstraction: physical registers seen through the renaming. */
  function Project(w: Regs, h: Hart, last: Word32): (a: VPlic)
    ensures |a.prio| == 1024 && |a.pending| == 1024 && |a.enable| == 1024
  {
    VPlic(Prios(w, h.devs), Pendings(w, h.devs), Enables(w, h.devs, h.pctx), GetThreshold(w, h.pctx),
        P2V(h.devs, AsInt(last)))
  }

  /** The 32 flags of group g as one register word. */
  function GroupWord(bs: seq<bool>, g: nat): nat
    requires |bs| == 1024 && g < 32
  {
    Pack(bs[32 * g..32 * g + 32])
  }

  /** What a load returns from the abstract PLIC; None is the "Bad PLIC access" panic. Other
  harts' contexts read as zero. */
  function AbsLoad(a: VPlic, vctx: nat, off: nat): Option<nat>
    requires |a.prio| == 1024 && |a.pending| == 1024 && |a.enable| == 1024
  {
    if IsPriorityAccess(off) then Some(a.prio[off / 4])
    else if IsPendingAccess(off) then Some(GroupWord(a.pending, (off - 0x1000) / 4))
    else if IsEnableAccess(off) then
      if (off - 0x2000) / 0x80 == vctx then Some(GroupWord(a.enable, EnableGroup(off))) else Some(0)
    else if IsContextReg(off, THRESHOLD_BASE) then
      if (off - THRESHOLD_BASE) / 0x1000 == vctx then Some(a.threshold) else Some(0)
    else if IsContextReg(off, CLAIM_BASE) then
      if (off - CLAIM_BASE) / 0x1000 == vctx then (if 0 <= a.claimed then Some(a.claimed) else None) else Some(0)
    else None
  }

  /** Which group of 32 enable bits an enable offset names within its context. */
  function EnableGroup(off: nat): (g: nat)
    requires IsEnableAccess(off)
    ensures g < 32
  {
    ((off - 0x2000) % 0x80) / 4
  }

  /** What a store does to the abstract PLIC. Registers of unwired interrupts and of other
  contexts ignore writes; completing another id than the claimed one is ignored. */
  function AbsStore(a: VPlic, devs: seq<MmioDev>, vctx: nat, off: nat, val: Word32): VPlic
    requires |a.prio| == 1024 && |a.pending| == 1024 && |a.enable| == 1024
  {
    if IsPriorityAccess(off) then
      if Wired(devs, off / 4) then a.(prio := a.prio[off / 4 := val]) else a
    else if IsPendingAccess(off) then a
    else if IsEnableAccess(off) then
      if (off - 0x2000) / 0x80 != vctx then a
      else
        var g := EnableGroup(off);
        a.(enable := seq(1024, v requires 0 <= v < 1024 =>
          if v / 32 == g && Wired(devs, v) then Bit(val, v % 32) else a.enable[v]))
    else if IsContextReg(off, THRESHOLD_BASE) then
      if (off - THRESHOLD_BASE) / 0x1000 == vctx then a.(threshold := val) else a
    else if IsContextReg(off, CLAIM_BASE) then
      if (off - CLAIM_BASE) / 0x1000 == vctx && val == a.claimed then a.(claimed := 0) else a
    else a
  }

  // ---- the concrete effect of a store ----

  /** A C int holding the low 32 bits of a register. */
  function AsInt(x: Word32): int {
    if x < 0x8000_0000 then x else x - WORD32
  }

  /** Physical source behind bit i of group g. */
  function GroupSource(devs: seq<MmioDev>, g: nat, i: nat): int {
    V2P(devs, 32 * g + i)
  }

  /** The first n rounds of the enable loop. */
  function SetGroup(w: Regs, h: Hart, g: nat, val: Word32, n: nat): Regs {
    if n == 0 then w
    else SetEnabled(SetGroup(w, h, g, val, n - 1), h.pctx, GroupSource(h.devs, g, n - 1), Bit(val, n - 1))
  }

  predicate Completes(h: Hart, last: Word32, off: nat, val: Word32) {
    && !IsPriorityAccess(off) && !IsPendingAccess(off) && !IsEnableAccess(off) && !IsContextReg(off, THRESHOLD_BASE)
    && IsContextReg(off, CLAIM_BASE) && (off - CLAIM_BASE) / 0x1000 == h.vctx && V2P(h.devs, AsInt(val)) == last
  }

  function StoreRegs(w: Regs, h: Hart, last: Word32, off: nat, val: Word32): Regs
  {
    if IsPriorityAccess(off) then SetPriority(w, V2P(h.devs, off / 4), val)
    else if IsPendingAccess(off) then w
    else if IsEnableAccess(off) then
      if (off - 0x2000) / 0x80 == h.vctx then SetGroup(w, h, EnableGroup(off), val, 32) else w
    else if IsContextReg(off, THRESHOLD_BASE) then
      if (off - THRESHOLD_BASE) / 0x1000 == h.vctx then SetThreshold(w, h.pctx, val) else w
    else if Completes(h, last, off, val) then SetClaim(w, h.pctx, last)
    else w
  }

  function StoreLast(h: Hart, last: Word32, off: nat, val: Word32): Word32 {
    if Completes(h, last, off, val) then 0 else last
  }

  // ---- refinement ----

  /** Effect of the enable loop, source by source. */
  lemma {:induction false} SetGroupEffect(w: Regs, h: Hart, g: nat, val: Word32, n: nat, c': int, s': int)
    requires n <= 32
    ensures var w' := SetGroup(w, h, g, val, n);
            && GetPriority(w', s') == GetPriority(w, s')
            && IsPending(w', s') == IsPending(w, s')
            && GetThreshold(w', c') == GetThreshold(w, c')
            && (c' != h.pctx ==> IsEnabled(w', c', s') == IsEnabled(w, c', s'))
            && ((forall i: nat :: i < n ==> GroupSource(h.devs, g, i) != s') ==>
               IsEnabled(w', c', s') == IsEnabled(w, c', s'))
  {
    hide GetPriority, IsPending, IsEnabled, GetThreshold, SetEnabled, Bit, V2P;
    if n > 0 {
      SetGroupEffect(w, h, g, val, n - 1, c', s');
      SetEnabledEffect(SetGroup(w, h, g, val, n - 1), h.pctx, GroupSource(h.devs, g, n - 1), Bit(val, n - 1), c', s');
    }
  }

  /** After the loop each wired interrupt of the group has the bit that was written. */
  lemma {:induction false} SetGroupBit(w: Regs, h: Hart, g: nat, val: Word32, n: nat, i: nat)
    requires n <= 32 && i < n && DevsOk(h.devs) && Wired(h.devs, 32 * g + i) && Context(h.pctx)
    ensures IsEnabled(SetGroup(w, h, g, val, n), h.pctx, V2P(h.devs, 32 * g + i)) == Bit(val, i)
  {
    hide IsEnabled, SetEnabled, Bit, V2P, DevsOk;
    var s := V2P(h.devs, 32 * g + i);
    var t := V2P(h.devs, 32 * g + (n - 1));
    SetEnabledEffect(SetGroup(w, h, g, val, n - 1), h.pctx, t, Bit(val, n - 1), h.pctx, s);
    if i < n - 1 {
      SetGroupBit(w, h, g, val, n - 1, i);
      if t == s {
        V2PInjective(h.devs, 32 * g + i, 32 * g + (n - 1));
      }
    }
  }

  /** Every emulated store commutes with the projection, for all offsets, values and device
  lists: storing and then looking is looking and then storing abstractly. */
  lemma StoreRefines(w: Regs, h: Hart, last: Word32, off: nat, val: Word32)
    requires DevsOk(h.devs) && Context(h.pctx)
    ensures Project(StoreRegs(w, h, last, off, val), h, StoreLast(h, last, off, val)) ==
            AbsStore(Project(w, h, last), h.devs, h.vctx, off, val)
  {
    hide V2P, P2V, GetPriority, IsPending, IsEnabled, GetThreshold, SetGroup, SetPriority, SetThreshold, SetClaim,
         DevsOk, Owns, Bit, AsInt, IsContextReg;
    var a := Project(w, h, last);
    if IsPriorityAccess(off) {
      StorePriority(w, h, off / 4, val);
    } else if IsPendingAccess(off) {
    } else if IsEnableAccess(off) {
      if (off - 0x2000) / 0x80 == h.vctx {
        StoreEnable(w, h, EnableGroup(off), val);
      }
    } else if IsContextReg(off, THRESHOLD_BASE) {
      StoreOther(w, h, val);
    } else if IsContextReg(off, CLAIM_BASE) {
      StoreOther(w, h, last);
      StoreComplete(h, last, val);
    }
  }

  lemma StorePriority(w: Regs, h: Hart, v: nat, val: Word32)
    requires DevsOk(h.devs) && v < 1024
    ensures var w' := SetPriority(w, V2P(h.devs, v), val);
            && Prios(w', h.devs) == (if Wired(h.devs, v) then Prios(w, h.devs)[v := val] else Prios(w, h.devs))
            && Pendings(w', h.devs) == Pendings(w, h.devs)
            && Enables(w', h.devs, h.pctx) == Enables(w, h.devs, h.pctx)
            && GetThreshold(w', h.pctx) == GetThreshold(w, h.pctx)
  {
    hide V2P, GetPriority, IsPending, IsEnabled, GetThreshold, SetPriority, DevsOk;
    var p := V2P(h.devs, v);
    SetPriorityEffect(w, p, val, h.pctx, 0);
    forall u: nat | u < 1024
      ensures var s := V2P(h.devs, u);
              && GetPriority(SetPriority(w, p, val), s) ==
                 (if Wired(h.devs, v) && u == v then val else GetPriority(w, s))
              && IsPending(SetPriority(w, p, val), s) == IsPending(w, s)
              && IsEnabled(SetPriority(w, p, val), h.pctx, s) == IsEnabled(w, h.pctx, s)
    {
      SetPriorityEffect(w, p, val, h.pctx, V2P(h.devs, u));
      if Wired(h.devs, v) && V2P(h.devs, u) == p {
        V2PInjective(h.devs, u, v);
      }
    }
  }

  lemma StoreEnable(w: Regs, h: Hart, g: nat, val: Word32)
    requires DevsOk(h.devs) && g < 32 && Context(h.pctx)
    ensures var w' := SetGroup(w, h, g, val, 32);
            && Prios(w', h.devs) == Prios(w, h.devs) && Pendings(w', h.devs) == Pendings(w, h.devs)
            && GetThreshold(w', h.pctx) == GetThreshold(w, h.pctx)
            && Enables(w', h.devs, h.pctx) ==
               seq(1024, v requires 0 <= v < 1024 =>
                 if v / 32 == g && Wired(h.devs, v) then Bit(val, v % 32) else Enables(w, h.devs, h.pctx)[v])
  {
    hide V2P, GetPriority, IsPending, IsEnabled, GetThreshold, SetGroup, DevsOk, Bit;
    var w' := SetGroup(w, h, g, val, 32);
    SetGroupEffect(w, h, g, val, 32, h.pctx, 0);
    forall v: nat | v < 1024
      ensures var s := V2P(h.devs, v);
              && GetPriority(w', s) == GetPriority(w, s) && IsPending(w', s) == IsPending(w, s)
              && IsEnabled(w', h.pctx, s) ==
                 (if v / 32 == g && Wired(h.devs, v) then Bit(val, v % 32) else IsEnabled(w, h.pctx, s))
    {
      EnableOne(w, h, g, val, v);
    }
  }

  lemma EnableOne(w: Regs, h: Hart, g: nat, val: Word32, v: nat)
    requires DevsOk(h.devs) && g < 32 && Context(h.pctx)
    ensures var s, w' := V2P(h.devs, v), SetGroup(w, h, g, val, 32);
            && GetPriority(w', s) == GetPriority(w, s) && IsPending(w', s) == IsPending(w, s)
            && IsEnabled(w', h.pctx, s) ==
               (if v / 32 == g && Wired(h.devs, v) then Bit(val, v % 32) else IsEnabled(w, h.pctx, s))
  {
    hide V2P, GetPriority, IsPending, GetThreshold, SetGroup, DevsOk, Bit;
    var s := V2P(h.devs, v);
    SetGroupEffect(w, h, g, val, 32, h.pctx, s);
    if Source(s) {
      if v / 32 == g {
        SetGroupBit(w, h, g, val, 32, v % 32);
      } else {
        forall i: nat | i < 32
          ensures GroupSource(h.devs, g, i) != s
        {
          if V2P(h.devs, 32 * g + i) == s {
            V2PInjective(h.devs, v, 32 * g + i);
            ModUnique(32 * g + i, 32, g, i);
          }
        }
      }
    }
  }

  /** Threshold and claim words are outside the projected priorities, pendings and enables. */
  lemma StoreOther(w: Regs, h: Hart, val: Word32)
    requires Context(h.pctx)
    ensures var w' := SetThreshold(w, h.pctx, val);
            && Prios(w', h.devs) == Prios(w, h.devs) && Pendings(w', h.devs) == Pendings(w, h.devs)
            && Enables(w', h.devs, h.pctx) == Enables(w, h.devs, h.pctx) && GetThreshold(w', h.pctx) == val
    ensures var w' := SetClaim(w, h.pctx, val);
            && Prios(w', h.devs) == Prios(w, h.devs) && Pendings(w', h.devs) == Pendings(w, h.devs)
            && Enables(w', h.devs, h.pctx) == Enables(w, h.devs, h.pctx) &&
               GetThreshold(w', h.pctx) == GetThreshold(w, h.pctx)
  {
    hide V2P, GetPriority, IsPending, IsEnabled, GetThreshold, SetThreshold, SetClaim;
    var t, c := SetThreshold(w, h.pctx, val), SetClaim(w, h.pctx, val);
    SetThresholdEffect(w, h.pctx, val, h.pctx, 0);
    SetClaimEffect(w, h.pctx, val, h.pctx, 0);
    forall v: nat | v < 1024
      ensures var s := V2P(h.devs, v);
              && GetPriority(t, s) == GetPriority(w, s) && IsPending(t, s) == IsPending(w, s) &&
                 IsEnabled(t, h.pctx, s) == IsEnabled(w, h.pctx, s)
              && GetPriority(c, s) == GetPriority(w, s) && IsPending(c, s) == IsPending(w, s) &&
                 IsEnabled(c, h.pctx, s) == IsEnabled(w, h.pctx, s)
    {
      SetThresholdEffect(w, h.pctx, val, h.pctx, V2P(h.devs, v));
      SetClaimEffect(w, h.pctx, val, h.pctx, V2P(h.devs, v));
    }
  }

  /** Completion, in terms of virtual ids. A remembered id that is no interrupt of the VM reads
  as 0 and cannot be completed. */
  lemma StoreComplete(h: Hart, last: Word32, val: Word32)
    requires DevsOk(h.devs)
    ensures AsInt(0) == 0 && P2V(h.devs, 0) == 0 && 0 <= P2V(h.devs, AsInt(last)) < 0x8000_0000
    ensures V2P(h.devs, AsInt(val)) == last && last != 0 ==> val == P2V(h.devs, AsInt(last))
    ensures val == P2V(h.devs, AsInt(last)) != 0 ==> V2P(h.devs, AsInt(val)) == last
  {
    hide V2P, P2V;
    RenamingInverse(h.devs, AsInt(last));
    RenamingInverse(h.devs, AsInt(val));
    RenamingInverse(h.devs, 0);
    if P2V(h.devs, AsInt(last)) != 0 {
      var i := P2VFound(h.devs, AsInt(last));
    }
    if V2P(h.devs, AsInt(val)) != 0 {
      var i := V2PFound(h.devs, AsInt(val));
    }
  }

  // ---- isolation ----

  /** For two VMs with disjoint physical interrupts, a store by a hart of one changes no
  register that a hart of the other can see, whatever is stored where. */
  lemma StoreIsolated(w: Regs, h: Hart, last: Word32, off: nat, val: Word32, h': Hart, last': Word32)
    requires DevsOk(h.devs) && DevsOk(h'.devs) && h.pctx != h'.pctx
    requires forall p :: Owns(h.devs, p) ==> !Owns(h'.devs, p)
    ensures Project(StoreRegs(w, h, last, off, val), h', last').prio == Project(w, h', last').prio
    ensures Project(StoreRegs(w, h, last, off, val), h', last').pending == Project(w, h', last').pending
    ensures Project(StoreRegs(w, h, last, off, val), h', last').enable == Project(w, h', last').enable
    ensures Project(StoreRegs(w, h, last, off, val), h', last').threshold == Project(w, h', last').threshold
  {
    hide V2P, P2V, GetPriority, IsPending, IsEnabled, GetThreshold, StoreRegs, DevsOk, Owns;
    var w' := StoreRegs(w, h, last, off, val);
    StoreElsewhere(w, h, last, off, val, h'.pctx, 0);
    forall v: nat | v < 1024
      ensures var s := V2P(h'.devs, v);
              && GetPriority(w', s) == GetPriority(w, s) && IsPending(w', s) == IsPending(w, s)
              && IsEnabled(w', h'.pctx, s) == IsEnabled(w, h'.pctx, s)
    {
      var s := V2P(h'.devs, v);
      StoreElsewhere(w, h, last, off, val, h'.pctx, s);
      ForeignSource(w, h, h', last, off, val, v);
    }
  }

  /** A source that a hart's VM does not own keeps its priority; contexts other than the
  hart's keep their enable bits and threshold. */
  lemma StoreElsewhere(w: Regs, h: Hart, last: Word32, off: nat, val: Word32, c': int, s': int)
    requires c' != h.pctx
    ensures var w' := StoreRegs(w, h, last, off, val);
            && IsEnabled(w', c', s') == IsEnabled(w, c', s') && GetThreshold(w', c') == GetThreshold(w, c')
            && IsPending(w', s') == IsPending(w, s')
            && (s' == 0 || (forall v :: V2P(h.devs, v) != s') ==> GetPriority(w', s') == GetPriority(w, s'))
  {
    hide V2P, GetPriority, IsPending, IsEnabled, GetThreshold, SetGroup, SetPriority, SetThreshold, SetClaim, AsInt,
         Completes;
    if IsPriorityAccess(off) {
      SetPriorityEffect(w, V2P(h.devs, off / 4), val, c', s');
      NoSourceZero(w, V2P(h.devs, off / 4), val);
    } else if IsEnableAccess(off) {
      SetGroupEffect(w, h, EnableGroup(off), val, 32, c', s');
    } else {
      SetThresholdEffect(w, h.pctx, val, c', s');
      SetClaimEffect(w, h.pctx, last, c', s');
    }
  }

  lemma NoSourceZero(w: Regs, s: int, val: Word32)
    ensures GetPriority(SetPriority(w, s, val), 0) == GetPriority(w, 0)
  {
  }

  lemma ForeignSource(w: Regs, h: Hart, h': Hart, last: Word32, off: nat, val: Word32, v: nat)
    requires DevsOk(h.devs) && DevsOk(h'.devs) && h.pctx != h'.pctx
    requires forall p :: Owns(h.devs, p) ==> !Owns(h'.devs, p)
    ensures GetPriority(StoreRegs(w, h, last, off, val), V2P(h'.devs, v)) == GetPriority(w, V2P(h'.devs, v))
  {
    hide V2P, P2V, GetPriority, StoreRegs, DevsOk, Owns;
    var s := V2P(h'.devs, v);
    if s != 0 {
      RenamingInverse(h'.devs, v);
      forall u
        ensures V2P(h.devs, u) != s
      {
        RenamingInverse(h.devs, u);
      }
    }
    StoreElsewhere(w, h, last, off, val, h'.pctx, s);
  }
}
