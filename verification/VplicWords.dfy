/** The emulated PLIC in terms of byte offsets and physical register words: what each guest
access reads and writes, with the numbers of the "Memory Map" chapter. */
module VplicWords {
  import opened Wrappers
  import opened Bits
  import opened Config
  import opened Plic
  import opened Vplic
  import opened Emulate

  // ---- loads ----

  function LoadAt(w: Regs, h: Hart, last: Word32, off: nat): Option<nat> {
    AbsLoad(Project(w, h, last), h.vctx, off)
  }

  /** Priority of virtual interrupt v: the word of its source. */
  lemma LoadPriority(w: Regs, h: Hart, last: Word32, v: nat)
    requires v < 1024
    ensures var s := V2P(h.devs, v);
            LoadAt(w, h, last, 4 * v) == Some(if 1 <= s <= 1023 then At(w, 4 * s) else 0)
  {
    hide V2P, Pendings, Enables, P2V, GetPriority;
    Quarter(v);
    ReadsAt(w, 0, V2P(h.devs, v));
  }

  /** Bit i of a packed group of flags. */
  lemma GroupBit(bs: seq<bool>, g: nat, i: nat)
    requires |bs| == 1024 && g < 32 && i < 32
    ensures Bit(GroupWord(bs, g), i) <==> bs[32 * g + i]
    ensures GroupWord(bs, g) < WORD32
  {
    hide Bit, Pack, Pow2;
    Pow2Values();
    PackBits(bs[32 * g..32 * g + 32]);
  }

  /** Pending bit i of group g: the pending bit of the source. */
  lemma LoadPending(w: Regs, h: Hart, last: Word32, g: nat, i: nat)
    requires g < 32 && i < 32
    ensures var s, r := V2P(h.devs, 32 * g + i), LoadAt(w, h, last, 0x1000 + 4 * g);
            r.Some? && (Bit(r.value, i) <==> 1 <= s <= 1023 && Bit(At(w, 0x1000 + 4 * (s / 32)), s % 32))
  {
    hide V2P, Prios, Enables, P2V, IsPending, Bit, GroupWord;
    Quarter(g);
    GroupBit(Pendings(w, h.devs), g, i);
    ReadsAt(w, 0, V2P(h.devs, 32 * g + i));
  }

  /** Enable bit i of group g of the own context: the enable bit of the source in the physical
  context. Other contexts read as zero. */
  lemma LoadEnable(w: Regs, h: Hart, last: Word32, c: nat, g: nat, i: nat)
    requires c < 15872 && g < 32 && i < 32
    ensures var s, r := V2P(h.devs, 32 * g + i), LoadAt(w, h, last, 0x2000 + 0x80 * c + 4 * g);
            && r.Some? && (c != h.vctx ==> r.value == 0)
            && (c == h.vctx ==>
                  (Bit(r.value, i) <==> 1 <= s <= 1023 && 0 <= h.pctx <= 15871 &&
                                        Bit(At(w, 0x2000 + 0x80 * h.pctx + 4 * (s / 32)), s % 32)))
  {
    hide V2P, Prios, Pendings, P2V, IsEnabled, Bit, GroupWord;
    EnableOffset(c, g);
    GroupBit(Enables(w, h.devs, h.pctx), g, i);
    ReadsAt(w, h.pctx, V2P(h.devs, 32 * g + i));
  }

  lemma EnableOffset(c: nat, g: nat)
    requires c < 15872 && g < 32
    ensures var off := 0x2000 + 0x80 * c + 4 * g;
            && !IsPriorityAccess(off) && !IsPendingAccess(off) && IsEnableAccess(off)
            && (off - 0x2000) / 0x80 == c && EnableGroup(off) == g
  {
    ModUnique(0x80 * c + 4 * g, 0x80, c, 4 * g);
  }

  /** The threshold and the claimed id of the own context; other contexts read as zero. */
  lemma LoadContext(w: Regs, h: Hart, last: Word32, c: nat)
    requires c < 15872 && DevsOk(h.devs)
    ensures LoadAt(w, h, last, 0x20_0000 + 0x1000 * c) ==
            Some(if c == h.vctx && 0 <= h.pctx <= 15871 then At(w, 0x20_0000 + 0x1000 * h.pctx) else 0)
    ensures 0 <= P2V(h.devs, AsInt(last))
    ensures LoadAt(w, h, last, 0x20_0004 + 0x1000 * c) == Some(if c == h.vctx then P2V(h.devs, AsInt(last)) else 0)
  {
    hide V2P, Prios, Pendings, Enables, P2V, GetThreshold, IsContextReg, DevsOk;
    ContextOffsets(c);
    ReadsAt(w, h.pctx, 0);
    StoreComplete(h, last, 0);
  }

  lemma ContextOffsets(c: nat)
    requires c < 15872
    ensures var t, k := 0x20_0000 + 0x1000 * c, 0x20_0004 + 0x1000 * c;
            && IsContextReg(t, THRESHOLD_BASE) && (t - THRESHOLD_BASE) / 0x1000 == c
            && IsContextReg(k, CLAIM_BASE) && (k - CLAIM_BASE) / 0x1000 == c && !IsContextReg(k, THRESHOLD_BASE)
            && !IsPriorityAccess(t) && !IsPendingAccess(t) && !IsEnableAccess(t)
            && !IsPriorityAccess(k) && !IsPendingAccess(k) && !IsEnableAccess(k)
  {
    ModUnique(0x1000 * c, 0x1000, c, 0);
    ModUnique(0x1000 * c + 4, 0x1000, c, 4);
  }

  /** The offsets that exist, for loads and for stores; at all others the emulator panics. */
  predicate Existing(off: nat) {
    || off < 0x1080
    || 0x2000 <= off < 0x20_0000
    || (0x20_0000 <= off < 0x400_0000 && (off % 0x1000 == 0 || off % 0x1000 == 4))
  }

  lemma AcceptedOffsets(w: Regs, h: Hart, last: Word32, off: nat)
    requires DevsOk(h.devs)
    ensures LoadAt(w, h, last, off).Some? <==> Existing(off)
    ensures StoreAccepted(off) <==> Existing(off)
  {
    hide V2P, Prios, Pendings, Enables, P2V, GetThreshold, IsContextReg, DevsOk, GroupWord;
    StoreComplete(h, last, 0);
    ContextForm(off);
  }

  lemma ContextForm(off: nat)
    ensures IsContextReg(off, THRESHOLD_BASE) <==> 0x20_0000 <= off < 0x400_0000 && off % 0x1000 == 0
    ensures IsContextReg(off, CLAIM_BASE) <==> 0x20_0000 <= off < 0x400_0000 && off % 0x1000 == 4
  {
    var q, r := off / 0x1000, off % 0x1000;
    if off >= 0x20_0004 {
      if r >= 4 {
        ModUnique(off - 0x20_0004, 0x1000, q - 0x200, r - 4);
      } else if off >= 0x20_1000 {
        ModUnique(off - 0x20_0004, 0x1000, q - 0x201, r + 0xffc);
      }
    }
    if off >= 0x20_0000 {
      ModUnique(off - 0x20_0000, 0x1000, q - 0x200, r);
    }
  }

  // ---- stores ----

  /** A store to the priority of virtual interrupt v writes the word of its source, and no other. */
  lemma StorePriorityAt(w: Regs, h: Hart, last: Word32, v: nat, val: Word32, i: nat)
    requires v < 1024 && i < PLIC_WORDS
    ensures var s := V2P(h.devs, v);
            StoreRegs(w, h, last, 4 * v, val)[i] == if 1 <= s <= 1023 && i == s then val else w[i]
    ensures !Completes(h, last, 4 * v, val)
  {
    hide V2P, SetPriority;
    Quarter(v);
    WritesAt(w, 0, V2P(h.devs, v), val, i);
  }

  /** A store to the threshold of the own context writes that of the physical context; a store to
  another context writes nothing. */
  lemma StoreThresholdAt(w: Regs, h: Hart, last: Word32, c: nat, val: Word32, i: nat)
    requires c < 15872 && i < PLIC_WORDS
    ensures StoreRegs(w, h, last, 0x20_0000 + 0x1000 * c, val)[i] ==
            if c == h.vctx && 0 <= h.pctx <= 15871 && 4 * i == 0x20_0000 + 0x1000 * h.pctx then val else w[i]
    ensures !Completes(h, last, 0x20_0000 + 0x1000 * c, val)
  {
    hide V2P, SetThreshold, IsContextReg;
    ContextOffsets(c);
    WritesAt(w, h.pctx, 0, val, i);
  }

  /** A store to the claim register of the own context writes the claimed id to the physical claim
  register, and no other word, exactly if it names the interrupt that is claimed; then the claim
  is over. Otherwise nothing changes. */
  lemma StoreClaimAt(w: Regs, h: Hart, last: Word32, c: nat, val: Word32, i: nat)
    requires c < 15872 && i < PLIC_WORDS
    ensures var off, done := 0x20_0004 + 0x1000 * c, c == h.vctx && V2P(h.devs, AsInt(val)) == last;
            && StoreRegs(w, h, last, off, val)[i] ==
               (if done && 0 <= h.pctx <= 15871 && 4 * i == 0x20_0004 + 0x1000 * h.pctx then last else w[i])
            && StoreLast(h, last, off, val) == (if done then 0 else last)
            && (Completes(h, last, off, val) <==> done)
  {
    hide V2P, SetClaim, IsContextReg, AsInt;
    ContextOffsets(c);
    WritesAt(w, h.pctx, 0, last, i);
  }

  /** The enable loop, bit by bit: the enable bits of the group's sources get the bits written,
  in whatever words they are, and every other bit of the PLIC stays. */
  lemma {:induction false} SetGroupAt(w: Regs, h: Hart, g: nat, val: Word32, n: nat, i: nat, b: nat)
    requires n <= 32 && i < PLIC_WORDS && DevsOk(h.devs)
    ensures forall j: nat :: j < n && EnableAt(h.pctx, GroupSource(h.devs, g, j), i, b) ==>
              (Bit(SetGroup(w, h, g, val, n)[i], b) <==> Bit(val, j))
    ensures (forall j: nat :: j < n ==> !EnableAt(h.pctx, GroupSource(h.devs, g, j), i, b)) ==>
              (Bit(SetGroup(w, h, g, val, n)[i], b) <==> Bit(w[i], b))
  {
    hide V2P, SetEnabled, Bit, DevsOk;
    if n > 0 {
      SetGroupAt(w, h, g, val, n - 1, i, b);
      EnableWritesAt(SetGroup(w, h, g, val, n - 1), h.pctx, GroupSource(h.devs, g, n - 1), Bit(val, n - 1), i, b);
      forall j: nat | j < n - 1 && EnableAt(h.pctx, GroupSource(h.devs, g, j), i, b)
        ensures !EnableAt(h.pctx, GroupSource(h.devs, g, n - 1), i, b)
      {
        if EnableAt(h.pctx, GroupSource(h.devs, g, n - 1), i, b) {
          SameEnable(h.pctx, GroupSource(h.devs, g, j), GroupSource(h.devs, g, n - 1), i, b);
          V2PInjective(h.devs, 32 * g + j, 32 * g + (n - 1));
        }
      }
    }
  }

  lemma SameEnable(c: int, s: int, t: int, i: nat, b: nat)
    requires EnableAt(c, s, i, b) && EnableAt(c, t, i, b)
    ensures s == t
  {
  }

  /** So does a store to an enable group of the own context; one to another context writes
  nothing. */
  lemma StoreEnableAt(w: Regs, h: Hart, last: Word32, c: nat, g: nat, val: Word32, i: nat, b: nat)
    requires c < 15872 && g < 32 && i < PLIC_WORDS && DevsOk(h.devs)
    ensures var w' := StoreRegs(w, h, last, 0x2000 + 0x80 * c + 4 * g, val);
            && (forall j: nat :: j < 32 && c == h.vctx && EnableAt(h.pctx, GroupSource(h.devs, g, j), i, b) ==>
                  (Bit(w'[i], b) <==> Bit(val, j)))
            && (c != h.vctx || (forall j: nat :: j < 32 ==> !EnableAt(h.pctx, GroupSource(h.devs, g, j), i, b)) ==>
                  (Bit(w'[i], b) <==> Bit(w[i], b)))
    ensures !Completes(h, last, 0x2000 + 0x80 * c + 4 * g, val)
  {
    hide GroupSource, SetGroup, Bit, DevsOk, EnableAt;
    EnableOffset(c, g);
    SetGroupAt(w, h, g, val, 32, i, b);
  }

  // ---- reading back what was stored ----

  /** The abstract PLIC reads back what was written: priorities and enable bits of wired
  interrupts, the threshold; completing the claimed id empties the claim register. */
  lemma ReadBack(a: VPlic, devs: seq<MmioDev>, vctx: nat, v: nat, val: Word32)
    requires |a.prio| == 1024 && |a.pending| == 1024 && |a.enable| == 1024 && v < 1024 && vctx < 15872
    ensures AbsLoad(AbsStore(a, devs, vctx, 4 * v, val), vctx, 4 * v) ==
            Some(if Wired(devs, v) then val else a.prio[v])
    ensures var off := 0x20_0000 + 0x1000 * vctx; AbsLoad(AbsStore(a, devs, vctx, off, val), vctx, off) == Some(val)
    ensures var off := 0x20_0004 + 0x1000 * vctx;
            0 <= a.claimed ==>
              AbsLoad(AbsStore(a, devs, vctx, off, val), vctx, off) == Some(if val == a.claimed then 0 else a.claimed)
  {
    hide V2P, IsContextReg, GroupWord;
    Quarter(v);
    ContextOffsets(vctx);
  }

  lemma ReadBackEnable(a: VPlic, devs: seq<MmioDev>, vctx: nat, g: nat, val: Word32, i: nat)
    requires |a.prio| == 1024 && |a.pending| == 1024 && |a.enable| == 1024 && vctx < 15872 && g < 32 && i < 32
    ensures var off := 0x2000 + 0x80 * vctx + 4 * g;
            var r := AbsLoad(AbsStore(a, devs, vctx, off, val), vctx, off);
            r.Some? && (Bit(r.value, i) <==> if Wired(devs, 32 * g + i) then Bit(val, i) else a.enable[32 * g + i])
  {
    hide V2P, GroupWord, Bit;
    var off := 0x2000 + 0x80 * vctx + 4 * g;
    EnableOffset(vctx, g);
    ModUnique(32 * g + i, 32, g, i);
    GroupBit(AbsStore(a, devs, vctx, off, val).enable, g, i);
  }

  // ---- instructions ----

  /** The value a load puts into its register: lw copies bit 31 upwards, lwu does not. */
  lemma LoadedValue(v: Word32)
    ensures Loaded(2, v) == if v >= 0x8000_0000 then v + 0xffff_ffff_0000_0000 else v
    ensures Loaded(6, v) == v
  {
  }

  /** The program counter moves by 4 behind an uncompressed access and by 2 behind a compressed
  one. */
  lemma NextPcValue(pc: Word)
    ensures NextPc(pc, 3) == NextPc(pc, 0x23) == Wrap(pc + 4)
    ensures NextPc(pc, 1) == NextPc(pc, 0x21) == Wrap(pc + 2)
  {
  }

  /** The instructions that the handlers take, by their fields. */
  lemma AcceptedInstructions(htinst: Word)
    ensures LoadAccepted(Parse(htinst)) <==>
              && htinst % 128 in {1, 3} && (htinst / 4096) % 8 in {2, 6}
              && (htinst / 0x8000) % 32 == 0 && (htinst / 0x200_0000) % 128 == 0
    ensures WriteAccepted(Parse(htinst)) <==>
              && htinst % 128 in {0x21, 0x23} && (htinst / 4096) % 8 == 2
              && (htinst / 0x8000) % 32 == 0 && (htinst / 0x200_0000) % 128 == 0
  {
  }
}
