/** The physical PLIC and its driver (plic.c): 32-bit registers at the offsets of the
RISC-V PLIC Specification 1.0.0, chapter "Memory Map". */
module Plic {
  import opened Bits

  const PLIC_WORDS := 0x100_0000
  const CONTEXTS := 15872

  type Regs = w: seq<Word32> | |w| == PLIC_WORDS ghost witness seq(PLIC_WORDS, i => 0)

  predicate Source(s: int) {
    1 <= s <= 1023
  }

  predicate Context(c: int) {
    0 <= c < CONTEXTS
  }

  // ---- register words ----

  function PendingWord(s: nat): nat { 0x400 + s / 32 }

  function EnableWord(c: nat, s: nat): nat { 0x800 + 32 * c + s / 32 }

  function ThresholdWord(c: nat): nat { 0x8_0000 + 0x400 * c }

  function ClaimWord(c: nat): nat { 0x8_0001 + 0x400 * c }

  /** Every register (or register bit) that the driver can address. */
  datatype Reg = Priority(s: nat) | Pending(s: nat) | Enable(c: nat, s: nat) | Threshold(c: nat) | Claim(c: nat)

  predicate RegOk(r: Reg) {
    match r
    case Priority(s) => Source(s)
    case Pending(s) => Source(s)
    case Enable(c, s) => Context(c) && Source(s)
    case Threshold(c) => Context(c)
    case Claim(c) => Context(c)
  }

  function WordOf(r: Reg): nat {
    match r
    case Priority(s) => s
    case Pending(s) => PendingWord(s)
    case Enable(c, s) => EnableWord(c, s)
    case Threshold(c) => ThresholdWord(c)
    case Claim(c) => ClaimWord(c)
  }

  function BitOf(r: Reg): nat {
    if r.Pending? || r.Enable? then r.s % 32 else 0
  }

  /** Offsets and masks are injective, within one kind of register and across kinds: no two
  registers share a word, unless they are bits of the same kind and context, and then the
  bits differ. */
  lemma LayoutInjective(r: Reg, q: Reg)
    requires RegOk(r) && RegOk(q) && r != q
    ensures WordOf(r) < PLIC_WORDS
    ensures WordOf(r) != WordOf(q) || BitOf(r) != BitOf(q)
    ensures WordOf(r) == WordOf(q) ==> (r.Pending? && q.Pending?) || (r.Enable? && q.Enable? && r.c == q.c)
  {
  }

  // ---- reading ----

  function GetPriority(w: Regs, s: int): Word32 {
    if Source(s) then w[s] else 0
  }

  predicate IsPending(w: Regs, s: int) {
    Source(s) && Bit(w[PendingWord(s)], s % 32)
  }

  predicate IsEnabled(w: Regs, c: int, s: int) {
    Source(s) && Context(c) && Bit(w[EnableWord(c, s)], s % 32)
  }

  function GetThreshold(w: Regs, c: int): Word32 {
    if Context(c) then w[ThresholdWord(c)] else 0
  }

  // ---- writing ----

  function SetPriority(w: Regs, s: int, v: Word32): Regs {
    if Source(s) then w[s := v] else w
  }

  /** amoor with the mask, or amoand with its complement. */
  function Masked(x: Word32, b: nat, on: bool): (y: Word32)
    requires b < 32
    ensures forall i: nat :: Bit(y, i) <==> if i == b then on else Bit(x, i)
  {
    MaskedBits(x, b, on);
    if on then Or(x, Pow2(b)) else And(x, WORD32 - 1 - Pow2(b))
  }

  lemma MaskedBits(x: Word32, b: nat, on: bool)
    requires b < 32
    ensures Pow2(b) < WORD32
    ensures var y := if on then Or(x, Pow2(b)) else And(x, WORD32 - 1 - Pow2(b));
            y < WORD32 && forall i: nat :: Bit(y, i) <==> if i == b then on else Bit(x, i)
  {
    hide Bit, Or, And, Pow2;
    Pow2Values();
    Pow2Monotone(b, 32);
    OrBound(x, Pow2(b), 32);
    AndBound(x, WORD32 - 1 - Pow2(b));
    forall i: nat
      ensures Bit(Or(x, Pow2(b)), i) <==> i == b || Bit(x, i)
      ensures Bit(And(x, WORD32 - 1 - Pow2(b)), i) <==> i != b && Bit(x, i)
    {
      OrBit(x, Pow2(b), i);
      AndBit(x, WORD32 - 1 - Pow2(b), i);
      Pow2Bit(b, i);
      NotBit(Pow2(b), 32, i);
      if i >= 32 {
        HighBit(x, 32, i);
      }
    }
  }

  function SetEnabled(w: Regs, c: int, s: int, on: bool): Regs {
    if Source(s) && Context(c) then w[EnableWord(c, s) := Masked(w[EnableWord(c, s)], s % 32, on)] else w
  }

  function SetThreshold(w: Regs, c: int, v: Word32): Regs {
    if Context(c) then w[ThresholdWord(c) := v] else w
  }

  function SetClaim(w: Regs, c: int, id: Word32): Regs {
    if Context(c) then w[ClaimWord(c) := id] else w
  }

  /** Setting one enable bit changes that bit of that context and nothing else. */
  lemma SetEnabledEffect(w: Regs, c: int, s: int, on: bool, c': int, s': int)
    ensures var w' := SetEnabled(w, c, s, on);
            && (IsEnabled(w', c', s') <==> if Source(s) && Context(c) && c' == c &&
               s' == s then on else IsEnabled(w, c', s'))
            && GetPriority(w', s') == GetPriority(w, s')
            && IsPending(w', s') == IsPending(w, s')
            && GetThreshold(w', c') == GetThreshold(w, c')
  {
    hide Bit;
    if Source(s) && Context(c) && Source(s') {
      assert WordOf(Priority(s')) != EnableWord(c, s) && WordOf(Pending(s')) != EnableWord(c, s);
      if Context(c') && (c', s') != (c, s) {
        LayoutInjective(Enable(c, s), Enable(c', s'));
      }
    }
    if Context(c) && Context(c') && Source(s) {
      LayoutInjective(Enable(c, s), Threshold(c'));
    }
  }

  lemma SetPriorityEffect(w: Regs, s: int, v: Word32, c': int, s': int)
    ensures var w' := SetPriority(w, s, v);
            && GetPriority(w', s') == (if Source(s) && s' == s then v else GetPriority(w, s'))
            && IsEnabled(w', c', s') == IsEnabled(w, c', s')
            && IsPending(w', s') == IsPending(w, s')
            && GetThreshold(w', c') == GetThreshold(w, c')
  {
    hide Bit;
  }

  lemma SetThresholdEffect(w: Regs, c: int, v: Word32, c': int, s': int)
    ensures var w' := SetThreshold(w, c, v);
            && GetThreshold(w', c') == (if Context(c) && c' == c then v else GetThreshold(w, c'))
            && GetPriority(w', s') == GetPriority(w, s')
            && IsEnabled(w', c', s') == IsEnabled(w, c', s')
            && IsPending(w', s') == IsPending(w, s')
  {
    hide Bit;
    if Context(c) && Context(c') && Source(s') {
      LayoutInjective(Threshold(c), Enable(c', s'));
    }
  }

  lemma SetClaimEffect(w: Regs, c: int, id: Word32, c': int, s': int)
    ensures var w' := SetClaim(w, c, id);
            && GetThreshold(w', c') == GetThreshold(w, c')
            && GetPriority(w', s') == GetPriority(w, s')
            && IsEnabled(w', c', s') == IsEnabled(w, c', s')
            && IsPending(w', s') == IsPending(w, s')
  {
    hide Bit;
    if Context(c) && Context(c') {
      LayoutInjective(Claim(c), Threshold(c'));
      if Source(s') {
        LayoutInjective(Claim(c), Enable(c', s'));
      }
    }
  }

  // ---- the registers by byte offset ----

  /** The 32-bit register at a byte offset from the PLIC's base. */
  function At(w: Regs, byte: nat): Word32
    requires byte / 4 < PLIC_WORDS
  {
    w[byte / 4]
  }

  /** What the driver reads, by the byte offsets of the "Memory Map" chapter; arguments out of
  range read as zero. */
  lemma ReadsAt(w: Regs, c: int, s: int)
    ensures GetPriority(w, s) == if 1 <= s <= 1023 then At(w, 4 * s) else 0
    ensures IsPending(w, s) <==> 1 <= s <= 1023 && Bit(At(w, 0x1000 + 4 * (s / 32)), s % 32)
    ensures IsEnabled(w, c, s) <==>
              1 <= s <= 1023 && 0 <= c <= 15871 && Bit(At(w, 0x2000 + 0x80 * c + 4 * (s / 32)), s % 32)
    ensures GetThreshold(w, c) == if 0 <= c <= 15871 then At(w, 0x20_0000 + 0x1000 * c) else 0
  {
    hide Bit;
    if 1 <= s <= 1023 {
      Quarter(s);
      Quarter(0x400 + s / 32);
      if 0 <= c <= 15871 {
        Quarter(0x800 + 0x20 * c + s / 32);
      }
    }
    if 0 <= c <= 15871 {
      Quarter(0x8_0000 + 0x400 * c);
    }
  }

  lemma Quarter(i: nat)
    ensures (4 * i) / 4 == i
  {
  }

  /** What the driver writes, word by word; arguments out of range write nothing. */
  lemma WritesAt(w: Regs, c: int, s: int, v: Word32, i: nat)
    requires i < PLIC_WORDS
    ensures SetPriority(w, s, v)[i] == if 1 <= s <= 1023 && i == s then v else w[i]
    ensures SetThreshold(w, c, v)[i] == if 0 <= c <= 15871 && 4 * i == 0x20_0000 + 0x1000 * c then v else w[i]
    ensures SetClaim(w, c, v)[i] == if 0 <= c <= 15871 && 4 * i == 0x20_0004 + 0x1000 * c then v else w[i]
  {
  }

  /** Setting an enable bit, bit by bit. */
  lemma EnableWritesAt(w: Regs, c: int, s: int, on: bool, i: nat, b: nat)
    requires i < PLIC_WORDS
    ensures Bit(SetEnabled(w, c, s, on)[i], b) <==>
              if EnableAt(c, s, i, b) then on else Bit(w[i], b)
  {
    hide Bit;
  }

  /** Bit b of word i is the enable bit of source s in context c. */
  predicate EnableAt(c: int, s: int, i: nat, b: nat) {
    1 <= s <= 1023 && 0 <= c <= 15871 && 4 * i == 0x2000 + 0x80 * c + 4 * (s / 32) && b == s % 32
  }

  // ---- the driver ----

  class Driver {
    const plic: array<Word32>

    ghost predicate Valid() {
      plic.Length == PLIC_WORDS
    }

    ghost function Words(): Regs
      requires Valid()
      reads plic
    {
      plic[..]
    }

    constructor (plic: array<Word32>)
      requires plic.Length == PLIC_WORDS
      ensures Valid() && this.plic == plic
    {
      this.plic := plic;
    }

    method PlicGetPriority(s: int) returns (v: Word32)
      requires Valid()
      ensures v == GetPriority(Words(), s)
    {
      if s < 1 || 1023 < s {
        return 0;
      }
      v := plic[s];
    }

    method PlicSetPriority(s: int, priority: Word32)
      requires Valid()
      modifies plic
      ensures Words() == SetPriority(old(Words()), s, priority)
    {
      if s < 1 || 1023 < s {
        return;
      }
      plic[s] := priority;
    }

    /** The masked word; only its being zero or not is used. */
    method PlicGetPending(s: int) returns (v: nat)
      requires Valid()
      ensures v != 0 <==> IsPending(Words(), s)
    {
      if s < 1 || 1023 < s {
        return 0;
      }
      var offset := 0x1000 / 4 + s / 32;
      v := And(plic[offset], Pow2(s % 32));
      AndPow2(plic[offset], s % 32);
    }

    method PlicGetEnabled(c: int, s: int) returns (v: nat)
      requires Valid()
      ensures v != 0 <==> IsEnabled(Words(), c, s)
    {
      if s < 1 || 1023 < s || c < 0 || 15871 < c {
        return 0;
      }
      var offset := 0x2000 / 4 + 32 * c + s / 32;
      v := And(plic[offset], Pow2(s % 32));
      AndPow2(plic[offset], s % 32);
    }

    method PlicSetEnabled(c: int, s: int, enable: bool)
      requires Valid()
      modifies plic
      ensures Words() == SetEnabled(old(Words()), c, s, enable)
    {
      if s < 1 || 1023 < s || c < 0 || 15871 < c {
        return;
      }
      var offset := 0x2000 / 4 + 32 * c + s / 32;
      plic[offset] := Masked(plic[offset], s % 32, enable);
    }

    method PlicGetThreshold(c: int) returns (v: Word32)
      requires Valid()
      ensures v == GetThreshold(Words(), c)
    {
      if c < 0 || 15871 < c {
        return 0;
      }
      v := plic[0x20_0000 / 4 + 0x400 * c];
    }

    method PlicSetThreshold(c: int, threshold: Word32)
      requires Valid()
      modifies plic
      ensures Words() == SetThreshold(old(Words()), c, threshold)
    {
      if c < 0 || 15871 < c {
        return;
      }
      plic[0x20_0000 / 4 + 0x400 * c] := threshold;
    }

    method PlicComplete(c: int, id: Word32)
      requires Valid()
      modifies plic
      ensures Words() == SetClaim(old(Words()), c, id)
    {
      if c < 0 || 15871 < c {
        return;
      }
      plic[0x20_0004 / 4 + 0x400 * c] := id;
    }
  }
}
