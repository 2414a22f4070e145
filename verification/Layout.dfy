/** Address arithmetic of the physical memory map: the macros of memory.h and the
constants of dtb.h, as operations on 64-bit words with wrap-around. */
module Layout {
  import opened Bits

  const PAGE_SIZE := 4096
  const VAS_KERNEL := 0xffff_ffc0_0000_0000
  const VAS_CPU_STRUCT := 0xffff_ffc0_4000_0000
  const VAS_RAM := 0xffff_ffe0_0000_0000
  const DTB_MEMORY := 0x8000_0000
  const DTB_MEMORY_SIZE := 0x1000_0000
  const DTB_MEMORY_END := DTB_MEMORY + DTB_MEMORY_SIZE

  const PTE_V := 1
  const PTE_R := 2
  const PTE_W := 4
  const PTE_X := 8
  const PTE_U := 16
  const PTE_G := 32
  const PTE_A := 64
  const PTE_D := 128

  function KPA2PA(kpa: Word): Word {
    Wrap(And(kpa, WORD - 1 - VAS_RAM) + DTB_MEMORY)
  }

  function PA2KPA(pa: Word): (r: nat) {
    Or(Wrap(pa - DTB_MEMORY), VAS_RAM)
  }

  function KVA2PA(kva: Word): Word {
    Wrap(kva - VAS_KERNEL + DTB_MEMORY)
  }

  function KVA2KPA(kva: Word): Word {
    Wrap(kva - VAS_KERNEL + VAS_RAM)
  }

  /** `& ~(PAGE_SIZE - 1)` drops the twelve low bits; the sum before it may wrap. */
  function PGROUNDUP(a: Word): Word {
    var s := Wrap(a + PAGE_SIZE - 1);
    s - s % PAGE_SIZE
  }

  function PA2PTE(pa: Word): Word {
    (pa / 4096) * 1024
  }

  function PTE2PA(pte: Word): Word {
    Wrap((pte / 1024) * 4096)
  }

  /** The two address views of RAM are inverse to each other on the linear window. */
  lemma LinearMapRoundTrip(pa: Word)
    requires DTB_MEMORY <= pa < DTB_MEMORY + 0x20_0000_0000
    ensures PA2KPA(pa) == pa - DTB_MEMORY + VAS_RAM < WORD
    ensures KPA2PA(PA2KPA(pa)) == pa
  {
    LinearWindow(pa - DTB_MEMORY);
  }

  lemma LinearWindow(off: nat)
    requires off < 0x20_0000_0000
    ensures Or(off, VAS_RAM) == off + VAS_RAM
    ensures And(off + VAS_RAM, 0x1f_ffff_ffff) == off
  {
    Pow2Values();
    OrDisjoint(0x7ff_ffff, off, 37);
    AndMask(off + VAS_RAM, 37);
    ModUnique(off + VAS_RAM, 0x20_0000_0000, 0x7ff_ffff, off);
  }

  /** A leaf entry as map_page packs it: page number from bit 10 up, flags with V set below.
  Flags from bit 10 up go into the page number. */
  function LeafEntry(pa: Word, flags: Word): (e: Word)
    ensures e % 2 == 1
  {
    EntryBound(pa / 4096, flags / 1024);
    PackBounds(Or(pa / 4096, flags / 1024), flags % 1024);
    Or(pa / 4096, flags / 1024) * 1024 + Odd(flags % 1024)
  }

  /** Bit 0 set. */
  function Odd(f: nat): nat {
    f - f % 2 + 1
  }

  /** Page-number bits above bit 52 of a 64-bit address do not exist. */
  const PAGES := 0x10_0000_0000_0000 // 2^52

  lemma EntryBound(q: nat, h: nat)
    requires q < PAGES && h < 4 * PAGES
    ensures Or(q, h) < 4 * PAGES
  {
    PagesPower();
    OrBound(q, h, 54);
  }

  lemma PagesPower()
    ensures Pow2(52) == PAGES && Pow2(54) == 4 * PAGES
  {
    assert Pow2(10) == 1024;
    assert Pow2(20) == 0x10_0000;
    assert Pow2(30) == 0x4000_0000;
    assert Pow2(40) == 0x100_0000_0000;
    assert Pow2(50) == 0x4_0000_0000_0000;
  }

  lemma PackBounds(q: nat, f: nat)
    requires f < 1024
    ensures Odd(f) < 1024 && (q * 1024 + Odd(f)) % 2 == 1 && (q * 1024 + Odd(f)) / 1024 == q
  {
    ModUnique(q * 1024 + Odd(f), 1024, q, Odd(f));
    ModUnique(q * 1024 + Odd(f), 2, q * 512 + f / 2, 1);
  }

  /** The flags do not change the page number: what they have from bit 10 up is there anyway. */
  ghost predicate FlagsFit(pa: Word, flags: Word) {
    forall i: nat :: 10 <= i < 62 && Bit(flags, i) ==> Bit(pa, i + 2)
  }

  /** The or of map_page is that packing, for every address and every flag value. */
  lemma LeafEntryPacks(pa: Word, flags: Word)
    ensures Or(Or(PA2PTE(pa), flags), PTE_V) == LeafEntry(pa, flags)
  {
    hide Or, Pow2;
    Pow2Values();
    var q, h, f := pa / 4096, flags / 1024, flags % 1024;
    OrParts(q, h, f, 10);
    OrOdd(Or(q, h) * 512 + f / 2, f % 2);
  }

  /** Unpacking gives the page of `pa` back if and only if the flags fit. */
  lemma LeafEntryFields(pa: Word, flags: Word)
    ensures PTE2PA(LeafEntry(pa, flags)) % 4096 == 0
    ensures PTE2PA(LeafEntry(pa, flags)) == pa - pa % 4096 <==> FlagsFit(pa, flags)
  {
    hide Or, Bit, FlagsFit, Odd;
    var q, h := pa / 4096, flags / 1024;
    EntryBound(q, h);
    PackBounds(Or(q, h), flags % 1024);
    PageBack(q, Or(q, h));
    FitMeans(pa, flags);
  }

  lemma PageBack(q: nat, p: nat)
    requires q < PAGES && p < 4 * PAGES
    ensures Wrap(p * 4096) == (p % PAGES) * 4096 && Wrap(p * 4096) % 4096 == 0
  {
    var e, r := p / PAGES, p % PAGES;
    ModUnique(p * 4096, WORD, e, r * 4096);
    ModUnique(r * 4096, 4096, r, 0);
  }

  lemma FitMeans(pa: Word, flags: Word)
    ensures Or(pa / 4096, flags / 1024) % PAGES == pa / 4096 <==> FlagsFit(pa, flags)
  {
    hide Or, Bit, Pow2;
    var q, h := pa / 4096, flags / 1024;
    var p := Or(q, h) % PAGES;
    PagesPower();
    forall i: nat
      ensures Bit(p, i) <==> i < 52 && (Bit(q, i) || Bit(h, i))
      ensures (Bit(q, i) <==> Bit(pa, i + 12)) && (Bit(h, i) <==> Bit(flags, i + 10))
    {
      FieldBits(pa, flags, i);
    }
    if p == q {
      forall i: nat | 10 <= i < 62 && Bit(flags, i)
        ensures Bit(pa, i + 2)
      {
        assert Bit(h, i - 10) <==> Bit(flags, i - 10 + 10);
        assert Bit(q, i - 10) <==> Bit(pa, i - 10 + 12);
      }
    } else if FlagsFit(pa, flags) {
      forall i: nat | i < 52
        ensures Bit(p, i) <==> Bit(q, i)
      {
        assert Bit(flags, i + 10) ==> Bit(pa, i + 10 + 2);
      }
      BitExtensionality(p, q, 52);
    }
  }

  lemma FieldBits(pa: Word, flags: Word, i: nat)
    ensures var q, h := pa / 4096, flags / 1024;
            && (Bit(Or(q, h) % PAGES, i) <==> i < 52 && (Bit(q, i) || Bit(h, i)))
            && (Bit(q, i) <==> Bit(pa, i + 12)) && (Bit(h, i) <==> Bit(flags, i + 10))
  {
    hide Or, Bit, Pow2;
    Pow2Values();
    PagesPower();
    var q, h := pa / 4096, flags / 1024;
    BitMod(Or(q, h), 52, i);
    OrBit(q, h, i);
    BitShift(pa, 12, i);
    BitShift(flags, 10, i);
  }

  /** Proper flags always fit. */
  lemma SmallFlags(pa: Word, flags: Word)
    requires flags < 1024
    ensures FlagsFit(pa, flags) && LeafEntry(pa, flags) == (pa / 4096) * 1024 + Odd(flags)
  {
    hide Bit, Or, Pow2;
    Pow2Values();
    forall i: nat | 10 <= i
      ensures !Bit(flags, i)
    {
      HighBit(flags, 10, i);
    }
    ModUnique(flags, 1024, 0, flags);
    OrZero(pa / 4096);
  }
}
