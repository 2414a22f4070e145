/** The bootstrap address space (sboot.S): four gigapages. */
module BootMap {
  import opened Wrappers
  import opened Bits
  import opened Layout
  import opened Tables
  import opened Vmem
  import opened HwWalk

  const GIGA := 0x4000_0000

  // ---- bootstrap table ----

  /** PTEGEN: page number and flags (R, W, X, V, G, A, D), the ten top bits shifted out. */
  function PteGen(pa: Word): nat {
    var e := Or(PA2PTE(pa), 239);
    (e * 1024 % WORD) / 1024
  }

  lemma PteGenValue(pa: Word)
    requires pa < 0x100_0000_0000_0000
    ensures PteGen(pa) == (pa / 4096) * 1024 + 239 < RESERVED
  {
    hide Or, Pow2;
    Pow2Values();
    OrDisjoint(pa / 4096, 239, 10);
    var e := (pa / 4096) * 1024 + 239;
    ModUnique(e * 1024, WORD, 0, e * 1024);
    ModUnique(e * 1024, 1024, e, 0);
  }

  /** MAP_GIGAPAGE on the root in page b. */
  function MapGigapage(m: Memory, b: nat, addr: Word, pa: Word): Memory
    requires RamPage(b) && pa < 0x100_0000_0000_0000
  {
    PteGenValue(pa);
    Wr(m, b, (addr / GIGA) % 512, PteGen(pa))
  }

  /** init_bootstrap_pages on the zeroed page b. */
  function BootTable(m: Memory, b: nat): Memory
    requires RamPage(b)
  {
    MapGigapage(MapGigapage(MapGigapage(MapGigapage(ZeroPage(m, b),
      b, 0, 0), b, DTB_MEMORY, DTB_MEMORY), b, VAS_KERNEL, DTB_MEMORY), b, VAS_RAM, DTB_MEMORY)
  }

  /** The four gigabyte windows of the bootstrap table. */
  datatype Zone = Low | Identity | Kernel | Ram

  function ZoneVa(z: Zone): Word {
    match z case Low => 0 case Identity => DTB_MEMORY case Kernel => VAS_KERNEL case Ram => VAS_RAM
  }

  function ZonePa(z: Zone): Word {
    if z.Low? then 0 else DTB_MEMORY
  }

  function ZoneSlot(z: Zone): nat {
    match z case Low => 0 case Identity => 2 case Kernel => 256 case Ram => 384
  }

  lemma BootEntry(m: Memory, b: nat, z: Zone)
    requires RamPage(b)
    ensures Rd(BootTable(m, b), b, ZoneSlot(z)) == (ZonePa(z) / 4096) * 1024 + 239
  {
    hide PteGen, ZeroPage;
    PteGenValue(0);
    PteGenValue(DTB_MEMORY);
    assert (VAS_KERNEL / GIGA) % 512 == 256 && (VAS_RAM / GIGA) % 512 == 384;
  }

  lemma ZoneIndex(z: Zone, d: nat)
    requires d < GIGA
    ensures ZoneVa(z) + d < WORD && Canonical(ZoneVa(z) + d, false)
    ensures Index(ZoneVa(z) + d, 2, false) == ZoneSlot(z) && (ZoneVa(z) + d) % GIGA == d
  {
    var q := ZoneVa(z) / GIGA;
    ModUnique(ZoneVa(z) + d, GIGA, q, d);
  }

  /** Under the bootstrap table each window is linear, for every kind of access. */
  lemma BootLinear(m: Memory, b: nat, z: Zone, d: nat, acc: Access)
    requires RamPage(b) && d < GIGA
    ensures ZoneVa(z) + d < WORD
    ensures HwTranslate(BootTable(m, b), b, ZoneVa(z) + d, false, acc) == Some(ZonePa(z) + d)
  {
    hide Rd, BootTable, Index, R, W, X, U, A, D, Canonical, ZoneVa;
    ZoneIndex(z, d);
    BootEntry(m, b, z);
    var va: Word := ZoneVa(z) + d;
    var ppn := ZonePa(z) / 4096;
    FlagBits(ppn, 239);
    LowFlags();
    ModUnique(ppn * 1024 + 239, 1024, ppn, 239);
  }

  lemma LowFlags()
    ensures R(239) && W(239) && X(239) && !U(239)
  {
  }
}
