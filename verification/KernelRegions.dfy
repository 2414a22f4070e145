/** What init_vmem maps: the regions of the hypervisor's final table and where they lie. */
module KernelRegions {
  import opened Bits
  import opened Layout
  import opened Vmem
  import opened Translation
  import opened BootMap

  datatype Region = Region(va: Word, pa: Word, size: Word, flags: Word)

  const MMIO_FLAGS := 38 // PTE_R | PTE_W | PTE_G
  const TEXT_FLAGS := 42 // PTE_R | PTE_X | PTE_G
  const RODATA_FLAGS := 34 // PTE_R | PTE_G
  const STACK_FLAGS := 6 // PTE_R | PTE_W
  const CPU_SIZE := 0x3000 // sizeof(struct cpu): hart id, then a page-aligned two-page stack

  /** Section addresses from the linker (kernel virtual addresses). */
  datatype Image = Image(text: Word, etext: Word, rodata: Word, erodata: Word, data: Word, edata: Word,
                         cpuStructs: Word, dynamic: Word)

  predicate PageAligned(x: int) {
    x % 4096 == 0
  }

  /** The linker script: page-aligned sections in this order, in an image that fits into RAM. */
  predicate ImageOk(g: Image, nrCpus: nat) {
    && VAS_KERNEL <= g.text <= g.etext <= g.rodata <= g.erodata <= g.data <= g.edata <= g.cpuStructs
    && g.cpuStructs + nrCpus * CPU_SIZE <= g.dynamic < VAS_KERNEL + DTB_MEMORY_SIZE
    && PageAligned(g.text) && PageAligned(g.rodata) && PageAligned(g.data)
    && PageAligned(g.cpuStructs) && PageAligned(g.dynamic)
  }

  /** mycpu() before the switch: the struct of this hart in the kernel image. */
  function MyCpu(g: Image, hart: nat): int {
    g.cpuStructs + hart * CPU_SIZE
  }

  lemma HartInImage(g: Image, nrCpus: nat, hart: nat)
    requires ImageOk(g, nrCpus) && hart < nrCpus
    ensures VAS_KERNEL <= MyCpu(g, hart) && MyCpu(g, hart) + CPU_SIZE <= g.dynamic && PageAligned(MyCpu(g, hart))
    ensures KVA2PA(MyCpu(g, hart)) == MyCpu(g, hart) - VAS_KERNEL + DTB_MEMORY
  {
    ModUnique(MyCpu(g, hart), 4096, g.cpuStructs / 4096 + 3 * hart, 0);
  }

  // ---- the thirteen calls ----

  function Mmio(pa: Word, size: Word): Region {
    Region(pa, pa, size, MMIO_FLAGS)
  }

  /** The devices: flash, platform bus, clock, serial line, PCI, virtio, PLIC, CLINT. */
  function Device(i: nat): Region
    requires i < 8
  {
    match i
    case 0 => Mmio(0x2000_0000, 0x1000)
    case 1 => Mmio(0x400_0000, 0x1000)
    case 2 => Mmio(0x10_1000, 0x1000)
    case 3 => Mmio(0x1000_0000, 0x1000)
    case 4 => Mmio(0x3000_0000, 0x1000_0000)
    case 5 => Mmio(0x1000_1000, 0x1000)
    case 6 => Mmio(0xc00_0000, 0x60_0000)
    case 7 => Mmio(0x200_0000, 0x1_0000)
  }

  function Section(start: Word, end: Word, flags: Word): Region
    requires start <= end
  {
    Region(start, KVA2PA(start), end - start, flags)
  }

  function Window(g: Image, nrCpus: nat, hart: nat): Region
    requires ImageOk(g, nrCpus) && hart < nrCpus
  {
    HartInImage(g, nrCpus, hart);
    Region(VAS_CPU_STRUCT, KVA2PA(MyCpu(g, hart)), CPU_SIZE, STACK_FLAGS)
  }

  function RamRegion(g: Image, nrCpus: nat): Region
    requires ImageOk(g, nrCpus)
  {
    Region(KVA2KPA(g.dynamic), KVA2PA(g.dynamic), DTB_MEMORY_SIZE - (KVA2PA(g.dynamic) - DTB_MEMORY), MMIO_FLAGS)
  }

  const WINDOW := 11

  /** Call i of init_vmem. */
  function RegionAt(g: Image, nrCpus: nat, hart: nat, i: nat): Region
    requires ImageOk(g, nrCpus) && hart < nrCpus && i < 13
  {
    if i < 8 then Device(i)
    else if i == 8 then Section(g.text, g.etext, TEXT_FLAGS)
    else if i == 9 then Section(g.rodata, g.erodata, RODATA_FLAGS)
    else if i == 10 then Section(g.data, g.edata, MMIO_FLAGS)
    else if i == WINDOW then Window(g, nrCpus, hart)
    else RamRegion(g, nrCpus)
  }

  function AllRegions(g: Image, nrCpus: nat, hart: nat): (rs: seq<Region>)
    requires ImageOk(g, nrCpus) && hart < nrCpus
    ensures |rs| == 13 && forall i :: 0 <= i < 13 ==> rs[i] == RegionAt(g, nrCpus, hart, i)
  {
    seq(13, i requires 0 <= i < 13 => RegionAt(g, nrCpus, hart, i))
  }

  // ---- where they lie ----

  /** Address behind the last page of a region. */
  function End(r: Region): int {
    r.va + PageCount(r.size) * 4096
  }

  /** A region that lies in a bootstrap window with the window's own offset. */
  predicate InZone(r: Region, z: Zone) {
    && PageAligned(r.va) && PageAligned(r.pa) && r.pa != 0 && r.flags < 1024
    && ZoneVa(z) <= r.va && End(r) <= ZoneVa(z) + GIGA
    && r.pa == ZonePa(z) + (r.va - ZoneVa(z))
  }

  function ZoneOf(i: nat): Zone {
    if i < 8 then Low else if i < WINDOW then Kernel else Ram
  }

  lemma CountPages(size: Word, x: nat)
    requires size <= x <= 0x1_0000_0000 && x % 4096 == 0
    ensures PageCount(size) * 4096 <= x
  {
    if size > 0 {
      SizePages(size);
      AlignedBelow(PageCount(size), x / 4096);
    } else {
      NoPages(size);
    }
  }

  lemma AlignedBelow(q: nat, y: nat)
    ensures q * 4096 < y * 4096 + 4096 ==> q <= y
  {
  }

  lemma ImagePa(dynamic: Word, kva: Word)
    requires VAS_KERNEL <= kva <= dynamic < VAS_KERNEL + DTB_MEMORY_SIZE
    requires PageAligned(kva) && PageAligned(dynamic)
    ensures PageAligned(KVA2PA(kva)) && PageAligned(KVA2KPA(kva)) && (dynamic - kva) % 4096 == 0
    ensures KVA2PA(kva) == kva - VAS_KERNEL + DTB_MEMORY && KVA2KPA(kva) == kva - VAS_KERNEL + VAS_RAM
  {
    ModUnique(KVA2PA(kva), 4096, kva / 4096 - VAS_KERNEL / 4096 + DTB_MEMORY / 4096, 0);
    ModUnique(KVA2KPA(kva), 4096, kva / 4096 - VAS_KERNEL / 4096 + VAS_RAM / 4096, 0);
    ModUnique(dynamic - kva, 4096, dynamic / 4096 - kva / 4096, 0);
  }

  lemma DeviceInZone(i: nat)
    requires i < 8
    ensures InZone(Device(i), Low) && End(Device(i)) <= Device(i).va + Device(i).size
  {
    hide PageCount;
    CountPages(Device(i).size, Device(i).size);
  }

  /** A section ends, with its last page, before whatever aligned address follows it. */
  lemma SectionInZone(start: Word, end: Word, flags: Word, next: Word)
    requires VAS_KERNEL <= start <= end <= next < VAS_KERNEL + DTB_MEMORY_SIZE && flags < 1024
    requires PageAligned(start) && PageAligned(next)
    ensures InZone(Section(start, end, flags), Kernel) && End(Section(start, end, flags)) <= next
  {
    hide PageCount, KVA2PA;
    ImagePa(next, start);
    CountPages(end - start, next - start);
  }

  lemma RamInZone(g: Image, nrCpus: nat)
    requires ImageOk(g, nrCpus)
    ensures InZone(RamRegion(g, nrCpus), Ram)
    ensures VAS_RAM <= RamRegion(g, nrCpus).va && End(RamRegion(g, nrCpus)) <= VAS_RAM + DTB_MEMORY_SIZE
  {
    hide PageCount, KVA2PA, KVA2KPA;
    ImagePa(g.dynamic, g.dynamic);
    var r := RamRegion(g, nrCpus);
    ModUnique(r.size, 4096, DTB_MEMORY_SIZE / 4096 - (g.dynamic / 4096 - VAS_KERNEL / 4096), 0);
    CountPages(r.size, r.size);
  }

  /** Every region but the cpu struct lies in a bootstrap window at that window's offset. */
  lemma LinearRegionsInZones(g: Image, nrCpus: nat, hart: nat, i: nat)
    requires ImageOk(g, nrCpus) && hart < nrCpus && i < 13 && i != WINDOW
    ensures InZone(RegionAt(g, nrCpus, hart, i), ZoneOf(i))
  {
    hide InZone, Device, KVA2PA, KVA2KPA, RamRegion, Section;
    if i < 8 {
      DeviceInZone(i);
    } else if i == 8 {
      SectionInZone(g.text, g.etext, TEXT_FLAGS, g.rodata);
    } else if i == 9 {
      SectionInZone(g.rodata, g.erodata, RODATA_FLAGS, g.data);
    } else if i == 10 {
      SectionInZone(g.data, g.edata, MMIO_FLAGS, g.cpuStructs);
    } else {
      RamInZone(g, nrCpus);
    }
  }

  // ---- no two of them meet ----

  /** Address ranges that the regions keep to. */
  function Lo(g: Image, i: nat): int
    requires i < 13
  {
    if i < 8 then Device(i).va else if i == 8 then g.text else if i == 9 then g.rodata else if i == 10 then g.data
    else if i == WINDOW then VAS_CPU_STRUCT else VAS_RAM
  }

  function Hi(g: Image, i: nat): int
    requires i < 13
  {
    if i < 8 then Device(i).va + Device(i).size
    else if i == 8 then g.rodata else if i == 9 then g.data else if i == 10 then g.cpuStructs
    else if i == WINDOW then VAS_CPU_STRUCT + CPU_SIZE else VAS_RAM + DTB_MEMORY_SIZE
  }

  lemma RegionBounds(g: Image, nrCpus: nat, hart: nat, i: nat)
    requires ImageOk(g, nrCpus) && hart < nrCpus && i < 13
    ensures var r := RegionAt(g, nrCpus, hart, i);
            Lo(g, i) <= r.va && End(r) <= Hi(g, i) && PageAligned(r.va) && r.pa != 0 && r.flags < 1024
  {
    hide Device, KVA2PA, KVA2KPA, PageCount;
    if i < 8 {
      DeviceInZone(i);
    } else if i == 8 {
      SectionInZone(g.text, g.etext, TEXT_FLAGS, g.rodata);
    } else if i == 9 {
      SectionInZone(g.rodata, g.erodata, RODATA_FLAGS, g.data);
    } else if i == 10 {
      SectionInZone(g.data, g.edata, MMIO_FLAGS, g.cpuStructs);
    } else if i == WINDOW {
      HartInImage(g, nrCpus, hart);
      CountPages(CPU_SIZE, CPU_SIZE);
    } else {
      RamInZone(g, nrCpus);
    }
  }

  lemma DevicesApart(i: nat, j: nat)
    requires i < 8 && j < 8 && i != j
    ensures Device(i).va + Device(i).size <= Device(j).va || Device(j).va + Device(j).size <= Device(i).va
  {
  }

  lemma DeviceLow(i: nat)
    requires i < 8
    ensures Device(i).va + Device(i).size <= GIGA
  {
  }

  lemma BoundsApart(g: Image, nrCpus: nat, i: nat, j: nat)
    requires ImageOk(g, nrCpus) && i < 13 && j < 13 && i != j
    ensures Hi(g, i) <= Lo(g, j) || Hi(g, j) <= Lo(g, i)
  {
    hide Device;
    if i < 8 {
      DeviceLow(i);
    }
    if j < 8 {
      DeviceLow(j);
    }
    if i < 8 && j < 8 {
      DevicesApart(i, j);
    }
  }

  /** All bounds are canonical addresses. */
  lemma BoundsCanonical(g: Image, nrCpus: nat, i: nat)
    requires ImageOk(g, nrCpus) && i < 13
    ensures 0 <= Lo(g, i) && Hi(g, i) < WORD && (Hi(g, i) <= GIGA || Lo(g, i) >= VAS_KERNEL)
  {
    hide Device;
    if i < 8 {
      DeviceLow(i);
    }
  }
}
