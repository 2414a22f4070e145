/** What the hypervisor's final table means: access rights of its regions, and the switch from
the bootstrap table (init_hart in cpu.c). */
module Switch {
  import opened Wrappers
  import opened Bits
  import opened Layout
  import opened Tables
  import opened Kmem
  import opened Vmem
  import opened Translation
  import opened Regions
  import opened HwWalk
  import opened BootMap
  import opened KernelRegions
  import opened KernelMap

  /** The root holds the table that init_vmem builds for this hart. */
  ghost predicate FinalTable(m: Memory, o: Own, root: nat, g: Image, nrCpus: nat, hart: nat) {
    && Shape(o) && Tree(m, o.tables) && root in o.tables && o.tables[root] == Root(false)
    && ImageOk(g, nrCpus) && hart < nrCpus
    && TableOf(MappingOf(m, o.tables), root, AllRegions(g, nrCpus, hart), 13)
  }

  // ---- bytes of a region ----

  /** What flag bits allow a supervisor. */
  predicate Grants(flags: Word, acc: Access) {
    match acc { case Load => R(flags) case Store => W(flags) case Fetch => X(flags) }
  }

  /** The flag combinations that init_vmem uses. */
  predicate RegionFlags(flags: Word) {
    flags == MMIO_FLAGS || flags == TEXT_FLAGS || flags == RODATA_FLAGS || flags == STACK_FLAGS
  }

  lemma LeafGrants(pa: Word, flags: Word, acc: Access)
    requires pa < 0x100_0000_0000_0000 && RegionFlags(flags)
    ensures Permits(LeafEntry(pa, flags), acc, false) <==> Grants(flags, acc)
  {
    hide R, W, X, U, A, D, LeafEntry;
    SmallFlags(pa, flags);
    FlagBits(pa / 4096, Odd(flags));
    OddFlags(flags);
  }

  lemma OddFlags(flags: Word)
    requires RegionFlags(flags)
    ensures var f := Odd(flags);
            && (R(f) <==> R(flags)) && (W(f) <==> W(flags)) && (X(f) <==> X(flags)) && !U(f) && R(f) && f % 2 == 1
  {
  }

  /** Every byte of every region: the hart reaches the linear physical byte for exactly the kinds
  of access that the region's flags name, and faults on the others. */
  lemma RegionByte(m: Memory, o: Own, root: nat, g: Image, nrCpus: nat, hart: nat, i: nat, d: nat, acc: Access)
    requires FinalTable(m, o, root, g, nrCpus, hart) && i < 13
    requires d < PageCount(RegionAt(g, nrCpus, hart, i).size) * 4096
    ensures var r := RegionAt(g, nrCpus, hart, i);
            && r.va + d < WORD
            && HwTranslate(m, root, r.va + d, false, acc) == if Grants(r.flags, acc) then Some(r.pa + d) else None
  {
    hide Shape, Tree, MappingOf, Translate, KeyOf, Index, RangeKeys, RangeMapped, HwTranslate, LeafEntry, Permits, Wrap,
         RegionAt, PageCount, ImageOk, Grants, Canonical;
    var r := RegionAt(g, nrCpus, hart, i);
    var j, f := d / 4096, d % 4096;
    var targets := LinearTargets(r.pa, PageCount(r.size));
    assert RegionMapped(MappingOf(m, o.tables), root, AllRegions(g, nrCpus, hart)[i]);
    RegionPage(g, nrCpus, hart, i, j);
    RegionBounds(g, nrCpus, hart, i);
    RegionTarget(g, nrCpus, hart, i, j);
    InPage(r.va + j * 4096, f);
    MappedTranslates(m, o.tables, root, r.va, r.flags, false, targets, d);
    PlainSum(r.va + d);
    HardwareAgrees(m, o, root, r.va + d, false, acc);
    LeafGrants(targets[j], r.flags, acc);
  }

  lemma InPage(a: Word, f: nat)
    requires Canonical(a, false) && a % 4096 == 0 && f < 4096
    ensures a + f < WORD && Canonical(a + f, false)
  {
  }

  /** Physical side of page j of region i. */
  lemma RegionTarget(g: Image, nrCpus: nat, hart: nat, i: nat, j: nat)
    requires ImageOk(g, nrCpus) && hart < nrCpus && i < 13 && j < PageCount(RegionAt(g, nrCpus, hart, i).size)
    ensures var r := RegionAt(g, nrCpus, hart, i);
            && RegionFlags(r.flags) && r.pa + j * 4096 < 0x2_0000_0000 && Wrap(r.pa + j * 4096) == r.pa + j * 4096
            && (r.pa + j * 4096) % 4096 == 0
  {
    hide PageCount, KVA2PA, KVA2KPA, Device;
    var r := RegionAt(g, nrCpus, hart, i);
    RegionPage(g, nrCpus, hart, i, j);
    if i == WINDOW {
      HartInImage(g, nrCpus, hart);
      AlignedPa(MyCpu(g, hart));
      CountPages(CPU_SIZE, CPU_SIZE);
    } else {
      LinearRegionsInZones(g, nrCpus, hart, i);
      DeviceFlagsAre(i);
    }
    AlignedSum(r.pa, j);
  }

  lemma DeviceFlagsAre(i: nat)
    ensures i < 8 ==> Device(i).flags == MMIO_FLAGS
  {
  }

  lemma AlignedPa(x: Word)
    requires VAS_KERNEL <= x < VAS_KERNEL + DTB_MEMORY_SIZE && PageAligned(x)
    ensures PageAligned(KVA2PA(x)) && KVA2PA(x) == x - VAS_KERNEL + DTB_MEMORY
  {
    ImagePa(x, x);
  }

  /** Every byte of the kernel's sections keeps the access its section needs, and no more: text is
  fetched and read but not written, read-only data only read, data read and written but not
  fetched. */
  lemma SectionAccess(m: Memory, o: Own, root: nat, g: Image, nrCpus: nat, hart: nat, x: Word, acc: Access)
    requires FinalTable(m, o, root, g, nrCpus, hart)
    ensures g.text <= x < g.etext ==>
            HwTranslate(m, root, x, false, acc) == if acc.Store? then None else Some(KVA2PA(x))
    ensures g.rodata <= x < g.erodata ==>
            HwTranslate(m, root, x, false, acc) == if acc.Load? then Some(KVA2PA(x)) else None
    ensures g.data <= x < g.edata ==>
            HwTranslate(m, root, x, false, acc) == if acc.Fetch? then None else Some(KVA2PA(x))
  {
    hide FinalTable, HwTranslate, KVA2PA;
    ImageOf(m, o, root, g, nrCpus, hart);
    if g.text <= x < g.etext {
      SectionByte(m, o, root, g, nrCpus, hart, 8, g.text, g.etext, x, acc);
    } else if g.rodata <= x < g.erodata {
      SectionByte(m, o, root, g, nrCpus, hart, 9, g.rodata, g.erodata, x, acc);
    } else if g.data <= x < g.edata {
      SectionByte(m, o, root, g, nrCpus, hart, 10, g.data, g.edata, x, acc);
    }
  }

  lemma ImageOf(m: Memory, o: Own, root: nat, g: Image, nrCpus: nat, hart: nat)
    requires FinalTable(m, o, root, g, nrCpus, hart)
    ensures ImageOk(g, nrCpus) && hart < nrCpus
  {
  }

  lemma SectionByte(m: Memory, o: Own, root: nat, g: Image, nrCpus: nat, hart: nat, i: nat, start: Word, end: Word,
                    x: Word, acc: Access)
    requires FinalTable(m, o, root, g, nrCpus, hart) && ImageOk(g, nrCpus) && hart < nrCpus && 8 <= i < 11
    requires VAS_KERNEL <= start <= x < end < VAS_KERNEL + DTB_MEMORY_SIZE
    requires RegionAt(g, nrCpus, hart, i) == Section(start, end, RegionAt(g, nrCpus, hart, i).flags)
    ensures HwTranslate(m, root, x, false, acc) ==
            if Grants(RegionAt(g, nrCpus, hart, i).flags, acc) then Some(KVA2PA(x)) else None
  {
    hide FinalTable, HwTranslate, RegionAt, ImageOk, Grants, PageCount;
    SizePages(end - start);
    RegionByte(m, o, root, g, nrCpus, hart, i, x - start, acc);
  }

  /** The memory that the allocator manages: through its kernel pointer, every byte of every page
  behind the image can be read and written, and none fetched. */
  lemma AllocatorPages(m: Memory, o: Own, root: nat, g: Image, nrCpus: nat, hart: nat, p: nat, f: nat, acc: Access)
    requires FinalTable(m, o, root, g, nrCpus, hart) && FirstFree(g.dynamic) <= p < END_PAGE && f < 4096 && RamPage(p)
    ensures HwTranslate(m, root, PagePtr(p) + f, false, acc) == if acc.Fetch? then None else Some(p * 4096 + f)
  {
    hide FinalTable, HwTranslate, PageCount;
    ImageOf(m, o, root, g, nrCpus, hart);
    RamExtent(g, nrCpus, hart);
    var r := RegionAt(g, nrCpus, hart, 12);
    RegionByte(m, o, root, g, nrCpus, hart, 12, (p - FirstFree(g.dynamic)) * 4096 + f, acc);
  }

  /** The last region is all RAM behind the image. */
  lemma RamExtent(g: Image, nrCpus: nat, hart: nat)
    requires ImageOk(g, nrCpus) && hart < nrCpus
    ensures var r, n := RegionAt(g, nrCpus, hart, 12), FirstFree(g.dynamic);
            && FIRST_PAGE <= n < END_PAGE && r.va == VAS_RAM + (n - FIRST_PAGE) * 4096 && r.pa == n * 4096
            && PageCount(r.size) == END_PAGE - n && r.flags == MMIO_FLAGS
  {
    hide PageCount;
    var r := RegionAt(g, nrCpus, hart, 12);
    var q := (g.dynamic - VAS_KERNEL) / 4096;
    ImagePa(g.dynamic, g.dynamic);
    ModUnique(g.dynamic - VAS_KERNEL, 4096, g.dynamic / 4096 - VAS_KERNEL / 4096, 0);
    assert FirstFree(g.dynamic) == FIRST_PAGE + q;
    SizePages(r.size);
  }

  /** The device windows below the first gigabyte. */
  predicate InDevice(a: int) {
    || 0x10_1000 <= a < 0x10_2000 // clock
    || 0x200_0000 <= a < 0x201_0000 // CLINT
    || 0x400_0000 <= a < 0x400_1000 // platform bus
    || 0xc00_0000 <= a < 0xc60_0000 // PLIC
    || 0x1000_0000 <= a < 0x1000_2000 // serial line, virtio
    || 0x2000_0000 <= a < 0x2000_1000 // flash
    || 0x3000_0000 <= a < 0x4000_0000 // PCI
  }

  /** Below the first gigabyte exactly the device windows are mapped, one to one, for loads and
  stores. */
  lemma KernelDevices(m: Memory, o: Own, root: nat, g: Image, nrCpus: nat, hart: nat, a: Word, acc: Access)
    requires FinalTable(m, o, root, g, nrCpus, hart) && a < 0x4000_0000
    ensures HwTranslate(m, root, a, false, acc) == if InDevice(a) && !acc.Fetch? then Some(a) else None
  {
    hide FinalTable, HwTranslate, PageCount, Device, RegionAt;
    ImageOf(m, o, root, g, nrCpus, hart);
    if HwTranslate(m, root, a, false, acc).Some? {
      var i, d := InSomeRegion(m, o, root, g, nrCpus, hart, a, acc);
      LowRegion(g, nrCpus, hart, i, a);
      DeviceByte(g, nrCpus, hart, i);
      RegionByte(m, o, root, g, nrCpus, hart, i, d, acc);
      DeviceWithin(i, a);
    } else if InDevice(a) && !acc.Fetch? {
      var i := WhichDevice(a);
      DeviceByte(g, nrCpus, hart, i);
      RegionByte(m, o, root, g, nrCpus, hart, i, a - Device(i).va, acc);
    }
  }

  lemma LowRegion(g: Image, nrCpus: nat, hart: nat, i: nat, a: int)
    requires ImageOk(g, nrCpus) && hart < nrCpus && i < 13 && a < 0x4000_0000 && a >= RegionAt(g, nrCpus, hart, i).va
    ensures i < 8
  {
    hide RegionAt, Device;
    RegionBounds(g, nrCpus, hart, i);
  }

  lemma DeviceByte(g: Image, nrCpus: nat, hart: nat, i: nat)
    requires ImageOk(g, nrCpus) && hart < nrCpus && i < 8
    ensures var r := RegionAt(g, nrCpus, hart, i);
            && r == Device(i) && r.pa == r.va && r.flags == MMIO_FLAGS && PageCount(r.size) * 4096 == r.size
  {
    hide PageCount;
    SizePages(Device(i).size);
  }

  lemma DeviceWithin(i: nat, a: int)
    requires i < 8 && Device(i).va <= a < Device(i).va + Device(i).size
    ensures InDevice(a)
  {
  }

  lemma WhichDevice(a: int) returns (i: nat)
    requires InDevice(a)
    ensures i < 8 && Device(i).va <= a < Device(i).va + Device(i).size
  {
    i := if a < 0x10_2000 then 2 else if a < 0x201_0000 then 7 else if a < 0x400_1000 then 1
         else if a < 0xc60_0000 then 6 else if a < 0x1000_1000 then 3 else if a < 0x1000_2000 then 5
         else if a < 0x2000_1000 then 0 else 4;
  }

  // ---- the switch ----

  /** Whatever the final table translates lies in one of the regions. */
  lemma InSomeRegion(m: Memory, o: Own, root: nat, g: Image, nrCpus: nat, hart: nat, va: Word, acc: Access)
    returns (i: nat, d: nat)
    requires FinalTable(m, o, root, g, nrCpus, hart) && HwTranslate(m, root, va, false, acc).Some?
    ensures i < 13 && va == RegionAt(g, nrCpus, hart, i).va + d
    ensures d < PageCount(RegionAt(g, nrCpus, hart, i).size) * 4096
  {
    hide Shape, Tree, MappingOf, Translate, KeyOf, Index, RangeKeys, RegionAt, ImageOk, Permits, PageCount, Descend,
         RegionMapped, Wrap;
    var key, M := KeyOf(root, va, false), MappingOf(m, o.tables);
    HardwareAgrees(m, o, root, va, false, acc);
    KeyRootOf(root, va, false);
    var n :| 0 <= n < 13 && InRegion(key, root, AllRegions(g, nrCpus, hart)[n]);
    var r := RegionAt(g, nrCpus, hart, n);
    var ks := RangeKeys(root, r.va, false, PageCount(r.size));
    var j :| 0 <= j < |ks| && ks[j] == key;
    RangeKeysAt(root, r.va, false, |ks|, j);
    RegionPage(g, nrCpus, hart, n, j);
    SamePage(root, va, r.va + j * 4096);
    i, d := n, j * 4096 + va % 4096;
  }

  /** Loading satp with the final table changes the meaning of no address that it still
  maps, except inside the cpu-struct window. */
  lemma SwitchKeepsMeaning(m: Memory, o: Own, root: nat, g: Image, nrCpus: nat, hart: nat, mb: Memory, b: nat,
                           va: Word, acc: Access, acc': Access)
    requires FinalTable(m, o, root, g, nrCpus, hart) && RamPage(b)
    requires HwTranslate(m, root, va, false, acc).Some?
    requires !(VAS_CPU_STRUCT <= va < VAS_CPU_STRUCT + CPU_SIZE)
    ensures HwTranslate(BootTable(mb, b), b, va, false, acc') == HwTranslate(m, root, va, false, acc)
  {
    hide FinalTable, HwTranslate, BootTable, RegionAt, PageCount, ZoneVa, ZonePa, ImageOk, Grants;
    ImageOf(m, o, root, g, nrCpus, hart);
    var i, d := InSomeRegion(m, o, root, g, nrCpus, hart, va, acc);
    var r := RegionAt(g, nrCpus, hart, i);
    RegionByte(m, o, root, g, nrCpus, hart, i, d, acc);
    RegionBounds(g, nrCpus, hart, i);
    if i != WINDOW {
      LinearRegionsInZones(g, nrCpus, hart, i);
      BootLinear(mb, b, ZoneOf(i), r.va - ZoneVa(ZoneOf(i)) + d, acc');
    }
  }

  /** No address is both writable and executable. */
  lemma NoWriteExecute(m: Memory, o: Own, root: nat, g: Image, nrCpus: nat, hart: nat, va: Word)
    requires FinalTable(m, o, root, g, nrCpus, hart)
    ensures HwTranslate(m, root, va, false, Store).None? || HwTranslate(m, root, va, false, Fetch).None?
  {
    hide FinalTable, HwTranslate, RegionAt, PageCount, ImageOk;
    ImageOf(m, o, root, g, nrCpus, hart);
    if HwTranslate(m, root, va, false, Store).Some? {
      var i, d := InSomeRegion(m, o, root, g, nrCpus, hart, va, Store);
      RegionByte(m, o, root, g, nrCpus, hart, i, d, Store);
      RegionByte(m, o, root, g, nrCpus, hart, i, d, Fetch);
      RegionTarget(g, nrCpus, hart, i, d / 4096);
    }
  }

  /** The argument of relocate_stack, computed with wrap-around. */
  function RelocationOffset(g: Image, hart: nat): Word {
    Wrap(Wrap(VAS_CPU_STRUCT - hart * CPU_SIZE) - g.cpuStructs)
  }

  lemma Relocated(g: Image, nrCpus: nat, hart: nat, x: Word)
    requires ImageOk(g, nrCpus) && hart < nrCpus && MyCpu(g, hart) <= x < MyCpu(g, hart) + CPU_SIZE
    ensures Wrap(x + RelocationOffset(g, hart)) == VAS_CPU_STRUCT + (x - MyCpu(g, hart))
  {
    HartInImage(g, nrCpus, hart);
    var y := VAS_CPU_STRUCT - hart * CPU_SIZE;
    assert VAS_KERNEL - DTB_MEMORY_SIZE <= y < WORD;
    assert Wrap(y) == y;
    var off := RelocationOffset(g, hart);
    assert off == y - g.cpuStructs || off == y - g.cpuStructs + WORD by {
      if y - g.cpuStructs < 0 {
        ModUnique(y - g.cpuStructs, WORD, -1, y - g.cpuStructs + WORD);
      }
    }
    var t := VAS_CPU_STRUCT + (x - MyCpu(g, hart));
    ModUnique(t + WORD, WORD, 1, t);
  }

  /** Adding the relocation offset to an address in the hart's own cpu struct gives an
  address in the window that reaches the same physical byte under the final table as the
  original did under the bootstrap table, for loads and for stores. */
  lemma RelocationKeepsBytes(m: Memory, o: Own, root: nat, g: Image, nrCpus: nat, hart: nat, mb: Memory, b: nat,
                             x: Word, acc: Access)
    requires FinalTable(m, o, root, g, nrCpus, hart) && RamPage(b) && !acc.Fetch?
    requires MyCpu(g, hart) <= x < MyCpu(g, hart) + CPU_SIZE
    ensures var x' := Wrap(x + RelocationOffset(g, hart));
            && VAS_CPU_STRUCT <= x' < VAS_CPU_STRUCT + CPU_SIZE
            && HwTranslate(m, root, x', false, acc) == HwTranslate(BootTable(mb, b), b, x, false, acc) ==
               Some(KVA2PA(x))
  {
    hide FinalTable, BootTable, HwTranslate, RelocationOffset, Wrap, KVA2PA, ImageOk;
    ImageOf(m, o, root, g, nrCpus, hart);
    Relocated(g, nrCpus, hart, x);
    CpuByte(g, nrCpus, hart, x);
    BootLinear(mb, b, Kernel, x - VAS_KERNEL, acc);
    WindowPages();
    RegionByte(m, o, root, g, nrCpus, hart, WINDOW, x - MyCpu(g, hart), acc);
  }

  lemma WindowPages()
    ensures PageCount(CPU_SIZE) == 3
  {
  }

  lemma CpuByte(g: Image, nrCpus: nat, hart: nat, x: Word)
    requires ImageOk(g, nrCpus) && hart < nrCpus && MyCpu(g, hart) <= x < MyCpu(g, hart) + CPU_SIZE
    ensures VAS_KERNEL <= x < VAS_KERNEL + DTB_MEMORY_SIZE && KVA2PA(x) == x - VAS_KERNEL + DTB_MEMORY
    ensures KVA2PA(x) == KVA2PA(MyCpu(g, hart)) + (x - MyCpu(g, hart))
  {
    HartInImage(g, nrCpus, hart);
  }
}
