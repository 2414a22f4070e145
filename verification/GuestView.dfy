/** What a guest sees of its memory: the hart's own two-stage walk over the finished guest table,
byte by byte, in terms of the configuration alone. */
module GuestView {
  import opened Wrappers
  import opened Bits
  import opened Layout
  import opened Config
  import opened Tables
  import opened Kmem
  import opened Vmem
  import opened Translation
  import opened Regions
  import opened HwWalk
  import opened GuestPlan
  import opened GuestMap

  /** A guest table as init_hs_pgtable leaves it. */
  ghost predicate GuestTable(m: Memory, o: Own, c: VmConfig, ram: seq<nat>) {
    && Shape(o) && Tree(m, o.tables) && c.table in o.tables && o.tables[c.table] == Root(true)
    && GuestMapped(MappingOf(m, o.tables), c, ram) && FromPlan(MappingOf(m, o.tables), c, |Plan(c)|)
  }

  /** The next multiple of the page size. */
  function Rounded(n: nat): (r: nat)
    ensures n <= r < n + 4096 && r % 4096 == 0
  {
    ModUnique((n + 4095) / 4096 * 4096, 4096, (n + 4095) / 4096, 0);
    (n + 4095) / 4096 * 4096
  }

  function ImageLength(c: VmConfig): int {
    c.imageEnd - c.imageBase
  }

  /** A configuration as the linker makes it: aligned, an image that fits into the guest's memory,
  and guest-physical addresses that Sv39x4 has. */
  predicate GuestOk(c: VmConfig) {
    && c.memoryBase % 4096 == 0 && c.imageBase % 4096 == 0 && 0 < c.imageBase <= c.imageEnd < 0x200_0000_0000
    && Rounded(ImageLength(c)) <= c.memorySize && c.memoryBase + c.memorySize <= 0x200_0000_0000
  }

  lemma ImageSizeIs(c: VmConfig)
    requires GuestOk(c)
    ensures ImageSize(c) == Rounded(ImageLength(c)) && PageCount(ImageSize(c)) * 4096 == ImageSize(c)
  {
    hide PageCount;
    SizeIs(ImageLength(c));
    SizeIs(ImageSize(c));
    PlainSum(ImageLength(c));
  }

  /** Rounding up, and the number of pages, where nothing wraps. */
  lemma SizeIs(n: Word)
    requires n <= 0x200_0000_0000
    ensures PGROUNDUP(n) == Rounded(n) == PageCount(n) * 4096
    ensures n % 4096 == 0 ==> Rounded(n) == n
  {
    hide PGROUNDUP;
    RoundedUp(n);
    if n > 0 {
      SizePages(n);
      SameMultiple(PageCount(n), (n + 4095) / 4096, n);
    } else {
      NoPages(n);
    }
    if n % 4096 == 0 {
      SameMultiple(n / 4096, (n + 4095) / 4096, n);
    }
  }

  lemma SameMultiple(p: nat, q: nat, n: nat)
    requires n <= p * 4096 < n + 4096 && n <= q * 4096 < n + 4096
    ensures p == q
  {
  }

  /** Every access is allowed on image and RAM. */
  lemma RamPermits(pa: Word, acc: Access)
    requires pa < 0x100_0000_0000_0000
    ensures Permits(LeafEntry(pa, RAM_FLAGS), acc, true)
  {
    SmallFlags(pa, RAM_FLAGS);
    FlagBits(pa / 4096, 31);
    assert R(31) && W(31) && X(31) && U(31);
  }

  /** A byte of a mapped range that the hart may access. */
  lemma RangeByte(m: Memory, o: Own, root: nat, va: Word, targets: seq<Word>, d: nat, acc: Access)
    requires Shape(o) && Tree(m, o.tables) && root in o.tables && o.tables[root] == Root(true)
    requires RangeMapped(MappingOf(m, o.tables), root, va, RAM_FLAGS, true, targets)
    requires va % 4096 == 0 && d / 4096 < |targets| && va + d < 0x200_0000_0000
    requires targets[d / 4096] % 4096 == 0 && targets[d / 4096] < 0x100_0000_0000_0000
    ensures HwTranslate(m, root, va + d, true, acc) == Some(targets[d / 4096] + d % 4096)
  {
    hide Shape, Tree, MappingOf, Translate, KeyOf, RangeMapped, HwTranslate, LeafEntry, Permits, Wrap;
    PlainSum(va + d);
    MappedTranslates(m, o.tables, root, va, RAM_FLAGS, true, targets, d);
    HardwareAgrees(m, o, root, va + d, true, acc);
    RamPermits(targets[d / 4096], acc);
  }

  /** Every byte of the image, for loads, stores and fetches. */
  lemma GuestImageByte(m: Memory, o: Own, c: VmConfig, ram: seq<nat>, d: nat, acc: Access)
    requires GuestTable(m, o, c, ram) && GuestOk(c) && d < c.imageEnd - c.imageBase
    ensures HwTranslate(m, c.table, c.memoryBase + d, true, acc) == Some(c.imageBase + d)
  {
    hide Shape, Tree, MappingOf, HwTranslate, RangeMapped, RamMapped, DeviceMapped, ImageSize, PageCount, Wrap, Rounded;
    ImageSizeIs(c);
    var n, j := PageCount(ImageSize(c)), d / 4096;
    var targets := LinearTargets(c.imageBase, n);
    PlainSum(c.imageBase + j * 4096);
    ModUnique(c.imageBase + j * 4096, 4096, c.imageBase / 4096 + j, 0);
    RangeByte(m, o, c.table, c.memoryBase, targets, d, acc);
  }

  /** Every byte of the rest of its memory: a byte of one of its frames. */
  lemma GuestRamByte(m: Memory, o: Own, c: VmConfig, ram: seq<nat>, d: nat, acc: Access)
    requires GuestTable(m, o, c, ram) && GuestOk(c) && Rounded(c.imageEnd - c.imageBase) <= d < c.memorySize
    ensures |ram| * 4096 == Rounded(c.memorySize - Rounded(c.imageEnd - c.imageBase))
    ensures var e := d - Rounded(c.imageEnd - c.imageBase);
            && e / 4096 < |ram|
            && HwTranslate(m, c.table, c.memoryBase + d, true, acc) == Some(ram[e / 4096] * 4096 + e % 4096)
  {
    hide Shape, Tree, MappingOf, HwTranslate, RangeMapped, ImageMapped, DeviceMapped, ImageSize, PageCount, Wrap,
         Rounded;
    ImageSizeIs(c);
    var size := Rounded(c.imageEnd - c.imageBase);
    var e := d - size;
    PlainSum(c.memoryBase + size);
    PlainSum(c.memorySize - size);
    SizeIs(c.memorySize - size);
    ModUnique(c.memoryBase + size, 4096, c.memoryBase / 4096 + size / 4096, 0);
    var targets := FrameTargets(ram);
    assert ram[e / 4096] in ram;
    ByteOfPage(ram[e / 4096], 0);
    RangeByte(m, o, c.table, c.memoryBase + size, targets, e, acc);
  }

  // ---- guests among each other ----

  /** All guests are built, and their images lie below the allocator's pages. */
  ghost predicate AllGuests(m: Memory, o: Own, cs: seq<VmConfig>, rams: seq<seq<nat>>, lo: nat) {
    && Shape(o) && Tree(m, o.tables) && lo <= END_PAGE && o.pool == Pages(lo, END_PAGE)
    && GuestsBuilt(o, MappingOf(m, o.tables), cs, |cs|, rams)
    && forall i :: 0 <= i < |cs| ==>
         GuestOk(cs[i]) && cs[i].imageEnd <= lo * 4096
         && cs[i].table in o.tables && o.tables[cs[i].table] == Root(true)
  }

  lemma OneOfAll(m: Memory, o: Own, cs: seq<VmConfig>, rams: seq<seq<nat>>, lo: nat, i: nat)
    requires AllGuests(m, o, cs, rams, lo) && i < |cs|
    ensures |rams| == |cs| && GuestTable(m, o, cs[i], rams[i]) && GuestOk(cs[i]) && cs[i].imageEnd <= lo * 4096
    ensures forall p <- rams[i] :: p in o.frames
  {
    hide GuestMapped, Shape, Tree, MappingOf, FromPlan, Plan;
  }

  /** Byte d of guest memory that is neither image nor the rest of its last page. */
  predicate InRam(c: VmConfig, d: nat)
    requires GuestOk(c)
  {
    Rounded(c.imageEnd - c.imageBase) <= d < c.memorySize
  }

  /** No guest reaches a byte of leftover RAM that is not its own, whatever the access, neither
  through its leftover RAM nor through its image; and no such byte is a byte of a page table or of
  the kernel image. */
  lemma GuestIsolated(m: Memory, o: Own, cs: seq<VmConfig>, rams: seq<seq<nat>>, lo: nat, i: nat, d: nat, j: nat,
                      e: nat, acc: Access, acc': Access)
    requires AllGuests(m, o, cs, rams, lo) && i < |cs| && j < |cs| && GuestOk(cs[i]) && GuestOk(cs[j])
    requires InRam(cs[i], d) && (InRam(cs[j], e) || e < cs[j].imageEnd - cs[j].imageBase) && (i, d) != (j, e)
    ensures var a := HwTranslate(m, cs[i].table, cs[i].memoryBase + d, true, acc);
            var b := HwTranslate(m, cs[j].table, cs[j].memoryBase + e, true, acc');
            && a.Some? && b.Some? && a != b
            && lo <= a.value / 4096 < END_PAGE && a.value / 4096 !in o.tables
  {
    hide GuestTable, HwTranslate, Rounded, GuestsBuilt, Shape, Tree, MappingOf;
    OneOfAll(m, o, cs, rams, lo, i);
    OneOfAll(m, o, cs, rams, lo, j);
    var x := d - Rounded(cs[i].imageEnd - cs[i].imageBase);
    GuestRamByte(m, o, cs[i], rams[i], d, acc);
    FramePage(o, lo, rams[i][x / 4096]);
    ByteOfPage(rams[i][x / 4096], x % 4096);
    if e < cs[j].imageEnd - cs[j].imageBase {
      GuestImageByte(m, o, cs[j], rams[j], e, acc');
    } else {
      var y := e - Rounded(cs[j].imageEnd - cs[j].imageBase);
      GuestRamByte(m, o, cs[j], rams[j], e, acc');
      ByteOfPage(rams[j][y / 4096], y % 4096);
      if (i, x / 4096) != (j, y / 4096) {
        FramesOfGuests(m, o, cs, rams, lo, i, x / 4096, j, y / 4096);
      } else {
        assert x % 4096 != y % 4096;
      }
    }
  }

  lemma FramePage(o: Own, lo: nat, p: nat)
    requires Shape(o) && lo <= END_PAGE && o.pool == Pages(lo, END_PAGE) && p in o.frames
    ensures lo <= p < END_PAGE && p !in o.tables
  {
  }

  lemma FramesOfGuests(m: Memory, o: Own, cs: seq<VmConfig>, rams: seq<seq<nat>>, lo: nat, i: nat, p: nat, j: nat,
                       q: nat)
    requires AllGuests(m, o, cs, rams, lo) && |rams| == |cs| && i < |cs| && j < |cs|
    requires p < |rams[i]| && q < |rams[j]| && (i, p) != (j, q)
    ensures rams[i][p] != rams[j][q]
  {
    hide GuestMapped, Shape, Tree, MappingOf;
    assert Different(rams);
  }

  // ---- and nothing else ----

  /** Aligned device windows within the addresses that Sv39x4 has. */
  predicate WindowsOk(c: VmConfig) {
    forall i :: 0 <= i < |c.devices| ==> WindowOk(c.devices[i])
  }

  predicate WindowOk(d: MmioDev) {
    d.virtBase % 4096 == 0 && d.size <= 0x200_0000_0000 && d.virtBase + Rounded(d.size) <= 0x200_0000_0000
  }

  /** A guest-physical address that the configuration names, up to whole pages. */
  predicate Configured(c: VmConfig, gpa: nat) {
    || c.memoryBase <= gpa < c.memoryBase + Rounded(c.memorySize)
    || exists i :: 0 <= i < |c.devices| && InWindow(c.devices[i], gpa)
  }

  predicate InWindow(d: MmioDev, gpa: nat) {
    d.virtBase <= gpa < d.virtBase + Rounded(d.size)
  }

  /** A whole page that the configuration names. */
  ghost predicate NamedPage(c: VmConfig, va: nat) {
    va % 4096 == 0 && va < 0x200_0000_0000 && forall x: nat :: va <= x < va + 4096 ==> Configured(c, x)
  }

  lemma {:induction false} FindDevice(c: VmConfig, n: nat, j: nat) returns (i: nat, l: nat)
    requires n <= |c.devices| && j < |DeviceJobs(c, n)|
    ensures i < n && l < PageCount(c.devices[i].size)
    ensures DeviceJobs(c, n)[j].va == Wrap(c.devices[i].virtBase + l * 4096)
    decreases n
  {
    hide DeviceFlags, PageCount, Wrap;
    var front := DeviceJobs(c, n - 1);
    if j < |front| {
      i, l := FindDevice(c, n - 1, j);
    } else {
      i, l := n - 1, j - |front|;
    }
  }

  /** Page j of a range. */
  lemma PageIn(base: Word, size: Word, j: nat, va: Word)
    requires base % 4096 == 0 && size <= 0x200_0000_0000 && base + Rounded(size) <= 0x200_0000_0000
    requires j < PageCount(size) && va == Wrap(base + j * 4096)
    ensures va == base + j * 4096 && va % 4096 == 0 && base <= va && va + 4096 <= base + Rounded(size)
  {
    hide PageCount, PGROUNDUP, Rounded, Wrap;
    SizeIs(size);
    PlainSum(base + j * 4096);
    ModUnique(base + j * 4096, 4096, base / 4096 + j, 0);
  }

  lemma PlanPage(c: VmConfig, j: nat)
    requires GuestOk(c) && WindowsOk(c) && j < |Plan(c)|
    ensures NamedPage(c, Plan(c)[j].va)
  {
    hide PageCount, Rounded, Wrap, ImageSize, DeviceJobs, DeviceFlags;
    var va := Plan(c)[j].va;
    var a, b := |ImageJobs(c)|, |RamJobs(c)|;
    MemoryParts(c);
    if j < a {
      PageIn(c.memoryBase, ImageSize(c), j, va);
    } else if j < a + b {
      assert Plan(c)[j] == RamJobs(c)[j - a];
      PageIn(c.memoryBase + ImageSize(c), c.memorySize - ImageSize(c), j - a, va);
    } else {
      assert Plan(c)[j] == DeviceJobs(c, |c.devices|)[j - a - b];
      var i, l := FindDevice(c, |c.devices|, j - a - b);
      var d := c.devices[i];
      assert WindowOk(d);
      PageIn(d.virtBase, d.size, l, va);
      forall x: nat | va <= x < va + 4096
        ensures Configured(c, x)
      {
        assert InWindow(c.devices[i], x);
      }
    }
  }

  /** Image and leftover RAM are the guest's memory. */
  lemma MemoryParts(c: VmConfig)
    requires GuestOk(c)
    ensures var s := ImageSize(c);
            && s == Rounded(ImageLength(c)) == Rounded(s) && s + Rounded(c.memorySize - s) == Rounded(c.memorySize)
            && Wrap(c.memoryBase + s) == c.memoryBase + s && Wrap(c.memorySize - s) == c.memorySize - s
            && (c.memoryBase + s) % 4096 == 0 && s <= Rounded(c.memorySize)
            && c.memoryBase + Rounded(c.memorySize) <= 0x200_0000_0000
  {
    hide ImageSize, Wrap;
    ImageSizeIs(c);
    var s := ImageSize(c);
    PlainSum(c.memoryBase + s);
    PlainSum(c.memorySize - s);
    RoundedParts(s, c.memorySize);
    RoundedBelow(c.memoryBase, c.memorySize);
    ModUnique(c.memoryBase + s, 4096, c.memoryBase / 4096 + s / 4096, 0);
  }

  lemma RoundedParts(s: nat, n: nat)
    requires s % 4096 == 0 && s <= n
    ensures s + Rounded(n - s) == Rounded(n) && Rounded(s) == s
  {
    var q := s / 4096;
    ModUnique(n + 4095, 4096, q + (n - s + 4095) / 4096, (n - s + 4095) % 4096);
    ModUnique(s + 4095, 4096, q, 4095);
  }

  lemma RoundedBelow(base: nat, n: nat)
    requires base % 4096 == 0 && base + n <= 0x200_0000_0000
    ensures base + Rounded(n) <= 0x200_0000_0000
  {
    var b, q := base / 4096, (n + 4095) / 4096;
    assert n + 4095 == 4096 * q + (n + 4095) % 4096;
  }

  /** The guest reaches nothing that its configuration does not name. */
  lemma NothingElse(m: Memory, o: Own, c: VmConfig, ram: seq<nat>, gpa: Word, acc: Access)
    requires GuestTable(m, o, c, ram) && GuestOk(c) && WindowsOk(c)
    requires HwTranslate(m, c.table, gpa, true, acc).Some?
    ensures Configured(c, gpa)
  {
    hide Shape, Tree, MappingOf, GuestMapped, Translate, KeyOf, Index, Permits, Descend, Plan, WindowsOk, GuestOk,
         Configured;
    HardwareAgrees(m, o, c.table, gpa, true, acc);
    KeyRootIs(c.table, gpa);
    assert PlannedBefore(c, |Plan(c)|, KeyOf(c.table, gpa, true));
    var j :| 0 <= j < |Plan(c)| && KeyOf(c.table, gpa, true) == KeyOf(c.table, Plan(c)[j].va, true);
    PlanPage(c, j);
    var va := Plan(c)[j].va;
    PlainSum(gpa);
    PlainSum(va);
    KeysMeet(c.table, gpa, va, true);
    PageByte(gpa, va);
  }

  lemma PageByte(gpa: nat, va: nat)
    requires gpa < 0x200_0000_0000 && va < 0x200_0000_0000 && va % 4096 == 0
    requires (gpa / 4096 - va / 4096) % 0x2000_0000 == 0
    ensures gpa == va + gpa % 4096
  {
    var w := (gpa / 4096 - va / 4096) / 0x2000_0000;
    assert gpa / 4096 - va / 4096 == 0x2000_0000 * w;
  }

  // ---- devices ----

  /** What permission bits of a device allow; writable without readable is a reserved encoding. */
  predicate DeviceGrants(perm: nat, acc: Access) {
    && (R(perm) || !W(perm))
    && match acc { case Load => R(perm) case Store => W(perm) case Fetch => X(perm) }
  }

  lemma FlagBit(x: nat, k: nat)
    ensures (x / Pow2(k)) % 2 == 1 <==> Bit(x, k)
  {
    BitShift(x, k, 0);
  }

  /** `perm | PTE_U` adds the user bit and nothing else. */
  lemma DeviceBits(perm: nat)
    requires perm < 1024
    ensures var f := Or(perm, PTE_U);
            f < 1024 && (R(f) <==> R(perm)) && (W(f) <==> W(perm)) && (X(f) <==> X(perm)) && U(f)
  {
    hide Or, Bit, Pow2;
    var f := Or(perm, PTE_U);
    SmallPowers();
    OrBound(perm, PTE_U, 10);
    forall k: nat | k < 5
      ensures (f / Pow2(k)) % 2 == 1 <==> (perm / Pow2(k)) % 2 == 1 || k == 4
    {
      FlagBit(f, k);
      FlagBit(perm, k);
      OrBit(perm, PTE_U, k);
      Pow2Bit(4, k);
    }
  }

  lemma SmallPowers()
    ensures Pow2(1) == 2 && Pow2(2) == 4 && Pow2(3) == 8 && Pow2(4) == 16 && Pow2(10) == 1024
  {
  }

  lemma OddKeepsBits(f: nat)
    ensures var e := Odd(f);
            (R(e) <==> R(f)) && (W(e) <==> W(f)) && (X(e) <==> X(f)) && (U(e) <==> U(f)) && e % 2 == 1
  {
    var e := Odd(f);
    ModUnique(e, 2, f / 2, 1);
    DivTwice(e, 2);
    DivTwice(f, 2);
    DivTwice(e, 4);
    DivTwice(f, 4);
    DivTwice(e, 8);
    DivTwice(f, 8);
  }

  lemma DevicePermits(pa: Word, dev: MmioDev, acc: Access)
    requires pa < 0x100_0000_0000_0000 && dev.perm < 1024
    ensures Permits(LeafEntry(pa, DeviceFlags(dev)), acc, true) <==> DeviceGrants(dev.perm, acc)
  {
    hide R, W, X, U, A, D, LeafEntry, Or, DeviceFlags, Odd;
    DeviceFlagsSmall(dev);
    var f := DeviceFlags(dev);
    DeviceBits(dev.perm);
    SmallFlags(pa, f);
    OddKeepsBits(f);
    OddSmall(f);
    FlagBits(pa / 4096, Odd(f));
  }

  lemma OddSmall(f: nat)
    requires f < 1024
    ensures Odd(f) < 1024
  {
  }

  /** Every byte of a device window: the device's byte for exactly the accesses its permissions
  name, and a fault for the others. */
  lemma GuestDeviceByte(m: Memory, o: Own, c: VmConfig, ram: seq<nat>, dev: MmioDev, d: nat, acc: Access)
    requires GuestTable(m, o, c, ram) && dev in c.devices && d < dev.size && dev.perm < 1024
    requires dev.virtBase % 4096 == 0 && dev.physBase % 4096 == 0 && dev.physBase != 0
    requires dev.virtBase + dev.size <= 0x200_0000_0000 && dev.physBase + dev.size <= 0x100_0000_0000_0000
    ensures HwTranslate(m, c.table, dev.virtBase + d, true, acc) ==
            if DeviceGrants(dev.perm, acc) then Some(dev.physBase + d) else None
  {
    hide Shape, Tree, MappingOf, HwTranslate, RangeMapped, ImageMapped, RamMapped, PageCount, Wrap, Translate, KeyOf,
         LeafEntry, Permits, DeviceFlags, DeviceGrants;
    DeviceFlagsSmall(dev);
    var i :| 0 <= i < |c.devices| && c.devices[i] == dev;
    assert DeviceMapped(MappingOf(m, o.tables), c, c.devices[i]);
    SizePages(dev.size);
    var n, j := PageCount(dev.size), d / 4096;
    var targets := LinearTargets(dev.physBase, n);
    PlainSum(dev.physBase + j * 4096);
    PlainSum(dev.virtBase + d);
    ModUnique(dev.physBase + j * 4096, 4096, dev.physBase / 4096 + j, 0);
    MappedTranslates(m, o.tables, c.table, dev.virtBase, DeviceFlags(dev), true, targets, d);
    HardwareAgrees(m, o, c.table, dev.virtBase + d, true, acc);
    DevicePermits(targets[j], dev, acc);
  }
}
