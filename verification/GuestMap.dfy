/** Guest physical memory (init_hs_pgtable in vm_run.c): one Sv39x4 table per VM, all
drawing tables and RAM from the one allocator. */
module GuestMap {
  import opened Wrappers
  import opened Bits
  import opened Layout
  import opened Config
  import opened Tables
  import opened Kmem
  import opened Mappings
  import opened Vmem
  import opened Translation
  import opened Regions
  import opened GuestPlan

  // ---- a new root ----

  function Cleared4(m: Memory, r: nat): Memory
    requires RamPage(r) && RamPage(r + 3)
  {
    ZeroPage(ZeroPage(ZeroPage(ZeroPage(m, r), r + 1), r + 2), r + 3)
  }

  function WithRoot(o: Own, r: nat): Own {
    o.(tables := o.tables[r := Root(true)][r + 1 := Tail(r)][r + 2 := Tail(r)][r + 3 := Tail(r)])
  }

  /** Four pages that belong to nobody: vm_pgtable lies in the kernel image. */
  ghost predicate StaticRoot(o: Own, r: nat) {
    && RamPage(r) && RamPage(r + 3)
    && Unowned(o, r) && Unowned(o, r + 1) && Unowned(o, r + 2) && Unowned(o, r + 3)
  }

  ghost predicate Unowned(o: Own, p: nat) {
    p !in o.pool && p !in o.tables
  }

  lemma WithRootShape(o: Own, r: nat)
    requires Shape(o) && StaticRoot(o, r)
    ensures Shape(WithRoot(o, r))
  {
    assert PoolShape(WithRoot(o, r));
    WithRootTables(o, r);
  }

  lemma WithRootTables(o: Own, r: nat)
    requires TableShape(o) && StaticRoot(o, r)
    ensures TableShape(WithRoot(o, r))
  {
    var ts, ts' := o.tables, WithRoot(o, r).tables;
    forall s <- ts' | ts'[s] == Root(true)
      ensures IsTail(ts', s, 1) && IsTail(ts', s, 2) && IsTail(ts', s, 3)
    {
      if s != r {
        assert IsTail(ts, s, 1) && IsTail(ts, s, 2) && IsTail(ts, s, 3);
      }
    }
    forall c <- ts' | ts'[c].Table?
      ensures c in o.pool && HasParent(ts', c)
    {
      assert HasParent(ts, c);
    }
  }

  lemma RdCleared4(m: Memory, r: nat, t: nat, i: nat)
    requires RamPage(r) && RamPage(r + 3)
    ensures Rd(Cleared4(m, r), t, i) == if r * 512 <= t * 512 + i < r * 512 + 2048 then 0 else Rd(m, t, i)
  {
    hide Rd, ZeroPage;
    var m1 := ZeroPage(m, r);
    var m2 := ZeroPage(m1, r + 1);
    var m3 := ZeroPage(m2, r + 2);
    RdZero(m, r, t, i);
    RdZero(m1, r + 1, t, i);
    RdZero(m2, r + 2, t, i);
    RdZero(m3, r + 3, t, i);
  }

  /** Clearing the pages of a static root touches no table that exists already. */
  lemma ClearedElsewhere(m: Memory, o: Own, r: nat, t: nat, i: nat)
    requires TableShape(o) && StaticRoot(o, r) && IsSlot(o.tables, t, i)
    ensures Rd(Cleared4(m, r), t, i) == Rd(m, t, i)
  {
    hide Rd, Cleared4, TableShape;
    SlotApart(o, t, i, r);
    SlotApart(o, t, i, r + 1);
    SlotApart(o, t, i, r + 2);
    SlotApart(o, t, i, r + 3);
    RdCleared4(m, r, t, i);
  }

  lemma WithRootTree(m: Memory, o: Own, r: nat)
    requires Shape(o) && Tree(m, o.tables) && StaticRoot(o, r)
    ensures Tree(Cleared4(m, r), WithRoot(o, r).tables)
  {
    hide Rd, Cleared4, PoolShape;
    var m' := Cleared4(m, r);
    var ts, ts' := o.tables, WithRoot(o, r).tables;
    forall t: nat, i: nat | IsSlot(ts', t, i)
      ensures EntryOk(m', ts', t, i)
    {
      if t == r {
        RdCleared4(m, r, t, i);
      } else {
        assert IsSlot(ts, t, i) && EntryOk(m, ts, t, i);
        ClearedElsewhere(m, o, r, t, i);
      }
    }
    forall c | c in ts' && ts'[c].Table?
      ensures Rd(m', ts'[c].parent, ts'[c].idx) == TableEntry(c)
    {
      assert HasParent(ts, c) && IsSlot(ts, ts[c].parent, ts[c].idx);
      ClearedElsewhere(m, o, r, ts[c].parent, ts[c].idx);
    }
  }

  /** An empty root adds no translation and changes none. */
  lemma WithRootMapping(m: Memory, o: Own, r: nat)
    requires Shape(o) && Tree(m, o.tables) && StaticRoot(o, r)
    ensures MappingOf(Cleared4(m, r), WithRoot(o, r).tables) == MappingOf(m, o.tables)
  {
    hide Rd, Cleared4, PoolShape;
    var m' := Cleared4(m, r);
    var ts, ts' := o.tables, WithRoot(o, r).tables;
    forall t: nat, i: nat | IsSlot(ts, t, i)
      ensures Rd(m', t, i) == Rd(m, t, i)
    {
      ClearedElsewhere(m, o, r, t, i);
    }
    forall k | IsKey(ts', k)
      ensures if k.root == r then Lookup(m', k) == None else IsKey(ts, k) && Lookup(m', k) == Lookup(m, k)
    {
      if k.root == r {
        RdCleared4(m, r, r, k.i2);
      } else {
        LookupSame(m, m', ts, k);
      }
    }
    assert forall k :: IsKey(ts, k) ==> IsKey(ts', k) && k.root != r;
  }

  lemma WithRootFreeList(m: Memory, head: Word, o: Own, r: nat)
    requires Shape(o) && FreeList(m, head, o.free) && StaticRoot(o, r)
    ensures FreeList(Cleared4(m, r), head, o.free)
  {
    hide Rd, Cleared4, TableShape, Ptr;
    forall k | 0 <= k < |o.free|
      ensures Rd(Cleared4(m, r), o.free[k], 0) == Rd(m, o.free[k], 0)
    {
      RdCleared4(m, r, o.free[k], 0);
    }
    FreeListKept(m, Cleared4(m, r), head, o.free);
  }

  /** memset(conf->vm_pgtable, 0, 4 * PAGE_SIZE): from here on the pages are an empty root. */
  method ClearRoot(k: Kmem, r: nat)
    requires k.Valid() && StaticRoot(k.own, r)
    modifies k`mem, k`own
    ensures k.Valid() && k.own == WithRoot(old(k.own), r)
    ensures k.Mapped() == old(k.Mapped())
  {
    hide ZeroPage, PoolShape, TableShape, Tree, FreeList, MappingOf;
    WithRootShape(k.own, r);
    WithRootTree(k.mem, k.own, r);
    WithRootMapping(k.mem, k.own, r);
    WithRootFreeList(k.mem, k.freelist, k.own, r);
    k.MemsetPage(r);
    k.MemsetPage(r + 1);
    k.MemsetPage(r + 2);
    k.MemsetPage(r + 3);
    k.own := WithRoot(k.own, r);
  }

  // ---- one VM ----

  ghost predicate ImageMapped(M: Mapping, c: VmConfig) {
    c.imageBase != 0 ==>
      RangeMapped(M, c.table, c.memoryBase, RAM_FLAGS, true, LinearTargets(c.imageBase, PageCount(ImageSize(c))))
  }

  ghost predicate RamMapped(M: Mapping, c: VmConfig, ram: seq<nat>) {
    && |ram| == PageCount(Wrap(c.memorySize - ImageSize(c)))
    && (forall p <- ram :: RamPage(p))
    && RangeMapped(M, c.table, Wrap(c.memoryBase + ImageSize(c)), RAM_FLAGS, true, FrameTargets(ram))
  }

  ghost predicate DeviceMapped(M: Mapping, c: VmConfig, d: MmioDev) {
    d.physBase != 0 ==>
      RangeMapped(M, c.table, d.virtBase, DeviceFlags(d), true, LinearTargets(d.physBase, PageCount(d.size)))
  }

  /** The guest-physical memory that the configuration asks for, with the first n devices: the
  image linearly, each page of leftover RAM on its own frame, each device linearly. */
  ghost predicate GuestPrefix(M: Mapping, c: VmConfig, n: nat, ram: seq<nat>)
    requires n <= |c.devices|
  {
    && ImageMapped(M, c)
    && RamMapped(M, c, ram)
    && (forall j :: 0 <= j < n ==> DeviceMapped(M, c, c.devices[j]))
  }

  ghost predicate GuestMapped(M: Mapping, c: VmConfig, ram: seq<nat>) {
    GuestPrefix(M, c, |c.devices|, ram)
  }

  /** What is mapped for a guest stays. */
  lemma GuestExtends(M: Mapping, M': Mapping, c: VmConfig, n: nat, ram: seq<nat>)
    requires n <= |c.devices| && Extends(M, M') && GuestPrefix(M, c, n, ram)
    ensures GuestPrefix(M', c, n, ram)
  {
    hide RangeMapped, Extends, DeviceFlags, ImageSize, PageCount, Wrap;
    if c.imageBase != 0 {
      var image := LinearTargets(c.imageBase, PageCount(ImageSize(c)));
      ExtendsRange(M, M', c.table, c.memoryBase, RAM_FLAGS, true, image);
    }
    ExtendsRange(M, M', c.table, Wrap(c.memoryBase + ImageSize(c)), RAM_FLAGS, true, FrameTargets(ram));
    forall j | 0 <= j < n
      ensures DeviceMapped(M', c, c.devices[j])
    {
      var d := c.devices[j];
      assert DeviceMapped(M, c, d);
      if d.physBase != 0 {
        var window := LinearTargets(d.physBase, PageCount(d.size));
        ExtendsRange(M, M', c.table, d.virtBase, DeviceFlags(d), true, window);
      }
    }
  }

  lemma GrantedAcross(o: Own, M: Mapping, o1: Own, M1: Mapping, o2: Own, o3: Own, M2: Mapping, M3: Mapping, r: nat,
                      ram: seq<nat>)
    requires Built(o, M, o1, M1, r) && Allocated(o1, o2, ram) && Built(o2, M2, o3, M3, r)
    ensures Granted(o, o3, ram)
  {
  }

  /** A root that is not in use yet maps nothing. */
  lemma NothingPlanned(m: Memory, o: Own, c: VmConfig)
    requires StaticRoot(o, c.table)
    ensures FromPlan(MappingOf(m, o.tables), c, 0)
  {
    hide Plan;
  }

  /** init_hs_pgtable. The panics of the code return false; a configuration without clashes fails
  only for lack of memory. */
  method InitHsPgtable(k: Kmem, c: VmConfig) returns (done: bool, ghost ram: seq<nat>)
    requires k.Valid() && StaticRoot(k.own, c.table)
    modifies k`mem, k`freelist, k`own
    ensures k.Valid() && Built(old(k.own), old(k.Mapped()), k.own, k.Mapped(), c.table)
    ensures c.table in k.own.tables && k.own.tables[c.table] == Root(true)
    ensures !done ==> k.own.free == [] || !ClashFree(c)
    ensures done ==> Granted(old(k.own), k.own, ram) && GuestMapped(k.Mapped(), c, ram)
    ensures done ==> FromPlan(k.Mapped(), c, |Plan(c)|)
  {
    hide MappingOf, Tree, FreeList, TableShape, PoolShape, Extends, PageCount, PGROUNDUP, Wrap, Plan,
         LinearTargets, FrameTargets, FromPlan, ClashFree, ImageMapped, RamMapped;
    ghost var o, M := k.own, k.Mapped();
    NothingPlanned(k.mem, k.own, c);
    ClearRoot(k, c.table);
    StartBuilt(o, M, c.table);
    ram := [];
    done := MapImage(k, c);
    BuiltThen(o, M, WithRoot(o, c.table), M, k.own, k.Mapped(), c.table);
    if !done {
      return;
    }
    ghost var o1, M1 := k.own, k.Mapped();
    done, ram := MapRam(k, c);
    ghost var o2, M2 := k.own, k.Mapped();
    BuiltThen(o, M, o1, M1, o2, M2, c.table);
    if !done {
      return;
    }
    done := MapDevices(k, c, ram);
    BuiltThen(o, M, o2, M2, k.own, k.Mapped(), c.table);
    GrantedAcross(o, M, o1, M1, o2, k.own, M2, k.Mapped(), c.table, ram);
  }

  /** The first call: the image. */
  method MapImage(k: Kmem, c: VmConfig) returns (done: bool)
    requires k.Valid() && c.table in k.own.tables && k.own.tables[c.table] == Root(true) && FromPlan(k.Mapped(), c, 0)
    modifies k`mem, k`freelist, k`own
    ensures k.Valid() && c.table in k.own.tables && k.own.tables[c.table] == Root(true)
    ensures Built(old(k.own), old(k.Mapped()), k.own, k.Mapped(), c.table)
    ensures !done ==> k.own.free == [] || !ClashFree(c)
    ensures done ==> ImageMapped(k.Mapped(), c) && FromPlan(k.Mapped(), c, |ImageJobs(c)|)
  {
    hide MappingOf, Inv, Built, RangeMapped, PageCount, ImageSize, Plan, LinearTargets, FromPlan, ClashFree, FreshKeys,
         OnlyRange;
    ghost var M, n := k.Mapped(), PageCount(ImageSize(c));
    PlanParts(c);
    if ClashFree(c) {
      CallFresh(M, c, 0, c.memoryBase, c.imageBase, RAM_FLAGS, n);
    }
    ghost var pages;
    done, pages := MapRegion(k, c.table, c.memoryBase, c.imageBase, ImageSize(c), RAM_FLAGS, true);
    if done {
      CallFrom(M, k.Mapped(), c, 0, c.memoryBase, c.imageBase, RAM_FLAGS, n);
    }
  }

  /** The second call: the leftover RAM. */
  method MapRam(k: Kmem, c: VmConfig) returns (done: bool, ghost ram: seq<nat>)
    requires k.Valid() && c.table in k.own.tables && k.own.tables[c.table] == Root(true)
    requires FromPlan(k.Mapped(), c, |ImageJobs(c)|) && ImageMapped(k.Mapped(), c)
    modifies k`mem, k`freelist, k`own
    ensures k.Valid() && c.table in k.own.tables && k.own.tables[c.table] == Root(true)
    ensures Built(old(k.own), old(k.Mapped()), k.own, k.Mapped(), c.table) && Allocated(old(k.own), k.own, ram)
    ensures !done ==> k.own.free == [] || !ClashFree(c)
    ensures done ==> FromPlan(k.Mapped(), c, |ImageJobs(c)| + |RamJobs(c)|)
    ensures done ==> ImageMapped(k.Mapped(), c) && RamMapped(k.Mapped(), c, ram)
  {
    hide MappingOf, Inv, Built, RangeMapped, PageCount, ImageSize, Plan, LinearTargets, FromPlan, ClashFree, FreshKeys,
         OnlyRange, Extends, Wrap, Allocated;
    ghost var o, M := k.own, k.Mapped();
    var va, size := Wrap(c.memoryBase + ImageSize(c)), Wrap(c.memorySize - ImageSize(c));
    PlanParts(c);
    if ClashFree(c) {
      CallFresh(M, c, |ImageJobs(c)|, va, 0, RAM_FLAGS, PageCount(size));
    }
    done, ram := MapRegion(k, c.table, va, 0, size, RAM_FLAGS, true);
    if done {
      CallFrom(M, k.Mapped(), c, |ImageJobs(c)|, va, 0, RAM_FLAGS, PageCount(size));
      BuiltExtends(o, M, k.own, k.Mapped(), c.table);
      if c.imageBase != 0 {
        ExtendsRange(M, k.Mapped(), c.table, c.memoryBase, RAM_FLAGS, true,
                     LinearTargets(c.imageBase, PageCount(ImageSize(c))));
      }
    }
  }

  lemma StartBuilt(o: Own, M: Mapping, r: nat)
    requires StaticRoot(o, r)
    ensures Built(o, M, WithRoot(o, r), M, r)
  {
  }

  /** Position in the plan behind the first i devices. */
  function DevicesFrom(c: VmConfig, i: nat): nat
    requires i <= |c.devices|
  {
    |ImageJobs(c)| + |RamJobs(c)| + |DeviceJobs(c, i)|
  }

  /** The device loop of init_hs_pgtable. */
  method MapDevices(k: Kmem, c: VmConfig, ghost ram: seq<nat>) returns (done: bool)
    requires k.Valid()
    requires c.table in k.own.tables && k.own.tables[c.table] == Root(true)
    requires ImageMapped(k.Mapped(), c) && RamMapped(k.Mapped(), c, ram) && FromPlan(k.Mapped(), c, DevicesFrom(c, 0))
    modifies k`mem, k`freelist, k`own
    ensures k.Valid() && c.table in k.own.tables && k.own.tables[c.table] == Root(true)
    ensures Built(old(k.own), old(k.Mapped()), k.own, k.Mapped(), c.table)
    ensures !done ==> k.own.free == [] || !ClashFree(c)
    ensures done ==> GuestMapped(k.Mapped(), c, ram) && FromPlan(k.Mapped(), c, |Plan(c)|)
  {
    hide MappingOf, Inv, ImageMapped, RamMapped, Built, DeviceMapped, PageCount, LinearTargets, FromPlan, ClashFree,
         Plan, DevicesFrom;
    ghost var o, M := k.own, k.Mapped();
    var i := 0;
    BuiltRefl(o, M, c.table);
    while i < |c.devices|
      invariant 0 <= i <= |c.devices|
      invariant k.Valid() && c.table in k.own.tables && k.own.tables[c.table] == Root(true)
      invariant Built(o, M, k.own, k.Mapped(), c.table)
      invariant GuestPrefix(k.Mapped(), c, i, ram) && FromPlan(k.Mapped(), c, DevicesFrom(c, i))
    {
      ghost var o1, M1 := k.own, k.Mapped();
      done := MapDevice(k, c, i);
      BuiltThen(o, M, o1, M1, k.own, k.Mapped(), c.table);
      if !done {
        return;
      }
      BuiltExtends(o1, M1, k.own, k.Mapped(), c.table);
      GuestExtends(M1, k.Mapped(), c, i, ram);
      i := i + 1;
    }
    PlanEnd(c);
    done := true;
  }

  lemma PlanEnd(c: VmConfig)
    ensures DevicesFrom(c, |c.devices|) == |Plan(c)|
  {
  }

  /** One round of it. */
  method MapDevice(k: Kmem, c: VmConfig, i: nat) returns (done: bool)
    requires k.Valid() && i < |c.devices|
    requires c.table in k.own.tables && k.own.tables[c.table] == Root(true)
    requires FromPlan(k.Mapped(), c, DevicesFrom(c, i))
    modifies k`mem, k`freelist, k`own
    ensures k.Valid() && c.table in k.own.tables && k.own.tables[c.table] == Root(true)
    ensures Built(old(k.own), old(k.Mapped()), k.own, k.Mapped(), c.table)
    ensures !done ==> k.own.free == [] || !ClashFree(c)
    ensures done ==> DeviceMapped(k.Mapped(), c, c.devices[i]) && FromPlan(k.Mapped(), c, DevicesFrom(c, i + 1))
  {
    hide MappingOf, Inv, Built, RangeMapped, PageCount, Plan, LinearTargets, FromPlan, ClashFree, FreshKeys, OnlyRange,
         DeviceFlags, ImageJobs, RamJobs, DeviceJobs;
    ghost var M := k.Mapped();
    var d := c.devices[i];
    PlanDevice(c, i);
    if ClashFree(c) {
      CallFresh(M, c, DevicesFrom(c, i), d.virtBase, d.physBase, DeviceFlags(d), PageCount(d.size));
    }
    ghost var pages;
    done, pages := MapRegion(k, c.table, d.virtBase, d.physBase, d.size, DeviceFlags(d), true);
    if done {
      CallFrom(M, k.Mapped(), c, DevicesFrom(c, i), d.virtBase, d.physBase, DeviceFlags(d), PageCount(d.size));
    }
  }

  // ---- all VMs ----

  ghost predicate ConfigsOk(o: Own, cs: seq<VmConfig>) {
    && (forall i :: 0 <= i < |cs| ==> StaticRoot(o, cs[i].table))
    && (forall i, j :: 0 <= i < j < |cs| ==> Apart(cs[i].table, cs[j].table))
  }

  predicate Apart(r: int, s: int) {
    r + 4 <= s || s + 4 <= r
  }

  /** No frame occurs twice, in one list or in two. */
  ghost predicate Different(rams: seq<seq<nat>>) {
    forall i, p, j, q ::
      0 <= i < |rams| && 0 <= p < |rams[i]| && 0 <= j < |rams| && 0 <= q < |rams[j]| && (i, p) != (j, q) ==>
        rams[i][p] != rams[j][q]
  }

  /** The first n guests are built, on pairwise different frames of the allocator's pool
  that are no table pages. */
  ghost predicate GuestsBuilt(o: Own, M: Mapping, cs: seq<VmConfig>, n: nat, rams: seq<seq<nat>>) {
    && n <= |cs| && |rams| == n
    && (forall i :: 0 <= i < n ==> GuestMapped(M, cs[i], rams[i]) && FromPlan(M, cs[i], |Plan(cs[i])|))
    && (forall i, p :: 0 <= i < n && 0 <= p < |rams[i]| ==> rams[i][p] in o.frames)
    && Different(rams)
  }

  lemma GuestsBuiltStep(o: Own, M: Mapping, o': Own, M': Mapping, cs: seq<VmConfig>, n: nat, rams: seq<seq<nat>>,
                        ram: seq<nat>)
    requires PoolShape(o) && n < |cs| && GuestsBuilt(o, M, cs, n, rams)
    requires Built(o, M, o', M', cs[n].table) && Granted(o, o', ram) && GuestMapped(M', cs[n], ram)
    requires FromPlan(M', cs[n], |Plan(cs[n])|) && forall i :: 0 <= i < n ==> Apart(cs[i].table, cs[n].table)
    ensures GuestsBuilt(o', M', cs, n + 1, rams + [ram])
  {
    hide GuestPrefix, Extends, FromPlan, Plan;
    var rams' := rams + [ram];
    forall i | 0 <= i < n + 1
      ensures GuestMapped(M', cs[i], rams'[i]) && FromPlan(M', cs[i], |Plan(cs[i])|)
    {
      if i < n {
        assert GuestMapped(M, cs[i], rams[i]);
        GuestExtends(M, M', cs[i], |cs[i].devices|, rams[i]);
        OtherPlan(o, M, o', M', cs[n].table, cs[i], |Plan(cs[i])|);
      }
    }
    forall i, p, j, q | 0 <= i < n + 1 && 0 <= j < n + 1 && 0 <= p < |rams'[i]| && 0 <= q < |rams'[j]| &&
        (i, p) != (j, q)
      ensures rams'[i][p] != rams'[j][q]
    {
      FramesApart(o, rams, ram, i, p, j, q);
    }
  }

  /** Building another VM adds nothing to this one. */
  lemma OtherPlan(o: Own, M: Mapping, o': Own, M': Mapping, r: nat, c: VmConfig, n: nat)
    requires Built(o, M, o', M', r) && Apart(c.table, r) && FromPlan(M, c, n)
    ensures FromPlan(M', c, n)
  {
    hide Plan;
  }

  lemma FramesApart(o: Own, rams: seq<seq<nat>>, ram: seq<nat>, i: nat, p: nat, j: nat, q: nat)
    requires PoolShape(o)
    requires forall a, b :: 0 <= a < |rams| && 0 <= b < |rams[a]| ==> rams[a][b] in o.frames
    requires Different(rams)
    requires forall a :: 0 <= a < |ram| ==> ram[a] in o.free
    requires forall a, b :: 0 <= a < b < |ram| ==> ram[a] != ram[b]
    requires i <= |rams| && j <= |rams| && p < |(rams + [ram])[i]| && q < |(rams + [ram])[j]| && (i, p) != (j, q)
    ensures (rams + [ram])[i][p] != (rams + [ram])[j][q]
  {
    if i < |rams| && j < |rams| {
      assert (rams + [ram])[i] == rams[i] && (rams + [ram])[j] == rams[j];
    } else if i < |rams| {
      assert (rams + [ram])[i] == rams[i] && (rams + [ram])[j] == ram;
      assert rams[i][p] in o.frames && ram[q] in o.free;
    } else if j < |rams| {
      assert (rams + [ram])[i] == ram && (rams + [ram])[j] == rams[j];
      assert rams[j][q] in o.frames && ram[p] in o.free;
    }
  }

  /** Every VM builds its table, one after the other, from the shared allocator. */
  method InitGuests(k: Kmem, cs: seq<VmConfig>) returns (done: bool, ghost rams: seq<seq<nat>>)
    requires k.Valid() && ConfigsOk(k.own, cs)
    modifies k`mem, k`freelist, k`own
    ensures k.Valid() && k.own.pool == old(k.own.pool)
    ensures Extends(old(k.Mapped()), k.Mapped())
    ensures !done ==> k.own.free == [] || exists i :: 0 <= i < |cs| && !ClashFree(cs[i])
    ensures done ==> GuestsBuilt(k.own, k.Mapped(), cs, |cs|, rams)
    ensures done ==>
              forall i :: 0 <= i < |cs| ==> cs[i].table in k.own.tables && k.own.tables[cs[i].table] == Root(true)
  {
    hide MappingOf, Tree, FreeList, TableShape, GuestMapped, PoolShape, ClashFree, FromPlan, Plan;
    ghost var M := k.Mapped();
    rams := [];
    var n := 0;
    while n < |cs|
      invariant 0 <= n <= |cs|
      invariant k.Valid() && k.own.pool == old(k.own.pool) && Extends(M, k.Mapped())
      invariant GuestsBuilt(k.own, k.Mapped(), cs, n, rams)
      invariant forall i :: n <= i < |cs| ==> StaticRoot(k.own, cs[i].table)
      invariant forall i :: 0 <= i < n ==> cs[i].table in k.own.tables && k.own.tables[cs[i].table] == Root(true)
    {
      ghost var o1, M1 := k.own, k.Mapped();
      ghost var ram;
      done, ram := InitHsPgtable(k, cs[n]);
      ExtendsThen(M, M1, k.Mapped());
      if !done {
        return;
      }
      GuestsBuiltStep(o1, M1, k.own, k.Mapped(), cs, n, rams, ram);
      forall i | n < i < |cs|
        ensures StaticRoot(k.own, cs[i].table)
      {
        assert Apart(cs[n].table, cs[i].table);
        StillStatic(o1, M1, k.own, k.Mapped(), cs[n].table, cs[i].table);
      }
      rams := rams + [ram];
      n := n + 1;
    }
    done := true;
  }

  lemma StillStatic(o: Own, M: Mapping, o': Own, M': Mapping, r: nat, s: nat)
    requires Built(o, M, o', M', r) && StaticRoot(o, s) && Apart(r, s)
    ensures StaticRoot(o', s)
  {
  }

  // ---- what a guest sees ----

  /** Guest-physical image bytes are the image's bytes, in order. */
  lemma GuestImageLinear(m: Memory, tables: map<nat, Kind>, c: VmConfig, ram: seq<nat>, d: nat)
    requires GuestMapped(MappingOf(m, tables), c, ram)
    requires c.memoryBase % 4096 == 0 && c.imageBase % 4096 == 0 && c.imageBase != 0
    requires d < c.imageEnd - c.imageBase <= WORD - 8192
    ensures Translate(m, c.table, Wrap(c.memoryBase + d), true) == Some(Wrap(c.imageBase + d))
  {
    hide Wrap, Translate, MappingOf, PageCount, ImageSize, RangeMapped, DeviceMapped, RamMapped, KeyOf, LeafEntry;
    ImagePages(c, d);
    var targets := LinearTargets(c.imageBase, PageCount(ImageSize(c)));
    MappedTranslates(m, tables, c.table, c.memoryBase, RAM_FLAGS, true, targets, d);
    SplitOffset(c.imageBase, d);
  }

  /** The pages mapped for the image reach to its end. */
  lemma ImagePages(c: VmConfig, d: nat)
    requires d < c.imageEnd - c.imageBase <= WORD - 8192
    ensures d / 4096 < PageCount(ImageSize(c))
  {
    hide PageCount, PGROUNDUP;
    PlainSum(c.imageEnd - c.imageBase);
    SizePages(c.imageEnd - c.imageBase);
    SizePages(ImageSize(c));
  }

  /** A device's window lands on the device. */
  lemma GuestDeviceLinear(m: Memory, tables: map<nat, Kind>, c: VmConfig, ram: seq<nat>, dev: MmioDev, d: nat)
    requires GuestMapped(MappingOf(m, tables), c, ram) && dev in c.devices
    requires dev.virtBase % 4096 == 0 && dev.physBase % 4096 == 0 && dev.physBase != 0 && dev.perm < 1024
    requires d / 4096 < PageCount(dev.size)
    ensures Translate(m, c.table, Wrap(dev.virtBase + d), true) == Some(Wrap(dev.physBase + d))
  {
    hide Wrap, Translate, MappingOf, PageCount, ImageSize, RangeMapped, RamMapped, ImageMapped, DeviceFlags;
    DeviceFlagsSmall(dev);
    var j :| 0 <= j < |c.devices| && c.devices[j] == dev;
    assert DeviceMapped(MappingOf(m, tables), c, dev);
    var targets := LinearTargets(dev.physBase, PageCount(dev.size));
    MappedTranslates(m, tables, c.table, dev.virtBase, DeviceFlags(dev), true, targets, d);
    SplitOffset(dev.physBase, d);
  }

  /** Two different bytes of leftover RAM, of one guest or of two, never share a physical
  byte; the frame is an allocator page, behind the kernel image, and not a table. */
  lemma GuestRamPrivate(m: Memory, o: Own, cs: seq<VmConfig>, rams: seq<seq<nat>>, lo: nat, i: nat, d: nat, j: nat,
                        e: nat)
    requires PoolShape(o) && lo <= END_PAGE && o.pool == Pages(lo, END_PAGE)
    requires GuestsBuilt(o, MappingOf(m, o.tables), cs, |cs|, rams)
    requires i < |cs| && j < |cs| && d / 4096 < |rams[i]| && e / 4096 < |rams[j]| && (i, d) != (j, e)
    requires forall c <- cs :: c.memoryBase % 4096 == 0
    ensures var a := Translate(m, cs[i].table, RamByte(cs[i], d), true);
            var b := Translate(m, cs[j].table, RamByte(cs[j], e), true);
            && a.Some? && b.Some? && a != b
            && lo <= a.value / 4096 < END_PAGE && a.value / 4096 !in o.tables
  {
    hide Wrap, Translate, MappingOf, RamByte, PoolShape, GuestMapped, FromPlan, Plan, Different;
    var p, q := d / 4096, e / 4096;
    RamByteTranslates(m, o.tables, cs[i], rams[i], d);
    RamByteTranslates(m, o.tables, cs[j], rams[j], e);
    FrameFacts(o, rams[i][p]);
    ByteOfPage(rams[i][p], d % 4096);
    ByteOfPage(rams[j][q], e % 4096);
    if (i, p) != (j, q) {
      Differ(rams, i, p, j, q);
    } else {
      assert d % 4096 != e % 4096;
    }
  }

  lemma Differ(rams: seq<seq<nat>>, i: nat, p: nat, j: nat, q: nat)
    requires Different(rams) && i < |rams| && p < |rams[i]| && j < |rams| && q < |rams[j]| && (i, p) != (j, q)
    ensures rams[i][p] != rams[j][q]
  {
  }

  lemma FrameFacts(o: Own, p: nat)
    requires PoolShape(o) && p in o.frames
    ensures p in o.pool && p !in o.tables
  {
  }

  lemma ByteOfPage(p: nat, f: nat)
    requires f < 4096
    ensures (p * 4096 + f) / 4096 == p && (p * 4096 + f) % 4096 == f
  {
    ModUnique(p * 4096 + f, 4096, p, f);
  }

  /** Guest-physical address of byte d of the leftover RAM. */
  function RamByte(c: VmConfig, d: nat): Word {
    Wrap(Wrap(c.memoryBase + ImageSize(c)) + d)
  }

  lemma RamByteTranslates(m: Memory, tables: map<nat, Kind>, c: VmConfig, ram: seq<nat>, d: nat)
    requires GuestMapped(MappingOf(m, tables), c, ram) && c.memoryBase % 4096 == 0 && d / 4096 < |ram|
    ensures Translate(m, c.table, RamByte(c, d), true) == Some(ram[d / 4096] * 4096 + d % 4096)
  {
    hide Wrap, Translate, MappingOf, PageCount, RangeMapped, ImageMapped, ImageSize, LeafEntry, KeyOf, DeviceMapped;
    AlignedRam(c);
    var targets := FrameTargets(ram);
    MappedTranslates(m, tables, c.table, Wrap(c.memoryBase + ImageSize(c)), RAM_FLAGS, true, targets, d);
    ByteOfPage(ram[d / 4096], 0);
  }

  lemma AlignedRam(c: VmConfig)
    requires c.memoryBase % 4096 == 0
    ensures Wrap(c.memoryBase + ImageSize(c)) % 4096 == 0
  {
    hide PGROUNDUP, Wrap;
    RoundedUp(Wrap(c.imageEnd - c.imageBase));
    WrapPages(c.memoryBase / 4096 + PageCount(Wrap(c.imageEnd - c.imageBase)));
  }
}
