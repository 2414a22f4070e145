/** Building the hypervisor's final table (init_vmem). */
module KernelMap {
  import opened Wrappers
  import opened Bits
  import opened Layout
  import opened Tables
  import opened Kmem
  import opened Mappings
  import opened Vmem
  import opened Translation
  import opened Regions
  import opened HwWalk
  import opened KernelRegions

  function RootedAt(o: Own, p: nat): Own {
    o.(frames := o.frames - {p}, tables := o.tables[p := Root(false)])
  }

  lemma RootedShape(o: Own, p: nat)
    requires Shape(o) && p in o.frames
    ensures Shape(RootedAt(o, p))
  {
    var o' := RootedAt(o, p);
    assert PoolShape(o') by {
      forall q <- o'.pool
        ensures q in o'.free || q in o'.frames || q in o'.tables
      {
        assert q in o.free || q in o.frames || q in o.tables;
      }
    }
    RootedTables(o, p);
  }

  lemma RootedTables(o: Own, p: nat)
    requires Shape(o) && p in o.frames
    ensures TableShape(RootedAt(o, p))
  {
    var ts, ts' := o.tables, RootedAt(o, p).tables;
    forall c <- ts' | ts'[c].Table?
      ensures c in o.pool && HasParent(ts', c)
    {
      assert HasParent(ts, c);
    }
    forall r <- ts' | ts'[r] == Root(true)
      ensures IsTail(ts', r, 1) && IsTail(ts', r, 2) && IsTail(ts', r, 3)
    {
      assert IsTail(ts, r, 1) && IsTail(ts, r, 2) && IsTail(ts, r, 3);
    }
  }

  lemma RootedTree(m: Memory, o: Own, p: nat)
    requires Shape(o) && Tree(m, o.tables) && p in o.frames
    requires forall i: nat :: i < 512 ==> Rd(m, p, i) == 0
    ensures Tree(m, RootedAt(o, p).tables)
  {
    hide Rd, PoolShape;
    var ts, ts' := o.tables, RootedAt(o, p).tables;
    assert p !in ts by {
      FrameNotTable(o, p);
    }
    forall t: nat, i: nat | IsSlot(ts', t, i)
      ensures EntryOk(m, ts', t, i)
    {
      if t != p {
        assert IsSlot(ts, t, i) && EntryOk(m, ts, t, i);
      }
    }
  }

  lemma FrameNotTable(o: Own, p: nat)
    requires PoolShape(o) && p in o.frames
    ensures p !in o.tables && RamPage(p)
  {
  }

  lemma RootedMapping(m: Memory, o: Own, p: nat)
    requires Shape(o) && Tree(m, o.tables) && p in o.frames
    requires forall i: nat :: i < 512 ==> Rd(m, p, i) == 0
    ensures MappingOf(m, RootedAt(o, p).tables) == MappingOf(m, o.tables)
    ensures forall k <- MappingOf(m, o.tables) :: k.root != p
  {
    hide Rd, PoolShape;
    FrameNotTable(o, p);
    var ts, ts' := o.tables, RootedAt(o, p).tables;
    forall k | IsKey(ts', k)
      ensures if k.root == p then Lookup(m, k) == None else IsKey(ts, k)
    {
    }
    assert forall k :: IsKey(ts, k) ==> IsKey(ts', k) && k.root != p;
  }

  /** A page from kmalloc, cleared once more, as an empty Sv39 root. */
  method NewRoot(k: Kmem) returns (root: Option<nat>)
    requires k.Valid()
    modifies k`mem, k`freelist, k`own
    ensures k.Valid() && k.Mapped() == old(k.Mapped())
    ensures root.None? ==> k.own == old(k.own) && k.own.free == []
    ensures root.Some? ==>
      && old(k.own.free) != [] && root.value == old(k.own.free)[0]
      && k.own == RootedAt(Taken(old(k.own)), root.value)
      && forall key <- k.Mapped() :: key.root != root.value
  {
    hide PoolShape, TableShape, Tree, MappingOf, PagePtr, PageOf, KPA2PA, Ptr;
    var kpa := k.Kmalloc();
    if kpa.None? {
      return None;
    }
    ghost var p := old(k.own.free)[0];
    PageOfPtr(p);
    var page := PageOf(kpa.value);
    ghost var m1 := k.mem;
    k.MemsetPage(page);
    Recleared(old(k.mem), p);
    assert k.mem == m1;
    RootIsEmpty(old(k.mem), p);
    RootedShape(k.own, p);
    RootedTree(k.mem, k.own, p);
    RootedMapping(k.mem, k.own, p);
    k.own := RootedAt(k.own, p);
    return Some(page);
  }

  lemma Recleared(m: Memory, p: nat)
    requires RamPage(p)
    ensures ZeroPage(ZeroPage(m, p), p) == ZeroPage(m, p)
  {
  }

  lemma RootIsEmpty(m: Memory, p: nat)
    requires RamPage(p)
    ensures forall i: nat :: i < 512 ==> Rd(ZeroPage(m, p), p, i) == 0
  {
  }

  ghost predicate RegionMapped(M: Mapping, root: nat, r: Region)
  {
    RangeMapped(M, root, r.va, r.flags, false, LinearTargets(r.pa, PageCount(r.size)))
  }

  predicate InRegion(k: Key, root: nat, r: Region) {
    k in RangeKeys(root, r.va, false, PageCount(r.size))
  }

  /** The root maps the first n regions, and nothing else. */
  ghost predicate TableOf(M: Mapping, root: nat, rs: seq<Region>, n: nat)
    requires n <= |rs|
  {
    && (forall i :: 0 <= i < n ==> RegionMapped(M, root, rs[i]))
    && (forall k <- M :: k.root == root ==> exists i :: 0 <= i < n && InRegion(k, root, rs[i]))
  }

  lemma TableOfStep(M: Mapping, M': Mapping, root: nat, rs: seq<Region>, n: nat)
    requires n < |rs|
    requires TableOf(M, root, rs, n) && Extends(M, M') && RegionMapped(M', root, rs[n])
    requires OnlyRange(M, M', root, rs[n].va, false, PageCount(rs[n].size))
    ensures TableOf(M', root, rs, n + 1)
  {
    hide RangeMapped, PageCount, RangeKeys;
    forall i | 0 <= i < n
      ensures RegionMapped(M', root, rs[i])
    {
      assert RegionMapped(M, root, rs[i]);
      ExtendsRange(M, M', root, rs[i].va, rs[i].flags, false, LinearTargets(rs[i].pa, PageCount(rs[i].size)));
    }
    forall k <- M' | k.root == root
      ensures exists i :: 0 <= i < n + 1 && InRegion(k, root, rs[i])
    {
      if k in M {
        var i :| 0 <= i < n && InRegion(k, root, rs[i]);
      } else {
        assert InRegion(k, root, rs[n]);
      }
    }
  }

  // ---- no collision ----

  /** Canonical addresses with the same index fields are in the same page. */
  lemma SamePage(root: nat, a: Word, b: Word)
    requires Canonical(a, false) && Canonical(b, false) && KeyOf(root, a, false) == KeyOf(root, b, false)
    ensures a / 4096 == b / 4096
  {
    hide Index;
    PlainSum(a);
    PlainSum(b);
    KeysMeet(root, a, b, false);
    CanonicalPages(a / 4096, b / 4096);
  }

  lemma CanonicalPages(p: nat, q: nat)
    requires p < 0x400_0000 || 0x10_0000_0000_0000 - 0x400_0000 <= p < 0x10_0000_0000_0000
    requires q < 0x400_0000 || 0x10_0000_0000_0000 - 0x400_0000 <= q < 0x10_0000_0000_0000
    requires (p - q) % 0x800_0000 == 0
    ensures p == q
  {
    var w := (p - q) / 0x800_0000;
    assert p - q == 0x800_0000 * w;
  }

  lemma AlignedSum(base: nat, j: nat)
    requires base % 4096 == 0
    ensures (base + j * 4096) % 4096 == 0 && (base + j * 4096) / 4096 == base / 4096 + j
  {
    ModUnique(base + j * 4096, 4096, base / 4096 + j, 0);
  }

  /** Page j of region i: its address does not wrap and is canonical. */
  lemma RegionPage(g: Image, nrCpus: nat, hart: nat, i: nat, j: nat)
    requires ImageOk(g, nrCpus) && hart < nrCpus && i < 13 && j < PageCount(RegionAt(g, nrCpus, hart, i).size)
    ensures var a := RegionAt(g, nrCpus, hart, i).va + j * 4096;
            && Lo(g, i) <= a && a + 4096 <= Hi(g, i) && a < WORD && Canonical(a, false) && Wrap(a) == a
            && a / 4096 == RegionAt(g, nrCpus, hart, i).va / 4096 + j && a % 4096 == 0
  {
    hide RegionAt, Lo, Hi, PageCount, ImageOk;
    RegionBounds(g, nrCpus, hart, i);
    BoundsCanonical(g, nrCpus, i);
    AlignedSum(RegionAt(g, nrCpus, hart, i).va, j);
  }

  /** Different pages of the regions have different keys. */
  lemma RegionKeysApart(g: Image, nrCpus: nat, hart: nat, root: nat, i: nat, j: nat, i': nat, j': nat)
    requires ImageOk(g, nrCpus) && hart < nrCpus && i < 13 && i' < 13 && (i, j) != (i', j')
    requires j < PageCount(RegionAt(g, nrCpus, hart, i).size) && j' < PageCount(RegionAt(g, nrCpus, hart, i').size)
    ensures KeyOf(root, Wrap(RegionAt(g, nrCpus, hart, i).va + j * 4096), false) !=
            KeyOf(root, Wrap(RegionAt(g, nrCpus, hart, i').va + j' * 4096), false)
  {
    hide RegionAt, Lo, Hi, PageCount, ImageOk, KeyOf, Wrap, Canonical;
    RegionPage(g, nrCpus, hart, i, j);
    RegionPage(g, nrCpus, hart, i', j');
    var a := RegionAt(g, nrCpus, hart, i).va + j * 4096;
    var b := RegionAt(g, nrCpus, hart, i').va + j' * 4096;
    if i != i' {
      BoundsApart(g, nrCpus, i, i');
    }
    if KeyOf(root, a, false) == KeyOf(root, b, false) {
      SamePage(root, a, b);
    }
  }

  /** The next region meets nothing that the earlier calls have mapped. */
  lemma RegionFresh(M: Mapping, root: nat, g: Image, nrCpus: nat, hart: nat, n: nat)
    requires ImageOk(g, nrCpus) && hart < nrCpus && n < 13
    requires TableOf(M, root, AllRegions(g, nrCpus, hart), n)
    ensures var r := RegionAt(g, nrCpus, hart, n);
            FreshKeys(M, RangeKeys(root, r.va, false, PageCount(r.size)))
  {
    hide RegionAt, PageCount, ImageOk, KeyOf, Wrap, RangeKeys, RegionMapped;
    var r := RegionAt(g, nrCpus, hart, n);
    var ks := RangeKeys(root, r.va, false, PageCount(r.size));
    forall j: nat | j < |ks|
      ensures ks[j] == KeyOf(root, Wrap(r.va + j * 4096), false) && ks[j] !in M
    {
      RangeKeysAt(root, r.va, false, |ks|, j);
      KeyUnused(M, root, g, nrCpus, hart, n, j);
    }
    forall i, j | 0 <= i < j < |ks|
      ensures ks[i] != ks[j]
    {
      RegionKeysApart(g, nrCpus, hart, root, n, i, n, j);
    }
  }

  lemma KeyUnused(M: Mapping, root: nat, g: Image, nrCpus: nat, hart: nat, n: nat, j: nat)
    requires ImageOk(g, nrCpus) && hart < nrCpus && n < 13 && j < PageCount(RegionAt(g, nrCpus, hart, n).size)
    requires TableOf(M, root, AllRegions(g, nrCpus, hart), n)
    ensures KeyOf(root, Wrap(RegionAt(g, nrCpus, hart, n).va + j * 4096), false) !in M
  {
    hide RegionAt, PageCount, ImageOk, KeyOf, Wrap, RangeKeys, RegionMapped;
    var key := KeyOf(root, Wrap(RegionAt(g, nrCpus, hart, n).va + j * 4096), false);
    KeyRootOf(root, Wrap(RegionAt(g, nrCpus, hart, n).va + j * 4096), false);
    if key in M {
      var i :| 0 <= i < n && InRegion(key, root, AllRegions(g, nrCpus, hart)[i]);
      var r := RegionAt(g, nrCpus, hart, i);
      var ks := RangeKeys(root, r.va, false, PageCount(r.size));
      var l :| 0 <= l < |ks| && ks[l] == key;
      RangeKeysAt(root, r.va, false, |ks|, l);
      RegionKeysApart(g, nrCpus, hart, root, n, j, i, l);
    }
  }

  /** init_vmem. False stands for its panics, and the only reason for one is an exhausted
  allocator: the regions never collide. */
  method InitVmem(k: Kmem, g: Image, nrCpus: nat, hart: nat) returns (done: bool, root: nat)
    requires k.Valid() && ImageOk(g, nrCpus) && hart < nrCpus
    modifies k`mem, k`freelist, k`own
    ensures k.Valid() && k.own.pool == old(k.own.pool) && Extends(old(k.Mapped()), k.Mapped())
    ensures !done ==> k.own.free == []
    ensures done ==> root in k.own.tables && k.own.tables[root] == Root(false)
    ensures done ==> TableOf(k.Mapped(), root, AllRegions(g, nrCpus, hart), 13)
  {
    hide PoolShape, TableShape, Tree, FreeList, MappingOf, RegionAt, ImageOk, PageCount, RangeKeys, RangeMapped,
         OnlyRange, LinearTargets, FreshKeys;
    ghost var M := k.Mapped();
    var r := NewRoot(k);
    if r.None? {
      return false, 0;
    }
    root := r.value;
    var rs := AllRegions(g, nrCpus, hart);
    var n := 0;
    while n < |rs|
      invariant 0 <= n <= |rs|
      invariant k.Valid() && k.own.pool == old(k.own.pool) && Extends(M, k.Mapped())
      invariant root in k.own.tables && k.own.tables[root] == Root(false)
      invariant TableOf(k.Mapped(), root, rs, n)
    {
      ghost var M1 := k.Mapped();
      ghost var pages;
      RegionFresh(M1, root, g, nrCpus, hart, n);
      RegionBounds(g, nrCpus, hart, n);
      done, pages := MapRegion(k, root, rs[n].va, rs[n].pa, rs[n].size, rs[n].flags, false);
      ExtendsThen(M, M1, k.Mapped());
      if !done {
        return;
      }
      TableOfStep(M1, k.Mapped(), root, rs, n);
      n := n + 1;
    }
    done := true;
  }
}
