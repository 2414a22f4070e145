/** Regions: what a call of map_pages contributes to a table that is built step by step. */
module Regions {
  import opened Bits
  import opened Layout
  import opened Tables
  import opened Kmem
  import opened Mappings
  import opened Vmem
  import opened Translation

  ghost predicate Extends(M: Mapping, M': Mapping) {
    forall k <- M :: k in M' && M'[k] == M[k]
  }

  lemma ExtendsThen(M: Mapping, M1: Mapping, M2: Mapping)
    requires Extends(M, M1) && Extends(M1, M2)
    ensures Extends(M, M2)
  {
  }

  lemma ExtendsRange(M: Mapping, M': Mapping, root: nat, va: Word, flags: Word, x4: bool, targets: seq<Word>)
    requires Extends(M, M') && RangeMapped(M, root, va, flags, x4, targets)
    ensures RangeMapped(M', root, va, flags, x4, targets)
  {
  }

  /** Nothing but the pages of the range is new. */
  ghost predicate OnlyRange(M: Mapping, M': Mapping, root: nat, va: Word, x4: bool, n: nat) {
    forall k <- M' :: k in M || k in RangeKeys(root, va, x4, n)
  }

  lemma ProgressExtends(o: Own, M: Mapping, o': Own, M': Mapping, root: nat, va: Word, pa: Word,
                        flags: Word, x4: bool, targets: seq<Word>, pages: seq<nat>)
    requires Progress(o, M, o', M', root, va, pa, flags, x4, targets, pages)
    ensures Extends(M, M') && RangeMapped(M', root, va, flags, x4, targets)
    ensures OnlyRange(M, M', root, va, x4, |targets|)
    ensures forall k <- M' :: k.root != root ==> k in M
  {
    hide KeyOf, LeafEntry, MapSeq, Wrap, Grown, Allocated, TargetsOk;
    var ks, es := RangeKeys(root, va, x4, |targets|), Entries(targets, flags);
    MapSeqLookup(M, ks, es);
    forall j | 0 <= j < |ks|
      ensures ks[j].root == root
    {
      RangeKeysAt(root, va, x4, |targets|, j);
      KeyRootOf(root, Wrap(va + j * 4096), x4);
    }
  }

  /** Consecutive physical pages. */
  function LinearTargets(pa: Word, n: nat): (s: seq<Word>)
    ensures |s| == n
    ensures forall j :: 0 <= j < n ==> s[j] == Wrap(pa + j * 4096)
  {
    if n == 0 then [] else LinearTargets(pa, n - 1) + [Wrap(pa + (n - 1) * 4096)]
  }

  /** Allocated frames. */
  function FrameTargets(pages: seq<nat>): (s: seq<Word>)
    requires forall p <- pages :: RamPage(p)
    ensures |s| == |pages|
    ensures forall j :: 0 <= j < |s| ==> s[j] == pages[j] * 4096
  {
    if pages == [] then []
    else
      assert pages[|pages| - 1] in pages && RamPage(pages[|pages| - 1]);
      var last: Word := pages[|pages| - 1] * 4096;
      FrameTargets(pages[..|pages| - 1]) + [last]
  }

  /** A mapping step on root r and what it may do to the rest of the world. For a root that
  is itself new, its own pages (r to r + 3) join the tables. */
  ghost predicate Built(o: Own, M: Mapping, o': Own, M': Mapping, r: nat) {
    && o'.pool == o.pool && o.frames <= o'.frames
    && (forall t <- o.tables :: t in o'.tables && o'.tables[t] == o.tables[t])
    && (forall t <- o'.tables :: t in o.tables || t in o.pool || r <= t <= r + 3)
    && (forall p <- o'.free :: p in o.free)
    && (forall p <- o'.frames :: p in o.frames || p in o.free)
    && Extends(M, M') && (forall k <- M' :: k.root != r ==> k in M)
  }

  lemma BuiltRefl(o: Own, M: Mapping, r: nat)
    ensures Built(o, M, o, M, r)
  {
  }

  lemma BuiltExtends(o: Own, M: Mapping, o': Own, M': Mapping, r: nat)
    requires Built(o, M, o', M', r)
    ensures Extends(M, M')
  {
  }

  lemma BuiltThen(o: Own, M: Mapping, o1: Own, M1: Mapping, o2: Own, M2: Mapping, r: nat)
    requires Built(o, M, o1, M1, r) && Built(o1, M1, o2, M2, r)
    ensures Built(o, M, o2, M2, r)
  {
  }

  lemma PagesAreRam(o: Own, o': Own, pages: seq<nat>)
    requires PoolShape(o) && Allocated(o, o', pages)
    ensures forall p <- pages :: RamPage(p)
    ensures forall p <- o'.frames :: p in o.frames || p in o.free
  {
  }

  /** A remap panic means that the range met a mapped page, or itself. */
  lemma RemapCollides(o: Own, M: Mapping, o': Own, M': Mapping, root: nat, va: Word, pa: Word,
                      flags: Word, x4: bool, targets: seq<Word>, pages: seq<nat>, n: nat)
    requires Progress(o, M, o', M', root, va, pa, flags, x4, targets, pages) && |targets| < n
    requires KeyOf(root, Wrap(va + |targets| * 4096), x4) in M'
    ensures !FreshKeys(M, RangeKeys(root, va, x4, n))
  {
    hide KeyOf, LeafEntry, MapSeq, Wrap, RangeKeys, Entries, Grown, Allocated, TargetsOk;
    var ks, done := RangeKeys(root, va, x4, n), RangeKeys(root, va, x4, |targets|);
    RangeKeysAt(root, va, x4, n, |targets|);
    forall j | 0 <= j < |targets|
      ensures done[j] == ks[j]
    {
      RangeKeysAt(root, va, x4, n, j);
      RangeKeysAt(root, va, x4, |targets|, j);
    }
    MapSeqLookup(M, done, Entries(targets, flags));
  }

  /** map_pages as the boot code uses it: anything but success stops the boot, and comes from an
  exhausted allocator or a range that meets mapped pages. */
  method MapRegion(k: Kmem, root: nat, va: Word, pa: Word, size: Word, flags: Word, x4: bool)
    returns (done: bool, ghost pages: seq<nat>)
    requires k.Valid() && root in k.own.tables && k.own.tables[root] == Root(x4)
    modifies k`mem, k`freelist, k`own
    ensures k.Valid() && root in k.own.tables && k.own.tables[root] == Root(x4)
    ensures Built(old(k.own), old(k.Mapped()), k.own, k.Mapped(), root)
    ensures Allocated(old(k.own), k.own, pages) && forall p <- pages :: RamPage(p)
    ensures !done ==> k.own.free == [] || !FreshKeys(old(k.Mapped()), RangeKeys(root, va, x4, PageCount(size)))
    ensures done ==> OnlyRange(old(k.Mapped()), k.Mapped(), root, va, x4, PageCount(size))
    ensures done && pa != 0 ==> RangeMapped(k.Mapped(), root, va, flags, x4, LinearTargets(pa, PageCount(size)))
    ensures done && pa == 0 ==>
              |pages| == PageCount(size) && RangeMapped(k.Mapped(), root, va, flags, x4, FrameTargets(pages))
  {
    hide MappingOf, Tree, FreeList, TableShape, KeyOf, LeafEntry, RangeMapped, MapSeq, FreshKeys, PageCount, Entries,
         RangeKeys, Wrap, OnlyRange;
    ghost var o, M := k.own, k.Mapped();
    var r;
    ghost var targets;
    r, targets, pages := MapPages(k, root, va, pa, size, flags, x4);
    ProgressExtends(o, M, k.own, k.Mapped(), root, va, pa, flags, x4, targets, pages);
    PagesAreRam(o, k.own, pages);
    done := r.Done?;
    if r.Remap? {
      RemapCollides(o, M, k.own, k.Mapped(), root, va, pa, flags, x4, targets, pages, PageCount(size));
    }
    if done {
      if pa != 0 {
        assert targets == LinearTargets(pa, PageCount(size));
      } else {
        assert targets == FrameTargets(pages);
      }
    }
  }
}
