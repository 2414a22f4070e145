/** Virtual memory (vmem.c): walking, extending and reading three-level Sv39 and Sv39x4
tables whose pages come from the allocator. */
module Vmem {
  import opened Wrappers
  import opened Bits
  import opened Layout
  import opened Tables
  import opened Kmem
  import opened Mappings

  /** Index field of an address at a level: bits 12..20, 21..29 and 30..38 (30..40 for an
  Sv39x4 root). */
  function Index(va: Word, level: nat, x4: bool): (i: nat)
    ensures i < if level >= 2 && x4 then 2048 else 512
  {
    if level == 0 then va / 0x1000 % 512
    else if level == 1 then va / 0x20_0000 % 512
    else va / 0x4000_0000 % (if x4 then 2048 else 512)
  }

  function KeyOf(root: nat, va: Word, x4: bool): Key {
    Key(root, Index(va, 2, x4), Index(va, 1, x4), Index(va, 0, x4))
  }

  method Va2idx(va: Word, level: nat, x4: bool) returns (i: nat)
    requires level <= 2
    ensures i == Index(va, level, x4)
  {
    Pow2Values();
    if level == 2 && x4 {
      i := GetValue(va, level * 9 + 12, 11);
    } else {
      i := GetValue(va, level * 9 + 12, 9);
    }
  }

  /** The macro chain from a table entry to the next table, and from a fresh page to the
  entry naming it, are the plain page-number field. */
  lemma EntryMacros(c: nat)
    requires RamPage(c)
    ensures TableEntry(c) < WORD
    ensures Or(PA2PTE(KPA2PA(PagePtr(c))), PTE_V) == TableEntry(c)
    ensures PTE2PA(TableEntry(c)) == c * 4096 && PA2KPA(c * 4096) == PagePtr(c)
  {
    hide Or, KPA2PA, PA2KPA, PagePtr;
    PageOfPtr(c);
    OrOdd(c * 512, 0);
    ModUnique(c * 4096, 4096, c, 0);
    ModUnique(c * 1024 + 1, 1024, c, 1);
  }

  datatype WalkResult = Slot(table: nat, idx: nat) | NoTable | NoPage

  /** Ownership changes that mapping may cause: free pages are used up, tables are added. */
  ghost predicate Grown(o: Own, o': Own) {
    && o'.pool == o.pool
    && (forall t <- o.tables :: t in o'.tables && o'.tables[t] == o.tables[t])
    && (forall t <- o'.tables :: t in o.tables || t in o.pool)
    && (forall p <- o'.free :: p in o.free)
  }

  /** What walk may do to the allocator's world: use up free pages for tables. */
  twostate predicate OnlyTables(k: Kmem)
    reads k
  {
    && Grown(old(k.own), k.own)
    && k.own.frames == old(k.own.frames)
    && k.Mapped() == old(k.Mapped())
  }

  /** walk. With `alloc` it creates missing tables; without, it only reads. */
  method Walk(k: Kmem, root: nat, va: Word, alloc: bool, x4: bool) returns (r: WalkResult)
    requires k.Valid() && root in k.own.tables && k.own.tables[root] == Root(x4)
    modifies k`mem, k`freelist, k`own
    ensures k.Valid() && OnlyTables(k)
    ensures !alloc ==> k.mem == old(k.mem) && k.freelist == old(k.freelist) && k.own == old(k.own)
    ensures r.Slot? ==> LeafTable(k.mem, KeyOf(root, va, x4)) == Some(r.table) && r.idx == KeyOf(root, va, x4).i0
    ensures r.NoTable? ==> !alloc && LeafTable(k.mem, KeyOf(root, va, x4)) == None
    ensures r.NoPage? ==> alloc && k.own.free == []
  {
    var i2 := Va2idx(va, 2, x4);
    var i1 := Va2idx(va, 1, x4);
    var i0 := Va2idx(va, 0, x4);
    r := WalkLevels(k, Key(root, i2, i1, i0), alloc);
  }

  /** The loop of walk, over the index fields of the address. */
  method WalkLevels(k: Kmem, key: Key, alloc: bool) returns (r: WalkResult)
    requires k.Valid() && IsKey(k.own.tables, key)
    modifies k`mem, k`freelist, k`own
    ensures k.Valid() && OnlyTables(k)
    ensures !alloc ==> k.mem == old(k.mem) && k.freelist == old(k.freelist) && k.own == old(k.own)
    ensures r.Slot? ==> LeafTable(k.mem, key) == Some(r.table) && r.idx == key.i0
    ensures r.NoTable? ==> !alloc && LeafTable(k.mem, key) == None
    ensures r.NoPage? ==> alloc && k.own.free == []
  {
    hide PoolShape, TableShape, FreeList, MappingOf;
    var t := key.root;
    var level := 2;
    while level > 0
      invariant 0 <= level <= 2
      invariant k.Valid() && OnlyTables(k)
      invariant !alloc ==> k.mem == old(k.mem) && k.freelist == old(k.freelist) && k.own == old(k.own)
      invariant t in k.own.tables && Level(k.own.tables[t]) == level
      invariant IsKey(k.own.tables, key)
      invariant level == 2 ==> t == key.root
      invariant level == 1 ==> Child(k.mem, key.root, key.i2) == Some(t)
      invariant level == 0 ==> LeafTable(k.mem, key) == Some(t)
    {
      var i := if level == 2 then key.i2 else key.i1;
      assert IsSlot(k.own.tables, key.root, key.i2);
      var next := WalkLevel(k, t, i, alloc);
      if next.None? {
        return if alloc then NoPage else NoTable;
      }
      t := next.value;
      level := level - 1;
    }
    return Slot(t, key.i0);
  }

  /** One level of walk: the table behind slot (t, i), which is created if need be. */
  method WalkLevel(k: Kmem, t: nat, i: nat, alloc: bool) returns (next: Option<nat>)
    requires k.Valid() && IsSlot(k.own.tables, t, i) && Level(k.own.tables[t]) >= 1
    modifies k`mem, k`freelist, k`own
    ensures k.Valid() && OnlyTables(k)
    ensures !alloc || next.None? ==> k.mem == old(k.mem) && k.freelist == old(k.freelist) && k.own == old(k.own)
    ensures next.None? ==> Child(k.mem, t, i).None? && (alloc ==> k.own.free == [])
    ensures next.Some? ==>
      && Child(k.mem, t, i) == next
      && next.value in k.own.tables && Level(k.own.tables[next.value]) == Level(k.own.tables[t]) - 1
      && KeptExcept(old(k.mem), k.mem, old(k.own.tables), t, i)
  {
    var e := Rd(k.mem, t, i);
    AndOne(e);
    if And(e, PTE_V) != 0 {
      assert EntryOk(k.mem, k.own.tables, t, i);
      EntryMacros(e / 1024);
      PageOfPtr(e / 1024);
      return Some(PageOf(PA2KPA(PTE2PA(e))));
    }
    if !alloc {
      return None;
    }
    next := NewTable(k, t, i);
  }

  /** The allocating branch of walk: a cleared page, entered into the empty slot (t, i). */
  method NewTable(k: Kmem, t: nat, i: nat) returns (page: Option<nat>)
    requires k.Valid() && IsSlot(k.own.tables, t, i) && Level(k.own.tables[t]) >= 1
    requires Rd(k.mem, t, i) % 2 == 0
    modifies k`mem, k`freelist, k`own
    ensures k.Valid() && OnlyTables(k)
    ensures page.None? ==> k.mem == old(k.mem) && k.freelist == old(k.freelist) && k.own == old(k.own)
    ensures page.None? ==> k.own.free == []
    ensures page.Some? ==>
      && page.value in k.own.tables && Level(k.own.tables[page.value]) == Level(k.own.tables[t]) - 1
      && Child(k.mem, t, i) == Some(page.value)
      && KeptExcept(old(k.mem), k.mem, old(k.own.tables), t, i)
  {
    hide ZeroPage, Tree, TableShape, MappingOf, PageOf, Extended, KPA2PA;
    ghost var o := k.own;
    var kpa := k.Kmalloc();
    if kpa.None? {
      return None;
    }
    ghost var c := o.free[0];
    ClearOutside(old(k.mem), o, c);
    ghost var m1 := k.mem;
    PageOfPtr(c);
    EnterTable(k, t, i, kpa.value, c);
    TakenExtended(o, t, i, c);
    KeptLater(old(k.mem), m1, k.mem, o.tables, t, i);
    return Some(PageOf(kpa.value));
  }

  /** A free page becomes a table: all that changes hands. */
  lemma TakenExtended(o: Own, t: nat, i: nat, c: nat)
    requires PoolShape(o) && o.free != [] && c == o.free[0] && t in o.tables && Level(o.tables[t]) >= 1
    ensures var o' := Extended(Taken(o), t, i, c);
            && Grown(o, o') && o'.frames == o.frames
            && c in o'.tables && t in o'.tables && Level(o'.tables[c]) == Level(o'.tables[t]) - 1
  {
  }

  /** memset of the new page, then the write of the entry that names it. */
  method EnterTable(k: Kmem, t: nat, i: nat, kpa: Word, ghost c: nat)
    requires k.Valid() && IsSlot(k.own.tables, t, i) && Level(k.own.tables[t]) >= 1
    requires Rd(k.mem, t, i) % 2 == 0 && c in k.own.frames && kpa == PagePtr(c)
    modifies k`mem, k`own
    ensures k.Valid() && k.own == Extended(old(k.own), t, i, c) && k.Mapped() == old(k.Mapped())
    ensures Child(k.mem, t, i) == Some(c) && KeptExcept(old(k.mem), k.mem, old(k.own.tables), t, i)
  {
    PageOfPtr(c);
    EntryMacros(c);
    ExtendWorld(k.mem, k.freelist, k.own, t, i, c);
    k.MemsetPage(PageOf(kpa));
    k.mem := Wr(k.mem, t, i, Or(PA2PTE(KPA2PA(kpa)), PTE_V));
    k.own := Extended(k.own, t, i, c);
  }

  lemma KeptLater(m: Memory, m1: Memory, m2: Memory, tables: map<nat, Kind>, t: nat, i: nat)
    requires SameSlots(m, m1, tables) && KeptExcept(m1, m2, tables, t, i)
    ensures KeptExcept(m, m2, tables, t, i)
  {
  }

  /** A page hung into an empty slot: every invariant and every translation is kept. */
  lemma ExtendWorld(m: Memory, head: Word, o: Own, t: nat, i: nat, c: nat)
    requires Inv(m, head, o)
    requires IsSlot(o.tables, t, i) && Level(o.tables[t]) >= 1 && c in o.frames
    requires Rd(m, t, i) % 2 == 0 && TableEntry(c) < WORD
    ensures t * 512 + i < WORDS
    ensures var m', o' := Wr(ZeroPage(m, c), t, i, TableEntry(c)), Extended(o, t, i, c);
            Inv(m', head, o') && ExtendedMemory(m, m', o.tables, t, i, c) &&
            MappingOf(m', o'.tables) == MappingOf(m, o.tables)
  {
    SlotInMemory(o, t, i);
    var m' := Wr(ZeroPage(m, c), t, i, TableEntry(c));
    ExtendReads(m, o, t, i, c);
    ExtendTree(m, m', o, t, i, c);
    ExtendMapping(m, m', o, t, i, c);
    ExtendShape(o, t, i, c);
    ExtendFreeList(m, head, o, t, i, c);
  }

  lemma ExtendFreeList(m: Memory, head: Word, o: Own, t: nat, i: nat, c: nat)
    requires Shape(o) && IsSlot(o.tables, t, i) && c in o.frames && t * 512 + i < WORDS
    requires TableEntry(c) < WORD && FreeList(m, head, o.free)
    ensures FreeList(Wr(ZeroPage(m, c), t, i, TableEntry(c)), head, o.free)
  {
    var m' := Wr(ZeroPage(m, c), t, i, TableEntry(c));
    forall k | 0 <= k < |o.free|
      ensures Rd(m', o.free[k], 0) == Rd(m, o.free[k], 0)
    {
      ExtendOutside(m, o, t, i, c, o.free[k], 0);
    }
    FreeListKept(m, m', head, o.free);
  }

  lemma ExtendOutside(m: Memory, o: Own, t: nat, i: nat, c: nat, p: nat, j: nat)
    requires TableShape(o) && IsSlot(o.tables, t, i) && RamPage(c) && t * 512 + i < WORDS
    requires TableEntry(c) < WORD && p !in o.tables && p != c && j < 512
    ensures Rd(Wr(ZeroPage(m, c), t, i, TableEntry(c)), p, j) == Rd(m, p, j)
  {
    SlotApart(o, t, i, p);
    RdWr(ZeroPage(m, c), t, i, TableEntry(c), p, j);
    RdZero(m, c, p, j);
  }

  // ---- mapping pages ----

  datatype MapResult = Done | Remap | NullClear

  /** map_page. `Remap` is the panic on an occupied leaf, `NullClear` the exhausted allocator. */
  method MapPage(k: Kmem, root: nat, va: Word, pa: Word, flags: Word, x4: bool) returns (r: MapResult)
    requires k.Valid() && root in k.own.tables && k.own.tables[root] == Root(x4)
    modifies k`mem, k`freelist, k`own
    ensures k.Valid() && Grown(old(k.own), k.own) && k.own.frames == old(k.own.frames)
    ensures r.Done? ==> KeyOf(root, va, x4) !in old(k.Mapped())
    ensures r.Done? ==> k.Mapped() == old(k.Mapped())[KeyOf(root, va, x4) := LeafEntry(pa, flags)]
    ensures !r.Done? ==> k.Mapped() == old(k.Mapped())
    ensures r.Remap? ==> KeyOf(root, va, x4) in k.Mapped()
    ensures r.NullClear? ==> k.own.free == []
  {
    hide Index, LeafEntry, PoolShape, TableShape, Tree, FreeList;
    var leaf := Walk(k, root, va, true, x4);
    if leaf.NoPage? {
      return NullClear;
    }
    var e := Rd(k.mem, leaf.table, leaf.idx);
    AndOne(e);
    if And(e, PTE_V) != 0 {
      return Remap;
    }
    var entry := MakeLeaf(pa, flags);
    WriteLeaf(k, KeyOf(root, va, x4), leaf.table, entry);
    return Done;
  }

  method MakeLeaf(pa: Word, flags: Word) returns (e: Word)
    ensures e == LeafEntry(pa, flags)
  {
    LeafEntryPacks(pa, flags);
    e := Or(Or(PA2PTE(pa), flags), PTE_V);
  }

  /** The store into the leaf slot. */
  method WriteLeaf(k: Kmem, key: Key, t: nat, e: Word)
    requires k.Valid() && IsKey(k.own.tables, key) && LeafTable(k.mem, key) == Some(t) && e % 2 == 1
    modifies k`mem
    ensures k.Valid() && k.Mapped() == old(k.Mapped())[key := e]
  {
    Path(k.mem, k.own.tables, key);
    assert IsSlot(k.own.tables, t, key.i0);
    SlotInMemory(k.own, t, key.i0);
    WriteSlot(k.mem, k.own, t, key.i0, e);
    k.mem := Wr(k.mem, t, key.i0, e);
    LeafWriteTree(old(k.mem), k.mem, k.own, t, key.i0, e);
    LeafWriteMapping(old(k.mem), k.mem, k.own.tables, key, t, e);
    SlotFreeList(old(k.mem), k.freelist, k.own, t, key.i0, e);
  }

  lemma SlotFreeList(m: Memory, head: Word, o: Own, t: nat, i: nat, e: Word)
    requires Shape(o) && IsSlot(o.tables, t, i) && t * 512 + i < WORDS && FreeList(m, head, o.free)
    ensures FreeList(Wr(m, t, i, e), head, o.free)
  {
    forall j | 0 <= j < |o.free|
      ensures Rd(Wr(m, t, i, e), o.free[j], 0) == Rd(m, o.free[j], 0)
    {
      SlotApart(o, t, i, o.free[j]);
      RdWr(m, t, i, e, o.free[j], 0);
    }
    FreeListKept(m, Wr(m, t, i, e), head, o.free);
  }

  /** Keys of n consecutive pages from `va` on. */
  function RangeKeys(root: nat, va: Word, x4: bool, n: nat): (ks: seq<Key>)
    ensures |ks| == n
  {
    if n == 0 then [] else RangeKeys(root, va, x4, n - 1) + [KeyOf(root, Wrap(va + (n - 1) * 4096), x4)]
  }

  lemma {:induction false} RangeKeysAt(root: nat, va: Word, x4: bool, n: nat, j: nat)
    requires j < n
    ensures RangeKeys(root, va, x4, n)[j] == KeyOf(root, Wrap(va + j * 4096), x4)
  {
    if j < n - 1 {
      RangeKeysAt(root, va, x4, n - 1, j);
    }
  }

  function Entries(targets: seq<Word>, flags: Word): (es: seq<Word>)
    ensures |es| == |targets|
    ensures forall j :: 0 <= j < |es| ==> es[j] == LeafEntry(targets[j], flags)
  {
    if targets == [] then []
    else Entries(targets[..|targets| - 1], flags) + [LeafEntry(targets[|targets| - 1], flags)]
  }

  /** Frames taken from the free list, each used once. */
  ghost predicate Granted(o: Own, o': Own, pages: seq<nat>) {
    && (forall i :: 0 <= i < |pages| ==> pages[i] in o.free && pages[i] in o'.frames)
    && (forall i, j :: 0 <= i < j < |pages| ==> pages[i] != pages[j])
  }

  /** All the frames that one call allocated. */
  ghost predicate Allocated(o: Own, o': Own, pages: seq<nat>) {
    && Granted(o, o', pages)
    && (forall p <- o'.frames :: p in o.frames || p in pages)
    && o.frames <= o'.frames
  }

  /** Physical address given to page j: consecutive from `pa`, or the j-th allocated frame. */
  predicate TargetsOk(pa: Word, targets: seq<Word>, pages: seq<nat>) {
    if pa != 0 then pages == [] && forall j :: 0 <= j < |targets| ==> targets[j] == Wrap(pa + j * 4096)
    else |targets| <= |pages| <= |targets| + 1 && forall j :: 0 <= j < |targets| ==> targets[j] == pages[j] * 4096
  }

  /** What map_pages has achieved after mapping the first |targets| pages of a range, from
  ownership `o` and mapping `M`: exactly those pages were added, all unmapped before. */
  ghost predicate Progress(o: Own, M: Mapping, o': Own, M': Mapping, root: nat, va: Word, pa: Word,
                           flags: Word, x4: bool, targets: seq<Word>, pages: seq<nat>)
  {
    && Grown(o, o') && Allocated(o, o', pages) && TargetsOk(pa, targets, pages)
    && FreshKeys(M, RangeKeys(root, va, x4, |targets|))
    && M' == MapSeq(M, RangeKeys(root, va, x4, |targets|), Entries(targets, flags))
  }

  /** map_pages. Whatever the outcome, the mapping has gained exactly the first |targets|
  pages of the range, all unmapped before; `Done` means all of them, `Remap` that the
  next page was already mapped, `NullClear` that the allocator ran dry. */
  method MapPages(k: Kmem, root: nat, va: Word, pa: Word, size: Word, flags: Word, x4: bool)
    returns (r: MapResult, ghost targets: seq<Word>, ghost pages: seq<nat>)
    requires k.Valid() && root in k.own.tables && k.own.tables[root] == Root(x4)
    modifies k`mem, k`freelist, k`own
    ensures k.Valid()
    ensures Progress(old(k.own), old(k.Mapped()), k.own, k.Mapped(), root, va, pa, flags, x4, targets, pages)
    ensures |targets| <= PageCount(size)
    ensures r.Done? <==> |targets| == PageCount(size)
    ensures r.Done? && pa == 0 ==> |pages| == |targets|
    ensures r.Remap? ==> KeyOf(root, Wrap(va + |targets| * 4096), x4) in k.Mapped()
    ensures r.NullClear? ==> k.own.free == []
  {
    hide *;
    RoundedUp(size);
    var end := PGROUNDUP(size);
    ghost var n := PageCount(size);
    ghost var o, M := k.own, k.Mapped();
    RangeStart(o, M, root, va, pa, flags, x4);
    targets, pages := [], [];
    var i := 0;
    while i < end
      invariant i == |targets| * 4096 && |targets| <= n
      invariant k.Valid() && root in k.own.tables && k.own.tables[root] == Root(x4)
      invariant Progress(o, M, k.own, k.Mapped(), root, va, pa, flags, x4, targets, pages)
      invariant pa == 0 ==> |pages| == |targets|
    {
      r, targets, pages := MapRound(k, root, va, pa, i, flags, x4, o, M, targets, pages);
      if !r.Done? {
        return;
      }
      i := i + 4096;
    }
    r := Done;
  }

  /** One round of map_pages: the target is the next linear address or a new frame. */
  method MapRound(k: Kmem, root: nat, va: Word, pa: Word, i: nat, flags: Word, x4: bool,
                  ghost o: Own, ghost M: Mapping, ghost targets: seq<Word>, ghost pages: seq<nat>)
    returns (r: MapResult, ghost targets': seq<Word>, ghost pages': seq<nat>)
    requires k.Valid() && root in k.own.tables && k.own.tables[root] == Root(x4)
    requires i == |targets| * 4096 && (pa == 0 ==> |pages| == |targets|)
    requires Progress(o, M, k.own, k.Mapped(), root, va, pa, flags, x4, targets, pages)
    modifies k`mem, k`freelist, k`own
    ensures k.Valid() && root in k.own.tables && k.own.tables[root] == Root(x4)
    ensures Progress(o, M, k.own, k.Mapped(), root, va, pa, flags, x4, targets', pages')
    ensures r.Done? ==> |targets'| == |targets| + 1 && (pa == 0 ==> |pages'| == |targets'|)
    ensures !r.Done? ==> targets' == targets
    ensures r.Remap? ==> KeyOf(root, Wrap(va + |targets| * 4096), x4) in k.Mapped()
    ensures r.NullClear? ==> k.own.free == []
  {
    hide KeyOf, Wrap, LeafEntry, PoolShape, TableShape, Tree, FreeList, MappingOf, TargetsOk, Allocated, FreshKeys,
         RangeKeys, Entries, MapSeq;
    ghost var o1, M1 := k.own, k.Mapped();
    var target;
    ghost var page;
    r, target, page := MapNext(k, root, va, pa, i, |targets|, flags, x4);
    targets' := if r.Done? then targets + [target] else targets;
    pages' := if page.Some? then pages + [page.value] else pages;
    ProgressStep(o, M, o1, M1, k.own, k.Mapped(), root, va, pa, flags, x4, targets, pages, target, page, r.Done?);
  }

  lemma ProgressStep(o: Own, M: Mapping, o1: Own, M1: Mapping, o2: Own, M2: Mapping, root: nat, va: Word, pa: Word,
                     flags: Word, x4: bool, targets: seq<Word>, pages: seq<nat>, target: Word, page: Option<nat>,
                         done: bool)
    requires Shape(o1)
    requires Progress(o, M, o1, M1, root, va, pa, flags, x4, targets, pages)
    requires pa == 0 ==> |pages| == |targets|
    requires Grown(o1, o2)
    requires page.None? ==> o2.frames == o1.frames && (pa == 0 ==> !done)
    requires page.Some? ==> page.value in o1.free && o2.frames == o1.frames + {page.value}
    requires if pa != 0 then page.None? && target == Wrap(pa + |targets| * 4096)
             else page.Some? ==> target == page.value * 4096
    requires !done ==> M2 == M1
    requires var key := KeyOf(root, Wrap(va + |targets| * 4096), x4);
             done ==> key !in M1 && M2 == M1[key := LeafEntry(target, flags)]
    ensures Progress(o, M, o2, M2, root, va, pa, flags, x4, if done then targets + [target] else targets,
                     if page.Some? then pages + [page.value] else pages)
  {
    hide MapSeq, FreshKeys, RangeKeys, Entries, KeyOf, Wrap, LeafEntry, TargetsOk, Allocated;
    AllocatedStep(o, o1, o2, pages, page);
    TargetsStep(pa, targets, pages, target, page);
    if done {
      RangeStep(M, root, va, x4, targets, target, flags);
    }
  }

  lemma TargetsStep(pa: Word, targets: seq<Word>, pages: seq<nat>, target: Word, page: Option<nat>)
    requires TargetsOk(pa, targets, pages) && (pa == 0 ==> |pages| == |targets|)
    requires if pa != 0 then page.None? && target == Wrap(pa + |targets| * 4096)
             else page.Some? ==> target == page.value * 4096
    ensures TargetsOk(pa, targets, if page.Some? then pages + [page.value] else pages)
    ensures pa != 0 || page.Some? ==>
              TargetsOk(pa, targets + [target], if page.Some? then pages + [page.value] else pages)
  {
  }

  /** Number of pages that map_pages maps for a size. */
  function PageCount(size: Word): nat {
    PGROUNDUP(size) / 4096
  }

  lemma RoundedUp(size: Word)
    ensures PGROUNDUP(size) == PageCount(size) * 4096
  {
    var s := Wrap(size + PAGE_SIZE - 1);
    ModUnique(s - s % 4096, 4096, s / 4096, 0);
  }

  lemma RangeStart(o: Own, M: Mapping, root: nat, va: Word, pa: Word, flags: Word, x4: bool)
    ensures Progress(o, M, o, M, root, va, pa, flags, x4, [], [])
  {
  }

  lemma RangeStep(M: Mapping, root: nat, va: Word, x4: bool, targets: seq<Word>, target: Word, flags: Word)
    requires FreshKeys(M, RangeKeys(root, va, x4, |targets|))
    requires KeyOf(root, Wrap(va + |targets| * 4096), x4) !in MapSeq(M, RangeKeys(root, va, x4, |targets|),
            Entries(targets, flags))
    ensures FreshKeys(M, RangeKeys(root, va, x4, |targets| + 1))
    ensures MapSeq(M, RangeKeys(root, va, x4, |targets| + 1), Entries(targets + [target], flags)) ==
            MapSeq(M, RangeKeys(root, va, x4, |targets|), Entries(targets, flags))
              [KeyOf(root, Wrap(va + |targets| * 4096), x4) := LeafEntry(target, flags)]
  {
    assert (targets + [target])[..|targets|] == targets;
    MapSeqStep(M, RangeKeys(root, va, x4, |targets|), Entries(targets, flags),
               KeyOf(root, Wrap(va + |targets| * 4096), x4), LeafEntry(target, flags));
  }

  lemma AllocatedStep(o0: Own, o1: Own, o2: Own, pages: seq<nat>, page: Option<nat>)
    requires Shape(o1) && Grown(o0, o1) && Allocated(o0, o1, pages)
    requires page.None? ==> o2.frames == o1.frames
    requires page.Some? ==> page.value in o1.free && o2.frames == o1.frames + {page.value}
    ensures Allocated(o0, o2, if page.Some? then pages + [page.value] else pages)
  {
    if page.Some? {
      assert page.value !in pages;
    }
  }

  /** Chooses the target of one page and maps it. */
  method MapNext(k: Kmem, root: nat, va: Word, pa: Word, i: nat, ghost j: nat, flags: Word, x4: bool)
    returns (r: MapResult, target: Word, ghost page: Option<nat>)
    requires k.Valid() && root in k.own.tables && k.own.tables[root] == Root(x4)
    requires i == j * 4096
    modifies k`mem, k`freelist, k`own
    ensures k.Valid() && Grown(old(k.own), k.own)
    ensures r.Done? ==>
      && KeyOf(root, Wrap(va + j * 4096), x4) !in old(k.Mapped())
      && k.Mapped() == old(k.Mapped())[KeyOf(root, Wrap(va + j * 4096), x4) := LeafEntry(target, flags)]
    ensures !r.Done? ==> k.Mapped() == old(k.Mapped())
    ensures r.Remap? ==> KeyOf(root, Wrap(va + j * 4096), x4) in k.Mapped()
    ensures r.NullClear? ==> k.own.free == []
    ensures pa != 0 ==> page.None? && target == Wrap(pa + j * 4096)
    ensures page.None? ==> k.own.frames == old(k.own.frames) && (pa == 0 ==> r.NullClear?)
    ensures page.Some? ==>
      page.value in old(k.own.free) && k.own.frames == old(k.own.frames) + {page.value}
      && target == page.value * 4096
  {
    hide KeyOf, Wrap, LeafEntry, Inv, MappingOf;
    r, target, page := MapTarget(k, root, Wrap(va + i), if pa == 0 then None else Some(Wrap(pa + i)), flags, x4);
  }

  /** Maps one page to a given address, or to a new frame. */
  method MapTarget(k: Kmem, root: nat, va: Word, pa: Option<Word>, flags: Word, x4: bool)
    returns (r: MapResult, target: Word, ghost page: Option<nat>)
    requires k.Valid() && root in k.own.tables && k.own.tables[root] == Root(x4)
    modifies k`mem, k`freelist, k`own
    ensures k.Valid() && Grown(old(k.own), k.own)
    ensures r.Done? ==>
      && KeyOf(root, va, x4) !in old(k.Mapped())
      && k.Mapped() == old(k.Mapped())[KeyOf(root, va, x4) := LeafEntry(target, flags)]
    ensures !r.Done? ==> k.Mapped() == old(k.Mapped())
    ensures r.Remap? ==> KeyOf(root, va, x4) in k.Mapped()
    ensures r.NullClear? ==> k.own.free == []
    ensures pa.Some? ==> page.None? && target == pa.value
    ensures page.None? ==> k.own.frames == old(k.own.frames) && (pa.None? ==> r.NullClear?)
    ensures page.Some? ==>
      page.value in old(k.own.free) && k.own.frames == old(k.own.frames) + {page.value}
      && target == page.value * 4096
  {
    hide KeyOf, LeafEntry, KPA2PA, PagePtr, PageOf, TableShape, Tree, FreeList, MappingOf;
    if pa.None? {
      var kpa := k.Kmalloc();
      if kpa.None? {
        return NullClear, 0, None;
      }
      page := Some(old(k.own.free)[0]);
      PageOfPtr(page.value);
      target := KPA2PA(kpa.value);
    } else {
      page := None;
      target := pa.value;
    }
    r := MapPage(k, root, va, target, flags, x4);
  }

  // ---- reading the tables ----

  /** What convert_va_to_pa computes: it panics (None) when an upper level is missing and
  does not look at the leaf's V bit. */
  function Translate(m: Memory, root: nat, va: Word, x4: bool): Option<nat> {
    match LeafTable(m, KeyOf(root, va, x4))
    case None => None
    case Some(t) => Some(Or(PTE2PA(Rd(m, t, Index(va, 0, x4))), va % 4096))
  }

  method ConvertVaToPa(k: Kmem, root: nat, va: Word, x4: bool) returns (pa: Option<nat>)
    requires k.Valid() && root in k.own.tables && k.own.tables[root] == Root(x4)
    modifies k`mem, k`freelist, k`own
    ensures k.mem == old(k.mem) && k.freelist == old(k.freelist) && k.own == old(k.own)
    ensures pa == Translate(k.mem, root, va, x4)
  {
    var leaf := Walk(k, root, va, false, x4);
    if leaf.NoTable? {
      return None;
    }
    var offset := PageOffset(va);
    return Some(Or(PTE2PA(Rd(k.mem, leaf.table, leaf.idx)), offset));
  }

  method PageOffset(va: Word) returns (offset: Word)
    ensures offset == va % 4096
  {
    Pow2Values();
    offset := GetValue(va, 0, 12);
  }
}
