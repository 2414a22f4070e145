/** Whole runs of the allocator and the mapping code over one memory, and what the kept
invariant means in plain terms. */
module KmemRuns {
  import opened Wrappers
  import opened Bits
  import opened Layout
  import opened Tables
  import opened Kmem
  import opened Mappings
  import opened Vmem
  import opened Regions
  import opened GuestMap
  import opened KernelMap

  // ---- what Valid() means ----

  /** The pointer found after following n links from the head of the list. */
  function Follow(m: Memory, head: Word, n: nat): Word {
    if n == 0 then head else Rd(m, PageOf(Follow(m, head, n - 1)), 0)
  }

  /** The links visit the free pages one by one and end in a null pointer: the list has no
  cycle. */
  lemma {:induction false} ListEnds(m: Memory, head: Word, free: seq<nat>, n: nat)
    requires FreeList(m, head, free) && n <= |free|
    ensures n < |free| ==> RamPage(free[n]) && Follow(m, head, n) == PagePtr(free[n])
    ensures n == |free| ==> Follow(m, head, n) == 0
  {
    hide PageOf;
    if n > 0 {
      ListEnds(m, head, free, n - 1);
      PageOfPtr(free[n - 1]);
    }
  }

  lemma ListDistinct(m: Memory, head: Word, o: Own, i: nat, j: nat)
    requires Inv(m, head, o) && i < j < |o.free|
    ensures Follow(m, head, i) != Follow(m, head, j)
  {
    hide TableShape, Tree, Follow;
    ListEnds(m, head, o.free, i);
    ListEnds(m, head, o.free, j);
  }

  /** A table that is not a root is referenced by one slot and by no other. */
  lemma OneSlot(m: Memory, o: Own, c: nat, t: nat, i: nat)
    requires Shape(o) && Tree(m, o.tables) && c in o.tables && o.tables[c].Table?
    requires IsSlot(o.tables, t, i) && Level(o.tables[t]) >= 1
    ensures Child(m, t, i) == Some(c) <==> t == o.tables[c].parent && i == o.tables[c].idx
  {
    assert HasParent(o.tables, c);
    assert EntryOk(m, o.tables, t, i);
  }

  function Elements(s: seq<nat>): (r: set<nat>)
    ensures forall p :: p in r <==> p in s
  {
    if s == [] then {} else Elements(s[..|s| - 1]) + {s[|s| - 1]}
  }

  lemma {:induction false} DistinctSize(s: seq<nat>)
    requires forall i, j :: 0 <= i < j < |s| ==> s[i] != s[j]
    ensures |Elements(s)| == |s|
  {
    if s != [] {
      DistinctSize(s[..|s| - 1]);
    }
  }

  /** Pool pages that serve as tables. */
  function PoolTables(o: Own): set<nat> {
    set p | p in o.pool && p in o.tables
  }

  /** Conservation: free pages, frames in use and table pages add up to what init_kmem
  collected. */
  lemma PagesConserved(o: Own)
    requires PoolShape(o)
    ensures |o.free| + |o.frames| + |PoolTables(o)| == |o.pool|
  {
    hide PoolTables, Elements;
    var f, t := Elements(o.free), PoolTables(o);
    DistinctSize(o.free);
    PoolParts(o);
    UnionSize(f, o.frames, t);
  }

  lemma UnionSize(a: set<nat>, b: set<nat>, c: set<nat>)
    requires a !! b && a !! c && b !! c
    ensures |a + b + c| == |a| + |b| + |c|
  {
  }

  lemma PoolParts(o: Own)
    requires PoolShape(o)
    ensures Elements(o.free) !! o.frames && Elements(o.free) !! PoolTables(o) && o.frames !! PoolTables(o)
    ensures Elements(o.free) + o.frames + PoolTables(o) == o.pool
  {
  }

  /** kfree of a page that is on the list already, exactly: afterwards the links lead to the end
  of the list if and only if the page was not free. */
  lemma DoubleFreeCycles(m: Memory, head: Word, o: Own, p: nat)
    requires Inv(m, head, o) && RamPage(p)
    ensures (exists n: nat :: Follow(Wr(m, p, 0, head), PagePtr(p), n) == 0) <==> p !in o.free
  {
    hide TableShape, Tree, Follow;
    var m' := Wr(m, p, 0, head);
    if p in o.free {
      var i :| 0 <= i < |o.free| && o.free[i] == p;
      forall n: nat
        ensures Follow(m', PagePtr(p), n) != 0
      {
        var _ := Circle(m, head, o, p, i, n);
      }
    } else {
      PushList(m, head, o.free, p);
      ListEnds(m', PagePtr(p), [p] + o.free, |o.free| + 1);
    }
  }

  /** Links in front of page free[i] lead to it, and from it back to the head. */
  lemma {:induction false} Circle(m: Memory, head: Word, o: Own, p: nat, i: nat, n: nat) returns (j: nat)
    requires Inv(m, head, o) && i < |o.free| && o.free[i] == p && RamPage(p)
    ensures j <= i && RamPage(o.free[j]) && Follow(Wr(m, p, 0, head), PagePtr(p), n) == PagePtr(o.free[j])
  {
    hide TableShape, Tree, PageOf;
    if n == 0 {
      j := i;
    } else {
      var l := Circle(m, head, o, p, i, n - 1);
      PageOfPtr(o.free[l]);
      RdWr(m, p, 0, head, o.free[l], 0);
      j := if l == i then 0 else l + 1;
    }
  }

  // ---- runs ----

  /** What clients do: take a page, give back one they hold, write to one, map a range (at `pa`,
  or on new frames for 0), look an address up, get a new Sv39 root, clear the next static
  Sv39x4 root. Roots and held pages are named by position. */
  datatype Op =
    | Alloc
    | Free(held: nat)
    | Write(held: nat, word: nat, value: Word)
    | Map(root: nat, va: Word, pa: Word, size: Word, flags: Word)
    | Look(root: nat, va: Word)
    | NewTable
    | ClearTable

  datatype RootRef = RootRef(page: nat, x4: bool)

  /** What the clients have: roots, pointers to pages, and static roots not yet in use. */
  datatype Clients = Clients(roots: seq<RootRef>, held: seq<Word>, statics: seq<nat>)

  ghost predicate RootsOk(o: Own, roots: seq<RootRef>) {
    forall i :: 0 <= i < |roots| ==> roots[i].page in o.tables && o.tables[roots[i].page] == Root(roots[i].x4)
  }

  /** The held pointers are pointers to different frames. */
  ghost predicate HeldOk(o: Own, held: seq<Word>, pages: seq<nat>) {
    && |held| == |pages|
    && (forall i :: 0 <= i < |held| ==> RamPage(pages[i]) && pages[i] in o.frames && held[i] == PagePtr(pages[i]))
    && (forall i, j :: 0 <= i < j < |pages| ==> pages[i] != pages[j])
  }

  ghost predicate StaticsOk(o: Own, statics: seq<nat>) {
    && (forall i :: 0 <= i < |statics| ==> StaticRoot(o, statics[i]))
    && (forall i, j :: 0 <= i < j < |statics| ==> Apart(statics[i], statics[j]))
  }

  ghost predicate ClientsOk(o: Own, w: Clients, pages: seq<nat>) {
    RootsOk(o, w.roots) && HeldOk(o, w.held, pages) && StaticsOk(o, w.statics)
  }

  /** No table disappears, new ones come from the pool. */
  ghost predicate TablesGrow(o: Own, o': Own) {
    && o'.pool == o.pool
    && (forall t <- o.tables :: t in o'.tables && o'.tables[t] == o.tables[t])
    && (forall t <- o'.tables :: t in o.tables || t in o.pool)
  }

  lemma ClientsLater(o: Own, o': Own, w: Clients, pages: seq<nat>)
    requires ClientsOk(o, w, pages) && TablesGrow(o, o') && o.frames <= o'.frames
    ensures ClientsOk(o', w, pages)
  {
    StaticsLater(o, o', w.statics);
  }

  lemma StaticsLater(o: Own, o': Own, statics: seq<nat>)
    requires StaticsOk(o, statics) && TablesGrow(o, o')
    ensures StaticsOk(o', statics)
  {
    forall i | 0 <= i < |statics|
      ensures StaticRoot(o', statics[i])
    {
      assert StaticRoot(o, statics[i]);
    }
  }

  lemma HeldPush(o: Own, held: seq<Word>, pages: seq<nat>, p: nat)
    requires PoolShape(o) && HeldOk(o, held, pages) && o.free != [] && p == o.free[0] && RamPage(p)
    ensures HeldOk(Taken(o), held + [PagePtr(p)], pages + [p])
  {
    forall i | 0 <= i < |pages|
      ensures pages[i] != p
    {
      assert pages[i] in o.frames;
    }
  }

  lemma HeldDrop(o: Own, held: seq<Word>, pages: seq<nat>, i: nat)
    requires HeldOk(o, held, pages) && i < |held|
    ensures HeldOk(Returned(o, pages[i]), held[..i] + held[i + 1..], pages[..i] + pages[i + 1..])
  {
  }

  /** What every step of a run keeps. */
  twostate predicate Kept(k: Kmem)
    reads k
  {
    k.own.pool == old(k.own.pool) && Extends(old(k.Mapped()), k.Mapped())
  }

  lemma ExtendsSelf(M: Mapping)
    ensures Extends(M, M)
  {
  }

  method DoAlloc(k: Kmem, w: Clients, ghost pages: seq<nat>) returns (ok: bool, w': Clients, ghost pages': seq<nat>)
    requires k.Valid() && ClientsOk(k.own, w, pages)
    modifies k`mem, k`freelist, k`own
    ensures k.Valid() && ClientsOk(k.own, w', pages') && Kept(k)
    ensures ok <==> old(k.own.free) != []
    ensures ok ==> k.own == Taken(old(k.own)) && w' == w.(held := w.held + [PagePtr(old(k.own.free)[0])])
    ensures !ok ==> k.own == old(k.own) && w' == w
  {
    hide TableShape, Tree, FreeList, MappingOf, HeldOk, Extends, StaticsOk, RootsOk;
    ghost var o := k.own;
    ExtendsSelf(k.Mapped());
    var kpa := k.Kmalloc();
    w', pages', ok := w, pages, kpa.Some?;
    if ok {
      HeldPush(o, w.held, pages, o.free[0]);
      ClientsLater(o, k.own, w, pages);
      w', pages' := w.(held := w.held + [kpa.value]), pages + [o.free[0]];
    }
  }

  method DoFree(k: Kmem, w: Clients, ghost pages: seq<nat>, i: nat)
    returns (ok: bool, w': Clients, ghost pages': seq<nat>)
    requires k.Valid() && ClientsOk(k.own, w, pages) && i < |w.held|
    requires VAS_KERNEL <= k.dynamic <= VAS_KERNEL + DTB_MEMORY_SIZE
    modifies k`mem, k`freelist, k`own
    ensures k.Valid() && ClientsOk(k.own, w', pages') && Kept(k)
    ensures ok <==> k.ValidAddress(w.held[i])
    ensures ok ==> k.own == Returned(old(k.own), pages[i]) && w' == w.(held := w.held[..i] + w.held[i + 1..])
    ensures !ok ==> k.own == old(k.own) && w' == w
  {
    hide TableShape, Tree, FreeList, MappingOf, PoolShape, PageOf, Extends, StaticsOk, RootsOk;
    ghost var o := k.own;
    ExtendsSelf(k.Mapped());
    HeldDrop(o, w.held, pages, i);
    PageOfPtr(pages[i]);
    ok := k.Kfree(w.held[i]);
    w', pages' := w, pages;
    if ok {
      StaticsLater(o, k.own, w.statics);
      RootsLater(o, k.own, w.roots);
      w', pages' := w.(held := w.held[..i] + w.held[i + 1..]), pages[..i] + pages[i + 1..];
    }
  }

  lemma RootsLater(o: Own, o': Own, roots: seq<RootRef>)
    requires RootsOk(o, roots) && TablesGrow(o, o')
    ensures RootsOk(o', roots)
  {
  }

  method DoMap(k: Kmem, w: Clients, ghost pages: seq<nat>, root: RootRef, va: Word, pa: Word, size: Word, flags: Word)
    returns (ok: bool)
    requires k.Valid() && ClientsOk(k.own, w, pages) && root in w.roots
    modifies k`mem, k`freelist, k`own
    ensures k.Valid() && ClientsOk(k.own, w, pages) && Kept(k)
    ensures !ok ==> k.own.free == [] || !FreshKeys(old(k.Mapped()), RangeKeys(root.page, va, root.x4, PageCount(size)))
    ensures ok ==> OnlyRange(old(k.Mapped()), k.Mapped(), root.page, va, root.x4, PageCount(size))
    ensures ok ==> forall key <- RangeKeys(root.page, va, root.x4, PageCount(size)) :: key in k.Mapped()
  {
    hide TableShape, Tree, FreeList, MappingOf, PoolShape, HeldOk, KeyOf, LeafEntry, RangeKeys, Entries, TargetsOk,
         MapSeq, StaticsOk, OnlyRange, Wrap, FreshKeys, PageCount, Allocated;
    ghost var o, M := k.own, k.Mapped();
    var r;
    ghost var targets, taken;
    r, targets, taken := MapPages(k, root.page, va, pa, size, flags, root.x4);
    ok := r.Done?;
    if r.Remap? {
      RemapCollides(o, M, k.own, k.Mapped(), root.page, va, pa, flags, root.x4, targets, taken, PageCount(size));
    }
    FramesStay(o, k.own, taken);
    ClientsLater(o, k.own, w, pages);
    ProgressExtends(o, M, k.own, k.Mapped(), root.page, va, pa, flags, root.x4, targets, taken);
  }

  lemma FramesStay(o: Own, o': Own, taken: seq<nat>)
    requires Allocated(o, o', taken)
    ensures o.frames <= o'.frames
  {
  }

  method DoNewTable(k: Kmem, w: Clients, ghost pages: seq<nat>) returns (ok: bool, w': Clients)
    requires k.Valid() && ClientsOk(k.own, w, pages)
    modifies k`mem, k`freelist, k`own
    ensures k.Valid() && ClientsOk(k.own, w', pages) && Kept(k)
    ensures ok <==> old(k.own.free) != []
    ensures w' == if ok then w.(roots := w.roots + [RootRef(old(k.own.free)[0], false)]) else w
  {
    hide TableShape, Tree, FreeList, MappingOf, HeldOk, Extends, StaticsOk, RootsOk;
    ghost var o := k.own;
    ExtendsSelf(k.Mapped());
    var r := NewRoot(k);
    w', ok := w, r.Some?;
    if ok {
      RootedGrows(o, r.value);
      ClientsLater(o, k.own, w, pages);
      w' := w.(roots := w.roots + [RootRef(r.value, false)]);
      RootsPush(k.own, w.roots, RootRef(r.value, false));
    }
  }

  lemma RootedGrows(o: Own, p: nat)
    requires PoolShape(o) && o.free != [] && p == o.free[0]
    ensures TablesGrow(o, RootedAt(Taken(o), p)) && o.frames <= RootedAt(Taken(o), p).frames
  {
  }

  lemma RootsPush(o: Own, roots: seq<RootRef>, r: RootRef)
    requires RootsOk(o, roots) && r.page in o.tables && o.tables[r.page] == Root(r.x4)
    ensures RootsOk(o, roots + [r])
  {
  }

  method DoClearTable(k: Kmem, w: Clients, ghost pages: seq<nat>) returns (w': Clients)
    requires k.Valid() && ClientsOk(k.own, w, pages) && w.statics != []
    modifies k`mem, k`own
    ensures k.Valid() && ClientsOk(k.own, w', pages) && Kept(k)
    ensures w' == w.(roots := w.roots + [RootRef(w.statics[0], true)], statics := w.statics[1..])
  {
    hide TableShape, Tree, FreeList, MappingOf, Extends, PoolShape;
    ghost var o := k.own;
    ExtendsSelf(k.Mapped());
    var r := w.statics[0];
    ClearRoot(k, r);
    w' := w.(roots := w.roots + [RootRef(r, true)], statics := w.statics[1..]);
    StaticsNext(o, w.statics);
    RootsAcross(o, w.roots, r);
    RootsPush(k.own, w.roots, RootRef(r, true));
  }

  lemma StaticsNext(o: Own, statics: seq<nat>)
    requires StaticsOk(o, statics) && statics != []
    ensures StaticsOk(WithRoot(o, statics[0]), statics[1..])
  {
    forall i | 0 <= i < |statics| - 1
      ensures StaticRoot(WithRoot(o, statics[0]), statics[1..][i])
    {
      assert StaticRoot(o, statics[i + 1]) && Apart(statics[0], statics[i + 1]);
    }
  }

  lemma RootsAcross(o: Own, roots: seq<RootRef>, r: nat)
    requires RootsOk(o, roots) && StaticRoot(o, r)
    ensures RootsOk(WithRoot(o, r), roots)
  {
  }

  /** One operation. A request that names nothing is ignored; a failed one stops the run. */
  method Do(k: Kmem, w: Clients, ghost pages: seq<nat>, op: Op) returns (ok: bool, w': Clients, ghost pages': seq<nat>)
    requires k.Valid() && ClientsOk(k.own, w, pages)
    requires VAS_KERNEL <= k.dynamic <= VAS_KERNEL + DTB_MEMORY_SIZE
    modifies k`mem, k`freelist, k`own
    ensures k.Valid() && ClientsOk(k.own, w', pages') && Kept(k)
    ensures op.Alloc? || op.NewTable? ==> (ok <==> old(k.own.free) != [])
    ensures op.Write? || op.ClearTable? ==> ok
    ensures op.Free? && op.held < |w.held| ==> (ok <==> k.ValidAddress(w.held[op.held]))
    ensures op.Look? && op.root < |w.roots| ==>
              (ok <==> Translate(old(k.mem), w.roots[op.root].page, op.va, w.roots[op.root].x4).Some?)
    ensures op.Map? && op.root < |w.roots| && !ok ==>
              var r := w.roots[op.root];
              k.own.free == [] || !FreshKeys(old(k.Mapped()), RangeKeys(r.page, op.va, r.x4, PageCount(op.size)))
    ensures op.Write? && op.held < |w.held| && op.word < 512 ==>
              k.mem == Wr(old(k.mem), pages[op.held], op.word, op.value)
  {
    hide Inv, MappingOf, StaticsOk, Extends, FreshKeys, RangeKeys, PageCount, Translate;
    ok, w', pages' := true, w, pages;
    ExtendsSelf(k.Mapped());
    match op
    case Alloc =>
      ok, w', pages' := DoAlloc(k, w, pages);
    case Free(i) =>
      if i < |w.held| {
        ok, w', pages' := DoFree(k, w, pages, i);
      }
    case Write(i, word, value) =>
      if i < |w.held| && word < 512 {
        PageOfPtr(pages[i]);
        k.StoreToFrame(PageOf(w.held[i]), word, value);
      }
    case Map(r, va, pa, size, flags) =>
      if r < |w.roots| {
        ok := DoMap(k, w, pages, w.roots[r], va, pa, size, flags);
      }
    case Look(r, va) =>
      if r < |w.roots| {
        var pa := ConvertVaToPa(k, w.roots[r].page, va, w.roots[r].x4);
        ok := pa.Some?;
      }
    case NewTable =>
      ok, w' := DoNewTable(k, w, pages);
    case ClearTable =>
      if w.statics != [] {
        w' := DoClearTable(k, w, pages);
      }
  }

  /** Every run, in any order and with any arguments: free list, tables and frames stay well
  formed and apart, the pool is what it was, and no established translation changes. */
  method RunOps(k: Kmem, w0: Clients, ghost pages0: seq<nat>, ops: seq<Op>)
    returns (ok: bool, n: nat, w: Clients, ghost pages: seq<nat>)
    requires k.Valid() && ClientsOk(k.own, w0, pages0)
    requires VAS_KERNEL <= k.dynamic <= VAS_KERNEL + DTB_MEMORY_SIZE
    modifies k`mem, k`freelist, k`own
    ensures k.Valid() && ClientsOk(k.own, w, pages) && Kept(k)
    ensures |k.own.free| + |k.own.frames| + |PoolTables(k.own)| == |old(k.own.pool)|
    ensures n <= |ops| && (ok ==> n == |ops|)
  {
    hide TableShape, Tree, FreeList, MappingOf, PoolShape, ClientsOk, Extends;
    ghost var M := k.Mapped();
    ExtendsSelf(M);
    w, pages, ok, n := w0, pages0, true, 0;
    while ok && n < |ops|
      invariant 0 <= n <= |ops|
      invariant k.Valid() && ClientsOk(k.own, w, pages) && k.own.pool == old(k.own.pool) && Extends(M, k.Mapped())
    {
      ghost var M1 := k.Mapped();
      ok, w, pages := Do(k, w, pages, ops[n]);
      ExtendsThen(M, M1, k.Mapped());
      n := n + 1;
    }
    PagesConserved(k.own);
  }

  /** Static roots in the kernel image, below the first page that init_kmem collects. */
  predicate InImage(statics: seq<nat>, dynamic: Word) {
    && (forall i :: 0 <= i < |statics| ==> RamPage(statics[i]) && statics[i] + 3 < FirstFree(dynamic))
    && (forall i, j :: 0 <= i < j < |statics| ==> Apart(statics[i], statics[j]))
  }

  lemma StaticsAtBoot(statics: seq<nat>, dynamic: Word)
    requires InImage(statics, dynamic) && FIRST_PAGE <= FirstFree(dynamic) <= END_PAGE
    ensures StaticsOk(Collected(FirstFree(dynamic), END_PAGE), statics)
  {
  }

  lemma {:induction false} PagesSize(lo: nat, hi: nat)
    requires lo <= hi
    ensures |Pages(lo, hi)| == hi - lo
  {
    if lo < hi {
      PagesSize(lo, hi - 1);
    }
  }

  /** From boot: init_kmem and then any run. At the end every whole page of RAM behind the kernel
  image is on the free list, in somebody's hands, or a table, and none is two of these. */
  method RunFromBoot(k: Kmem, statics: seq<nat>, ops: seq<Op>) returns (ok: bool, w: Clients, ghost pages: seq<nat>)
    requires k.Valid() && k.own == Own({}, [], {}, map[])
    requires VAS_KERNEL <= k.dynamic <= VAS_KERNEL + DTB_MEMORY_SIZE && InImage(statics, k.dynamic)
    modifies k`mem, k`freelist, k`own
    ensures k.Valid() && ClientsOk(k.own, w, pages) && FIRST_PAGE <= FirstFree(k.dynamic) <= END_PAGE
    ensures k.own.pool == Pages(FirstFree(k.dynamic), END_PAGE)
    ensures |k.own.free| + |k.own.frames| + |PoolTables(k.own)| == END_PAGE - FirstFree(k.dynamic)
  {
    hide Inv, MappingOf, FirstFree, InImage, StaticsOk;
    k.InitKmem();
    StaticsAtBoot(statics, k.dynamic);
    PagesSize(FirstFree(k.dynamic), END_PAGE);
    var n;
    ok, n, w, pages := RunOps(k, Clients([], [], statics), [], ops);
  }
}
