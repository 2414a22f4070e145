/** The page allocator (kmem.c): an intrusive free list whose links live in the free
pages themselves, in the same memory as the page tables. */
module Kmem {
  import opened Wrappers
  import opened Bits
  import opened Layout
  import opened Tables

  /** The page behind a kernel pointer. */
  function PageOf(kpa: Word): nat {
    KPA2PA(kpa) / 4096
  }

  lemma PageOfPtr(p: nat)
    requires RamPage(p)
    ensures PA2KPA(p * 4096) == PagePtr(p) && KPA2PA(PagePtr(p)) == p * 4096
    ensures PageOf(PagePtr(p)) == p
  {
    LinearMapRoundTrip(p * 4096);
  }

  /** Pages from `lo` (inclusive) up to `hi` (exclusive), highest first. */
  function Downto(lo: nat, hi: nat): (s: seq<nat>)
    requires lo <= hi
    ensures |s| == hi - lo
    ensures forall k :: 0 <= k < |s| ==> s[k] == hi - 1 - k
  {
    if lo == hi then [] else [hi - 1] + Downto(lo, hi - 1)
  }

  lemma PushList(m: Memory, head: Word, free: seq<nat>, p: nat)
    requires FreeList(m, head, free) && RamPage(p) && p !in free
    ensures FreeList(Wr(m, p, 0, head), PagePtr(p), [p] + free)
  {
    var m' := Wr(m, p, 0, head);
    var free' := [p] + free;
    forall k | 0 <= k < |free'|
      ensures Rd(m', free'[k], 0) == Ptr(free'[k + 1..])
    {
      RdWr(m, p, 0, head, free'[k], 0);
      if k == 0 {
        assert free'[1..] == free;
      } else {
        assert free'[k] == free[k - 1] && free'[k + 1..] == free[k..];
      }
    }
  }

  lemma PopList(m: Memory, head: Word, free: seq<nat>)
    requires FreeList(m, head, free) && free != []
    requires forall k :: 0 < k < |free| ==> free[k] != free[0]
    ensures head == PagePtr(free[0])
    ensures FreeList(ZeroPage(m, free[0]), Rd(m, free[0], 0), free[1..])
  {
    var m', free' := ZeroPage(m, free[0]), free[1..];
    forall k | 0 <= k < |free'|
      ensures Rd(m', free'[k], 0) == Ptr(free'[k + 1..])
    {
      RdZero(m, free[0], free'[k], 0);
      assert free'[k] == free[k + 1] && free'[k + 1..] == free[k + 2..];
    }
  }

  function Taken(o: Own): Own
    requires o.free != []
  {
    o.(free := o.free[1..], frames := o.frames + {o.free[0]})
  }

  function Returned(o: Own, p: nat): Own {
    o.(free := [p] + o.free, frames := o.frames - {p})
  }

  lemma TakenShape(o: Own)
    requires Shape(o) && o.free != []
    ensures Shape(Taken(o))
  {
    var o' := Taken(o);
    forall p <- o'.pool
      ensures p in o'.free || p in o'.frames || p in o'.tables
    {
      if p in o.free && p != o.free[0] {
        var k :| 0 <= k < |o.free| && o.free[k] == p;
        assert o'.free[k - 1] == p;
      }
    }
  }

  lemma ReturnedShape(o: Own, p: nat)
    requires Shape(o) && p in o.frames
    ensures Shape(Returned(o, p))
  {
    var o' := Returned(o, p);
    forall q <- o'.pool
      ensures q in o'.free || q in o'.frames || q in o'.tables
    {
      assert o'.free[0] == p;
      if q in o.free {
        var k :| 0 <= k < |o.free| && o.free[k] == q;
        assert o'.free[k + 1] == q;
      }
    }
  }

  /** A write to a frame meets no link. */
  lemma FrameFreeList(m: Memory, head: Word, o: Own, p: nat, i: nat, v: Word)
    requires PoolShape(o) && FreeList(m, head, o.free) && p in o.frames && i < 512
    ensures FreeList(Wr(m, p, i, v), head, o.free)
  {
    forall k | 0 <= k < |o.free|
      ensures Rd(Wr(m, p, i, v), o.free[k], 0) == Rd(m, o.free[k], 0)
    {
      RdWr(m, p, i, v, o.free[k], 0);
    }
    FreeListKept(m, Wr(m, p, i, v), head, o.free);
  }

  function Added(o: Own, p: nat): Own {
    o.(pool := o.pool + {p}, free := [p] + o.free)
  }

  lemma AddedShape(o: Own, p: nat)
    requires Shape(o) && RamPage(p) && p !in o.pool && p !in o.tables
    ensures Shape(Added(o, p))
  {
    var o' := Added(o, p);
    forall q <- o'.pool
      ensures q in o'.free || q in o'.frames || q in o'.tables
    {
      assert o'.free[0] == p;
      if q in o.free {
        var k :| 0 <= k < |o.free| && o.free[k] == q;
        assert o'.free[k + 1] == q;
      }
    }
  }

  /** First page that init_kmem collects: the one behind the kernel image. */
  function FirstFree(dynamic: Word): (p: int) {
    FIRST_PAGE + (dynamic - VAS_KERNEL + 4095) / 4096
  }

  lemma FirstFreePtr(dynamic: Word)
    requires VAS_KERNEL <= dynamic <= VAS_KERNEL + DTB_MEMORY_SIZE
    ensures FIRST_PAGE <= FirstFree(dynamic) <= END_PAGE
    ensures PGROUNDUP(dynamic) == VAS_KERNEL + (FirstFree(dynamic) - FIRST_PAGE) * 4096
    ensures KVA2KPA(PGROUNDUP(dynamic)) == VAS_RAM + (FirstFree(dynamic) - FIRST_PAGE) * 4096
    ensures KVA2KPA(dynamic) <= VAS_RAM + (FirstFree(dynamic) - FIRST_PAGE) * 4096 < KVA2KPA(dynamic) + 4096
  {
    var x := dynamic - VAS_KERNEL + 4095;
    var q := x / 4096;
    ModUnique(dynamic + 4095, 4096, VAS_KERNEL / 4096 + q, x % 4096);
  }

  lemma KernelOffset(dynamic: Word)
    requires VAS_KERNEL <= dynamic <= VAS_KERNEL + DTB_MEMORY_SIZE
    ensures KVA2KPA(dynamic) == VAS_RAM + (dynamic - VAS_KERNEL)
  {
  }

  /** The pointers that valid_address accepts are pointers to RAM pages. */
  lemma ValidPage(kpa: Word, dynamic: Word) returns (p: nat)
    requires VAS_KERNEL <= dynamic <= VAS_KERNEL + DTB_MEMORY_SIZE
    requires kpa % PAGE_SIZE == 0 && KVA2KPA(dynamic) <= kpa < VAS_RAM + DTB_MEMORY_SIZE
    ensures RamPage(p) && kpa == PagePtr(p) && PageOf(kpa) == p
  {
    p := FIRST_PAGE + (kpa - VAS_RAM) / 4096;
    assert kpa == VAS_RAM + (p - FIRST_PAGE) * 4096;
    PageOfPtr(p);
  }

  /** Pages from `lo` up to `hi`, as a set. */
  function Pages(lo: nat, hi: nat): (s: set<nat>)
    requires lo <= hi
    ensures forall q: nat :: q in s <==> lo <= q < hi
  {
    if lo == hi then {} else Pages(lo, hi - 1) + {hi - 1}
  }

  /** Ownership while init_kmem has collected the pages from `lo` up to `hi`. */
  function Collected(lo: nat, hi: nat): Own
    requires lo <= hi
  {
    Own(Pages(lo, hi), Downto(lo, hi), {}, map[])
  }

  lemma CollectedStart(lo: nat)
    ensures Collected(lo, lo) == Own({}, [], {}, map[])
  {
  }

  lemma CollectedStep(lo: nat, hi: nat)
    requires lo <= hi
    ensures Added(Collected(lo, hi), hi) == Collected(lo, hi + 1)
    ensures hi !in Collected(lo, hi).pool && hi !in Collected(lo, hi).tables
  {
  }

  class Kmem {
    var mem: Memory
    var freelist: Word
    ghost var own: Own
    const dynamic: Word // KVA of the first byte behind the kernel image

    ghost predicate Valid()
      reads this
    {
      Inv(mem, freelist, own)
    }

    ghost function Mapped(): Mapping
      reads this
    {
      MappingOf(mem, own.tables)
    }

    constructor (initial: Memory, dynamic: Word)
      ensures mem == initial && freelist == 0 && own == Own({}, [], {}, map[]) && this.dynamic == dynamic
      ensures Valid()
    {
      mem, freelist, own := initial, 0, Own({}, [], {}, map[]);
      this.dynamic := dynamic;
    }

    /** valid_address, decided on pointers exactly as the code does. */
    predicate ValidAddress(kpa: Word)
    {
      kpa % PAGE_SIZE == 0 && KVA2KPA(dynamic) <= kpa < VAS_RAM + DTB_MEMORY_SIZE
    }

    /** memset(page, 0, PAGE_SIZE), one word at a time. */
    method MemsetPage(p: nat)
      requires RamPage(p)
      modifies this`mem
      ensures mem == ZeroPage(old(mem), p)
    {
      var i := 0;
      ghost var m := mem;
      while i < 512
        invariant 0 <= i <= 512
        invariant mem == m[..p * 512] + seq(i, j => 0) + m[p * 512 + i..]
      {
        mem := Wr(mem, p, i, 0);
        i := i + 1;
      }
    }

    /** kmalloc. `None` is the exhausted allocator, where the code clears a page through a
    null pointer; otherwise the head of the list, cleared, becomes a frame of the caller. */
    method Kmalloc() returns (r: Option<Word>)
      requires Valid()
      modifies this`mem, this`freelist, this`own
      ensures Valid()
      ensures r.None? <==> old(own.free) == []
      ensures r.None? ==> mem == old(mem) && freelist == old(freelist) && own == old(own)
      ensures r.Some? ==>
        var p := old(own.free)[0];
        RamPage(p) && r.value == PagePtr(p) && own == Taken(old(own)) && mem == ZeroPage(old(mem), p)
      ensures Mapped() == old(Mapped())
    {
      var page := freelist;
      if page == 0 {
        return None;
      }
      PopList(mem, freelist, own.free);
      ghost var p := own.free[0];
      PageOfPtr(p);
      freelist := Rd(mem, PageOf(page), 0);
      MemsetPage(PageOf(page));
      ClearOutside(old(mem), own, p);
      TablesUntouched(old(mem), mem, own);
      TakenShape(own);
      own := Taken(own);
      r := Some(page);
    }

    /** kfree: panics (returns false) on a pointer outside the managed range; otherwise the page
    becomes the head of the list, whoever owns it. If it was a frame, the invariant and the
    mapping are kept; KmemRuns.DoubleFreeCycles says what happens to a page that is free. */
    method Kfree(kpa: Word) returns (ok: bool)
      requires Valid() && VAS_KERNEL <= dynamic <= VAS_KERNEL + DTB_MEMORY_SIZE
      modifies this`mem, this`freelist, this`own
      ensures ok <==> kpa % 4096 == 0 && VAS_RAM + (dynamic - VAS_KERNEL) <= kpa < VAS_RAM + 0x1000_0000
      ensures !ok ==> mem == old(mem) && freelist == old(freelist) && own == old(own)
      ensures ok ==>
        var p := PageOf(kpa);
        && RamPage(p) && kpa == PagePtr(p) && mem == Wr(old(mem), p, 0, old(freelist)) && freelist == kpa
        && own == (if p in old(own.frames) then Returned(old(own), p) else old(own))
        && (p in old(own.frames) ==> Valid() && Mapped() == old(Mapped()))
    {
      hide MappingOf, Tree, TableShape, PageOf, KVA2KPA;
      KernelOffset(dynamic);
      if !ValidAddress(kpa) {
        return false;
      }
      ghost var p := ValidPage(kpa, dynamic);
      mem := Wr(mem, PageOf(kpa), 0, freelist);
      freelist := kpa;
      if p in own.frames {
        PushList(old(mem), old(freelist), own.free, p);
        WriteOutside(old(mem), own, p, 0, old(freelist));
        TablesUntouched(old(mem), mem, own);
        ReturnedShape(own, p);
        own := Returned(own, p);
      }
      ok := true;
    }

    /** bootstrap_kfree: adds a page that nobody owns yet. */
    method BootstrapKfree(kpa: Word, ghost p: nat)
      requires Valid() && RamPage(p) && kpa == PagePtr(p)
      requires p !in own.pool && p !in own.tables
      modifies this`mem, this`freelist, this`own
      ensures Valid()
      ensures own == Added(old(own), p)
    {
      PageOfPtr(p);
      PushList(mem, freelist, own.free, p);
      WriteOutside(mem, own, p, 0, freelist);
      mem := Wr(mem, PageOf(kpa), 0, freelist);
      freelist := kpa;
      TablesUntouched(old(mem), mem, own);
      AddedShape(own, p);
      own := Added(own, p);
    }

    /** valid_address on the pointers that init_kmem probes: aligned, and never below the
    first collected page, so the test is the upper bound of RAM. */
    method ProbeAddress(kpa: Word, ghost p: nat) returns (ok: bool)
      requires VAS_KERNEL <= dynamic <= VAS_KERNEL + DTB_MEMORY_SIZE
      requires FIRST_PAGE <= FirstFree(dynamic) <= p <= END_PAGE
      requires kpa == VAS_RAM + (p - FIRST_PAGE) * 4096
      ensures ok <==> p < END_PAGE
    {
      FirstFreePtr(dynamic);
      ModUnique(kpa, 4096, VAS_RAM / 4096 + p - FIRST_PAGE, 0);
      ok := ValidAddress(kpa);
    }

    /** init_kmem: afterwards the list holds every whole page of RAM behind the kernel
    image exactly once, highest first, and that set is the pool for good. */
    method InitKmem()
      requires Valid() && own == Own({}, [], {}, map[])
      requires VAS_KERNEL <= dynamic <= VAS_KERNEL + DTB_MEMORY_SIZE
      modifies this`mem, this`freelist, this`own
      ensures Valid()
      ensures FIRST_PAGE <= FirstFree(dynamic) <= END_PAGE
      ensures own == Collected(FirstFree(dynamic), END_PAGE)
    {
      hide PoolShape, TableShape, Tree, FreeList, KVA2KPA, PGROUNDUP, FirstFree, Added, Collected;
      FirstFreePtr(dynamic);
      CollectedStart(FirstFree(dynamic));
      var kpa := KVA2KPA(PGROUNDUP(dynamic));
      ghost var p: nat := FirstFree(dynamic);
      var more := ProbeAddress(kpa, p);
      while more
        invariant Valid()
        invariant FirstFree(dynamic) <= p <= END_PAGE
        invariant kpa == VAS_RAM + (p - FIRST_PAGE) * 4096
        invariant own == Collected(FirstFree(dynamic), p)
        invariant more <==> p < END_PAGE
        decreases END_PAGE - p
      {
        CollectedStep(FirstFree(dynamic), p);
        BootstrapKfree(kpa, p);
        kpa := kpa + PAGE_SIZE;
        p := p + 1;
        more := ProbeAddress(kpa, p);
      }
    }

    /** A store by whoever owns the frame: no table word, no list link and no translation
    can change. */
    method StoreToFrame(p: nat, i: nat, v: Word)
      requires Valid() && p in own.frames && i < 512
      modifies this`mem
      ensures Valid() && Mapped() == old(Mapped())
      ensures mem == Wr(old(mem), p, i, v)
    {
      hide Wr, TableShape, Tree, MappingOf;
      WriteOutside(mem, own, p, i, v);
      FrameFreeList(mem, freelist, own, p, i, v);
      mem := Wr(mem, p, i, v);
      TablesUntouched(old(mem), mem, own);
    }
  }
}
