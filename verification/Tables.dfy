/** Page tables, free-list links and handed-out frames in one flat word memory.

Everything here is about values: a memory, an ownership record that says what each
page is used for, and the abstract address mapping that the table words encode. */
module Tables {
  import opened Wrappers
  import opened Bits
  import opened Layout

  const FIRST_PAGE := 0x80000 // DTB_MEMORY / PAGE_SIZE
  const END_PAGE := 0x90000 // DTB_MEMORY_END / PAGE_SIZE
  const WORDS := 0x1200_0000 // END_PAGE * 512

  /** Physical memory as 64-bit words; page p holds words 512 * p .. 512 * p + 511. */
  type Memory = m: seq<Word> | |m| == WORDS ghost witness seq(WORDS, i => 0)

  predicate RamPage(p: int) {
    FIRST_PAGE <= p < END_PAGE
  }

  /** Word `i` counted from the start of page `t`; `i` may run past one page (Sv39x4 roots). */
  function Rd(m: Memory, t: nat, i: nat): Word {
    if t * 512 + i < WORDS then m[t * 512 + i] else 0
  }

  function Wr(m: Memory, t: nat, i: nat, v: Word): Memory
    requires t * 512 + i < WORDS
  {
    m[t * 512 + i := v]
  }

  function ZeroPage(m: Memory, p: nat): Memory
    requires RamPage(p)
  {
    m[..p * 512] + seq(512, i => 0) + m[p * 512 + 512..]
  }

  /** What a page in use by a table is: a root (four pages long with x4), one of the
  three further pages of such a root, or a table hanging off slot `idx` of `parent`. */
  datatype Kind = Root(x4: bool) | Tail(base: nat) | Table(level: nat, parent: nat, idx: nat)

  function Level(k: Kind): int {
    match k
    case Root(_) => 2
    case Tail(_) => -1
    case Table(l, _, _) => l
  }

  function Size(k: Kind): nat {
    match k
    case Root(x4) => if x4 then 2048 else 512
    case Tail(_) => 0
    case Table(_, _, _) => 512
  }

  /** Who owns which page. `pool` is what init_kmem collected and never changes. */
  datatype Own = Own(pool: set<nat>, free: seq<nat>, frames: set<nat>, tables: map<nat, Kind>)

  /** An address as the table hierarchy sees it. */
  datatype Key = Key(root: nat, i2: nat, i1: nat, i0: nat)

  /** The entry that makes page `c` the next table. */
  function TableEntry(c: nat): (e: nat)
    ensures e % 2 == 1 && e / 1024 == c
  {
    ModUnique(c * 1024 + 1, 1024, c, 1);
    ModUnique(c * 1024 + 1, 2, c * 512, 1);
    c * 1024 + 1
  }

  ghost predicate Shape(o: Own) {
    PoolShape(o) && TableShape(o)
  }

  /** Free pages, frames and tables are pairwise disjoint, no page is free twice, and
  every pool page is in one of the three. */
  ghost predicate PoolShape(o: Own) {
    && (forall k :: 0 <= k < |o.free| ==> RamPage(o.free[k]) && o.free[k] in o.pool)
    && (forall k :: 0 <= k < |o.free| ==> o.free[k] !in o.frames && o.free[k] !in o.tables)
    && (forall j, k :: 0 <= j < k < |o.free| ==> o.free[j] != o.free[k])
    && (forall p <- o.frames :: RamPage(p) && p in o.pool && p !in o.tables)
    && (forall p <- o.pool :: p in o.free || p in o.frames || p in o.tables)
  }

  ghost predicate TableShape(o: Own) {
    && (forall p <- o.tables :: RamPage(p))
    && (forall r <- o.tables :: o.tables[r] == Root(true) ==>
          IsTail(o.tables, r, 1) && IsTail(o.tables, r, 2) && IsTail(o.tables, r, 3))
    && (forall c <- o.tables :: o.tables[c].Table? ==> c in o.pool && HasParent(o.tables, c))
  }

  ghost predicate IsTail(tables: map<nat, Kind>, r: nat, d: nat) {
    r + d in tables && tables[r + d] == Tail(r)
  }

  ghost predicate HasParent(tables: map<nat, Kind>, c: nat)
    requires c in tables && tables[c].Table?
  {
    var k := tables[c];
    k.parent in tables && Level(tables[k.parent]) == k.level + 1 && k.idx < Size(tables[k.parent])
  }

  ghost predicate IsSlot(tables: map<nat, Kind>, t: nat, i: nat) {
    t in tables && i < Size(tables[t])
  }

  /** The child a valid upper-level entry names is the table recorded for that slot. */
  ghost predicate EntryOk(m: Memory, tables: map<nat, Kind>, t: nat, i: nat)
    requires IsSlot(tables, t, i)
  {
    var e := Rd(m, t, i);
    if Level(tables[t]) == 0 then e % 2 == 1 || e == 0
    else e % 2 == 1 ==>
      var c := e / 1024;
      c in tables && tables[c] == Table(Level(tables[t]) - 1, t, i) && e == TableEntry(c)
  }

  /** Every slot is well formed, and every non-root table is referenced by its recorded
  slot; with EntryOk this makes it reachable from exactly one slot. */
  ghost predicate Tree(m: Memory, tables: map<nat, Kind>) {
    && (forall t, i :: IsSlot(tables, t, i) ==> EntryOk(m, tables, t, i))
    && (forall c :: c in tables && tables[c].Table? ==>
          Rd(m, tables[c].parent, tables[c].idx) == TableEntry(c))
  }

  /** Kernel pointer (linear-map address) of a RAM page. */
  function PagePtr(p: nat): Word
    requires RamPage(p)
  {
    VAS_RAM + (p - FIRST_PAGE) * 4096
  }

  /** Pointer to the first page of a list, 0 at its end. */
  function Ptr(free: seq<nat>): Word
    requires forall k :: 0 <= k < |free| ==> RamPage(free[k])
  {
    if free == [] then 0 else PagePtr(free[0])
  }

  ghost predicate FreeList(m: Memory, head: Word, free: seq<nat>) {
    && (forall k :: 0 <= k < |free| ==> RamPage(free[k]))
    && head == Ptr(free)
    && (forall k :: 0 <= k < |free| ==> Rd(m, free[k], 0) == Ptr(free[k + 1..]))
  }

  ghost predicate Inv(m: Memory, head: Word, o: Own) {
    Shape(o) && Tree(m, o.tables) && FreeList(m, head, o.free)
  }

  // ---- the mapping that a table encodes ----

  function Child(m: Memory, t: nat, i: nat): Option<nat> {
    if Rd(m, t, i) % 2 == 1 then Some(Rd(m, t, i) / 1024) else None
  }

  /** The level-0 table in charge of `k`, if the upper levels lead to one. */
  function LeafTable(m: Memory, k: Key): Option<nat> {
    match Child(m, k.root, k.i2)
    case None => None
    case Some(c) => Child(m, c, k.i1)
  }

  function Lookup(m: Memory, k: Key): Option<Word> {
    match LeafTable(m, k)
    case None => None
    case Some(c) => if Rd(m, c, k.i0) % 2 == 1 then Some(Rd(m, c, k.i0)) else None
  }

  ghost predicate IsKey(tables: map<nat, Kind>, k: Key) {
    && k.root in tables && tables[k.root].Root? && k.i2 < Size(tables[k.root])
    && k.i1 < 512 && k.i0 < 512
  }

  type Mapping = imap<Key, Word>

  ghost function MappingOf(m: Memory, tables: map<nat, Kind>): Mapping {
    imap k: Key | IsKey(tables, k) && Lookup(m, k).Some? :: Lookup(m, k).value
  }

  // ---- reads after writes ----

  lemma RdWr(m: Memory, t: nat, i: nat, v: Word, t': nat, i': nat)
    requires t * 512 + i < WORDS
    ensures Rd(Wr(m, t, i, v), t', i') ==
            if t * 512 + i == t' * 512 + i' then v else Rd(m, t', i')
  {
  }

  lemma RdZero(m: Memory, p: nat, t: nat, i: nat)
    requires RamPage(p)
    ensures Rd(ZeroPage(m, p), t, i) ==
            if p * 512 <= t * 512 + i < p * 512 + 512 then 0 else Rd(m, t, i)
  {
  }

  /** The page a slot lies in is a page of its table. */
  lemma SlotPage(o: Own, t: nat, i: nat, p: nat)
    requires TableShape(o) && IsSlot(o.tables, t, i)
    requires p * 512 <= t * 512 + i < p * 512 + 512
    ensures p in o.tables && (p == t || o.tables[p] == Tail(t))
  {
    if p > t {
      assert IsTail(o.tables, t, 1) && IsTail(o.tables, t, 2) && IsTail(o.tables, t, 3);
    }
  }

  /** A slot of a table never lies in a page that is not a table page. */
  lemma SlotApart(o: Own, t: nat, i: nat, p: nat)
    requires TableShape(o) && IsSlot(o.tables, t, i) && p !in o.tables
    ensures !(p * 512 <= t * 512 + i < p * 512 + 512)
  {
    if p * 512 <= t * 512 + i < p * 512 + 512 {
      SlotPage(o, t, i, p);
    }
  }

  /** Two slots of tables share a word only if they are the same slot. */
  lemma SlotsApart(o: Own, t: nat, i: nat, t': nat, i': nat)
    requires TableShape(o) && IsSlot(o.tables, t, i) && IsSlot(o.tables, t', i')
    requires t * 512 + i == t' * 512 + i'
    ensures t == t' && i == i'
  {
    if t < t' {
      SlotPage(o, t, (t' - t) * 512, t');
    } else if t' < t {
      SlotPage(o, t', (t - t') * 512, t);
    }
  }

  lemma SlotInMemory(o: Own, t: nat, i: nat)
    requires Shape(o) && IsSlot(o.tables, t, i)
    ensures t * 512 + i < WORDS
  {
    if i >= 512 {
      assert IsTail(o.tables, t, 3);
    }
  }

  // ---- paths ----

  /** The tables that a walk for `k` passes are the ones recorded for its index prefix. */
  lemma Path(m: Memory, tables: map<nat, Kind>, k: Key)
    requires Tree(m, tables) && IsKey(tables, k)
    ensures var c := Child(m, k.root, k.i2);
            c.Some? ==> c.value in tables && tables[c.value] == Table(1, k.root, k.i2)
    ensures var c := LeafTable(m, k);
            c.Some? ==> c.value in tables && tables[c.value].Table? && tables[c.value].level == 0
  {
    assert IsSlot(tables, k.root, k.i2) && EntryOk(m, tables, k.root, k.i2);
    var c := Child(m, k.root, k.i2);
    if c.Some? {
      assert IsSlot(tables, c.value, k.i1) && EntryOk(m, tables, c.value, k.i1);
    }
  }

  /** Each level-0 slot serves one key only. */
  lemma LeafTableInjective(m: Memory, tables: map<nat, Kind>, k: Key, k': Key)
    requires Tree(m, tables) && IsKey(tables, k) && IsKey(tables, k')
    requires LeafTable(m, k).Some? && LeafTable(m, k) == LeafTable(m, k') && k.i0 == k'.i0
    ensures k == k'
  {
    var c, c' := Child(m, k.root, k.i2).value, Child(m, k'.root, k'.i2).value;
    Path(m, tables, k);
    Path(m, tables, k');
    assert IsSlot(tables, c, k.i1) && EntryOk(m, tables, c, k.i1);
    assert IsSlot(tables, c', k'.i1) && EntryOk(m, tables, c', k'.i1);
  }

  // ---- what the writes of the code do to the tree and to the mapping ----

  ghost predicate SameSlots(m: Memory, m': Memory, tables: map<nat, Kind>) {
    forall t, i :: IsSlot(tables, t, i) ==> Rd(m', t, i) == Rd(m, t, i)
  }

  lemma LookupSame(m: Memory, m': Memory, tables: map<nat, Kind>, k: Key)
    requires Tree(m, tables) && SameSlots(m, m', tables) && IsKey(tables, k)
    ensures Lookup(m', k) == Lookup(m, k)
  {
    Path(m, tables, k);
    assert IsSlot(tables, k.root, k.i2);
    var c := Child(m, k.root, k.i2);
    if c.Some? {
      assert IsSlot(tables, c.value, k.i1);
      var d := Child(m, c.value, k.i1);
      if d.Some? {
        assert IsSlot(tables, d.value, k.i0);
      }
    }
  }

  lemma TreeSame(m: Memory, m': Memory, o: Own)
    requires Shape(o) && Tree(m, o.tables) && SameSlots(m, m', o.tables)
    ensures Tree(m', o.tables)
  {
    forall t: nat, i: nat | IsSlot(o.tables, t, i)
      ensures EntryOk(m', o.tables, t, i)
    {
      assert EntryOk(m, o.tables, t, i);
    }
    forall c | c in o.tables && o.tables[c].Table?
      ensures Rd(m', o.tables[c].parent, o.tables[c].idx) == TableEntry(c)
    {
      assert HasParent(o.tables, c);
      assert IsSlot(o.tables, o.tables[c].parent, o.tables[c].idx);
    }
  }

  /** Memory that no table occupies can change without any effect on tree or mapping. */
  lemma TablesUntouched(m: Memory, m': Memory, o: Own)
    requires Shape(o) && Tree(m, o.tables) && SameSlots(m, m', o.tables)
    ensures Tree(m', o.tables) && MappingOf(m', o.tables) == MappingOf(m, o.tables)
  {
    TreeSame(m, m', o);
    forall k | IsKey(o.tables, k)
      ensures Lookup(m', k) == Lookup(m, k)
    {
      LookupSame(m, m', o.tables, k);
    }
  }

  /** Clearing and writing pages outside the tables keeps every table slot. */
  lemma WriteOutside(m: Memory, o: Own, p: nat, i: nat, v: Word)
    requires Shape(o) && RamPage(p) && p !in o.tables && i < 512
    ensures SameSlots(m, Wr(m, p, i, v), o.tables)
  {
    forall t: nat, j: nat | IsSlot(o.tables, t, j)
      ensures Rd(Wr(m, p, i, v), t, j) == Rd(m, t, j)
    {
      SlotApart(o, t, j, p);
      RdWr(m, p, i, v, t, j);
    }
  }

  lemma ClearOutside(m: Memory, o: Own, p: nat)
    requires Shape(o) && RamPage(p) && p !in o.tables
    ensures SameSlots(m, ZeroPage(m, p), o.tables)
  {
    forall t: nat, j: nat | IsSlot(o.tables, t, j)
      ensures Rd(ZeroPage(m, p), t, j) == Rd(m, t, j)
    {
      SlotApart(o, t, j, p);
      RdZero(m, p, t, j);
    }
  }

  /** The free list survives writes to pages that are not on it. */
  lemma FreeListKept(m: Memory, m': Memory, head: Word, free: seq<nat>)
    requires FreeList(m, head, free)
    requires forall k :: 0 <= k < |free| ==> Rd(m', free[k], 0) == Rd(m, free[k], 0)
    ensures FreeList(m', head, free)
  {
  }

  /** Hanging the cleared page `c` (so far a frame) into the invalid slot (t, i). */
  function Extended(o: Own, t: nat, i: nat, c: nat): Own
    requires t in o.tables && Level(o.tables[t]) >= 1
  {
    o.(frames := o.frames - {c}, tables := o.tables[c := Table(Level(o.tables[t]) - 1, t, i)])
  }

  lemma ExtendShape(o: Own, t: nat, i: nat, c: nat)
    requires Shape(o) && IsSlot(o.tables, t, i) && Level(o.tables[t]) >= 1 && c in o.frames
    ensures Shape(Extended(o, t, i, c))
  {
    var o' := Extended(o, t, i, c);
    assert PoolShape(o') by {
      forall p <- o'.pool
        ensures p in o'.free || p in o'.frames || p in o'.tables
      {
        assert p in o.free || p in o.frames || p in o.tables;
      }
    }
    ExtendTableShape(o, t, i, c);
  }

  lemma ExtendTableShape(o: Own, t: nat, i: nat, c: nat)
    requires Shape(o) && IsSlot(o.tables, t, i) && Level(o.tables[t]) >= 1 && c in o.frames
    ensures TableShape(Extended(o, t, i, c))
  {
    var ts, ts' := o.tables, Extended(o, t, i, c).tables;
    forall d <- ts' | ts'[d].Table?
      ensures d in o.pool && HasParent(ts', d)
    {
      if d != c {
        assert HasParent(ts, d);
      }
    }
    forall r <- ts' | ts'[r] == Root(true)
      ensures IsTail(ts', r, 1) && IsTail(ts', r, 2) && IsTail(ts', r, 3)
    {
      assert IsTail(ts, r, 1) && IsTail(ts, r, 2) && IsTail(ts, r, 3);
    }
  }

  ghost predicate ExtendedMemory(m: Memory, m': Memory, tables: map<nat, Kind>, t: nat, i: nat, c: nat) {
    && (forall j: nat :: j < 512 ==> Rd(m', c, j) == 0)
    && KeptExcept(m, m', tables, t, i)
    && Rd(m', t, i) == TableEntry(c)
  }

  /** Every table slot but (t, i) reads as before. */
  ghost predicate KeptExcept(m: Memory, m': Memory, tables: map<nat, Kind>, t: nat, i: nat) {
    forall t': nat, i': nat :: IsSlot(tables, t', i') && !(t' == t && i' == i) ==>
      Rd(m', t', i') == Rd(m, t', i')
  }

  /** Reads of the memory after the extension. */
  lemma ExtendReads(m: Memory, o: Own, t: nat, i: nat, c: nat)
    requires Shape(o) && IsSlot(o.tables, t, i) && Level(o.tables[t]) >= 1 && c in o.frames
    requires TableEntry(c) < WORD && t * 512 + i < WORDS
    ensures ExtendedMemory(m, Wr(ZeroPage(m, c), t, i, TableEntry(c)), o.tables, t, i, c)
  {
    var z := ZeroPage(m, c);
    var m' := Wr(z, t, i, TableEntry(c));
    SlotApart(o, t, i, c);
    RdWr(z, t, i, TableEntry(c), t, i);
    forall j: nat | j < 512
      ensures Rd(m', c, j) == 0
    {
      RdZero(m, c, c, j);
      RdWr(z, t, i, TableEntry(c), c, j);
    }
    forall t': nat, i': nat | IsSlot(o.tables, t', i') && !(t' == t && i' == i)
      ensures Rd(m', t', i') == Rd(m, t', i')
    {
      ExtendReadsElsewhere(m, o, t, i, c, t', i');
    }
  }

  lemma ExtendReadsElsewhere(m: Memory, o: Own, t: nat, i: nat, c: nat, t': nat, i': nat)
    requires Shape(o) && IsSlot(o.tables, t, i) && Level(o.tables[t]) >= 1 && c in o.frames
    requires TableEntry(c) < WORD && t * 512 + i < WORDS
    requires IsSlot(o.tables, t', i') && !(t' == t && i' == i)
    ensures Rd(Wr(ZeroPage(m, c), t, i, TableEntry(c)), t', i') == Rd(m, t', i')
  {
    SlotApart(o, t', i', c);
    if t * 512 + i == t' * 512 + i' {
      SlotsApart(o, t, i, t', i');
    }
    RdWr(ZeroPage(m, c), t, i, TableEntry(c), t', i');
    RdZero(m, c, t', i');
  }

  lemma ExtendTree(m: Memory, m': Memory, o: Own, t: nat, i: nat, c: nat)
    requires Shape(o) && Tree(m, o.tables)
    requires IsSlot(o.tables, t, i) && Level(o.tables[t]) >= 1 && c in o.frames
    requires Rd(m, t, i) % 2 == 0
    requires ExtendedMemory(m, m', o.tables, t, i, c)
    ensures Tree(m', Extended(o, t, i, c).tables)
  {
    var ts, ts' := o.tables, Extended(o, t, i, c).tables;
    forall t': nat, i': nat | IsSlot(ts', t', i')
      ensures EntryOk(m', ts', t', i')
    {
      if t' != c {
        assert IsSlot(ts, t', i') && EntryOk(m, ts, t', i');
      }
    }
    forall d | d in ts' && ts'[d].Table?
      ensures Rd(m', ts'[d].parent, ts'[d].idx) == TableEntry(d)
    {
      if d != c {
        assert HasParent(ts, d);
        assert IsSlot(ts, ts[d].parent, ts[d].idx);
        assert Rd(m, ts[d].parent, ts[d].idx) == TableEntry(d);
      }
    }
  }

  lemma ExtendLookup(m: Memory, m': Memory, o: Own, t: nat, i: nat, c: nat, k: Key)
    requires Shape(o) && Tree(m, o.tables)
    requires IsSlot(o.tables, t, i) && Level(o.tables[t]) >= 1 && c in o.frames
    requires Rd(m, t, i) % 2 == 0
    requires ExtendedMemory(m, m', o.tables, t, i, c)
    requires IsKey(o.tables, k)
    ensures Lookup(m', k) == Lookup(m, k)
  {
    Path(m, o.tables, k);
    assert IsSlot(o.tables, k.root, k.i2);
    if k.root == t && k.i2 == i {
      assert Child(m', t, i) == Some(c);
    } else {
      var d := Child(m, k.root, k.i2);
      if d.Some? {
        assert IsSlot(o.tables, d.value, k.i1);
        if d.value == t && k.i1 == i {
          assert Child(m', t, i) == Some(c);
        } else {
          var f := Child(m, d.value, k.i1);
          if f.Some? {
            assert IsSlot(o.tables, f.value, k.i0);
          }
        }
      }
    }
  }

  /** A new empty table changes no translation. */
  lemma ExtendMapping(m: Memory, m': Memory, o: Own, t: nat, i: nat, c: nat)
    requires Shape(o) && Tree(m, o.tables)
    requires IsSlot(o.tables, t, i) && Level(o.tables[t]) >= 1 && c in o.frames
    requires Rd(m, t, i) % 2 == 0
    requires ExtendedMemory(m, m', o.tables, t, i, c)
    ensures MappingOf(m', Extended(o, t, i, c).tables) == MappingOf(m, o.tables)
  {
    forall k | IsKey(o.tables, k)
      ensures Lookup(m', k) == Lookup(m, k)
    {
      ExtendLookup(m, m', o, t, i, c, k);
    }
    assert forall k :: IsKey(Extended(o, t, i, c).tables, k) <==> IsKey(o.tables, k);
  }

  ghost predicate WrittenSlot(m: Memory, m': Memory, tables: map<nat, Kind>, t: nat, i: nat, e: Word) {
    forall t': nat, i': nat :: IsSlot(tables, t', i') ==>
      Rd(m', t', i') == if t' == t && i' == i then e else Rd(m, t', i')
  }

  lemma WriteSlot(m: Memory, o: Own, t: nat, i: nat, e: Word)
    requires Shape(o) && IsSlot(o.tables, t, i) && t * 512 + i < WORDS
    ensures WrittenSlot(m, Wr(m, t, i, e), o.tables, t, i, e)
  {
    forall t': nat, i': nat | IsSlot(o.tables, t', i')
      ensures Rd(Wr(m, t, i, e), t', i') == if t' == t && i' == i then e else Rd(m, t', i')
    {
      RdWr(m, t, i, e, t', i');
      if t * 512 + i == t' * 512 + i' {
        SlotsApart(o, t, i, t', i');
      }
    }
  }

  /** Writing a valid entry into a level-0 slot changes exactly the key it serves. */
  lemma LeafWriteMapping(m: Memory, m': Memory, tables: map<nat, Kind>, k: Key, t: nat, e: Word)
    requires Tree(m, tables) && IsKey(tables, k)
    requires LeafTable(m, k) == Some(t) && e % 2 == 1
    requires WrittenSlot(m, m', tables, t, k.i0, e)
    ensures MappingOf(m', tables) == MappingOf(m, tables)[k := e]
  {
    forall k' | IsKey(tables, k')
      ensures Lookup(m', k') == if k' == k then Some(e) else Lookup(m, k')
    {
      LeafWriteLookup(m, m', tables, k, t, e, k');
    }
  }

  lemma LeafWriteTree(m: Memory, m': Memory, o: Own, t: nat, i: nat, e: Word)
    requires Shape(o) && Tree(m, o.tables) && IsSlot(o.tables, t, i) && Level(o.tables[t]) == 0
    requires e % 2 == 1
    requires WrittenSlot(m, m', o.tables, t, i, e)
    ensures Tree(m', o.tables)
  {
    var ts := o.tables;
    forall t': nat, i': nat | IsSlot(ts, t', i')
      ensures EntryOk(m', ts, t', i')
    {
      assert EntryOk(m, ts, t', i');
    }
    forall c | c in ts && ts[c].Table?
      ensures Rd(m', ts[c].parent, ts[c].idx) == TableEntry(c)
    {
      assert HasParent(ts, c);
      assert IsSlot(ts, ts[c].parent, ts[c].idx);
    }
  }

  lemma LeafWriteLookup(m: Memory, m': Memory, tables: map<nat, Kind>, k: Key, t: nat, e: Word, k': Key)
    requires Tree(m, tables) && IsKey(tables, k) && IsKey(tables, k')
    requires LeafTable(m, k) == Some(t) && e % 2 == 1
    requires WrittenSlot(m, m', tables, t, k.i0, e)
    ensures Lookup(m', k') == if k' == k then Some(e) else Lookup(m, k')
  {
    Path(m, tables, k);
    Path(m, tables, k');
    assert IsSlot(tables, k'.root, k'.i2);
    var c := Child(m, k'.root, k'.i2);
    if c.Some? {
      assert IsSlot(tables, c.value, k'.i1);
      var d := Child(m, c.value, k'.i1);
      if d.Some? {
        assert IsSlot(tables, d.value, k'.i0);
        if d.value == t && k'.i0 == k.i0 {
          LeafTableInjective(m, tables, k, k');
        }
      }
    }
  }
}
