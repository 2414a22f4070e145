/** The address translation of the hart itself: the page-table walk of sections 4.3.2,
4.4 and 8.5.1 of the RISC-V Privileged Specification (version 20211203), with hardware
updates of the A and D bits, independent of the hypervisor's own walk. */
module HwWalk {
  import opened Wrappers
  import opened Bits
  import opened Layout
  import opened Tables
  import opened Vmem
  import opened Translation

  datatype Access = Load | Store | Fetch

  predicate R(e: nat) { (e / 2) % 2 == 1 }
  predicate W(e: nat) { (e / 4) % 2 == 1 }
  predicate X(e: nat) { (e / 8) % 2 == 1 }
  predicate U(e: nat) { (e / 16) % 2 == 1 }
  predicate A(e: nat) { (e / 64) % 2 == 1 }
  predicate D(e: nat) { (e / 128) % 2 == 1 }

  const RESERVED := 0x40_0000_0000_0000 // bits 54 and up

  /** Step 3 of the walk: invalid and reserved encodings fault. */
  predicate Malformed(e: nat) {
    e % 2 == 0 || (!R(e) && W(e)) || e >= RESERVED
  }

  /** Bits above the translated ones: copies of bit 38 for Sv39, zero for Sv39x4. */
  predicate Canonical(va: Word, x4: bool) {
    if x4 then va < 0x200_0000_0000 else va < 0x40_0000_0000 || va >= WORD - 0x40_0000_0000
  }

  datatype Leaf = Leaf(pte: Word, level: nat)

  /** Steps 2 to 4: descend until an entry is readable or executable. */
  function Descend(m: Memory, t: nat, va: Word, x4: bool, level: nat): Option<Leaf>
    decreases level
  {
    var e := Rd(m, t, Index(va, level, x4));
    if Malformed(e) then None
    else if R(e) || X(e) then Some(Leaf(e, level))
    else if level == 0 || U(e) || A(e) || D(e) then None
    else Descend(m, e / 1024, va, x4, level - 1)
  }

  /** Bytes that a leaf at this level spans. */
  function Span(level: nat): nat {
    if level == 0 then 0x1000 else if level == 1 then 0x20_0000 else 0x4000_0000
  }

  /** Step 5: the access must be allowed by R, W or X; a G-stage leaf must be a user page,
  a supervisor access must not use one. */
  predicate Allowed(e: nat, acc: Access, x4: bool) {
    && (U(e) <==> x4)
    && match acc { case Load => R(e) case Store => W(e) case Fetch => X(e) }
  }

  /** The whole walk; None is a page fault. Misaligned superpages fault (step 6). */
  function HwTranslate(m: Memory, root: nat, va: Word, x4: bool, acc: Access): Option<nat> {
    if !Canonical(va, x4) then None
    else
      match Descend(m, root, va, x4, 2)
      case None => None
      case Some(l) =>
        var ppn: nat := l.pte / 1024;
        var base := ppn * 4096;
        if !Allowed(l.pte, acc, x4) || base % Span(l.level) != 0 then None
        else Some(base + va % Span(l.level))
  }

  /** An entry at level 0 that the hardware accepts for an access. */
  predicate Permits(e: Word, acc: Access, x4: bool) {
    !Malformed(e) && (R(e) || X(e)) && Allowed(e, acc, x4)
  }

  /** Flag bits of a packed entry are the bits of the flags. */
  lemma FlagBits(q: nat, f: nat)
    requires f < 1024
    ensures (q * 1024 + f) % 2 == f % 2
    ensures R(q * 1024 + f) <==> R(f)
    ensures W(q * 1024 + f) <==> W(f)
    ensures X(q * 1024 + f) <==> X(f)
    ensures U(q * 1024 + f) <==> U(f)
    ensures A(q * 1024 + f) <==> A(f)
    ensures D(q * 1024 + f) <==> D(f)
  {
    FlagBit(q, f, 1, 512);
    FlagBit(q, f, 2, 256);
    FlagBit(q, f, 4, 128);
    FlagBit(q, f, 8, 64);
    FlagBit(q, f, 16, 32);
    FlagBit(q, f, 64, 8);
    FlagBit(q, f, 128, 4);
  }

  lemma FlagBit(q: nat, f: nat, w: nat, h: nat)
    requires f < 1024 && w > 0 && h > 0 && w * (2 * h) == 1024
    ensures ((q * 1024 + f) / w) % 2 == (f / w) % 2
  {
    var a, b := f / w, f % w;
    assert q * 1024 + f == w * (q * (2 * h) + a) + b by {
      assert w * (q * (2 * h)) == q * (w * (2 * h));
      assert w * (q * (2 * h) + a) == w * (q * (2 * h)) + w * a;
    }
    ModUnique(q * 1024 + f, w, q * (2 * h) + a, b);
    var c, d := a / 2, a % 2;
    assert q * (2 * h) + a == 2 * (q * h + c) + d;
    ModUnique(q * (2 * h) + a, 2, q * h + c, d);
  }

  /** Entries that name a table are pointers to the hardware too. */
  lemma PointerEntry(c: nat)
    requires RamPage(c)
    ensures !Malformed(TableEntry(c)) && !R(TableEntry(c)) && !X(TableEntry(c))
    ensures !U(TableEntry(c)) && !A(TableEntry(c)) && !D(TableEntry(c))
  {
    FlagBits(c, 1);
  }

  /** Inside the hypervisor's tables the hardware descends along the same path. */
  lemma DescendPath(m: Memory, o: Own, root: nat, va: Word, x4: bool)
    requires Shape(o) && Tree(m, o.tables) && root in o.tables && o.tables[root] == Root(x4)
    ensures var k := KeyOf(root, va, x4);
            Descend(m, root, va, x4, 2) ==
            match LeafTable(m, k)
            case None => None
            case Some(t) => Descend(m, t, va, x4, 0)
  {
    hide Index, Malformed, R, W, X, U, A, D, PoolShape;
    var k := KeyOf(root, va, x4);
    Path(m, o.tables, k);
    DescendLevel(m, o, root, va, x4, 2);
    var c := Child(m, root, k.i2);
    if c.Some? {
      DescendLevel(m, o, c.value, va, x4, 1);
    }
  }

  lemma DescendLevel(m: Memory, o: Own, t: nat, va: Word, x4: bool, level: nat)
    requires Shape(o) && Tree(m, o.tables) && 1 <= level <= 2
    requires IsSlot(o.tables, t, Index(va, level, x4)) && Level(o.tables[t]) == level
    ensures Descend(m, t, va, x4, level) ==
            match Child(m, t, Index(va, level, x4))
            case None => None
            case Some(c) => Descend(m, c, va, x4, level - 1)
  {
    hide Index, R, W, X, U, A, D, PoolShape;
    var i := Index(va, level, x4);
    assert EntryOk(m, o.tables, t, i);
    var c := Child(m, t, i);
    if c.Some? {
      PointerEntry(c.value);
    }
  }

  lemma LeafPage(e: Word)
    ensures e < RESERVED ==> PTE2PA(e) == (e / 1024) * 4096
    ensures var ppn: nat := e / 1024; (ppn * 4096) % 4096 == 0
  {
    var ppn: nat := e / 1024;
    ModUnique(ppn * 4096, 4096, ppn, 0);
  }

  /** For every table that the code can build, and every in-range address and access: the
  hardware translates exactly the mapped addresses whose entry permits the access, to the
  very address that convert_va_to_pa computes, and faults on all others. */
  lemma HardwareAgrees(m: Memory, o: Own, root: nat, va: Word, x4: bool, acc: Access)
    requires Shape(o) && Tree(m, o.tables) && root in o.tables && o.tables[root] == Root(x4)
    requires Canonical(va, x4)
    ensures var k, M := KeyOf(root, va, x4), MappingOf(m, o.tables);
            HwTranslate(m, root, va, x4, acc) ==
            if k in M && Permits(M[k], acc, x4) then Translate(m, root, va, x4) else None
  {
    hide Index, R, W, X, U, A, D, Shape, Tree, Translate, PTE2PA;
    var k := KeyOf(root, va, x4);
    DescendPath(m, o, root, va, x4);
    if k in MappingOf(m, o.tables) {
      TranslateMapped(m, o.tables, root, va, x4);
      LeafPage(MappingOf(m, o.tables)[k]);
    }
  }

  /** A device mapped with no permission bits (an emulated one) faults on every access, yet
  convert_va_to_pa still recovers its physical address: the two halves of trap and emulate. */
  lemma EmulatedDeviceTraps(m: Memory, o: Own, root: nat, va: Word, pa: Word, acc: Access)
    requires Shape(o) && Tree(m, o.tables) && root in o.tables && o.tables[root] == Root(true)
    requires Canonical(va, true) && pa % 4096 == 0
    requires KeyOf(root, va, true) in MappingOf(m, o.tables)
    requires MappingOf(m, o.tables)[KeyOf(root, va, true)] == LeafEntry(pa, PTE_U)
    ensures HwTranslate(m, root, va, true, acc) == None
    ensures Translate(m, root, va, true) == Some(pa + va % 4096)
  {
    hide Index, KeyOf, MappingOf, Translate, HwTranslate, Tree, Shape, PTE2PA, LeafEntry, Permits, Canonical;
    HardwareAgrees(m, o, root, va, true, acc);
    TranslateMapped(m, o.tables, root, va, true);
    SmallFlags(pa, PTE_U);
    LeafEntryFields(pa, PTE_U);
    NoPermission(pa, acc);
  }

  lemma NoPermission(pa: Word, acc: Access)
    ensures !Permits(LeafEntry(pa, PTE_U), acc, true)
  {
    FlagBits(pa / 4096, 17);
    SmallFlags(pa, PTE_U);
  }
}
