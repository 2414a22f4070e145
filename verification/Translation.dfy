/** What the tables mean for an address: convert_va_to_pa and map_pages in terms of the
abstract mapping. */
module Translation {
  import opened Wrappers
  import opened Bits
  import opened Layout
  import opened Tables
  import opened Mappings
  import opened Vmem

  // ---- index fields ----

  lemma IndexByPage(va: Word, level: nat, x4: bool)
    ensures level == 0 ==> Index(va, level, x4) == (va / 4096) % 512
    ensures level == 1 ==> Index(va, level, x4) == ((va / 4096) / 512) % 512
    ensures level >= 2 ==> Index(va, level, x4) == ((va / 4096) / 0x4_0000) % (if x4 then 2048 else 512)
  {
    DivDiv(va, 4096, 512);
    DivDiv(va, 4096, 0x4_0000);
  }

  lemma DivDiv(x: nat, a: nat, b: nat)
    requires a > 0 && b > 0 && a * b > 0
    ensures (x / a) / b == x / (a * b)
  {
    var p, r := x / a, x % a;
    var q, s := p / b, p % b;
    assert x == a * (b * q + s) + r;
    assert a * (b * q + s) == (a * b) * q + a * s;
    assert 0 <= a * s <= a * (b - 1) by {
      assert a * (b - 1) - a * s == a * (b - 1 - s);
      MulNonNegative(a, b - 1 - s);
    }
    ModUnique(x, a * b, q, a * s + r);
  }

  /** Only the page number of an address matters for its key. */
  lemma KeyOfPage(root: nat, a: Word, b: Word, x4: bool)
    requires a / 4096 == b / 4096
    ensures KeyOf(root, a, x4) == KeyOf(root, b, x4)
  {
    hide Index;
    forall level: nat | level <= 2
      ensures Index(a, level, x4) == Index(b, level, x4)
    {
      IndexByPage(a, level, x4);
      IndexByPage(b, level, x4);
    }
  }

  /** Adding an offset inside one page, with wrap-around at 2^64. */
  lemma SplitOffset(base: Word, d: nat)
    requires base % 4096 == 0
    ensures var p := Wrap(base + (d / 4096) * 4096);
            && p % 4096 == 0 && p <= WORD - 4096
            && Wrap(base + d) == p + d % 4096 && Wrap(base + d) / 4096 == p / 4096 && Wrap(base + d) % 4096 == d % 4096
  {
    var j, f := d / 4096, d % 4096;
    var b := base / 4096;
    WrapPages(b + j);
    var p := Wrap((b + j) * 4096);
    assert base + d == (b + j) * 4096 + f && base + j * 4096 == (b + j) * 4096;
    WrapUnique((b + j) * 4096, p, f);
    ModUnique(p + f, 4096, p / 4096, f);
  }

  lemma WrapPages(n: nat)
    ensures Wrap(n * 4096) % 4096 == 0 && Wrap(n * 4096) <= WORD - 4096
  {
    var M := 0x10_0000_0000_0000;
    var q, r := n / M, n % M;
    assert n * 4096 == WORD * q + r * 4096;
    ModUnique(n * 4096, WORD, q, r * 4096);
    ModUnique(r * 4096, 4096, r, 0);
  }

  lemma WrapUnique(x: nat, p: Word, f: nat)
    requires p == Wrap(x) && p + f < WORD
    ensures Wrap(x + f) == p + f
  {
    var q := x / WORD;
    assert x == WORD * q + x % WORD;
    assert p == x % WORD by {
      if x < WORD {
        ModUnique(x, WORD, 0, x);
      }
    }
    ModUnique(x + f, WORD, q, p + f);
  }

  // ---- convert_va_to_pa ----

  lemma OffsetOr(base: Word, va: Word)
    requires base % 4096 == 0
    ensures Or(base, va % 4096) == base + va % 4096
  {
    hide *;
    Pow2Values();
    OrDisjoint(base / 4096, va % 4096, 12);
  }

  lemma PageAddress(e: Word)
    ensures PTE2PA(e) % 4096 == 0
  {
    WrapPages(e / 1024);
  }

  /** On a mapped address convert_va_to_pa yields the entry's page and the offset. */
  lemma TranslateMapped(m: Memory, tables: map<nat, Kind>, root: nat, va: Word, x4: bool)
    requires KeyOf(root, va, x4) in MappingOf(m, tables)
    ensures Translate(m, root, va, x4) == Some(PTE2PA(MappingOf(m, tables)[KeyOf(root, va, x4)]) + va % 4096)
  {
    hide Or, PTE2PA, Index;
    var e := MappingOf(m, tables)[KeyOf(root, va, x4)];
    PageAddress(e);
    OffsetOr(PTE2PA(e), va);
  }

  /** The V bit that convert_va_to_pa does not test: on an unmapped address it still
  answers, with a bogus address inside page 0, whenever some neighbour in the same
  2 MB region made walk create the leaf table. It panics exactly when there is none. */
  lemma TranslateUnmapped(m: Memory, tables: map<nat, Kind>, root: nat, va: Word, x4: bool)
    requires Tree(m, tables) && IsKey(tables, KeyOf(root, va, x4))
    requires KeyOf(root, va, x4) !in MappingOf(m, tables)
    ensures Translate(m, root, va, x4) ==
            if LeafTable(m, KeyOf(root, va, x4)).Some? then Some(va % 4096) else None
  {
    hide Or, Index;
    var k := KeyOf(root, va, x4);
    Path(m, tables, k);
    var t := LeafTable(m, k);
    if t.Some? {
      assert IsSlot(tables, t.value, k.i0);
      assert EntryOk(m, tables, t.value, k.i0);
      assert PTE2PA(0) == 0;
      OffsetOr(0, va);
    }
  }

  /** Page j of the range at `va` has a leaf for target j. */
  ghost predicate RangeMapped(M: Mapping, root: nat, va: Word, flags: Word, x4: bool, targets: seq<Word>)
  {
    var ks := RangeKeys(root, va, x4, |targets|);
    forall j :: 0 <= j < |ks| ==> ks[j] in M && M[ks[j]] == LeafEntry(targets[j], flags)
  }

  /** Byte d of a mapped range, whatever the alignment: it lies in page (va % 4096 + d) / 4096
  of the range and keeps its own offset. */
  lemma MappedByte(m: Memory, tables: map<nat, Kind>, root: nat, va: Word, flags: Word, x4: bool,
                   targets: seq<Word>, d: nat)
    requires (va % 4096 + d) / 4096 < |targets| && RangeMapped(MappingOf(m, tables), root, va, flags, x4, targets)
    ensures var a, e := Wrap(va + d), LeafEntry(targets[(va % 4096 + d) / 4096], flags);
            && KeyOf(root, a, x4) in MappingOf(m, tables) && MappingOf(m, tables)[KeyOf(root, a, x4)] == e
            && Translate(m, root, a, x4) == Some(PTE2PA(e) + (va % 4096 + d) % 4096)
  {
    hide KeyOf, Index, Wrap, MappingOf, Translate, LeafEntry, PTE2PA, RangeKeys;
    var r := va % 4096;
    var j := (r + d) / 4096;
    var a, p := Wrap(va + d), Wrap(va + j * 4096);
    SplitOffset(va - r, r + d);
    PageOffsets(r, j);
    SplitOffset(va - r, r + j * 4096);
    KeyOfPage(root, a, p, x4);
    RangeKeysAt(root, va, x4, |targets|, j);
    TranslateMapped(m, tables, root, a, x4);
  }

  lemma PageOffsets(r: nat, j: nat)
    requires r < 4096
    ensures (r + j * 4096) / 4096 == j && (r + j * 4096) % 4096 == r
  {
    ModUnique(r + j * 4096, 4096, j, r);
  }

  /** With aligned `va` and proper flags: the page's target plus the offset. */
  lemma MappedTranslates(m: Memory, tables: map<nat, Kind>, root: nat, va: Word, flags: Word, x4: bool,
                         targets: seq<Word>, d: nat)
    requires flags < 1024 && va % 4096 == 0 && d / 4096 < |targets|
    requires RangeMapped(MappingOf(m, tables), root, va, flags, x4, targets)
    ensures Translate(m, root, Wrap(va + d), x4) == Some(targets[d / 4096] - targets[d / 4096] % 4096 + d % 4096)
    ensures KeyOf(root, Wrap(va + d), x4) in MappingOf(m, tables)
    ensures MappingOf(m, tables)[KeyOf(root, Wrap(va + d), x4)] == LeafEntry(targets[d / 4096], flags)
  {
    hide KeyOf, Wrap, MappingOf, Translate, LeafEntry, PTE2PA, RangeMapped, FlagsFit;
    MappedByte(m, tables, root, va, flags, x4, targets, d);
    SmallFlags(targets[d / 4096], flags);
    LeafEntryFields(targets[d / 4096], flags);
  }

  lemma ProgressMapped(o: Own, M: Mapping, o': Own, M': Mapping, root: nat, va: Word, pa: Word,
                       flags: Word, x4: bool, targets: seq<Word>, pages: seq<nat>)
    requires Progress(o, M, o', M', root, va, pa, flags, x4, targets, pages)
    ensures RangeMapped(M', root, va, flags, x4, targets)
  {
    hide MapSeq, RangeKeys, LeafEntry, Grown, Allocated, TargetsOk;
    MapSeqLookup(M, RangeKeys(root, va, x4, |targets|), Entries(targets, flags));
  }

  /** The headline, for all addresses and flags: when map_pages(va, pa, ...) with pa != 0 has
  mapped the page of byte va + d, that byte translates to pa + d if and only if va and pa have
  the same page offset and the flags fit; with other offsets it is off by their difference. */
  lemma MapPagesTranslates(m: Memory, tables: map<nat, Kind>, o: Own, o': Own, M: Mapping, root: nat, va: Word,
                           pa: Word,
                           flags: Word, x4: bool, targets: seq<Word>, pages: seq<nat>, d: nat)
    requires pa != 0 && (va % 4096 + d) / 4096 < |targets|
    requires Progress(o, M, o', MappingOf(m, tables), root, va, pa, flags, x4, targets, pages)
    ensures var r, t := Translate(m, root, Wrap(va + d), x4), targets[(va % 4096 + d) / 4096];
            && (r == Some(Wrap(pa + d)) <==> va % 4096 == pa % 4096 && FlagsFit(t, flags))
            && (FlagsFit(t, flags) ==> r == Some(Wrap(pa - pa % 4096 + va % 4096 + d)))
  {
    hide FreshKeys, RangeKeys, Entries, MapSeq, MappingOf, Translate, Wrap, Grown, Allocated, RangeMapped, KeyOf,
         LeafEntry, PTE2PA, FlagsFit;
    ProgressMapped(o, M, o', MappingOf(m, tables), root, va, pa, flags, x4, targets, pages);
    MappedByte(m, tables, root, va, flags, x4, targets, d);
    var j := (va % 4096 + d) / 4096;
    LeafEntryFields(targets[j], flags);
    ByteOnto(va % 4096, pa, d, j, PTE2PA(LeafEntry(targets[j], flags)));
  }

  /** Page arithmetic of one byte: r is the offset of va, p the page that the leaf names. */
  lemma ByteOnto(r: nat, pa: Word, d: nat, j: nat, p: nat)
    requires r < 4096 && j == (r + d) / 4096 && p % 4096 == 0
    ensures var t := Wrap(pa + j * 4096);
            && (p + (r + d) % 4096 == Wrap(pa + d) <==> r == pa % 4096 && p == t - t % 4096)
            && (p == t - t % 4096 ==> p + (r + d) % 4096 == Wrap(pa - pa % 4096 + r + d))
  {
    hide Wrap;
    var s := pa % 4096;
    var base := pa - s;
    SplitOffset(base, r + d);
    SplitOffset(base, s + d);
    PageOffsets(s, j);
    SplitOffset(base, s + j * 4096);
    SameOffset(r, s, d);
    OffsetsApart(p, (r + d) % 4096, Wrap(base + ((s + d) / 4096) * 4096), (s + d) % 4096);
  }

  lemma SameOffset(r: nat, s: nat, d: nat)
    requires r < 4096 && s < 4096
    ensures (r + d) % 4096 == (s + d) % 4096 <==> r == s
  {
  }

  lemma OffsetsApart(p: nat, f: nat, q: nat, g: nat)
    requires p % 4096 == 0 && q % 4096 == 0 && f < 4096 && g < 4096
    ensures p + f == q + g <==> p == q && f == g
  {
  }

  /** Any key that is not one of the range's pages keeps its entry or stays unmapped. */
  lemma MapPagesKeepsOthers(o: Own, o': Own, M: Mapping, M': Mapping, root: nat, va: Word, pa: Word,
                            flags: Word, x4: bool, targets: seq<Word>, pages: seq<nat>, k: Key)
    requires Progress(o, M, o', M', root, va, pa, flags, x4, targets, pages)
    requires forall j: nat :: j < |targets| ==> k != KeyOf(root, Wrap(va + j * 4096), x4)
    ensures (k in M' <==> k in M) && (k in M ==> M'[k] == M[k])
  {
    hide KeyOf, Wrap, MapSeq, RangeKeys, Grown, Allocated, TargetsOk;
    var ks := RangeKeys(root, va, x4, |targets|);
    forall j | 0 <= j < |ks|
      ensures ks[j] != k
    {
      RangeKeysAt(root, va, x4, |targets|, j);
    }
    MapSeqLookup(M, ks, Entries(targets, flags));
  }

  // ---- which bytes a call covers ----

  /** Number of different keys of a root. */
  function KeySpace(x4: bool): nat {
    if x4 then 0x2000_0000 else 0x800_0000
  }

  /** The three index fields together are the page number modulo the key space. */
  lemma PageFields(p: nat, top: nat)
    requires top > 0
    ensures p % (0x4_0000 * top) == 0x4_0000 * ((p / 0x4_0000) % top) + 512 * ((p / 512) % 512) + p % 512
  {
    var q, a := p / 512, p % 512;
    var u, b := q / 512, q % 512;
    DivDiv(p, 512, 512);
    var w, c := u / top, u % top;
    assert u == top * w + c;
    assert p == 0x4_0000 * u + 512 * b + a;
    assert 0x4_0000 * (top * w + c) == (0x4_0000 * top) * w + 0x4_0000 * c;
    ModUnique(p, 0x4_0000 * top, w, 0x4_0000 * c + 512 * b + a);
  }

  lemma SameKey(root: nat, a: Word, b: Word, x4: bool)
    ensures KeyOf(root, a, x4) == KeyOf(root, b, x4) <==> (a / 4096) % KeySpace(x4) == (b / 4096) % KeySpace(x4)
  {
    hide Index;
    var top := if x4 then 2048 else 512;
    PageFields(a / 4096, top);
    PageFields(b / 4096, top);
    IndexByPage(a, 0, x4);
    IndexByPage(a, 1, x4);
    IndexByPage(a, 2, x4);
    IndexByPage(b, 0, x4);
    IndexByPage(b, 1, x4);
    IndexByPage(b, 2, x4);
    SameFields(Index(a, 2, x4), Index(a, 1, x4), Index(a, 0, x4), Index(b, 2, x4), Index(b, 1, x4), Index(b, 0, x4));
  }

  lemma SameFields(a2: nat, a1: nat, a0: nat, b2: nat, b1: nat, b0: nat)
    requires a1 < 512 && a0 < 512 && b1 < 512 && b0 < 512
    ensures 0x4_0000 * a2 + 512 * a1 + a0 == 0x4_0000 * b2 + 512 * b1 + b0 <==> a2 == b2 && a1 == b1 && a0 == b0
  {
  }

  /** Wrap-around at 2^64 does not matter for the key. */
  lemma WrapKey(x: nat, x4: bool)
    ensures (Wrap(x) / 4096) % KeySpace(x4) == (x / 4096) % KeySpace(x4)
  {
    var q, w := x / WORD, x % WORD;
    assert x == WORD * q + w;
    assert Wrap(x) == w by {
      if x < WORD {
        ModUnique(x, WORD, 0, x);
      }
    }
    ModUnique(x, 4096, 0x10_0000_0000_0000 * q + w / 4096, w % 4096);
    var n := KeySpace(x4);
    var c := if x4 then 0x80_0000 else 0x200_0000;
    var e, f := (w / 4096) / n, (w / 4096) % n;
    assert 0x10_0000_0000_0000 * q + w / 4096 == n * (c * q + e) + f by {
      assert n * (c * q) == 0x10_0000_0000_0000 * q;
      assert n * (c * q + e) == n * (c * q) + n * e;
    }
    ModUnique(0x10_0000_0000_0000 * q + w / 4096, n, c * q + e, f);
  }

  /** Addresses have the same key if and only if they are a multiple of the key space apart. */
  lemma KeysMeet(root: nat, x: nat, y: nat, x4: bool)
    ensures KeyOf(root, Wrap(x), x4) == KeyOf(root, Wrap(y), x4) <==> (x / 4096 - y / 4096) % KeySpace(x4) == 0
  {
    hide KeyOf, Wrap;
    SameKey(root, Wrap(x), Wrap(y), x4);
    WrapKey(x, x4);
    WrapKey(y, x4);
    ModDifference(x / 4096, y / 4096, KeySpace(x4));
  }

  lemma ModDifference(x: nat, y: nat, n: nat)
    requires n > 0
    ensures x % n == y % n <==> (x - y) % n == 0
  {
    var a, e, b, f := x / n, x % n, y / n, y % n;
    assert n * (a - b) == n * a - n * b;
    if e >= f {
      ModUnique(x - y, n, a - b, e - f);
    } else {
      assert n * (a - b - 1) == n * (a - b) - n;
      ModUnique(x - y, n, a - b - 1, e - f + n);
    }
  }

  /** Byte d of the range at `va` has a valid leaf. */
  ghost predicate Covered(M: Mapping, root: nat, va: Word, x4: bool, d: nat) {
    KeyOf(root, Wrap(va + d), x4) in M
  }

  /** The pages of the range get leaves; any other key keeps what it had. */
  lemma RangeCovers(o: Own, M: Mapping, o': Own, M': Mapping, root: nat, va: Word, pa: Word,
                    flags: Word, x4: bool, targets: seq<Word>, pages: seq<nat>, x: nat)
    requires Progress(o, M, o', M', root, va, pa, flags, x4, targets, pages) && x >= va / 4096 * 4096
    ensures var j := x / 4096 - va / 4096;
            && (0 <= j < |targets| ==> KeyOf(root, Wrap(x), x4) in M')
            && (j == |targets| ==> (KeyOf(root, Wrap(x), x4) in M' <==>
                                    KeyOf(root, Wrap(x), x4) in M || |targets| == KeySpace(x4)))
  {
    hide KeyOf, Wrap, Progress;
    var j := x / 4096 - va / 4096;
    var n := |targets|;
    FewKeys(o, M, o', M', root, va, pa, flags, x4, targets, pages);
    if 0 <= j < n {
      RangeKey(o, M, o', M', root, va, pa, flags, x4, targets, pages, j);
      KeyOfByte(root, va, x4, x, j);
    } else if j == n {
      if n == KeySpace(x4) {
        RangeKey(o, M, o', M', root, va, pa, flags, x4, targets, pages, 0);
        KeyOfByte(root, va, x4, x, 0);
      } else {
        forall i: nat | i < n
          ensures KeyOf(root, Wrap(x), x4) != KeyOf(root, Wrap(va + i * 4096), x4)
        {
          KeyOfByte(root, va, x4, x, i);
        }
        MapPagesKeepsOthers(o, o', M, M', root, va, pa, flags, x4, targets, pages, KeyOf(root, Wrap(x), x4));
      }
    }
  }

  /** When the page of address x is page i of the range, up to the key space. */
  lemma KeyOfByte(root: nat, va: Word, x4: bool, x: nat, i: nat)
    ensures KeyOf(root, Wrap(x), x4) == KeyOf(root, Wrap(va + i * 4096), x4) <==>
            (x / 4096 - va / 4096 - i) % KeySpace(x4) == 0
  {
    hide KeyOf, Wrap;
    KeysMeet(root, x, va + i * 4096, x4);
    ModUnique(va + i * 4096, 4096, va / 4096 + i, va % 4096);
  }

  lemma RangeKey(o: Own, M: Mapping, o': Own, M': Mapping, root: nat, va: Word, pa: Word,
                 flags: Word, x4: bool, targets: seq<Word>, pages: seq<nat>, j: nat)
    requires Progress(o, M, o', M', root, va, pa, flags, x4, targets, pages) && j < |targets|
    ensures KeyOf(root, Wrap(va + j * 4096), x4) in M' && KeyOf(root, Wrap(va + j * 4096), x4) !in M
  {
    hide KeyOf, Wrap, MapSeq, RangeKeys, LeafEntry, Grown, Allocated, TargetsOk;
    ProgressMapped(o, M, o', M', root, va, pa, flags, x4, targets, pages);
    RangeKeysAt(root, va, x4, |targets|, j);
  }

  /** No call maps more pages than there are keys: the remap panic stops it. */
  lemma FewKeys(o: Own, M: Mapping, o': Own, M': Mapping, root: nat, va: Word, pa: Word,
                flags: Word, x4: bool, targets: seq<Word>, pages: seq<nat>)
    requires Progress(o, M, o', M', root, va, pa, flags, x4, targets, pages)
    ensures |targets| <= KeySpace(x4)
  {
    hide KeyOf, Wrap, MapSeq, RangeKeys, Entries, Grown, Allocated, TargetsOk;
    var n := KeySpace(x4);
    if |targets| > n {
      RangeKeysAt(root, va, x4, |targets|, 0);
      RangeKeysAt(root, va, x4, |targets|, n);
      ModUnique(va + n * 4096, 4096, va / 4096 + n, va % 4096);
      KeysMeet(root, va + 0 * 4096, va + n * 4096, x4);
    }
  }

  /** map_pages(va, _, size) that returned 0 has covered the requested range [va, va + size) if
  and only if the range ends within the pages it maps, or its last page was mapped before, or
  the call mapped the whole key space. */
  lemma CoverageExact(o: Own, M: Mapping, o': Own, M': Mapping, root: nat, va: Word, pa: Word, size: Word,
                      flags: Word, x4: bool, targets: seq<Word>, pages: seq<nat>)
    requires 0 < size <= WORD - 4096 && |targets| == PageCount(size)
    requires Progress(o, M, o', M', root, va, pa, flags, x4, targets, pages)
    ensures (forall d: nat :: d < size ==> Covered(M', root, va, x4, d)) <==>
            || va % 4096 + size <= PGROUNDUP(size)
            || Covered(M, root, va, x4, size - 1)
            || PageCount(size) == KeySpace(x4)
  {
    hide Covered, Progress, PGROUNDUP, PageCount;
    var end := PageCount(size) * 4096 - va % 4096;
    SizePages(size);
    forall d: nat | d < size
      ensures d < end ==> Covered(M', root, va, x4, d)
      ensures d >= end ==> (Covered(M', root, va, x4, d) <==> Covered(M', root, va, x4, size - 1))
    {
      CoveredByte(o, M, o', M', root, va, pa, size, flags, x4, targets, pages, d);
      CoveredByte(o, M, o', M', root, va, pa, size, flags, x4, targets, pages, size - 1);
    }
    CoveredByte(o, M, o', M', root, va, pa, size, flags, x4, targets, pages, size - 1);
  }

  /** One byte of the request: in a page of the call, or in the page behind them. */
  lemma CoveredByte(o: Own, M: Mapping, o': Own, M': Mapping, root: nat, va: Word, pa: Word, size: Word,
                    flags: Word, x4: bool, targets: seq<Word>, pages: seq<nat>, d: nat)
    requires d < size <= WORD - 4096 && |targets| == PageCount(size)
    requires Progress(o, M, o', M', root, va, pa, flags, x4, targets, pages)
    ensures var end := PageCount(size) * 4096 - va % 4096;
            if d < end then Covered(M', root, va, x4, d)
            else
              && (Covered(M', root, va, x4, d) <==> Covered(M, root, va, x4, d) || PageCount(size) == KeySpace(x4))
              && (Covered(M', root, va, x4, d) <==> Covered(M', root, va, x4, size - 1))
  {
    hide KeyOf, Wrap, Progress, PGROUNDUP, PageCount;
    SizePages(size);
    BytePage(va, d);
    BytePage(va, size - 1);
    PageOfByte(va % 4096, d, |targets|);
    PageOfByte(va % 4096, size - 1, |targets|);
    RangeCovers(o, M, o', M', root, va, pa, flags, x4, targets, pages, va + d);
    KeysMeet(root, va + d, va + (size - 1), x4);
  }

  lemma PageOfByte(r: nat, d: nat, n: nat)
    requires r < 4096 && d < n * 4096
    ensures r + d < n * 4096 ==> 0 <= (r + d) / 4096 < n
    ensures r + d >= n * 4096 ==> (r + d) / 4096 == n
  {
  }

  lemma BytePage(va: nat, d: nat)
    ensures va + d >= va / 4096 * 4096 && (va + d) / 4096 - va / 4096 == (va % 4096 + d) / 4096
  {
    var q, f := (va % 4096 + d) / 4096, (va % 4096 + d) % 4096;
    ModUnique(va + d, 4096, va / 4096 + q, f);
  }

  /** Rounding up, where it does not wrap. */
  lemma SizePages(size: Word)
    requires 0 < size <= WORD - 4096
    ensures PGROUNDUP(size) == PageCount(size) * 4096 && size <= PageCount(size) * 4096 < size + 4096
  {
    RoundedUp(size);
  }

  /** A size so large that rounding up wraps maps nothing, like size 0. */
  lemma NoPages(size: Word)
    ensures PageCount(size) == 0 <==> size == 0 || size > WORD - 4096
  {
    if 0 < size <= WORD - 4096 {
      SizePages(size);
    }
  }

  /** A failing request: 4 KB at 0x1800 in an empty root. Its last byte has no leaf after the
  call, whatever the target; a request of 256 bytes there is covered. */
  lemma UnalignedUncovered(o: Own, M: Mapping, o': Own, M': Mapping, root: nat, pa: Word, size: Word,
                           flags: Word, targets: seq<Word>, pages: seq<nat>)
    requires size == 0x1000 || size == 0x100
    requires |targets| == PageCount(size) && Progress(o, M, o', M', root, 0x1800, pa, flags, false, targets, pages)
    requires forall k <- M :: k.root != root
    ensures size == 0x1000 ==> !Covered(M', root, 0x1800, false, 0xfff)
    ensures size == 0x100 ==> forall d: nat :: d < size ==> Covered(M', root, 0x1800, false, d)
  {
    hide Progress, KeyOf, PageCount, PGROUNDUP, Wrap;
    SizePages(size);
    OnePage(PageCount(size), size);
    KeyRootOf(root, Wrap(0x1800 + 0xfff), false);
    CoverageExact(o, M, o', M', root, 0x1800, pa, size, flags, false, targets, pages);
    RangeCovers(o, M, o', M', root, 0x1800, pa, flags, false, targets, pages, 0x1800 + 0xfff);
  }

  lemma OnePage(n: nat, size: nat)
    requires 0 < size <= 0x1000 && size <= n * 4096 < size + 4096
    ensures n == 1
  {
  }

  lemma KeyRootOf(root: nat, va: Word, x4: bool)
    ensures KeyOf(root, va, x4).root == root
  {
  }
}
