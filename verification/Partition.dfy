/** CPU affinities: the configuration check, VM lookup, virtual hart ids and VM barriers
(vm_run.c, vcpu.c, bits.c). */
module Partition {
  import opened Bits
  import opened Config
  import Barrier

  /** The number of set bits of x below position n. */
  function Rank(x: nat, n: nat): (r: nat)
    ensures r <= n
  {
    if n == 0 then 0 else Rank(x, n - 1) + if Bit(x, n - 1) then 1 else 0
  }

  /** `1 << k` in a 32-bit int, converted to 64 bits: bit 31 is the sign and fills the upper half. */
  function IntShift(k: nat): Word
    requires k < 32
  {
    if k < 31 then Mask(k) else WORD - 0x8000_0000
  }

  function Mask(k: nat): (m: Word)
    requires k < 31
    ensures m == Pow2(k)
  {
    Pow2Values();
    Pow2Monotone(k, 31);
    Pow2(k)
  }

  lemma {:induction false} BitDiv(x: nat, i: nat)
    ensures Bit(x, i) <==> (x / Pow2(i)) % 2 == 1
    decreases i
  {
    if i > 0 {
      BitDiv(x / 2, i - 1);
      DivTwice(x, Pow2(i - 1));
    }
  }

  // ---- count_set_bits ----

  /** What the loop counts: the bits below 31, and once for anything above. */
  function Counted(num: Word): nat {
    Rank(num, 31) + if num >= 0x8000_0000 then 1 else 0
  }

  lemma SignMask(num: Word)
    ensures And(num, WORD - 0x8000_0000) != 0 <==> num >= 0x8000_0000
  {
    var m := 0x8000_0000;
    Pow2Values();
    NotMask(m - 1);
    if And(num, WORD - m) != 0 {
      var i := NonZeroBit(And(num, WORD - m));
      AndBit(num, WORD - m, i);
      NotBit(m - 1, 64, i);
      LowOnes(i);
      if num < m {
        HighBit(num, 31, i);
      }
    } else if num >= m {
      var i := HighWitness(num, 31);
      if i >= 64 {
        HighBit(num, 64, i);
      }
      AndBit(num, WORD - m, i);
      NotBit(m - 1, 64, i);
      LowOnes(i);
      ZeroBit(i);
    }
  }

  lemma NotMask(m: nat)
    requires m < WORD
    ensures Pow2(64) - 1 - m == WORD - (m + 1)
  {
    Pow2Values();
  }

  /** 2^31 - 1 has exactly the bits below 31. */
  lemma LowOnes(i: nat)
    ensures Bit(0x7fff_ffff, i) <==> i < 31
  {
    Pow2Values();
    NotBit(0, 31, i);
    ZeroBit(i);
  }

  lemma {:induction false} HighWitness(x: nat, n: nat) returns (i: nat)
    requires x >= Pow2(n)
    ensures i >= n && Bit(x, i)
    decreases n
  {
    if n == 0 {
      i := NonZeroBit(x);
    } else {
      i := HighWitness(x / 2, n - 1);
      i := i + 1;
    }
  }

  /** count_set_bits: its int mask makes one test of the bits from 31 up. */
  method CountSetBits(num: Word) returns (count: nat)
    ensures count == Counted(num)
  {
    count := 0;
    var k := 0;
    while k < 32
      invariant 0 <= k <= 32
      invariant k <= 31 ==> count == Rank(num, k)
      invariant k == 32 ==> count == Counted(num)
    {
      if And(num, IntShift(k)) != 0 {
        count := count + 1;
      }
      SignMask(num);
      AndPow2(num, k);
      k := k + 1;
    }
  }

  /** count_set_bits is the population count exactly when at most one bit from 31 up is set. */
  lemma CountExact(num: Word)
    ensures Counted(num) == Rank(num, 64) <==> AtMostOne(num, 31, 64)
  {
    hide Bit, Rank;
    RankFrom(num, 31, 64);
    Pow2Values();
    if num >= 0x8000_0000 {
      var i := HighWitness(num, 31);
      if i >= 64 {
        HighBit(num, 64, i);
      }
      RankUp(num, 31, 64);
    } else {
      forall i | 31 <= i < 64
        ensures !Bit(num, i)
      {
        HighBit(num, 31, i);
      }
      RankUp(num, 31, 64);
    }
  }

  lemma {:induction false} RankUp(x: nat, a: nat, b: nat)
    requires a <= b
    ensures Rank(x, a) <= Rank(x, b)
    ensures Rank(x, a) == Rank(x, b) <==> Clear(x, a, b)
    decreases b
  {
    hide Bit;
    if a < b {
      RankUp(x, a, b - 1);
      assert Clear(x, a, b) <==> Clear(x, a, b - 1) && !Bit(x, b - 1);
    }
  }

  /** No bit of x from a to b - 1 is set. */
  predicate Clear(x: nat, a: nat, b: nat) {
    forall i :: a <= i < b ==> !Bit(x, i)
  }

  /** At most one is. */
  predicate AtMostOne(x: nat, a: nat, b: nat) {
    forall i, j :: a <= i < j < b ==> !(Bit(x, i) && Bit(x, j))
  }

  /** At most one bit between a and b. */
  lemma {:induction false} RankFrom(x: nat, a: nat, b: nat)
    requires a <= b
    ensures Rank(x, b) <= Rank(x, a) + 1 <==> AtMostOne(x, a, b)
    decreases b
  {
    hide Bit;
    if a < b {
      RankFrom(x, a, b - 1);
      RankUp(x, a, b - 1);
      if Bit(x, b - 1) {
        OneMore(x, a, b);
      } else {
        assert AtMostOne(x, a, b) <==> AtMostOne(x, a, b - 1);
      }
    }
  }

  lemma OneMore(x: nat, a: nat, b: nat)
    requires a < b && Bit(x, b - 1)
    ensures AtMostOne(x, a, b) <==> Clear(x, a, b - 1)
  {
    hide Bit;
    if !Clear(x, a, b - 1) {
      var i :| a <= i < b - 1 && Bit(x, i);
      assert Bit(x, i) && Bit(x, b - 1);
    }
  }

  // ---- check_cpu_configuration ----

  ghost predicate Shares(a: VmConfig, b: VmConfig) {
    exists h: nat :: Bit(a.cpuAffinity, h) && Bit(b.cpuAffinity, h)
  }

  lemma AndShares(a: VmConfig, b: VmConfig)
    ensures And(a.cpuAffinity, b.cpuAffinity) != 0 <==> Shares(a, b)
  {
    hide Bit, And;
    var m := And(a.cpuAffinity, b.cpuAffinity);
    if m != 0 {
      var h := NonZeroBit(m);
      AndBit(a.cpuAffinity, b.cpuAffinity, h);
    } else if Shares(a, b) {
      var h: nat :| Bit(a.cpuAffinity, h) && Bit(b.cpuAffinity, h);
      AndBit(a.cpuAffinity, b.cpuAffinity, h);
      ZeroBit(h);
    }
  }

  /** No two VMs share a CPU. */
  ghost predicate Disjoint(config: seq<VmConfig>) {
    forall i, j :: 0 <= j < i < |config| ==> !Shares(config[i], config[j])
  }

  /** The sum of the bit counts. */
  function Total(config: seq<VmConfig>): nat {
    if config == [] then 0 else Total(config[..|config| - 1]) + Counted(config[|config| - 1].cpuAffinity)
  }

  /** The check's verdict; the other two are its panics. */
  datatype Verdict = Passed | Shared(j: nat, i: nat) | Misconfigured(count: nat)

  /** check_cpu_configuration: which of the three happens, and for an overlap the first pair. */
  method CheckCpuConfiguration(config: seq<VmConfig>, nrCpus: int) returns (r: Verdict)
    ensures r.Passed? <==> Disjoint(config) && Total(config) == nrCpus
    ensures r.Misconfigured? ==> Disjoint(config) && Total(config) == r.count != nrCpus
    ensures r.Shared? ==> r.j < r.i < |config| && Shares(config[r.i], config[r.j])
    ensures r.Shared? ==> Disjoint(config[..r.i]) && forall j :: 0 <= j < r.j ==> !Shares(config[r.i], config[j])
  {
    hide Bit, And, Counted, Shares;
    var i := 0;
    while i < |config|
      invariant 0 <= i <= |config|
      invariant Disjoint(config[..i])
    {
      var j := 0;
      while j < i
        invariant 0 <= j <= i
        invariant forall k :: 0 <= k < j ==> !Shares(config[i], config[k])
      {
        AndShares(config[i], config[j]);
        if And(config[i].cpuAffinity, config[j].cpuAffinity) != 0 {
          return Shared(j, i);
        }
        j := j + 1;
      }
      i := i + 1;
    }
    assert config[..i] == config;
    var n := 0;
    i := 0;
    while i < |config|
      invariant 0 <= i <= |config|
      invariant n == Total(config[..i])
    {
      var c := CountSetBits(config[i].cpuAffinity);
      assert config[..i + 1][..i] == config[..i];
      n := n + c;
      i := i + 1;
    }
    assert config[..i] == config;
    r := if n != nrCpus then Misconfigured(n) else Passed;
  }

  // ---- what a passed check means ----

  /** Hart h belongs to VM i and to no other. */
  predicate BelongsTo(config: seq<VmConfig>, h: nat, i: nat) {
    i < |config| && Bit(config[i].cpuAffinity, h) && forall j :: 0 <= j < |config| && j != i ==>
        !Bit(config[j].cpuAffinity, h)
  }

  /** Every hart below nr belongs to exactly one VM. */
  ghost predicate Partitioned(config: seq<VmConfig>, nr: nat) {
    forall h: nat :: h < nr ==> HasOne(config, h)
  }

  ghost predicate HasOne(config: seq<VmConfig>, h: nat) {
    exists i: nat :: BelongsTo(config, h, i)
  }

  /** No affinity names a hart from nr up. */
  predicate InRange(config: seq<VmConfig>, nr: nat) {
    forall i :: 0 <= i < |config| ==> config[i].cpuAffinity < Pow2(nr)
  }

  /** The number of VMs that have hart h. */
  function Owners(config: seq<VmConfig>, h: nat): nat {
    if config == [] then 0
    else
      var n := |config| - 1;
      Owners(config[..n], h) + if Bit(config[n].cpuAffinity, h) then 1 else 0
  }

  function SumRank(config: seq<VmConfig>, n: nat): nat {
    if config == [] then 0 else SumRank(config[..|config| - 1], n) + Rank(config[|config| - 1].cpuAffinity, n)
  }

  lemma {:induction false} SumRankStep(config: seq<VmConfig>, n: nat)
    ensures SumRank(config, n + 1) == SumRank(config, n) + Owners(config, n)
  {
    hide Bit;
    if config != [] {
      SumRankStep(config[..|config| - 1], n);
    }
  }

  lemma {:induction false} SumRankZero(config: seq<VmConfig>)
    ensures SumRank(config, 0) == 0
  {
    if config != [] {
      SumRankZero(config[..|config| - 1]);
    }
  }

  lemma {:induction false} NoOwner(config: seq<VmConfig>, h: nat)
    ensures Owners(config, h) == 0 <==> forall j :: 0 <= j < |config| ==> !Bit(config[j].cpuAffinity, h)
  {
    hide Bit;
    if config != [] {
      var n := |config| - 1;
      NoOwner(config[..n], h);
      assert forall j :: 0 <= j < n ==> config[..n][j] == config[j];
    }
  }

  lemma {:induction false} OneOwner(config: seq<VmConfig>, h: nat)
    ensures Owners(config, h) == 1 <==> HasOne(config, h)
  {
    hide Bit;
    if config != [] {
      var n := |config| - 1;
      var c := config[..n];
      OneOwner(c, h);
      NoOwner(c, h);
      if Bit(config[n].cpuAffinity, h) {
        assert Owners(c, h) == 0 <==> BelongsTo(config, h, n);
        assert forall i: nat :: i < n ==> !BelongsTo(config, h, i);
      } else {
        assert forall i: nat :: i < n ==> (BelongsTo(config, h, i) <==> BelongsTo(c, h, i));
      }
    }
  }

  lemma {:induction false} FewOwners(config: seq<VmConfig>, h: nat)
    requires Disjoint(config)
    ensures Owners(config, h) <= 1
  {
    hide Bit;
    if config != [] {
      var n := |config| - 1;
      FewOwners(config[..n], h);
      NoOwner(config[..n], h);
      if Bit(config[n].cpuAffinity, h) {
        forall j | 0 <= j < n
          ensures !Bit(config[..n][j].cpuAffinity, h)
        {
          assert !Shares(config[n], config[j]);
        }
      }
    }
  }

  /** Disjoint VMs have n harts below n exactly when they partition them. */
  lemma {:induction false} FullSum(config: seq<VmConfig>, n: nat)
    requires Disjoint(config)
    ensures SumRank(config, n) <= n
    ensures SumRank(config, n) == n <==> Partitioned(config, n)
  {
    hide Bit, Owners, SumRank, Disjoint, HasOne;
    if n == 0 {
      SumRankZero(config);
    } else {
      FullSum(config, n - 1);
      SumRankStep(config, n - 1);
      FewOwners(config, n - 1);
      OneOwner(config, n - 1);
      assert Partitioned(config, n) <==> Partitioned(config, n - 1) && HasOne(config, n - 1);
    }
  }

  lemma CountedAbove(a: Word, nr: nat)
    requires nr <= 31
    ensures Counted(a) >= Rank(a, nr)
    ensures Counted(a) == Rank(a, nr) <==> a < Pow2(nr)
  {
    hide Bit, Rank, Pow2;
    RankUp(a, nr, 31);
    Pow2Values();
    Pow2Monotone(nr, 31);
    if a < Pow2(nr) {
      forall i | nr <= i < 31
        ensures !Bit(a, i)
      {
        HighBit(a, nr, i);
      }
    } else {
      var i := HighWitness(a, nr);
      if a < 0x8000_0000 && i >= 31 {
        HighBit(a, 31, i);
      }
    }
  }

  lemma {:induction false} TotalAbove(config: seq<VmConfig>, nr: nat)
    requires nr <= 31
    ensures Total(config) >= SumRank(config, nr)
    ensures Total(config) == SumRank(config, nr) <==> InRange(config, nr)
  {
    hide Rank, Pow2, Counted;
    if config != [] {
      var n := |config| - 1;
      TotalAbove(config[..n], nr);
      CountedAbove(config[n].cpuAffinity, nr);
      assert InRange(config, nr) <==> InRange(config[..n], nr) && config[n].cpuAffinity < Pow2(nr);
    }
  }

  /** A passed check with up to 31 CPUs: every hart belongs to exactly one VM if and only if no
  affinity names a hart that does not exist. */
  lemma CheckMeans(config: seq<VmConfig>, nr: nat)
    requires nr <= 31 && Disjoint(config) && Total(config) == nr
    ensures Partitioned(config, nr) <==> InRange(config, nr)
  {
    hide Disjoint, Total, SumRank, InRange, Partitioned;
    FullSum(config, nr);
    TotalAbove(config, nr);
  }

  /** The check passes for every partition of the harts. */
  lemma CheckComplete(config: seq<VmConfig>, nr: nat)
    requires nr <= 31 && InRange(config, nr) && Partitioned(config, nr)
    ensures Disjoint(config) && Total(config) == nr
  {
    hide Bit, Total, SumRank, Pow2;
    forall i, j | 0 <= j < i < |config|
      ensures !Shares(config[i], config[j])
    {
      forall h: nat
        ensures !(Bit(config[i].cpuAffinity, h) && Bit(config[j].cpuAffinity, h))
      {
        if h < nr {
          assert HasOne(config, h);
          var k: nat :| BelongsTo(config, h, k);
        } else {
          HighBit(config[i].cpuAffinity, nr, h);
        }
      }
    }
    FullSum(config, nr);
    TotalAbove(config, nr);
  }

  /** The check alone is not enough: two CPUs, one VM on harts 1 and 2. It passes, and hart 0
  has no VM. */
  lemma CheckMissesHart(vm: VmConfig)
    requires vm.cpuAffinity == 6
    ensures Disjoint([vm]) && Total([vm]) == 2
    ensures forall i: nat :: !BelongsTo([vm], 0, i)
  {
    CountedAbove(6, 3);
    assert Pow2(3) == 8;
    assert Bit(6, 1) && Bit(6, 2) && !Bit(6, 0);
    assert Rank(6, 3) == 2;
    assert [vm][..0] == [];
  }

  // ---- get_config_for_cpu ----

  datatype Lookup = Found(vm: nat) | NoVm

  /** The test `cpu_affinity & (1 << hartid)`; the shift instruction takes the amount modulo 32. */
  predicate Selected(a: Word, hartid: nat) {
    var k := hartid % 32;
    if k < 31 then Bit(a, k) else a >= 0x8000_0000
  }

  /** get_config_for_cpu: the first VM that has the hart, or the panic. */
  method GetConfigForCpu(config: seq<VmConfig>, hartid: nat) returns (r: Lookup)
    ensures r.Found? ==> r.vm < |config| && Selected(config[r.vm].cpuAffinity, hartid)
    ensures forall j :: 0 <= j < (if r.Found? then r.vm else |config|) ==> !Selected(config[j].cpuAffinity, hartid)
    ensures forall i: nat :: hartid < 31 && BelongsTo(config, hartid, i) ==> r == Found(i)
  {
    hide Bit, And, Pow2;
    var i := 0;
    while i < |config|
      invariant 0 <= i <= |config|
      invariant forall j :: 0 <= j < i ==> !Selected(config[j].cpuAffinity, hartid)
    {
      SignMask(config[i].cpuAffinity);
      AndPow2(config[i].cpuAffinity, hartid % 32);
      if And(config[i].cpuAffinity, IntShift(hartid % 32)) != 0 {
        return Found(i);
      }
      i := i + 1;
    }
    r := NoVm;
  }

  // ---- get_vhartid ----

  /** get_vhartid: the number of lower harts of the same VM. */
  method GetVhartid(hartid: nat, cpuAffinity: Word) returns (vhartid: nat)
    ensures vhartid == Rank(cpuAffinity, hartid)
  {
    hide Bit, Pow2;
    vhartid := 0;
    var rest: nat := cpuAffinity;
    var i := 0;
    Pow2Zero();
    while i < hartid
      invariant 0 <= i <= hartid
      invariant rest == cpuAffinity / Pow2(i)
      invariant vhartid == Rank(cpuAffinity, i)
    {
      BitDiv(cpuAffinity, i);
      AndOne(rest);
      if And(rest, 1) != 0 {
        vhartid := vhartid + 1;
      }
      DivTwice(cpuAffinity, Pow2(i));
      Pow2Next(i);
      rest := rest / 2;
      i := i + 1;
    }
  }

  /** The harts of a VM get virtual ids in their own order ... */
  lemma VhartOrder(a: Word, g: nat, h: nat)
    requires g < h && Bit(a, g)
    ensures Rank(a, g) < Rank(a, h)
  {
    hide Bit;
    RankUp(a, g, h);
  }

  /** ... and every id below their number is used. */
  lemma {:induction false} VhartOnto(a: Word, n: nat, v: nat) returns (h: nat)
    requires v < Rank(a, n)
    ensures h < n && Bit(a, h) && Rank(a, h) == v
    decreases n
  {
    hide Bit;
    if v < Rank(a, n - 1) {
      h := VhartOnto(a, n - 1, v);
    } else {
      h := n - 1;
    }
  }

  /** Rank numbers the harts of affinity a below nr, in order, with exactly the ids 0 .. n - 1. */
  ghost predicate Numbered(a: Word, nr: nat, n: nat) {
    && (forall h: nat :: h < nr && Bit(a, h) ==> Rank(a, h) < n)
    && (forall g: nat, h: nat :: g < h < nr && Bit(a, g) && Bit(a, h) ==> Rank(a, g) < Rank(a, h))
    && (forall v: nat :: v < n ==> Used(a, nr, v))
  }

  /** Some hart gets id v. */
  ghost predicate Used(a: Word, nr: nat, v: nat) {
    exists h: nat :: h < nr && Bit(a, h) && Rank(a, h) == v
  }

  /** After a passed check over existing harts: every hart belongs to exactly one VM, and in
  each VM get_vhartid is an order-preserving bijection onto 0 .. n - 1, n being what
  count_set_bits gives for its barrier. Exactly one hart of a VM that has any gets id 0 and
  builds the guest's table. */
  lemma HartsPartitioned(config: seq<VmConfig>, nr: nat)
    requires nr <= 31 && InRange(config, nr) && Disjoint(config) && Total(config) == nr
    ensures Partitioned(config, nr)
    ensures forall i :: 0 <= i < |config| ==> Numbered(config[i].cpuAffinity, nr, Counted(config[i].cpuAffinity))
    ensures forall i :: 0 <= i < |config| && config[i].cpuAffinity != 0 ==> OneBuilder(config[i].cpuAffinity, nr)
  {
    hide Total, Partitioned, Numbered, Counted, Disjoint, OneBuilder;
    CheckMeans(config, nr);
    forall i | 0 <= i < |config|
      ensures Numbered(config[i].cpuAffinity, nr, Counted(config[i].cpuAffinity))
      ensures config[i].cpuAffinity != 0 ==> OneBuilder(config[i].cpuAffinity, nr)
    {
      CountedAbove(config[i].cpuAffinity, nr);
      AllNumbered(config[i].cpuAffinity, nr);
      if config[i].cpuAffinity != 0 {
        BuilderExists(config[i].cpuAffinity, nr);
      }
    }
  }

  /** Hart h of the VM runs init_hs_pgtable. */
  predicate Builds(a: Word, nr: nat, h: nat) {
    h < nr && Bit(a, h) && Rank(a, h) == 0
  }

  ghost predicate OneBuilder(a: Word, nr: nat) {
    exists h: nat :: Builds(a, nr, h) && forall h': nat :: Builds(a, nr, h') ==> h' == h
  }

  lemma BuilderExists(a: Word, nr: nat)
    requires 0 < a < Pow2(nr)
    ensures OneBuilder(a, nr)
  {
    hide Bit, Rank, Pow2;
    var i := NonZeroBit(a);
    if i >= nr {
      HighBit(a, nr, i);
    }
    VhartOrder(a, i, nr);
    var h := VhartOnto(a, nr, 0);
    forall h': nat | Builds(a, nr, h')
      ensures h' == h
    {
      if h < h' {
        VhartOrder(a, h, h');
      } else if h' < h {
        VhartOrder(a, h', h);
      }
    }
    assert Builds(a, nr, h);
  }

  lemma AllNumbered(a: Word, nr: nat)
    ensures Numbered(a, nr, Rank(a, nr))
  {
    hide Bit, Rank;
    forall h: nat | h < nr && Bit(a, h)
      ensures Rank(a, h) < Rank(a, nr)
    {
      VhartOrder(a, h, nr);
    }
    forall g: nat, h: nat | g < h < nr && Bit(a, g) && Bit(a, h)
      ensures Rank(a, g) < Rank(a, h)
    {
      VhartOrder(a, g, h);
    }
    forall v: nat | v < Rank(a, nr)
      ensures Used(a, nr, v)
    {
      var h := VhartOnto(a, nr, v);
    }
  }

  // ---- init_vm_barriers ----

  /** struct barrier. */
  datatype Bar = Bar(locked: bool, tokens: int, passed: int, initial: int)

  /** The barrier with n harts that have not called it. */
  function Idle(b: Bar, n: nat): Barrier.State {
    Barrier.State(b.locked, b.tokens, b.passed, b.initial, 0, seq(n, i => Barrier.Hart(Barrier.Out, 0, 0, 0)))
  }

  /** init_vm_barriers: each VM's barrier starts as a fresh barrier for as many harts as
  count_set_bits finds; init_barrier leaves `passed` as it was. */
  method InitVmBarriers(config: seq<VmConfig>, bars: array<Bar>)
    requires bars.Length == |config|
    modifies bars
    ensures forall i :: 0 <= i < |config| ==> bars[i].passed == old(bars[i].passed)
    ensures forall i :: 0 <= i < |config| ==>
              !bars[i].locked && bars[i].tokens == bars[i].initial == Counted(config[i].cpuAffinity)
    ensures forall i :: 0 <= i < |config| ==>
            Barrier.Init(Idle(bars[i], Counted(config[i].cpuAffinity)), Counted(config[i].cpuAffinity))
  {
    hide Counted;
    var i := 0;
    while i < |config|
      invariant 0 <= i <= |config|
      invariant forall j :: 0 <= j < |config| ==> bars[j].passed == old(bars[j].passed)
      invariant forall j :: 0 <= j < i ==>
              !bars[j].locked && bars[j].tokens == bars[j].initial == Counted(config[j].cpuAffinity)
      invariant forall j :: 0 <= j < i ==>
              Barrier.Init(Idle(bars[j], Counted(config[j].cpuAffinity)), Counted(config[j].cpuAffinity))
    {
      var count := CountSetBits(config[i].cpuAffinity);
      bars[i] := Bar(false, count, bars[i].passed, count);
      i := i + 1;
    }
  }
}
