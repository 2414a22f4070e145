/** The pages that init_hs_pgtable maps for a VM, in its order, and when they clash. */
module GuestPlan {
  import opened Wrappers
  import opened Bits
  import opened Layout
  import opened Config
  import opened Tables
  import opened Mappings
  import opened Vmem
  import opened Regions

  const RAM_FLAGS := 30 // PTE_U | PTE_R | PTE_W | PTE_X

  function ImageSize(c: VmConfig): Word {
    PGROUNDUP(Wrap(c.imageEnd - c.imageBase))
  }

  /** `dev->perm | PTE_U`, passed as an int: the low 32 bits, sign-extended in the entry. */
  function DeviceFlags(d: MmioDev): Word {
    var f := Or(d.perm, PTE_U) % WORD32;
    if f < 0x8000_0000 then f else f + (WORD - WORD32)
  }

  /** Permissions that are flag bits stay so. */
  lemma DeviceFlagsSmall(d: MmioDev)
    requires d.perm < 1024
    ensures DeviceFlags(d) == Or(d.perm, PTE_U) < 1024
  {
    hide Or, Pow2;
    Pow2Values();
    OrBound(d.perm, PTE_U, 10);
  }

  // ---- page by page ----

  /** One page to map: at a given address, or on a new frame. */
  datatype Job = Job(va: Word, pa: Option<Word>, flags: Word)

  /** The pages of one call of map_pages. */
  function CallJobs(va: Word, pa: Word, flags: Word, n: nat): (js: seq<Job>)
    ensures |js| == n
    ensures forall j :: 0 <= j < n ==>
              js[j] == Job(Wrap(va + j * 4096), if pa == 0 then None else Some(Wrap(pa + j * 4096)), flags)
  {
    seq(n, j requires 0 <= j < n =>
      Job(Wrap(va + j * 4096), if pa == 0 then None else Some(Wrap(pa + j * 4096)), flags))
  }

  function ImageJobs(c: VmConfig): seq<Job> {
    CallJobs(c.memoryBase, c.imageBase, RAM_FLAGS, PageCount(ImageSize(c)))
  }

  function RamJobs(c: VmConfig): seq<Job> {
    CallJobs(Wrap(c.memoryBase + ImageSize(c)), 0, RAM_FLAGS, PageCount(Wrap(c.memorySize - ImageSize(c))))
  }

  /** The device loop, for the first n devices. */
  function DeviceJobs(c: VmConfig, n: nat): seq<Job>
    requires n <= |c.devices|
  {
    if n == 0 then []
    else
      var d := c.devices[n - 1];
      DeviceJobs(c, n - 1) + CallJobs(d.virtBase, d.physBase, DeviceFlags(d), PageCount(d.size))
  }

  /** All pages that init_hs_pgtable maps, in its order. */
  function Plan(c: VmConfig): seq<Job> {
    ImageJobs(c) + RamJobs(c) + DeviceJobs(c, |c.devices|)
  }

  function DeviceCall(c: VmConfig, i: nat): seq<Job>
    requires i < |c.devices|
  {
    var d := c.devices[i];
    CallJobs(d.virtBase, d.physBase, DeviceFlags(d), PageCount(d.size))
  }

  /** Where the pages of device i are among those of the first n devices. */
  lemma {:induction false} DeviceAt(c: VmConfig, n: nat, i: nat)
    requires i < n <= |c.devices|
    ensures var at, len := |DeviceJobs(c, i)|, |DeviceCall(c, i)|;
            at + len <= |DeviceJobs(c, n)| && DeviceJobs(c, n)[at..at + len] == DeviceCall(c, i)
    decreases n
  {
    hide CallJobs, DeviceFlags, PageCount;
    var front, last := DeviceJobs(c, n - 1), DeviceCall(c, n - 1);
    var at, len := |DeviceJobs(c, i)|, |DeviceCall(c, i)|;
    assert DeviceJobs(c, n) == front + last;
    if i < n - 1 {
      DeviceAt(c, n - 1, i);
      Slices(front, last, at, len);
    } else {
      Slices(front, last, 0, 0);
    }
  }

  lemma Slices(a: seq<Job>, b: seq<Job>, at: nat, len: nat)
    requires at + len <= |a|
    ensures (a + b)[at..at + len] == a[at..at + len] && (a + b)[|a|..|a| + |b|] == b
  {
  }

  lemma LaterSlice(a: seq<Job>, b: seq<Job>, at: nat, len: nat)
    requires at + len <= |b|
    ensures (a + b)[|a| + at..|a| + at + len] == b[at..at + len]
  {
  }

  // ---- clashes ----

  /** No two pages of the configuration have the same guest-physical page. */
  ghost predicate ClashFree(c: VmConfig) {
    forall j, l :: 0 <= j < l < |Plan(c)| ==> KeyOf(c.table, Plan(c)[j].va, true) != KeyOf(c.table, Plan(c)[l].va, true)
  }

  /** What the VM's root maps comes from the first n pages of the plan. */
  ghost predicate FromPlan(M: Mapping, c: VmConfig, n: nat) {
    n <= |Plan(c)| && forall k <- M :: k.root == c.table ==> PlannedBefore(c, n, k)
  }

  ghost predicate PlannedBefore(c: VmConfig, n: nat, k: Key) {
    exists j :: 0 <= j < n && j < |Plan(c)| && k == KeyOf(c.table, Plan(c)[j].va, true)
  }

  /** A page of the plan that is mapped already clashes with an earlier one. */
  lemma MappedClashes(M: Mapping, c: VmConfig, n: nat)
    requires FromPlan(M, c, n) && n < |Plan(c)| && KeyOf(c.table, Plan(c)[n].va, true) in M
    ensures !ClashFree(c)
  {
    hide Plan, KeyOf;
    KeyRootIs(c.table, Plan(c)[n].va);
    assert PlannedBefore(c, n, KeyOf(c.table, Plan(c)[n].va, true));
  }

  lemma KeyRootIs(root: nat, va: Word)
    ensures KeyOf(root, va, true).root == root
  {
  }

  /** The next call of a plan without clashes meets nothing mapped. */
  lemma CallFresh(M: Mapping, c: VmConfig, n: nat, va: Word, pa: Word, flags: Word, m: nat)
    requires ClashFree(c) && FromPlan(M, c, n) && n + m <= |Plan(c)| && Plan(c)[n..n + m] == CallJobs(va, pa, flags, m)
    ensures FreshKeys(M, RangeKeys(c.table, va, true, m))
  {
    hide Plan, KeyOf, RangeKeys, Wrap;
    var ks := RangeKeys(c.table, va, true, m);
    forall j | 0 <= j < m
      ensures ks[j] == KeyOf(c.table, Plan(c)[n + j].va, true) && ks[j] !in M
    {
      RangeKeysAt(c.table, va, true, m, j);
      assert Plan(c)[n..n + m][j] == Plan(c)[n + j];
      KeyRootIs(c.table, Plan(c)[n + j].va);
    }
  }

  lemma CallFrom(M: Mapping, M': Mapping, c: VmConfig, n: nat, va: Word, pa: Word, flags: Word, m: nat)
    requires FromPlan(M, c, n) && n + m <= |Plan(c)| && Plan(c)[n..n + m] == CallJobs(va, pa, flags, m)
    requires OnlyRange(M, M', c.table, va, true, m)
    ensures FromPlan(M', c, n + m)
  {
    hide Plan, KeyOf, RangeKeys, Wrap;
    var ks := RangeKeys(c.table, va, true, m);
    forall k <- M' | k.root == c.table
      ensures PlannedBefore(c, n + m, k)
    {
      if k in M {
        assert PlannedBefore(c, n, k);
      } else {
        var j :| 0 <= j < |ks| && ks[j] == k;
        RangeKeysAt(c.table, va, true, m, j);
        assert Plan(c)[n..n + m][j] == Plan(c)[n + j];
      }
    }
  }

  /** Where the calls are in the plan. */
  lemma PlanParts(c: VmConfig)
    ensures var a, b := |ImageJobs(c)|, |RamJobs(c)|;
            && a + b <= |Plan(c)| && Plan(c)[0..0 + a] == ImageJobs(c) && Plan(c)[a..a + b] == RamJobs(c)
            && |Plan(c)| == a + b + |DeviceJobs(c, |c.devices|)| && |DeviceJobs(c, 0)| == 0
  {
    hide ImageJobs, RamJobs;
  }

  lemma PlanDevice(c: VmConfig, i: nat)
    requires i < |c.devices|
    ensures var at, d := |ImageJobs(c)| + |RamJobs(c)| + |DeviceJobs(c, i)|, c.devices[i];
            && at + PageCount(d.size) <= |Plan(c)|
            && at + PageCount(d.size) == |ImageJobs(c)| + |RamJobs(c)| + |DeviceJobs(c, i + 1)|
            && Plan(c)[at..at + PageCount(d.size)] ==
               CallJobs(d.virtBase, d.physBase, DeviceFlags(d), PageCount(d.size))
  {
    hide ImageJobs, RamJobs, DeviceFlags, PageCount;
    var front, devs := ImageJobs(c) + RamJobs(c), DeviceJobs(c, |c.devices|);
    DeviceAt(c, |c.devices|, i);
    LaterSlice(front, devs, |DeviceJobs(c, i)|, |DeviceCall(c, i)|);
  }
}
