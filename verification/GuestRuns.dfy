/** All VMs build their guest tables at the same time: any interleaving of the page steps of
init_hs_pgtable on the shared allocator. The allocator's lock makes a page step atomic: outside
kmalloc it touches only tables of its own VM and pages it has just been given. */
module GuestRuns {
  import opened Wrappers
  import opened Bits
  import opened Layout
  import opened Config
  import opened Tables
  import opened Kmem
  import opened Vmem
  import opened Translation
  import opened Regions
  import opened GuestPlan
  import opened GuestMap

  // ---- the steps of one VM ----

  /** The first |ts| jobs are done, with targets ts. */
  ghost predicate JobsDone(M: Mapping, table: nat, plan: seq<Job>, ts: seq<Word>) {
    && |ts| <= |plan|
    && forall j :: 0 <= j < |ts| ==> JobDone(M, table, plan[j], ts[j])
  }

  ghost predicate JobDone(M: Mapping, table: nat, job: Job, t: Word) {
    && KeyOf(table, job.va, true) in M && M[KeyOf(table, job.va, true)] == LeafEntry(t, job.flags)
    && (job.pa.Some? ==> t == job.pa.value)
  }

  lemma JobsLater(M: Mapping, M': Mapping, table: nat, plan: seq<Job>, ts: seq<Word>)
    requires JobsDone(M, table, plan, ts) && Extends(M, M')
    ensures JobsDone(M', table, plan, ts)
  {
    hide KeyOf, LeafEntry;
    forall j | 0 <= j < |ts|
      ensures JobDone(M', table, plan[j], ts[j])
    {
      assert JobDone(M, table, plan[j], ts[j]);
    }
  }

  // ---- a finished plan is the guest's memory ----

  /** A call inside a finished plan has mapped its range. */
  lemma CallMapped(M: Mapping, table: nat, plan: seq<Job>, ts: seq<Word>, at: nat, va: Word, pa: Word, flags: Word,
                   n: nat)
    requires JobsDone(M, table, plan, ts) && |ts| == |plan| && at + n <= |plan|
    requires plan[at..at + n] == CallJobs(va, pa, flags, n)
    ensures RangeMapped(M, table, va, flags, true, ts[at..at + n])
    ensures pa != 0 ==> ts[at..at + n] == LinearTargets(pa, n)
  {
    hide KeyOf, LeafEntry, Wrap, RangeKeys;
    var part, js := ts[at..at + n], CallJobs(va, pa, flags, n);
    forall j | 0 <= j < n
      ensures JobDone(M, table, js[j], part[j])
    {
      assert plan[at..at + n][j] == plan[at + j] && JobDone(M, table, plan[at + j], ts[at + j]);
    }
    var ks := RangeKeys(table, va, true, n);
    forall j | 0 <= j < n
      ensures ks[j] in M && M[ks[j]] == LeafEntry(part[j], flags)
    {
      RangeKeysAt(table, va, true, n, j);
      assert JobDone(M, table, js[j], part[j]);
    }
    if pa != 0 {
      forall j | 0 <= j < n
        ensures part[j] == Wrap(pa + j * 4096)
      {
        assert JobDone(M, table, js[j], part[j]);
      }
    }
  }

  /** Pages given to the jobs without a fixed target are frames. */
  ghost predicate Framed(o: Own, plan: seq<Job>, ts: seq<Word>) {
    && |ts| <= |plan|
    && forall j :: 0 <= j < |ts| && plan[j].pa.None? ==> FrameOf(o, ts[j])
  }

  ghost predicate FrameOf(o: Own, t: Word) {
    exists p :: p in o.frames && t == p * 4096
  }

  /** The frame behind a target. */
  function PageOfTarget(t: Word): nat {
    t / 4096
  }

  function PagesOfTargets(ts: seq<Word>): (ps: seq<nat>)
    ensures |ps| == |ts| && forall j :: 0 <= j < |ts| ==> ps[j] == PageOfTarget(ts[j])
  {
    seq(|ts|, j requires 0 <= j < |ts| => PageOfTarget(ts[j]))
  }

  lemma TargetPage(o: Own, t: Word)
    requires PoolShape(o) && FrameOf(o, t)
    ensures PageOfTarget(t) in o.frames && RamPage(PageOfTarget(t)) && t == PageOfTarget(t) * 4096
  {
    var p :| p in o.frames && t == p * 4096;
    ModUnique(t, 4096, p, 0);
  }

  /** The frames that a VM's leftover RAM is on, after its first |ts| jobs. */
  function RamOf(c: VmConfig, ts: seq<Word>): seq<nat>
    requires |ts| == |Plan(c)|
  {
    PagesOfTargets(ts[|ImageJobs(c)|..|ImageJobs(c)| + |RamJobs(c)|])
  }

  lemma ImageDone(M: Mapping, c: VmConfig, ts: seq<Word>)
    requires JobsDone(M, c.table, Plan(c), ts) && |ts| == |Plan(c)|
    ensures ImageMapped(M, c)
  {
    hide RangeMapped, LinearTargets, PageCount, ImageSize, JobsDone;
    var n := PageCount(ImageSize(c));
    assert Plan(c)[0..0 + n] == ImageJobs(c);
    CallMapped(M, c.table, Plan(c), ts, 0, c.memoryBase, c.imageBase, RAM_FLAGS, n);
  }

  lemma RamDone(o: Own, M: Mapping, c: VmConfig, ts: seq<Word>)
    requires JobsDone(M, c.table, Plan(c), ts) && |ts| == |Plan(c)| && PoolShape(o) && Framed(o, Plan(c), ts)
    ensures RamMapped(M, c, RamOf(c, ts))
  {
    hide RangeMapped, LinearTargets, PageCount, ImageSize, JobsDone, PoolShape, PageOfTarget, Wrap, FrameOf;
    var at, n := |ImageJobs(c)|, |RamJobs(c)|;
    assert Plan(c)[at..at + n] == RamJobs(c);
    CallMapped(M, c.table, Plan(c), ts, at, Wrap(c.memoryBase + ImageSize(c)), 0, RAM_FLAGS, n);
    var part, ram := ts[at..at + n], RamOf(c, ts);
    forall j | 0 <= j < n
      ensures RamPage(ram[j]) && part[j] == ram[j] * 4096
    {
      assert Plan(c)[at + j] == RamJobs(c)[j];
      TargetPage(o, ts[at + j]);
    }
    assert FrameTargets(ram) == part;
  }

  lemma DeviceDone(M: Mapping, c: VmConfig, ts: seq<Word>, i: nat)
    requires JobsDone(M, c.table, Plan(c), ts) && |ts| == |Plan(c)| && i < |c.devices|
    ensures DeviceMapped(M, c, c.devices[i])
  {
    hide RangeMapped, LinearTargets, PageCount, JobsDone, DeviceFlags, ImageJobs, RamJobs, DeviceJobs, Plan;
    var d := c.devices[i];
    PlanDevice(c, i);
    CallMapped(M, c.table, Plan(c), ts, DevicesFrom(c, i), d.virtBase, d.physBase, DeviceFlags(d), PageCount(d.size));
  }

  /** All jobs done: the guest has the memory that its configuration asks for. */
  lemma PlanDone(o: Own, M: Mapping, c: VmConfig, ts: seq<Word>)
    requires JobsDone(M, c.table, Plan(c), ts) && |ts| == |Plan(c)| && PoolShape(o) && Framed(o, Plan(c), ts)
    ensures GuestMapped(M, c, RamOf(c, ts))
  {
    hide JobsDone, Framed, PoolShape, Plan, ImageMapped, RamMapped, DeviceMapped, RamOf;
    ImageDone(M, c, ts);
    RamDone(o, M, c, ts);
    forall i | 0 <= i < |c.devices|
      ensures DeviceMapped(M, c, c.devices[i])
    {
      DeviceDone(M, c, ts, i);
    }
  }

  // ---- all VMs at once ----

  /** Job p of VM i is done and got a frame of its own. */
  ghost predicate GotFrame(cs: seq<VmConfig>, tss: seq<seq<Word>>, i: int, p: int) {
    && 0 <= i < |cs| && i < |tss| && 0 <= p < |tss[i]| && p < |Plan(cs[i])| && Plan(cs[i])[p].pa.None?
  }

  /** No two of these frames are the same. */
  ghost predicate FramesDiffer(cs: seq<VmConfig>, tss: seq<seq<Word>>) {
    forall i, p, j, q :: GotFrame(cs, tss, i, p) && GotFrame(cs, tss, j, q) && (i, p) != (j, q) ==>
        tss[i][p] != tss[j][q]
  }

  /** VM i: not begun, and its root untouched, or begun and tss[i] done. */
  ghost predicate VmState(o: Own, M: Mapping, c: VmConfig, begun: bool, ts: seq<Word>) {
    && (if begun then c.table in o.tables && o.tables[c.table] == Root(true) else StaticRoot(o, c.table) && ts == [])
    && JobsDone(M, c.table, Plan(c), ts) && Framed(o, Plan(c), ts) && FromPlan(M, c, |ts|)
  }

  /** Somewhere in the middle of building: begun[i] says whether VM i has cleared its root. */
  ghost predicate Building(o: Own, M: Mapping, cs: seq<VmConfig>, begun: seq<bool>, tss: seq<seq<Word>>) {
    && |begun| == |tss| == |cs|
    && (forall i :: 0 <= i < |cs| ==> VmState(o, M, cs[i], begun[i], tss[i]))
    && (forall i, j :: 0 <= i < j < |cs| ==> Apart(cs[i].table, cs[j].table))
    && FramesDiffer(cs, tss)
  }

  lemma BuildingStart(m: Memory, o: Own, cs: seq<VmConfig>)
    requires ConfigsOk(o, cs)
    ensures Building(o, MappingOf(m, o.tables), cs, seq(|cs|, i => false), seq(|cs|, i => []))
  {
    hide Plan, StaticRoot, MappingOf, FromPlan;
    forall i | 0 <= i < |cs|
      ensures FromPlan(MappingOf(m, o.tables), cs[i], 0)
    {
      NothingPlanned(m, o, cs[i]);
    }
  }

  /** Pages and tables are added, and leaves under other roots. */
  lemma VmLater(o: Own, M: Mapping, o': Own, M': Mapping, c: VmConfig, begun: bool, ts: seq<Word>)
    requires VmState(o, M, c, begun, ts) && Grown(o, o') && o.frames <= o'.frames && Extends(M, M')
    requires forall k <- M' :: k in M || k.root != c.table
    ensures VmState(o', M', c, begun, ts)
  {
    hide Plan, JobsDone;
    JobsLater(M, M', c.table, Plan(c), ts);
    forall j | 0 <= j < |ts| && Plan(c)[j].pa.None?
      ensures FrameOf(o', ts[j])
    {
      assert FrameOf(o, ts[j]);
    }
  }

  lemma BuildingLater(o: Own, M: Mapping, o': Own, cs: seq<VmConfig>, begun: seq<bool>, tss: seq<seq<Word>>)
    requires Building(o, M, cs, begun, tss) && Grown(o, o') && o.frames <= o'.frames
    ensures Building(o', M, cs, begun, tss)
  {
    hide VmState, Grown, FramesDiffer;
    forall i | 0 <= i < |cs|
      ensures VmState(o', M, cs[i], begun[i], tss[i])
    {
      VmLater(o, M, o', M, cs[i], begun[i], tss[i]);
    }
  }

  /** VM i clears its root. */
  lemma BuildingBegin(o: Own, M: Mapping, cs: seq<VmConfig>, begun: seq<bool>, tss: seq<seq<Word>>, i: nat)
    requires Building(o, M, cs, begun, tss) && i < |cs| && !begun[i]
    ensures Building(WithRoot(o, cs[i].table), M, cs, begun[i := true], tss)
  {
    hide JobsDone, Plan, FramesDiffer;
    forall j | 0 <= j < |cs|
      ensures VmState(WithRoot(o, cs[i].table), M, cs[j], begun[i := true][j], tss[j])
    {
      assert VmState(o, M, cs[j], begun[j], tss[j]) && VmState(o, M, cs[i], begun[i], tss[i]);
      if j != i {
        assert Apart(cs[if i < j then i else j].table, cs[if i < j then j else i].table);
      }
    }
  }

  /** The VM itself after one more page. */
  lemma VmJob(o: Own, M: Mapping, o': Own, M': Mapping, c: VmConfig, ts: seq<Word>, t: Word)
    requires VmState(o, M, c, true, ts) && |ts| < |Plan(c)| && Grown(o, o') && o.frames <= o'.frames
    requires var job := Plan(c)[|ts|];
             && KeyOf(c.table, job.va, true) !in M && M' == M[KeyOf(c.table, job.va, true) := LeafEntry(t, job.flags)]
             && (if job.pa.Some? then t == job.pa.value else FrameOf(o', t))
    ensures VmState(o', M', c, true, ts + [t])
  {
    hide Plan, KeyOf, LeafEntry, StaticRoot;
    var job := Plan(c)[|ts|];
    JobsLater(M, M', c.table, Plan(c), ts);
    assert JobDone(M', c.table, job, t);
    forall j | 0 <= j < |ts| && Plan(c)[j].pa.None?
      ensures FrameOf(o', ts[j])
    {
      assert FrameOf(o, ts[j]);
    }
    forall k <- M' | k.root == c.table
      ensures PlannedBefore(c, |ts| + 1, k)
    {
      if k in M {
        assert PlannedBefore(c, |ts|, k);
      }
    }
  }

  /** VM i has mapped one more page. */
  lemma BuildingJob(o: Own, M: Mapping, o': Own, M': Mapping, cs: seq<VmConfig>, begun: seq<bool>, tss: seq<seq<Word>>,
                    i: nat, t: Word)
    requires Building(o, M, cs, begun, tss) && i < |cs| && begun[i] && |tss[i]| < |Plan(cs[i])|
    requires Grown(o, o') && o.frames <= o'.frames
    requires var c := cs[i];
             var job := Plan(c)[|tss[i]|];
             && KeyOf(c.table, job.va, true) !in M && M' == M[KeyOf(c.table, job.va, true) := LeafEntry(t, job.flags)]
             && (if job.pa.Some? then t == job.pa.value
                 else FrameOf(o', t) && forall j, q :: GotFrame(cs, tss, j, q) ==> tss[j][q] != t)
    ensures Building(o', M', cs, begun, tss[i := tss[i] + [t]])
  {
    hide Plan, VmState, KeyOf, LeafEntry, FrameOf, Grown;
    var tss' := tss[i := tss[i] + [t]];
    KeyRootIs(cs[i].table, Plan(cs[i])[|tss[i]|].va);
    forall j | 0 <= j < |cs|
      ensures VmState(o', M', cs[j], begun[j], tss'[j])
    {
      if j == i {
        VmJob(o, M, o', M', cs[i], tss[i], t);
      } else {
        assert Apart(cs[if i < j then i else j].table, cs[if i < j then j else i].table);
        VmLater(o, M, o', M', cs[j], begun[j], tss[j]);
      }
    }
    PlanLong(o, M, cs, begun, tss, i);
    forall j, q | GotFrame(cs, tss', j, q)
      ensures (j == i && q == |tss[i]|) || (GotFrame(cs, tss, j, q) && tss'[j][q] == tss[j][q])
    {
    }
  }

  lemma PlanLong(o: Own, M: Mapping, cs: seq<VmConfig>, begun: seq<bool>, tss: seq<seq<Word>>, i: nat)
    requires Building(o, M, cs, begun, tss) && i < |cs|
    ensures |tss[i]| <= |Plan(cs[i])|
  {
    hide Plan;
    assert VmState(o, M, cs[i], begun[i], tss[i]);
  }

  /** A page from the free list is none of the frames given out so far. */
  lemma NewFrame(o: Own, M: Mapping, cs: seq<VmConfig>, begun: seq<bool>, tss: seq<seq<Word>>, p: nat, t: Word)
    requires PoolShape(o) && Building(o, M, cs, begun, tss) && p in o.free && t == p * 4096
    ensures forall j, q :: GotFrame(cs, tss, j, q) ==> tss[j][q] != t
  {
    hide Plan, JobsDone, StaticRoot;
    forall j, q | GotFrame(cs, tss, j, q)
      ensures tss[j][q] != t
    {
      assert VmState(o, M, cs[j], begun[j], tss[j]);
      assert FrameOf(o, tss[j][q]);
    }
  }

  /** The next page of VM i, which has begun. */
  method NextJob(k: Kmem, cs: seq<VmConfig>, i: nat, job: Job, ghost begun: seq<bool>, ghost tss: seq<seq<Word>>)
    returns (ok: bool, ghost tss': seq<seq<Word>>)
    requires k.Valid() && Building(k.own, k.Mapped(), cs, begun, tss) && i < |cs| && begun[i]
    requires |tss[i]| < |Plan(cs[i])| && job == Plan(cs[i])[|tss[i]|]
    modifies k`mem, k`freelist, k`own
    ensures k.Valid() && Building(k.own, k.Mapped(), cs, begun, tss')
    ensures k.own.pool == old(k.own.pool) && Extends(old(k.Mapped()), k.Mapped())
    ensures |tss'| == |tss| && (forall j :: 0 <= j < |tss| && j != i ==> tss'[j] == tss[j])
    ensures |tss'[i]| == |tss[i]| + if ok then 1 else 0
    ensures !ok ==> k.own.free == [] || !ClashFree(cs[i])
  {
    hide Plan, JobsDone, TableShape, Tree, FreeList, MappingOf, KeyOf, LeafEntry, FramesDiffer, FromPlan, ClashFree;
    ghost var o, M := k.own, k.Mapped();
    assert VmState(o, M, cs[i], begun[i], tss[i]);
    var r, target;
    ghost var page;
    r, target, page := MapTarget(k, cs[i].table, job.va, job.pa, job.flags, true);
    ok := r.Done?;
    tss' := tss;
    if ok {
      if page.Some? {
        NewFrame(o, M, cs, begun, tss, page.value, target);
        assert FrameOf(k.own, target);
      }
      BuildingJob(o, M, k.own, k.Mapped(), cs, begun, tss, i, target);
      tss' := tss[i := tss[i] + [target]];
    } else {
      BuildingLater(o, M, k.own, cs, begun, tss);
      if r.Remap? {
        MappedClashes(M, cs[i], |tss[i]|);
      }
    }
  }

  /** One step of the hart that builds VM i: it clears its root, maps its next page, or is done. */
  method BuildStep(k: Kmem, cs: seq<VmConfig>, i: nat, begun: seq<bool>, pos: seq<nat>, ghost tss: seq<seq<Word>>)
    returns (ok: bool, begun': seq<bool>, pos': seq<nat>, ghost tss': seq<seq<Word>>)
    requires k.Valid() && Building(k.own, k.Mapped(), cs, begun, tss) && i < |cs|
    requires |pos| == |cs| && forall j :: 0 <= j < |cs| ==> pos[j] == |tss[j]|
    modifies k`mem, k`freelist, k`own
    ensures k.Valid() && Building(k.own, k.Mapped(), cs, begun', tss')
    ensures |pos'| == |cs| && forall j :: 0 <= j < |cs| ==> pos'[j] == |tss'[j]|
    ensures k.own.pool == old(k.own.pool) && Extends(old(k.Mapped()), k.Mapped())
    ensures !ok ==> k.own.free == [] || !ClashFree(cs[i])
    ensures ok ==> begun' == begun[i := true]
    ensures ok ==> pos' == if begun[i] && pos[i] < |Plan(cs[i])| then pos[i := pos[i] + 1] else pos
  {
    hide Plan, Inv, MappingOf, VmState, Extends, FramesDiffer, ClashFree;
    ok, begun', pos', tss' := true, begun, pos, tss;
    ghost var o, M := k.own, k.Mapped();
    Same(M);
    if !begun[i] {
      Untouched(o, M, cs[i], tss[i], begun[i]);
      ClearRoot(k, cs[i].table);
      BuildingBegin(o, M, cs, begun, tss, i);
      begun' := begun[i := true];
    } else if pos[i] < |Plan(cs[i])| {
      ok, tss' := NextJob(k, cs, i, Plan(cs[i])[pos[i]], begun, tss);
      pos' := if ok then pos[i := pos[i] + 1] else pos;
    }
  }

  lemma Same(M: Mapping)
    ensures Extends(M, M)
  {
  }

  lemma Untouched(o: Own, M: Mapping, c: VmConfig, ts: seq<Word>, begun: bool)
    requires VmState(o, M, c, begun, ts) && !begun
    ensures StaticRoot(o, c.table)
  {
  }

  /** How often VM i has its turn. */
  function Turns(sched: seq<nat>, i: nat): nat {
    if sched == [] then 0 else Turns(sched[..|sched| - 1], i) + if sched[|sched| - 1] == i then 1 else 0
  }

  /** The first turn clears the root, each further one maps a page until none is left. */
  function PagesDone(turns: nat, pages: nat): nat {
    if turns == 0 then 0 else if turns - 1 < pages then turns - 1 else pages
  }

  lemma TurnsSnoc(sched: seq<nat>, n: nat, i: nat)
    requires n < |sched|
    ensures Turns(sched[..n + 1], i) == Turns(sched[..n], i) + if sched[n] == i then 1 else 0
  {
    assert sched[..n + 1][..n] == sched[..n];
  }

  /** Every VM is as far as its turns in the schedule allow. */
  ghost predicate Turned(cs: seq<VmConfig>, begun: seq<bool>, pos: seq<nat>, sched: seq<nat>) {
    && |begun| == |pos| == |cs|
    && forall i :: 0 <= i < |cs| ==>
         (begun[i] <==> Turns(sched, i) > 0) && pos[i] == PagesDone(Turns(sched, i), |Plan(cs[i])|)
  }

  lemma TurnedStep(cs: seq<VmConfig>, begun: seq<bool>, pos: seq<nat>, sched: seq<nat>, n: nat)
    requires n < |sched| && sched[n] < |cs| && Turned(cs, begun, pos, sched[..n])
    ensures var i := sched[n];
            Turned(cs, begun[i := true], if begun[i] && pos[i] < |Plan(cs[i])| then pos[i := pos[i] + 1] else pos,
                   sched[..n + 1])
  {
    hide Plan, Turns;
    forall i: nat | i < |cs|
      ensures Turns(sched[..n + 1], i) == Turns(sched[..n], i) + if sched[n] == i then 1 else 0
    {
      TurnsSnoc(sched, n, i);
    }
  }

  /** The harts of all VMs build at once, in any interleaving (`sched` names the VM whose hart moves
  next). Configurations without clashes fail only for lack of memory, and every turn gets its VM on.
  Whenever a VM has mapped its last page, its guest memory is as configured, and no frame has been
  given to two pages, of one VM or of two. */
  method BuildGuests(k: Kmem, cs: seq<VmConfig>, sched: seq<nat>)
    returns (ok: bool, begun: seq<bool>, pos: seq<nat>, ghost tss: seq<seq<Word>>)
    requires k.Valid() && ConfigsOk(k.own, cs) && forall n :: 0 <= n < |sched| ==> sched[n] < |cs|
    modifies k`mem, k`freelist, k`own
    ensures k.Valid() && Building(k.own, k.Mapped(), cs, begun, tss)
    ensures |pos| == |cs| && forall i :: 0 <= i < |cs| ==> pos[i] == |tss[i]| <= |Plan(cs[i])|
    ensures k.own.pool == old(k.own.pool) && Extends(old(k.Mapped()), k.Mapped())
    ensures !ok ==> k.own.free == [] || exists i :: 0 <= i < |cs| && !ClashFree(cs[i])
    ensures ok ==> Turned(cs, begun, pos, sched)
    ensures forall i :: 0 <= i < |cs| && pos[i] == |Plan(cs[i])| ==>
              GuestMapped(k.Mapped(), cs[i], RamOf(cs[i], tss[i]))
    ensures (forall i :: 0 <= i < |cs| ==> pos[i] == |Plan(cs[i])|) ==>
              GuestsBuilt(k.own, k.Mapped(), cs, |cs|, Rams(cs, tss))
  {
    hide Plan, Inv, MappingOf, VmState, Extends, FramesDiffer, GuestMapped, RamOf, GuestsBuilt, ClashFree, Turned;
    ok, begun, pos, tss := RunSchedule(k, cs, sched);
    PoolOf(k.mem, k.freelist, k.own);
    forall i | 0 <= i < |cs|
      ensures pos[i] <= |Plan(cs[i])|
      ensures pos[i] == |Plan(cs[i])| ==> GuestMapped(k.Mapped(), cs[i], RamOf(cs[i], tss[i]))
    {
      VmDone(k.own, k.Mapped(), cs[i], begun[i], tss[i]);
    }
    if forall i :: 0 <= i < |cs| ==> pos[i] == |Plan(cs[i])| {
      AllBuilt(k.own, k.Mapped(), cs, begun, tss);
    }
  }

  method RunSchedule(k: Kmem, cs: seq<VmConfig>, sched: seq<nat>)
    returns (ok: bool, begun: seq<bool>, pos: seq<nat>, ghost tss: seq<seq<Word>>)
    requires k.Valid() && ConfigsOk(k.own, cs) && forall n :: 0 <= n < |sched| ==> sched[n] < |cs|
    modifies k`mem, k`freelist, k`own
    ensures k.Valid() && Building(k.own, k.Mapped(), cs, begun, tss)
    ensures |pos| == |cs| && forall i :: 0 <= i < |cs| ==> pos[i] == |tss[i]|
    ensures k.own.pool == old(k.own.pool) && Extends(old(k.Mapped()), k.Mapped())
    ensures !ok ==> k.own.free == [] || exists i :: 0 <= i < |cs| && !ClashFree(cs[i])
    ensures ok ==> Turned(cs, begun, pos, sched)
  {
    hide Plan, Inv, MappingOf, VmState, Extends, FramesDiffer, ClashFree, Turned;
    ghost var M := k.Mapped();
    Same(M);
    BuildingStart(k.mem, k.own, cs);
    begun, pos, tss := seq(|cs|, i => false), seq(|cs|, i => 0), seq(|cs|, i => []);
    TurnedStart(cs);
    ok := true;
    var n := 0;
    while ok && n < |sched|
      invariant 0 <= n <= |sched|
      invariant k.Valid() && Building(k.own, k.Mapped(), cs, begun, tss)
      invariant |pos| == |cs| && forall i :: 0 <= i < |cs| ==> pos[i] == |tss[i]|
      invariant k.own.pool == old(k.own.pool) && Extends(M, k.Mapped())
      invariant !ok ==> k.own.free == [] || exists i :: 0 <= i < |cs| && !ClashFree(cs[i])
      invariant ok ==> Turned(cs, begun, pos, sched[..n])
    {
      ghost var M1 := k.Mapped();
      TurnedStep(cs, begun, pos, sched, n);
      ok, begun, pos, tss := BuildStep(k, cs, sched[n], begun, pos, tss);
      ExtendsThen(M, M1, k.Mapped());
      n := n + 1;
    }
    assert sched[..|sched|] == sched;
  }

  lemma TurnedStart(cs: seq<VmConfig>)
    ensures forall sched: seq<nat> :: Turned(cs, seq(|cs|, i => false), seq(|cs|, i => 0), sched[..0])
  {
    hide Plan;
  }

  lemma PoolOf(m: Memory, head: Word, o: Own)
    requires Inv(m, head, o)
    ensures PoolShape(o)
  {
  }

  lemma VmDone(o: Own, M: Mapping, c: VmConfig, begun: bool, ts: seq<Word>)
    requires PoolShape(o) && VmState(o, M, c, begun, ts)
    ensures |ts| <= |Plan(c)|
    ensures |ts| == |Plan(c)| ==> GuestMapped(M, c, RamOf(c, ts)) && FromPlan(M, c, |Plan(c)|)
  {
    hide Plan, PoolShape, RamOf, GuestMapped;
    if |ts| == |Plan(c)| {
      PlanDone(o, M, c, ts);
    }
  }

  function Rams(cs: seq<VmConfig>, tss: seq<seq<Word>>): (rams: seq<seq<nat>>)
    requires |cs| == |tss| && forall i :: 0 <= i < |cs| ==> |tss[i]| == |Plan(cs[i])|
    ensures |rams| == |cs| && forall i :: 0 <= i < |cs| ==> rams[i] == RamOf(cs[i], tss[i])
  {
    seq(|cs|, i requires 0 <= i < |cs| => RamOf(cs[i], tss[i]))
  }

  /** Page p of VM i's leftover RAM comes from a job with a frame of its own. */
  lemma RamIsFrame(o: Own, M: Mapping, cs: seq<VmConfig>, begun: seq<bool>, tss: seq<seq<Word>>, i: nat, p: nat)
    requires PoolShape(o) && Building(o, M, cs, begun, tss) && i < |cs| && |tss[i]| == |Plan(cs[i])|
    requires p < |RamOf(cs[i], tss[i])|
    ensures var at := |ImageJobs(cs[i])| + p;
            && GotFrame(cs, tss, i, at) && RamOf(cs[i], tss[i])[p] in o.frames
            && tss[i][at] == RamOf(cs[i], tss[i])[p] * 4096
  {
    hide PoolShape, JobsDone, FramesDiffer, ImageSize, PageCount, Wrap, StaticRoot, FrameOf, PageOfTarget;
    var at := |ImageJobs(cs[i])| + p;
    assert VmState(o, M, cs[i], begun[i], tss[i]);
    assert Plan(cs[i])[at] == RamJobs(cs[i])[p];
    TargetPage(o, tss[i][at]);
  }

  lemma AllBuilt(o: Own, M: Mapping, cs: seq<VmConfig>, begun: seq<bool>, tss: seq<seq<Word>>)
    requires PoolShape(o) && Building(o, M, cs, begun, tss) && forall i :: 0 <= i < |cs| ==> |tss[i]| == |Plan(cs[i])|
    ensures GuestsBuilt(o, M, cs, |cs|, Rams(cs, tss))
  {
    hide PoolShape, Plan, VmState, GuestMapped, RamOf, ImageJobs;
    var rams := Rams(cs, tss);
    forall i | 0 <= i < |cs|
      ensures GuestMapped(M, cs[i], rams[i]) && FromPlan(M, cs[i], |Plan(cs[i])|)
    {
      VmDone(o, M, cs[i], begun[i], tss[i]);
    }
    forall i, p | 0 <= i < |cs| && 0 <= p < |rams[i]|
      ensures rams[i][p] in o.frames
    {
      RamIsFrame(o, M, cs, begun, tss, i, p);
    }
    forall i, p, j, q | 0 <= i < |cs| && 0 <= j < |cs| && 0 <= p < |rams[i]| && 0 <= q < |rams[j]| && (i, p) != (j, q)
      ensures rams[i][p] != rams[j][q]
    {
      RamIsFrame(o, M, cs, begun, tss, i, p);
      RamIsFrame(o, M, cs, begun, tss, j, q);
    }
  }
}
