# Verified model of a RISC-V hypervisor

The hypervisor boots on a RISC-V machine with the H extension, builds its own Sv39 address
space, gives every virtual machine an Sv39x4 guest-physical address space, partitions the
harts among the VMs, and emulates the interrupt controller (PLIC) by trap and emulate. This
project models that code in Dafny and proves what it promises, for every input, every run or
every reachable state.

`dafny verify dfyconfig.toml` checks everything.

| module | models |
|---|---|
| `Wrappers`, `Bits`, `Layout` | optional values, bit operations on natural numbers, the macros of `memory.h`, with 64-bit wrap-around written out |
| `Tables`, `Mappings` | one flat word memory that holds list links, page tables and frames; ownership; the abstract mapping a set of tables encodes |
| `Kmem`, `KmemRuns` | the page allocator as a class over that memory, and whole runs of its clients |
| `Vmem`, `Translation`, `Regions` | walking, extending and reading tables; what that means address by address |
| `HwWalk` | the hart's own walk (sections 4.3.2, 4.4 and 8.5.1 of the RISC-V Privileged Specification, version 20211203), written independently of the code |
| `Config`, `GuestPlan`, `GuestMap`, `GuestRuns`, `GuestView` | guest tables of the VMs, built one after the other and in every interleaving; what the guest's own accesses reach |
| `BootMap`, `KernelRegions`, `KernelMap`, `Switch` | the hypervisor's bootstrap table, final table and the switch between them |
| `Plic`, `Vplic`, `Emulate`, `VplicWords`, `VplicRuns` | PLIC driver over an array of registers (RISC-V PLIC Specification 1.0.0, "Memory Map"), emulator, its accesses by byte offset, runs of all harts |
| `Trap`, `TrapRuns` | trap entry, exception and interrupt dispatch, return to the guest; whole runs of all harts |
| `Barrier`, `BarrierTwo`, `BarrierCases` | spinlock and self-resetting barrier as an interleaving of n harts, one step per shared access |
| `Partition` | affinity check, VM lookup, virtual hart ids, VM barriers |
| `Print` | number printing |

Main results:

- **Page tables.** `Kmem.Valid()` (no page is free twice, tables, frames and free pages are
  apart, every non-root table hangs off exactly one slot) survives every operation and every
  run. The abstract mapping changes by exactly the pages that `map_pages` was asked for, and
  the hardware walk and `convert_va_to_pa` read the same mapping.
- **Guests.** For any list of VMs that share the allocator, in any interleaving of their page
  steps: the hart's own walk takes every byte of a guest's memory to its image byte or to a byte
  of a frame that no other guest reaches, every byte of a device window to the device for exactly
  the accesses its permissions name, and nothing else anywhere. Building fails only for lack of
  memory or for a configuration that clashes with itself.
- **Hypervisor map.** `init_vmem` fails only when memory runs out; its regions never collide.
  Every byte of a region can be accessed as its flags say and not otherwise. Loading `satp` with
  the final table keeps the meaning of every address it maps outside the cpu-struct window, and
  the relocated stack is the same memory.
- **Virtual PLIC.** Loads and stores refine an abstract per-hart PLIC seen through the
  interrupt renaming; VMs do not disturb each other; claims are conserved over all runs.
- **Traps.** A trapped load, store or interrupt changes nothing of guest registers, memory,
  tables and PLIC but what it says, and any run of traps on all harts is a run of the emulated
  interrupt controller, so the claim theorems hold of the trap path.
- **Barrier.** First use is safe for any number of harts. Reuse is safe exactly for at most
  two harts. The stuck states with two harts are characterised.
- **Partition.** After a passed check the harts are partitioned exactly when no affinity
  names a missing hart, and virtual hart ids are an order-preserving bijection.
- **Printing.** Output reads back as the number, and is the only canonical numeral for it.

Where the code does not do what it or its comments intend, the model follows the code, and a
lemma states exactly when the intention holds:

- The comment at `src/mem/vmem.c:59` allows unaligned `va` and `pa`. The requested range is
  covered exactly if it ends within the rounded-up number of pages counted from the page of `va`,
  or its last page was mapped before, or the call maps the whole key space
  (`Translation.CoverageExact`; `Translation.UnalignedUncovered` gives a request that is not
  covered). A mapped byte `va + d` goes to `pa + d` exactly if `va` and `pa` have the same page
  offset and the flags leave the page number alone (`Translation.MapPagesTranslates`).
- A size that wraps when it is rounded up maps nothing (`Translation.NoPages`).
- Flags from bit 10 up run into the page number; the page survives exactly if those bits are
  set in it anyway (`Layout.LeafEntryFields`).
- `kfree` does not notice a page that is free already. The list still ends exactly if the page
  was not on it (`KmemRuns.DoubleFreeCycles`).
- `convert_va_to_pa` does not test the leaf's V bit, and answers with an address in page 0 for
  an unmapped page whose leaf table exists (`Translation.TranslateUnmapped`).
- `kmalloc` clears through a null pointer when the list is empty; that is the outcome
  `NullClear` (`None` in `Kmem`). The remap panic is the outcome `Remap`.
- A load into x0 is written to the saved slot of x0, and a later `sw x0` stores that value; it
  stores 0 exactly if 0 was loaded (`Trap.Core.LoadIntoX0`).
- A new claim overwrites an outstanding one. No claim is lost exactly if no interrupt comes while
  one is outstanding (`VplicRuns.LostExactly`); `VplicRuns.LosingRun` is a run that loses one,
  and `VplicRuns.ZeroClaim` the case of a claim that returns nothing and leaves VSEIP set.
- Two harts can both take the last-hart branch of the barrier and are then stuck
  (`BarrierCases.StuckReachable`); three or more can leave a round early
  (`BarrierCases.ManyHartsUnsafe`).
- `check_cpu_configuration` does not notice affinity bits of harts that do not exist
  (`Partition.CheckMissesHart`), and `count_set_bits` counts the bits from 31 up as one
  (`Partition.CountExact`).
- Decimal output of the least 1-, 2- and 4-byte values is wrong (`Print.SignedRoundTrip`).

## Model

| member | source | states |
|---|---|---|
| Bits.GetValue | src/lib/bits.c:15-28 | the bit field of the value for offsets and widths up to 63, all ones otherwise; the mask loop is the remainder modulo a power of two |
| Layout.LinearMapRoundTrip | src/include/memory.h:23-24 | physical address to linear-map address and back is the identity on the whole linear window |
| Layout.LeafEntryPacks | src/mem/vmem.c:55 | the or of page number, flags and V is the packed entry, for every address and every flag value |
| Layout.LeafEntryFields | src/include/memory.h:51-52 | the page comes back out of the entry if and only if the flags have nothing from bit 10 up that the page number has not |
| Tables.LeafTableInjective | src/mem/vmem.c:31-42 | different (root, index) keys never share a leaf slot |
| Tables.TablesUntouched | src/mem/kmem.c:42-47 | memory outside all tables can change without any effect on tree or mapping |
| Tables.ExtendMapping | src/mem/vmem.c:36-39 | hanging a cleared page into an empty slot changes no translation |
| Tables.LeafWriteMapping | src/mem/vmem.c:55 | a leaf write changes the mapping at its own key and nowhere else |
| Kmem.Kmem.Kmalloc | src/mem/kmem.c:36-50 | hands out the head of the list, cleared, as a frame nobody else has; fails exactly on the empty list; keeps invariant and mapping |
| Kmem.Kmem.Kfree | src/mem/kmem.c:52-66 | rejects exactly the pointers that are unaligned, below the end of the image or behind RAM; otherwise the page becomes the head, whoever owns it; for a frame, invariant and mapping are kept |
| Kmem.Kmem.BootstrapKfree | src/mem/kmem.c:71-78 | adds an unowned page to the pool and the list |
| Kmem.Kmem.ProbeAddress | src/mem/kmem.c:25-33 | on the pointers init_kmem probes, valid_address is the upper bound of RAM |
| Kmem.Kmem.InitKmem | src/mem/kmem.c:80-90 | collects every whole page of RAM behind the kernel image exactly once |
| Kmem.Kmem.StoreToFrame | src/mem/kmem.c:49 | a store by the owner of a frame changes no table, no list link and no translation |
| KmemRuns.ListEnds | src/mem/kmem.c:42-44 | following the links visits the free pages in order and ends in a null pointer: no cycle |
| KmemRuns.ListDistinct | src/mem/kmem.c:42-44 | no pointer occurs twice on the list |
| KmemRuns.OneSlot | src/mem/vmem.c:31-41 | a non-root table is named by its one parent slot and by no other |
| KmemRuns.DoubleFreeCycles | src/mem/kmem.c:62-64 | after freeing a page the links lead to the end of the list if and only if the page was not free before |
| KmemRuns.PagesConserved | src/mem/kmem.c:80-90 | free pages plus frames plus table pages is the number of pages collected |
| KmemRuns.RunOps | src/mem/vmem.c:21-76 | every run of allocations, frees and writes of held pages, range mappings, lookups and new or cleared roots keeps the invariant, the pool, the page count and every established translation |
| KmemRuns.RunFromBoot | src/mem/kmem.c:80-90 | the same from init_kmem on: the three kinds of page add up to all whole pages of RAM behind the image |
| Vmem.Va2idx | src/mem/vmem.c:10-16 | the index field of each level, 11 bits wide for an Sv39x4 root |
| Vmem.EntryMacros | src/mem/vmem.c:34-39 | the macro chains between a table page, its entry and its pointer are inverse to each other |
| Vmem.Walk | src/mem/vmem.c:21-43 | finds the leaf slot of the address; without alloc it writes nothing and fails exactly if a table is missing; with alloc only free pages become tables, frames and mapping stay |
| Vmem.WalkLevel | src/mem/vmem.c:32-40 | one level: the child of the slot, created only if it is missing, all other slots kept |
| Vmem.ExtendWorld | src/mem/vmem.c:36-39 | entering a new table keeps free list, tree, ownership and every translation |
| Vmem.MapPage | src/mem/vmem.c:45-57 | success adds one key that was unmapped, with the packed entry; remap and exhaustion leave the mapping as it was |
| Vmem.MapTarget | src/mem/vmem.c:66-73 | one page on a given address or a new frame: exactly its key is added, and a frame is used up only in the second case |
| Vmem.MapPages | src/mem/vmem.c:61-76 | whatever the outcome, exactly the first pages of the range are added, all unmapped before, on consecutive targets or on distinct new frames; success is all of them |
| Vmem.ConvertVaToPa | src/mem/vmem.c:137-146 | reads only; the address of the leaf slot's page, or failure if an upper level is missing |
| Mappings.MapSeqLookup | src/mem/vmem.c:65-74 | a list of updates at fresh keys gives each key its entry and keeps all others |
| Translation.TranslateMapped | src/mem/vmem.c:137-146 | a mapped address goes to its entry's page plus the page offset |
| Translation.TranslateUnmapped | src/mem/vmem.c:141-144 | an unmapped address gets an answer, its offset in page 0, exactly if its leaf table exists |
| Translation.MappedByte | src/mem/vmem.c:137-146 | a byte of a mapped range, aligned or not, goes to its own page's entry with its own offset |
| Translation.MapPagesTranslates | src/mem/vmem.c:61-76 | for all addresses and flags, pa not 0: a byte va + d in a mapped page translates to pa + d if and only if va and pa have the same offset and the flags fit |
| Translation.MapPagesKeepsOthers | src/mem/vmem.c:61-76 | every key outside the range keeps its entry or stays unmapped |
| Translation.KeysMeet | src/mem/vmem.c:10-16 | two addresses have the same index fields if and only if their pages are a multiple of the key space apart |
| Translation.CoverageExact | src/mem/vmem.c:59-65 | the requested range is covered if and only if it ends within the mapped pages, or its last page was mapped before, or the whole key space is mapped |
| Translation.UnalignedUncovered | src/mem/vmem.c:59-65 | 4 KB at 0x1800 in an empty root is not covered, 256 bytes there are |
| Translation.NoPages | src/mem/vmem.c:65 | exactly size 0 and sizes whose rounding wraps map nothing |
| HwWalk.HardwareAgrees | src/mem/vmem.c:46-57 | for every table the code can build, the hardware translates exactly the mapped addresses whose entry permits the access, to what convert_va_to_pa gives, and faults on all others |
| HwWalk.EmulatedDeviceTraps | src/guest/vm_config.c:11-18 | a page mapped without permissions faults on every access, and convert_va_to_pa still finds its physical address |
| Regions.MapRegion | src/mem/vmem.c:61-76 | a successful region adds its pages and nothing else; a failure comes from an exhausted allocator or a collision |
| GuestMap.ClearRoot | src/core/vm_run.c:27 | the four static pages become an empty root; no translation of any other table changes |
| GuestMap.InitHsPgtable | src/core/vm_run.c:20-68 | image and devices linear, leftover RAM on distinct new frames, nothing else in the root, other tables extended only; fails only for lack of memory or a clash within the configuration |
| GuestMap.MapDevices | src/core/vm_run.c:54-67 | every device of the list is mapped, what was mapped stays, and a failure is lack of memory or a clash |
| GuestMap.InitGuests | src/core/vm_run.c:155-169 | any list of VMs on the shared allocator, one after the other: all guests are built, on pairwise distinct frames, none of them a table; fails only for lack of memory or a clash |
| GuestRuns.NextJob | src/mem/vmem.c:65-74 | one page step of one VM keeps what all VMs have built and their frames apart |
| GuestRuns.BuildStep | src/core/vm_run.c:20-68 | one step of the hart that builds a VM clears the root or maps exactly the next page of the configuration; it fails only for lack of memory or a clash |
| GuestRuns.BuildGuests | src/core/vm_run.c:154-169 | in every interleaving each turn gets its VM on by one page, a VM that has mapped its last page has its memory, and when all have, all guests are built on pairwise distinct frames |
| GuestRuns.PlanDone | src/core/vm_run.c:30-67 | the page steps of a VM, all done, give the configured image, leftover RAM and devices |
| GuestMap.GuestImageLinear | src/core/vm_run.c:28-40 | convert_va_to_pa takes every byte below the image's length to that byte of the image |
| GuestView.GuestImageByte | src/core/vm_run.c:28-40 | the hart reaches every image byte, in order, for loads, stores and fetches |
| GuestView.GuestRamByte | src/core/vm_run.c:42-52 | the hart reaches every further byte up to memory_size, for loads, stores and fetches, in a frame of the VM; the number of frames is exact |
| GuestView.GuestDeviceByte | src/core/vm_run.c:54-67 | every byte of a device window is the device's byte for exactly the accesses its permissions name, and faults for the others |
| GuestView.GuestIsolated | src/core/vm_run.c:42-52 | no guest reaches a leftover byte of another, through RAM or image, and none is in a table or the kernel image |
| GuestView.NothingElse | src/core/vm_run.c:20-68 | an address that the hart translates for a guest is named by its configuration, up to whole pages |
| GuestMap.GuestDeviceLinear | src/core/vm_run.c:54-67 | a device window lands on the device's physical base, byte by byte |
| GuestMap.GuestRamPrivate | src/core/vm_run.c:42-52 | two different bytes of leftover RAM, of one guest or of two, have different physical bytes, behind the kernel image and outside all tables |
| BootMap.PteGenValue | src/core/sboot.S:12-22 | the macro's shifts and or give a leaf with all flags but U and no reserved bit |
| BootMap.BootLinear | src/core/sboot.S:31-41 | under the bootstrap table each of the four gigabyte windows is linear for every access |
| KernelMap.NewRoot | src/mem/vmem.c:85-87 | a fresh cleared page is an empty root; the mapping does not change |
| KernelMap.RegionFresh | src/mem/vmem.c:89-132 | no region meets a page that an earlier call has mapped, or itself |
| KernelMap.InitVmem | src/mem/vmem.c:78-135 | fails only on an exhausted allocator; the final table maps the thirteen regions and nothing else |
| KernelRegions.LinearRegionsInZones | src/mem/vmem.c:89-132 | every region but the cpu struct lies in a bootstrap window at the window's own offset |
| Switch.RegionByte | src/mem/vmem.c:89-132 | every byte of every region: the hardware reaches the linear physical byte for exactly the accesses its flags name |
| Switch.SectionAccess | src/mem/vmem.c:101-118 | text is fetched and read but not written, read-only data only read, data read and written but not fetched |
| Switch.AllocatorPages | src/mem/vmem.c:127-132 | through its kernel pointer every byte of every page that init_kmem collects can be read and written, and none fetched |
| Switch.KernelDevices | src/mem/vmem.c:89-97 | below the first gigabyte exactly the device windows are mapped, one to one, for loads and stores |
| Switch.NoWriteExecute | src/mem/vmem.c:89-132 | no address of the final table is both writable and executable |
| Switch.SwitchKeepsMeaning | src/driver/cpu.c:50-56 | an address that the final table maps outside the cpu-struct window has the same physical address under the bootstrap table |
| Switch.RelocationKeepsBytes | src/driver/cpu.c:57-60 | an address in the hart's own cpu struct plus the relocation offset is a window address with the same physical byte |
| Plic.LayoutInjective | src/driver/plic.c:34-59 | no two registers of any kind share word and bit, for all sources and contexts |
| Plic.MaskedBits | src/driver/plic.c:83-86 | the atomic and/or changes the one bit |
| Plic.SetEnabledEffect | src/driver/plic.c:63-87 | one enable bit of one context changes, and no other register |
| Plic.SetPriorityEffect | src/driver/plic.c:17-23 | one priority changes, and no other register |
| Plic.SetThresholdEffect | src/driver/plic.c:104-117 | one threshold changes, and no other register |
| Plic.SetClaimEffect | src/driver/plic.c:135-148 | completing changes no priority, enable, pending or threshold register |
| Plic.ReadsAt | src/driver/plic.c:7-102 | which byte offset and bit each getter reads, for every argument |
| Plic.WritesAt | src/driver/plic.c:104-148 | which word priority, threshold and completion write, and that every other word stays |
| Plic.EnableWritesAt | src/driver/plic.c:63-87 | which bit of which word an enable writes, and that every other bit stays |
| Plic.Driver.PlicGetPriority | src/driver/plic.c:7-13 | the priority word of a valid source, else 0 |
| Plic.Driver.PlicSetPriority | src/driver/plic.c:17-23 | writes that word only, nothing for an invalid source |
| Plic.Driver.PlicGetPending | src/driver/plic.c:25-38 | nonzero exactly if the pending bit is set |
| Plic.Driver.PlicGetEnabled | src/driver/plic.c:40-61 | nonzero exactly if the enable bit of the context is set |
| Plic.Driver.PlicSetEnabled | src/driver/plic.c:63-87 | sets or clears that bit only |
| Plic.Driver.PlicGetThreshold | src/driver/plic.c:89-102 | the threshold of a valid context, else 0 |
| Plic.Driver.PlicSetThreshold | src/driver/plic.c:104-117 | writes that word only |
| Plic.Driver.PlicComplete | src/driver/plic.c:135-148 | writes the claim word of the context only |
| Vplic.RenamingInverse | src/virtual/vplic.c:68-84 | the two renamings are inverse on the VM's interrupts, and everything else goes to 0 |
| Vplic.V2PInjective | src/virtual/vplic.c:68-75 | different virtual interrupts never reach the same source |
| Vplic.IsAccessToContextReg | src/virtual/vplic.c:33-49 | the search over 15872 contexts is a closed-form test |
| Vplic.ClassifiersDisjoint | src/virtual/vplic.c:9-49 | an offset belongs to at most one of the five kinds of register |
| Vplic.DecodeInverts | src/virtual/vplic.c:124-127 | the emulator's context and group decoding inverts the driver's encoding |
| Vplic.StoreRefines | src/virtual/vplic.c:207-298 | for all offsets, values and device lists: storing and then projecting is projecting and then storing abstractly |
| Vplic.StoreIsolated | src/virtual/vplic.c:207-298 | with disjoint physical interrupts and different contexts, a store by one VM changes no register another VM's hart can see |
| Emulate.ParseHtinst | src/virtual/vplic.c:51-66 | the fields of the transformed instruction, or one of the two panics |
| Emulate.ParseLoad | src/virtual/vplic.c:51-66 | decoding recovers rd, width and compression of every transformed load |
| Emulate.ParseStore | src/virtual/vplic.c:51-66 | decoding recovers rs2 and compression of every transformed sw |
| Emulate.VirtToPhysIrq | src/virtual/vplic.c:68-75 | the loop is the renaming function |
| Emulate.PhysToVirtIrq | src/virtual/vplic.c:77-84 | the loop is the inverse renaming function |
| Emulate.Vcpu.constructor | src/virtual/vcpu.c:41-53 | registers cleared but a0 and a1, nothing claimed, contexts 2 * id + 1 |
| Emulate.Vcpu.PendingLoad | src/virtual/vplic.c:96-112 | the mask loop gives the abstract pending word of the group |
| Emulate.Vcpu.EnableLoad | src/virtual/vplic.c:114-136 | the mask loop gives the abstract enable word of the group |
| Emulate.Vcpu.LoadValue | src/virtual/vplic.c:169-181 | every offset reads the abstract PLIC's register, or panics exactly where that has none |
| Emulate.Vcpu.EmulateLoad | src/virtual/vplic.c:156-191 | rd gets the register, sign- or zero-extended, the program counter moves by 4 or 2, the PLIC does not change |
| Emulate.Vcpu.HandleLoadPageFault | src/virtual/vplic.c:193-205 | accepts exactly lw and lwu on existing registers, and panics leave the guest as it was |
| Emulate.Vcpu.EnableStore | src/virtual/vplic.c:217-236 | the loop over 32 bits sets each wired source of the group |
| Emulate.Vcpu.CompleteStore | src/virtual/vplic.c:246-262 | completes exactly if the id is the claimed one, and then clears VSEIP |
| Emulate.Vcpu.StoreValue | src/virtual/vplic.c:278-290 | the register dispatch refines the abstract store |
| Emulate.Vcpu.HandleStorePageFault | src/virtual/vplic.c:264-318 | accepts exactly sw on existing registers; the low 32 bits of rs2 are stored abstractly |
| Emulate.Vcpu.HandleInterrupt | src/virtual/vplic.c:323-331 | remembers the claimed id and sets VSEIP for a nonzero one |
| VplicWords.LoadPriority | src/virtual/vplic.c:86-94 | offset 4 * v reads the priority word of the source behind v |
| VplicWords.LoadPending | src/virtual/vplic.c:96-112 | bit i at offset 0x1000 + 4 * g is the pending bit of the source behind 32 * g + i |
| VplicWords.LoadEnable | src/virtual/vplic.c:114-136 | bit i at the enable offset of group g is that source's enable bit in the physical context; other contexts read as zero |
| VplicWords.LoadContext | src/virtual/vplic.c:138-154 | the threshold of the physical context and the claimed interrupt; other contexts read as zero |
| VplicWords.AcceptedOffsets | src/virtual/vplic.c:169-181 | the offsets at which loads and stores do not panic |
| VplicWords.StorePriorityAt | src/virtual/vplic.c:207-215 | a priority store writes the word of the source and no other |
| VplicWords.StoreEnableAt | src/virtual/vplic.c:217-236 | an enable store writes the enable bits of the group's sources and no other bit |
| VplicWords.StoreThresholdAt | src/virtual/vplic.c:238-244 | a threshold store writes the word of the physical context and no other |
| VplicWords.StoreClaimAt | src/virtual/vplic.c:246-262 | the claimed id goes to the physical claim register exactly if the store names it, and no other word changes |
| VplicWords.ReadBack | src/virtual/vplic.c:207-262 | priority and threshold read back as written, and a completed claim reads as zero |
| VplicWords.ReadBackEnable | src/virtual/vplic.c:217-236 | enable bits of wired interrupts read back as written, the others as before |
| VplicWords.LoadedValue | src/virtual/vplic.c:183-185 | lw copies bit 31 into the upper half, lwu clears it |
| VplicWords.NextPcValue | src/virtual/vplic.c:187-190 | 4 behind an uncompressed access, 2 behind a compressed one |
| VplicWords.AcceptedInstructions | src/virtual/vplic.c:198-201 | which instruction fields the load and the store handler take |
| VplicRuns.ClaimsConserved | src/virtual/vplic.c:246-331 | nonzero claims are completed, outstanding or overwritten, and nothing else |
| VplicRuns.StepKeeps | src/virtual/vplic.c:207-331 | any store or interrupt on any hart keeps enables within the own VM and the claim record right |
| VplicRuns.RunKeeps | src/virtual/vplic.c:207-331 | the same over every run from cleared enable bits |
| VplicRuns.ClaimAccounting | src/virtual/vplic.c:323-331 | in every run the claim balance holds, completions name the latest claim, and an outstanding claim is signalled |
| VplicRuns.ClaimRoundTrip | src/virtual/vplic.c:147-154 | while a claim is outstanding the guest reads a nonzero virtual id, and writing it back writes the claimed source to the physical claim register and no other word |
| VplicRuns.CompletionWritten | src/virtual/vplic.c:257-259 | a store writes a physical claim register exactly if it is logged as a completion of that context, with the id logged |
| VplicRuns.LostExactly | src/virtual/vplic.c:328 | in every run no claim of a hart is lost if and only if it took no interrupt while one was outstanding |
| VplicRuns.ZeroClaim | src/virtual/vplic.c:328-330 | a claim that returns 0 drops the outstanding id, the guest reads 0, and VSEIP stays as it was |
| VplicRuns.LosingRun | src/virtual/vplic.c:323-331 | a run in which one claim is lost, by a second claim or by an empty one |
| Trap.Core.VmExit | src/core/trap.S:50-88 | saves every guest register but x0 and restores sscratch |
| Trap.Core.VmEnter | src/core/trap.S:10-48 | loads every register but x0 from the saved ones |
| Trap.Core.IsAccessToPlic | src/core/trap.c:34-48 | the physical address of the fault if it lies in the PLIC |
| Trap.Core.HandleEcall | src/core/trap.c:50-69 | a0 gets its translation, the program counter moves by 4; nothing else changes |
| Trap.Core.HsExceptionHandler | src/core/trap.c:60-85 | which exceptions are handled, and for each the registers, the program counter, all PLIC words, the claimed id and VSEIP; a panic changes nothing |
| Trap.Core.HsInterruptHandler | src/core/trap.c:13-32 | scause 2^63 + 9 records the claim and signals a nonzero one, 2^63 + 5 changes nothing of the guest, every other interrupt panics |
| Trap.Core.Dispatch | src/core/trap.S:94-102 | bit 63 of scause decides between the interrupt and the exception handler, with the effect of each |
| Trap.Core.TrappedLoad | src/core/trap.S:91-105 | from trap entry to return, for every rd: only rd changes, correctly extended (for x0 only the saved slot), the program counter moves by 4 or 2, sscratch is in place, and memory, tables, PLIC, claimed id and VSEIP are as before |
| Trap.Core.TrappedStore | src/core/trap.S:91-105 | from trap entry to return no register and no memory changes; PLIC words, claimed id and VSEIP change as a store of rs2 demands, for x0 of the saved slot 0 |
| Trap.Core.TrappedInterrupt | src/core/trap.S:91-105 | the guest resumes exactly where it was; scause 2^63 + 9 replaces the claimed id and signals a nonzero one, 2^63 + 5 changes neither, any other panics |
| Trap.Core.LoadIntoX0 | src/virtual/vplic.c:183-277 | a PLIC load into x0 and then sw x0, both end to end: the store writes exactly the value loaded |
| Trap.PlicAccessTraps | src/core/trap.c:34-48 | a guest access to its PLIC window faults in hardware, and the handler finds the physical register word |
| TrapRuns.MachineStep | src/core/trap.S:91-105 | a trap on one of many harts goes through exactly if it hits something that exists; it is its one event of the interrupt controller's run, or none, and leaves the other harts alone |
| TrapRuns.RunTraps | src/core/trap.S:91-105 | any sequence of trapped loads, stores and interrupts on all harts is carried out up to the first that panics; its events are a run of the interrupt controller that ends where the machine is, and memory and tables never change |
| Barrier.LockStep | src/lib/spinlock.S:8-19 | every step keeps at most one lock holder, and the lock word says whether there is one |
| Barrier.FirstUseStep | src/lib/lock.c:37-54 | before the first reset every decrement counts; the reset comes when all have arrived |
| Barrier.FirstUseSafe | src/lib/lock.c:37-62 | any number of harts, every schedule: mutual exclusion, no lost token, and nobody leaves the first wait before all have arrived |
| BarrierTwo.TwoStep | src/lib/lock.c:37-54 | the two-hart invariant is kept by every step, also when a fast hart re-enters |
| BarrierTwo.NoEarlyExit | src/lib/lock.c:35-54 | two harts, every schedule, any number of rounds: nobody finishes its k-th call before both have begun theirs |
| BarrierTwo.DoomedForever | src/lib/lock.c:44-47 | once both harts took the last-hart branch nobody finishes again |
| BarrierTwo.OthersProgress | src/lib/lock.c:44-53 | in every other state some hart has a step that is not a failed check |
| BarrierTwo.StuckExactly | src/lib/lock.c:47 | no step changes anything if and only if both wait for passed, which is 1 |
| BarrierCases.StuckReachable | src/lib/lock.c:44-47 | a schedule that reaches such a state from a fresh barrier |
| BarrierCases.ManyHartsUnsafe | src/lib/lock.c:44-53 | for every n from 3 on, a schedule in which a hart finishes its second call while another has begun only one |
| BarrierCases.ReusableExactly | src/lib/lock.c:16-33 | reuse is safe for all schedules if and only if there are at most two harts |
| Partition.CountSetBits | src/lib/bits.c:3-11 | bits below 31, plus one if anything from bit 31 up is set |
| Partition.CountExact | src/lib/bits.c:3-11 | that is the population count if and only if at most one bit from 31 up is set |
| Partition.CheckCpuConfiguration | src/core/vm_run.c:135-152 | passes exactly for disjoint affinities whose counts add up; an overlap names the first pair |
| Partition.CheckMeans | src/core/vm_run.c:135-152 | after a passed check with up to 31 CPUs every hart has exactly one VM if and only if no affinity names a missing hart |
| Partition.CheckComplete | src/core/vm_run.c:135-152 | every partition of the harts passes |
| Partition.CheckMissesHart | src/core/vm_run.c:146-151 | a configuration that passes and leaves hart 0 without a VM |
| Partition.GetConfigForCpu | src/virtual/vcpu.c:11-18 | the first VM with the hart, or the panic; for a hart of exactly one VM, that VM |
| Partition.GetVhartid | src/virtual/vcpu.c:23-33 | the number of lower harts of the same VM |
| Partition.HartsPartitioned | src/core/vm_run.c:154-169 | each hart in one VM; virtual ids are an order-preserving bijection onto 0..n-1 with n the barrier count; exactly one hart builds each guest table |
| Partition.InitVmBarriers | src/core/vm_run.c:124-133 | every VM's barrier is a fresh barrier for its counted harts, with tokens and initial set and passed untouched |
| Print.PrintUint | src/lib/printf.c:43-62 | the digits of the number, within the 64-character buffer; a panic below base 2 |
| Print.DigitsParse | src/lib/printf.c:43-62 | the digits read back as the number and have no superfluous zero |
| Print.DigitsUnique | src/lib/printf.c:43-62 | no other canonical numeral denotes that number |
| Print.PrintPadded | src/lib/printf.c:64-90 | the low bytes, zero-padded, binary separated by octets; a panic for other bases |
| Print.PaddedParses | src/lib/printf.c:64-90 | without separators: bytes * chars_for_byte digits that denote the number modulo 2^(8 * bytes) |
| Print.SeparateAt | src/lib/printf.c:84-88 | an underscore stands before every eighth binary digit but the first, and nowhere else |
| Print.PrintInt | src/lib/printf.c:24-35 | sign, then the printer of the base on the stored-back magnitude |
| Print.SignedRoundTrip | src/lib/printf.c:24-35 | unpadded signed output reads back as the value if and only if it is not the least value v of a 1-, 2- or 4-byte type; then it reads as -(2^64 + v) |
| Print.SignedPaddedRoundTrip | src/lib/printf.c:24-35 | binary and hexadecimal signed output reads back for every value |

## Left out

- Finer interleavings than the page step: kmalloc and kfree are atomic by their lock, and what a page step does outside it touches only tables of its own VM and the page just obtained, so a page step is one step here.
- GuestMap.InitGuests: builds the VMs one after the other; the interleavings are in `GuestRuns`.
- Faults that ask software to set A and D bits: the hart is taken to update them itself, as the code enables it to.
- The RVWMO memory model, fences and TLB flushes: lock and barrier steps are sequentially consistent.
- Symbol addresses: sections are taken to be page aligned and in the order of the linker script, in a kernel image that fits into RAM; `sizeof(struct cpu)` is 0x3000.
- memset is word by word, and the unrolled sd/ld sequences of trap.S and the list of map calls in init_vmem are loops over a register number or a list.
- relocate_stack's update of the frame pointer stored on the stack: only the address arithmetic and the meaning of the relocated addresses are modelled.
- The PLIC gateway: a claim returns 0 or any enabled source; priorities and thresholds do not restrict it. The read of the claim register itself is the parameter of the interrupt handlers.
- Kmem.Kmem.Kfree: what freeing a page table or a foreign page does to the tables is not stated; the invariant is promised for frames.
- Partition.GetConfigForCpu: `1 << hartid` for hart ids from 32 on is undefined in C; the model shifts by the id modulo 32, as the instruction does.
- Print.PrintPadded: more than 8 bytes are required not to occur, as no format asks for them; negating the least value of a signed type is wrap-around.
- Print.PrintUint: bases above 16 would read past the digit table and are required not to occur.
- CSR setup in init_hs, init_vs and init_hart beyond satp, sscratch, sepc and hvip.VSEIP: constant writes to hardware.
- The timer deadline, UART, PCI, SBI calls and panic output: device I/O without invariants of its own.
- printf's format dispatch and varargs: C calling convention.
- Guest programs, build scripts and debugging helpers.
