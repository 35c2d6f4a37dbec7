# NyauxKC in Dafny

A model of the state-changing core of the NyauxKC kernel, with proofs. Three clusters:

- **The memory stack.** The physical page list (`Pmm.dfy`), the slab allocator (`SlabPages.dfy`, `Slabs.dfy`,
  `SlabAlloc.dfy`), the x86-64 page tables (`TableTree.dfy`, `PageTables.dfy`, `X86Entries.dfy`, `X86Paging.dfy`,
  `RegionMapping.dfy`, `X86Regions.dfy`) and the kernel's region list (`RegionList.dfy`, `RegionNodes.dfy`,
  `AddressSpace.dfy`, `Vmm.dfy`, `VmmFree.dfy`) share one pool of frames. `Ownership.dfy` states who owns which
  frame; `Kernel.dfy` is the global allocator over all of it; `FixedMaps.dfy` and `Boot.dfy` reach the first
  consistent state from the boot loader's memory map.
  `RiscvPaging.dfy` is the RISC-V walker for any number of levels, over the same tree. `X86Hardware.dfy` and
  `RiscvHardware.dfy` are what the processors make of page tables, from the manuals' bit positions alone.
- **The virtio split virtqueue.** `Descriptors.dfy` is the descriptor table and its free list, `Virtqueue.dfy` the
  rings and the protocol with a device.
- **Concurrency and scheduling.** `Locks.dfy` and `Once.dfy` are step machines for any number of processors;
  `InvasiveList.dfy` is the intrusive list and `Scheduler.dfy` the round-robin scheduler on it.

## Main results

- From boot on (`Boot.Start`) and through every sequence of calls of `MemoryStack` (slab and region allocation and
  freeing, client writes in objects and, through the hardware's walk, in regions) each usable frame is in exactly one
  of the pool, the slabs, the page tables and the backed pages (`ExactlyOneOwner`): none is lost, none used twice.
- The boot mappings are what the processor sees, every flag included: the kernel image where it lies in memory, all
  of physical memory behind the direct map, which reaches every frame of the pool.
- The processor's walk of the tables, defined from the manual alone, agrees with the region list at every address
  between the direct map and the kernel image, with exactly the flags each region was allocated with.
- `vmm_alloc` followed by `vmm_dealloc` restores the region list, every translation, the backing of all other pages
  and which slab objects are live; the pool is short by exactly the new tables and at most a slab page.
- Live slab objects are disjoint, zeroed when handed out, and never disturbed; the page a pointer is masked to is
  the slab that owns it.
- Over every interleaving of the single ring accesses of driver and device, no slot is read before it is written,
  every entry read is the head of a live chain, and nothing in flight is overwritten or freed by a driver that frees
  what it reads from the used ring. The 16-bit ring arithmetic is exact exactly for sizes that divide 2^16.
  From any state at rest a command can run to its end and leave everything as it was.
- Over every interleaving of processors, and whatever order each drops its guards in, the reader/writer lock word
  means what it should, spin locks exclude, and every unlock reads back the flag saved with that hold. Interrupts stay
  off inside locks exactly when no guard taken with interrupts on is dropped before one taken inside it.
  A reader is let in exactly when no one writes, and taking and dropping any lock restores the processor.
- Over every run of yields a resumed thread finds the registers of its own last preemption, no thread is lost, and
  n yields run n threads once each.

## How it is modelled

Memory is a map from frame numbers to pages of 512 words; tables, slab headers, free-list links and region nodes are
words in it. The direct map adds one constant to every physical address, so a pointer into it is represented by the
physical address. Shifts and masks by constants are divisions and remainders, an or of disjoint fields is a sum, and
wrap-around is written out where the code can wrap.

The memory stack's operations are methods that take memory and the list head and return them (`Ram`), with the
abstract value as a ghost argument and result; the classes `Pmm` and `MemoryStack` keep the same state in fields. The
descriptor pool, the rings, the list and the scheduler are classes. Locks, `Once` and the virtqueue protocol are
relations between states, one atomic step each, and theorems about all runs.

A ghost predicate of the form `forall k {:trigger Open(k)} :: Open(k) ==> P` means `P`; proofs that do not mention
`Open` treat it as a unit. `Spell` is a second key of the same kind.

Where the code does not do what its callers might expect, the model follows the code, one lemma shows the failing case
and another says exactly when it does not arise:

| behaviour | failing case | exactly when it is right |
|---|---|---|
| an exhausted page list hands out frame 0 | `ExhaustedPoolRepeatsFrameZero` | `TakesFromPoolIff` |
| freeing a frame twice, or frame 0, breaks the page list | `FirstVisit` | `FreeingKeepsListIff` |
| `unmap` of an unmapped page frees frame 0 | `UnmapEmptyLeaf` | `UnmapSoundIff`, `Unmap`, `Unmap4kib` |
| the region behind an empty one repeats its base | `EmptyRegionSharesBase` | `InsertRisesIff` |
| slab objects are not aligned to their size | `Alignment` | `Alignment` |
| ring slots in flight are overwritten when the index wraps | `SizeThreeOverwrites` | `NoOverwriteIff` |
| guards dropped out of order switch interrupts on inside a lock | `TwoGuardsOutOfOrder` | `OutOfOrderIff` |
| the base `clear` leaves the length | `List.Clear` | `List.Clear` |

## Model

| member | source | states |
|---|---|---|
| `PhysicalMemory.Pmm.Init` | kernel/src/memory/pmm/mod.rs:22-49 | the free list visits exactly the usable frames other than frame 0, each once |
| `PhysicalMemory.Pmm.LinkFrame` | kernel/src/memory/pmm/mod.rs:30-41 | one page of a usable entry goes to the front of the list |
| `PhysicalMemory.Pmm.AllocatePage` | kernel/src/memory/pmm/mod.rs:51-63 | the method is `TakePage`; while the list lasts it pops the head, cleared |
| `PhysicalMemory.Pmm.DeallocatePage` | kernel/src/memory/pmm/mod.rs:65-73 | the method is `GivePage`; a frame not null and not free goes to the front |
| `PhysicalMemory.TakePageFacts` | kernel/src/memory/pmm/mod.rs:51-63 | from a non-empty pool a frame of the pool comes back, zeroed, and the rest is a pool still |
| `PhysicalMemory.GivePageFacts` | kernel/src/memory/pmm/mod.rs:65-73 | a frame that is not null and not free joins the pool |
| `PhysicalMemory.GiveThenTake` | kernel/src/memory/pmm/mod.rs:51-73 | allocating undoes freeing: same frame, cleared, and the same list |
| `PhysicalMemory.TakesFromPoolIff` | kernel/src/memory/pmm/mod.rs:51-63 | the frame returned is one of the pool exactly when the pool is not empty; an empty pool yields frame 0 |
| `PhysicalMemory.ExhaustedPoolRepeatsFrameZero` | kernel/src/memory/pmm/mod.rs:53-60 | an empty list hands out frame 0 at every further allocation, exactly when the first word of frame 0 is no other frame's address |
| `PhysicalMemory.FreeingKeepsListIff` | kernel/src/memory/pmm/mod.rs:65-73 | freeing leaves a finite list exactly when the frame is not null and not free already |
| `TableTree.FreshRoot` | kernel/src/arch/x86_64/pt/mod.rs:397-402 | a zeroed root is a table tree that maps nothing |
| `TableTree.AddTable` | kernel/src/arch/x86_64/pt/mod.rs:252-263 | hooking a zeroed table under a null entry keeps the tree unshared and changes no leaf |
| `TableTree.SetLeaf` | kernel/src/arch/x86_64/pt/mod.rs:312-316 | writing one leaf entry changes that leaf and no other, and no table pointer |
| `TableTree.TreeFrame` | kernel/src/arch/x86_64/pt/mod.rs:214-280 | what the tables mean depends on the table frames alone |
| `PageTables.NewRoot` | kernel/src/arch/x86_64/pt/mod.rs:397-402 | the root taken from the pool maps nothing, and the pool is a frame short |
| `PageTables.NewTable` | kernel/src/arch/x86_64/pt/mod.rs:254-263 | a table from the pool, zeroed and linked: tree and pool stay apart, leaves unchanged |
| `PageTables.FillIn` | kernel/src/arch/x86_64/pt/mod.rs:252-277 | the next table on the way exists afterwards, taken from the pool only if it was missing |
| `PageTables.FreedByWrite` | kernel/src/arch/x86_64/pt/mod.rs:292-300 | freeing a leaf's frame and clearing the leaf: one leaf gone, one frame back, all else kept |
| `PageTables.UnmapSoundIff` | kernel/src/arch/x86_64/pt/mod.rs:281-304 | unmapping keeps tables and pool sound exactly when the leaf names a frame that is not null, not free and not a table |
| `PageTables.UnmapEmptyLeaf` | kernel/src/arch/x86_64/pt/mod.rs:292-300 | failing case: an empty leaf under an existing table puts frame 0 at the head of the free list, no pool but the empty one is left, and the next allocation gets frame 0 |
| `X86Entries.BuildPermissions` | kernel/src/arch/x86_64/pt/mod.rs:73-183 | at every level `PT::new` reads back from the word exactly the flags that level can carry |
| `X86Entries.DecodeIsHardware` | kernel/src/arch/x86_64/pt/mod.rs:73-129 | `PT::new` reads each flag where the processor's manual puts it, and sees a large page exactly where the processor does |
| `X86Entries.LeafEntry` | kernel/src/arch/x86_64/pt/mod.rs:312-313 | to the processor the word is the frame it was built from with exactly its flags, bit by bit of the manual; the code reads back the same, and it fits 64 bits |
| `X86Entries.TablePointer` | kernel/src/arch/x86_64/pt/mod.rs:255-263 | a table pointer is present, writable, user, and never reads as a large page |
| `X86Paging.IndexIsDigit` | kernel/src/arch/x86_64/pt/mod.rs:224-237 | the four indices computed from an address are the base-512 digits of bits 12 to 47 |
| `X86Paging.TranslateIsLeaf` | kernel/src/arch/x86_64/pt/mod.rs:214-280 | the processor's 4-level walk, with its own indices and bit positions, yields exactly the meaning of the tree's leaf word |
| `X86Paging.GetTable` | kernel/src/arch/x86_64/pt/mod.rs:214-280 | finds the leaf slot, building missing tables exactly when told to, otherwise fails without effect |
| `X86Paging.LevelStep` | kernel/src/arch/x86_64/pt/mod.rs:224-277 | one level of the walk: stop, give up, or go down |
| `X86Paging.Map4kib` | kernel/src/arch/x86_64/pt/mod.rs:306-322 | one leaf written, exactly the missing tables taken from the pool, nothing else changed |
| `X86Paging.MapChangesOnePage` | kernel/src/arch/x86_64/pt/mod.rs:281-322 | after a map or unmap the hardware translates that page by the new word and every other page as before |
| `X86Paging.MeaningOfLeaf` | kernel/src/arch/x86_64/pt/mod.rs:312-316 | to the processor the word `map4kib` writes is its frame with its flags if present, an empty word a fault |
| `X86Paging.Unmap` | kernel/src/arch/x86_64/pt/mod.rs:281-304 | without a last table no effect; otherwise the leaf is cleared and the frame it names freed, which is sound exactly when that frame can be freed |
| `X86Paging.UnmapOfUnmapped` | kernel/src/arch/x86_64/pt/mod.rs:292-300 | the failing case for a page whose leaf is empty |
| `RegionMapping.RegionStep` | kernel/src/arch/x86_64/pt/mod.rs:335-344 | the invariant of the mapping loop: pages so far have distinct zeroed frames, frames are conserved |
| `RegionMapping.FreedStep` | kernel/src/arch/x86_64/pt/mod.rs:364-366 | the invariant of the unmapping loop: pages so far are unmapped and their frames free |
| `X86Regions.ArchMapRegionAlloc` | kernel/src/arch/x86_64/pt/mod.rs:328-345 | every page of the region maps to a zeroed frame of its own; other leaves and frames keep |
| `X86Regions.MapFreshPage` | kernel/src/arch/x86_64/pt/mod.rs:336-344 | one iteration of that loop |
| `X86Regions.ArchUnmapRegion` | kernel/src/arch/x86_64/pt/mod.rs:362-367 | the region is unmapped and exactly the frames that backed it are free again |
| `X86Regions.UnmapPage` | kernel/src/arch/x86_64/pt/mod.rs:364-366 | one iteration of that loop |
| `SlabPages.InitPage` | kernel/src/memory/slab.rs:30-54 | a fresh slab page: header and a free list of every object place, last first |
| `SlabPages.SlotsComplete` | kernel/src/memory/slab.rs:30-47 | every whole object that fits behind the header is in that list |
| `SlabPages.TakeObject` | kernel/src/memory/slab.rs:58-77 | takes the second free object, or the only one, zeroed; the count follows; live objects keep their contents |
| `SlabPages.GiveObject` | kernel/src/memory/slab.rs:143-163 | the object goes to the front of the free list; live objects keep their contents |
| `Slabs.SlabAdded` | kernel/src/memory/slab.rs:79-86 | a slab linked behind the last one keeps all seven chains well formed |
| `SlabAlloc.ClassFor` | kernel/src/memory/slab.rs:128-137 | the smallest class that holds the size |
| `SlabAlloc.NewSlab` | kernel/src/memory/slab.rs:79-86 | a frame leaves the pool and becomes the last slab of its class; no object changes hands |
| `SlabAlloc.ChainAlloc` | kernel/src/memory/slab.rs:55-90 | an object of the first slab with room; a slab is added exactly when all are full |
| `SlabAlloc.Alloc` | kernel/src/memory/slab.rs:128-138 | sizes above 1024 fail without effect; otherwise a zeroed object of the smallest fitting class becomes live, and only that |
| `SlabAlloc.Dealloc` | kernel/src/memory/slab.rs:139-163 | null is ignored; otherwise exactly that object stops being live |
| `SlabAlloc.LiveObjectsDisjoint` | kernel/src/memory/slab.rs:30-47 | live objects never overlap, stay in their page and clear of its header |
| `SlabAlloc.Alignment` | kernel/src/memory/slab.rs:30-47 | objects are aligned to the smaller of their size and 32, to their size exactly up to 32 bytes |
| `SlabAlloc.ClientWrite` | kernel/src/memory/slab.rs:55-90 | a write inside a live object leaves every free list, count, chain and other object alone |
| `RegionList.AlignUp` | kernel/src/main.rs:65-67 | the least multiple of the page size not below the value |
| `RegionList.CalculateRegionLocation` | kernel/src/memory/vmm/mod.rs:53-80 | the lowest gap of the rounded amount plus a page, or none exactly when no gap is that large |
| `RegionList.InOrder` | kernel/src/memory/vmm/mod.rs:53-188 | regions are disjoint and their bases strictly increase |
| `RegionList.InsertKeepsSorted` | kernel/src/memory/vmm/mod.rs:135-150 | inserting in the gap found keeps regions aligned, apart and clear of the page below the kernel, for every amount, also 0 |
| `RegionList.InsertRisesIff` | kernel/src/memory/vmm/mod.rs:135-150 | bases stay strictly increasing exactly when the region in front of the gap is not empty |
| `RegionList.EmptyRegionSharesBase` | kernel/src/memory/vmm/mod.rs:135-166 | failing case: after `vmm_alloc(0, _)` the next region of the same gap gets the same base, and `vmm_dealloc` finds the empty one |
| `RegionList.InsertKeepsOrder` | kernel/src/memory/vmm/mod.rs:135-150 | for a non-zero amount all of that holds and no region is empty |
| `RegionList.RemoveKeepsOrder` | kernel/src/memory/vmm/mod.rs:170-176 | taking out any region but the first and last keeps all of that |
| `RegionList.FlagWordBits` | kernel/src/memory/vmm/mod.rs:13-20 | the node's flag word holds the five flags in bits 0 to 4 |
| `RegionNodes.WriteNode` | kernel/src/memory/vmm/mod.rs:31-44 | the node holds the region and no other node or object changed |
| `RegionNodes.LinkNode` | kernel/src/memory/vmm/mod.rs:140-150 | the linked list in memory is the old list with the region inserted |
| `RegionNodes.UnlinkNode` | kernel/src/memory/vmm/mod.rs:170-173 | the linked list in memory is the old list without the region |
| `Ownership.OneOwner` | kernel/src/memory/vmm/mod.rs:135-188 | each owned frame is in exactly one of: pool, slabs, page tables, backed pages |
| `Ownership.SlabStep` | kernel/src/memory/slab.rs:128-163 | slab operations keep tables, backed pages and the set of owned frames |
| `Ownership.WriteStep` | kernel/src/memory/vmm/mod.rs:145-150 | writing a word of a live slab object keeps every owner's invariant |
| `Ownership.MapStep` | kernel/src/arch/x86_64/pt/mod.rs:328-345 | mapping moves frames from the pool to tables and pages, losing none |
| `Ownership.UnmapStep` | kernel/src/arch/x86_64/pt/mod.rs:362-367 | unmapping moves the pages' frames to the pool, losing none |
| `AddressSpace.GapUnclaimed` | kernel/src/memory/vmm/mod.rs:53-80 | the pages of a new region belong to no other region and lie between direct map and kernel image |
| `Vmm.NewNode` | kernel/src/memory/vmm/mod.rs:31-34 | the node comes from the slabs without disturbing the list |
| `Vmm.MapNew` | kernel/src/memory/vmm/mod.rs:151-152 | the new region's pages are mapped, the slabs left alone |
| `Vmm.VmmAlloc` | kernel/src/memory/vmm/mod.rs:135-155 | no gap: no effect. Otherwise the region is in the lowest gap, its pages map to distinct zeroed frames with its flags, all else keeps, and the frame count adds up |
| `VmmFree.FreeRegion` | kernel/src/memory/vmm/mod.rs:167-178 | unmap, unlink and free the node of the region found |
| `VmmFree.VmmDealloc` | kernel/src/memory/vmm/mod.rs:156-188 | null or an unknown base: no effect. Otherwise that region and nothing else is gone |
| `VmmFree.RoundTrip` | kernel/src/memory/vmm/mod.rs:135-188 | freeing a fresh allocation restores regions, translations and backing; the pool is short by the new tables and at most a slab page |
| `VmmFree.RoundTripObjects` | kernel/src/memory/vmm/mod.rs:135-188 | and the same slab objects are live; all but the neighbouring region's node have the same contents |
| `Kernel.HardwareSeesRegions` | kernel/src/memory/vmm/mod.rs:135-155 | the processor's walk agrees with the region list at every address between direct map and kernel image: frame, write, user, no-execute, global and memory type, or a fault |
| `Kernel.NoFrameShared` | kernel/src/memory/vmm/mod.rs:135-155 | no two pages have the same frame |
| `Kernel.ObjectWritten` | kernel/src/memory/slab.rs:55-90 | a client writing in its slab object keeps the whole invariant |
| `Kernel.PageWritten` | kernel/src/memory/vmm/mod.rs:135-155 | a client writing in its pages keeps the whole invariant |
| `Kernel.MemoryStack.Alloc` | kernel/src/memory/mod.rs:15-33 | up to 1024 bytes a zeroed slab object, above a region; every frame keeps exactly one owner |
| `Kernel.MemoryStack.Dealloc` | kernel/src/memory/mod.rs:34-45 | the reverse, by the same size test; null, or an address no region starts at, has no effect |
| `Kernel.MemoryStack.VmmAlloc` | kernel/src/memory/vmm/mod.rs:135-155 | a region with flags of the caller's choice, or nothing exactly when no gap is large enough; every frame keeps exactly one owner |
| `Kernel.MemoryStack.VmmDealloc` | kernel/src/memory/vmm/mod.rs:156-188 | that region and nothing else is gone, or no effect; every frame keeps exactly one owner |
| `Kernel.MemoryStack.WriteObject` | kernel/src/memory/slab.rs:55-90 | a client's write in its object changes that word alone and keeps the whole invariant |
| `Kernel.MemoryStack.WriteRegion` | kernel/src/memory/vmm/mod.rs:135-155 | a client's write at an address of its region lands, by the hardware's walk, in the frame that backs the page, and keeps the whole invariant |
| `Kernel.MemoryStack.ExactlyOneOwner` | kernel/src/memory/vmm/mod.rs:135-188 | what all of these keep: each frame handed over at boot is in exactly one of pool, slabs, tables and backed pages, any other frame in none |
| `Kernel.StoreInObject` | kernel/src/memory/slab.rs:55-90 | the same on values |
| `Kernel.StoreInPage` | kernel/src/memory/vmm/mod.rs:135-155 | the same on values, the frame found by the hardware's walk |
| `Kernel.ObjectAlloc` | kernel/src/memory/mod.rs:17-20 | a zeroed slab object that is no region node, and the whole invariant kept |
| `Kernel.RegionAlloc` | kernel/src/memory/mod.rs:21-31 | what `vmm_alloc` promises, and no frame lost |
| `Kernel.ObjectFree` | kernel/src/memory/mod.rs:35-36 | the object is free again, and the whole invariant kept |
| `Kernel.RegionFree` | kernel/src/memory/mod.rs:37-44 | what `vmm_dealloc` promises, and no frame lost |
| `Boot.InitCache` | kernel/src/memory/slab.rs:93-102 | one cache with one slab of free objects |
| `Boot.InitSlab` | kernel/src/memory/slab.rs:116-126 | seven caches from seven frames of the pool, nothing live |
| `Boot.RootTaken` | kernel/src/arch/x86_64/pt/mod.rs:397-402 | the first page table joins the other owners |
| `FixedMaps.ScanMemmap` | kernel/src/arch/x86_64/pt/mod.rs:415-437 | the direct map ends at the highest mapped entry, rounded up; the framebuffer is the last such entry |
| `FixedMaps.HighestIs` | kernel/src/arch/x86_64/pt/mod.rs:417-436 | that end is the least bound of the mapped entries |
| `FixedMaps.FramebufferIs` | kernel/src/arch/x86_64/pt/mod.rs:416-432 | and that framebuffer the last entry of its kind, or none |
| `FixedMaps.PoolInDirectMap` | kernel/src/arch/x86_64/pt/mod.rs:415-437 | every frame of the pool is reached through the direct map |
| `FixedMaps.MapFixed` | kernel/src/arch/x86_64/pt/mod.rs:408-413 | one `map4kib`: the leaf names the frame, no other leaf changes, and every owner's invariant is kept |
| `FixedMaps.MapKernelImage` | kernel/src/arch/x86_64/pt/mod.rs:404-414 | to the processor page j of the kernel image is j pages into its memory, writable, executable, global, write-back; no other leaf and no frame's owner changes |
| `FixedMaps.MapDirectMap` | kernel/src/arch/x86_64/pt/mod.rs:438-451 | page j of the direct map is frame j with the same access, in the framebuffer not executable and with PWT and PAT; nothing else changes |
| `FixedMaps.MapBoth` | kernel/src/arch/x86_64/pt/mod.rs:404-451 | after both loops exactly the pages of the two runs are mapped |
| `FixedMaps.FixedSeen` | kernel/src/arch/x86_64/pt/mod.rs:404-451 | the processor's walk translates both runs accordingly, every flag included |
| `Boot.InitPool` | kernel/src/memory/pmm/mod.rs:22-49 | the pool is the set of usable frames other than frame 0 |
| `Boot.PtInit` | kernel/src/arch/x86_64/pt/mod.rs:397-456 | root table and both runs, out of a pool that holds their tables; every frame keeps one owner |
| `Boot.VmmBoot` | kernel/src/memory/vmm/mod.rs:191-214 | the region list on top of it satisfies the invariant of the whole stack |
| `Boot.VmmInit` | kernel/src/memory/vmm/mod.rs:193-214 | the two-region list, with the flags of the source, satisfies the invariant of the whole stack, and no translation changes |
| `Boot.Start` | kernel/src/memory/vmm/mod.rs:191-214 | from the boot loader's memory map the allocator starts with the direct map and the kernel image as its regions, both as the hardware sees them, and exactly the usable frames as the owned ones |
| `RiscvPaging.LeafRoundTrip` | kernel/src/arch/risc_v/pt/mod.rs:58-100 | a leaf word names its frame and carries its flags |
| `RiscvPaging.DecodeIsHardware` | kernel/src/arch/risc_v/pt/mod.rs:58-80 | `PT::new` reads each flag where section 4.3.1 of the manual puts it |
| `RiscvPaging.ExtractInvertsIff` | kernel/src/arch/risc_v/pt/mod.rs:22-24 | the frame is read back exactly for page-aligned addresses below 2^56 |
| `RiscvPaging.TablePointer` | kernel/src/arch/risc_v/pt/mod.rs:129-138 | a table pointer never looks like a leaf and leads back to its table |
| `RiscvPaging.IndexIsDigit` | kernel/src/arch/risc_v/pt/mod.rs:114-116 | the indices at any level are the digits of the page number, for any number of levels |
| `RiscvPaging.SameIndex` | kernel/src/arch/risc_v/pt/mod.rs:114-116 | and those the hart takes from the address |
| `RiscvPaging.TranslateIsLeaf` | kernel/src/arch/risc_v/pt/mod.rs:106-148 | the translation of section 4.3.2 yields exactly the meaning of the tree's leaf word |
| `RiscvPaging.GetTable` | kernel/src/arch/risc_v/pt/mod.rs:106-148 | the leaf slot for any number of levels; tables are added only when missing and only when told to |
| `RiscvPaging.LevelStep` | kernel/src/arch/risc_v/pt/mod.rs:114-145 | one level of the walk |
| `RiscvPaging.Map4kib` | kernel/src/arch/risc_v/pt/mod.rs:150-157 | one leaf written, exactly the missing tables taken, nothing else changed |
| `RiscvPaging.MapChangesOnePage` | kernel/src/arch/risc_v/pt/mod.rs:150-172 | the hardware translates that page by the new word and every other page as before |
| `RiscvPaging.MeaningOfLeafEntry` | kernel/src/arch/risc_v/pt/mod.rs:41-57 | to the hart a page mapped with VMM flags is its frame, readable, with exactly those flags |
| `RiscvPaging.Unmap4kib` | kernel/src/arch/risc_v/pt/mod.rs:158-172 | missing tables are built first, out of the pool; then the leaf is cleared and its frame freed, which is sound exactly when the leaf named a frame that can be freed |
| `RiscvPaging.UnmapOfUnmapped` | kernel/src/arch/risc_v/pt/mod.rs:158-172 | the failing case for a page whose leaf is empty |
| `Descriptors.DescPool.constructor` | kernel/src/virtio/mod.rs:253-271 | all descriptors are free, in order |
| `Descriptors.DescPool.AllocateChain` | kernel/src/virtio/mod.rs:272-295 | fails without effect for length 0 or too few; otherwise the first ones of the free list become a chain |
| `Descriptors.DescPool.DeallocateChain` | kernel/src/virtio/mod.rs:296-317 | the chain is cleared and put in front of the free list |
| `Descriptors.DescPool.PrepareCommand` | kernel/src/virtio/mod.rs:355-380 | the hard-coded `head + 1` is the second descriptor of the chain just allocated |
| `Descriptors.TakeThenGive` | kernel/src/virtio/mod.rs:272-317 | freeing a chain just allocated restores the whole table and free list |
| `Descriptors.PairsFirst` | kernel/src/virtio/mod.rs:253-271 | the first free list is made of neighbours |
| `Descriptors.PairsTaken` | kernel/src/virtio/mod.rs:357-375 | taking two keeps it so, and yields an index and the next |
| `Descriptors.PairsGiven` | kernel/src/virtio/mod.rs:387-389 | giving such a chain back keeps it so |
| `Descriptors.PoolTaken` | kernel/src/virtio/mod.rs:272-295 | allocating keeps each descriptor in the free list or in exactly one chain |
| `Descriptors.PoolGiven` | kernel/src/virtio/mod.rs:296-317 | freeing keeps each descriptor in the free list or in exactly one chain |
| `Virtqueue.Virtq.SubmitToQueue` | kernel/src/virtio/mod.rs:201-231 | refuses without effect when full, otherwise the write of the slot followed by that of the index |
| `Virtqueue.Virtq.WriteSlot` | kernel/src/virtio/mod.rs:216-221 | the first write: the slot of the index, which does not move |
| `Virtqueue.Virtq.Publish` | kernel/src/virtio/mod.rs:225-230 | the second write: the index alone |
| `Virtqueue.Virtq.PollUsed` | kernel/src/virtio/mod.rs:183-200 | one round of the polling loop: the next used entry, if there is one |
| `Virtqueue.SlotIff` | kernel/src/virtio/mod.rs:211-219 | the slot of a 16-bit index is the slot of the unbounded counter exactly when the size divides 2^16 |
| `Virtqueue.NoOverwriteIff` | kernel/src/virtio/mod.rs:211-219 | no slot is reused within a window of the queue size exactly when the size divides 2^16 |
| `Virtqueue.SizeThreeOverwrites` | kernel/src/virtio/mod.rs:211-219 | concrete failure: a queue of size 3 uses slot 0 twice in a row when the index wraps |
| `Virtqueue.TestsAreExact` | kernel/src/virtio/mod.rs:183-208 | the full test, the polling test and the device's own test decide exactly what the unbounded counters say |
| `Virtqueue.TestStep` | kernel/src/virtio/mod.rs:183-208 | what each side finds in its test stays true until it acts on it |
| `Virtqueue.WriteSlotStep` | kernel/src/virtio/mod.rs:216-221 | the slot written holds no entry the device has not taken |
| `Virtqueue.PublishStep` | kernel/src/virtio/mod.rs:225-230 | the index moves over a slot that is written |
| `Virtqueue.TakeStep` | kernel/src/virtio/mod.rs:211-231 | the device, guided by the shared index alone, reads only slots that are written, and finds the head of a live chain |
| `Virtqueue.ReturnStep` | kernel/src/virtio/mod.rs:183-198 | the used entry written overwrites none the driver has not read |
| `Virtqueue.PublishUsedStep` | kernel/src/virtio/mod.rs:183-198 | the device's index moves over an entry that is written |
| `Virtqueue.ReadStep` | kernel/src/virtio/mod.rs:183-200 | the driver reads only entries that are written: the head of a live chain that neither the device nor the driver has |
| `Virtqueue.AllocateStep` | kernel/src/virtio/mod.rs:272-295 | allocating a chain keeps the system safe |
| `Virtqueue.FreeStep` | kernel/src/virtio/mod.rs:387-389 | freeing a chain in the driver's own book-keeping keeps the system safe |
| `Virtqueue.FreshIsSafe` | kernel/src/virtio/mod.rs:129-137 | a new queue is safe |
| `Virtqueue.StepSafe` | kernel/src/virtio/mod.rs:183-317 | every ring access of driver or device, and every step on the descriptors, keeps the system safe |
| `Virtqueue.RunSafe` | kernel/src/virtio/mod.rs:183-317 | so from a new queue every state of every interleaving of any length is safe |
| `Virtqueue.MineIsApart` | kernel/src/virtio/mod.rs:355-389 | every head the driver allocated or read from the used ring, and neither submitted nor freed, is live, not with the device and in no ring |
| `Virtqueue.NothingFreedInFlight` | kernel/src/virtio/mod.rs:296-317 | over every run no descriptor returns to the free list while its chain is in a ring or with the device |
| `Virtqueue.RunPairs` | kernel/src/virtio/mod.rs:355-389 | over every run that allocates chains of two, every chain is an index and the next, so `head + 1` is right |
| `Virtqueue.TestOutcome` | kernel/src/virtio/mod.rs:183-208 | a submission goes on exactly while there is room, a poll exactly when an entry came back |
| `Virtqueue.CanAllocate` | kernel/src/virtio/mod.rs:272-295 | with enough free descriptors a chain can be had, under a head the driver did not have |
| `Virtqueue.CanFree` | kernel/src/virtio/mod.rs:296-317 | a chain the driver has can be freed, and all its descriptors come back |
| `Virtqueue.CommandCompletes` | kernel/src/virtio/mod.rs:355-389 | from any safe state with nothing in flight a chain can be submitted, taken, returned and read back, and all is as before |
| `Locks.LocalGood` | kernel/src/util/mod.rs:160-177 | reading, clearing and restoring the interrupt flag keeps all lock invariants |
| `Locks.CasReadGood` | kernel/src/util/mod.rs:174-184 | a reader's exchange counts one more reader, even after a stale load |
| `Locks.CasWriteGood` | kernel/src/util/mod.rs:202-208 | a writer's exchange succeeds only on a lock no one holds |
| `Locks.ReleaseRwGood` | kernel/src/util/mod.rs:135-150 | dropping any of the guards held uncounts that reader, or frees the lock |
| `Locks.SwapGood` | kernel/src/util/mod.rs:252-261 | the swap takes the lock only when no processor has it |
| `Locks.SaveGood` | kernel/src/util/mod.rs:262-263 | the flag stored is the new holder's |
| `Locks.LoadsOwnFlag` | kernel/src/util/mod.rs:265-266 | whichever of its locks a processor unlocks, it reads back the flag saved with that hold |
| `Locks.UnlockGood` | kernel/src/util/mod.rs:265-271 | unlocking frees the lock and leads back to the saved flag |
| `Locks.StepGood` | kernel/src/util/mod.rs:135-271 | every atomic step of any processor keeps all lock invariants, for every order of drops |
| `Locks.RunGood` | kernel/src/util/mod.rs:135-271 | so they hold in every state of every interleaving |
| `Locks.WriterIsAlone` | kernel/src/util/mod.rs:188-210 | a write hold excludes every other hold of that lock |
| `Locks.WordMeans` | kernel/src/util/mod.rs:160-210 | the word is 2^32 - 1 exactly while someone writes, otherwise the number of readers, which never gets there |
| `Locks.SpinExcludes` | kernel/src/util/mod.rs:252-271 | a spin lock has at most one holder |
| `Locks.ReaderGoesOnIff` | kernel/src/util/mod.rs:174-178 | a reader's load goes on exactly when no one writes and fewer than 2^32 - 2 read |
| `Locks.ReaderGains` | kernel/src/util/mod.rs:179-184 | its exchange gives it a read hold beside all others exactly when the word did not change |
| `Locks.WriterGainsIff` | kernel/src/util/mod.rs:202-208 | a writer's attempt gives it the lock exactly when no one holds it |
| `Locks.SpinTakenIff` | kernel/src/util/mod.rs:252-261 | a swap takes a spin lock exactly when no processor has it |
| `Locks.TwoReaders` | kernel/src/util/mod.rs:160-184 | readers share: a run in which two processors hold one lock for reading |
| `Locks.SpinRoundTrip` | kernel/src/util/mod.rs:252-271 | whenever no processor has a spin lock it can be taken, and after unlocking all is as before, the interrupt flag included |
| `Locks.ReadRoundTrip` | kernel/src/util/mod.rs:135-184 | whenever a lock has room for a reader it can be read, and after the drop all is as before |
| `Locks.WriteRoundTrip` | kernel/src/util/mod.rs:143-208 | whenever no one holds a lock it can be written, and after the drop all is as before |
| `Locks.StepDiscipline` | kernel/src/util/mod.rs:160-271 | a step that drops no guard early keeps every saved flag right |
| `Locks.RunDiscipline` | kernel/src/util/mod.rs:160-271 | so, whatever the other processors do, over every run whose guards are nested |
| `Locks.InterruptsOff` | kernel/src/util/mod.rs:160-271 | in such a run interrupts are off while any lock is held, also while waiting for an inner one, and as before outside all locks |
| `Locks.AmbientKept` | kernel/src/util/mod.rs:160-271 | lock operations never change the flag a processor has outside locks |
| `Locks.OutOfOrderIff` | kernel/src/util/mod.rs:135-150 | over every run in which a processor finishes its drops, its interrupts stay off inside locks exactly when it drops no guard taken with interrupts on before one taken inside it |
| `Locks.TwoGuardsOutOfOrder` | kernel/src/util/mod.rs:135-150 | failing case: a run with two write guards, the outer one dropped first, ends with interrupts on inside the inner lock |
| `Once.StepGood` | kernel/src/util/mod.rs:63-88 | every step keeps the invariant, and a published value never changes |
| `Once.RunGood` | kernel/src/util/mod.rs:63-88 | the invariant holds over every interleaving |
| `Once.OnceAndForAll` | kernel/src/util/mod.rs:63-88 | the initialiser runs at most once, no torn value is seen, and a value once returned is returned for ever |
| `Once.ReturnMeansDone` | kernel/src/util/mod.rs:63-88 | whoever has returned from `call_once`, as winner or after waiting, finds the value there, and every `get` then returns it |
| `Once.ValueWasReturned` | kernel/src/util/mod.rs:70-74 | the value kept is one that an initialiser returned |
| `Once.WaiterReturns` | kernel/src/util/mod.rs:76-78 | a caller that lost the race returns exactly when the winner has published |
| `Once.LoneCall` | kernel/src/util/mod.rs:63-88 | a caller alone gets through, and `get` returns what its initialiser returned |
| `InvasiveList.InListIsLinked` | kernel/src/util/lists/mod.rs:161-165 | an element in a list has no null link |
| `InvasiveList.NeverInTwoLists` | kernel/src/util/lists/mod.rs:215-219 | so an element that can be pushed is in no other list |
| `InvasiveList.List.constructor` | kernel/src/util/lists/mod.rs:131-138 | the empty list |
| `InvasiveList.List.PushFront` | kernel/src/util/lists/mod.rs:161-183 | the sequence with the element in front; one already in a list is refused and nothing changes |
| `InvasiveList.List.PopFront` | kernel/src/util/lists/mod.rs:185-206 | the sequence without its first element, which is unlinked |
| `InvasiveList.List.PushBack` | kernel/src/util/lists/mod.rs:215-237 | the sequence with the element at the end; one already in a list is refused and nothing changes |
| `InvasiveList.List.PopBack` | kernel/src/util/lists/mod.rs:239-260 | the sequence without its last element, which is unlinked |
| `InvasiveList.List.Remove` | kernel/src/util/lists/mod.rs:305-332 | the sequence without that element, which is unlinked |
| `InvasiveList.List.Contains` | kernel/src/util/lists/mod.rs:284-295 | whether the element is in the sequence |
| `InvasiveList.List.Clear` | kernel/src/util/lists/mod.rs:269-282 | all elements unlinked; the stale length leaves a sound list exactly if it was empty |
| `InvasiveList.List.Reset` | kernel/src/util/lists/mod.rs:408-423 | all elements unlinked and a sound empty list |
| `Scheduler.Cpu.constructor` | kernel/src/scheduler/mod.rs:99-118 | one thread queued, the idle thread in its slot |
| `Scheduler.Cpu.Yield` | kernel/src/scheduler/mod.rs:66-93 | the line turns; the preempted thread keeps its frame, the next one's is loaded; neither `unwrap` nor `expect` can fail |
| `Scheduler.Cpu.Requeue` | kernel/src/scheduler/mod.rs:71-78 | the running thread goes to the end of the queue, which always succeeds |
| `Scheduler.Cpu.TakeNext` | kernel/src/scheduler/mod.rs:79-86 | the first of the queue, or the idle thread when there is none |
| `Scheduler.Cpu.ContextSwitch` | kernel/src/arch/x86_64/mod.rs:112-124 | saves before it loads, so a thread switched to itself keeps its registers |
| `Scheduler.Cpu.Preempt` | kernel/src/scheduler/mod.rs:66-93 | a yield of the processor is a yield of the machine the run theorems are about |
| `Scheduler.Cpu.ValidIsSound` | kernel/src/scheduler/mod.rs:66-93 | every valid processor meets what the run theorems ask for |
| `Scheduler.TurnKeeps` | kernel/src/scheduler/mod.rs:66-93 | threads are conserved, someone runs, and the idle slot is emptied only when nobody else could run |
| `Scheduler.TurnsRotate` | kernel/src/scheduler/mod.rs:66-93 | repeated yields rotate the ring of threads |
| `Scheduler.RoundRobin` | kernel/src/scheduler/mod.rs:66-93 | with n threads, n yields in a row run each exactly once |
| `Scheduler.RunSound` | kernel/src/scheduler/mod.rs:66-93 | over every run threads are conserved and there is always one to run |
| `Scheduler.IdleNeverTaken` | kernel/src/scheduler/mod.rs:79-118 | from the state `sched_init` leaves, no run ever empties the idle slot or loses a thread of the line |
| `Scheduler.ContextIsLastFrame` | kernel/src/arch/x86_64/mod.rs:112-124 | a waiting thread's context is its frame at its last preemption |
| `Scheduler.RegistersIsolated` | kernel/src/scheduler/mod.rs:66-93 | a resumed thread finds exactly the registers of its own last preemption, whatever ran in between |

## Left out

- Boot and hardware set-up (GDT, IDT, TSS, LAPIC, HPET, serial, IOMMU, inline assembly), uACPI, PCI, the ABI tables: register writes and data with little state.
- VFS, ramfs and USTAR: small append-only operations.
- `vmm_alloc_with_phys` and `vmm_alloc_without_backing`: the same list operations as `vmm_alloc`; freeing such regions is excluded because `vmm_dealloc` would put foreign frames, or frame 0, in the pool.
- User regions and `user_allocated` (a `todo` in the source), large pages (never built by this code), TLB invalidation.
- Concurrent use of the allocators: the memory stack is sequential.
- Weak memory ordering, liveness of spin loops, interrupt handlers that run while a processor spins, guards dropped on another processor than the one that took them, and the RISC-V interrupt functions.
- Reference counts of `ArcInvasiveList` and `BoxInvasiveList`, and iteration other than in `contains`.
- RISC-V `arch_map_region_alloc` and `arch_unmap_region`: the loops of the x86-64 side over `Map4kib` and `Unmap4kib`.
- Creation of threads after `sched_init`, their stacks, and the timer hardware.
- Update in place in the memory stack: operations pass memory and the list head as values and return the new ones, so aliasing is expressed by frame numbers in the memory map, not by object references.
- A pool that runs out: `allocate_page` then hands out frame 0 (`TakesFromPoolIff`), and what is built on it shares that frame. The members below require enough free frames for what they take.
- PageTables.FillIn: requires a free frame for each missing table.
- X86Paging.GetTable: requires that, with `alloc`.
- X86Paging.LevelStep: requires that, with `alloc`.
- X86Paging.Map4kib: requires that.
- X86Regions.ArchMapRegionAlloc: requires frames for the pages and their tables.
- X86Regions.MapFreshPage: requires frames for the page and its tables.
- RiscvPaging.GetTable: requires frames for the missing tables, with `alloc`.
- RiscvPaging.LevelStep: requires that, with `alloc`.
- RiscvPaging.Map4kib: requires that.
- RiscvPaging.Unmap4kib: requires that, for its walk allocates.
- SlabAlloc.NewSlab: requires a free frame.
- SlabAlloc.ChainAlloc: requires a free frame when every slab of the class is full.
- SlabAlloc.Alloc: requires that.
- Vmm.NewNode: requires that, for the class of region nodes.
- Vmm.MapNew: requires frames for the region's pages and tables.
- Kernel.ObjectAlloc: requires what `SlabAlloc.Alloc` does.
- Kernel.RegionAlloc: requires what `Vmm.VmmAlloc` does.
- Kernel.MemoryStack.Alloc: requires what those two do.
- Kernel.MemoryStack.VmmAlloc: requires what `Vmm.VmmAlloc` does.
- Vmm.VmmAlloc: requires frames enough for the lowest gap, and an amount above 0 (see `InsertRisesIff` for an amount of 0); a full address space is a `None` where the source panics.
- RegionList.AlignUp: is over unbounded integers; amounts within a page of 2^64 would overflow in the source.
- X86Regions.ArchUnmapRegion: requires pages backed by frames of their own; `UnmapSoundIff` says what happens otherwise.
- X86Regions.UnmapPage: requires that, for one page.
- VmmFree.FreeRegion: requires a region other than the direct map and the kernel image, whose frames are not the region's to free.
- VmmFree.VmmDealloc: requires that the base is not that of either.
- Kernel.RegionFree: requires that.
- Kernel.MemoryStack.Dealloc: requires that, and for small sizes null or a live object that is no region node.
- Kernel.MemoryStack.VmmDealloc: requires that the base is not that of the direct map or the kernel image.
- SlabAlloc.Dealloc: requires null or a live object; the source takes any pointer unchecked.
- Kernel.ObjectFree: requires that, and that the object is no region node.
- VmmFree.RoundTripObjects: leaves out the contents of the neighbouring region's node, of which `RoundTrip` gives the region it stands for.
- Boot.Start: requires frames for the slabs, the tables and two more, and a direct map that ends below the kernel image; the switch to the new tables (`write_cr3`) is not a step of it.
- Virtqueue.Virtq.PollUsed: is one round of the blocking loop, which ends only if the device answers.
- Scheduler.Cpu.constructor: takes the two threads as given instead of building their stacks and first contexts.
