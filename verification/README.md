# A model of the efiks-os kernel

efiks-os is a RISC-V kernel. This project models the parts of it that keep state, and proves what
they promise for every input, every run or every reachable state.

**Copy-on-write address spaces** (`Sv39`, `FrameAllocator`, `PageTables`, `Forking`, `Paging`,
`CowMachine`, `EagerCopy`, `CowRuns`, `VmRegions`, `KernelStacks`, `SpaceTables`, `AddressSpaces`,
`HeapBreak`). Physical memory is a map from frames to page tables or bytes, and page tables are trees of frames.
`Paging.PhysicalMemory` and `AddressSpaces.MemoryManagers` change it as the kernel does. Each of their
operations is shown to perform one step of an abstract machine (`CowMachine`). A run of that machine
gives the same results as a machine that shares nothing and copies every page at a fork, if and only
if no fork starts from a space with a writable leaf in a read-only region (`EagerCopy`,
`CowRuns.RunRefines`). Reference counts are exact in every reachable state.

**The VSFS file system and its image tool** (the `Vsfs` modules and `InodeCache`). The disk is
a sequence of sectors and the device may fail at any operation, with a failed write landing or not.
Reading and writing refine a byte sequence. The kernel works from copies of inode records in memory
(`VsfsCached`, `VsfsMounted`). In its view, the disk with those copies in place, the invariant, every
path and every file that is not written survive any sequence of creations and writes, whether they
succeed or fail halfway (`VsfsMounted.Vsfs.Create`, `VsfsKept.SequenceSurvives`). What the disk itself
keeps, for the next mount, is stated exactly in `VsfsOnDisk`. The kernel reads back from an image exactly
the tree the tool was given, from the bytes of a path to the bytes of the file (`VsfsBoot.ImageFiles`).
The inode cache is a transition system over any number of threads.

**The kernel heap** (`KernelHeap`). A first-fit list of blocks in raw words, with headers and back
offsets stored in the same words the clients use.

**The scheduler and wait/exit** (`Scheduler`, `SchedulerPlaces`, `WaitExit`, `SchedulerRuns`,
`SchedulerEffects`, `SchedulerCore`). A transition system over any number of tasks on one core; one step
is one stretch of kernel code from a trap to `schedule()`. `SchedulerCore.Core` performs the steps in
place, and `SchedulerEffects` says what exits, sleeps, interrupts and time slices mean over runs.

**The read-write lock** (`RwLock`). A transition system over any number of users; one step is one
atomic access.

**The ELF loader** (`ElfLoader`). Its page and copy loops, run on the address spaces, against the
process image of chapter 5 of the System V gABI.

`Basics` holds what all of them share.

Integers are unbounded, and 64-bit wrap-around is written out where an operation can reach it.

## What does not hold

Some properties one would expect are false of the code. Each has a lemma with a concrete input and a
lemma with the exact condition. Where rounding up or the tick conversion wraps, and where two segments
share a page, this is the behaviour of a build without overflow checks and debug assertions; a debug build
panics there instead.

- A fork is not always a deep copy: `remap_page` changes a leaf but not its region, and a page whose
  leaf alone is writable becomes read-only after a fork (`CowRuns.DishonestFork`,
  `CowRuns.RunRefines`, `CowRuns.FirstParting`, `CowRuns.RemapHonest`). For a loaded program the
  condition on its segments is `ElfLoader.LoadedHonest`.
- A kernel stack is released by address range, which is right exactly when its frames were contiguous
  (`KernelStacks.FragmentedStack`, `KernelStacks.AllocStack`).
- The heap of a process is not covered when the break lies in the last page of the address space,
  because rounding up wraps (`VmRegions.LastPageUncovered`, `VmRegions.BreakStaysCovered`); a segment there gets no pages
  (`ElfLoader.LastPageLost`, `ElfLoader.PagesCover`).
- The loader accepts segments that the page tables cannot hold: without permissions
  (`ElfLoader.NoRightsLost`, `ElfLoader.LeafExactly`), in the kernel part (`ElfLoader.KernelHalfLost`,
  `ElfLoader.CoveredExactly`), or at the same page modulo 2^39 bytes (`ElfLoader.AliasLost`,
  `ElfLoader.AliasExactly`). `ElfLoader.SegmentLeaves` gives the exact condition for one segment and `ElfLoader.ListLeaves` for a
  list.
- The disk does not survive what the kernel's view survives. When a creation is reported as failed and its
  rollback fails too, the parent's record on disk is longer than the copy in memory, and the next creation
  can leave a visible entry there that names a free inode (`VsfsOnDisk.TinyTorn`, `VsfsOnDisk.DiskKept`,
  `VsfsOnDisk.DiskPaths`).
- A zombie is not always collected: when its parent exits, or when its parent is dead but still in the
  task table, nobody reports it or queues it (`SchedulerRuns.StrandedExample`,
  `SchedulerRuns.StepStrands`).
- A long sleep ends early: the product in the conversion to ticks wraps from about half an hour on
  (`SchedulerEffects.SleepCutShort`, `SchedulerEffects.WakeTimeExact`).

## Model

| member | source | states |
|---|---|---|
| `Sv39.FlagsRoundTrip` | kernel/src/arch/riscv/mmu/sv39/page_table_entry.rs:1-37 | packing the eight flag bits into the entry word and reading them back is the identity |
| `Sv39.SetFlagsDecodes` | kernel/src/arch/riscv/mmu/sv39/page_table_entry.rs:87-98 | setting or clearing flags on the packed word sets or clears exactly those flags of the decoded entry and keeps its frame number |
| `Sv39.TestsDecode` | kernel/src/arch/riscv/mmu/sv39/page_table_entry.rs:62-85 | the bit tests for valid, leaf, user and writable on the word agree with the decoded entry |
| `Sv39.ContainsDecodes` | kernel/src/mm/mod.rs:225-233 | the test that a flag word contains another is the test on each flag |
| `Sv39.SetAddressDecodes` | kernel/src/arch/riscv/mmu/sv39/page_table_entry.rs:101-110 | installing an address replaces the frame number and keeps every flag, whatever was there before |
| `Sv39.AddressRoundTrip` | kernel/src/arch/riscv/mmu/sv39/page_table_entry.rs:72-75 | the address read back is the address installed if and only if it is page-aligned and below 2^56 |
| `Sv39.VpnFields` | kernel/src/arch/riscv/mmu/sv39/virtual_address.rs:46-59 | the three shift-and-mask expressions are the three 9-bit digits of the virtual page number |
| `Sv39.AcceptedAddresses` | kernel/src/arch/riscv/mmu/sv39/virtual_address.rs:34-44 | `from_raw` accepts exactly the sign-extended 39-bit addresses |
| `Sv39.CanonicalBijection` | kernel/src/arch/riscv/mmu/sv39/virtual_address.rs:34-59 | canonical addresses correspond one to one to pairs of a page number below 2^27 and an offset |
| `Sv39.IndicesDetermine` | kernel/src/arch/riscv/mmu/sv39/virtual_address.rs:46-59 | two pages with the same three indices are the same page |
| `FrameAllocator.MarkOne` | kernel/src/mm/frame_allocator.rs:53-76 | one bit operation on one bitmap word marks or unmarks exactly one frame of the pool |
| `FrameAllocator.Allocator.Alloc` | kernel/src/mm/frame_allocator.rs:53-68 | hands out the lowest free frame and marks it; fails if and only if all 4096 frames are in use; every other frame keeps its mark |
| `FrameAllocator.Allocator.Free` | kernel/src/mm/frame_allocator.rs:70-76 | unmarks exactly the given frame |
| `PageTables.AddTable` | kernel/src/arch/riscv/mmu/sv39/page_table.rs:348-364 | hanging a fresh empty table under an unused entry keeps the tables a tree and changes the walk of no page |
| `PageTables.PutLeaf` | kernel/src/arch/riscv/mmu/sv39/page_table.rs:305-319 | writing a leaf changes the walk on exactly the pages that leaf covers |
| `PageTables.PathWalk` | kernel/src/arch/riscv/mmu/sv39/page_table.rs:118-140 | the walk of any page below a given entry goes through that entry |
| `Paging.PhysicalMemory.NextTable` | kernel/src/arch/riscv/mmu/sv39/page_table.rs:348-364 | returns the table below an entry, creating an empty one in a fresh frame only if the entry is unused; a leaf makes it panic; no walk changes |
| `Paging.PhysicalMemory.MapLeaf` | kernel/src/arch/riscv/mmu/sv39/page_table.rs:305-319 | the leaf is written with the given frame and flags, and a pointer is never overwritten |
| `Paging.PhysicalMemory.MapVm` | kernel/src/arch/riscv/mmu/sv39/page_table.rs:46-97 | for a 4K, 2M or 1G page: the walk changes on exactly the pages of that leaf and nowhere else, the tables stay a tree of frames nobody else uses, and all other memory is untouched; it fails only if a leaf above or a table below is in the way, or no frame is left |
| `Paging.PhysicalMemory.Fork` | kernel/src/arch/riscv/mmu/sv39/page_table.rs:169-204 | the copy is a disjoint tree in fresh frames that translates every page as the original does, no user leaf is writable on either side, and each user frame has gained exactly one reference |
| `Paging.PhysicalMemory.ForkLeaf` | kernel/src/arch/riscv/mmu/sv39/page_table.rs:180-195 | the loop body for an unused entry or a leaf extends the forked part of the table by one entry |
| `Paging.PhysicalMemory.ForkTable` | kernel/src/arch/riscv/mmu/sv39/page_table.rs:197-200 | the loop body for a pointer extends the forked part by the whole subtree below it |
| `Forking.LeafStep` | kernel/src/arch/riscv/mmu/sv39/page_table.rs:180-195 | after a leaf entry, both tables keep the translation so far and a user leaf has lost write permission on both sides |
| `Forking.PointerStep` | kernel/src/arch/riscv/mmu/sv39/page_table.rs:197-200 | after a pointer entry, the copy names the duplicate of the subtree and the two trees stay disjoint |
| `Paging.PhysicalMemory.FindLeaf` | kernel/src/arch/riscv/mmu/sv39/page_table.rs:118-140 | finds the table and level of the entry that translates a page if and only if the page is mapped |
| `Paging.PhysicalMemory.RemapVm` | kernel/src/arch/riscv/mmu/sv39/page_table.rs:277-303 | the leaf of the page gains the flags and nothing else changes; a page that is not mapped makes it panic |
| `Paging.PhysicalMemory.CopyOnWrite` | kernel/src/arch/riscv/mmu/sv39/page_table.rs:206-245 | the page gets a private writable copy with the same bytes, the old frame loses one reference and is freed with the last one, and every other page is translated as before |
| `Paging.PhysicalMemory.InstallCopy` | kernel/src/arch/riscv/mmu/sv39/page_table.rs:229-244 | the copy is filled and installed before the old reference is dropped |
| `Paging.PhysicalMemory.DropRef` | kernel/src/arch/riscv/mmu/sv39/page_table.rs:242-244 | one reference fewer; the frame is freed exactly when that was the last |
| `Paging.PhysicalMemory.AddRef` | kernel/src/mm/page.rs:21-33 | one reference more on exactly this frame; an absent entry starts at one |
| `Paging.PhysicalMemory.RemoveRef` | kernel/src/mm/page.rs:35-47 | one reference fewer, the entry disappears with the last, and a frame without entry is reported |
| `Paging.PhysicalMemory.TraverseFree` | kernel/src/arch/riscv/mmu/sv39/page_table.rs:154-167 | frees every table frame of the tree exactly once and no other frame |
| `CowMachine.CountIsReferences` | kernel/src/mm/page.rs:21-47 | in every state that satisfies the invariant, a frame's count is the number of user leaf entries naming it over all address spaces, and there is no entry at zero |
| `CowMachine.CountBounded` | kernel/src/mm/page.rs:18-30 | every count lies between 1 and 4096, so the 16-bit counter cannot wrap |
| `CowMachine.SpacesBounded` | kernel/src/mm/frame_allocator.rs:5-38 | there are never more address spaces than frames in the pool |
| `CowMachine.PageInInv` | kernel/src/mm/mod.rs:188-203 | bringing in a page keeps the invariant: exact counts, one owner for each frame, writable frames mapped once |
| `CowMachine.CopyInv` | kernel/src/arch/riscv/mmu/sv39/page_table.rs:206-245 | copying a shared page keeps the invariant |
| `CowMachine.ForkInv` | kernel/src/mm/mod.rs:92-107 | forking keeps the invariant |
| `CowMachine.FreeInv` | kernel/src/mm/mod.rs:305-325 | freeing a space keeps the invariant |
| `CowMachine.NewInv` | kernel/src/mm/mod.rs:77-90 | creating a space keeps the invariant |
| `CowMachine.GiveStackInv` | kernel/src/mm/mod.rs:151-179 | giving a space its kernel stack keeps the invariant |
| `CowMachine.AddFlagsInv` | kernel/src/mm/mod.rs:300-302 | remapping keeps the invariant if and only if it adds no write permission or no other space maps the frame |
| `CowMachine.FillInv` | kernel/src/exec/elf.rs:110-140 | writing bytes into the frame of a page keeps the invariant, whatever the permissions of the page |
| `CowMachine.WriteInv` | kernel/src/arch/riscv/mmu/sv39/page_table.rs:206-245 | a user store through a writable leaf keeps the invariant |
| `CowMachine.FreeReleases` | kernel/src/mm/mod.rs:305-325 | freeing a space releases a frame if and only if it is one of its tables, its stack, or a user frame that only this space maps |
| `EagerCopy.RefineCopy` | kernel/src/arch/riscv/mmu/sv39/page_table.rs:206-245 | copying a shared page changes nothing any program can see |
| `EagerCopy.RefineWrite` | kernel/src/arch/riscv/mmu/sv39/page_table.rs:206-245 | a store changes that one byte in that one space of the reference machine, and nothing in any other |
| `EagerCopy.RefineFork` | kernel/src/arch/riscv/mmu/sv39/page_table.rs:169-204 | sharing pages at a fork looks like a deep copy if and only if every writable leaf of the parent lies in a writable region |
| `EagerCopy.RefineFree` | kernel/src/mm/mod.rs:305-325 | freeing a space removes exactly that space from the reference machine |
| `EagerCopy.RefineRemap` | kernel/src/mm/mod.rs:300-302 | a remap widens the permissions of exactly one page of the reference machine |
| `EagerCopy.RefineFill` | kernel/src/exec/elf.rs:110-140 | bytes the loader writes into a page that no other space shares appear in that page of that space and nowhere else |
| `CowRuns.StepRefines` | kernel/src/mm/mod.rs:92-325 | every operation keeps the invariant and is matched by the same operation of the eager-copy machine with the same outcome, if and only if it is not a fork of a space with a writable leaf in a read-only region |
| `CowRuns.RunInv` | kernel/src/mm/mod.rs:92-325 | the invariant holds in every state of every run |
| `CowRuns.RunRefines` | kernel/src/mm/mod.rs:92-325 | copy-on-write refines eager copying: over every run of new, map, brk, fault, load, store, fork, remap, fill and free, all outcomes and all readable bytes are those of a machine whose fork copies every page at once, if and only if no fork of the run starts from a space with a writable leaf in a read-only region |
| `CowRuns.FirstParting` | kernel/src/mm/mod.rs:92-107 | the first such fork is exactly where the two machines part: up to it they agree, and it is not a deep copy |
| `CowRuns.CarefulRefines` | kernel/src/mm/mod.rs:300-302 | in a run whose remaps add no write permission that the region lacks, the machines never part |
| `CowRuns.BootInv` | kernel/src/mm/frame_allocator.rs:9-38 | the invariant holds at boot for any set of frames the kernel has taken |
| `CowRuns.StepIsolates` | kernel/src/mm/mod.rs:92-325 | an operation of one process, any fork included, changes nothing any other process can read |
| `CowRuns.RunIsolates` | kernel/src/mm/mod.rs:92-325 | a process that does nothing during a run reads at its end what it read at its start |
| `CowRuns.StoreBeforeFork` | kernel/src/mm/mod.rs:215-257 | a store to a present page succeeds if and only if its leaf or its region is writable |
| `CowRuns.StoreAfterFork` | kernel/src/mm/mod.rs:215-257 | after a fork the store succeeds, in parent and child, if and only if the region is writable |
| `CowRuns.RemapHonest` | kernel/src/mm/mod.rs:300-302 | a remap keeps writable leaves within writable regions if and only if it adds no write permission that the region lacks |
| `CowRuns.DishonestFork` | kernel/src/mm/mod.rs:300-302 | a run from boot (a new space, a read-only page, a remap that adds write permission, a fork) whose fork is not a deep copy |
| `VmRegions.AlignUpRounds` | kernel/src/helper.rs:1-7 | rounding up gives the next page boundary if and only if the address is not in the last page, where the sum wraps to zero |
| `VmRegions.Disjoint` | kernel/src/mm/mod.rs:259-298 | regions in the list do not overlap |
| `VmRegions.Search` | kernel/src/mm/mod.rs:218-223 | binary search finds the start address if it is there, and otherwise the place to insert it |
| `VmRegions.ScanIsMap` | kernel/src/mm/mod.rs:218-223 | a linear scan for the region of an address agrees with the page-to-flags map the list stands for |
| `VmRegions.Lookup` | kernel/src/mm/mod.rs:215-223 | the fault handler's binary-search lookup equals the linear scan, for every address |
| `VmRegions.AddIfAbsent` | kernel/src/mm/mod.rs:259-286 | adds a one-page region exactly when no region holds the page; the list stays sorted, aligned and disjoint |
| `VmRegions.Insert` | kernel/src/mm/mod.rs:288-298 | inserts a one-page region in order; it fails if and only if the page has a region or is the last page of the address space |
| `VmRegions.Grow` | kernel/src/mm/mod.rs:116-126 | after the loop every page from the old to the new break has a region, and no other page was added or changed |
| `VmRegions.MoveBreak` | kernel/src/mm/mod.rs:109-135 | the new break and regions, and the refusals, for every requested break |
| `VmRegions.BreakStaysCovered` | kernel/src/mm/mod.rs:109-135 | all pages from the start of the heap to the break stay covered, if and only if the new break is not in the last page of the address space or that page is covered already |
| `VmRegions.LastPageUncovered` | kernel/src/mm/mod.rs:109-135 | a break moved into the last page of the address space leaves the heap uncovered |
| `VmRegions.BreakKeepsRegions` | kernel/src/mm/mod.rs:109-135 | no grow, shrink or regrow changes the permissions of an existing region |
| `HeapBreak.NewHeapLoads` | kernel/src/mm/mod.rs:109-135 | after a grow a load from any byte of the new heap pages is served and gives zero |
| `HeapBreak.NewHeapStores` | kernel/src/mm/mod.rs:109-135 | after a grow a store to any byte of the new heap pages is served, and a load gives the byte back |
| `KernelStacks.AllocStack` | kernel/src/mm/mod.rs:151-179 | seventeen distinct frames are taken; the remembered range is exactly those frames if and only if first fit finds the sixteen stack frames in one run |
| `KernelStacks.StackExact` | kernel/src/mm/mod.rs:341-355 | the frames taken are exactly the remembered range if and only if first fit found the run |
| `KernelStacks.FreeStack` | kernel/src/mm/mod.rs:341-355 | frees the guard and every frame of the remembered range |
| `KernelStacks.FragmentedStack` | kernel/src/mm/mod.rs:151-179 | with two free frames at the bottom and a used one above them, first fit finds no run for the stack |
| `SpaceTables.MapIsPageIn` | kernel/src/arch/riscv/mmu/sv39/page_table.rs:46-52 | what mapping does to the tables in memory is the machine step that adds one page |
| `SpaceTables.CowIsCopy` | kernel/src/arch/riscv/mmu/sv39/page_table.rs:206-245 | what copy-on-write does to memory is the machine's copy step |
| `SpaceTables.ForkIsFork` | kernel/src/arch/riscv/mmu/sv39/page_table.rs:169-204 | what duplicating the tables does to memory is the machine's fork step |
| `SpaceTables.RemapIsAddFlags` | kernel/src/arch/riscv/mmu/sv39/page_table.rs:277-303 | what remapping does to memory is the machine's remap step |
| `SpaceTables.FillIsFill` | kernel/src/exec/elf.rs:118-138 | what copying file bytes through the translated address does to memory is the fill step |
| `SpaceTables.NewIsNew` | kernel/src/mm/mod.rs:77-90 | a fresh root with the kernel mappings is the machine's empty space |
| `SpaceTables.FreeIsFree` | kernel/src/mm/mod.rs:305-325 | releasing pages, stack and tables is the machine's free step |
| `AddressSpaces.MemoryManagers.constructor` | kernel/src/mm/frame_allocator.rs:9-38 | no process, and every frame in use is the kernel's |
| `AddressSpaces.MemoryManagers.MapAllocatePage` | kernel/src/mm/mod.rs:188-203 | performs the map step of the machine; failure means no frame is left or the page has a region already |
| `AddressSpaces.MemoryManagers.HandlePageFault` | kernel/src/mm/mod.rs:215-257 | performs the fault step, refuses exactly when no region permits the access, and after success a read or write of the page is translated with that access by an entry whose accessed and dirty bits are set |
| `AddressSpaces.MemoryManagers.Load` | kernel/src/mm/mod.rs:215-257 | a user load through the page tables in memory, with the fault the kernel handles in between, is the load step of the machine |
| `AddressSpaces.MemoryManagers.Store` | kernel/src/mm/mod.rs:215-257 | a user store through the page tables in memory, with the fault the kernel handles in between, is the store step of the machine |
| `AddressSpaces.MemoryManagers.CopyFault` | kernel/src/mm/mod.rs:230-242 | the path for a page that is mapped but not writable performs the copy |
| `AddressSpaces.MemoryManagers.ZeroFault` | kernel/src/mm/mod.rs:243-254 | the path for an absent page maps a zeroed frame with the region's flags |
| `AddressSpaces.MemoryManagers.RemapPage` | kernel/src/mm/mod.rs:300-302 | performs the remap step; the region keeps its flags |
| `AddressSpaces.MemoryManagers.CopyToPage` | kernel/src/exec/elf.rs:118-138 | finds the page exactly when it is mapped, and performs the fill step |
| `AddressSpaces.MemoryManagers.Brk` | kernel/src/mm/mod.rs:109-135 | performs the machine's change of regions and break; nothing is mapped yet |
| `AddressSpaces.MemoryManagers.SetInitialBrk` | kernel/src/mm/mod.rs:181-184 | both breaks are set and nothing else |
| `AddressSpaces.MemoryManagers.CreateKernelStack` | kernel/src/mm/mod.rs:151-179 | the stack frames belong to this space and to nothing else |
| `AddressSpaces.MemoryManagers.Fork` | kernel/src/mm/mod.rs:92-107 | performs the fork step and then the stack step of the machine |
| `AddressSpaces.MemoryManagers.KvmFullMap` | kernel/src/mm/kvm.rs:99-125 | the new root maps each of the 166 gigapages of the direct mapping read-write and the two of the kernel image read-write-execute, to the physical addresses they belong to, and no other page |
| `AddressSpaces.MemoryManagers.New` | kernel/src/mm/mod.rs:77-90 | performs the step that creates an empty space |
| `AddressSpaces.DirectMapping` | kernel/src/mm/kvm.rs:96-126 | in every address space of every reachable state the kernel finds physical byte x at the base of the direct mapping plus x, and the bytes of its image once more at the image base, where no user program can reach them |
| `AddressSpaces.MemoryManagers.DropPages` | kernel/src/mm/mod.rs:305-318 | every mapped page of the space loses one reference, each once |
| `AddressSpaces.MemoryManagers.Free` | kernel/src/mm/mod.rs:305-325 | performs the free step: pages, stack and tables are released, each frame once |
| `VsfsDisk.InodeRoundTrip` | vsfs/src/lib.rs:71-86 | an inode record written as 64 bytes reads back as the same record |
| `VsfsDisk.InodeFields` | vsfs/src/lib.rs:71-86 | the fields of an inode record are at byte offsets 0, 2, 4, 8, 12 and 60 |
| `VsfsDisk.WithBitPower` | vsfs/src/lib.rs:650-656 | setting a clear bit of a bitmap byte adds its power of two, and clearing a set one takes it away |
| `VsfsDisk.DirEntRoundTrip` | vsfs/src/lib.rs:109-122 | a directory entry written as 32 bytes reads back as the same entry |
| `VsfsDisk.EntryName` | vsfs/src/bin/vsfs-tool.rs:716-729 | the name read from an encoded entry is the name that was encoded |
| `VsfsRecords.SuperRoundTrip` | vsfs/src/bin/vsfs-tool.rs:552-565 | the superblock the tool writes is the one the kernel mounts |
| `VsfsRecords.InodeWritten` | vsfs/src/lib.rs:687-710 | writing an inode record changes that inode and no other inode, bit or block |
| `VsfsRecords.DataWritten` | vsfs/src/lib.rs:712-731 | writing part of a data block changes that part of that block and nothing else of the file system |
| `VsfsRecords.InodeBitWritten` | vsfs/src/lib.rs:628-685 | rewriting a bitmap byte changes one inode bit and nothing else |
| `VsfsRecords.DataBitWritten` | vsfs/src/lib.rs:628-685 | rewriting a bitmap byte changes one data bit and nothing else |
| `VsfsFile.DataBlock` | vsfs/src/lib.rs:127-155 | the block of a logical index through direct and indirect pointers, and the error cases of both |
| `VsfsFile.Read` | vsfs/src/lib.rs:282-337 | fills the front of the buffer with the file's bytes from the offset on, across sector, block and indirect boundaries, and returns how many; never past the end of the file, and on a reliable device it ends short only at the end of the file; at or behind the end it gives zero; after a device error some front part is filled and the rest of the buffer is as it was |
| `VsfsFile.ReadIsSlice` | vsfs/src/lib.rs:282-337 | on a well-formed file what is read is exactly the slice of its contents, cut at the end of the file |
| `VsfsFile.Write` | vsfs/src/lib.rs:343-402 | replaces bytes of this file on disk from the offset on, never past its end, and on a reliable device stops short only at the end of the file; after a device failure some prefix of them is replaced |
| `VsfsFile.WriteReplaces` | vsfs/src/lib.rs:343-402 | afterwards the file's contents are the old ones with that range replaced, and its blocks are the same |
| `VsfsFile.WriteKeepsOthers` | vsfs/src/lib.rs:343-402 | every other file that shares no block with this one keeps its blocks and its contents |
| `VsfsFile.OtherBlocks` | vsfs/src/lib.rs:343-402 | every block that is not one of the file's is unchanged |
| `VsfsFile.LocationUnique` | vsfs/src/lib.rs:127-155 | two offsets of a well-formed file are the same disk byte if and only if they are the same offset |
| `VsfsWrite.SoundFile` | vsfs/src/lib.rs:127-155 | every inode of a sound file system is a well-formed file whose blocks are data blocks, and its bytes are those of its data blocks in order |
| `VsfsWrite.LiveFilesApart` | vsfs/src/lib.rs:127-155 | two live inodes share no block |
| `VsfsWrite.WriteRecords` | vsfs/src/lib.rs:343-402 | a write changes blocks of its file, and no inode record, no bitmap bit and no other block |
| `VsfsWrite.WriteKeepsFs` | vsfs/src/lib.rs:343-402 | writing into a live file, in the kernel's view: the whole invariant, every inode record and both bitmaps are as before, every path resolves or fails as before, every other file keeps its bytes, and the written one has the range replaced |
| `VsfsWrite.WriteLive` | vsfs/src/lib.rs:343-402 | the same for the write itself on a device that may fail at any sector: some first part of the bytes is written, never past the end of the file, and on a reliable device all of them up to that end |
| `VsfsTree.ResolveLive` | vsfs/src/lib.rs:170-207 | in a sound file system every path that resolves leads to a live inode |
| `VsfsTree.FindSame` | vsfs/src/lib.rs:170-207 | lookup depends only on the directory's entries |
| `VsfsTree.ResolveLimited` | vsfs/src/lib.rs:214-232 | what a path resolves to does not depend on which inodes are marked |
| `VsfsTree.ResolveConcat` | vsfs/src/lib.rs:214-232 | a path followed by another leads where the second leads from the end of the first, and fails as the first does |
| `VsfsKept.SurvivesMore` | vsfs/src/lib.rs:214-583 | survival composes: if every path and every unwritten file survives each of two operations, it survives both |
| `VsfsKept.SequenceSurvives` | vsfs/src/lib.rs:214-583 | over any sequence of steps that each keep the invariant, the paths and the unwritten files, as every operation of a mounted file system does in the kernel's view, the last state keeps those of the first |
| `VsfsCreate.CreateKeepsFs` | vsfs/src/lib.rs:465-583 | a successful creation keeps the whole invariant: unique names, one owner for every block, live inodes marked, sizes and types |
| `VsfsCreate.CreateFinds` | vsfs/src/lib.rs:465-583 | the new name is found in the parent and every other name gives what it gave |
| `VsfsCreate.CreateKeepsPaths` | vsfs/src/lib.rs:234-275 | every path that does not ask the parent for the new name resolves as before |
| `VsfsCreate.CreateResolves` | vsfs/src/lib.rs:234-275 | the new path resolves to the new inode |
| `VsfsCreate.CreatesEmpty` | vsfs/src/lib.rs:512-518 | the new path opens a file of size zero with one link, no bytes and no blocks, and every longer path through it fails |
| `VsfsCreate.StepSurvives` | vsfs/src/lib.rs:465-583 | every old path and file survives a creation; an entry left empty by a rollback is seen by no path |
| `VsfsCreate.UntouchedSurvives` | vsfs/src/lib.rs:465-583 | as long as the parent's record is as it was, whatever the creation has marked or written, the invariant holds for the old inodes and no path sees a difference |
| `VsfsCreate.AfterUntouched` | vsfs/src/lib.rs:504-571 | as long as the parent's record is the old one, whatever an attempt has marked or written, nothing that counts is touched |
| `VsfsCreate.AfterStep` | vsfs/src/lib.rs:541-573 | once the parent's record is the longer one, the creation has happened, with the new entry or with the empty one of a rollback |
| `VsfsKernel.AllocateBit` | vsfs/src/lib.rs:628-666 | takes the least clear bit of the range and sets only that; reports a full bitmap exactly when every bit is set; a failed write may or may not have landed |
| `VsfsKernel.FreeBit` | vsfs/src/lib.rs:668-685 | clears exactly this bit; on a reliable device it refuses a bit if and only if it is clear or beyond the bitmap block |
| `VsfsKernel.WriteInode` | vsfs/src/lib.rs:687-710 | replaces one inode record, or fails with the old or the new record on disk; a reliable device never fails |
| `VsfsKernel.WriteDirEnt` | vsfs/src/lib.rs:712-731 | replaces one directory entry, or fails with the old or the new entry on disk; a reliable device never fails |
| `VsfsKernel.AllocateInode` | vsfs/src/lib.rs:595-602 | takes the least free inode number from 1 on and changes nothing else; on a reliable device it fails only if none is free |
| `VsfsKernel.AllocateDataBlock` | vsfs/src/lib.rs:604-613 | takes the least free data block and changes nothing else; on a reliable device it fails only if none is free |
| `VsfsKernel.FreeInode` | vsfs/src/lib.rs:615-618 | clears the inode's bit and nothing else; on a reliable device it succeeds if and only if the bit was set |
| `VsfsKernel.FreeDataBlock` | vsfs/src/lib.rs:620-626 | clears the block's bit and nothing else; on a reliable device it succeeds if and only if the bit was set |
| `VsfsKernel.FindEntry` | vsfs/src/lib.rs:162-207 | the sector-by-sector scan of a directory agrees with the reference search |
| `VsfsKernel.ComponentsPlain` | vsfs/src/lib.rs:170-180 | no component of a path is empty or contains a slash |
| `VsfsKernel.ComponentsSplit` | vsfs/src/lib.rs:214-241 | the components of two paths joined by a slash are those of the first and then those of the second; a path without a slash is its only component, and the empty path has none |
| `VsfsKernel.ComponentsJoined` | vsfs/src/lib.rs:214-241 | names joined by slashes have exactly these names as components |
| `VsfsKernel.Mount` | vsfs/src/lib.rs:428-450 | the mounted superblock is the one on disk and the cached root inode is the record on disk; on a reliable device it fails only if the magic number is wrong or the root record lies beyond the disk |
| `VsfsKernel.ReadInode` | vsfs/src/lib.rs:767-780 | the record read is the record on disk; it fails only if the device does or the record lies beyond the disk |
| `VsfsCreateFile.ChooseBlock` | vsfs/src/lib.rs:490-503 | the entry goes to the tail block, or to a newly taken block exactly when the directory ends on a block boundary |
| `VsfsCreateFile.FreeCreate` | vsfs/src/lib.rs:586-593 | gives back what was taken, all of it on a reliable device; whatever fails is leaked and nothing else changes |
| `VsfsCreateFile.RollBack` | vsfs/src/lib.rs:549-571 | after a failed write of the parent's record, the inode and block are given back only if the old record is restored on disk |
| `VsfsCreateFile.Commit` | vsfs/src/lib.rs:512-571 | the disk is left exactly as one of the possible attempts leaves it, the complete one on success; on a reliable device it always succeeds |
| `VsfsCreateFile.CreateFile` | vsfs/src/lib.rs:465-583 | from the parent's record in memory, whatever the one on disk: on success exactly the creation with the least free inode and block, and the record of the new inode on disk is that of an empty file; on failure at any sector operation, whether or not the failed write landed, exactly one of the states an attempt can leave; on a reliable device it fails only if a check fails or no inode or block is free, and then leaves no trace |
| `VsfsCached.CacheRead` | vsfs/src/lib.rs:733-764 | keeping a copy of a record just read changes nothing the kernel sees |
| `VsfsCached.FailureUnseen` | vsfs/src/lib.rs:465-583 | whatever a failed creation left on disk, in the kernel's view the invariant holds, every path resolves or fails as before, and every file keeps its record and bytes |
| `VsfsCached.SuccessSeen` | vsfs/src/lib.rs:573-583 | after a creation that succeeded the kernel sees exactly the new file, a file without bytes or blocks, and every old path and file survives |
| `VsfsMounted.Vsfs.constructor` | vsfs/src/lib.rs:428-450 | a sound disk is mounted with its root inode cached |
| `VsfsMounted.Vsfs.ReadInode` | vsfs/src/lib.rs:733-764 | the copy in memory, or the record on disk, of which it keeps a copy |
| `VsfsMounted.Vsfs.Lookup` | vsfs/src/lib.rs:162-207 | finds what the reference search finds in the directory as the kernel sees it |
| `VsfsMounted.Vsfs.Open` | vsfs/src/lib.rs:214-232 | opens the inode that the components of the path, split at every slash, lead to in the kernel's view, and otherwise reports exactly the error of the first component that fails; also after creations that failed |
| `VsfsMounted.Vsfs.CreateFile` | vsfs/src/lib.rs:465-583 | in the kernel's view: on success exactly the creation with the least free inode and block, the new name opens a file without bytes or blocks, no path goes on through it, and the parent's record has grown by one entry and is otherwise the same; on failure at any sector operation no path sees a difference; every old path and file survives and the invariant holds again, so that creations can follow each other on a failing device |
| `VsfsMounted.Vsfs.Create` | vsfs/src/lib.rs:234-275 | walks to the parent and creates the last component there, with the same promises: afterwards the whole path opens a file without bytes or blocks, and every longer path fails there; on a reliable device it fails only if the path leads to no directory in which that name can be created |
| `VsfsMounted.Vsfs.Read` | vsfs/src/lib.rs:282-337 | what lands in the buffer are bytes of the file as the kernel sees it; on a reliable device exactly the part of the file between the offset and the offset plus the length, cut off at the end of the file; behind the end it gives zero |
| `VsfsMounted.Vsfs.Write` | vsfs/src/lib.rs:343-402 | some first part of the bytes is written into the file, never past its end, and on a reliable device all of them up to that end; the kernel sees no other difference |
| `VsfsMounted.MadePath` | vsfs/src/lib.rs:234-275 | after a creation in the directory a path leads to, the path with the new name opens an empty file and no path goes on through it |
| `VsfsBoot.Initialize` | vsfs/src/lib.rs:428-450 | mounts every sound disk whose superblock is in place, so that the kernel sees what is on it; it fails only if the device does |
| `VsfsBoot.ImageMounts` | vsfs/src/bin/vsfs-tool.rs:509-565 | the image of a layout can be mounted, and the kernel sees all of it |
| `VsfsBoot.ImagePaths` | vsfs/src/lib.rs:214-232 | on a mounted image every path, as bytes, opens the directory or file it leads to in the layout, with the size and the bytes the layout gives it, or fails with the same error |
| `VsfsBoot.ImageFiles` | vsfs/src/lib.rs:214-232 | names joined by slashes open the node they lead to in the layout, and nothing else |
| `VsfsOnDisk.PutBackOk` | vsfs/src/lib.rs:549-571 | restoring the parent's record on disk keeps the invariant on disk |
| `VsfsOnDisk.DiskExact` | vsfs/src/lib.rs:504-571 | after an attempt from a copy, the disk is sound for some choice of inodes if and only if the attempt did not put the new entry over an extra one on disk and give its inode back |
| `VsfsOnDisk.DiskKept` | vsfs/src/lib.rs:504-571 | whatever the device does in a creation, the disk is sound afterwards, if and only if the copy of the parent is the record on disk or ends on a block boundary |
| `VsfsOnDisk.MarksSound` | vsfs/src/lib.rs:497-510 | a creation that did no more than set bits leaves the disk sound |
| `VsfsOnDisk.DiskPaths` | vsfs/src/lib.rs:504-583 | when a creation succeeds, every path on disk is kept if and only if the copy of the parent was the record on disk or the extra entry there has no name |
| `VsfsOnDisk.TwoCreations` | vsfs/src/lib.rs:504-583 | after a creation that is complete on disk but was reported as failed, a second one from the same copy can leave a disk that is sound for no choice of inodes, or remove the first name from it |
| `VsfsOnDisk.TinyTorn` | vsfs/src/lib.rs:504-583 | a concrete disk and two creations that do so |
| `VsfsLayout.AllocateExact` | vsfs/src/bin/vsfs-tool.rs:411-507 | the inode and block numbers given to a tree are exactly those the counters passed over, each given once |
| `VsfsImage.Image.WriteAt` | vsfs/src/bin/vsfs-tool.rs:526-544 | the bytes at the offset are replaced and nothing else |
| `VsfsImage.Image.WriteInodeBitmap` | vsfs/src/bin/vsfs-tool.rs:567-572 | the inode bitmap marks exactly the inodes of the tree |
| `VsfsImage.Image.WriteDataBitmap` | vsfs/src/bin/vsfs-tool.rs:574-586 | the data bitmap marks exactly the blocks of the tree |
| `VsfsImage.Image.WriteIndirect` | vsfs/src/bin/vsfs-tool.rs:699-714 | the indirect block lists the pointers beyond the direct ones |
| `VsfsImage.Image.WritePayload` | vsfs/src/bin/vsfs-tool.rs:638-690 | the payload is on the node's blocks, block by block |
| `VsfsImage.Image.WriteNode` | vsfs/src/bin/vsfs-tool.rs:603-619 | the whole subtree is on disk and what was written before is kept |
| `VsfsImage.Image.WriteSuper` | vsfs/src/bin/vsfs-tool.rs:552-565 | the superblock is on disk |
| `VsfsImage.Image.WriteImage` | vsfs/src/bin/vsfs-tool.rs:509-520 | the image holds the superblock, bitmaps that mark exactly the inodes and blocks of the tree, and every node of the tree |
| `VsfsRoundTrip.ImageOk` | vsfs/src/bin/vsfs-tool.rs:509-729 | an image that holds a tree satisfies the kernel's file-system invariant |
| `VsfsRoundTrip.NodeFinds` | vsfs/src/lib.rs:170-207 | looking a name up in a directory of the image finds the directory itself, its parent, the child of that name, or nothing |
| `VsfsRoundTrip.AdvanceAgrees` | vsfs/src/lib.rs:170-207 | one component, "." and ".." included, leads in the image where it leads in the layout |
| `VsfsRoundTrip.PathsAgree` | vsfs/src/lib.rs:214-232 | every path leads in the image where it leads in the layout |
| `VsfsRoundTrip.FileContents` | vsfs/src/lib.rs:282-337 | the kernel reads from the image exactly the data of the file |
| `VsfsRoundTrip.AcceptedTree` | vsfs/src/bin/vsfs-tool.rs:411-464 | what the tool accepts becomes a tree whose numbers are in range and distinct |
| `VsfsRoundTrip.MakeImage` | vsfs/src/bin/vsfs-tool.rs:411-520 | lays out, allocates and writes; it refuses exactly the layouts that do not fit |
| `VsfsRoundTrip.RoundTrip` | vsfs/src/bin/vsfs-tool.rs:411-729 | image round trip: for every layout the tool accepts and every path, with "." and ".." in it or not, opening the path in the image gives a file exactly when the layout has one, reading it gives its bytes, and a missing name gives not found |
| `InodeCache.NextKeeps` | vsfs/src/lib.rs:512-764 | every step of every thread, a lookup, a change (disk first, then memory or a device error) or a creation (mark, record, cache, link), keeps the cache, the handles and the disk in agreement, except for inodes whose last change failed |
| `InodeCache.RunKeeps` | vsfs/src/lib.rs:512-764 | so does every interleaving of any number of threads |
| `InodeCache.OneHandle` | vsfs/src/lib.rs:733-764 | at any two moments of a run, two threads holding an inode of the same number hold the same one |
| `InodeCache.MemoryIsDisk` | vsfs/src/lib.rs:512-764 | at any moment of a run, an inode that nobody is writing and whose last change did not fail is in memory what it is on disk |
| `InodeCache.FailureExact` | vsfs/src/lib.rs:549-573 | after a change that failed, memory and disk agree if and only if the old record is on disk again |
| `InodeCache.NoStaleInsert` | vsfs/src/lib.rs:573-582 | a copy that is inserted is what the disk holds at that moment, even if another thread published and changed the inode since it was read |
| `KernelHeap.RoundUpIs` | kmalloc/src/linked_list_allocator.rs:96-106 | rounding up gives the least multiple at or above |
| `KernelHeap.Placement` | kmalloc/src/linked_list_allocator.rs:96-117 | where the payload, its back offset and the rest of a block go |
| `KernelHeap.FitsExactly` | kmalloc/src/linked_list_allocator.rs:96-110 | a free block serves a request if and only if it has room for an aligned payload anywhere behind its header |
| `KernelHeap.SplitExactly` | kmalloc/src/linked_list_allocator.rs:111-142 | what is left of a block becomes a free block if and only if it could serve a request for one word |
| `KernelHeap.WrapHarmless` | kmalloc/src/linked_list_allocator.rs:96-108 | for every legal layout and every block of the address space, the sums in 64 bits fit the block if and only if the exact sums do, and then they are the same |
| `KernelHeap.LivePayloads` | kmalloc/src/linked_list_allocator.rs:86-148 | live payloads are aligned, inside the heap and pairwise disjoint |
| `KernelHeap.BackOffset` | kmalloc/src/linked_list_allocator.rs:151-169 | the word before a live pointer leads to the header of its own block |
| `KernelHeap.FreedFits` | kmalloc/src/linked_list_allocator.rs:151-169 | after a payload is freed the same request fits again |
| `KernelHeap.PayloadsKept` | kmalloc/src/linked_list_allocator.rs:86-169 | serving or freeing one payload changes no word of any other |
| `KernelHeap.HeapStepOk` | kmalloc/src/linked_list_allocator.rs:86-169 | every request, release and client write keeps the heap well formed |
| `KernelHeap.HeapRunOk` | kmalloc/src/linked_list_allocator.rs:86-169 | so does every sequence of them |
| `KernelHeap.HeapTotal` | kmalloc/src/linked_list_allocator.rs:38-53 | the block sizes always sum to the length of the heap |
| `KernelHeap.NewHeap` | kmalloc/src/linked_list_allocator.rs:38-53 | refuses a range if and only if it starts at zero or cannot hold a header; otherwise one free block over the whole range |
| `KernelHeap.Heap.Alloc` | kmalloc/src/linked_list_allocator.rs:86-148 | with sums in 64 bits, first fit: the payload lies in the first free block that fits, the rest becomes a free block when it can hold one, and out of memory means that no free block fits; it performs the request step |
| `KernelHeap.Heap.Dealloc` | kmalloc/src/linked_list_allocator.rs:151-169 | exactly the free flag of the block of this payload is set; it performs the release step |
| `KernelHeap.Heap.ClientWrite` | kmalloc/src/linked_list_allocator.rs:86-148 | a client may overwrite its own payload without harm; it performs the write step |
| `Scheduler.NoStaleEntry` | kernel/src/sched/sched.rs:72-82 | the front of the runqueue is always ready, so the discard of stale entries is never reached |
| `Scheduler.FirstZombie` | kernel/src/task/task.rs:255-264 | the first zombie in a list of children, or none |
| `SchedulerPlaces.ScheduleKeeps` | kernel/src/sched/sched.rs:66-152 | `schedule` leaves every task in the place its state names, and the front task current |
| `SchedulerPlaces.SleepKeeps` | kernel/src/sched/sched.rs:296-312 | going to sleep keeps places, with the sleep nodes in order |
| `SchedulerPlaces.IrqBlockKeeps` | kernel/src/sched/sched.rs:244-259 | blocking on an interrupt keeps places |
| `SchedulerPlaces.IrqKeeps` | kernel/src/sched/sched.rs:223-241 | an interrupt keeps places |
| `SchedulerPlaces.WakeKeeps` | kernel/src/sched/sleeping_tasks.rs:24-38 | waking the sleepers keeps places |
| `SchedulerPlaces.SpawnKeeps` | kernel/src/task/task.rs:87-134 | a new task is in one place |
| `SchedulerPlaces.WaitKeeps` | kernel/src/sched/sched.rs:261-273 | blocking in wait keeps places |
| `SchedulerPlaces.DiedKeeps` | kernel/src/sched/sched.rs:275-294 | an exit keeps places: the dead task is nowhere and a woken parent is queued once |
| `WaitExit.ZombieFound` | kernel/src/task/task.rs:255-264 | `reap_zombie_child` finds a child if and only if some child is a zombie |
| `WaitExit.ScheduleFamily` | kernel/src/sched/sched.rs:66-152 | `schedule` does not touch parents, children, zombies or the reaper's queue |
| `WaitExit.SpawnFamily` | kernel/src/task/task.rs:87-188 | a new task is listed by exactly the parent it names |
| `WaitExit.WaitFamily` | kernel/src/sched/sched.rs:261-273 | a task that blocks in wait has no zombie child |
| `WaitExit.ReapFamily` | kernel/src/task/task.rs:255-275 | a reaped child leaves its parent's list and enters the reaper's queue for the first time |
| `WaitExit.DiedFamily` | kernel/src/task/task.rs:190-208 | an exit wakes the parent exactly when it waits, so that nobody waits with a zombie child |
| `WaitExit.CleanFamily` | kernel/src/task/task.rs:211-216 | the reaper removes a task nobody lists, waits for or runs |
| `SchedulerRuns.StepKeeps` | kernel/src/sched/sched.rs:66-312 | every step keeps every task in place and the wait/exit protocol intact |
| `SchedulerRuns.RunKeeps` | kernel/src/sched/sched.rs:66-312 | so does every run |
| `SchedulerRuns.BootInv` | kernel/src/main.rs:79-97 | the state after boot satisfies the invariant |
| `SchedulerRuns.OnePlace` | kernel/src/sched/sched.rs:66-312 | in every state of every run a living task is in exactly one place (current, one runqueue slot, one sleep node, one interrupt queue or the waiting set), and a zombie or exited one in none |
| `SchedulerRuns.TurnComes` | kernel/src/sched/sched.rs:66-152 | the task at runqueue position k is current right after the (k+1)-th call of `schedule`, whatever else happens in between |
| `SchedulerRuns.WakesExactly` | kernel/src/sched/sleeping_tasks.rs:24-38 | a timer interrupt wakes exactly the sleepers whose time has come, soonest first, at the back of the runqueue |
| `SchedulerRuns.NoWaiterHasZombie` | kernel/src/sched/sched.rs:261-294 | in every state of every run no task in the waiting set has a zombie child |
| `SchedulerRuns.WokenFindsZombie` | kernel/src/task/task.rs:218-240 | a parent that resumes from wait has a zombie child to report |
| `SchedulerRuns.ExpectHolds` | kernel/src/task/task.rs:218-240 | so the `expect` in wait never fires in any run |
| `SchedulerRuns.AtMostOnce` | kernel/src/task/task.rs:218-275 | over every run each child is reported by wait at most once and queued for the reaper at most once |
| `SchedulerRuns.StepStrands` | kernel/src/sched/sched.rs:275-294 | a step leaves a zombie that nobody will collect if and only if it is the exit of that zombie's parent, or of the task itself when its parent is dead but still in the table |
| `SchedulerRuns.StrandedForever` | kernel/src/sched/sched.rs:275-294 | such a zombie stays in the task table in every later state of every run |
| `SchedulerRuns.StrandedExample` | kernel/src/sched/sched.rs:275-294 | a run from boot in which that happens |
| `SchedulerEffects.ExitLeavesCode` | kernel/src/task/task.rs:190-208 | after an exit the caller is dead and the table holds its code |
| `SchedulerEffects.StepDead` | kernel/src/task/task.rs:190-275 | no step changes the code of a dead task or brings it back |
| `SchedulerEffects.CodeKept` | kernel/src/task/task.rs:190-275 | over every run the code of a task that has exited stays in the table until the reaper removes the task, and its id is not used again |
| `SchedulerEffects.SpawnedKin` | kernel/src/task/task.rs:87-188 | a new task is ready, last in the runqueue, with an id nobody has had; one with a parent is the youngest child of the caller, one without is nobody's, and no other task changes |
| `SchedulerEffects.WakeTimeExact` | kernel/src/sched/sched.rs:296-312 | a sleep of ms milliseconds ends 10_000 ms ticks later if and only if neither that sum nor the product in the tick conversion leaves 64 bits |
| `SchedulerEffects.SleepCutShort` | kernel/src/arch/mod.rs:60-62 | a sleep of 1_844_675 milliseconds that ends after 5926 ticks |
| `SchedulerEffects.StepSleepsOn` | kernel/src/sched/sched.rs:183-312 | only a timer interrupt at or after its wake-up time ends a sleep |
| `SchedulerEffects.TimerWakes` | kernel/src/sched/sleeping_tasks.rs:24-38 | a timer interrupt wakes a sleeper if and only if its time has come, and the sleeper is then queued or runs |
| `SchedulerEffects.SleepExact` | kernel/src/sched/sched.rs:183-312 | over every run, a task that sleeps ms milliseconds at time now is woken by the first timer interrupt at or after now + 10_000 ms and by none before, unless the time overflows |
| `SchedulerEffects.IrqWakesFront` | kernel/src/sched/sched.rs:223-241 | an interrupt with a non-empty queue makes exactly the task at its front ready, at the back of the runqueue, and leaves every other task and queue as it is |
| `SchedulerEffects.BlocksLast` | kernel/src/sched/sched.rs:244-259 | a task that blocks on an interrupt goes behind those that already wait for it |
| `SchedulerEffects.IrqTurnComes` | kernel/src/sched/sched.rs:223-259 | over every run, a task that blocks behind n others is made ready by the (n+1)-th arrival of its interrupt |
| `SchedulerEffects.SliceExact` | kernel/src/sched/sched.rs:183-220 | a timer interrupt takes the core from the current task if and only if another task is ready and the core is idle, a sleeper has just woken, or the task has run for more than 32 milliseconds |
| `SchedulerEffects.StepEntrance` | kernel/src/sched/sched.rs:84-152 | a slice starts when a task gets the core, and does not start again while it has it |
| `SchedulerEffects.SliceEnds` | kernel/src/sched/sched.rs:66-220 | the same over every run, with the time counted from the step in which the task got the core |
| `SchedulerCore.Core.constructor` | kernel/src/main.rs:79-97 | the core as set up at boot |
| `SchedulerCore.Core.NextTask` | kernel/src/sched/sched.rs:72-82 | pops the runqueue up to the first ready task |
| `SchedulerCore.Core.Schedule` | kernel/src/sched/sched.rs:66-152 | performs the reference `schedule` and restores the invariant |
| `SchedulerCore.Core.EnqueueNewTask` | kernel/src/sched/sched.rs:157-181 | one more entry at the back |
| `SchedulerCore.Core.WakeUp` | kernel/src/sched/sleeping_tasks.rs:24-38 | performs the reference wake-up and says whether any task woke |
| `SchedulerCore.Core.PushSleeping` | kernel/src/sched/sleeping_tasks.rs:17-22 | the node is inserted in sleep order |
| `SchedulerCore.Core.OnTimerInterrupt` | kernel/src/sched/sched.rs:183-220 | performs the timer step |
| `SchedulerCore.Core.OnExternalIrq` | kernel/src/sched/sched.rs:223-241 | performs the interrupt step |
| `SchedulerCore.Core.BlockOnExternalIrq` | kernel/src/sched/sched.rs:244-259 | performs the blocking step |
| `SchedulerCore.Core.SleepCurrentTask` | kernel/src/sched/sched.rs:296-312 | performs the sleep step |
| `SchedulerCore.Core.Fork` | kernel/src/task/task.rs:87-134 | performs the spawn step; the new process id was never used, and the new task has the caller as its parent, or none |
| `SchedulerCore.Core.ZombiePosition` | kernel/src/task/task.rs:256-264 | the search loop finds the first zombie child |
| `SchedulerCore.Core.ReapZombieChild` | kernel/src/task/task.rs:255-275 | reports and removes the first zombie child, or none if there is none |
| `SchedulerCore.Core.WaitForChild` | kernel/src/task/task.rs:218-240 | performs the wait step: no children is an error, a zombie child is reported at once with its exit code and is the one that is reaped, otherwise the task is parked |
| `SchedulerCore.Core.ResumeWait` | kernel/src/task/task.rs:231-240 | a parked wait returns a zombie child with its exit code, always, and that child is the one that is reaped |
| `SchedulerCore.Core.OnTaskExit` | kernel/src/sched/sched.rs:275-294 | wakes a waiting parent, or hands the task to the reaper when its parent is gone |
| `SchedulerCore.Core.ExitCurrent` | kernel/src/task/task.rs:190-208 | performs the exit step; afterwards the task table holds the code for the task, which is dead |
| `SchedulerCore.Core.CleanupOne` | kernel/src/task/task.rs:211-216 | performs the clean-up step |
| `SchedulerCore.Core.ReapAll` | kernel/src/sched/mod.rs:10-21 | every queued task leaves the table, and no other |
| `SchedulerCore.ReportedCode` | kernel/src/task/task.rs:195-275 | over every run, the code wait reports for a task is the code that task passed to exit |
| `RwLock.NewLock` | ksync/src/rw_lock.rs:21-28 | a new lock satisfies the invariant |
| `RwLock.StepKeeps` | ksync/src/rw_lock.rs:31-109 | every atomic step of every user keeps the counter equal to the number of read guards, or at the maximum with one write guard and no read guard |
| `RwLock.RunKeeps` | ksync/src/rw_lock.rs:31-109 | so does every interleaving of any number of users |
| `RwLock.Excludes` | ksync/src/rw_lock.rs:55-71 | in every reachable state a write guard excludes every other guard |
| `RwLock.PanicExactly` | ksync/src/rw_lock.rs:31-53 | the assertion in `read_lock` fails if and only if 2^64 - 2 read guards are held, so readers never reach the writer's marker |
| `RwLock.GuardStable` | ksync/src/rw_lock.rs:74-96 | while a read guard is held the data does not change |
| `ElfLoader.ReadExactAt` | kernel/src/exec/elf.rs:236-249 | returns exactly the requested bytes whatever short reads the file delivers, and fails if and only if the file is too short |
| `ElfLoader.PagesCover` | kernel/src/exec/elf.rs:80-85 | every byte of an accepted segment lies in a page it is given if and only if the segment is empty or ends before the last page of the address space |
| `ElfLoader.EndRefused` | kernel/src/exec/elf.rs:80-85 | the end of a segment is refused if and only if a size below 2^63 reaches beyond the address space, or a larger one, read as negative, does not |
| `ElfLoader.LastPageLost` | kernel/src/exec/elf.rs:80-85 | a segment in the last page is accepted and gets no page at all |
| `ElfLoader.LoaderStep` | kernel/src/exec/elf.rs:89-140 | a step of the loader on its own pages is the same step of the eager-copy machine, and no other space changes |
| `ElfLoader.Loader.MapOne` | kernel/src/exec/elf.rs:91-101 | a new page is zeroed with the segment's flags; one mapped before keeps its bytes and gets the union; each is a step of the address spaces, and no other space changes |
| `ElfLoader.Loader.MapSegment` | kernel/src/exec/elf.rs:80-106 | exactly the pages of a loadable segment are mapped or widened in the page tables, with the read, write and execute permissions of bits 2, 1 and 0 of its flags |
| `ElfLoader.Loader.CopySegment` | kernel/src/exec/elf.rs:110-140 | exactly the segment's file bytes are copied through the page tables, across page boundaries; it panics if and only if a page is not there |
| `ElfLoader.Loader.LoadExecutable` | kernel/src/exec/elf.rs:57-146 | for loadable segments the pages, permissions, contents, regions and break of the space are those of the segment list, the verdict is the first refusal, if any, and every other space is as before |
| `ElfLoader.ProcessImage` | kernel/src/exec/elf.rs:57-146 | for loadable, byte-disjoint segments, even on shared pages, each segment's file bytes are at its addresses and the rest of its memory is zero |
| `ElfLoader.PermittedIs` | kernel/src/exec/elf.rs:87-101 | a page may be read, written or executed if and only if some segment touching it has bit 2, 1 or 0 of its flags set |
| `ElfLoader.ImageLoads` | kernel/src/exec/elf.rs:251-267 | a load of a program just loaded is served if and only if some segment on that page has PF_R, and from a segment with PF_R it gives the byte of the process image |
| `ElfLoader.ImageStores` | kernel/src/exec/elf.rs:251-267 | a store of a program just loaded succeeds, and changes that byte alone, if and only if some segment on that page has PF_W |
| `ElfLoader.LoadedHonest` | kernel/src/exec/elf.rs:87-101 | a loaded space can be forked as a deep copy if and only if every page that some segment makes writable was first mapped by a writable segment |
| `ElfLoader.BreakAbove` | kernel/src/exec/elf.rs:85-143 | the initial break is at or above the end of every segment that fits |
| `ElfLoader.LeafExactly` | kernel/src/exec/elf.rs:118-124 | a page of a segment can be translated if and only if the segment permits anything |
| `ElfLoader.CoveredExactly` | kernel/src/arch/riscv/mmu/sv39/page_table.rs:348-364 | in a new space a gigapage is in the way of a page if and only if the page lies in the kernel part |
| `ElfLoader.KernelInTheWay` | kernel/src/arch/riscv/mmu/sv39/page_table.rs:348-364 | so it is in every space of every reachable state |
| `ElfLoader.AliasExactly` | kernel/src/arch/riscv/mmu/sv39/virtual_address.rs:46-59 | two pages are translated through the same entries if and only if they agree modulo 2^27 |
| `ElfLoader.FirstDecides` | kernel/src/exec/elf.rs:89-101 | over any list of segments, a page ends up with a leaf if and only if the first segment that touches it permits something |
| `ElfLoader.ListLeaves` | kernel/src/exec/elf.rs:80-101 | every page of a list of segments gets a leaf of its own if and only if each is below the kernel part, is first touched by a segment that permits something, and has no alias |
| `ElfLoader.SegmentLeaves` | kernel/src/exec/elf.rs:80-101 | every page of a segment gets a leaf of its own that translates it if and only if the segment has no pages, or permits something and ends below the kernel part |
| `ElfLoader.LoadableLeaves` | kernel/src/exec/elf.rs:80-101 | the pages of loadable segments get leaves of their own |
| `ElfLoader.NoRightsLost` | kernel/src/exec/elf.rs:118-124 | a segment without permissions is accepted, and the copy finds no translation for its page |
| `ElfLoader.KernelHalfLost` | kernel/src/arch/riscv/mmu/sv39/page_table.rs:348-364 | a segment in the kernel's direct mapping is accepted, and a gigapage is in the way of its page |
| `ElfLoader.AliasLost` | kernel/src/arch/riscv/mmu/sv39/page_table.rs:305-319 | two disjoint segments 2^39 bytes apart are accepted, and share their page |

## Left out

- Boot, assembly, trap entry, context switches, control registers, device drivers and TLB flushing are not part of this model.
- Files, mounts, system-call dispatch, errno conversion and user programs are not part of this model.
- The program of the image tool that parses JSON and walks host directories is not modelled: the model starts from a layout tree with valid names.
- The scheduler is modelled on one core, as in the default build; interleavings of several cores are not modelled.
- Memory orderings are not modelled: an atomic access is one step that everybody sees.
- Running out of frames in `alloc_frame().unwrap()` ends the kernel; operations then promise nothing but that the pool was full.
- Sleeping tasks with the same wake-up time wake in the order they went to sleep; the binary heap of the kernel does not fix that order.
- User mappings are taken to be readable or executable and to lie in the lower half of the address space, as `AddressSpaces.MemoryManagers.MapAllocatePage` requires: an entry without these bits would be read as a pointer to a table, and the kernel half is shared.
- AddressSpaces.MemoryManagers.MapAllocatePage: does not model a mapping without read and execute permission or in the kernel half, because such an entry is not a user leaf of the page table.
- ElfLoader.Loader.LoadExecutable: stated for segments that permit reading or execution and end in the lower half of the address space; write-only segments and segments between 2^38 bytes and the kernel part get leaves of their own (`ElfLoader.SegmentLeaves`) but are outside the user pages of the address-space model. Parsing of the ELF header is not modelled, only its check that no file size exceeds a memory size.
- ElfLoader.Loader.MapOne: stated for user pages and for flags that permit reading or execution, as `AddressSpaces.MemoryManagers.MapAllocatePage` is.
- ElfLoader.Loader.MapSegment: stated for segments of such pages and flags.
- ElfLoader.Loader.CopySegment: stated for segments that end in the lower half of the address space.
- KernelHeap.Heap.Alloc: stated for layouts that are not empty and at most `isize::MAX` when padded, as the allocator interface demands, and for a heap inside the 64-bit address space.
- AddressSpaces.MemoryManagers.RemapPage: adding write permission is stated for a page no other space shares; only the loader calls it, before any fork, and `CowMachine.AddFlagsInv` shows that otherwise the invariant is lost.
- AddressSpaces.MemoryManagers.CopyToPage: stated for a page no other space shares, as the loader's are.
- AddressSpaces.MemoryManagers.Brk: stated for breaks in the lower half of the address space; `VmRegions.MoveBreak` is stated for all.
- AddressSpaces.MemoryManagers.Free: stated for a stack whose frames are contiguous; when they are is `KernelStacks.AllocStack`.
- KernelHeap.Heap.Dealloc: stated for pointers that were handed out and not yet given back, as the allocator interface demands.
- VsfsFile.Write: stated for well-formed files, whose blocks are distinct data blocks; on a damaged disk two offsets may share a sector. Every file of a sound file system is well formed (`VsfsWrite.SoundFile`).
- VsfsKernel.WriteInode: one inode record is read, changed and written back in one step; the kernel does this without a lock shared by all inodes of a sector.
- VsfsBoot.Initialize: stated for sound disks; what is read from any disk, and when that fails, is `VsfsKernel.Mount`.
- SchedulerCore.Core.Fork: the address space and the file table of the new task are not part of the scheduler model.
- InodeCache.NextKeeps: an inode number once linked is not freed, as the kernel has no unlink.
- VsfsMounted.Vsfs.Create: one operation at a time; what interleaved lookups see of the cache is `InodeCache`.
