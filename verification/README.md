# WASTE: a verified model of its stateful core

WASTE is a WebAssembly engine with an emulated POSIX process layer. This project models,
in Dafny, the parts of it that keep state under strong invariants, and proves what they
keep over every run. `dafny verify dfyconfig.toml` checks everything.

- **Heap allocator** (`Bits`, `LinearMemory`, `Heap`, `BlockSizes`, `HeapSteps`,
  `Allocator`, `AllocatorRuns`): a boundary-tag allocator on 32-bit words of linear
  memory. A ghost value of the heap (block sizes, free list order) is tied to the words;
  the client sees a map from live pointers to bytes.
- **Forking the engine graph** (`Bindings`, `EngineClone`, `ForkLines`): cloning engines
  as heap objects, renaming their imports, composing bindings, and whole lines of forks.
- **Address space** (`Spans`, `FileMappings`, `AddressSpace`, `Capsules`,
  `CapsuleRuns`): regions, file mappings, the search of mmap, unmapping, exec's layout,
  reference counts of files, several processes over the same files.
- **Shared file pages** (`PageCache`, `FileSync`, `SharingRuns`): the page cache, dirty
  bits, msync, munmap, and whole runs in which several processes map, store, sync, unmap and
  fork: what they read, and what their files hold.
- **Process table and scheduler** (`Processes`, `ProcessTable`, `ProcessRuns`,
  `Scheduler`, `SchedulerRuns`): fork, exit, signals, wait, readiness, scheduling, fairness.
- **Checkpoints** (`PageCounts`, `Checkpoints`): capture and restore of memories that
  share reference-counted pages.
- **Three smaller pieces**: the startup block (`StartupBlock`), exit handlers
  (`ExitHandlers`) and integer parsing (`IntegerParse`).

Storage that may run out, clocks and descriptor readiness are parameters of the operations;
whether the host lets a memory grow is an arbitrary choice each time.

Where the code does not meet a property, the model follows the code, gives an input, and
states when the property holds:

- a fork after the pid counter has wrapped issues a pid that may be in use
  (`ForkKeeps`, `WrappedCounterCollides`);
- terminating a zombie replaces its status (`DiedKeeps`, `TerminateOverwrites`), and
  signal 128 leaves the status word 0 (`WordsDecode`);
- unmapping protects the startup block by the first region its range meets and by the
  startup bytes of the image; a forked child has no image, so there the startup page can be
  unmapped (`Munmap`, `ForkLosesStartup`). A process that has its image keeps its startup
  pages over any run of guest calls (`CapsuleRuns.Run`); only a direct caller of the C
  function that does not ask for whole pages, as the guest's munmap does, can unmap them
  (`RoundingLosesStartup`);
- exec drops the old regions before it knows that the new ones fit, and keeps the file
  mappings of the old image (`Exec`, `FailedExecDropsRegions`, `ExecKeepsMapping`);
- a process that forks can be chosen again and again before another that could run, because
  a fork moves the scan past it to the child's slot; if no turn switches processes, or none
  moves the scan past it, a process that stays able to run is chosen within sixteen rounds
  (`Fair`, `Rounds`, `PassedOver`);
- a module that only one process can see is copied into its child but not further: the
  grandchild falls back to the registered engine, and function references to the child's
  copy stay there (`NestedForks`, `ForkAlong`, `PrivateModuleLost`);
- a second shared mapping of a file page clears the dirty bit of a page with a pending
  store (`MapShared`, `SecondMappingLosesStore`); where no call does that, a sync or an unmap
  that succeeds leaves the last value stored in the file (`SyncedIsLastStore`);
- a store to a shared page after a restore changes the checkpoint
  (`Write`, `StoreAfterRestore`);
- a mapping without an address ends by address 2^31 exactly unless the linear extent reaches
  past it and has vacant ranges only there (`ChosenSigned`, `ChosenUnsigned`);
- a function reference of a cloned engine follows its owner into the child exactly if the fork
  takes the owner along (`EntryMoves`);
- the startup block ends at the end of memory exactly if its address fits in 32 bits
  (`StartupBlock.Write`).

## Model

| member | source | states |
|---|---|---|
| Bits.PowerOfTwoTest | src/aux/libc/allocator.c:244 | `n & (n - 1)` is zero exactly for powers of two, for every positive `n` |
| Bits.LowMask | src/aux/libc/allocator.c:221 | masking with `2^k - 1` is the remainder modulo `2^k` |
| Bits.ClearRoundsUp | src/aux/libc/allocator.c:221 | `(raw + n - 1) & ~(n - 1)` is the next multiple of the power of two `n`, less than `n` above `raw`, and a multiple of 16 |
| BlockSizes.RoundDown16IsMask | src/aux/libc/allocator.c:172 | clearing the low four bits rounds down to a multiple of 16 |
| BlockSizes.TotalFits | src/aux/libc/allocator.c:172-174 | a block for a request is the least multiple of 16 that holds it, or one byte if it is empty, beside 20 bytes of overhead |
| BlockSizes.InitLayout | src/aux/libc/allocator.c:61-75 | the errno word and the first block lie above the base without wrap-around exactly when the base is at most `INT32_MAX - 19`; the block starts on a multiple of 16 above the word |
| BlockSizes.PrefixIs | src/aux/libc/allocator.c:221-226 | the pointer moves up to the first aligned address that leaves no gap or one of at least 32 bytes; the gap is a multiple of 16 and at most the alignment plus 16 |
| BlockSizes.CarveFits | src/aux/libc/allocator.c:228-229 | after the gap and the block, the tail of the larger block is never negative |
| Heap.TagReads | src/aux/libc/allocator.c:110-114 | a size and its used bit are read back from a tag |
| Heap.TilingIsExact | src/aux/libc/allocator.c:110-164 | every address of the heap lies in exactly one block |
| Heap.PredecessorExists | src/aux/libc/allocator.c:135-164 | every block but the first ends where another begins, so the tag below a block is a tag of its lower neighbour |
| Heap.FreeListIsExact | src/aux/libc/allocator.c:116-133 | following the links from the head visits every free block once and nothing else, and every back link points to the block before |
| Heap.RemoveFreeKeeps | src/aux/libc/allocator.c:116-125 | unlinking a free block keeps tiling, tags, links and order of all others, and every payload |
| Heap.InsertFreeKeeps | src/aux/libc/allocator.c:127-133 | pushing a tagged block whose neighbours are not free gives back the whole heap invariant |
| Heap.WriteBlockKeeps | src/aux/libc/allocator.c:110-114 | writing both tags of a block whose tags were missing restores them and disturbs no other block |
| Heap.AbsorbNextKeeps | src/aux/libc/allocator.c:139-145 | merging the free block above keeps the invariant with one block open, and leaves no free block above it |
| Heap.AbsorbPrevKeeps | src/aux/libc/allocator.c:148-160 | merging into the free block below keeps the invariant with that block open, free neighbours on neither side |
| Heap.SplitKeeps | src/aux/libc/allocator.c:182-186 | cutting an open block in two keeps the invariant with both parts open |
| Heap.ExtendKeeps | src/aux/libc/allocator.c:196-204 | a block added at the break keeps the invariant with that block open |
| Heap.LowerNeighbour | src/aux/libc/allocator.c:148-153 | the word below a block is the tag of the block that ends there, and its used bit tells whether that block is on the free list |
| Heap.UpperNeighbour | src/aux/libc/allocator.c:139-141 | below the break the word at a block's end is the tag of the next block |
| Heap.LiveDisjoint | src/aux/libc/allocator.c:168-205 | live payloads are pairwise disjoint, with the tags between them, and start on multiples of 16 |
| Heap.LiveStep | src/aux/libc/allocator.c:262-270 | when other blocks keep their words, the map of live allocations changes only at the pointers given back and handed out |
| HeapSteps.StoreLive | src/aux/libc/allocator.c:168-205 | a byte stored into a live payload changes that byte of that allocation and keeps the heap invariant |
| HeapSteps.FreeLive | src/aux/libc/allocator.c:262-270 | releasing a block removes its pointer from the live map and changes nothing else |
| HeapSteps.ReleaseIs | src/aux/libc/allocator.c:135-164 | the steps of a release, merging above, merging below and pushing, make one free block of the released one and those beside it |
| HeapSteps.CarveSteps | src/aux/libc/allocator.c:227-240 | the steps of carving, releasing the tail and then the gap, leave the block kept, one free block above and one below, and no other block changed |
| Allocator.Allocator.constructor | src/aux/libc/allocator.c:20-31 | an allocator before initialization has no allocations |
| Allocator.Allocator.RemoveFree | src/aux/libc/allocator.c:116-125 | the stores are the unlinking step of the heap model |
| Allocator.Allocator.InsertFree | src/aux/libc/allocator.c:127-133 | the stores are the pushing step of the heap model |
| Allocator.Allocator.WriteBlock | src/aux/libc/allocator.c:110-114 | both tags are stored |
| Allocator.Allocator.CoalesceNext | src/aux/libc/allocator.c:139-145 | merges with the block above exactly when it is free; no other block changes |
| Allocator.Allocator.CoalescePrevious | src/aux/libc/allocator.c:148-160 | merges with the block below exactly when it is free; no other block changes |
| Allocator.Allocator.ReleaseBlock | src/aux/libc/allocator.c:135-164 | the block and the free blocks that touch it become one free block at the head of the list, and no other block changes in size, place or order; the invariant holds again for the same open blocks, and every other payload keeps its words |
| Allocator.Allocator.EnsureCapacity | src/aux/libc/allocator.c:48-59 | memory grows by exactly the pages missing if it is too small, or not at all; success means it reaches the end asked for; growing keeps every payload; growth may be refused at any page |
| Allocator.Allocator.Init | src/aux/libc/allocator.c:61-75 | success gives an empty heap above the errno word; failure changes no allocation |
| Allocator.Allocator.Sbrk | src/aux/libc/allocator.c:78-97 | moves the break exactly by the increment inside memory and address range, or changes nothing |
| Allocator.Allocator.FindFit | src/aux/libc/allocator.c:177-193 | the first free block in list order that is large enough, or 0 exactly if none is |
| Allocator.Allocator.ExtendHeap | src/aux/libc/allocator.c:196-204 | adds one tagged block of the size asked for at the old break and moves the break behind it, or changes no block |
| Allocator.Allocator.TakeFit | src/aux/libc/allocator.c:181-190 | the block found keeps exactly the size asked for and the rest becomes a free block at the head of the list if it has at least 32 bytes, or else is taken whole; no other block changes |
| Allocator.Allocator.Malloc | src/aux/libc/allocator.c:168-205 | the exact blocks afterwards: if a free block is large enough the first such in list order is taken and the call succeeds, otherwise a block is added at the break or nothing changes; the new pointer has the capacity asked for and less than 32 bytes more, live bytes stay, and a failure sets ENOMEM |
| Allocator.Allocator.Free | src/aux/libc/allocator.c:262-270 | the pointer leaves the live map and nothing else changes there; its block joins the free blocks beside it at the head of the list, and no other block changes; null and pointers outside the heap are ignored |
| Allocator.Allocator.Calloc | src/aux/libc/allocator.c:272-278 | the blocks of a malloc of the product, with zeroed bytes; a product over 32 bits is refused with ENOMEM |
| Allocator.Allocator.Realloc | src/aux/libc/allocator.c:280-293 | the blocks of a malloc followed by a free of the old block; the new block starts with the old bytes up to the smaller capacity, the old pointer is gone, and a failure changes nothing |
| Allocator.Allocator.Parts | src/aux/libc/allocator.c:228-230 | gap, block and tail add up to the original block; the tail is exactly what is left beyond the least block for the request, if that makes a block, and 0 otherwise |
| Allocator.Allocator.Carve | src/aux/libc/allocator.c:227-240 | the aligned block is kept; the tail joins the free block above it and then the gap the one below, each put at the head of the list, and no other block changes; the whole invariant holds |
| Allocator.Allocator.AllocateAligned | src/aux/libc/allocator.c:210-241 | the exact blocks afterwards, those of one larger malloc of which the least aligned part is kept; a new pointer, aligned to any power of two, with the capacity asked for appears and live bytes stay, or nothing changes |
| Allocator.Allocator.AlignedAlloc | src/aux/libc/allocator.c:243-249 | refuses alignments that are no power of two and sizes that are no multiple with EINVAL; otherwise exactly the blocks of aligned allocation |
| Allocator.Allocator.PosixMemalign | src/aux/libc/allocator.c:251-260 | EINVAL exactly without a place for the result or for a bad alignment, ENOMEM if there is no room; exactly the blocks of aligned allocation, and the aligned pointer is stored; errno is as it was |
| Allocator.Allocator.Store | src/aux/libc/allocator.c:168-205 | a program's store into its own allocation changes one byte of the live map |
| AllocatorRuns.Execute | src/aux/libc/allocator.c:61-293 | every legal call, setting up anew included, is one step of a map from live pointers to bytes, new ones having the bytes asked for and less than 32 more, and keeps the allocator valid |
| AllocatorRuns.UntouchedSurvives | src/aux/libc/allocator.c:61-293 | over every run an allocation that no call frees, reallocates or stores to keeps its bytes, and its pointer is not handed out again, until the allocator is set up anew |
| AllocatorRuns.Play | src/aux/libc/allocator.c:61-293 | any legal program, each call chosen from the answers before, makes such a run on any valid allocator, and what it spares keeps its bytes |
| Bindings.FindSource | src/engine/instance.c:322-329 | the clone bound to a source, or none if there is none |
| Bindings.Compose | src/engine/instance.c:280-320 | the loop builds the composition of the new bindings with the inherited ones |
| Bindings.ComposedLookup | src/engine/instance.c:280-320 | looking up an engine in a composition follows the new binding, or the inherited one and then the new one |
| Bindings.ComposedDistinct | src/engine/instance.c:303-315 | a composition has distinct sources when both lists have |
| Bindings.OthersUnbound | src/engine/instance.c:322-329 | an engine that no generation cloned is bound to nothing |
| EngineClone.Engine.Copy | src/engine/instance.c:82-108 | a new engine with the fields of the old one |
| EngineClone.OwnSlots | src/engine/instance.c:110-168 | memories, tables and globals that the engine defines become objects of the clone; imported ones are kept |
| EngineClone.RedirectFunctions | src/engine/instance.c:159-186 | each function reference of the source becomes the reference to the same function of the clone, and any other stays |
| EngineClone.CloneEngine | src/engine/instance.c:82-278 | with room, a fresh engine that is a plain copy, and that nothing in the world refers to; failure otherwise |
| EngineClone.Rebind | src/engine/process.c:1463-1507 | an imported object of a cloned engine is replaced by the same slot of the clone, any other is kept |
| EngineClone.RebindKind | src/engine/process.c:1463-1507 | after the loop every reference of that kind is renamed along the bindings |
| EngineClone.BindClone | src/engine/process.c:1463-1507 | a clone is fully bound: every reference renamed, primary memory the first one, bindings composed |
| EngineClone.CollectClones | src/engine/process.c:1526-1549 | every engine the process can see has its private form cloned exactly once |
| EngineClone.BindAll | src/engine/process.c:1550-1576 | every collected clone is bound unless a binding fails, and nothing of the parent changes |
| EngineClone.RemapLibraries | src/engine/process.c:1580-1586 | a loaded library whose engine was cloned moves to the clone, any other stays |
| EngineClone.CloneProcessGraph | src/engine/process.c:1509-1589 | the child's graph is the parent's graph renamed, its clones are new; each registered engine resolves in the child to the clone of what it resolved to in the parent; a failure links nothing |
| EngineClone.ForkGraph | src/engine/process.c:1509-1589 | with the root cloned first, every engine of the child is new and the parent's world is unchanged |
| EngineClone.ChildResolves | src/engine/process.c:476-484 | resolving a registered engine in the child gives the clone of its form in the parent |
| EngineClone.RenamedInjective | src/engine/process.c:1463-1507 | renaming identifies no two references and leads out of the parent's cloned engines |
| EngineClone.GraphIsomorphic | src/engine/process.c:1509-1589 | two child references denote the same object exactly when the parent's did, and none denotes an object of a cloned parent engine |
| EngineClone.FunctionsStayInChild | src/engine/instance.c:322-329 | a function owned by a cloned engine, of this or an earlier generation, resolves to an engine of the child |
| EngineClone.ResolveEngine | src/engine/instance.c:322-329 | the owner a function reference leads to: the clone the bindings give for it, or the owner itself |
| EngineClone.EntryMoves | src/engine/instance.c:159-186 | a function reference of a cloned engine denotes, in the child, the same function of the clone of its owner exactly if the fork takes that owner along or the engine defines the function; otherwise it denotes what it denoted |
| EngineClone.FunctionsIsomorphic | src/engine/process.c:1509-1589 | two function references of the child denote the same function exactly if the references they were copied from did |
| EngineClone.ChildWellLinked | src/engine/process.c:1509-1589 | parent and child together meet the requirements for being cloned in turn |
| ForkLines.ForkMoves | src/engine/process.c:1526-1549 | a fork moves the form of a registered engine to a clone exactly if the process can see the engine or its root stands for it; otherwise the child falls back to the registered engine |
| ForkLines.ChildSettled | src/engine/process.c:1509-1589 | the child has one form for each registered engine, the engine itself or a private one, as the parent had |
| ForkLines.FormsApart | src/engine/process.c:476-484 | forms of different engines differ, across all processes of a line |
| ForkLines.OnlyCurrent | src/engine/process.c:1526-1549 | a fork binds a form of an engine only if it is the form the forking process uses |
| ForkLines.BoundForms | src/engine/instance.c:280-329 | what the composed bindings of any number of forks answer for every form that any earlier process used |
| ForkLines.NestedForks | src/engine/instance.c:280-329 | an engine with the composed bindings resolves an earlier process's form of an engine to the current form if and only if every fork since took the engine or that process used the registered engine itself |
| ForkLines.ForkAlong | src/engine/process.c:1509-1589 | forking process after process from one that was never forked: the world stays well linked, the root and every engine that all forks took carry the composed bindings, and so resolve forms as above |
| ForkLines.PrivateModuleLost | src/engine/process.c:1530 | two forks in which the grandchild neither copies the child's copy of a private module nor resolves it elsewhere |
| Spans.CutCovers | src/engine/process.c:668-696 | cutting a range removes exactly its points under the tags to be cut |
| Spans.CutTidy | src/engine/process.c:668-696 | cutting keeps spans non-empty and pairwise disjoint |
| Spans.CutKeepsRest | src/engine/process.c:668-696 | spans under other tags stay, in order |
| FileMappings.RetainAll | src/engine/process.c:1082-1096 | every file gains one reference for each of its records |
| FileMappings.ReleaseAll | src/engine/process.c:862-871 | every file loses one reference for each of its records |
| FileMappings.ReleaseIsCut | src/engine/process.c:812-852 | splitting a mapping moves its offset with its address: every surviving address keeps its translation |
| FileMappings.ReleaseTranslates | src/engine/process.c:812-852 | after a release an address leads to a place of a file exactly if it did and lies outside the range |
| FileMappings.ReleaseProper | src/engine/process.c:812-852 | the records left are non-empty, aligned and within 64 bits |
| FileMappings.PagesForAt | src/engine/process.c:661-666 | the pages of a range are those that begin in it |
| FileMappings.BuildRelease | src/engine/process.c:812-852 | the replacement list, one reference taken for each of its records; refused for an unaligned, empty or wrapping range |
| AddressSpace.FindRegion | src/engine/process.c:501-518 | the first region in list order that the range meets; none for an empty or wrapping range |
| AddressSpace.BuildRegions | src/engine/process.c:668-696 | the replacement list is the old one with the range cut out of mapping regions |
| AddressSpace.AnyMapped | src/engine/op/execute_memory.c:748-756 | whether a page of the range is mapped |
| AddressSpace.SearchUp | src/engine/process.c:749-781 | the lowest vacant range below the limit, or -1 exactly if there is none |
| AddressSpace.SearchDown | src/engine/process.c:749-781 | the highest vacant range between the limits, or -1 exactly if there is none |
| AddressSpace.Search | src/engine/process.c:740-783 | the lowest vacant range of the linear extent, if there is one; otherwise the highest above it that ends by address 2^31 and within the limit; it fails only if there is neither |
| AddressSpace.ChosenSigned | src/engine/process.c:740-783 | what the search returns ends by address 2^31 exactly if a vacant range of the extent does, or none lies in the extent; always if the extent itself ends there |
| AddressSpace.ChosenUnsigned | src/engine/process.c:749-768 | an extent that reaches past 2^31 and whose one hole lies there: the search returns it |
| AddressSpace.ReleaseBacked | src/engine/process.c:873-937 | after unmapping, every file-mapped byte still lies on a page of a mapping region |
| Capsules.Capsule.constructor | src/engine/process.c:470-474 | an empty address space |
| Capsules.PageRange | src/engine/process.c:661-666 | how many pages hold a length; refused exactly for none and for one within a page of 2^64 |
| Capsules.Capsule.Reserve | src/engine/process.c:520-542 | appends the region exactly if it is non-empty, within 64 bits and meets no other; keeps the address space sound |
| Capsules.Capsule.Allocate | src/engine/process.c:544-579 | the lowest or highest free range below the limit; fails exactly if there is none or the list cannot grow |
| Capsules.Capsule.AllocateLibrary | src/engine/store.c:1960-1987 | the highest free range below the 17 guard and stack pages; library regions stay below them |
| Capsules.Capsule.Place | src/engine/process.c:721-783 | the errors for an address that is unaligned, too high or reserved; without an address the range of the search, found exactly if one exists |
| Capsules.Capsule.Extend | src/engine/op/execute_memory.c:442-476 | the page table grows over the range or stays |
| Capsules.Capsule.MapRange | src/engine/process.c:790-808 | reserves the range and maps its pages, or neither; the order of the error codes |
| Capsules.Capsule.RemoveLast | src/engine/process.c:698-707 | the last region is removed exactly if it is that mapping |
| Capsules.Capsule.Mmap | src/engine/process.c:709-810 | success appends one mapping region over pages that were neither reserved nor mapped, and maps them; without an address it is the lowest vacant range of the extent or else the highest above it, and ends by address 2^31 exactly unless the extent has vacant ranges only above; failure leaves regions and mapped pages; without an address and with storage it succeeds exactly if a suitable range exists |
| Capsules.Capsule.Record | src/engine/process.c:993-1018 | the record keeps the address space sound exactly if its bytes lie on mapping pages with no file mapped yet |
| Capsules.Capsule.Forget | src/engine/process.c:1020-1039 | the range loses its translations, references follow the records |
| Capsules.Capsule.Fork | src/engine/process.c:1082-1156 | the child has the same regions and mappings, each of its records a reference of its own, and no image |
| Capsules.Capsule.Destroy | src/engine/process.c:1186-1195 | every record gives its reference back, and nothing of the address space is left |
| Capsules.Capsule.Exec | src/engine/process.c:1281-1346 | succeeds exactly if the startup block lies in the linear memory below the stack pages, no loaded library meets a region and the list can hold them all; then the regions are module, startup, break, guard, stack and libraries, startup regions being exactly the startup pages and libraries ending below the guard page, and the address space is sound exactly if no file mapping was left over; a failure keeps the old image without its regions and leaves those laid out so far |
| Capsules.LibrariesFit | src/engine/process.c:1323-1342 | libraries reserved one after the other are disjoint from the image and from each other, and none lies in or above the guard and stack pages |
| Capsules.CommitSound | src/engine/process.c:1281-1343 | with its libraries an image still has exactly its startup pages in startup regions, and backs no file mapping |
| Capsules.ImageSound | src/engine/process.c:1286-1317 | the regions of an image are disjoint, its startup regions are exactly the pages of the startup block, and they back no file mapping |
| Capsules.ImageLayout | src/engine/process.c:1286-1317 | page by page: sixteen stack pages end at the limit, 2^16 or 2^48 pages, below them a guard page; the break is the first page after the bytes of the startup block, the module the whole pages before them; without a block the break follows the linear extent |
| Capsules.FittingIs | src/engine/process.c:1286-1299 | an image is accepted exactly if its startup block ends within the linear extent and at least 18 pages below the limit |
| Capsules.LibraryRegionIs | src/engine/process.c:1329-1339 | the region of a loaded library is the pages that hold its bytes |
| Capsules.FailedExecDropsRegions | src/engine/process.c:1281-1317 | an image whose startup block reaches into the stack pages, all its linear pages mapped, is refused when the old regions are gone already |
| Capsules.ExecKeepsMapping | src/engine/process.c:1281-1346 | exec, map a file, exec again: the record of the mapping is still there, over a page that the new image neither reserves nor maps |
| Capsules.Capsule.MeetsStartup | src/engine/process.c:882-896 | what the check for the startup block refuses |
| Capsules.Capsule.Munmap | src/engine/process.c:873-937 | when it succeeds, and that success is exactly the unmapping of the pages, failure no change; a range that meets a startup region is let through exactly if a region listed before meets it too and no startup bytes of an image do, and for whole pages exactly if a region listed before meets it and there is no image; reference counts follow the records either way |
| Capsules.Capsule.Discard | src/engine/process.c:854-860 | giving up a replacement restores every count |
| Capsules.Capsule.Commit | src/engine/process.c:862-871 | installing a replacement keeps the address space sound and counts the records |
| Capsules.UnmapsExactly | src/engine/process.c:873-937 | exactly the pages of the range leave mapping regions, other regions stay in order, every address outside keeps its file and offset, other pages stay mapped |
| Capsules.FreshRangeIsOpen | src/engine/process.c:709-810 | a range just mapped is free for a file mapping |
| Capsules.StartupCheckIsFirst | src/engine/process.c:884-887 | a range that meets a startup region is refused for it exactly if no region listed before meets the range |
| Capsules.ForkLosesStartup | src/engine/process.c:1154 | the call that a process refuses unmaps the startup page in its forked child, over the same regions |
| Capsules.RoundingLosesStartup | src/engine/process.c:882-895 | for a direct caller that does not ask for whole pages: a range that ends on the startup page below the startup bytes unmaps the page |
| CapsuleRuns.ChangeHeld | src/engine/process.c:862-871 | a process that changes its records and the counts alike leaves every other process its references, and every file as many others as before |
| CapsuleRuns.MapFileStep | src/engine/guest_posix.c:237-253 | success appends the record and the region; failure leaves records and counts, and a mapping made is taken back whenever the unmapping can be carried out and the end of the range fits in 64 bits, for no startup byte can stand in the way; without an address a mapping made lies where the search puts it, and where the search decides one is made exactly if there is a free range; all address spaces stay sound |
| CapsuleRuns.UnmapGuarded | src/engine/process.c:882-895 | unmapping whole pages that meet no startup byte takes no startup page |
| CapsuleRuns.ExecStep | src/engine/process.c:1281-1346 | an exec that commits in a process without file mappings replaces the address space by that of the image, keeps the family sound and puts its startup block in place |
| CapsuleRuns.ReleasingStep | src/engine/process.c:873-937 | unmapping in one process, or its end, takes effect exactly where it is allowed, keeps the address spaces of all sound and every file counted for all its records |
| CapsuleRuns.ForkStep | src/engine/process.c:1082-1108 | the child joins the family with references of its own, one for each record and no more |
| CapsuleRuns.Step | src/engine/process.c:501-1346 | one call of one process has its effect on the address space of that process and on no other, or adds the child of a fork; references held elsewhere stay as they were |
| CapsuleRuns.Run | src/engine/process.c:501-1346 | over any run of several processes, forks, execs and ends included, the states are those its calls lead to one after the other, from the first to the last; regions stay non-empty and disjoint, file mappings disjoint and on mapping regions, libraries below the guarded pages; every file counts the records of all processes and as many other references as at the start; guest calls leave the startup pages of every process with its image mapped and reserved |
| PageCache.WriteBack | src/engine/guest_posix.c:304-318 | writing part of a cached page to its place in the file makes that part agree and disturbs no byte of any cached page |
| PageCache.Covered | src/engine/guest_posix.c:268-285 | true exactly if every byte of the range has a file mapping |
| PageCache.PageCleaned | src/engine/guest_posix.c:319-322 | after a whole page is written its dirty bit may be cleared |
| FileSync.Sharing.constructor | src/engine/process.c:43-85 | an empty cache over the files |
| FileSync.Sharing.SharedPage | src/engine/process.c:43-85 | one page for each file page, made with the file's bytes and zeros after its end; keys and pages stay unique |
| FileSync.Sharing.BindPages | src/engine/guest_posix.c:164-189 | every page of the mapping is the cached page of its file page; it fails exactly for an unaligned offset or a page that is neither cached nor to be had |
| FileSync.Sharing.ClearDirty | src/engine/op/execute_memory.c:632-643 | exactly the pages of the range lose their dirty bits |
| FileSync.Sharing.MapShared | src/engine/guest_posix.c:164-247 | a new shared mapping clears exactly the dirty bits of the pages it binds, even if it then cannot be recorded and lets go of them; if pages without dirty bit equalled the file, they then do exactly if every page it binds did, and in particular if none of them was dirty; when it fails |
| FileSync.SecondMappingLosesStore | src/engine/guest_posix.c:222-228 | map, store, map again: the page is not dirty, and a sync of both mappings succeeds and leaves the file as it was |
| FileSync.Sharing.Put | src/engine/op/execute_memory.c:231-272 | a store to a shared page marks it dirty |
| FileSync.Sharing.SyncChunk | src/engine/guest_posix.c:298-324 | the bytes of one page of one mapping agree with the file, or the mapping is not writable and the page was dirty |
| FileSync.Sharing.SyncMapping | src/engine/guest_posix.c:286-325 | the bytes of one mapping in the range, on pages dirty at entry, agree with the file |
| FileSync.Sharing.Sync | src/engine/guest_posix.c:256-327 | success: every byte of a shared mapping in the range on a page dirty at entry is in the file at its offset, whatever mappings alias the page, and every byte at all if clean pages agreed before; no file byte changes but to the byte of a cached page that was dirty; ENOMEM exactly for an uncovered byte; other errors name a mapping in the range that is longer than its file, or not writable and on a page that was dirty; success clears exactly the dirty bits of the pages that a shared mapping has whole in the range |
| FileSync.Sharing.Unmap | src/engine/guest_posix.c:329-354 | success: every byte a shared mapping had in the range, on a page that was dirty or if clean pages agreed, is in the file; afterwards an address leads to a place of a file exactly if it did and lies outside the pages the range begins in, those pages are let go, and all other pages stay bound; failure leaves both, and names the mapping that stopped the write-back or is what the capsule answered; dirty bits are cleared as by a sync |
| FileSync.ReleaseOpens | src/engine/process.c:823-851 | after an unmap no mapping reaches the range, so it can be mapped again |
| FileSync.ReleaseBound | src/engine/process.c:823-851 | what is left of the mappings is bound to the cached pages of its places in the files |
| FileSync.Sharing.Fork | src/engine/instance.c:152-157 | the child refers to the same pages and has the same file mappings |
| FileSync.Sharing.Switch | src/engine/process.c:1247-1251 | another process becomes active, with its own page table and mappings, over the same cache |
| SharingRuns.Step | src/engine/guest_posix.c:164-354 | one map, store, sync, unmap, fork or switch, as a step of the whole state |
| SharingRuns.PutCurrent | src/engine/op/execute_memory.c:231-272 | a store changes the value of exactly one place of one file, and memory holds every value still |
| SharingRuns.MapCurrent | src/engine/process.c:43-85 | a page read from its file holds the values of its places, for what is not cached has its value in the file |
| SharingRuns.SyncCurrent | src/engine/guest_posix.c:286-325 | writing back puts values that memory holds into files |
| SharingRuns.RunIsCoherent | src/engine/guest_posix.c:164-354 | at every point of every run of several processes each byte of each cached page is the last value stored at its place of the file, by whichever process and through whichever mapping, and each byte of each file is that value or an earlier one |
| SharingRuns.ValueIsLastStore | src/engine/op/execute_memory.c:231-272 | the value of a place is what the last call that stored to it put there, or what the file began with if none did |
| SharingRuns.FileByteIsStored | src/engine/guest_posix.c:304-318 | every byte of a file at any point of a run is the one it began with or one that a call before stored at that place of that file |
| SharingRuns.ReadsLastStore | src/engine/guest_posix.c:164-189 | whatever process reads a shared mapping at whatever point of a run reads the last value stored there by any process through any mapping |
| SharingRuns.SyncedIsLastStore | src/engine/guest_posix.c:286-354 | after a sync or an unmap that succeeds the file holds the last value stored at every place the process had mapped in the range, if no call of the run mapped a page with a store pending or the page still had its dirty bit |
| SharingRuns.RunIsClean | src/engine/guest_posix.c:164-354 | pages without dirty bit equal their files at every point of a run up to which no call mapped a page with a store pending |
| SharingRuns.Run | src/engine/guest_posix.c:164-354 | any run of maps, stores, syncs, unmaps, forks and switches from pages as read: the states are those its calls lead to with the answers given, from the first to the last, and the coherence above holds at the end |
| Processes.AlarmPollTwice | src/engine/lib/kernel.c:1324-1329 | polling an alarm again changes nothing |
| Processes.Raise | src/engine/lib/kernel.c:1387-1400 | a signal with a handler is pending afterwards, an ignored one is not; by default it is, but for the four that do nothing and the four that stop a process, which are refused; nothing else changes |
| Processes.AlarmPoll | src/engine/lib/kernel.c:1324-1329 | an alarm that is due is cleared, and pending unless it is ignored; otherwise nothing changes |
| Processes.DefaultPendingFrom | src/engine/lib/kernel.c:1567-1578 | the lowest pending, unmasked signal whose default action kills, or 0 if there is none |
| Processes.FindProcess | src/engine/process.c:454-460 | the first slot that holds the pid, or -1 |
| Processes.FindChild | src/engine/process.c:1723-1730 | the first zombie child waited for, or else the last child, or none |
| Processes.SettlesExactly | src/engine/process.c:1723-1732 | the search finds a child, and a zombie child, exactly if there is one |
| Processes.WaitReady | src/engine/process_driver.c:169-197 | ready exactly if nothing is waited for, or the wait is active and a signal gets through, its lock or a descriptor is ready or its time is up; a wait for a child also if a zombie child or no child is there; only its own alarm is polled |
| Processes.FindZombieChild | src/engine/process_driver.c:173-184 | true exactly if a wait on that pid would not block |
| ProcessTable.DiedKeeps | src/engine/process.c:1597-1661 | a death keeps the table proper exactly if it overwrites no recorded status |
| ProcessTable.TerminateOverwrites | src/engine/process.c:1649-1661 | terminating a process that exited with code 1 loses its status |
| ProcessTable.FatalExactly | src/engine/process.c:1614-1639 | a killing signal kills at once exactly if it is not masked, no lower one is pending and the target is not the running application |
| ProcessTable.ForkKeeps | src/engine/process.c:1412-1453 | a fork keeps the table proper exactly if the pid it issues is not in use |
| ProcessTable.ChildStarts | src/engine/process.c:1412-1453 | a forked child can run at once, nothing is pending for it and no timer is set; it masks, ignores and handles what its parent does, and its parent can wait for it |
| ProcessTable.FreshPid | src/engine/process.c:1430-1438 | until the counter wraps the pid is not in use |
| ProcessTable.WrappedCounterCollides | src/engine/process.c:1430-1438 | after the counter wraps a running pid is issued again |
| ProcessTable.ReapKeeps | src/engine/process.c:1738-1747 | freeing a slot keeps the table proper |
| ProcessTable.WordsDecode | src/engine/process.c:1601 | an exit never reads as a signal; a signal reads as itself except number 128 |
| ProcessTable.Store.constructor | src/engine/store.c:1051-1061 | one process, pid 1, active |
| ProcessTable.Store.Fork | src/engine/process.c:1412-1453 | when it succeeds; the child, its pid and the counter, which moves even in some forks that fail; the table stays valid exactly if the pid was free, always before the counter wraps; failure leaves the table |
| ProcessTable.Store.Exit | src/engine/process.c:1597-1612 | records the code once and notifies the parent; refused for pid 1 |
| ProcessTable.Store.Signal | src/engine/process.c:1614-1639 | every answer, and the whole new table: pending signal, death with its word, or no change |
| ProcessTable.Store.Terminate | src/engine/process.c:1649-1661 | the process is dead with the signal's word; the recorded status survives exactly if it was no zombie or had the same word |
| ProcessTable.Store.Wait | src/engine/process.c:1715-1748 | a child is collected by its parent only, once, with the status recorded when it died; ECHILD, EAGAIN and 0 exactly for no child and no zombie child |
| ProcessTable.Store.SetActive | src/engine/process.c:1247-1266 | the process named becomes active exactly if it exists and is no zombie |
| ProcessRuns.Step | src/engine/process.c:1412-1748 | one call has its effect on the table, keeps it sound and earlier reports true, and reports only a pid never reported before |
| ProcessRuns.Run | src/engine/process.c:1412-1748 | over any run of legal calls the states are those its calls lead to one after the other, from the first to the last; every child collected is reported, each status once, to the parent, as recorded; the count is one plus forks minus reaps |
| Scheduler.PollKeepsReady | src/engine/process_driver.c:169-172 | polling other processes changes no answer about readiness |
| Scheduler.ScanStep | src/engine/process_driver.c:260-291 | one step keeps the waiter whose timers go off first and the last input waiter of the slots scanned |
| Scheduler.SoonerIs | src/engine/process_driver.c:277-290 | the comparison of deadlines, in which the last moment of the clock stands for no timer too, holds exactly if a timer of the one goes off before every timer of the other |
| Scheduler.Scan | src/engine/process_driver.c:244-291 | stops at the first process in cyclic order that can run; else finds the waits |
| Scheduler.Schedule | src/engine/process_driver.c:237-309 | runs the first ready process after the current slot; only if none is ready publishes a wait, as read or select: the last for input, or else one such that whenever a timer of any waiter goes off one of its own has, a timer before an indefinite wait and the first scanned among equals; every alarm due has then gone off; fails exactly if there is neither, or a handler cannot resume; other processes change only by polled alarms |
| Scheduler.Fair | src/engine/process_driver.c:244-259 | over calls that do not prefer the current process, one that stays ready and that the active process never moves past is chosen within sixteen, and no other is chosen twice before it |
| Scheduler.Approaches | src/engine/process_driver.c:244-259 | the cyclic distance to it strictly decreases |
| SchedulerRuns.Perform | src/engine/process_driver.c:1101-1112 | one call of the active process, the beginning of a wait, a clock or a descriptor: its exact effect, and whether the active process stays in its slot |
| SchedulerRuns.Turn | src/engine/process_driver.c:1093-1112 | the states of a turn lead one to the next by its actions, up to the first that is not legal |
| SchedulerRuns.Choose | src/engine/process_driver.c:237-309 | one call of the scheduler keeps the table sound and resumes the first ready process after the active one, which becomes active, or, exactly if none is ready, publishes a wait |
| SchedulerRuns.Rounds | src/engine/process_driver.c:1093-1140 | turn after turn of actions and scheduling: every round begins in the state the one before left, takes its turn and resumes the first ready process; the run ends after its turns or when nothing can run; a process that stays able to run is chosen within sixteen rounds if no turn switches processes or none leaves the active process past it |
| SchedulerRuns.RunIsFair | src/engine/process_driver.c:244-259 | in any run, a process that stays able to run and is not moved past is chosen within sixteen rounds, and no other is chosen twice before it |
| SchedulerRuns.AlwaysPassesOver | src/engine/process_driver.c:1093-1177 | any run in which the first process forks and waits, for any number of turns, never chooses the second, which could run all along |
| SchedulerRuns.PassedOver | src/engine/process_driver.c:1171-1177 | such a run for every number of turns: in every round the child just forked is active, a zombie in slot 2, when the scheduler is called, and slot 0 is chosen before slot 1; in the end the two processes are alone again |
| Scheduler.WaitTimeout | src/engine/process_driver.c:209-233 | found exactly if some live process has a timer; the time is the least remaining |
| Scheduler.TimeoutIsPublished | src/engine/process_driver.c:209-309 | if all timers are those of waiters on one clock and nobody waits for input, the time the platform is told to wait is what remains for the process published |
| Scheduler.NothingDue | src/engine/process_driver.c:209-309 | when nothing can run no timer of a waiter is due, so the platform is never asked to wait for the past |
| PageCounts.RetainSlots | src/engine/checkpoint.c:562-566 | each page gains one reference for each slot |
| PageCounts.ReleaseSlots | src/engine/checkpoint.c:207-221 | each page loses one reference for each slot and is freed at zero |
| Checkpoints.SharingKept | src/engine/checkpoint.c:379-403 | images share a page exactly if their sources do |
| Checkpoints.DrawnFits | src/engine/checkpoint.c:379-403 | copies of distinct pages that memories hold are as many as those pages exactly if every one is copied |
| Checkpoints.FindAlias | src/engine/checkpoint.c:382-388 | the copy made for a page, or none |
| Checkpoints.AddMemory | src/engine/checkpoint.c:144-155 | adds the memory unless it is there |
| Checkpoints.Collect | src/engine/checkpoint.c:196-205 | every memory of every engine, once |
| Checkpoints.Checkpoint.constructor | src/engine/checkpoint.c:488-500 | counts balanced, nothing recorded |
| Checkpoints.Checkpoint.CopySlot | src/engine/checkpoint.c:379-403 | the slot's image, with the counts balanced; one page of room is used for a page not copied before and none otherwise; fails exactly for such a page without room |
| Checkpoints.Checkpoint.CopyMemory | src/engine/checkpoint.c:358-414 | the record is an image of the memory |
| Checkpoints.Checkpoint.Capture | src/engine/checkpoint.c:485-535 | succeeds exactly if there is room for as many pages as the memories hold, each counted once; success records every field and every page's bytes and sharing flag, two slots sharing a page exactly if they did; failure leaves no record; live memories do not change; each page has as many references as live and recorded slots hold |
| Checkpoints.Checkpoint.RestoreMemory | src/engine/checkpoint.c:537-590 | the record replaces the memory, counts stay balanced |
| Checkpoints.Checkpoint.Restore | src/engine/checkpoint.c:611-644 | memories equal their records, with the recorded bytes; a failure stops between memories; the record survives |
| Checkpoints.Checkpoint.Destroy | src/engine/checkpoint.c:343-347 | no record is left and counts are balanced |
| Checkpoints.Checkpoint.Detach | src/engine/op/execute_memory.c:41-52 | the page is held by this slot alone or is a shared page; a page is made exactly if it was neither, and then there must be room; no slot's bytes change |
| Checkpoints.Checkpoint.Write | src/engine/op/execute_memory.c:231-272 | the store is refused exactly if a page must be made and there is no room; another slot sees the store exactly if it holds the same shared page; the checkpoint keeps its bytes exactly unless the store changes a shared page it holds |
| Checkpoints.StoreAfterRestore | src/engine/checkpoint.c:537-590 | a shared page captured, restored and stored to: a second restore brings the store back |
| StartupBlock.StoreWord | src/engine/store.c:133-140 | four little-endian bytes, nothing else |
| StartupBlock.StoreBytes | src/engine/store.c:142-146 | the bytes, nothing else |
| StartupBlock.StringBack | src/engine/store.c:225-228 | a stored C string is read back |
| StartupBlock.VectorBack | src/engine/store.c:221-231 | a stored vector is followed to its strings |
| StartupBlock.StoreVector | src/engine/store.c:221-241 | vector and strings are in place, disjoint from everything before |
| StartupBlock.Write | src/engine/store.c:202-248 | refused exactly if it does not fit; changes nothing outside the block, and following the header recovers argc, argv, envc, envp, pid and cwd; the vectors follow the 44 bytes of the header and the block ends with the working directory; it ends at the end of memory exactly if its address fits in 32 bits, and lies lower by a multiple of 2^32 otherwise |
| ExitHandlers.FirstOfMatching | src/aux/libc/exit.c:43-48 | taking the first match leaves the order of the others |
| ExitHandlers.Parted | src/aux/libc/exit.c:44 | the entries that match a library are those registered for it, or all of them if none is named |
| ExitHandlers.PartedInOrder | src/aux/libc/exit.c:41-56 | what matches and what does not are each newest first |
| ExitHandlers.Image.constructor | src/aux/libc/exit.c:15 | no registrations |
| ExitHandlers.Image.Reset | src/aux/libc/exit.c:19 | the old entries are dropped and cannot run |
| ExitHandlers.Image.CxaAtexit | src/aux/libc/exit.c:21-29 | pushes an entry or sets errno |
| ExitHandlers.Image.Atexit | src/aux/libc/exit.c:31-39 | pushes an entry or sets errno |
| ExitHandlers.Image.Retire | src/aux/libc/exit.c:43-51 | unlinks the newest matching entry before it runs; nothing exactly if none matches |
| ExitHandlers.Image.Search | src/aux/libc/exit.c:41-56 | a finalization returns exactly if no entry matches, otherwise the newest match runs |
| ExitHandlers.Image.Perform | src/aux/libc/exit.c:19-56 | a callback may register and finalize, and a new image drops what is pending; the effect of each action; every entry made is pending, invoked once or dropped |
| ExitHandlers.Image.Run | src/aux/libc/exit.c:19-61 | over any run, whose states are those its actions lead to one after the other, no registration is invoked twice (section 7.22.4.4 of C11), and none that was dropped with its image is invoked |
| ExitHandlers.Image.FinalizeQuietly | src/aux/libc/exit.c:41-56 | without new registrations the matching entries run in reverse order of registration and exactly the others stay (section 3.3.6 of the Itanium C++ ABI); without a library all run and none is left, with one exactly those registered for it |
| IntegerParse.SkipSpaces | src/aux/libc/integer.c:43 | the first character that is no white space |
| IntegerParse.DigitsAre | src/aux/libc/integer.c:15-20 | the digits of a base are the first so many of 0-9 and a-z, in either case, each standing for its place |
| IntegerParse.CharactersAre | src/aux/libc/integer.c:22-24 | the codes of white space, signs, zero and x |
| IntegerParse.Prefix | src/aux/libc/integer.c:49-58 | the base and the start of the digits; a prefix counts only before a hexadecimal digit |
| IntegerParse.CutoffTest | src/aux/libc/integer.c:66-67 | the test before multiplying is exact |
| IntegerParse.Accumulate | src/aux/libc/integer.c:61-77 | the digits up to the first other character, their value or the limit, overflow exactly above the limit, no step beyond 64 bits |
| IntegerParse.TakesLongest | src/aux/libc/integer.c:35-79 | what is taken is the longest subject sequence of section 7.22.1.4 of C11; nothing exactly if there is none |
| IntegerParse.ParseInteger | src/aux/libc/integer.c:35-79 | white space, sign, base, longest subject sequence, value and overflow |
| IntegerParse.ToSigned | src/aux/libc/integer.c:95-99 | the value clamped to the type; ERANGE exactly if it is out of range |
| IntegerParse.ToUnsigned | src/aux/libc/integer.c:101-104 | the value modulo the range, or the maximum if the magnitude is out of range; ERANGE exactly then |

## Left out

- FileSync.Sharing.Sync: files written by `write` while mapped are not reflected in cached pages by the source, and are not modelled; the EFAULT of an unreadable dirty page cannot occur here.
- StartupBlock.Write: a block that would wrap around 2^32 in a larger memory and refused guest writes are not modelled; the hook call is left out.
- Allocator.Allocator.Free: a pointer into the heap that is not the payload of a block is outside the model, as the source reads whatever word lies before it as a tag.
- Allocator.Allocator.Sbrk: after a direct guest call the blocks no longer reach the break; runs call it from malloc only.
- ProcessTable.Store.Wait: parents are compared by pid, as in the source, so a pid issued again after the counter wraps may collect a stranger's child.
- ExitHandlers.Image.Run: callbacks are sequences of registrations and finalizations; that they come to an end is not claimed.
- EngineClone.CloneEngine: the pages, elements and frames copied into a clone are not modelled, only which objects it refers to.
- EngineClone.CloneProcessGraph: tags, loader-owned GOT globals and orphan engines are not part of the graph.
- ForkLines.ForkAlong: the registered modules stay the same along a line; the conclusion is stated for the root and for engines that every fork took, not for an engine that joined the graph later.
- Checkpoints.Checkpoint.Restore: only memories; tables, globals, evaluator state and garbage-collected objects are not modelled, reference counts are unbounded and dirty bits are not kept.
- Processes.WaitReady: signals routed from a terminal during a poll, and which descriptors a wait names, are one readiness flag.
- Capsules.Capsule.Mmap: protections and mapping flags are one flag for acceptance by the page map.
- CapsuleRuns.Run: a run stops before an exec that fails or whose process has file mappings; `Exec` says what such an exec leaves.
- SharingRuns.Run: whether the capsule lets a range be unmapped is a parameter, which `Capsules.Capsule.Munmap` computes; the pages of private and anonymous mappings and the end of a process are not part of it.
- Continuations, handlers and access-check hooks: not needed by the properties above.
- Process groups and sessions: loops over the single-process signal already modelled.
- Module decoding, import resolution, text parsing, the file system and the terminal: string dispatch over decoders that would only add easy members.
- Host adapters (`src/cli-rt`, `src/html-rt`) and the remaining C library shims: input and output plumbing.
- The resource budget's peak counters: one-line bookkeeping.
