# Verified model of the kernel's memory management, queue lock and devicetree code

This project models, in Dafny, the parts of the kernel that hold the most state: the red-black tree,
the buddy allocator, the slab allocator on top of it, the four-level page tables with copy-on-write
and reference counts, the vmap interval allocator, the memory areas of a process, the MCS queue lock,
and the reader, writer and in-place editor of flattened devicetrees. Code that changes things in place
is modelled by classes and methods with the same fields, branches, loops and error codes; each is
proved against a mathematical view of its state, and the properties are proved about that view.

`dafny verify dfyconfig.toml` checks everything.

| files | what they are about |
|---|---|
| `QSpinlock`, `QSpinlockRuns` | the queue lock as a state machine over its atomic accesses; runs, order, progress |
| `TicketLock`, `RwLock` | the ticket lock with its 32-bit tickets; the readers-writer lock |
| `RbShape`, `RbTree` | red-black trees as values; the pointer tree with its shared sentinel |
| `BuddyBlocks`, `BuddyModel`, `Buddy` | aligned blocks; the map from frames to blocks; the allocator |
| `SlabModel`, `Slab` | the state of the slab allocator as a value; `kmalloc` and `kfree` over the buddy allocator |
| `PageTableModel`, `PageTableSteps`, `PageTableTrees`, `PageTables` | memory as a map from frame to table or bytes; the flat map the tables stand for; the operations |
| `ForkIsolation`, `ForkedProcess` | what address spaces see of memory; stores after a fork |
| `KernelMappings` | kernel addresses beside a running process |
| `VmapModel`, `Vmap` | lists and tree of areas; `va_alloc` and `va_free` |
| `MmStruct` | the ordered map of memory areas, and mapping, unmapping and the break |
| `Leftovers` | states in which a page has lost its owner, or a mapping its area |
| `FdtBlob`, `FdtReader`, `FdtTree` | bytes and words; the tag walk; trees and the sequences that write them |
| `FdtWriter` | the sequential writer with its backwards-growing strings |
| `FdtLayout`, `FdtEdit`, `FdtLostName` | tags in the structure block; blanking out, deleting and setting in place; an edit that loses a name |
| `FdtNesting`, `FdtPath` | which nodes are open at a tag; paths to nodes and back |

## Findings

What the proofs brought out about the code, each with a member that shows it:

- `TicketLock::try_lock` can succeed while the lock is held (rust/src/sync/mod.rs:61-77): `TicketLock.StaleTryLock`,
  with 2^32 tickets taken between its first read and its compare-exchange. A run is exclusive and in the order of
  the tickets throughout if and only if no compare-exchange sees an equal word while the lock is busy:
  `TicketLock.TicketOrder`. Fewer than 2^32 tickets during each `try_lock` are enough: `TicketLock.RecentOrder`.
- `RwLock` promises that waiting writers keep new readers out, but a writer that leaves takes the flag down for
  those still waiting (rust/src/sync/mod.rs:366-369): `RwLock.ReaderOvertakes`. While a writer waits, a reader
  passes the flag test if and only if no writer has raised the flag since the last one left
  (`RwLock.PassesFlag`), and then it can also get in (`RwLock.CanOvertake`); a reader that starts while a writer
  waits never gets past in another way (`RwLock.OvertakesOnly`).
- After a fork only the child's entries lose write access (kernel/mmu.c:344-356), so the parent writes
  straight into pages the child still maps: `ForkedProcess.ParentStoreShows` reaches such a state from an
  empty machine, and `ForkedProcess.DirectStore` says exactly when a store shows elsewhere: when the other
  entry maps the same page and the byte differs.
- A fault can replace a present page and drop no reference of the old one (kernel/page_fault.c:129-154), which
  then never becomes free: `Leftovers.ReadFaultLeaks`. It happens if and only if the fault is resolved, a
  managed page is mapped at the address, and the fault is not a write to it:
  `PageTables.PageTableManager.ProcessFault`.
- The fault handler gives pages of executable areas the rights `PAGE_USER_RX` of the C code, in which the bit that
  keeps user mode from running them, UXN, is set (include/pgtbl.h:98-101; the Rust constant of that name has it
  clear, rust/src/kernel/pgtbl.rs:73-83). A page brought in by a fault can never be run from user mode, and can be
  stored to if and only if it is not the kernel's and the area is not executable or the page is a copy:
  `PageTables.RightsAfterFault`.
- A block that `alloc_phys_pages` returns for the DMA zone begins in the zone, but only its first frame is compared
  with the zone's end (kernel/pmm.c:155-157): `Buddy.BlockCrossesZone` reaches a block that begins in it and ends
  behind it. All aligned blocks of an order that begin below an end lie below it if and only if the end is aligned:
  `BuddyBlocks.BlocksBelow`. `kmalloc` asks for the zone only when it has to add a page (kernel/slab.c:262-282), so
  an object for the zone comes from any page that has a free one: `Slab.DmaFromOldPage`.
- `fdt_add_string_` compares in unsigned arithmetic (driver/fdt/fdt_sw.c:250-266). The test is right if and
  only if the strings block with the new name is no longer than the buffer: `FdtWriter.NameTestExact`; a
  name shorter than the buffer can violate that: `FdtWriter.NameTestWraps`.
- `va_alloc` rounds its size up in 64-bit arithmetic (kernel/vmap.c:122-125). The sum wraps around if and only
  if the size exceeds 2^64 - 4096 (`VmapModel.RoundsUpExactly`); the request then becomes one for zero bytes,
  which succeeds whenever anything is free: `Vmap.HandsOutNothing`.
- `va_free` never joins a range to the free range behind it, because the search wants a start beyond the
  end and the caller then tests for equality (kernel/vmap.c:94-100, 209-217). Free ranges that do not touch
  still do not touch afterwards if and only if none of them starts where the range given back ends:
  `VmapModel.TouchExactly`. After one page has been taken and given back, the whole range can no longer be
  had: `Vmap.OnePageFragments`.
- `do_brk` removes the area keyed by the old break when it shrinks (rust/src/kernel/mm.rs:238-253), so the area
  added when the heap grew stays. The heap can then grow again if and only if its new end does not reach the
  start of that area and the rest is unused: `MmStruct.GrowShrinkGrow`.
- `do_munmap` drops the whole area but unmaps only the part asked for (rust/src/kernel/mm.rs:178-214). Something
  of the area stays mapped if and only if something was mapped in front of that part or behind it:
  `MmStruct.LeftBehind`; two pages of which the first is unmapped are a case: `Leftovers.PartUnmapped`.
- `do_mmap` takes no account of pages left behind like that (rust/src/kernel/mm.rs:137-171): it maps over them,
  their references stay without an owner, and when it fails it unmaps them. A failure leaves the translations
  as they were if and only if none of the pages it got to was mapped, and every reference with its owner if
  and only if none of them held a managed page: `MmStruct.UndoneExactly`; `Leftovers.LeftPageLost` is a case.
- `fdt_setprop_namelen` takes a name that it added for nothing back by the length of the whole string
  (driver/fdt/fdt_rw.c:103-108, 232-236). The strings block has its size back after a failure if and only if
  no name was added or the name is the whole string; otherwise exactly the names that end within what is left
  can still be read: `FdtEdit.TreeEditor.FdtSetprop`. `FdtLostName.OlderNameLost` is a failing call after which
  a blob can no longer be read.
- `fdt_path_offset` of the path `fdt_get_path` prints leads back to the node if and only if, at each step of
  the path, no earlier sibling goes by the same name or has it as its name without the unit address:
  `FdtPath.PathRoundTrip`. With a subnode `name@unit` in front of the subnode `name`, the path of `name` leads to
  the other: `FdtPath.UnitInFront`.

## Model

| member | source | states |
|---|---|---|
| QSpinlockRuns.MutualExclusion | rust/src/sync/mod.rs:127-188 | in every interleaving of lock, try_lock and unlock accesses by up to MAX_CPUS CPUs, at most one CPU is inside each lock |
| QSpinlockRuns.FirstComeFirstServed | rust/src/sync/mod.rs:127-188 | CPUs enter a lock in the order of their tail swaps and successful tail exchanges |
| QSpinlockRuns.SomeoneCanMove | rust/src/sync/mod.rs:133-188 | while a CPU waits, it or a CPU ahead of it has a step that changes the state: no handoff is lost between the failed tail exchange and the late link |
| QSpinlockRuns.BoundedWaiting | rust/src/sync/mod.rs:133-188 | the effective steps taken by a waiting CPU and those ahead of it never exceed its rank, whatever the others do |
| QSpinlockRuns.FairRoundsEnter | rust/src/sync/mod.rs:127-188 | more fair rounds than its rank let a waiting CPU in: nobody waits forever |
| QSpinlockRuns.TryLockReturns | rust/src/sync/mod.rs:147-158 | in every run, a call of try_lock whose compare-exchange finds nobody queued ends inside the lock as its latest arrival, and one that finds somebody is over without a trace in any lock; until then it touches no lock |
| QSpinlockRuns.LockReturns | rust/src/sync/mod.rs:127-144 | in every run, a call of lock touches no lock before its swap; by the swap it gets in if nobody is queued and joins the queue otherwise, and it waits until it is inside |
| QSpinlockRuns.UnlockReturns | rust/src/sync/mod.rs:162-188 | in every run, a CPU stays inside until it asks to unlock; the call ends by one release, which leaves nobody queued if nobody was behind it |
| TicketLock.TicketOrder | rust/src/sync/mod.rs:45-77 | in all states of a run at most one CPU is inside and CPUs have entered in the order of their tickets, if and only if no compare-exchange of a try_lock sees an equal word while the lock is busy, although the words wrap around |
| TicketLock.CasExact | rust/src/sync/mod.rs:61-77 | the same for one compare-exchange: it is right exactly if it fails or the lock is free |
| TicketLock.RecentOrder | rust/src/sync/mod.rs:45-77 | with fewer than 2^32 tickets taken during any one try_lock, that is so |
| TicketLock.StaleTryLock | rust/src/sync/mod.rs:61-77 | a run in which 2^32 tickets are taken during a try_lock, after which two CPUs are inside |
| TicketLock.TryLockReturns | rust/src/sync/mod.rs:61-77 | in every run with recent compare-exchanges, a call of try_lock gets in exactly if the lock was free at its second access and no ticket was taken during the call, and changes nothing otherwise |
| TicketLock.LockReturns | rust/src/sync/mod.rs:45-51 | a call of lock takes the next ticket, and an access lets the CPU in exactly if its ticket is the one served, although the words wrap around |
| TicketLock.UnlockReturns | rust/src/sync/mod.rs:55-57 | unlocking serves the next ticket, and nothing else does |
| RwLock.WritersAlone | rust/src/sync/mod.rs:288-370 | in every interleaving a writer is inside alone, and the flag is up exactly if a writer has raised it since the last one left |
| RwLock.LetIn | rust/src/sync/mod.rs:288-370 | in every run, a waiting writer gets in exactly if nobody is inside, and a reader gets on exactly while no writer is inside and by its compare-exchange exactly if there are as many readers as it has counted |
| RwLock.Asks | rust/src/sync/mod.rs:288-370 | in every run, what a CPU asks for is what it does next; asking to write raises the flag, a leaving writer takes it down |
| RwLock.PassesFlag | rust/src/sync/mod.rs:288-306 | in every run, while a writer waits, a reader passes the flag test exactly if no writer has raised the flag since the last one left, and then one has left since the waiting one began |
| RwLock.OvertakesOnly | rust/src/sync/mod.rs:288-370 | in every run, a reader that starts while a writer waits is past the flag test, while that writer still waits, only if another writer has left in between |
| RwLock.CanOvertake | rust/src/sync/mod.rs:288-370 | whenever the flag is down while a writer waits, a reader can get in before it |
| RwLock.ReaderOvertakes | rust/src/sync/mod.rs:288-370 | a run in which a reader that starts while a writer waits gets in before it |
| RbShape.HeightBound | kernel/ds/rbtree.c:101-117 | a red-black tree with n nodes has height at most 2 log2(n + 1) |
| RbTree.RedBlackTree.RbTreeSearch | kernel/ds/rbtree.c:101-117 | finds a node with the key if and only if there is one, visiting no more nodes than the height |
| RbTree.RedBlackTree.RbTreeInsert | kernel/ds/rbtree.c:119-145 | order, parent links, colours, equal black heights and a black root and sentinel are kept; exactly the new node is added, behind equal keys |
| RbTree.RedBlackTree.RbInsertFixup | kernel/ds/rbtree.c:249-289 | from a tree whose only fault may be a red node below a red one, restores the invariants and keeps the order of the nodes; terminates |
| RbTree.RedBlackTree.RbTreeDelete | kernel/ds/rbtree.c:150-183 | removes exactly the given node, whichever it is, and keeps all the invariants |
| RbTree.RedBlackTree.RbDeleteFixup | kernel/ds/rbtree.c:302-359 | from a tree that is one black short at a node, restores the invariants and keeps the order; terminates although the first case moves the node one level down |
| RbTree.RedBlackTree.RbLeftRotate | kernel/ds/rbtree.c:207-226 | the heap afterwards holds the rotated tree in the same surroundings, with all parent links |
| RbTree.RedBlackTree.RbTransplant | kernel/ds/rbtree.c:291-300 | the parent's link, or the root, moves from one node to the other, and the other's parent link is set even for the sentinel |
| Buddy.BuddyAllocator.constructor | kernel/pmm.c:226-300 | initialisation reserves the kernel's frames and carves the rest into maximally merged free blocks; the DMA zone is the 16 MB behind the kernel, without the last frame of memory |
| BuddyModel.InitialUnique | kernel/pmm.c:226-300 | there is only one such partition |
| BuddyModel.RunInBlock | kernel/pmm.c:173-208 | because buddies are always merged, every aligned run of free frames lies inside one free block |
| BuddyModel.FreeBlocksUnique | kernel/pmm.c:173-208 | the free blocks are a function of the free frames |
| BuddyModel.IdleStateUnique | kernel/pmm.c:226-300 | with nothing allocated, the blocks are determined by the reserved frames |
| BuddyModel.FreeUndoesAlloc | kernel/pmm.c:314-415 | freeing a block after it was allocated gives the very same blocks back |
| BuddyModel.FramesConserved | kernel/pmm.c:314-415 | allocating a block of order k takes 2^k frames out of the free ones and touches no reserved frame |
| Buddy.BuddyAllocator.BuddyAllocPfn | kernel/pmm.c:146-168 | hands out an aligned block of the order made of free frames, from the head of the first list that is not empty and, for the DMA zone, whose head begins in it; fails exactly if there is no such list, and outside the DMA zone only if no aligned run is free |
| Buddy.BuddyAllocator.BuddyMergePfn | kernel/pmm.c:173-208 | swallows free buddies until the block has none |
| Buddy.BuddyAllocator.AllocPhysPages | kernel/pmm.c:314-340 | outside the DMA zone a valid order fails if and only if no aligned run of 2^k free frames exists; success hands out such a run with one reference, at 0x40000000 and 4096 bytes for each frame before it; a block for the DMA zone begins below the zone's end |
| BuddyBlocks.BlocksBelow | kernel/pmm.c:146-168 | aligned blocks of an order that begin below an end all lie below it if and only if the end is aligned |
| Buddy.BlockCrossesZone | kernel/pmm.c:155-157 | a block handed out for the DMA zone that ends behind it |
| Buddy.BuddyAllocator.FreePhysPages | kernel/pmm.c:354-415 | takes back exactly the head of an allocated block of that order; every other call changes nothing and leaves the error code of the first test that fails |
| Buddy.BuddyAllocator.AllocThenFree | kernel/pmm.c:314-415 | allocating and freeing restores every block |
| Buddy.BuddyAllocator.FreeAll | kernel/pmm.c:354-415 | freeing all live blocks in any order restores the blocks initialisation made |
| Buddy.BuddyAllocator.PutPage | kernel/pmm.c:509-524 | drops one reference; the last one frees the frame if it is an allocated single frame |
| Buddy.BuddyAllocator.BuddyNrFreePagesTotal | kernel/pmm.c:428-440 | the sum over the lists is the number of free frames |
| Slab.SlabAllocator.KMalloc | kernel/slab.c:370-396 | null if and only if the request is zero, above 4 MB, or no page, record or block is left for it; otherwise an object of the smallest class that fits, or a block of the smallest order, disjoint from every live object; blocks that come into use for a request from the DMA zone begin in it, but an object of a class that is not full comes from a page that is there |
| Slab.DmaFromOldPage | kernel/slab.c:262-282 | an object asked for from the DMA zone that lies behind it |
| Slab.SlabAllocator.KFree | kernel/slab.c:398-427 | the address is no longer live, every other object keeps its size; the page goes back to the buddy allocator if and only if it was the page's last live object |
| Slab.SlabAllocator.SlabAlloc | kernel/slab.c:262-282 | takes from a page of the class that has a free object, and adds a page only when all are full |
| Slab.SlabAllocator.SlabGrow | kernel/slab.c:191-243 | adds a page with all objects on its free list; without a record or a block changes nothing |
| Slab.SlabAllocator.ThreadObjects | kernel/slab.c:230-238 | the free list through the first words of the objects holds each object once, and no other memory changes |
| Slab.SlabAllocator.SlabDestroyPage | kernel/slab.c:245-254 | a page without live objects leaves its list and its block is free again |
| Slab.SlabAllocator.FindSlabCache | kernel/slab.c:109-117 | the class is the smallest that fits |
| Slab.SlabAllocator.AllocThenFree | kernel/slab.c:370-427 | allocating and freeing restores the live objects and every block, also when a page was added |
| Slab.SlabAllocator.FreeEverything | kernel/slab.c:398-427 | freeing all live objects in any order gives every block back: in the buddy allocator exactly the used blocks the slab allocator did not hold are left |
| Slab.SlabAllocator.UserStore | kernel/slab.c:278-280 | a user's store into its own object reaches no free list |
| SlabModel.LiveDisjoint | kernel/slab.c:262-340 | live objects, small and large, never overlap |
| SlabModel.LastCounted | kernel/slab.c:284-299 | the page's counter is one exactly when an object is its last live one |
| SlabModel.NothingLive | kernel/slab.c:284-299 | a block is held only while something on it is live |
| SlabModel.OthersGood | kernel/slab.c:191-254 | other users of the buddy allocator cannot break the slab allocator by taking or returning blocks of their own |
| PageTableSteps.IndexBits | include/pgtbl.h:63-66 | the four indices of a walk are bits 47 to 39, 38 to 30, 29 to 21 and 20 to 12 of the address |
| PageTableSteps.SameEntry | kernel/mmu.c:31-95 | two canonical addresses of one half use the same leaf entry if and only if they are on the same page |
| PageTables.PageTableManager.Arm64MapOnePage | kernel/mmu.c:31-95 | succeeds if and only if there are as many free frames as missing tables, and then changes one translation, for an address below 2^47 of the root in ttbr0 and for any other of the one in ttbr1; tables and translations of all other roots stay, and a failure changes no translation |
| PageTables.PageTableManager.Arm64UnmapOnePage | kernel/mmu.c:98-166 | removes one translation, for an address below 2^47 of the root in ttbr0 and for any other of the one in ttbr1, and gives back exactly the tables on the path that became empty; tables and translations of all other roots stay |
| PageTableSteps.PrunedExactly | kernel/mmu.c:98-166 | only tables on the path with nothing below them are freed, and none of those is left behind |
| PageTables.PageTableManager.Arm64GetPhysFromVa | kernel/mmu.c:417-442 | returns the page of the flat map, or 0: below 2^47 from the root in ttbr0, otherwise from the one in ttbr1 |
| PageTables.PageTableManager.UnmapAndPut | kernel/pmm.c:509-524 | the page behind an entry becomes free if and only if no other entry maps it and nobody holds it |
| PageTables.PageTableManager.CopyOnWrite | kernel/page_fault.c:86-127 | a writable page with the same bytes takes the place of the old one, whose reference is dropped; fails only without a free frame |
| PageTables.PageTableManager.DemandPage | kernel/page_fault.c:129-154 | a zeroed page is mapped; fails if and only if frames for it and its tables are missing |
| PageTables.PageTableManager.PageFaultHandler | kernel/page_fault.c:58-160 | for vmalloc addresses, processes and the lack of one: which faults are fatal, which run out of memory, and what exactly one entry and one page become otherwise; reference counts stay the numbers of mappings and holders |
| PageTables.PageTableManager.ProcessFault | kernel/page_fault.c:66-160 | for a process: a reference loses its owner if and only if the fault is resolved by mapping over a managed page |
| PageTables.PageTableManager.VmallocHandlePageFault | kernel/page_fault.c:18-56 | a zeroed kernel page is mapped if and only if the address is in a range handed out and there are frames for it and its tables; only tables and the one leaf of the root in ttbr1 change |
| PageTables.RightsAfterFault | kernel/page_fault.c:86-160 | what user mode may do with the page after a fault: never run it, load from it unless it is the kernel's, store to it unless the area is executable and no copy was made |
| KernelMappings.KernelStep | kernel/mmu.c:31-166 | mapping a fresh page at a kernel address, unmapping one, or faulting one in changes no table, no translation and no byte of any root but the one in ttbr1, and a process goes on running beside it |
| KernelMappings.RunBeside | kernel/page_fault.c:18-160 | in any run of stores of a process and such operations of the kernel, the process sees its old contents overlaid with its stores, and every third address space is untouched |
| Leftovers.ReadFaultLeaks | kernel/page_fault.c:129-154 | a state reached by a read fault with a page that is neither mapped nor free |
| PageTables.PageTableManager.CopyUserPageTable | kernel/mmu.c:296-364 | the copy maps the same pages with the same user access and attributes, read-only exactly if the original is or user mode can access it, each with one reference more; it is complete if and only if there are as many free frames as tables to copy |
| PageTables.PageTableManager.FreePageTableTree | kernel/mmu.c:372-414 | frees all mappings and tables of a root and drops one reference per mapping |
| PageTables.PageTableManager.ForkThenExit | kernel/mmu.c:296-414 | copying into a fresh root and freeing the copy restores every count and mapping, also after failed table allocations; the free frames are those from before and the root |
| ForkIsolation.StoreByte | kernel/page_fault.c:86-154 | a store of a process changes what it sees as a store should, and nothing any other address space maps or sees |
| ForkIsolation.RunStores | kernel/page_fault.c:86-154 | any run of stores shows as the old contents overlaid with the stores; all other address spaces are untouched |
| ForkedProcess.ForkSeen | kernel/mmu.c:296-364 | right after the copy the child sees what the parent saw, or a part of it where tables were missing |
| ForkedProcess.ForkLoads | kernel/mmu.c:296-364 | the same of what user mode can load |
| ForkedProcess.Fork | kernel/mmu.c:296-364 | a new root, the copy and the switch: the child has no writable entry, sees the parent's contents and can load wherever the parent could, and every other address space is as before |
| ForkedProcess.ForkAndRun | kernel/mmu.c:344-360 | a fork and any run of stores of the child leave the parent's translations and contents unchanged, and the child sees the old contents overlaid with its stores |
| ForkedProcess.DirectStore | kernel/mmu.c:344-356 | a store without a fault changes another address space's view at a place if and only if the entry there maps the same page and the byte differs |
| ForkedProcess.ParentStoreShows | kernel/mmu.c:344-356 | a state reached by a fork in which a store of the parent shows in the child |
| Vmap.VmapManager.Tiled | kernel/vmap.c:31-50 | free and busy ranges tile the whole range; the list is in address order, holds the areas of the tree, and each is in the tree under its current key |
| Vmap.VmapManager.VaFindBestFit | kernel/vmap.c:52-73 | the smallest free range that is large enough, the lowest of several, and none only if none fits |
| Vmap.VmapManager.VaAlloc | kernel/vmap.c:122-176 | fails if and only if the size is zero or nothing fits the rounded size; otherwise the best fit moves to the busy ranges and a remainder of more than a page is free again; for a size whose rounding wraps to zero the busy area is then empty |
| Vmap.HandsOutNothing | kernel/vmap.c:122-176 | a request for almost the whole address space succeeds, with an empty busy area, and everything stays free |
| VmapModel.RoundsUpExactly | kernel/vmap.c:122-125 | the machine's rounding is the mathematical one if and only if the size is at most 2^64 - 4096; beyond, it is zero |
| Vmap.VmapManager.VaFree | kernel/vmap.c:178-228 | the busy range is free again, joined to the free range before it; an unknown address changes nothing; no two free ranges touch afterwards if and only if none did and none starts where the range ends |
| VmapModel.TouchExactly | kernel/vmap.c:178-228 | the same for any set of free ranges |
| Vmap.OnePageFragments | kernel/vmap.c:94-100 | ranges are not joined to what lies behind them: with nothing in use, a range as long as the whole cannot be had |
| MmStruct.AddressSpace.VmaFind | rust/src/kernel/mm.rs:65-71 | looking only at the predecessor finds what a scan of all areas finds |
| MmStruct.AddressSpace.VmaCreate | rust/src/kernel/mm.rs:73-88 | refuses exactly empty and overlapping ranges; areas stay non-empty, keyed by start and disjoint |
| MmStruct.AddressSpace.FindFreeArea | rust/src/kernel/mm.rs:96-111 | terminates with the lowest page address from the base on behind which the range is unused |
| MmStruct.AddressSpace.MapRange | rust/src/kernel/mm.rs:137-171 | succeeds if and only if there are frames for all pages and missing tables, and then every page of the range is a zeroed one; otherwise the pages it got to are unmapped; pages mapped there before keep a reference without an owner |
| MmStruct.AddressSpace.DoMmap | rust/src/kernel/mm.rs:113-176 | succeeds if and only if the range is unused and the frames suffice, adding the area and its pages; a failure leaves the areas as they were and exactly the pages it got to unmapped |
| MmStruct.UndoneExactly | rust/src/kernel/mm.rs:137-171 | a failed call leaves the translations as they were if and only if none of those pages was mapped, and every reference with its owner if and only if no managed page was mapped there |
| Leftovers.LeftPageLost | rust/src/kernel/mm.rs:137-171 | a failed call after which a page that was mapped is neither mapped nor free |
| MmStruct.AddressSpace.DoMunmap | rust/src/kernel/mm.rs:178-214 | drops the area that holds the address and unmaps the part of the range inside it; of the area something stays mapped if and only if something was mapped outside that part |
| MmStruct.CutExactly | rust/src/kernel/mm.rs:203-212 | the pages unmapped are those that begin before the end of the range asked for and before the end of the area |
| MmStruct.LeftBehind | rust/src/kernel/mm.rs:178-214 | the same for any translations |
| Leftovers.PartUnmapped | rust/src/kernel/mm.rs:178-214 | a state reached from an empty machine with a mapped page and no areas |
| MmStruct.AddressSpace.DoBrk | rust/src/kernel/mm.rs:216-257 | what growing and shrinking do to the areas, the translations and the break |
| MmStruct.GrowShrinkGrow | rust/src/kernel/mm.rs:216-257 | after growing and shrinking the break grows again if and only if the new end does not reach the area that was added first and the rest is unused; above the first break it never does |
| FdtReader.FdtNextTag | driver/fdt/fdt.c:170-229 | for every blob: the tag at an offset, or the error; unless at the end or in error the next offset is at least four bytes further and, up to alignment, inside the block, so every walk over tags terminates |
| FdtReader.BareOnBytes | driver/fdt/fdt.c:170-229 | the bytes 0, 0, 0, 2 end a node, 0, 0, 0, 4 are skipped, 0, 0, 0, 9 end the block, and any but these, 0, 0, 0, 1 and 0, 0, 0, 3 are an error (Devicetree Specification, section 5.4) |
| FdtReader.BeginOnBytes | driver/fdt/fdt.c:186-193 | 0, 0, 0, 1 begins a node whose name runs to the first NUL |
| FdtReader.PropOnBytes | driver/fdt/fdt.c:195-214 | 0, 0, 0, 3 is a property: the length of the value and the offset of the name follow, then the value; a value that does not fit is an error |
| FdtReader.HighestFirst | include/libfdt_env.h:44-49 | words are written with the highest byte first |
| FdtReader.FdtOffsetPtr | driver/fdt/fdt.c:148-168 | whether bytes may be looked at, with the wrap-around of the offset sums |
| FdtTree.ParseFlatten | driver/fdt/fdt_sw.c:219-248 | a tree survives being written as calls and read as tags (Devicetree Specification, section 5.4) |
| FdtTree.TreesAreBalanced | driver/fdt/fdt_sw.c:219-248 | the calls that write a tree are balanced with a single root and determine it |
| FdtWriter.SequentialWriter.FdtBeginNode | driver/fdt/fdt_sw.c:219-234 | succeeds if and only if the padded name fits, and then one more node is open |
| FdtWriter.SequentialWriter.FdtProperty | driver/fdt/fdt_sw.c:293-335 | succeeds if and only if value and new name fit; a name already there is shared; a failure takes the name back |
| FdtWriter.SequentialWriter.FdtFinish | driver/fdt/fdt_sw.c:337-383 | reading the finished blob gives exactly the calls made, with names, order and values; balanced calls give their tree and no other; without the flag each name is stored once |
| FdtWriter.NameTestExact | driver/fdt/fdt_sw.c:250-266 | the space test for a new name is right if and only if the strings with the name are no longer than the buffer |
| FdtWriter.NameTestWraps | driver/fdt/fdt_sw.c:250-266 | there is a name shorter than the buffer for which it is wrong |
| FdtLayout.ReadMeans | driver/fdt/fdt.c:170-229 | reading a block gives what its tags mean, with names looked up in the strings block |
| FdtLayout.NodeOnBytes | driver/fdt/fdt.c:231-241 | a node begins exactly at a multiple of four where these bytes stand and a name that ends |
| FdtLayout.PropIndexMeans | driver/fdt/fdt_ro.c:190-211 | the search for a property of a node passes exactly the no-ops and the properties of other names, and stops at anything else |
| FdtLayout.NodeEndCloses | driver/fdt/fdt_wip.c:73-81 | the end-offset walk stops exactly behind the tag that closes the node, or reports that there is none |
| FdtLayout.CloseIsNode | driver/fdt/fdt_wip.c:73-81 | the tags up to there are one complete node |
| FdtEdit.TreeEditor.constructor | driver/fdt/fdt_sw.c:337-383 | a finished blob can be edited, and reads as what was written |
| FdtEdit.TreeEditor.FdtNopNode | driver/fdt/fdt_wip.c:83-94 | what is read afterwards is what was read before without the node; an offset at which no node begins, or a node that never ends, is an error |
| FdtEdit.TreeEditor.FdtDelNode | driver/fdt/fdt_rw.c:394-406 | the same, with the gap closed and the strings moved |
| FdtEdit.NopAndDelete | driver/fdt/fdt_wip.c:83-94 | both edits of the same node fail alike and leave blobs that denote the same tree |
| FdtEdit.TreeEditor.FdtSetprop | driver/fdt/fdt_rw.c:267-300 | the property reads back as the new bytes and nothing else that is read changes; fails if and only if no node begins there, or the blob has no room or is malformed; after a failure the strings have their size back if and only if no name was added or the name is the whole string, and exactly the names within the strings block are still read |
| FdtEdit.TreeEditor.AddProperty | driver/fdt/fdt_rw.c:211-242 | the branch for a new property, with the name taken back by the length of the whole string |
| FdtLostName.OlderNameLost | driver/fdt/fdt_rw.c:103-108 | a failing call after which the blob cannot be read, because the name of an older property has been cut off |
| FdtEdit.TreeEditor.FdtDelprop | driver/fdt/fdt_rw.c:330-343 | what is read is what was read without the node's first property of that name |
| FdtEdit.TreeEditor.FdtNopProperty | driver/fdt/fdt_wip.c:59-71 | the same by blanking it out |
| FdtPath.FdtSubnodeOffset | driver/fdt/fdt_ro.c:213-227 | the first direct subnode whose name is the one given or, if that has no unit address, the one given with a unit address behind it; none exactly if no subnode has such a name, also of a node that never ends; an offset at which no node begins is an error |
| FdtPath.FdtGetPath | driver/fdt/fdt_ro.c:522-570 | the path of the node that starts at the offset if it fits the buffer, with the error code otherwise |
| FdtPath.FdtPathOffset | driver/fdt/fdt_ro.c:233-278 | the node reached by going to the first matching subnode at each component |
| FdtPath.SlashParts | driver/fdt/fdt_ro.c:258-275 | a slash parts a path into its components, whatever is on its two sides; empty parts add none |
| FdtPath.PathLeadsBack | driver/fdt/fdt_ro.c:13-31 | the path of a node leads back to it if and only if no earlier sibling on the way has the same name or, if that has no unit address, that name with one |
| FdtPath.UnitInFront | driver/fdt/fdt_ro.c:13-31 | with any name@unit in front of name, the path of name leads to the other |
| FdtPath.UnitFound | driver/fdt/fdt_ro.c:13-31 | with name@unit alone, the path /name leads to it |
| FdtPath.PathRoundTrip | driver/fdt/fdt_ro.c:233-282 | looking up the printed path returns the original offset exactly under that condition |

## Left out

- Queue lock: sequential consistency is assumed, so memory orderings are not modelled; interrupts are off inside the lock; a CPU holds or waits for at most one lock at a time, because all locks share one node per CPU (rust/src/sync/mod.rs:101-109). `KMutex` would add only easy members. Ticket arithmetic wraps around, and the number of readers fits its word.
- Red-black tree: `compare` is an integer key; `rb_tree_next`, `rb_tree_prev` and the inorder visit are not modelled. The branches of the fixup loops are methods of their own, and `SetColor`, `SetParent` and `SetLeft` stand for single field assignments.
- Buddy allocator: counters and orders are unbounded naturals instead of 16- and 32-bit fields; `buddy_init` clears the metadata of a block's other frames after adding its head, here before; for the DMA zone, where only the first block of each list is looked at (kernel/pmm.c:150-157), when a request fails is stated by the heads of the lists, not by the free frames; `total_used_pages`, which counts kernel frames twice (kernel/pmm.c:550-555), is not modelled.
- Slab.SlabAllocator.KMalloc: for requests from the DMA zone only one direction of the failure condition is claimed, as for the buddy allocator below it.
- Slab.SlabAllocator.KFree: the address must be live or outside all slab pages, as the code does not detect others: freeing twice, or inside an object, corrupts the free list. The magic numbers are part of the `used` flag, the list links of pages are sequences, the lock and 64-bit wrap-around of addresses are not modelled, and the test for a zero capacity, which cannot hold for the eleven sizes, is missing.
- Page tables: frames are handed out by a set of free frames rather than by the buddy allocator; frames are named by physical addresses and the linear map is not tracked; the nested loops of copying and freeing are one recursive method per level; translation caches, barriers and the registers themselves are left out. Addresses are canonical where the contracts say so.
- PageTables.PageTableManager.PageFaultHandler: the busy ranges of the vmap allocator and the lookup of the memory area are parameters.
- ForkedProcess.Fork: the address space maps managed pages only, because the bytes of device memory are not part of the model.
- ForkedProcess.DirectStore: the same.
- ForkedProcess.ForkAndRun: the same. `sys_execve`, which frees an old tree twice (rust/src/kernel/syscall.rs:582-587), is not a step of the model.
- Vmap.VmapManager.VaAlloc: alignment is one page, as all callers ask for; the counters `total_free` and `nr_busy` are not modelled; the red-black tree appears as the map from its areas to their keys; whether memory for another area is there is a parameter.
- MmStruct.AddressSpace.MapRange: the range lies in one half of the address space.
- MmStruct.AddressSpace.DoMmap: the same, and sums do not wrap; locks and `copy_from` are left out.
- MmStruct.AddressSpace.DoMunmap: the same; when the address is not on a page, or the area crosses the halves, the exact translations are stated, but not what of the area stays mapped.
- MmStruct.GrowShrinkGrow: `DoBrk` states what a shrinking break unmaps within one half of the address space.
- Devicetree blobs: version 17, all checks on; the header is a record of fields beside the bytes; the 8-byte alignment of the blob's address is not tested; the contents of padding are not specified; a blob of exactly INT_MAX bytes, whose names cannot be read, is excluded where reading back is claimed; reading back memory reservations is not stated.
- FdtWriter.SequentialWriter.FdtProperty: requires that the strings with the new name are no longer than the buffer, the exact condition under which the code's own test works; placeholder and copy of the value are one call.
- FdtEdit.TreeEditor.FdtNopNode: an offset inside a tag at which the bytes of a begin tag happen to lie is not detected by the code; this and the other edits require that the offset is that of a tag, or that the code's own test fails.
- FdtEdit.TreeEditor.FdtSetprop: lengths whose padded size is an int; the name is no longer than the string; adding subnodes, renaming, appending, packing, opening into a larger buffer and the memory reservations are not modelled.
- FdtPath.FdtGetPath: offsets beyond the end of the root node, where the code takes names off an empty path; names hold no slash.
- FdtPath.PathRoundTrip: as section 2.2.1 of the Devicetree Specification asks for, the root has an empty name, and the names of other nodes are not empty and hold no slash.
- FdtPath.FdtPathOffset: paths that start with an alias, and blobs whose root never ends; phandles are not modelled.
- Drivers, scheduler, wait queues, priority inheritance, the C seqlock, the ELF loader, system calls and file systems.
