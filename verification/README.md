# MioOS kernel core: a Dafny model

MioOS is an x86_64 kernel. This project models its memory-management stack, the boot of
the application processors, and a few arithmetic routines the rest of the kernel leans
on, and proves what each layer promises to the one above it.

| files | part of the kernel |
|---|---|
| `shifts`, `memory_layout`, `links` | PFN shifts and masks, page arithmetic, linked lists threaded through pages |
| `buddy_blocks`, `buddy_lists`, `buddy_bitmap`, `tracking`, `pmm`, `pmm_seeding`, `pmm_properties` | the physical memory manager: a buddy allocator with eleven free lists and one XOR bit per buddy pair |
| `page_entries`, `page_walk`, `paging` | four-level paging over pages of that allocator, with a TLB |
| `slab_pages`, `slab_caches`, `kernel_heap`, `kernel_heap_properties`, `kernel_heap_runs` | `kmalloc` and `kfree`: slab caches per core, page runs for large sizes |
| `cache_steps`, `cache_section`, `cache_lock`, `cache_runs` | one cache under its spinlock, with every store a step of its own |
| `smp_cpus`, `smp_boot`, `util_list` | the AP boot handshake, and the list that indexes the per-core caches |
| `wide_math`, `kernel_time` | `mul_div_u64` and the monotonic clock across changes of the time source |
| `number_text`, `draw_line` | `utoa` and `itoa`; Bresenham's line |

## How the layers are stated

**Physical memory.** The state of `Pmm` is described by one value, the set `free` of free
page frame numbers. `Valid()` says that every list and every pair bit below the top order is a
function of that set: block *(i, k)* is listed exactly when all its pages are free and *k* is 10 or
its parent is not wholly free, and the bit of a pair is 1 exactly when one of the two is wholly
free. Every operation is proved to keep this, so merging by the bit alone never unlinks
a block that is not on the list. The bits of order 10 are toggled by an allocation and never by a
free (`pmm.cpp` lines 453 and 494); nothing reads them, and `Valid()` says nothing about them.

**Paging.** Page tables are a levelled graph of 512-entry tables. A walk gives an optional leaf, and
`map_page`, `unmap_page` and `protect_page` are specified by what they do to *every* walk. The
boot code lets several PML4 slots share one PDPT, so the effects are first stated up to the slot that
was written, and then, for tree-shaped tables, as "exactly the region of the leaf". The TLB
is a map that the hardware may fill between calls; cached leaves are compared without the accessed
and dirty bits, which the processor sets in the tables by itself.

**Heap.** The heap invariant splits the pages of an arena into free pages, slab pages and page runs,
and ties the set `Live()` of live pointers to the slots that are on no free list. `kfree` decides by
reading the page a pointer lies in, so its contract demands that the first payload page of a large
allocation does not read as a slab header; `RoutingExact` shows that this is
exactly what is needed, and `StaleHeader` reaches a state in which it fails.
The list nodes of the page allocator lie over the magic and cache words of the pages that head free
blocks. After every call into the allocator they are stored there, so that a slab page that goes
back loses its header exactly when it comes to head a block.
The comment in `initialize_slub_ap` says that it allocates through the BSP's caches; the code asks for
the caches of the running core, which are not registered yet, so those allocations become page runs.
The model follows the code.

**Concurrency.** `CacheSteps` turns `KmemCache::alloc` and `free` into single stores, taken by any number
of cores in any order. A store comes with the reads its value and its address depend on; the reads
that another core could disturb, the header check before the lock and the test of the lock itself,
are steps of their own. Formatting a page is any number of stores that leave anything in it, up to
the last one. `SmpBoot` does the same for the BSP, the APs and
the interrupts under way between them. Both prove an inductive invariant and then state
results about every run.

## Model

| member | source | states |
|---|---|---|
| `BuddyLists.FreeLists.Add` | src/kernel/mm/pmm.cpp:119-126 | pushing a block that is on no list keeps all eleven lists linked, acyclic and disjoint, with next and prev inverse; only the block and the old head are stored to |
| `BuddyLists.FreeLists.Remove` | src/kernel/mm/pmm.cpp:129-139 | unlinking a member does the same, removes exactly that block, and stores to its neighbours only |
| `Links.PushFront` | src/kernel/mm/pmm.cpp:119-126 | the stores of list_add turn a linked list into one with the block in front |
| `Links.Unlink` | src/kernel/mm/pmm.cpp:129-139 | the stores of list_remove cut a member out, and its neighbours are nodes of the list |
| `BuddyBitmap.XorFlips` | src/kernel/mm/pmm.cpp:149-151 | xor with a single-bit mask flips that bit of a byte and no other |
| `BuddyBitmap.BuddyMap.Toggle` | src/kernel/mm/pmm.cpp:144-152 | flips the bit of one pair at one order, returns its new value, and changes no other pair |
| `BuddyBitmap.BuddyMap.constructor` | src/kernel/mm/pmm.cpp:321-351 | every order has a bit, initially 0, for every pair of managed pages |
| `BuddyBitmap.BitmapsApart` | src/kernel/mm/pmm.cpp:341-351 | the running offset places the bitmaps behind each other in one block, without overlap and none of them empty |
| `BuddyBlocks.AddMaximal` | src/kernel/mm/pmm.cpp:226-247 | adding a block that needs no merge changes the canonical blocks by exactly that block |
| `BuddyBlocks.AddMaximalBit` | src/kernel/mm/pmm.cpp:226-247 | and changes exactly one pair bit |
| `BuddyBlocks.RemoveMaximal` | src/kernel/mm/pmm.cpp:448-453 | taking out a canonical block changes the canonical blocks by exactly that block |
| `BuddyBlocks.Nested` | src/kernel/mm/pmm.cpp:168-205 | a block inside a wholly free block is wholly free |
| `Tracking.ListsAfterAdd` | src/kernel/mm/pmm.cpp:245-247 | the lists follow the free pages when a block is listed |
| `Tracking.ListsAfterRemove` | src/kernel/mm/pmm.cpp:448-449 | and when one is taken off |
| `Tracking.NodesAreHeads` | src/include/mm/pmm.hpp:16-19 | the pages that hold a list node are exactly those at the front of a canonical block of the free pages |
| `PhysicalMemory.OrderForIsLeast` | src/kernel/mm/pmm.cpp:207-218 | the order of a request is the least k with 2^k >= pages |
| `PhysicalMemory.PagesToOrder` | src/kernel/mm/pmm.cpp:207-218 | the shift loop computes that order |
| `PhysicalMemory.BuddyIsListed` | src/kernel/mm/pmm.cpp:226-238 | when the toggled bit reads 0 the buddy is a node of the list of that order |
| `PhysicalMemory.Pmm.TakeBuddy` | src/kernel/mm/pmm.cpp:226-238 | one merge round: either the lists admit the block as it is, or the buddy was listed and is now out |
| `PhysicalMemory.Pmm.Merge` | src/kernel/mm/pmm.cpp:494-513 | the merge loop conserves the pages to be freed and stops at a block that needs no further merge |
| `PhysicalMemory.Pmm.FreePagesOrder` | src/kernel/mm/pmm.cpp:220-251 | a legal free adds exactly the pages of the block; null or a too large order changes nothing; list nodes are stored to every page that comes to head a block, and to no page that heads none before or after |
| `PhysicalMemory.Pmm.FreePages` | src/kernel/mm/pmm.cpp:487-521 | the same for a page count |
| `PhysicalMemory.Pmm.SplitDown` | src/kernel/mm/pmm.cpp:455-468 | the split loop leaves exactly the lower block of the order asked for out of the lists |
| `PhysicalMemory.Pmm.FirstNonEmpty` | src/kernel/mm/pmm.cpp:438-441 | finds the smallest order from the requested one on with a listed block |
| `PhysicalMemory.Pmm.AllocPages` | src/kernel/mm/pmm.cpp:429-474 | fails iff the order exceeds 10 or no aligned run of 2^order free pages exists; else returns such a run and removes exactly its pages; the run is the low end of a block of the least order, from the requested one on, of which there is any; stores list nodes as a free does, and none when it fails |
| `PhysicalMemory.Pmm.AllocPage` | src/kernel/mm/pmm.cpp:429-474 | with one page: fails iff no page is free, else takes one free page |
| `PhysicalMemory.Pmm.FreePage` | src/kernel/mm/pmm.cpp:487-521 | with one page: gives exactly that page back |
| `PhysicalMemory.Pmm.IsPageFree` | src/kernel/mm/pmm.cpp:154-166 | true iff the page is free |
| `PhysicalMemory.Pmm.FindBlock` | src/kernel/mm/pmm.cpp:169-175 | the scan over all lists finds the block of a page iff the page is free |
| `PhysicalMemory.Pmm.SplitToward` | src/kernel/mm/pmm.cpp:179-195 | splitting toward a page removes that page and lists everything else of the block |
| `PhysicalMemory.Pmm.AllocateSpecificPage` | src/kernel/mm/pmm.cpp:168-205 | succeeds iff the page is free and removes exactly it; stores list nodes likewise |
| `PhysicalMemory.Pmm.AllocPageBelow1Mib` | src/kernel/mm/pmm.cpp:476-485 | takes the lowest free page with PFN 8 to 255, and fails iff there is none |
| `PhysicalMemory.Pmm.MarkRegionFree` | src/kernel/mm/pmm.cpp:524-534 | frees the whole pages of a region, except page 0 |
| `PhysicalMemory.Pmm.MarkRegionUsed` | src/kernel/mm/pmm.cpp:536-544 | takes out every page the region touches |
| `PmmSeeding.SkipsIsOverlap` | src/kernel/mm/pmm.cpp:253-270 | for a page-aligned kernel, skipping by page address keeps clear of every reserved byte, and of no other page |
| `PmmSeeding.SkipsCoverIff` | src/kernel/mm/pmm.cpp:390-397 | skipping by page address covers every page with a reserved byte iff the kernel starts on a page boundary |
| `PmmSeeding.ChooseOrder` | src/kernel/mm/pmm.cpp:399-413 | the chosen block is aligned, fits the region and, above order 0, overlaps nothing reserved |
| `PmmSeeding.BlockIsNext` | src/kernel/mm/pmm.cpp:399-418 | such a block is the next stretch of pages to be seeded, none of them seeded before |
| `PmmSeeding.SeededIff` | src/kernel/mm/pmm.cpp:376-420 | a page is seeded iff it lies wholly in a usable entry, is not page 0 and is not skipped |
| `PmmSeeding.SeededBytes` | src/kernel/mm/pmm.cpp:376-420 | for a page-aligned kernel: the seeded pages are, byte by byte, the unreserved ones of the usable entries |
| `PmmSeeding.LastIsNew` | src/kernel/mm/pmm.cpp:376-420 | disjoint entries contribute disjoint pages, so none is freed twice |
| `PmmSeeding.SeedEntry` | src/kernel/mm/pmm.cpp:376-420 | the seeding loop of one entry terminates and frees exactly the pages it contributes |
| `PmmSeeding.MaxUsable` | src/kernel/mm/pmm.cpp:295-310 | the scan finds the end of the highest usable entry, and the usable bytes modulo 2^64 |
| `PmmSeeding.InitializeBuddy` | src/kernel/mm/pmm.cpp:280-426 | panics iff no usable memory exists; else manages the fewest pages that hold all usable memory, and a page is free iff it lies wholly in a usable entry, holds no reserved byte and is not page 0; the total is the usable bytes |
| `PmmProperties.SameFreePagesSameBlocks` | src/kernel/mm/pmm.cpp:113-114 | history independence: managers with the same free pages have the same blocks on every list, the same bits below order 10 and the same counters |
| `PmmProperties.ListedBlocks` | src/kernel/mm/pmm.cpp:113-114 | listed blocks are aligned and wholly free, and no two of them share a page |
| `PmmProperties.PairListing` | src/kernel/mm/pmm.cpp:141-152 | below order 10 the bit is 1 iff exactly one buddy is listed, and both never are |
| `PmmProperties.CoveredIsFree` | src/kernel/mm/pmm.cpp:113-114 | the listed blocks partition the free pages |
| `PmmProperties.CountersExact` | src/kernel/mm/pmm.cpp:470-471 | free_memory is 4096 times the pages on all lists, and free plus used is the total modulo 2^64 |
| `PmmProperties.AllocThenFree` | src/kernel/mm/pmm.cpp:429-521 | freeing what alloc_pages returned restores blocks and counters |
| `PmmProperties.FreeRunPageByPage` | src/kernel/mm/pmm.cpp:487-521 | so does freeing the run page by page in any order |
| `PmmProperties.UseThenFreeRegion` | src/kernel/mm/pmm.cpp:524-544 | marking an aligned region used and then free is the identity iff all its pages but page 0 were free |
| `PageEntries.ReadFieldOfRaw` | src/include/mm/paging.hpp:20-35 | the bit fields of an entry, each of its own width, do not overlap: each reads back as it was set |
| `PageEntries.RawInjective` | src/include/mm/paging.hpp:20-35 | the 64-bit word determines every field |
| `PageEntries.ConstructorsKeepAddress` | src/include/mm/paging.hpp:85-126 | below 2^52 every constructor, for tables, pages and huge pages, keeps the page address and builds a present entry |
| `PageEntries.PageWord` | src/include/mm/paging.hpp:50-67 | which field of the hardware word each flag sets, read back from the packed word of a 4 KiB leaf |
| `PageEntries.LeafWords` | src/include/mm/paging.hpp:95-126 | every field of the word of a 4 KiB or huge leaf, with and without NX support |
| `PageEntries.TableWords` | src/include/mm/paging.hpp:84-94 | every field of an entry for a table: present, writable, executable, and open to users iff asked |
| `PageEntries.DecomposeCompose` | src/include/mm/paging.hpp:172-195 | decomposing a composed address gives the fields back, and the address is canonical |
| `PageEntries.ComposeDecompose` | src/include/mm/paging.hpp:172-195 | composing gives an address back iff it is canonical |
| `PageWalk.WriteKeepsOthers` | src/kernel/mm/paging.cpp:277-306 | a slot write changes only walks that go through that slot |
| `PageWalk.EmptyNotOccupied` | src/kernel/mm/paging.cpp:151-199 | below an empty slot nothing is mapped and no slot is in use |
| `PageWalk.SameSlotIsRegion` | src/kernel/mm/paging.cpp:277-306 | in a tree the walks through a slot are exactly those of its region |
| `PageWalk.RegionIsPage` | src/include/mm/paging.hpp:172-180 | a region is the addresses that agree in bits 0 to 47 down to the page size |
| `PageWalk.WriteLeaf` | src/kernel/mm/paging.cpp:201-206 | after a leaf write, the walks through the slot end in it and all others are as before |
| `PageWalk.InstallKeepsWalks` | src/kernel/mm/paging.cpp:67-72 | hanging a cleared table into an empty slot changes no translation |
| `PageWalk.InstallShape` | src/kernel/mm/paging.cpp:67-72 | and keeps the tables levelled, and tree-shaped if they were |
| `Paging.PagingBackend.constructor` | src/kernel/mm/paging.cpp:88-95 | drops exactly the identity map of PML4 slot 0 |
| `Paging.PagingBackend.GetOrCreateSubtable` | src/kernel/mm/paging.cpp:49-73 | returns the next table and changes no translation; keeps a present entry, and makes an absent one an entry for a table; fails only without a free page |
| `Paging.PagingBackend.MapPage` | src/kernel/mm/paging.cpp:135-207 | success turns the unmapped walks through one slot into the new leaf, at the level of the flags and with every field of its word as the flags and the CPU say; on the way down, entries that were there are kept and new ones are entries for tables; every other result changes no walk; AlreadyMapped only if the address is mapped or its slot at the leaf level is in use, and never success in that case; coherence is kept without invalidation |
| `Paging.PagingBackend.UnmapPage` | src/kernel/mm/paging.cpp:209-246 | succeeds iff mapped, and then removes exactly the leaf of the address, of any size |
| `Paging.PagingBackend.ProtectPage` | src/kernel/mm/paging.cpp:248-275 | on 4 KiB leaves: succeeds iff mapped, and then every field of the new word is as the flags and the CPU say, with the address of before; all other walks are kept, and exactly the page is invalidated |
| `Paging.PagingBackend.Translate` | src/kernel/mm/paging.cpp:277-306 | none iff the walk ends nowhere; else the base of the leaf or-ed with the offset in its page, which for an aligned base is base plus virt modulo the page size |
| `Paging.PagingBackend.FillTlb` | src/kernel/mm/paging.cpp:38-45 | a hardware fill between calls keeps the TLB coherent, which leaves the accessed and dirty bits out |
| `Paging.PagingBackend.Access` | src/include/mm/paging.hpp:26-27 | the processor sets the accessed bit, and on a write the dirty bit, of the leaf it uses, on every walk through its slot, and the TLB stays coherent without invalidation |
| `Paging.MapOnTree` | src/kernel/mm/paging.cpp:135-207 | on tree-shaped tables map_page adds exactly one region, none of which was mapped |
| `Paging.LeafOnTree` | src/kernel/mm/paging.cpp:209-275 | unmap_page and protect_page change exactly one region |
| `Paging.MapStaysCoherent` | src/kernel/mm/paging.cpp:201-206 | what was not present was not cached, so mapping leaves no stale translation |
| `Paging.UseStaysCoherent` | src/include/mm/paging.hpp:26-27 | stores of the accessed and dirty bits leave no stale translation, on any tables |
| `Paging.TreeStaysCoherent` | src/kernel/mm/paging.cpp:222-245 | changing a leaf and invalidating its page leaves no stale translation, huge leaves included |
| `Paging.LeafCoherentIff` | src/kernel/mm/paging.cpp:222-273 | on any tables: coherent after unmap or protect iff no alias of the leaf is cached or the leaf did not change, accessed and dirty bits aside |
| `Paging.SharedPdptAliases` | src/boot/boot.asm:84-97 | PML4 slots that share a PDPT see each other's changes, so slot frames are not region frames there |
| `Paging.AlignedTranslation` | src/kernel/mm/paging.cpp:287-305 | with an aligned base, translation is base plus offset |
| `Paging.TranslationExactIff` | src/kernel/mm/paging.cpp:287-305 | or-ing the offset is adding it for all offsets iff the base is aligned to the page size |
| `SlabPages.ClassForIsLeast` | src/kernel/mm/slub.cpp:36-44 | the index computed from the leading zeros is the smallest class that holds the size, and in range iff the size is at most 2048 |
| `SlabPages.LayoutComputed` | src/kernel/mm/slub.cpp:74-84 | first object and object count of every class, as computed by the alignment arithmetic |
| `SlabPages.SlotsApart` | src/kernel/mm/slub.cpp:74-92 | objects lie behind the header, inside the page, and do not overlap |
| `SlabPages.LinkSlots` | src/kernel/mm/slub.cpp:86-94 | the chaining loop links all objects in order |
| `SlabPages.FormatNewSlab` | src/kernel/mm/slub.cpp:67-95 | a formatted page is a slab whose free list is all slots, once each |
| `SlabPages.PopShape` | src/kernel/mm/slub.cpp:122-126 | taking the first object leaves a slab with the rest of the chain |
| `SlabPages.PushShape` | src/kernel/mm/slub.cpp:154-157 | giving an object back puts it in front of the chain |
| `SlabCaches.SlabCaches.NewSlab` | src/kernel/mm/slub.cpp:103-120 | a fresh page becomes a slab at the front of the partial list |
| `SlabCaches.SlabCaches.TakeObject` | src/kernel/mm/slub.cpp:122-134 | pops the first object of the first partial slab, which leaves the list iff it is now full |
| `SlabCaches.SlabCaches.GiveBack` | src/kernel/mm/slub.cpp:154-165 | pushes the object; the slab enters the list iff it was full |
| `SlabCaches.SlabCaches.DropSlab` | src/kernel/mm/slub.cpp:167-178 | an empty slab leaves its list |
| `SlabCaches.SlabCaches.StoreNodes` | src/include/mm/pmm.hpp:16-19 | list nodes stored to pages that are no slabs keep all slabs; their first words hold the low half of the next pointer, never the slab magic |
| `KernelHeap.PagesNeededIff` | src/kernel/mm/slub.cpp:240 | the page count covers the size, with no page to spare, iff the rounding does not overflow 64 bits |
| `KernelHeap.KernelHeap.constructor` | src/kernel/mm/slub.cpp:190-199 | the heap starts with nothing live and the arena free, whatever memory holds |
| `KernelHeap.KernelHeap.GetKmallocCache` | src/kernel/mm/slub.cpp:22-45 | the cache is of the calling core and of the smallest class that holds the size; none iff the size exceeds 2048 or the core is not registered |
| `KernelHeap.KernelHeap.CacheAlloc` | src/kernel/mm/slub.cpp:97-138 | a new object of the cache, or null iff the cache has none and no page is free; it comes from the first partial slab, and takes a page of its own only if there is none; beside the page of the object, only pages that head a free block before or after are written, with list nodes |
| `KernelHeap.KernelHeap.CacheFree` | src/kernel/mm/slub.cpp:140-185 | releases exactly the object, and the page with the last one; that page still reads as a slab iff it heads no block of the free pages |
| `KernelHeap.KernelHeap.AllocLarge` | src/kernel/mm/slub.cpp:238-253 | fails iff no aligned run is free; else a new live pointer behind its metadata page; other pages change by list nodes only |
| `KernelHeap.KernelHeap.FreeLarge` | src/kernel/mm/slub.cpp:293-300 | gives back the whole run of the original request; memory changes by list nodes only |
| `KernelHeap.KernelHeap.Kmalloc` | src/kernel/mm/slub.cpp:229-253 | when it returns null, for small and large sizes; else a pointer that was not live, with at least the size in usable bytes, while every live pointer keeps its own; which pages leave the free ones; beside the slab or metadata page, only pages that head a free block before or after are written |
| `KernelHeap.KernelHeap.Kfree` | src/kernel/mm/slub.cpp:255-306 | removes exactly the pointer from the live ones, gives back its original run or the page of its last object, and every other live pointer keeps its usable bytes; the page of a small object reads as a slab afterwards iff it heads no free block |
| `KernelHeap.UsableKept` | src/kernel/mm/slub.cpp:229-306 | a pointer that stays live keeps its usable bytes as long as slabs keep their cache and runs their size |
| `KernelHeap.KernelHeap.RegisterCore` | src/kernel/mm/slub.cpp:212-218 | adds eight empty caches and changes no live pointer |
| `KernelHeap.KernelHeap.InitializeSlubAp` | src/kernel/mm/slub.cpp:201-227 | keeps every live pointer and its bytes; adds eight caches iff it registers the core; on a core without caches, panics iff fewer than two aligned pairs of pages are free, and stays unregistered iff there are exactly two; without a panic the array and the pool are two new pointers with room for eight cache pointers and eight caches |
| `KernelHeap.PairTaken` | src/kernel/mm/slub.cpp:238-253 | an allocation of two pages fails iff no aligned pair is free, and else takes exactly one pair |
| `KernelHeapProperties.LivePointersDisjoint` | src/kernel/mm/slub.cpp:229-253 | no two live pointers share a byte |
| `KernelHeapProperties.LiveMemoryIsPrivate` | src/kernel/mm/slub.cpp:229-253 | no live byte is in a free page, a metadata page, a slab header or a free slot |
| `KernelHeapProperties.ForeignStores` | src/kernel/mm/slub.cpp:67-95 | stores outside headers, free slots and metadata keep the heap, its live pointers and their bytes |
| `KernelHeapProperties.ForeignAlloc` | src/kernel/mm/paging.cpp:49-57 | pages another user takes from the same allocator leave the arena; slabs and runs are as before, and memory changes by list nodes only |
| `KernelHeapProperties.ForeignFree` | src/kernel/mm/pmm.cpp:487-521 | pages it gives back join the arena, likewise |
| `KernelHeapProperties.SlabFacts` | src/kernel/mm/slub.cpp:97-185 | each slab has 0 < inuse <= max_objs, a repetition-free chain of max_objs - inuse slots, and is on its partial list iff inuse < max_objs |
| `KernelHeapProperties.SlotLiveOrFree` | src/kernel/mm/slub.cpp:122-157 | a slot is live or on the free list, never both |
| `KernelHeapProperties.RoutingExact` | src/kernel/mm/slub.cpp:255-291 | kfree routes every live pointer to its allocator iff no page behind a metadata page carries the slab magic and a registered cache |
| `KernelHeapProperties.NothingLiveNothingHeld` | src/kernel/mm/slub.cpp:167-182 | with nothing live the free pages are the arena again |
| `KernelHeapProperties.FreeAll` | src/kernel/mm/slub.cpp:255-306 | freeing all live pointers in any order restores the free pages of the start |
| `KernelHeapRuns.RunHeap` | src/kernel/mm/slub.cpp:201-306 | over any run of kmalloc, kfree, core registration, page allocation by others and stores of users to their own memory, on any cores, every pointer not yet freed has the bytes it was asked for, and shares none of them with another pointer or with the pages of other users |
| `KernelHeapRuns.StaleHeader` | src/kernel/mm/slub.cpp:168-181 | two slabs of one block are freed in either order and the block is allocated again: its payload reads as a slab iff the upper page went back last |
| `KernelHeapRuns.HeadOfPair` | src/kernel/mm/pmm.cpp:226-247 | page 3 heads a block while it alone is free, and heads none once page 2 is free too |
| `CacheSection.SectionKeeps` | src/kernel/mm/slub.cpp:97-184 | every store between lock and unlock, those of formatting included, stays on a path from one state with the slab invariant to the next |
| `CacheSection.FrontObject` | src/kernel/mm/slub.cpp:122-129 | the freelist word becomes null exactly when the last free object was taken |
| `CacheSection.SlabReleased` | src/kernel/mm/slub.cpp:167-182 | unlinking and returning an empty slab restores the invariant and loses no object |
| `CacheLock.TowardsUnlock` | src/kernel/mm/slub.cpp:97-184 | on every branch a core with the lock moves on to unlock, within 18 of its own steps besides the stores of formatting |
| `CacheLock.StepKeeps` | src/include/util/spinlock.hpp:19-31 | every step of every core, in or out of the lock, keeps the global invariant |
| `CacheLock.MutualExclusion` | src/include/util/spinlock.hpp:19-27 | in every interleaving at most one core is between lock and unlock, the flag is set iff one is, and the unlocked header check of free never fails |
| `CacheLock.UnlockedIsSound` | src/kernel/mm/slub.cpp:97-184 | whenever the lock is free the slab invariant holds, and the live objects are exactly those owned by callers or in a waiting free |
| `CacheRuns.AllocOutcome` | src/kernel/mm/slub.cpp:97-138 | in every interleaving, an alloc that unlocks returns null only with the partial list empty and no page free; every other one hands its caller a new object of the cache |
| `CacheRuns.PagesMove` | src/kernel/mm/slub.cpp:103-182 | a page leaves the free ones only for an alloc that finds the partial list empty, and returns only from a free that leaves its slab without objects |
| `CacheRuns.AllCallsReturn` | src/kernel/mm/slub.cpp:97-185 | after any interleaving, all calls under way can still return |
| `UtilList.List.GetNode` | src/include/util/list.hpp:35-49 | walking from the nearer end finds the node at the index |
| `UtilList.List.Get` | src/include/util/list.hpp:78-84 | the element at the index |
| `UtilList.List.PushBack` | src/include/util/list.hpp:101-116 | appends the element, or changes nothing without memory |
| `UtilList.List.PushFront` | src/include/util/list.hpp:119-134 | prepends it, or changes nothing |
| `UtilList.List.PopBack` | src/include/util/list.hpp:136-151 | removes and frees the last node |
| `UtilList.List.PopFront` | src/include/util/list.hpp:153-168 | removes and frees the first node |
| `UtilList.List.Clear` | src/include/util/list.hpp:171-181 | frees every node exactly once, reading its link before |
| `ApCpus.AllocApCpus` | src/kernel/smp.cpp:41-58 | one CPU object per APIC id other than the BSP's, in order, numbered from 1 in one byte |
| `ApCpus.IdsFollowIndex` | src/kernel/smp.cpp:41-58 | with distinct one-byte ids among them the BSP's, the j-th AP is processor j + 1 |
| `ApCpus.IdsFollowIndexIff` | src/kernel/smp.cpp:42-55 | the numbering follows the index iff there are at most 255 APs |
| `SmpBoot.StepKeeps` | src/kernel/smp.cpp:138-170 | every step of the BSP, an AP or an interrupt line keeps the boot invariant |
| `SmpBoot.OneInFlight` | src/kernel/smp.cpp:138-170 | in every interleaving at most one AP is between its first SIPI and its count, and the trampoline slots hold its values |
| `SmpBoot.OwnIdentity` | src/kernel/smp.cpp:96-116 | no AP runs on another's stack, in other tables or as another CPU, or leaves the path |
| `SmpBoot.SequenceSent` | src/kernel/smp.cpp:147-163 | in every interleaving each AP in turn is sent INIT, SIPI, SIPI, before the BSP waits for it; at the end, nothing else was sent |
| `SmpBoot.CachesInOrder` | src/kernel/mm/slub.cpp:22-34 | the online APs are the first ones, and entry j of the cache list was built by processor j + 1 |
| `SmpBoot.StepsRunOut` | src/kernel/smp.cpp:140-170 | every step that changes anything uses up a bounded amount of work |
| `SmpBoot.BootCompletes` | src/kernel/smp.cpp:140-170 | after any interleaving of steps from the start, the boot can still complete |
| `WideMath.MulDivRaw` | src/kernel/lib/math.cpp:14-22 | where the divide does not fault, the 64-bit floor of the exact quotient |
| `WideMath.RemainderFits` | src/kernel/lib/math.cpp:24-28 | the divide never faults on a remainder |
| `WideMath.MulDivExact` | src/kernel/lib/math.cpp:24-28 | the exact quotient modulo 2^64; exact iff it fits |
| `TimeSources.GetNsExactIff` | src/kernel/arch/timers/hpet.cpp:115-118 | a source converts its counter exactly iff the quotient (TSC) or the product (HPET, PIT) fits 64 bits |
| `TimeSources.MonotoneIff` | src/kernel/arch/timers/hpet.cpp:115-118 | get_ns is monotone up to a counter value iff that value converts without wrap-around, for TSC, HPET and PIT |
| `TimeSources.MonotoneIffHoldsIff` | src/kernel/arch/timers/hpet.cpp:73-82 | that equivalence holds for every counter value iff an HPET has at most 18446744073000000000 Hz, far above the 10^15 its period register allows |
| `TimeSources.StepsBack` | src/kernel/arch/timers/pit.cpp:59-61 | at the first tick past the range every source reads less than at the tick before |
| `TimeSources.HpetClockJumpsBack` | src/kernel/arch/timers/hpet.cpp:115-118 | an instance: a 10 MHz HPET loses half an hour in one tick |
| `Timekeeping.KernelTime.Initialize` | src/kernel/timekeeping.cpp:21-48 | invalid parameters change nothing; else name and source are the new ones, the time of the outgoing source is carried over, and the new one starts at its baseline |
| `Timekeeping.KernelTime.GetMonotonicNs` | src/kernel/timekeeping.cpp:50-55 | the sum over all sources modulo 2^64; in range, the time elapsed on the counters, and all results of a run are sorted |
| `Timekeeping.KernelTime.GetRealtimeNs` | src/kernel/timekeeping.cpp:57-59 | monotonic time shifted by the boot time |
| `Timekeeping.ReadKeepsMonotone` | src/kernel/timekeeping.cpp:50-55 | a read in range is not before any earlier read, across source changes |
| `Timekeeping.TscReadingsSortedIff` | src/kernel/timekeeping.cpp:50-55 | on the TSC, from any baseline, get_monotonic_ns never goes back iff the carried-over and the elapsed time together stay within 64 bits |
| `Timekeeping.CounterReadingsSortedIff` | src/kernel/timekeeping.cpp:50-55 | on HPET and PIT, from any baseline in range, it never goes back iff the counter is in range, or has wrapped around to below the baseline and not reached it again |
| `Timekeeping.ReadPastRange` | src/kernel/timekeeping.cpp:50-55 | two reads around the end of the range go back, if the second is not below the baseline, so the results of the run are not sorted |
| `NumberText.TextParses` | src/kernel/lib/string_util.cpp:81-118 | the text is a numeral of the value without leading zeros, in every base from 2 to 36, if its digits are in the table, as they always are up to base 16 |
| `NumberText.ParseTexts` | src/kernel/lib/string_util.cpp:81-118 | and every numeral with digits of the table is the text of its value |
| `NumberText.TextFits` | src/kernel/lib/string_util.cpp:100-106 | at most 64 digits |
| `NumberText.ExtractDigits` | src/kernel/lib/string_util.cpp:100-104 | the digit loop writes the digits backwards |
| `NumberText.ReverseInPlace` | src/kernel/lib/string_util.cpp:108-115 | the loop from both ends reverses the range and nothing else |
| `NumberText.Utoa` | src/kernel/lib/string_util.cpp:81-118 | the buffer holds the text and a NUL, and nothing else changed; empty for bases outside 2 to 36 |
| `NumberText.Itoa` | src/kernel/lib/string_util.cpp:120-138 | the same with a sign in base 10 |
| `NumberText.DecimalReadsBack` | src/kernel/lib/string_util.cpp:126-132 | base 10 reads back as every value above INT64_MIN |
| `NumberText.BitsReadBack` | src/kernel/lib/string_util.cpp:130-135 | other bases read back as the two's complement bits |
| `DrawLine.StepKeepsBound` | src/kernel/graphics/draw_util.cpp:49-51 | the error stays within half of the longer axis, which moves in every round |
| `DrawLine.TraceOnLine` | src/kernel/graphics/draw_util.cpp:45-52 | the points run from start to end within half a pixel of the line |
| `DrawLine.EndIff` | src/kernel/graphics/draw_util.cpp:47-48 | the end point is reached after max(dx, dy) rounds and not before |
| `DrawLine.DrawLine` | src/kernel/graphics/draw_util.cpp:33-53 | on safe distances: terminates without int overflow, having plotted exactly max(dx, dy) + 1 points, all on the line, the last one the end |
| `DrawLine.RoundFacts` | src/kernel/graphics/draw_util.cpp:49-51 | the pen stays in the box of the end points, and every sum of a round fits an int |
| `DrawLine.IntSafeIff` | src/kernel/graphics/draw_util.cpp:49-51 | no round leaves the ints iff the distances, with their greatest common divisor, meet two inequalities |
| `DrawLine.FlatAttains` | src/kernel/graphics/draw_util.cpp:49-51 | on a flat line, every multiple of the divisor within half of the length is the error of some round |
| `DrawLine.SteepAttains` | src/kernel/graphics/draw_util.cpp:49-51 | on a steep line as well |
| `DrawLine.SafeLengths` | src/kernel/graphics/draw_util.cpp:49-51 | the longest safe flat, vertical and diagonal lines; a third of the ints is always safe |

## Left out

- The bump allocator: its range is a given interval for the seeding; that the same exhausted region can be chosen again is outside the model.
- `pmm_lock` and use of the page allocator by several cores: the code never takes the lock, so that layer is sequential here, and a single step in the cache protocol.
- Illegal calls: double frees and frees of foreign pointers are not detected by the code; the contracts exclude them by name (`Freeable`, `Live`).
- PhysicalMemory.Pmm.MarkRegionFree: only for regions inside the managed pages; beyond them the code would index past the bitmaps.
- PmmSeeding.InitializeBuddy: memory-map entries are a sequence of values, with usable ones inside the 52-bit physical address space and without overlaps, since a page in two usable entries is freed twice; parsing Multiboot and UEFI tables is not part of the model, nor is the placement of the bitmaps in bump memory.
- BuddyLists.FreeLists.Add: the next and prev words live in arrays of their own; over the words of the heap in the same pages they are laid by KernelHeap.KernelHeap.StoreNodes, which leaves open what the cache word and the page count read as.
- Paging.PagingBackend.ProtectPage: for 4 KiB leaves only; on a huge leaf the code would take the leaf for a table.
- Paging.PagingBackend.MapPage: entries that were on the way down keep their bits, so access through them may be narrower than the leaf says; of a physical address, bits 12 to 51 go into the leaf.
- Paging.PagingBackend.constructor: the loop that maps the memory above the early boot limit into the direct map is not modelled; it is a series of calls of map_page.
- Paging.PagingBackend.Access: the accessed bits of the entries above a leaf are not set; no walk reads them.
- Paging-structure caches, global TLB entries and cross-core TLB shootdown, for which the code has no mechanism.
- KernelHeap.KernelHeap.Kmalloc: sizes within 4095 bytes of 2^64 are excluded, where the rounding of the page count overflows.
- KernelHeap.KernelHeap.Kfree: the first payload page of a large allocation must not read as a slab header; what the slab path then does to a foreign page is not modelled beyond the state `StaleHeader` reaches.
- KernelHeap.KernelHeap.InitializeSlubAp: the contents of the four blocks it allocates, the new caches among them, are the empty caches of the model; that the blocks hold them is not stated.
- CacheLock.UnlockedIsSound: stores are sequentially consistent steps; weaker orderings than the acquire and release of the lock are not modelled, nor is the number of stores that formatting takes, nor the list nodes in free pages, whose words no step reads, and try_lock, which nothing calls here, is left out.
- SmpBoot.BootCompletes: says that completion stays possible and that steps run out, not that the hardware delivers an interrupt in the 10 ms and 200 us the code waits.
- SmpBoot.CachesInOrder: allocations inside ap_entry succeed; the panic on exhausted memory ends the boot.
- UtilList.List.GetNode: the index is in range, as the callers check; `at` adds that check.
- Timekeeping.CounterReadingsSortedIff: for totals that stay within 64 bits above the baseline, and for frequencies in the range of TimeSources.MonotoneIffHoldsIff.
- Timekeeping.KernelTime.Initialize: the delay functions are not modelled, names are at most four characters, as the buffer demands, and the RTC value is an arbitrary number.
- NumberText.Utoa: above base 16, values with a digit that is not in the table are excluded, since the code then reads the terminator of the table or past it; the buffer must be long enough.
- NumberText.Itoa: INT64_MIN in base 10 is excluded, since its negation overflows.
- DrawLine.DrawLine: coordinates are non-negative ints, and the distances are those of DrawLine.IntSafeIff; beyond them the code overflows an int.
- Port I/O, MSRs, GDT, TSS, IDT, interrupt controllers, timers' programming, serial and framebuffer drivers, console output, uACPI glue and the boot assembly: hardware effects with little structure to prove.
