/** Runs of the kernel heap: the sizes asked for hold for the whole life of a pointer, and a
    run at whose end kfree takes a large allocation for a small object. */
module KernelHeapRuns {
  import opened MemoryLayout
  import opened BuddyBlocks
  import opened Tracking
  import opened PhysicalMemory
  import opened Shifts
  import opened SlabPages
  import opened SlabCaches
  import opened KernelHeap
  import opened KernelHeapProperties

  /** A call: of kmalloc or kfree on some core; of initialize_slub_ap; of alloc_pages or
      free_pages by another user of the page allocator; or a store of a user, to the first word
      of an object or to a page of a large allocation or of another user. */
  datatype HeapCall =
    | Alloc(core: nat, size: nat)
    | Free(ptr: nat)
    | Register(core: nat)
    | TakePages(num: nat)
    | GivePages(page: nat)
    | StoreWord(ptr: nat, value: nat)
    | StorePage(owner: nat, page: nat, content: Page, next: int, prev: int)

  /** What the users hold: pointers with the sizes asked for, and page runs with their page
      counts. */
  datatype Users = Users(sizes: map<nat, nat>, runs: map<nat, nat>)

  /** Every recorded pointer is live and has as many bytes as recorded. */
  ghost predicate SizesOk(slabs: Slabs, large: map<nat, nat>, sizes: map<nat, nat>) {
    && sizes.Keys <= SmallLive(slabs) + LargeLive(large)
    && forall p :: p in sizes ==> UsableBytes(slabs, large, p) >= sizes[p]
  }

  /** A run that alloc_pages gave to another user. */
  ghost predicate ForeignRun(arena: set<nat>, pages: nat, b: nat, num: nat) {
    && b > 0 && OrderFor(num) <= MAX_ORDER && b == Shl(Shr(b, OrderFor(num)), OrderFor(num))
    && Run(b, num) !! arena && forall x :: x in Run(b, num) ==> 0 < x < pages
  }

  /** The page runs of other users lie apart from the arena and from each other. */
  ghost predicate RunsApart(arena: set<nat>, pages: nat, runs: map<nat, nat>) {
    && (forall b :: b in runs ==> ForeignRun(arena, pages, b, runs[b]))
    && forall b, d :: b in runs && d in runs && b != d ==> Run(b, runs[b]) !! Run(d, runs[d])
  }

  ghost predicate UsersOk(h: KernelHeap, users: Users)
    reads h, h.caches
  {
    && SizesOk(h.caches.slabs, h.large, users.sizes)
    && RunsApart(h.arena, h.pmm.pages, users.runs)
  }

  /** Pointers of both states have the same bytes in both. */
  ghost predicate SameUsable(slabs: Slabs, large: map<nat, nat>, slabs': Slabs, large': map<nat, nat>, ps: set<nat>) {
    forall p :: p in ps ==> UsableBytes(slabs', large', p) == UsableBytes(slabs, large, p)
  }

  lemma RecordKeeps(slabs: Slabs, large: map<nat, nat>, slabs': Slabs, large': map<nat, nat>,
                    sizes: map<nat, nat>, ptr: nat, size: nat)
    requires SizesOk(slabs, large, sizes)
    requires SameUsable(slabs, large, slabs', large', SmallLive(slabs) + LargeLive(large))
    requires SmallLive(slabs) + LargeLive(large) <= SmallLive(slabs') + LargeLive(large')
    requires ptr != 0 ==> ptr in SmallLive(slabs') + LargeLive(large') && ptr !in SmallLive(slabs) + LargeLive(large)
    requires ptr != 0 ==> UsableBytes(slabs', large', ptr) >= size
    ensures SizesOk(slabs', large', Recorded(sizes, ptr, size))
  {
    var sizes' := Recorded(sizes, ptr, size);
    if ptr != 0 {
      assert ptr !in sizes.Keys;
      assert sizes'.Keys == sizes.Keys + {ptr};
    }
    forall p | p in sizes
      ensures UsableBytes(slabs', large', p) >= sizes[p]
    {
      assert p in sizes.Keys;
    }
  }

  lemma ForgetKeeps(slabs: Slabs, large: map<nat, nat>, slabs': Slabs, large': map<nat, nat>,
                    sizes: map<nat, nat>, ptr: nat)
    requires SizesOk(slabs, large, sizes)
    requires SameUsable(slabs, large, slabs', large', SmallLive(slabs') + LargeLive(large'))
    requires SmallLive(slabs') + LargeLive(large') == SmallLive(slabs) + LargeLive(large) - {ptr}
    ensures SizesOk(slabs', large', sizes - {ptr})
  {
    assert (sizes - {ptr}).Keys == sizes.Keys - {ptr};
    forall p | p in sizes - {ptr}
      ensures UsableBytes(slabs', large', p) >= (sizes - {ptr})[p]
    {
      assert p in (sizes - {ptr}).Keys && p in sizes.Keys;
    }
  }

  lemma RunsGrow(arena: set<nat>, arena': set<nat>, free: set<nat>, pages: nat, runs: map<nat, nat>, b: nat, num: nat)
    requires RunsApart(arena, pages, runs) && Run(b, num) <= free <= arena && arena' == arena - Run(b, num)
    requires b > 0 && OrderFor(num) <= MAX_ORDER && b == Shl(Shr(b, OrderFor(num)), OrderFor(num))
    requires forall x :: x in free ==> 0 < x < pages
    ensures RunsApart(arena', pages, runs[b := num])
  {
    var runs' := runs[b := num];
    assert b in Run(b, num) by {
      BlockHasPage(Shr(b, OrderFor(num)), OrderFor(num));
    }
    forall d | d in runs'
      ensures ForeignRun(arena', pages, d, runs'[d])
    {
      assert d != b ==> ForeignRun(arena, pages, d, runs[d]);
    }
    forall d | d in runs && d != b
      ensures Run(d, runs[d]) !! Run(b, num)
    {
      assert ForeignRun(arena, pages, d, runs[d]);
    }
  }

  lemma RunsShrink(arena: set<nat>, arena': set<nat>, pages: nat, runs: map<nat, nat>, b: nat)
    requires RunsApart(arena, pages, runs) && b in runs && arena' == arena + Run(b, runs[b])
    ensures RunsApart(arena', pages, runs - {b})
  {
    var runs' := runs - {b};
    forall d | d in runs'
      ensures ForeignRun(arena', pages, d, runs'[d])
    {
      assert ForeignRun(arena, pages, d, runs[d]);
      assert Run(d, runs[d]) !! Run(b, runs[b]);
    }
  }

  ghost predicate HasByte(sizes: map<nat, nat>, p: nat, x: nat) {
    p in sizes && p <= x < p + sizes[p]
  }

  /** No byte asked for belongs to two pointers, or to a pointer and a run. */
  ghost predicate Unshared(users: Users) {
    && (forall p, q, x :: HasByte(users.sizes, p, x) && HasByte(users.sizes, q, x) ==> p == q)
    && forall p: nat, x: nat, b: nat :: HasByte(users.sizes, p, x) && b in users.runs ==>
         x / 4096 !in Run(b, users.runs[b])
  }

  /** Any run of legal calls, on any cores: every pointer that has not been freed still has
      the bytes that were asked for, and shares none of them with another, nor with the pages
      of another user. A call that is not legal at its turn is left out, and a panic ends the
      run. */
  method RunHeap(h: KernelHeap, calls: seq<HeapCall>) returns (users: Users)
    requires h.Valid() && h.Live() == {}
    requires forall n :: 0 <= n < |calls| && calls[n].Alloc? ==> calls[n].size + 4095 < ADDRESS_LIMIT
    modifies h, h.pmm`freeMemory, h.pmm`usedMemory, h.pmm`free, h.pmm.lists, h.pmm.bits, h.caches
    ensures h.Valid() && UsersOk(h, users) && Unshared(users)
  {
    users := Users(map[], map[]);
    var panic := false;
    for n := 0 to |calls|
      invariant h.Valid() && UsersOk(h, users)
    {
      if !panic {
        users, panic := Call(h, calls[n], users);
      }
    }
    NothingShared(h.caches.mem, h.caches.slabs, h.large, h.pmm.free, h.arena, h.pmm.pages, users);
  }

  lemma NothingShared(mem: seq<Page>, slabs: Slabs, large: map<nat, nat>, free: set<nat>, arena: set<nat>, pages: nat,
                      users: Users)
    requires HeapOk(mem, slabs, large, free, arena, {}) && SizesOk(slabs, large, users.sizes)
    requires RunsApart(arena, pages, users.runs)
    ensures Unshared(users)
  {
    forall p, q, x | HasByte(users.sizes, p, x) && HasByte(users.sizes, q, x)
      ensures p == q
    {
      assert p in users.sizes.Keys && q in users.sizes.Keys;
      DisjointOnValues(mem, slabs, large, free, arena, p, q, x);
    }
    forall p: nat, x: nat, b: nat | HasByte(users.sizes, p, x) && b in users.runs
      ensures x / 4096 !in Run(b, users.runs[b])
    {
      assert p in users.sizes.Keys;
      LiveInArena(mem, slabs, large, free, arena, p, x);
      assert ForeignRun(arena, pages, b, users.runs[b]);
    }
  }

  lemma LiveInArena(mem: seq<Page>, slabs: Slabs, large: map<nat, nat>, free: set<nat>, arena: set<nat>, p: nat, x: nat)
    requires HeapOk(mem, slabs, large, free, arena, {})
    requires p in SmallLive(slabs) + LargeLive(large) && p <= x < p + UsableBytes(slabs, large, p)
    ensures x / 4096 in arena
  {
    if p in SmallLive(slabs) {
      var s, i := SmallByte(slabs, large, p, x);
      assert s in slabs.Keys;
    } else {
      var b := LargeByte(mem, slabs, large, free, arena, p, x);
    }
  }

  /** One call. */
  method Call(h: KernelHeap, call: HeapCall, users0: Users) returns (users: Users, panic: bool)
    requires h.Valid() && UsersOk(h, users0) && (call.Alloc? ==> call.size + 4095 < ADDRESS_LIMIT)
    modifies h, h.pmm`freeMemory, h.pmm`usedMemory, h.pmm`free, h.pmm.lists, h.pmm.bits, h.caches
    ensures h.Valid() && UsersOk(h, users)
  {
    panic := false;
    match call
    case Alloc(core, size) => users := CallAlloc(h, core, size, users0);
    case Free(ptr) => users := CallFree(h, ptr, users0);
    case Register(core) => panic := CallRegister(h, core, users0); users := users0;
    case TakePages(num) => users := CallTake(h, num, users0);
    case GivePages(page) => users := CallGive(h, page, users0);
    case StoreWord(ptr, value) => CallStoreWord(h, ptr, value, users0); users := users0;
    case StorePage(owner, page, content, next, prev) =>
      CallStorePage(h, owner, page, content, next, prev, users0);
      users := users0;
  }

  method CallAlloc(h: KernelHeap, core: nat, size: nat, users0: Users) returns (users: Users)
    requires h.Valid() && UsersOk(h, users0) && size + 4095 < ADDRESS_LIMIT
    modifies h, h.pmm`freeMemory, h.pmm`usedMemory, h.pmm`free, h.pmm.lists, h.pmm.bits, h.caches
    ensures h.Valid() && UsersOk(h, users)
  {
    var ptr := h.Kmalloc(core, size);
    RecordKeeps(old(h.caches.slabs), old(h.large), h.caches.slabs, h.large, users0.sizes, ptr, size);
    users := users0.(sizes := Recorded(users0.sizes, ptr, size));
  }

  function Recorded(sizes: map<nat, nat>, ptr: nat, size: nat): map<nat, nat> {
    if ptr == 0 then sizes else sizes[ptr := size]
  }

  method CallFree(h: KernelHeap, ptr: nat, users0: Users) returns (users: Users)
    requires h.Valid() && UsersOk(h, users0)
    modifies h, h.pmm`freeMemory, h.pmm`usedMemory, h.pmm`free, h.pmm.lists, h.pmm.bits, h.caches
    ensures h.Valid() && UsersOk(h, users)
  {
    if ptr == 0 || ptr !in users0.sizes || (ptr % 4096 == 0 && h.ReadsAsSlab(PfnOf(ptr))) {
      return users0;
    }
    assert ptr in users0.sizes.Keys;
    LargeAligned(h.large);
    h.Kfree(ptr);
    users := users0.(sizes := users0.sizes - {ptr});
    ForgetKeeps(old(h.caches.slabs), old(h.large), h.caches.slabs, h.large, users0.sizes, ptr);
  }

  lemma LargeAligned(large: map<nat, nat>)
    ensures forall p :: p in LargeLive(large) ==> p % 4096 == 0
  {
  }

  method CallRegister(h: KernelHeap, core: nat, users: Users) returns (panic: bool)
    requires h.Valid() && UsersOk(h, users)
    modifies h, h.pmm`freeMemory, h.pmm`usedMemory, h.pmm`free, h.pmm.lists, h.pmm.bits, h.caches
    ensures h.Valid() && UsersOk(h, users)
  {
    var outcome, _, _ := h.InitializeSlubAp(core);
    panic := outcome.Panic?;
    RecordKeeps(old(h.caches.slabs), old(h.large), h.caches.slabs, h.large, users.sizes, 0, 0);
  }

  method CallTake(h: KernelHeap, num: nat, users0: Users) returns (users: Users)
    requires h.Valid() && UsersOk(h, users0)
    modifies h, h.pmm`freeMemory, h.pmm`usedMemory, h.pmm`free, h.pmm.lists, h.pmm.bits, h.caches
    ensures h.Valid() && UsersOk(h, users)
  {
    var ptr := ForeignAlloc(h, num);
    if ptr == 0 {
      return users0;
    }
    RunsGrow(old(h.arena), h.arena, old(h.pmm.free), h.pmm.pages, users0.runs, PfnOf(ptr), num);
    users := users0.(runs := users0.runs[PfnOf(ptr) := num]);
  }

  method CallGive(h: KernelHeap, page: nat, users0: Users) returns (users: Users)
    requires h.Valid() && UsersOk(h, users0)
    modifies h, h.pmm`freeMemory, h.pmm`usedMemory, h.pmm`free, h.pmm.lists, h.pmm.bits, h.caches
    ensures h.Valid() && UsersOk(h, users)
  {
    if page !in users0.runs {
      return users0;
    }
    assert ForeignRun(h.arena, h.pmm.pages, page, users0.runs[page]);
    SinglePage(page);
    ForeignFree(h, page * 4096, users0.runs[page]);
    RunsShrink(old(h.arena), h.arena, h.pmm.pages, users0.runs, page);
    users := users0.(runs := users0.runs - {page});
  }

  /** Stores to one page that leave the words of the heap there alone. */
  method StoreAt(h: KernelHeap, page: nat, content: Page, next: int, prev: int)
    requires h.Valid() && page < |h.caches.mem| && page !in h.large
    requires page in h.caches.slabs ==>
               && SameSlabWords(h.caches.mem[page], content, h.caches.slabs[page])
               && next == h.caches.next[page] && prev == h.caches.prev[page]
    modifies h.caches`mem, h.caches`next, h.caches`prev
    ensures h.Valid() && h.caches.slabs == old(h.caches.slabs) && h.large == old(h.large) && h.arena == old(h.arena)
  {
    StoreConditions(h.caches.mem, h.caches.next, h.caches.prev, h.caches.slabs, h.large, page, content, next, prev);
    ForeignStores(h, h.caches.mem[page := content], h.caches.next[page := next], h.caches.prev[page := prev]);
  }

  lemma StoreConditions(mem: seq<Page>, nexts: seq<int>, prevs: seq<int>, slabs: Slabs, large: map<nat, nat>,
                        page: nat, content: Page, next: int, prev: int)
    requires page < |mem| == |nexts| == |prevs| && page !in large
    requires page in slabs ==> SameSlabWords(mem[page], content, slabs[page])
    requires page in slabs ==> next == nexts[page] && prev == prevs[page]
    ensures forall s :: s in slabs && s < |mem| ==> SameSlabWords(mem[s], mem[page := content][s], slabs[s])
    ensures forall s :: s in slabs && s < |mem| ==>
              nexts[page := next][s] == nexts[s] && prevs[page := prev][s] == prevs[s]
    ensures forall b :: b in large && b < |mem| ==> mem[page := content][b] == mem[b]
  {
  }

  /** A store to the first word of an object. */
  method CallStoreWord(h: KernelHeap, ptr: nat, value: nat, users: Users)
    requires h.Valid() && UsersOk(h, users)
    modifies h, h.pmm`freeMemory, h.pmm`usedMemory, h.pmm`free, h.pmm.lists, h.pmm.bits, h.caches
    ensures h.Valid() && UsersOk(h, users)
  {
    if ptr !in users.sizes || ptr % 4096 == 0 {
      return;
    }
    assert ptr in users.sizes.Keys;
    LargeAligned(h.large);
    var page := ptr / 4096;
    WordStored(h.caches.mem, |h.caches.partial|, h.caches.slabs, h.large, h.pmm.free, h.arena, ptr, value);
    var content := h.caches.mem[page].(words := h.caches.mem[page].words[ptr % 4096 := value]);
    StoreAt(h, page, content, h.caches.next[page], h.caches.prev[page]);
  }

  /** The word lies in no free slot. */
  lemma WordStored(mem: seq<Page>, registered: nat, slabs: Slabs, large: map<nat, nat>, free: set<nat>,
                   arena: set<nat>, ptr: nat, value: nat)
    requires HeapOk(mem, slabs, large, free, arena, {}) && ShapesOk(mem, registered, slabs) && ptr in SmallLive(slabs)
    ensures var page := ptr / 4096;
            && page in slabs && page < |mem| && page !in large
            && SameSlabWords(mem[page], mem[page].(words := mem[page].words[ptr % 4096 := value]), slabs[page])
  {
    var s, i := SmallLiveIn(slabs, ptr);
    assert ShapeOk(mem, registered, slabs, s);
    SlotInPage(s, slabs[s].cache % 8, i);
    forall n | 0 <= n < |slabs[s].chain|
      ensures SlotOffset(slabs[s].cache % 8, slabs[s].chain[n]) != ptr % 4096
    {
      assert SlotLinked(mem[s].words, s, slabs[s].cache % 8, slabs[s].chain, n);
      SlotsApart(slabs[s].cache % 8, i, slabs[s].chain[n]);
    }
    assert s in slabs.Keys;
    if s in large {
      MetadataOwned(mem, large, s);
    }
  }

  /** A store to a page of a large allocation or of another user. */
  method CallStorePage(h: KernelHeap, owner: nat, page: nat, content: Page, next: int, prev: int, users: Users)
    requires h.Valid() && UsersOk(h, users)
    modifies h, h.pmm`freeMemory, h.pmm`usedMemory, h.pmm`free, h.pmm.lists, h.pmm.bits, h.caches
    ensures h.Valid() && UsersOk(h, users)
  {
    if page >= |h.caches.mem| || !MayStore(users, owner, page) {
      return;
    }
    PageStored(h.caches.mem, h.caches.slabs, h.large, h.pmm.free, h.arena, h.pmm.pages, users, owner, page);
    StoreAt(h, page, content, next, prev);
  }

  /** The page belongs to the bytes asked for at a page boundary, or to a run of the user. */
  predicate MayStore(users: Users, owner: nat, page: nat) {
    || (owner in users.sizes && owner % 4096 == 0 && owner <= page * 4096 < owner + users.sizes[owner])
    || (owner in users.runs && page in Run(owner, users.runs[owner]))
  }

  lemma PageStored(mem: seq<Page>, slabs: Slabs, large: map<nat, nat>, free: set<nat>, arena: set<nat>, pages: nat,
                   users: Users, owner: nat, page: nat)
    requires HeapOk(mem, slabs, large, free, arena, {}) && SizesOk(slabs, large, users.sizes)
    requires RunsApart(arena, pages, users.runs) && MayStore(users, owner, page)
    ensures page !in slabs && page !in large
  {
    if owner in users.sizes && owner % 4096 == 0 && owner <= page * 4096 < owner + users.sizes[owner] {
      assert owner in users.sizes.Keys;
      PrivateOnValues(mem, slabs, large, free, arena, owner, page * 4096);
      PageOf(page);
    } else {
      assert ForeignRun(arena, pages, owner, users.runs[owner]);
      assert page !in slabs.Keys;
      if page in large {
        MetadataOwned(mem, large, page);
      }
    }
  }

  // ------------------------------------------------------------------------------
  // A stale slab header

  /** The pages of small objects. */
  ghost function PagesOf(live: set<nat>): set<nat> {
    set p | p in live :: p / 4096
  }

  ghost predicate AllSmall(live: set<nat>) {
    forall p :: p in live ==> p % 4096 != 0
  }

  /** With only small objects live, the heap holds exactly their pages. */
  lemma SmallOnly(mem: seq<Page>, slabs: Slabs, large: map<nat, nat>, free: set<nat>,
                  arena: set<nat>)
    requires HeapOk(mem, slabs, large, free, arena, {}) && AllSmall(SmallLive(slabs) + LargeLive(large))
    ensures free == arena - PagesOf(SmallLive(slabs) + LargeLive(large))
    ensures PagesOf(SmallLive(slabs) + LargeLive(large)) <= arena
  {
    NoLarge(slabs, large);
    SlabsAreLive(slabs, large, mem, free, arena);
    assert RunPages(large) == {};
    assert SmallLive(slabs) + LargeLive(large) == SmallLive(slabs);
  }

  lemma NoLarge(slabs: Slabs, large: map<nat, nat>)
    requires AllSmall(SmallLive(slabs) + LargeLive(large))
    ensures large == map[] && LargeLive(large) == {}
  {
    forall b: nat
      ensures b !in large
    {
      if b in large {
        assert (b + 1) * 4096 in LargeLive(large);
        PageOf(b + 1);
      }
    }
    assert large.Keys == {};
  }

  /** Every slab has a live object. */
  lemma SlabsAreLive(slabs: Slabs, large: map<nat, nat>, mem: seq<Page>, free: set<nat>,
                     arena: set<nat>)
    requires HeapOk(mem, slabs, large, free, arena, {})
    ensures slabs.Keys == PagesOf(SmallLive(slabs))
  {
    forall s | s in slabs
      ensures s in PagesOf(SmallLive(slabs))
    {
      var i := SomeSlotNotIn(slabs[s].chain, Capacity(slabs[s].cache % 8));
      SmallLiveAt(slabs, s, i);
      SlotInPage(s, slabs[s].cache % 8, i);
      assert SlotAddress(s, slabs[s].cache % 8, i) in SmallLive(slabs);
    }
    forall s | s in PagesOf(SmallLive(slabs))
      ensures s in slabs.Keys
    {
      var p :| p in SmallLive(slabs) && s == p / 4096;
      SmallKind(slabs, p);
    }
  }

  /** Objects of different sizes lie in different pages. */
  lemma PagesApart(slabs: Slabs, large: map<nat, nat>, p: nat, q: nat)
    requires p in SmallLive(slabs) && q in SmallLive(slabs) &&
             UsableBytes(slabs, large, p) != UsableBytes(slabs, large, q)
    ensures p / 4096 != q / 4096
  {
    SmallKind(slabs, p);
    SmallKind(slabs, q);
  }

  /** The only run of two pages in pages 2 and 3. */
  lemma TwoPageRun(b: nat)
    requires Run(b, 2) <= {2, 3} && b == Shl(Shr(b, OrderFor(2)), OrderFor(2))
    ensures b == 2
  {
    RunRange(b, 2, b);
    RunRange(b, 2, b + 1);
  }

  lemma TwoPagesWhole()
    ensures PagesNeeded(4096) == 2 && !NoRun({2, 3}, 2)
  {
    assert OrderFor(2) == 1 && Whole({2, 3}, 1, 1);
  }

  lemma TwoClasses()
    ensures ClassBytes(16) == 16 && ClassBytes(32) == 32
  {
    assert BitLength(31) == 5;
  }

  /** A live small object, and the pages that are left. */
  method SmallAlloc(h: KernelHeap, size: nat) returns (ptr: nat)
    requires h.Valid() && AllSmall(h.Live()) && 0 < size <= 32 && h.pmm.free != {}
    modifies h`large, h.pmm`freeMemory, h.pmm`usedMemory, h.pmm`free, h.pmm.lists, h.pmm.bits, h.caches
    ensures h.Valid() && h.Live() == old(h.Live()) + {ptr} && ptr % 4096 != 0 && h.Usable(ptr) == ClassBytes(size)
    ensures forall p :: p in old(h.Live()) ==> h.Usable(p) == old(h.Usable(p))
  {
    assert h.Served(0, size);
    ptr := h.Kmalloc(0, size);
    assert ptr != 0;
  }

  lemma AllSmallAdd(live: set<nat>, ptr: nat)
    requires AllSmall(live) && ptr % 4096 != 0
    ensures AllSmall(live + {ptr}) && PagesOf(live + {ptr}) == PagesOf(live) + {ptr / 4096}
  {
    forall x | x in PagesOf(live) + {ptr / 4096}
      ensures x in PagesOf(live + {ptr})
    {
      var p :| p in live + {ptr} && x == p / 4096;
    }
  }

  function OnPageTwo(a: nat, b: nat): nat {
    if a / 4096 == 2 then a else b
  }

  /** The pages of two objects of different sizes in an arena of two pages. */
  lemma BothPages(slabs: Slabs, large: map<nat, nat>, a: nat, b: nat)
    requires SmallLive(slabs) + LargeLive(large) == {a} + {b} && AllSmall({a} + {b}) && PagesOf({a} + {b}) <= {2, 3}
    requires UsableBytes(slabs, large, a) != UsableBytes(slabs, large, b)
    ensures var low, high := OnPageTwo(a, b), if OnPageTwo(a, b) == a then b else a;
            && SmallLive(slabs) + LargeLive(large) == {low, high} && AllSmall({low, high})
            && low / 4096 == 2 && high / 4096 == 3 && low != high
  {
    NoLarge(slabs, large);
    PagesApart(slabs, large, a, b);
    assert a / 4096 in PagesOf({a} + {b}) && b / 4096 in PagesOf({a} + {b});
    assert {a} + {b} == {a, b} == {b, a};
  }

  /** One object in each of two classes, one slab on page 2 and one on page 3. */
  method TwoSlabs(h: KernelHeap) returns (low: nat, high: nat)
    requires h.Valid() && h.Live() == {} && h.arena == {2, 3}
    modifies h`large, h.pmm`freeMemory, h.pmm`usedMemory, h.pmm`free, h.pmm.lists, h.pmm.bits, h.caches
    ensures h.Valid() && AllSmall(h.Live()) && h.Live() == {low, high} && low / 4096 == 2 && high / 4096 == 3 &&
            low != high
  {
    var a := FirstObject(h);
    var b := SmallAlloc(h, 32);
    TwoClasses();
    AllSmallAdd({a}, b);
    SmallOnly(h.caches.mem, h.caches.slabs, h.large, h.pmm.free, h.arena);
    BothPages(h.caches.slabs, h.large, a, b);
    low := OnPageTwo(a, b);
    high := if low == a then b else a;
  }

  /** The first object leaves one of the two pages. */
  method FirstObject(h: KernelHeap) returns (a: nat)
    requires h.Valid() && h.Live() == {} && h.arena == {2, 3}
    modifies h`large, h.pmm`freeMemory, h.pmm`usedMemory, h.pmm`free, h.pmm.lists, h.pmm.bits, h.caches
    ensures h.Valid() && h.Live() == {a} && AllSmall({a}) && h.Usable(a) == ClassBytes(16) && h.pmm.free != {}
  {
    EmptyOnValues(h.caches.mem, h.caches.slabs, h.large, h.pmm.free, h.arena);
    assert 2 in h.pmm.free;
    a := SmallAlloc(h, 16);
    OneLeft(h.caches.mem, h.caches.slabs, h.large, h.pmm.free, h.arena, a);
  }

  lemma OneLeft(mem: seq<Page>, slabs: Slabs, large: map<nat, nat>, free: set<nat>,
                arena: set<nat>, a: nat)
    requires HeapOk(mem, slabs, large, free, arena, {}) && arena == {2, 3} && a % 4096 != 0
    requires SmallLive(slabs) + LargeLive(large) == {} + {a}
    ensures {} + {a} == {a} && AllSmall({a}) && free != {}
  {
    AllSmallAdd({}, a);
    SmallOnly(mem, slabs, large, free, arena);
    assert PagesOf({} + {a}) == {a / 4096};
    assert 2 in free || 3 in free;
  }

  /** Frees a small object of a heap without large allocations. */
  method FreeSmall(h: KernelHeap, p: nat, ghost live: set<nat>, ghost free: set<nat>)
    requires h.Valid() && AllSmall(h.Live()) && p in h.Live()
    requires live == h.Live() - {p} && free == h.arena - PagesOf(live)
    modifies h`large, h.pmm`freeMemory, h.pmm`usedMemory, h.pmm`free, h.pmm.lists, h.pmm.bits, h.caches
    ensures h.Valid() && AllSmall(live) && h.Live() == live && h.arena == old(h.arena) && h.pmm.free == free
    ensures ObjectFreed(p, old(h.caches.mem), h.caches.mem, old(h.pmm.free), free)
    ensures h.ReadsAsSlab(p / 4096) <==> !Heads(free, p / 4096)
    ensures |h.caches.partial| == old(|h.caches.partial|)
  {
    NoLarge(h.caches.slabs, h.large);
    h.Kfree(p);
    SmallOnly(h.caches.mem, h.caches.slabs, h.large, h.pmm.free, h.arena);
  }

  /** Page 3 carries the header of a slab without objects. */
  ghost predicate Stale(mem: seq<Page>, registered: nat) {
    IsSlabHeader(mem, registered, 3) && mem[3].inuse == 0
  }

  /** Page 3 alone heads its block; with page 2, it lies inside a block. */
  lemma HeadOfPair()
    ensures Heads({3}, 3) && !Heads({2, 3}, 3)
  {
    assert HeadsBlock({3}, 3, 0) by {
      assert Pages(3, 0) == {3} && 2 in Pages(1, 1);
    }
    forall k: nat
      ensures !HeadsBlock({2, 3}, 3, k)
    {
      if k == 0 {
        assert Pages(1, 1) <= {2, 3};
      } else {
        assert Shl(Shr(3, k), k) == 2 * Shl(Shr(3, k), k - 1);
      }
    }
  }

  /** The release of page 3 last leaves its header, as the page lies inside a block. */
  lemma HeaderStays(mem: seq<Page>, mem': seq<Page>, registered: nat, ptr: nat)
    requires ptr / 4096 == 3 && ObjectFreed(ptr, mem, mem', {2}, {2, 3})
    requires IsSlabHeader(mem', registered, 3) <==> !Heads({2, 3}, 3)
    ensures Stale(mem', registered)
  {
    HeadOfPair();
    assert 3 in {2, 3} && 3 !in {2};
  }

  /** Its release first clears the header for good. */
  lemma HeaderGone(mem: seq<Page>, mem': seq<Page>, registered: nat, ptr: nat)
    requires ptr / 4096 == 2 && ObjectFreed(ptr, mem, mem', {3}, {2, 3}) && !IsSlabHeader(mem, registered, 3)
    ensures !IsSlabHeader(mem', registered, 3)
  {
    assert 3 < |mem| ==> PageFrame(mem[3], mem'[3], Heads({3}, 3), Heads({2, 3}, 3));
  }

  /** Frees the objects on pages 2 and 3, in either order. */
  method FreeBoth(h: KernelHeap, low: nat, high: nat, lowFirst: bool)
    requires h.Valid() && AllSmall(h.Live()) && h.Live() == {low, high} && h.arena == {2, 3}
    requires low / 4096 == 2 && high / 4096 == 3
    modifies h`large, h.pmm`freeMemory, h.pmm`usedMemory, h.pmm`free, h.pmm.lists, h.pmm.bits, h.caches
    ensures h.Valid() && h.Live() == {} && h.pmm.free == {2, 3}
    ensures if lowFirst then Stale(h.caches.mem, |h.caches.partial|) else !h.ReadsAsSlab(3)
  {
    if lowFirst {
      FreeLowFirst(h, low, high);
    } else {
      FreeHighFirst(h, low, high);
    }
  }

  method FreeLowFirst(h: KernelHeap, low: nat, high: nat)
    requires h.Valid() && AllSmall(h.Live()) && h.Live() == {low, high} && h.arena == {2, 3}
    requires low / 4096 == 2 && high / 4096 == 3
    modifies h`large, h.pmm`freeMemory, h.pmm`usedMemory, h.pmm`free, h.pmm.lists, h.pmm.bits, h.caches
    ensures h.Valid() && h.Live() == {} && h.pmm.free == {2, 3} && Stale(h.caches.mem, |h.caches.partial|)
  {
    PagesOfTwo(low, high);
    FreeSmall(h, low, {high}, {2});
    ghost var mem := h.caches.mem;
    FreeSmall(h, high, {}, {2, 3});
    HeaderStays(mem, h.caches.mem, |h.caches.partial|, high);
  }

  method FreeHighFirst(h: KernelHeap, low: nat, high: nat)
    requires h.Valid() && AllSmall(h.Live()) && h.Live() == {low, high} && h.arena == {2, 3}
    requires low / 4096 == 2 && high / 4096 == 3
    modifies h`large, h.pmm`freeMemory, h.pmm`usedMemory, h.pmm`free, h.pmm.lists, h.pmm.bits, h.caches
    ensures h.Valid() && h.Live() == {} && h.pmm.free == {2, 3} && !h.ReadsAsSlab(3)
  {
    PagesOfTwo(low, high);
    HeadOfPair();
    FreeSmall(h, high, {low}, {3});
    ghost var mem := h.caches.mem;
    FreeSmall(h, low, {}, {2, 3});
    HeaderGone(mem, h.caches.mem, |h.caches.partial|, low);
  }

  /** What is live and free between and after the two frees. */
  lemma PagesOfTwo(low: nat, high: nat)
    requires low / 4096 == 2 && high / 4096 == 3
    ensures {low, high} - {low} == {high} && {low, high} - {high} == {low}
    ensures {low} - {low} == {} && {high} - {high} == {}
    ensures {2, 3} - PagesOf({high}) == {2} && {2, 3} - PagesOf({low}) == {3} && {2, 3} - PagesOf({}) == {2, 3}
  {
    assert PagesOf({high}) == {3} && PagesOf({low}) == {2} && PagesOf({}) == {};
  }

  /** A heap of two pages, each a slab with one object. If the object on page 3 is freed last,
      the block is listed by page 2 and the header on page 3 stays; the other order clears it.
      The next allocation of one payload page takes both pages. Its payload reads as a slab
      exactly in the first case: kfree would then take the pointer for an object of that slab,
      which has none in use. */
  method StaleHeader(h: KernelHeap, lowFirst: bool) returns (ptr: nat)
    requires h.Valid() && h.Live() == {} && h.arena == {2, 3}
    modifies h`large, h.pmm`freeMemory, h.pmm`usedMemory, h.pmm`free, h.pmm.lists, h.pmm.bits, h.caches
    ensures h.Valid() && h.Live() == {ptr} && ptr in LargeLive(h.large) && ptr == 3 * 4096
    ensures Unforged(h.caches.mem, |h.caches.partial|, h.large) <==> !lowFirst
    ensures lowFirst ==> Stale(h.caches.mem, |h.caches.partial|)
  {
    var low, high := TwoSlabs(h);
    FreeBoth(h, low, high, lowFirst);
    ptr := TakeBoth(h);
  }

  /** A large allocation on an empty heap that has a run for it. */
  method LargeAlloc(h: KernelHeap, size: nat) returns (ptr: nat)
    requires h.Valid() && h.Live() == {} && 2048 < size < 0x1_0000_0000 && !NoRun(h.pmm.free, PagesNeeded(size))
    modifies h`large, h.pmm`freeMemory, h.pmm`usedMemory, h.pmm`free, h.pmm.lists, h.pmm.bits, h.caches
    ensures h.Valid() && h.Live() == {ptr} && |h.caches.partial| == old(|h.caches.partial|)
    ensures Taken(old(h.pmm.free), h.pmm.free, h.large, ptr, PagesNeeded(size))
    ensures FrameBut(old(h.caches.mem), h.caches.mem, old(h.pmm.free), h.pmm.free, TouchedPage(ptr))
  {
    assert !h.Served(0, size);
    ptr := h.Kmalloc(0, size);
    assert ptr != 0;
  }

  /** The allocation of one payload page from pages 2 and 3. */
  method TakeBoth(h: KernelHeap) returns (ptr: nat)
    requires h.Valid() && h.Live() == {} && h.pmm.free == {2, 3}
    modifies h`large, h.pmm`freeMemory, h.pmm`usedMemory, h.pmm`free, h.pmm.lists, h.pmm.bits, h.caches
    ensures h.Valid() && h.Live() == {ptr} && ptr in LargeLive(h.large) && ptr == 3 * 4096
    ensures Unforged(h.caches.mem, |h.caches.partial|, h.large) <==> !old(h.ReadsAsSlab(3))
    ensures old(Stale(h.caches.mem, |h.caches.partial|)) ==> Stale(h.caches.mem, |h.caches.partial|)
  {
    TwoPagesWhole();
    ptr := LargeAlloc(h, 4096);
    OnPageThree(h.large, h.pmm.free, h.caches.mem, ptr);
    OneRun(h.large, h.caches.slabs, ptr);
    InsideKept(old(h.caches.mem), h.caches.mem, |h.caches.partial|, h.large, h.pmm.free);
  }

  /** Page 3 heads no block before and is not free after. */
  lemma InsideKept(mem: seq<Page>, mem': seq<Page>, registered: nat, large: map<nat, nat>, free': set<nat>)
    requires FrameBut(mem, mem', {2, 3}, free', 2) && 3 !in free' && large.Keys == {2}
    ensures Unforged(mem', registered, large) <==> !IsSlabHeader(mem, registered, 3)
    ensures Stale(mem, registered) ==> Stale(mem', registered)
  {
    HeadOfPair();
    OnlyFreeHeads(free', 3);
    assert 3 < |mem| ==> PageFrame(mem[3], mem'[3], Heads({2, 3}, 3), Heads(free', 3));
    assert 2 in large;
  }

  lemma OneRun(large: map<nat, nat>, slabs: Slabs, ptr: nat)
    requires SmallLive(slabs) + LargeLive(large) == {ptr} && ptr == 3 * 4096 && 2 in large
    ensures large.Keys == {2}
  {
    forall b | b in large
      ensures b == 2
    {
      assert (b + 1) * 4096 in LargeLive(large);
    }
  }

  lemma OnPageThree(large: map<nat, nat>, free: set<nat>, mem: seq<Page>, ptr: nat)
    requires Taken({2, 3}, free, large, ptr, 2) && forall b :: b in large ==> RunOk(mem, b, large[b])
    ensures ptr == 3 * 4096 && ptr in LargeLive(large) && 2 in large && 3 !in free
  {
    var b :| b in large && ptr == (b + 1) * 4096 && large[b] == 2 && Run(b, 2) <= {2, 3};
    assert RunOk(mem, b, large[b]);
    TwoPageRun(b);
    RunRange(b, 2, b + 1);
  }
}
