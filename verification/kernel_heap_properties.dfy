/** What holds of the kernel heap between calls, over any run of kmalloc and kfree. */
module KernelHeapProperties {
  import opened Shifts
  import opened Links
  import opened BuddyBlocks
  import opened Tracking
  import opened MemoryLayout
  import opened PhysicalMemory
  import opened SlabPages
  import opened SlabCaches
  import opened KernelHeap

  // ------------------------------------------------------------------------------
  // Live memory

  /** Byte x belongs to the object in a live slot. */
  ghost predicate InSlot(slabs: Slabs, s: nat, i: nat, x: nat)
    requires s in slabs
  {
    SlotAddress(s, slabs[s].cache % 8, i) <= x < SlotAddress(s, slabs[s].cache % 8, i) + ObjSize(slabs[s].cache % 8)
  }

  lemma SlotByte(slabs: Slabs, s: nat, i: nat, x: nat)
    requires s in slabs && i < Capacity(slabs[s].cache % 8) && InSlot(slabs, s, i, x)
    ensures x / 4096 == s && x % 4096 >= HEADER_SIZE
  {
    SlotsApart(slabs[s].cache % 8, i, i);
  }

  lemma OneSlotPerByte(slabs: Slabs, s: nat, i: nat, j: nat, x: nat)
    requires s in slabs && i < Capacity(slabs[s].cache % 8) && j < Capacity(slabs[s].cache % 8)
    requires InSlot(slabs, s, i, x) && InSlot(slabs, s, j, x)
    ensures i == j
  {
    if i < j {
      SlotsApart(slabs[s].cache % 8, i, j);
    } else if j < i {
      SlotsApart(slabs[s].cache % 8, j, i);
    }
  }

  /** A byte of a live small object. */
  lemma SmallByte(slabs: Slabs, large: map<nat, nat>, p: nat, x: nat) returns (s: nat, i: nat)
    requires p in SmallLive(slabs) && p <= x < p + UsableBytes(slabs, large, p)
    ensures LiveSlot(slabs, s, i) && p == SlotAddress(s, slabs[s].cache % 8, i) && InSlot(slabs, s, i, x)
    ensures x / 4096 == s && x % 4096 >= HEADER_SIZE
  {
    s, i := SmallLiveIn(slabs, p);
    SlotByte(slabs, s, i, x);
  }

  /** A byte of a large payload lies in its run, behind the metadata page. */
  lemma LargeByte(mem: seq<Page>, slabs: Slabs, large: map<nat, nat>, free: set<nat>,
                  arena: set<nat>, p: nat, x: nat)
    returns (b: nat)
    requires HeapOk(mem, slabs, large, free, arena, {})
    requires p in LargeLive(large) && p <= x < p + UsableBytes(slabs, large, p)
    ensures b in large && p == (b + 1) * 4096 && x / 4096 in Run(b, large[b]) && x / 4096 > b
    ensures x / 4096 in RunPages(large)
  {
    b :| b in large && p == (b + 1) * 4096;
    PayloadNotSlab(mem, slabs, large, free, arena, {}, b);
    assert RunOk(mem, b, large[b]);
    assert p / 4096 == b + 1;
    RunRange(b, large[b], x / 4096);
    assert x / 4096 in Run(b, large[b]);
  }

  /** Live pointers never share a byte. */
  lemma LivePointersDisjoint(h: KernelHeap, p: nat, q: nat, x: nat)
    requires h.Valid() && p in h.Live() && q in h.Live()
    requires p <= x < p + h.Usable(p) && q <= x < q + h.Usable(q)
    ensures p == q
  {
    DisjointOnValues(h.caches.mem, h.caches.slabs, h.large, h.pmm.free, h.arena, p, q, x);
  }

  lemma DisjointOnValues(mem: seq<Page>, slabs: Slabs, large: map<nat, nat>, free: set<nat>,
                         arena: set<nat>,
                         p: nat, q: nat, x: nat)
    requires HeapOk(mem, slabs, large, free, arena, {})
    requires p in SmallLive(slabs) + LargeLive(large) && q in SmallLive(slabs) + LargeLive(large)
    requires p <= x < p + UsableBytes(slabs, large, p) && q <= x < q + UsableBytes(slabs, large, q)
    ensures p == q
  {
    if p in SmallLive(slabs) {
      var s, i := SmallByte(slabs, large, p, x);
      if q in SmallLive(slabs) {
        var t, j := SmallByte(slabs, large, q, x);
        OneSlotPerByte(slabs, s, i, j, x);
      } else {
        var b := LargeByte(mem, slabs, large, free, arena, q, x);
        assert false;
      }
    } else {
      var b := LargeByte(mem, slabs, large, free, arena, p, x);
      if q in SmallLive(slabs) {
        var t, j := SmallByte(slabs, large, q, x);
        assert false;
      } else {
        var d := LargeByte(mem, slabs, large, free, arena, q, x);
      }
    }
  }

  /** No byte of live memory is in a free page, a slab header, a free slot of a slab, or a
      metadata page. */
  lemma LiveMemoryIsPrivate(h: KernelHeap, p: nat, x: nat)
    requires h.Valid() && p in h.Live() && p <= x < p + h.Usable(p)
    ensures x / 4096 !in h.pmm.free && x / 4096 !in h.large
    ensures x / 4096 in h.caches.slabs ==>
              && x % 4096 >= HEADER_SIZE
              && forall j :: j in h.caches.slabs[x / 4096].chain && j < Capacity(h.caches.slabs[x / 4096].cache % 8) ==>
                   !InSlot(h.caches.slabs, x / 4096, j, x)
  {
    PrivateOnValues(h.caches.mem, h.caches.slabs, h.large, h.pmm.free, h.arena, p, x);
  }

  lemma PrivateOnValues(mem: seq<Page>, slabs: Slabs, large: map<nat, nat>, free: set<nat>,
                        arena: set<nat>, p: nat, x: nat)
    requires HeapOk(mem, slabs, large, free, arena, {})
    requires p in SmallLive(slabs) + LargeLive(large) && p <= x < p + UsableBytes(slabs, large, p)
    ensures x / 4096 !in free && x / 4096 !in large
    ensures x / 4096 in slabs ==>
              && x % 4096 >= HEADER_SIZE
              && forall j :: j in slabs[x / 4096].chain && j < Capacity(slabs[x / 4096].cache % 8) ==>
                   !InSlot(slabs, x / 4096, j, x)
  {
    var page := x / 4096;
    if page in large {
      MetadataOwned(mem, large, page);
    }
    if p in SmallLive(slabs) {
      var s, i := SmallByte(slabs, large, p, x);
      assert s in slabs.Keys;
      forall j | j in slabs[s].chain && j < Capacity(slabs[s].cache % 8)
        ensures !InSlot(slabs, s, j, x)
      {
        if InSlot(slabs, s, j, x) {
          OneSlotPerByte(slabs, s, i, j, x);
        }
      }
    } else {
      var b := LargeByte(mem, slabs, large, free, arena, p, x);
      assert b != page && page !in slabs.Keys;
    }
  }

  /** Stores to live memory and to pages outside the arena may change any other word: the heap
      does not depend on them. */
  method ForeignStores(h: KernelHeap, mem: seq<Page>, next: seq<int>, prev: seq<int>)
    requires h.Valid() && |mem| == |next| == |prev| == |h.caches.mem|
    requires forall s :: s in h.caches.slabs && s < |mem| ==> next[s] == h.caches.next[s] && prev[s] == h.caches.prev[s]
    requires forall s :: s in h.caches.slabs && s < |mem| ==> SameSlabWords(h.caches.mem[s], mem[s], h.caches.slabs[s])
    requires forall b :: b in h.large && b < |mem| ==>
               mem[b].magic == h.caches.mem[b].magic && mem[b].metaPages == h.caches.mem[b].metaPages
    modifies h.caches`mem, h.caches`next, h.caches`prev
    ensures h.Valid() && h.Live() == old(h.Live())
    ensures h.caches.slabs == old(h.caches.slabs) && h.large == old(h.large) && h.arena == old(h.arena)
    ensures forall p :: p in h.Live() ==> h.Usable(p) == old(h.Usable(p))
  {
    h.caches.ForeignStores(mem, next, prev);
    PmmUnchanged(h.pmm);
    RunsSurvive(old(h.caches.mem), mem, h.large);
  }

  lemma RunsSurvive(mem: seq<Page>, mem': seq<Page>, large: map<nat, nat>)
    requires |mem'| == |mem| && forall b :: b in large ==> RunOk(mem, b, large[b])
    requires forall b :: b in large && b < |mem| ==>
               mem'[b].magic == mem[b].magic && mem'[b].metaPages == mem[b].metaPages
    ensures forall b :: b in large ==> RunOk(mem', b, large[b])
  {
    forall b | b in large
      ensures RunOk(mem', b, large[b])
    {
      assert RunOk(mem, b, large[b]);
    }
  }

  // ------------------------------------------------------------------------------
  // Other users of the page allocator

  lemma ArenaShrinks(mem: seq<Page>, slabs: Slabs, large: map<nat, nat>, free: set<nat>,
                     arena: set<nat>,
                     taken: set<nat>)
    requires HeapOk(mem, slabs, large, free, arena, {}) && taken <= free
    ensures HeapOk(mem, slabs, large, free - taken, arena - taken, {})
    ensures taken == {} ==> free - taken == free && arena - taken == arena
  {
  }

  lemma ArenaGrows(mem: seq<Page>, slabs: Slabs, large: map<nat, nat>, free: set<nat>,
                   arena: set<nat>,
                   given: set<nat>)
    requires HeapOk(mem, slabs, large, free, arena, {}) && given !! arena
    ensures HeapOk(mem, slabs, large, free + given, arena + given, {})
  {
  }

  /** Pages that another user, such as paging, takes from the same allocator leave the arena;
      the heap and its pointers are as before. */
  method ForeignAlloc(h: KernelHeap, num: nat) returns (ptr: nat)
    requires h.Valid()
    modifies h`arena, h.pmm`freeMemory, h.pmm`usedMemory, h.pmm`free, h.pmm.lists, h.pmm.bits, h.caches`mem
    ensures h.Valid() && h.caches.slabs == old(h.caches.slabs) && h.large == old(h.large)
    ensures ptr == 0 <==> NoRun(old(h.pmm.free), num)
    ensures ptr == 0 ==> h.pmm.free == old(h.pmm.free) && h.arena == old(h.arena)
    ensures ptr != 0 ==>
              && OrderFor(num) <= MAX_ORDER && PageAligned(ptr) && Run(PfnOf(ptr), num) <= old(h.pmm.free)
              && PfnOf(ptr) == Shl(Shr(PfnOf(ptr), OrderFor(num)), OrderFor(num))
              && h.pmm.free == old(h.pmm.free) - Run(PfnOf(ptr), num)
              && h.arena == old(h.arena) - Run(PfnOf(ptr), num)
    ensures Frame(old(h.caches.mem), h.caches.mem, old(h.pmm.free), h.pmm.free)
  {
    var b := h.TakePages(num);
    SinglePage(b);
    ptr := b * 4096;
    ghost var taken := if b == 0 then {} else Run(b, num);
    ArenaShrinks(h.caches.mem, h.caches.slabs, h.large, old(h.pmm.free), h.arena, taken);
    SetArena(h, h.arena - taken);
  }

  /** And pages it gives back, none of them of the heap, join the arena. */
  method ForeignFree(h: KernelHeap, ptr: nat, num: nat)
    requires h.Valid() && ptr != 0 && OrderFor(num) <= MAX_ORDER && h.pmm.Freeable(PfnOf(ptr), OrderFor(num))
    requires Run(PfnOf(ptr), num) !! h.arena
    modifies h`arena, h.pmm`freeMemory, h.pmm`usedMemory, h.pmm`free, h.pmm.lists, h.pmm.bits, h.caches`mem
    ensures h.Valid() && h.caches.slabs == old(h.caches.slabs) && h.large == old(h.large)
    ensures h.pmm.free == old(h.pmm.free) + Run(PfnOf(ptr), num) && h.arena == old(h.arena) + Run(PfnOf(ptr), num)
    ensures Frame(old(h.caches.mem), h.caches.mem, old(h.pmm.free), h.pmm.free)
  {
    ArenaGrows(h.caches.mem, h.caches.slabs, h.large, h.pmm.free, h.arena, Run(PfnOf(ptr), num));
    GivePages(h, ptr, num);
    SetArena(h, h.arena + Run(PfnOf(ptr), num));
    h.StoreNodes(old(h.pmm.free), h.pmm.free);
  }

  /** free_pages beside the heap. */
  method GivePages(h: KernelHeap, ptr: nat, num: nat)
    requires h.pmm.Valid() && h.caches.Valid()
    requires ptr != 0 && OrderFor(num) <= MAX_ORDER && h.pmm.Freeable(PfnOf(ptr), OrderFor(num))
    modifies h.pmm`freeMemory, h.pmm`usedMemory, h.pmm`free, h.pmm.lists, h.pmm.bits
    ensures h.pmm.Valid() && h.caches.Valid() && h.caches.mem == old(h.caches.mem)
    ensures h.caches.slabs == old(h.caches.slabs) && h.large == old(h.large) && h.arena == old(h.arena)
    ensures h.pmm.free == old(h.pmm.free) + Run(PfnOf(ptr), num)
    ensures StoredHeads(h.pmm.lists.record.stored, old(h.pmm.free), h.pmm.free)
  {
    h.pmm.FreePages(ptr, num);
    CachesUnchanged(h.caches);
  }

  method SetArena(h: KernelHeap, ghost arena: set<nat>)
    requires h.pmm.Valid() && h.caches.Valid() && |h.caches.mem| == h.pmm.pages && |h.caches.partial| >= NUM_CLASSES
    requires HeapOk(h.caches.mem, h.caches.slabs, h.large, h.pmm.free, arena, {})
    modifies h`arena
    ensures h.Valid() && h.arena == arena && h.caches.slabs == old(h.caches.slabs) && h.large == old(h.large)
    ensures h.pmm.free == old(h.pmm.free) && h.caches.mem == old(h.caches.mem)
  {
    h.arena := arena;
    PmmUnchanged(h.pmm);
    CachesUnchanged(h.caches);
  }

  // ------------------------------------------------------------------------------
  // Slabs between calls

  /** Every slab has an object in use; its free list is a repetition-free chain of exactly
      the other slots, none of them live; and it is on the partial list of its cache, once,
      exactly when it has a free slot. */
  lemma SlabFacts(h: KernelHeap, s: nat)
    requires h.Valid() && s in h.caches.slabs
    ensures var slab, page := h.caches.slabs[s], h.caches.mem[s];
            && 0 < page.inuse <= page.maxObjs == Capacity(slab.cache % 8)
            && |slab.chain| == page.maxObjs - page.inuse
            && slab.cache < |h.caches.lists|
            && (s in h.caches.lists[slab.cache] <==> page.inuse < page.maxObjs)
            && NoDuplicates(h.caches.lists[slab.cache])
    ensures forall c: nat :: c < |h.caches.lists| && c != h.caches.slabs[s].cache ==> s !in h.caches.lists[c]
  {
    var slab := h.caches.slabs[s];
    assert ShapeOk(h.caches.mem, |h.caches.partial|, h.caches.slabs, s);
    assert s in h.caches.lists[slab.cache] <==> Partial(h.caches.slabs, slab.cache, s);
    forall c: nat | c < |h.caches.lists| && c != slab.cache
      ensures s !in h.caches.lists[c]
    {
      assert s in h.caches.lists[c] <==> Partial(h.caches.slabs, c, s);
    }
  }

  /** A slot of a slab is live or on the free list, never both. */
  lemma SlotLiveOrFree(slabs: Slabs, s: nat, i: nat)
    requires s in slabs && i < Capacity(slabs[s].cache % 8)
    ensures i in slabs[s].chain <==> SlotAddress(s, slabs[s].cache % 8, i) !in SmallLive(slabs)
  {
    SmallLiveAt(slabs, s, i);
  }

  // ------------------------------------------------------------------------------
  // Routing

  /** No payload of a large allocation reads as a slab header. */
  ghost predicate Unforged(mem: seq<Page>, registered: nat, large: map<nat, nat>) {
    forall b :: b in large ==> !IsSlabHeader(mem, registered, b + 1)
  }

  /** kfree finds the allocator of every live pointer exactly when no first payload page of
      a large allocation carries the slab magic and a registered cache: small objects are
      never misrouted, and the page after a metadata page is never a slab. */
  lemma RoutingExact(h: KernelHeap)
    requires h.Valid()
    ensures (forall p :: p in h.Live() ==> (h.ReadsAsSlab(PfnOf(p)) <==> p in SmallLive(h.caches.slabs)))
       <==> Unforged(h.caches.mem, |h.caches.partial|, h.large)
  {
    SmallRoutes(h.caches.mem, |h.caches.partial|, h.caches.slabs);
    RoutesOnValues(h.caches.mem, |h.caches.partial|, h.caches.slabs, h.large, h.pmm.free, h.arena);
  }

  lemma SmallRoutes(mem: seq<Page>, registered: nat, slabs: Slabs)
    requires ShapesOk(mem, registered, slabs)
    ensures forall p :: p in SmallLive(slabs) ==> IsSlabHeader(mem, registered, PfnOf(p))
  {
    forall p | p in SmallLive(slabs)
      ensures IsSlabHeader(mem, registered, PfnOf(p))
    {
      var s, i := SmallLiveIn(slabs, p);
      assert ShapeOk(mem, registered, slabs, s);
    }
  }

  lemma RoutesOnValues(mem: seq<Page>, registered: nat, slabs: Slabs, large: map<nat, nat>,
                       free: set<nat>,
                       arena: set<nat>)
    requires HeapOk(mem, slabs, large, free, arena, {})
    requires forall p :: p in SmallLive(slabs) ==> IsSlabHeader(mem, registered, PfnOf(p))
    ensures (forall p :: p in SmallLive(slabs) + LargeLive(large) ==>
                (IsSlabHeader(mem, registered, PfnOf(p)) <==> p in SmallLive(slabs)))
       <==> Unforged(mem, registered, large)
  {
    forall b | b in large
      ensures (b + 1) * 4096 in LargeLive(large) && (b + 1) * 4096 !in SmallLive(slabs) &&
              PfnOf((b + 1) * 4096) == b + 1
    {
      LargeNotSmall(slabs, b);
      PayloadPage(b);
    }
  }

  lemma PayloadPage(b: nat)
    ensures PfnOf((b + 1) * 4096) == b + 1
  {
  }

  // ------------------------------------------------------------------------------
  // Giving everything back

  /** With nothing live, the heap holds no page. */
  lemma NothingLiveNothingHeld(h: KernelHeap)
    requires h.Valid() && h.Live() == {}
    ensures h.caches.slabs == map[] && h.large == map[] && h.pmm.free == h.arena
  {
    EmptyOnValues(h.caches.mem, h.caches.slabs, h.large, h.pmm.free, h.arena);
  }

  lemma EmptyOnValues(mem: seq<Page>, slabs: Slabs, large: map<nat, nat>, free: set<nat>,
                      arena: set<nat>)
    requires HeapOk(mem, slabs, large, free, arena, {}) && SmallLive(slabs) + LargeLive(large) == {}
    ensures slabs == map[] && large == map[] && free == arena
  {
    assert forall b :: b in large ==> (b + 1) * 4096 in LargeLive(large);
    assert large.Keys == {};
    forall s: nat
      ensures s !in slabs
    {
      if s in slabs {
        var i := SomeSlotNotIn(slabs[s].chain, Capacity(slabs[s].cache % 8));
        SmallLiveAt(slabs, s, i);
      }
    }
    assert slabs.Keys == {} && RunPages(large) == {};
  }

  /** A chain shorter than the slab leaves a slot out. */
  lemma {:induction false} SomeSlotNotIn(chain: seq<nat>, cap: nat) returns (i: nat)
    requires |chain| < cap
    ensures i < cap && i !in chain
    decreases cap
  {
    if cap - 1 !in chain {
      i := cap - 1;
    } else {
      var n :| 0 <= n < |chain| && chain[n] == cap - 1;
      var rest := chain[..n] + chain[n + 1..];
      i := SomeSlotNotIn(rest, cap - 1);
      assert forall j :: j in chain ==> j in rest || j == cap - 1;
    }
  }

  /** Frees every live pointer, in the order given: the page allocator ends up with the
      pages it would have without the heap, and so with the same blocks and counters. */
  method FreeAll(h: KernelHeap, ptrs: seq<nat>)
    requires h.Valid() && NoDuplicates(ptrs) && Rest(ptrs, 0) == h.Live()
    requires Unforged(h.caches.mem, |h.caches.partial|, h.large)
    modifies h`large, h.pmm`freeMemory, h.pmm`usedMemory, h.pmm`free, h.pmm.lists, h.pmm.bits, h.caches
    ensures h.Valid() && h.Live() == {} && h.pmm.free == h.arena
  {
    FreeEach(h, ptrs);
    NothingLiveNothingHeld(h);
  }

  method FreeEach(h: KernelHeap, ptrs: seq<nat>)
    requires h.Valid() && NoDuplicates(ptrs) && Rest(ptrs, 0) == h.Live()
    requires Unforged(h.caches.mem, |h.caches.partial|, h.large)
    modifies h`large, h.pmm`freeMemory, h.pmm`usedMemory, h.pmm`free, h.pmm.lists, h.pmm.bits, h.caches
    ensures h.Valid() && h.Live() == {}
  {
    for n := 0 to |ptrs|
      invariant h.Valid() && h.Live() == Rest(ptrs, n)
      invariant Unforged(h.caches.mem, |h.caches.partial|, h.large)
    {
      RestStep(ptrs, n);
      FreeOne(h, ptrs[n]);
    }
    assert Rest(ptrs, |ptrs|) == {};
  }

  /** The pointers from the n-th on. */
  ghost function Rest(ptrs: seq<nat>, n: nat): set<nat>
    requires n <= |ptrs|
  {
    set p | p in ptrs[n..]
  }

  lemma RestStep(ptrs: seq<nat>, n: nat)
    requires NoDuplicates(ptrs) && n < |ptrs|
    ensures ptrs[n] in Rest(ptrs, n) && Rest(ptrs, n + 1) == Rest(ptrs, n) - {ptrs[n]}
  {
    assert ptrs[n..] == [ptrs[n]] + ptrs[n + 1..];
  }

  /** kfree of one of several live pointers. */
  method FreeOne(h: KernelHeap, p: nat)
    requires h.Valid() && p in h.Live() && Unforged(h.caches.mem, |h.caches.partial|, h.large)
    modifies h`large, h.pmm`freeMemory, h.pmm`usedMemory, h.pmm`free, h.pmm.lists, h.pmm.bits, h.caches
    ensures h.Valid() && h.Live() == old(h.Live()) - {p}
    ensures Unforged(h.caches.mem, |h.caches.partial|, h.large)
  {
    FreePreconditions(h.caches.mem, h.caches.slabs, |h.caches.partial|, h.large, p);
    h.Kfree(p);
    StaysUnforged(old(h.caches.mem), h.caches.mem, old(h.caches.slabs), h.caches.slabs, old(h.large), h.large,
                  old(h.pmm.free), h.pmm.free, h.arena, |h.caches.partial|, p);
  }

  lemma FreePreconditions(mem: seq<Page>, slabs: Slabs, registered: nat, large: map<nat, nat>,
                          p: nat)
    requires p in SmallLive(slabs) + LargeLive(large) && Unforged(mem, registered, large)
    ensures p != 0 && (p in LargeLive(large) ==> !IsSlabHeader(mem, registered, PfnOf(p)))
  {
    if p in SmallLive(slabs) {
      var s, i := SmallLiveIn(slabs, p);
      SmallNotLarge(s, slabs[s].cache % 8, i, map[]);
    }
    if p in LargeLive(large) {
      var b :| b in large && p == (b + 1) * 4096;
      assert PfnOf(p) == b + 1;
    }
  }

  /** The free of one pointer leaves the other payloads as they are. */
  lemma StaysUnforged(mem: seq<Page>, mem': seq<Page>, slabs: Slabs, slabs': Slabs, large: map<nat, nat>,
                      large': map<nat, nat>, free: set<nat>, free': set<nat>, arena: set<nat>, registered: nat,
                      p: nat)
    requires HeapOk(mem, slabs, large, free, arena, {}) && HeapOk(mem', slabs', large', free', arena, {})
    requires Unforged(mem, registered, large) && p in SmallLive(slabs) + LargeLive(large)
    requires SmallLive(slabs') + LargeLive(large') == SmallLive(slabs) + LargeLive(large) - {p}
    requires p in SmallLive(slabs) ==> ObjectFreed(p, mem, mem', free, free') && large' == large
    requires p in LargeLive(large) ==> RunFreed(p, large, large', free, free') && Frame(mem, mem', free, free')
    ensures Unforged(mem', registered, large')
  {
    OtherPages(mem, slabs, SmallLive(slabs'), large, large', free, arena, p);
    PayloadNotFree(mem, slabs, large, free, arena);
    PayloadNotFree(mem', slabs', large', free', arena);
    PayloadsKept(mem, mem', registered, large', free, free', if p in SmallLive(slabs) then p / 4096 else -1);
  }

  lemma PayloadsKept(mem: seq<Page>, mem': seq<Page>, registered: nat, large: map<nat, nat>, free: set<nat>,
                     free': set<nat>, page: int)
    requires Unforged(mem, registered, large) && FrameBut(mem, mem', free, free', page)
    requires forall b :: b in large ==> b + 1 != page && b + 1 !in free && b + 1 !in free'
    ensures Unforged(mem', registered, large)
  {
    forall b | b in large
      ensures !IsSlabHeader(mem', registered, b + 1)
    {
      assert !IsSlabHeader(mem, registered, b + 1);
      NotFreeKept(mem, mem', free, free', page, b + 1);
    }
  }

  lemma NotFreeKept(mem: seq<Page>, mem': seq<Page>, free: set<nat>, free': set<nat>, page: int, x: nat)
    requires FrameBut(mem, mem', free, free', page) && x != page && x !in free && x !in free'
    ensures x < |mem| ==> mem'[x] == mem[x]
  {
    OnlyFreeHeads(free, x);
    OnlyFreeHeads(free', x);
    assert x < |mem| ==> PageFrame(mem[x], mem'[x], Heads(free, x), Heads(free', x));
  }

  lemma OnlyFreeHeads(free: set<nat>, p: nat)
    ensures p !in free ==> !Heads(free, p)
  {
    if Heads(free, p) {
      HeadsAreFree(free, p);
    }
  }

  lemma PayloadNotFree(mem: seq<Page>, slabs: Slabs, large: map<nat, nat>, free: set<nat>, arena: set<nat>)
    requires HeapOk(mem, slabs, large, free, arena, {})
    ensures forall b :: b in large ==> b + 1 !in free
  {
    forall b | b in large
      ensures b + 1 !in free
    {
      PayloadNotSlab(mem, slabs, large, free, arena, {}, b);
      assert b + 1 in RunPages(large);
    }
  }

  lemma OtherPages(mem: seq<Page>, slabs: Slabs, small': set<nat>, large: map<nat, nat>,
                   large': map<nat, nat>,
                   free: set<nat>, arena: set<nat>, p: nat)
    requires HeapOk(mem, slabs, large, free, arena, {}) && forall b :: b in large' ==> b in large
    requires p in SmallLive(slabs) + LargeLive(large)
    requires small' + LargeLive(large') == SmallLive(slabs) + LargeLive(large) - {p}
    ensures forall b :: b in large' ==> b + 1 != PfnOf(p)
  {
    forall b | b in large'
      ensures b + 1 != PfnOf(p)
    {
      assert p != (b + 1) * 4096 by {
        assert (b + 1) * 4096 in LargeLive(large');
      }
      OtherPage(mem, slabs, large, free, arena, b, p);
    }
  }

  /** The payload page of another allocation is not the page of p. */
  lemma OtherPage(mem: seq<Page>, slabs: Slabs, large: map<nat, nat>, free: set<nat>,
                  arena: set<nat>, b: nat, p: nat)
    requires HeapOk(mem, slabs, large, free, arena, {}) && b in large
    requires p in SmallLive(slabs) + LargeLive(large) && p != (b + 1) * 4096
    ensures PfnOf(p) != b + 1
  {
    PayloadNotSlab(mem, slabs, large, free, arena, {}, b);
    if p in SmallLive(slabs) {
      var s, i := SmallLiveIn(slabs, p);
    } else {
      var d :| d in large && p == (d + 1) * 4096;
      PayloadPage(d);
    }
  }
}
