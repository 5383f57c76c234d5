/** kmalloc and kfree: small sizes from the caches of the calling core, large ones as
    page runs with a metadata page in front. Both take their pages from the physical
    memory manager and give them back to it. */
module KernelHeap {
  import opened Shifts
  import opened Links
  import opened MemoryLayout
  import opened BuddyBlocks
  import opened Tracking
  import opened PhysicalMemory
  import opened SlabPages
  import opened SlabCaches

  /** The page run of a large allocation, from its metadata page on. */
  function Run(b: nat, pages: nat): set<nat> {
    Pages(Shr(b, OrderFor(pages)), OrderFor(pages))
  }

  ghost function RunPages(large: map<nat, nat>): set<nat> {
    set b, x | b in large && x in Run(b, large[b]) :: x
  }

  /** Free pages, slab pages and page runs are disjoint, and together are the arena. */
  ghost predicate OwnOk(free: set<nat>, slabs: set<nat>, large: map<nat, nat>, arena: set<nat>) {
    && free !! slabs && free !! RunPages(large) && slabs !! RunPages(large)
    && (forall b, d :: b in large && d in large && b != d ==> Run(b, large[b]) !! Run(d, large[d]))
    && arena == free + slabs + RunPages(large)
  }

  lemma OwnSlabIn(free: set<nat>, slabs: set<nat>, large: map<nat, nat>, arena: set<nat>, s: nat)
    requires OwnOk(free, slabs, large, arena) && s in free
    ensures OwnOk(free - {s}, slabs + {s}, large, arena)
  {
  }

  lemma OwnSlabOut(free: set<nat>, slabs: set<nat>, large: map<nat, nat>, arena: set<nat>, s: nat)
    requires OwnOk(free, slabs, large, arena) && s in slabs
    ensures OwnOk(free + {s}, slabs - {s}, large, arena)
  {
  }

  lemma RunPagesAdd(large: map<nat, nat>, b: nat, pages: nat)
    requires b !in large
    ensures RunPages(large[b := pages]) == RunPages(large) + Run(b, pages)
  {
    var large' := large[b := pages];
    forall x | x in Run(b, pages)
      ensures x in RunPages(large')
    {
      assert b in large' && x in Run(b, large'[b]);
    }
    forall x | x in RunPages(large)
      ensures x in RunPages(large')
    {
      var d :| d in large && x in Run(d, large[d]);
      assert d in large' && x in Run(d, large'[d]);
    }
  }

  lemma OwnRunIn(free: set<nat>, slabs: set<nat>, large: map<nat, nat>, arena: set<nat>, b: nat,
                 pages: nat)
    requires OwnOk(free, slabs, large, arena) && Run(b, pages) <= free && b !in large
    ensures OwnOk(free - Run(b, pages), slabs, large[b := pages], arena)
  {
    RunPagesAdd(large, b, pages);
    forall d | d in large
      ensures Run(d, large[d]) !! Run(b, pages)
    {
      forall x | x in Run(d, large[d])
        ensures x !in Run(b, pages)
      {
        assert x in RunPages(large);
      }
    }
  }

  lemma OwnRunOut(free: set<nat>, slabs: set<nat>, large: map<nat, nat>, arena: set<nat>, b: nat)
    requires OwnOk(free, slabs, large, arena) && b in large
    ensures Run(b, large[b]) !! free
    ensures OwnOk(free + Run(b, large[b]), slabs, large - {b}, arena)
  {
    var rest := large - {b};
    RunPagesAdd(rest, b, large[b]);
    assert rest[b := large[b]] == large;
    forall x | x in Run(b, large[b])
      ensures x !in RunPages(rest) && x !in free && x !in slabs
    {
      assert x in RunPages(large);
    }
  }

  /** pages_needed in kmalloc, in 64-bit arithmetic. */
  function PagesNeeded(size: nat): nat {
    Wrap(size + 4095) / 4096 + 1
  }

  /** One metadata page and the fewest pages of payload that suffice, exactly for the sizes whose
      rounding does not overflow. */
  lemma PagesNeededIff(size: nat)
    requires 0 < size < ADDRESS_LIMIT
    ensures 4096 * (PagesNeeded(size) - 1) >= size <==> size + 4095 < ADDRESS_LIMIT
    ensures size + 4095 < ADDRESS_LIMIT ==> PagesNeeded(size) >= 2 && 4096 * (PagesNeeded(size) - 2) < size
  {
  }

  lemma TwoPages(size: nat)
    requires 0 < size <= 2048
    ensures PagesNeeded(size) == 2
  {
  }

  // ------------------------------------------------------------------------------
  // Live pointers

  ghost function SmallLive(slabs: Slabs): set<nat> {
    set s, i | s in slabs && 0 <= i < Capacity(slabs[s].cache % 8) && i !in slabs[s].chain
      :: SlotAddress(s, slabs[s].cache % 8, i)
  }

  ghost function LargeLive(large: map<nat, nat>): set<nat> {
    set b | b in large :: (b + 1) * 4096
  }

  ghost predicate LiveSlot(slabs: Slabs, s: nat, i: nat) {
    s in slabs && i < Capacity(slabs[s].cache % 8) && i !in slabs[s].chain
  }

  lemma SmallLiveIs(slabs: Slabs, p: nat)
    ensures p in SmallLive(slabs) <==>
              exists s: nat, i: nat :: LiveSlot(slabs, s, i) && p == SlotAddress(s, slabs[s].cache % 8, i)
  {
    if s: nat, i: nat :| LiveSlot(slabs, s, i) && p == SlotAddress(s, slabs[s].cache % 8, i) {
      assert s in slabs && 0 <= i < Capacity(slabs[s].cache % 8) && i !in slabs[s].chain;
    }
    if p in SmallLive(slabs) {
      var s, i :| s in slabs && 0 <= i < Capacity(slabs[s].cache % 8) && i !in slabs[s].chain
                  && p == SlotAddress(s, slabs[s].cache % 8, i);
      assert LiveSlot(slabs, s, i);
    }
  }

  /** Liveness of a slot of slab s is read off its chain. */
  lemma SmallLiveAt(slabs: Slabs, s: nat, i: nat)
    requires s in slabs && i < Capacity(slabs[s].cache % 8)
    ensures SlotAddress(s, slabs[s].cache % 8, i) in SmallLive(slabs) <==> i !in slabs[s].chain
  {
    var k := slabs[s].cache % 8;
    var p := SlotAddress(s, k, i);
    SlotInPage(s, k, i);
    SmallLiveIs(slabs, p);
    if p in SmallLive(slabs) {
      var x: nat, j: nat :| LiveSlot(slabs, x, j) && p == SlotAddress(x, slabs[x].cache % 8, j);
      SlotInPage(x, slabs[x].cache % 8, j);
      SlotsApart(k, i, j);
    } else {
      assert !LiveSlot(slabs, s, i);
    }
  }

  /** Every live pointer into page s is a slot of slab s. */
  lemma SmallLiveIn(slabs: Slabs, p: nat) returns (s: nat, i: nat)
    requires p in SmallLive(slabs)
    ensures LiveSlot(slabs, s, i) && p == SlotAddress(s, slabs[s].cache % 8, i) && p / 4096 == s
  {
    SmallLiveIs(slabs, p);
    s, i :| LiveSlot(slabs, s, i) && p == SlotAddress(s, slabs[s].cache % 8, i);
    SlotInPage(s, slabs[s].cache % 8, i);
  }

  /** Two states of slab s that differ in one slot differ in one live pointer. */
  lemma OneSlot(slabs: Slabs, s: nat, chain: seq<nat>, i: nat)
    requires s in slabs && i < Capacity(slabs[s].cache % 8) && i !in slabs[s].chain
    requires forall j :: j in chain <==> j in slabs[s].chain || j == i
    ensures SmallLive(slabs[s := Slab(slabs[s].cache, chain)])
         == SmallLive(slabs) - {SlotAddress(s, slabs[s].cache % 8, i)}
    ensures SlotAddress(s, slabs[s].cache % 8, i) in SmallLive(slabs)
  {
    var k, slabs' := slabs[s].cache % 8, slabs[s := Slab(slabs[s].cache, chain)];
    var a := SlotAddress(s, k, i);
    SmallLiveAt(slabs, s, i);
    SmallLiveAt(slabs', s, i);
    forall p | p in SmallLive(slabs')
      ensures p in SmallLive(slabs) - {a}
    {
      var x, j := SmallLiveIn(slabs', p);
      assert LiveSlot(slabs, x, j);
      SmallLiveAt(slabs, x, j);
    }
    forall p | p in SmallLive(slabs) - {a}
      ensures p in SmallLive(slabs')
    {
      var x, j := SmallLiveIn(slabs, p);
      SmallLiveAt(slabs', x, j);
    }
  }

  /** A slab without live slots contributes nothing. */
  lemma NoSlot(slabs: Slabs, s: nat, c: nat, chain: seq<nat>)
    requires s !in slabs && forall j: nat :: j < Capacity(c % 8) ==> j in chain
    ensures SmallLive(slabs[s := Slab(c, chain)]) == SmallLive(slabs)
  {
    var slabs' := slabs[s := Slab(c, chain)];
    forall p | p in SmallLive(slabs')
      ensures p in SmallLive(slabs)
    {
      var x, j := SmallLiveIn(slabs', p);
      SmallLiveAt(slabs, x, j);
    }
    forall p | p in SmallLive(slabs)
      ensures p in SmallLive(slabs')
    {
      var x, j := SmallLiveIn(slabs, p);
      SmallLiveAt(slabs', x, j);
    }
  }

  // ------------------------------------------------------------------------------
  // The heap

  /** A large allocation whose metadata page is b. */
  ghost predicate RunOk(mem: seq<Page>, b: nat, pages: nat) {
    && pages >= 2 && OrderFor(pages) <= MAX_ORDER
    && b == Shl(Shr(b, OrderFor(pages)), OrderFor(pages))
    && (forall x :: x in Run(b, pages) ==> 0 < x < |mem|)
    && 0 < b < |mem| && mem[b].magic == BYPASS_MAGIC && mem[b].metaPages == pages
  }

  /** A page that carries the slab magic and a registered cache. */
  predicate IsSlabHeader(mem: seq<Page>, registered: nat, page: nat) {
    page < |mem| && mem[page].magic == SLAB_MAGIC && 0 <= mem[page].cache < registered
  }

  /** What ties slabs, large allocations and free pages together. The idle slabs may have
      no object in use. */
  ghost predicate HeapOk(mem: seq<Page>, slabs: Slabs, large: map<nat, nat>, free: set<nat>, arena: set<nat>,
                         idle: set<nat>) {
    && (forall s :: s in slabs && s !in idle ==> |slabs[s].chain| < Capacity(slabs[s].cache % 8))
    && (forall b :: b in large ==> RunOk(mem, b, large[b]))
    && OwnOk(free, slabs.Keys, large, arena)
  }

  /** A metadata page belongs to its run. */
  lemma MetadataOwned(mem: seq<Page>, large: map<nat, nat>, b: nat)
    requires b in large && RunOk(mem, b, large[b])
    ensures b in Run(b, large[b]) && b in RunPages(large)
  {
    BlockHasPage(Shr(b, OrderFor(large[b])), OrderFor(large[b]));
    assert b in Run(b, large[b]);
  }

  /** Stores to pages that hold no metadata keep the large allocations. */
  lemma RunsKeep(mem: seq<Page>, mem': seq<Page>, large: map<nat, nat>, s: nat)
    requires |mem'| == |mem| && s !in RunPages(large)
    requires forall x :: 0 <= x < |mem| && x != s ==> mem'[x] == mem[x]
    requires forall b :: b in large ==> RunOk(mem, b, large[b])
    ensures forall b :: b in large ==> RunOk(mem', b, large[b])
  {
    forall b | b in large
      ensures RunOk(mem', b, large[b])
    {
      assert RunOk(mem, b, large[b]);
      MetadataOwned(mem, large, b);
    }
  }

  lemma HeapRefill(mem: seq<Page>, mem': seq<Page>, slabs: Slabs, large: map<nat, nat>,
                   free: set<nat>, arena: set<nat>,
                   s: nat, slab: Slab)
    requires HeapOk(mem, slabs, large, free, arena, {}) && s in free && |mem'| == |mem|
    requires forall x :: 0 <= x < |mem| && x != s ==> mem'[x] == mem[x]
    ensures s !in slabs
    ensures HeapOk(mem', slabs[s := slab], large, free - {s}, arena, {s})
  {
    OwnSlabIn(free, slabs.Keys, large, arena, s);
    RunsKeep(mem, mem', large, s);
    assert slabs[s := slab].Keys == slabs.Keys + {s};
  }

  lemma HeapRechain(mem: seq<Page>, mem': seq<Page>, slabs: Slabs, large: map<nat, nat>,
                    free: set<nat>, arena: set<nat>,
                    idle: set<nat>, s: nat, chain: seq<nat>)
    requires HeapOk(mem, slabs, large, free, arena, idle) && s in slabs && |mem'| == |mem| && idle <= {s}
    requires forall x :: 0 <= x < |mem| && x != s ==> mem'[x] == mem[x]
    ensures HeapOk(mem', slabs[s := Slab(slabs[s].cache, chain)], large, free, arena, {s})
    ensures |chain| < Capacity(slabs[s].cache % 8) ==>
              HeapOk(mem', slabs[s := Slab(slabs[s].cache, chain)], large, free, arena, {})
  {
    RunsKeep(mem, mem', large, s);
    assert slabs[s := Slab(slabs[s].cache, chain)].Keys == slabs.Keys;
  }

  lemma HeapDrop(mem: seq<Page>, slabs: Slabs, large: map<nat, nat>, free: set<nat>,
                 arena: set<nat>, s: nat)
    requires HeapOk(mem, slabs, large, free, arena, {s}) && s in slabs
    ensures s !in free
    ensures HeapOk(mem, slabs - {s}, large, free + {s}, arena, {})
  {
    OwnSlabOut(free, slabs.Keys, large, arena, s);
    assert (slabs - {s}).Keys == slabs.Keys - {s};
  }

  /** The refill step on values. */
  lemma AfterRefill(mem: seq<Page>, mem': seq<Page>, slabs: Slabs, slabs': Slabs,
                    large: map<nat, nat>, free: set<nat>,
                    arena: set<nat>, s: nat, c: nat)
    requires HeapOk(mem, slabs, large, free, arena, {}) && s in free && |mem'| == |mem|
    requires forall x :: 0 <= x < |mem| && x != s ==> mem'[x] == mem[x]
    requires slabs' == slabs[s := Slab(c, AllSlots(Capacity(c % 8)))]
    ensures HeapOk(mem', slabs', large, free - {s}, arena, {s})
    ensures SmallLive(slabs') == SmallLive(slabs)
  {
    HeapRefill(mem, mem', slabs, large, free, arena, s, slabs'[s]);
    var chain := AllSlots(Capacity(c % 8));
    forall j: nat | j < Capacity(c % 8)
      ensures j in chain
    {
      assert chain[j] == j;
    }
    NoSlot(slabs, s, c, chain);
  }

  /** The pop step on values. */
  lemma AfterTake(mem: seq<Page>, mem': seq<Page>, n: nat, slabs: Slabs, slabs': Slabs,
                  large: map<nat, nat>, free: set<nat>,
                  arena: set<nat>, c: nat, s: nat, obj: nat)
    requires HeapOk(mem, slabs, large, free, arena, {s}) && ShapesOk(mem, n, slabs) && |mem'| == |mem|
    requires forall x :: 0 <= x < |mem| && x != s ==> mem'[x] == mem[x]
    requires Partial(slabs, c, s) && slabs' == slabs[s := Slab(c, slabs[s].chain[1..])]
    requires obj == SlotAddress(s, c % 8, slabs[s].chain[0])
    ensures HeapOk(mem', slabs', large, free, arena, {})
    ensures obj !in SmallLive(slabs) + LargeLive(large) && obj != 0
    ensures SmallLive(slabs') + LargeLive(large) == SmallLive(slabs) + LargeLive(large) + {obj}
    ensures ObjectOf(slabs', c, obj)
  {
    var chain := slabs[s].chain;
    assert ShapeOk(mem, n, slabs, s);
    PoppedSlot(slabs', slabs, s, c, chain);
    SmallNotLarge(s, c % 8, chain[0], large);
    HeapRechain(mem, mem', slabs, large, free, arena, {s}, s, chain[1..]);
    assert LiveSlot(slabs', s, chain[0]);
  }

  /** The push step on values. */
  lemma AfterGive(mem: seq<Page>, mem': seq<Page>, n: nat, slabs: Slabs, slabs': Slabs,
                  large: map<nat, nat>, free: set<nat>,
                  arena: set<nat>, s: nat, i: nat)
    requires HeapOk(mem, slabs, large, free, arena, {}) && ShapesOk(mem', n, slabs') && |mem'| == |mem|
    requires forall x :: 0 <= x < |mem| && x != s ==> mem'[x] == mem[x]
    requires LiveSlot(slabs, s, i) && slabs' == slabs[s := Slab(slabs[s].cache, [i] + slabs[s].chain)]
    ensures HeapOk(mem', slabs', large, free, arena, {s}) && 0 < s < |mem'|
    ensures mem'[s].inuse != 0 ==> HeapOk(mem', slabs', large, free, arena, {})
    ensures mem'[s].inuse == 0 ==> forall j: nat :: j < Capacity(slabs'[s].cache % 8) ==> j in slabs'[s].chain
    ensures SmallLive(slabs') + LargeLive(large)
         == SmallLive(slabs) + LargeLive(large) - {SlotAddress(s, slabs[s].cache % 8, i)}
  {
    var c, chain := slabs[s].cache, [i] + slabs[s].chain;
    IdleOrNot(mem', n, slabs', s);
    assert forall j :: j in chain <==> j in slabs[s].chain || j == i;
    OneSlot(slabs, s, chain, i);
    SmallNotLarge(s, c % 8, i, large);
    HeapRechain(mem, mem', slabs, large, free, arena, {}, s, chain);
  }

  /** inuse counts the slots that are not on the chain. */
  lemma IdleOrNot(mem: seq<Page>, n: nat, slabs: Slabs, s: nat)
    requires ShapesOk(mem, n, slabs) && s in slabs
    ensures 0 < s < |mem|
    ensures mem[s].inuse != 0 ==> |slabs[s].chain| < Capacity(slabs[s].cache % 8)
    ensures mem[s].inuse == 0 ==> forall j: nat :: j < Capacity(slabs[s].cache % 8) ==> j in slabs[s].chain
  {
    assert ShapeOk(mem, n, slabs, s);
    ChainFits(slabs[s].chain, Capacity(slabs[s].cache % 8));
  }

  /** Returning an idle slab to the page allocator, on values. */
  lemma AfterDrop(mem: seq<Page>, slabs: Slabs, large: map<nat, nat>, free: set<nat>,
                  arena: set<nat>, s: nat)
    requires HeapOk(mem, slabs, large, free, arena, {s}) && s in slabs
    requires forall j: nat :: j < Capacity(slabs[s].cache % 8) ==> j in slabs[s].chain
    ensures s !in free
    ensures HeapOk(mem, slabs - {s}, large, free + {s}, arena, {})
    ensures SmallLive(slabs - {s}) == SmallLive(slabs)
  {
    HeapDrop(mem, slabs, large, free, arena, s);
    NoSlot(slabs - {s}, s, slabs[s].cache, slabs[s].chain);
    assert (slabs - {s})[s := slabs[s]] == slabs;
  }

  /** Recording a large allocation, on values. */
  lemma AfterLarge(mem: seq<Page>, mem': seq<Page>, slabs: Slabs, large: map<nat, nat>,
                   free: set<nat>, arena: set<nat>,
                   b: nat, pages: nat)
    requires HeapOk(mem, slabs, large, free, arena, {}) && |mem'| == |mem|
    requires Run(b, pages) <= free && (forall x :: x in free ==> 0 < x < |mem|)
    requires pages >= 2 && OrderFor(pages) <= MAX_ORDER && b == Shl(Shr(b, OrderFor(pages)), OrderFor(pages))
    requires forall x :: 0 <= x < |mem| && x != b ==> mem'[x] == mem[x]
    requires b < |mem| ==> mem'[b].magic == BYPASS_MAGIC && mem'[b].metaPages == pages
    ensures b in free && b !in slabs && b !in large
    ensures HeapOk(mem', slabs, large[b := pages], free - Run(b, pages), arena, {})
    ensures (b + 1) * 4096 !in SmallLive(slabs) + LargeLive(large)
    ensures SmallLive(slabs) + LargeLive(large[b := pages]) == SmallLive(slabs) + LargeLive(large) + {(b + 1) * 4096}
  {
    BlockHasPage(Shr(b, OrderFor(pages)), OrderFor(pages));
    assert b in Run(b, pages) && b in free;
    if b in large {
      MetadataOwned(mem, large, b);
    }
    OwnRunIn(free, slabs.Keys, large, arena, b, pages);
    RunsKeep(mem, mem', large, b);
    LiveWithRun(slabs, large, b, pages);
  }

  /** One more large allocation is one more live pointer. */
  lemma LiveWithRun(slabs: Slabs, large: map<nat, nat>, b: nat, pages: nat)
    requires b !in large
    ensures (b + 1) * 4096 !in SmallLive(slabs) + LargeLive(large)
    ensures SmallLive(slabs) + LargeLive(large[b := pages]) == SmallLive(slabs) + LargeLive(large) + {(b + 1) * 4096}
  {
    LargeNotSmall(slabs, b);
    var large' := large[b := pages];
    assert LargeLive(large') == LargeLive(large) + {(b + 1) * 4096} by {
      assert b in large';
      forall d | d in large
        ensures (d + 1) * 4096 in LargeLive(large')
      {
        assert d in large';
      }
    }
  }

  lemma SlotOnBoundary(s: nat, k: nat, i: nat, b: nat)
    requires k < NUM_CLASSES && i < Capacity(k)
    ensures SlotAddress(s, k, i) != b * 4096 && SlotAddress(s, k, i) != (b + 1) * 4096
  {
    SlotsApart(k, i, i);
    var offset := SlotOffset(k, i);
    assert (s * 4096 + offset) % 4096 == offset != 0;
  }

  lemma LargeNotSmall(slabs: Slabs, b: nat)
    ensures (b + 1) * 4096 !in SmallLive(slabs)
  {
    if (b + 1) * 4096 in SmallLive(slabs) {
      var s, i := SmallLiveIn(slabs, (b + 1) * 4096);
      SlotOnBoundary(s, slabs[s].cache % 8, i, b);
      assert false;
    }
  }

  /** Forgetting a large allocation, on values. */
  lemma AfterRelease(mem: seq<Page>, slabs: Slabs, large: map<nat, nat>, free: set<nat>,
                     arena: set<nat>, b: nat)
    requires HeapOk(mem, slabs, large, free, arena, {}) && b in large
    ensures Run(b, large[b]) !! free
    ensures HeapOk(mem, slabs, large - {b}, free + Run(b, large[b]), arena, {})
    ensures SmallLive(slabs) + LargeLive(large - {b}) == SmallLive(slabs) + LargeLive(large) - {(b + 1) * 4096}
  {
    OwnRunOut(free, slabs.Keys, large, arena, b);
    LiveWithRun(slabs, large - {b}, b, large[b]);
    assert (large - {b})[b := large[b]] == large;
    Removed(SmallLive(slabs) + LargeLive(large - {b}), (b + 1) * 4096);
  }

  lemma Removed(a: set<nat>, x: nat)
    requires x !in a
    ensures a + {x} - {x} == a
  {
  }

  /** How initialize_slub_ap ends. */
  datatype ApOutcome = Registered | Unregistered | Panic

  class KernelHeap {
    const pmm: Pmm
    const caches: SlabCaches
    /** Large allocations: metadata page and page count asked for. */
    ghost var large: map<nat, nat>
    /** The pages the heap and the free lists share between them. */
    ghost var arena: set<nat>

    ghost predicate Valid()
      reads this, pmm, pmm.lists, pmm.bits, caches
    {
      ValidBut({})
    }

    /** The invariant, except that the given slabs may have no object in use. */
    ghost predicate ValidBut(idle: set<nat>)
      reads this, pmm, pmm.lists, pmm.bits, caches
    {
      && pmm.Valid() && caches.Valid() && |caches.mem| == pmm.pages && |caches.partial| >= NUM_CLASSES
      && HeapOk(caches.mem, caches.slabs, large, pmm.free, arena, idle)
    }

    ghost function Live(): set<nat>
      reads this`large, caches`slabs
    {
      SmallLive(caches.slabs) + LargeLive(large)
    }

    /** What kfree is to find out about the page a pointer lies in. */
    predicate ReadsAsSlab(page: nat)
      reads caches
    {
      IsSlabHeader(caches.mem, |caches.partial|, page)
    }

    /** The heap after initialize_slub. */
    constructor (pmm: Pmm, mem: seq<Page>)
      requires pmm.Valid() && |mem| == pmm.pages
      ensures Valid() && this.pmm == pmm && fresh(caches) && Live() == {} && arena == pmm.free
    {
      this.pmm := pmm;
      caches := new SlabCaches(mem);
      large := map[];
      arena := pmm.free;
    }

    /** get_kmalloc_cache: the cache of the calling core for a size, or -1. */
    method GetKmallocCache(core: nat, size: nat) returns (cache: int)
      requires size > 0 && |caches.partial| >= NUM_CLASSES
      ensures cache >= 0 ==>
                && cache < |caches.partial| && cache == core * 8 + ClassFor(size) && cache % 8 == ClassFor(size)
                && size <= ObjSize(cache % 8) && size <= 2048
                && forall k :: 0 <= k < NUM_CLASSES && size <= ObjSize(k) ==> cache % 8 <= k
      ensures cache < 0 <==> size > 2048 || core * 8 + 8 > |caches.partial|
    {
      ClassForIsLeast(size);
      if core * 8 + 8 > |caches.partial| {
        return -1;
      }
      var index := ClassFor(size);
      return if index < NUM_CLASSES then core * 8 + index else -1;
    }

    /** The list nodes the page allocator has just stored, in memory. */
    method StoreNodes(ghost free: set<nat>, ghost shared: set<nat>)
      requires pmm.Valid() && caches.Valid() && |caches.mem| == pmm.pages
      requires HeapOk(caches.mem, caches.slabs, large, shared, arena, {}) && free <= shared && pmm.free <= shared
      requires StoredHeads(pmm.lists.record.stored, free, pmm.free)
      modifies caches`mem
      ensures pmm.Valid() && caches.Valid() && |caches.mem| == pmm.pages
      ensures HeapOk(caches.mem, caches.slabs, large, shared, arena, {})
      ensures caches.slabs == old(caches.slabs) && |caches.partial| == old(|caches.partial|) && large == old(large)
      ensures Live() == old(Live()) && forall p :: p in Live() ==> Usable(p) == old(Usable(p))
      ensures Frame(old(caches.mem), caches.mem, free, pmm.free)
    {
      StoredApart(caches.mem, caches.slabs, large, shared, arena, pmm.lists.record.stored, free, pmm.free);
      caches.StoreNodes(pmm.lists.record.stored, pmm.lists.next);
      PmmUnchanged(pmm);
      NodesKeepHeap(old(caches.mem), caches.mem, caches.slabs, large, shared, arena, pmm.lists.record.stored);
      NodesAreFrame(old(caches.mem), caches.mem, pmm.lists.record.stored, free, pmm.free);
    }

    /** alloc_pages of one page, for a slab. */
    method TakePage() returns (s: nat)
      requires Valid()
      modifies pmm`freeMemory, pmm`usedMemory, pmm`free, pmm.lists, pmm.bits, caches`mem
      ensures s == 0 <==> old(pmm.free) == {}
      ensures s == 0 ==> Valid() && pmm.free == old(pmm.free) && caches.mem == old(caches.mem)
      ensures pmm.Valid() && caches.Valid() && |caches.mem| == pmm.pages
      ensures HeapOk(caches.mem, caches.slabs, large, old(pmm.free), arena, {})
      ensures s != 0 ==> s in old(pmm.free) && 0 < s < pmm.pages && pmm.free == old(pmm.free) - {s}
      ensures Frame(old(caches.mem), caches.mem, old(pmm.free), pmm.free)
    {
      s := pmm.AllocPage();
      CachesUnchanged(caches);
      if s == 0 {
        assert pmm.lists.record.stored == {};
        return;
      }
      StoreNodes(old(pmm.free), old(pmm.free));
    }

    /** Asks the page allocator for a slab. */
    method Refill(c: nat) returns (ok: bool)
      requires Valid() && c < |caches.partial| && caches.lists[c] == []
      modifies pmm`freeMemory, pmm`usedMemory, pmm`free, pmm.lists, pmm.bits, caches
      ensures |caches.partial| == old(|caches.partial|) && Live() == old(Live())
      ensures ok <==> old(pmm.free) != {}
      ensures ok ==> caches.Valid() && caches.lists[c] != [] && ValidBut({caches.lists[c][0]})
      ensures ok ==> Refilled(old(caches.slabs), caches.slabs, caches.lists[c][0], c)
      ensures ok ==> caches.lists[c][0] in old(pmm.free) && pmm.free == old(pmm.free) - {caches.lists[c][0]}
      ensures ok ==> FrameBut(old(caches.mem), caches.mem, old(pmm.free), pmm.free, caches.lists[c][0])
      ensures !ok ==>
                && Valid() && pmm.free == old(pmm.free) && caches.slabs == old(caches.slabs)
                && caches.mem == old(caches.mem)
      ensures forall p :: p in old(Live()) ==> Usable(p) == old(Usable(p))
    {
      var s := TakePage();
      if s == 0 {
        return false;
      }
      AddSlab(s, c, old(pmm.free), old(caches.mem));
      return true;
    }

    /** Formats a page that was just taken and lists it. */
    method AddSlab(s: nat, c: nat, ghost free: set<nat>, ghost mem: seq<Page>)
      requires pmm.Valid() && caches.Valid() && |caches.mem| == pmm.pages && |caches.partial| >= NUM_CLASSES
      requires HeapOk(caches.mem, caches.slabs, large, free, arena, {}) && c < |caches.partial|
      requires s in free && 0 < s < pmm.pages && pmm.free == free - {s} && Frame(mem, caches.mem, free, pmm.free)
      modifies caches
      ensures pmm.Valid() && caches.Valid() && |caches.mem| == pmm.pages && |caches.partial| == old(|caches.partial|)
      ensures Live() == old(Live()) && caches.lists[c] != [] && caches.lists[c][0] == s
      ensures HeapOk(caches.mem, caches.slabs, large, pmm.free, arena, {s})
      ensures Refilled(old(caches.slabs), caches.slabs, s, c) && FrameBut(mem, caches.mem, free, pmm.free, s)
      ensures forall p :: p in old(Live()) ==> Usable(p) == old(Usable(p))
    {
      assert s !in caches.slabs.Keys;
      FormatSlab(s, c);
      AfterRefill(old(caches.mem), caches.mem, old(caches.slabs), caches.slabs, large, free, arena, s, c);
      AddKeepsUsable(old(caches.mem), caches.mem, old(caches.slabs), caches.slabs, large, free, arena, s, c);
      FrameTouch(mem, old(caches.mem), caches.mem, free, pmm.free, s);
    }

    /** NewSlab beside the page allocator. */
    method FormatSlab(s: nat, c: nat)
      requires pmm.Valid() && caches.Valid() && 0 < s < |caches.mem| && s !in caches.slabs && c < |caches.partial|
      modifies caches
      ensures pmm.Valid() && caches.Valid()
      ensures |caches.partial| == old(|caches.partial|)
      ensures caches.slabs == old(caches.slabs)[s := Slab(c, AllSlots(Capacity(c % 8)))]
      ensures caches.lists[c] == [s] + old(caches.lists[c])
      ensures TouchesOnly(old(caches.mem), caches.mem, s)
    {
      caches.NewSlab(s, c);
      PmmUnchanged(pmm);
    }

    /** Pops an object off the first partial slab of a cache. */
    method TakeFrom(c: nat) returns (obj: nat)
      requires pmm.Valid() && caches.Valid() && c < |caches.partial| && caches.lists[c] != []
      requires HeapOk(caches.mem, caches.slabs, large, pmm.free, arena, {caches.lists[c][0]})
      modifies caches
      ensures pmm.Valid() && caches.Valid() && |caches.partial| == old(|caches.partial|)
      ensures HeapOk(caches.mem, caches.slabs, large, pmm.free, arena, {})
      ensures obj !in old(Live()) && Live() == old(Live()) + {obj} && obj != 0
      ensures ObjectOf(caches.slabs, c, obj) && obj / 4096 == old(caches.lists[c][0])
      ensures TouchesOnly(old(caches.mem), caches.mem, obj / 4096)
      ensures forall p :: p in old(Live()) ==> Usable(p) == old(Usable(p))
    {
      ghost var s;
      obj, s := PopObject(c);
      AfterTake(old(caches.mem), caches.mem, |caches.partial|, old(caches.slabs), caches.slabs, large, pmm.free,
                arena, c, s, obj);
      RechainKeepsUsable(old(caches.slabs), caches.slabs, large, s, c, old(Live()));
    }

    /** TakeObject beside the page allocator. */
    method PopObject(c: nat) returns (obj: nat, ghost s: nat)
      requires pmm.Valid() && caches.Valid() && c < |caches.partial| && caches.lists[c] != []
      modifies caches
      ensures pmm.Valid() && caches.Valid() && |caches.partial| == old(|caches.partial|)
      ensures s == old(caches.lists[c])[0] && Partial(old(caches.slabs), c, s)
      ensures caches.slabs == old(caches.slabs)[s := Slab(c, old(caches.slabs[s].chain)[1..])]
      ensures obj == SlotAddress(s, c % 8, old(caches.slabs[s].chain)[0]) && obj / 4096 == s
      ensures TouchesOnly(old(caches.mem), caches.mem, s)
    {
      assert caches.lists[c][0] in caches.lists[c];
      FirstSlot(c, caches.lists[c][0]);
      obj, s := caches.TakeObject(c);
      PmmUnchanged(pmm);
    }

    lemma FirstSlot(c: nat, s: nat)
      requires caches.Valid() && c < |caches.partial| && s in caches.lists[c]
      ensures Partial(caches.slabs, c, s) && SlotAddress(s, c % 8, caches.slabs[s].chain[0]) / 4096 == s
    {
      assert ShapeOk(caches.mem, |caches.partial|, caches.slabs, s);
      SlotInPage(s, c % 8, caches.slabs[s].chain[0]);
    }

    /** KmemCache::alloc. Null when the cache is empty and no page is free. */
    method CacheAlloc(c: nat) returns (obj: nat)
      requires Valid() && c < |caches.partial|
      modifies pmm`freeMemory, pmm`usedMemory, pmm`free, pmm.lists, pmm.bits, caches
      ensures Valid() && |caches.partial| == old(|caches.partial|)
      ensures obj == 0 <==> old(caches.lists[c]) == [] && old(pmm.free) == {}
      ensures obj == 0 ==> Live() == old(Live()) && pmm.free == old(pmm.free) && caches.mem == old(caches.mem)
      ensures obj != 0 ==> obj !in old(Live()) && Live() == old(Live()) + {obj} && ObjectOf(caches.slabs, c, obj)
      ensures obj != 0 ==> PageFor(obj, old(caches.lists[c]), old(pmm.free), pmm.free)
      ensures obj != 0 ==> FrameBut(old(caches.mem), caches.mem, old(pmm.free), pmm.free, obj / 4096)
      ensures forall p :: p in old(Live()) ==> Usable(p) == old(Usable(p))
    {
      HeadInBounds(caches.partial[c], caches.next, caches.prev, caches.lists[c]);
      FrameRefl(caches.mem, pmm.free, if caches.lists[c] == [] then -1 else caches.lists[c][0]);
      if caches.partial[c] == NIL {
        var ok := Refill(c);
        if !ok {
          return 0;
        }
      }
      ghost var mem := caches.mem;
      obj := TakeFrom(c);
      FrameButTouch(old(caches.mem), mem, caches.mem, old(pmm.free), pmm.free, obj / 4096);
    }

    /** KmemCache::free of an object of slab s: pushes it back and, if nothing is in use
        any more, gives the page back. */
    method CacheFree(obj: nat, ghost s: nat, ghost i: nat)
      requires Valid() && LiveSlot(caches.slabs, s, i) && obj == SlotAddress(s, caches.slabs[s].cache % 8, i)
      modifies pmm`freeMemory, pmm`usedMemory, pmm`free, pmm.lists, pmm.bits, caches
      ensures Valid() && |caches.partial| == old(|caches.partial|)
      ensures Live() == old(Live()) - {obj} && ObjectFreed(obj, old(caches.mem), caches.mem, old(pmm.free), pmm.free)
      ensures ReadsAsSlab(obj / 4096) <==> !Heads(pmm.free, obj / 4096)
      ensures forall p :: p in Live() ==> Usable(p) == old(Usable(p))
    {
      SlabReads(obj, s, i);
      GiveObject(obj, s, i);
      ghost var mem := caches.mem;
      ReleaseIfIdle(obj / 4096);
      ObjectGone(obj, old(caches.mem), mem, caches.mem, old(pmm.free), pmm.free);
      ReleasedReads(obj, old(caches.mem), caches.mem, |caches.partial|, old(pmm.free), pmm.free);
    }

    /** The page of a live object is a slab, and not free. */
    lemma SlabReads(obj: nat, s: nat, i: nat)
      requires Valid() && LiveSlot(caches.slabs, s, i) && obj == SlotAddress(s, caches.slabs[s].cache % 8, i)
      ensures s == obj / 4096 && ReadsAsSlab(s) && s !in pmm.free
    {
      assert ShapeOk(caches.mem, |caches.partial|, caches.slabs, s);
      SlotInPage(s, caches.slabs[s].cache % 8, i);
      assert s in caches.slabs.Keys;
    }

    /** The emptiness test of KmemCache::free. */
    method ReleaseIfIdle(page: nat)
      requires pmm.Valid() && caches.Valid() && |caches.mem| == pmm.pages && 0 < page < |caches.mem|
      requires HeapOk(caches.mem, caches.slabs, large, pmm.free, arena,
                      if caches.mem[page].inuse == 0 then {page} else {})
      requires page in caches.slabs && caches.slabs[page].chain != []
      requires caches.mem[page].inuse == 0 ==>
                 forall j: nat :: j < Capacity(caches.slabs[page].cache % 8) ==> j in caches.slabs[page].chain
      modifies pmm`freeMemory, pmm`usedMemory, pmm`free, pmm.lists, pmm.bits, caches
      ensures pmm.Valid() && caches.Valid() && |caches.mem| == pmm.pages
      ensures HeapOk(caches.mem, caches.slabs, large, pmm.free, arena, {})
      ensures |caches.partial| == old(|caches.partial|) && Live() == old(Live())
      ensures pmm.free == old(pmm.free) + (if old(caches.mem[page].inuse) == 0 then {page} else {})
      ensures Frame(old(caches.mem), caches.mem, old(pmm.free), pmm.free)
      ensures forall p :: p in Live() ==> Usable(p) == old(Usable(p))
    {
      FrameRefl(caches.mem, pmm.free, -1);
      if caches.mem[page].inuse == 0 {
        ReleaseSlab(page);
      }
    }

    /** The push step of KmemCache::free. */
    method GiveObject(obj: nat, ghost s: nat, ghost i: nat)
      requires Valid() && LiveSlot(caches.slabs, s, i) && obj == SlotAddress(s, caches.slabs[s].cache % 8, i)
      modifies caches
      ensures pmm.Valid() && caches.Valid() && |caches.partial| == old(|caches.partial|)
      ensures s == obj / 4096 && 0 < s < |caches.mem| && s in caches.slabs && caches.slabs[s].chain != []
      ensures HeapOk(caches.mem, caches.slabs, large, pmm.free, arena, if caches.mem[s].inuse == 0 then {s} else {})
      ensures caches.mem[s].inuse == 0 ==> forall j: nat :: j < Capacity(caches.slabs[s].cache % 8) ==>
              j in caches.slabs[s].chain
      ensures Live() == old(Live()) - {obj} && Returned(old(caches.mem), caches.mem, s)
      ensures forall p :: p in old(Live()) ==> Usable(p) == old(Usable(p))
    {
      PushObject(obj, s, i);
      AfterGive(old(caches.mem), caches.mem, |caches.partial|, old(caches.slabs), caches.slabs, large, pmm.free,
                arena, s, i);
      RechainKeepsUsable(old(caches.slabs), caches.slabs, large, s, old(caches.slabs)[s].cache, old(Live()));
    }

    /** GiveBack beside the page allocator. */
    method PushObject(obj: nat, ghost s: nat, ghost i: nat)
      requires pmm.Valid() && caches.Valid() && LiveSlot(caches.slabs, s, i)
      requires obj == SlotAddress(s, caches.slabs[s].cache % 8, i)
      modifies caches
      ensures pmm.Valid() && caches.Valid() && |caches.partial| == old(|caches.partial|)
      ensures caches.slabs == old(caches.slabs)[s := Slab(old(caches.slabs[s].cache), [i] + old(caches.slabs[s].chain))]
      ensures s == obj / 4096 && Returned(old(caches.mem), caches.mem, s)
    {
      assert ShapeOk(caches.mem, |caches.partial|, caches.slabs, s);
      SlotInPage(s, caches.slabs[s].cache % 8, i);
      caches.GiveBack(obj, s, i);
      PmmUnchanged(pmm);
    }

    /** Unlinks an idle slab and frees its page. */
    method ReleaseSlab(s: nat)
      requires pmm.Valid() && caches.Valid() && |caches.mem| == pmm.pages && 0 < s < |caches.mem|
      requires HeapOk(caches.mem, caches.slabs, large, pmm.free, arena, {s})
      requires s in caches.slabs && caches.slabs[s].chain != []
      requires forall j: nat :: j < Capacity(caches.slabs[s].cache % 8) ==> j in caches.slabs[s].chain
      modifies pmm`freeMemory, pmm`usedMemory, pmm`free, pmm.lists, pmm.bits, caches
      ensures pmm.Valid() && caches.Valid() && |caches.mem| == pmm.pages
      ensures HeapOk(caches.mem, caches.slabs, large, pmm.free, arena, {})
      ensures |caches.partial| == old(|caches.partial|) && Live() == old(Live())
      ensures pmm.free == old(pmm.free) + {s} && Frame(old(caches.mem), caches.mem, old(pmm.free), pmm.free)
      ensures forall p :: p in Live() ==> Usable(p) == old(Usable(p))
    {
      UnlinkIdle(s);
      GivePage(s);
    }

    /** DropSlab of an idle slab: its page is nobody's. */
    method UnlinkIdle(s: nat)
      requires pmm.Valid() && caches.Valid() && |caches.mem| == pmm.pages
      requires HeapOk(caches.mem, caches.slabs, large, pmm.free, arena, {s})
      requires s in caches.slabs && caches.slabs[s].chain != []
      requires forall j: nat :: j < Capacity(caches.slabs[s].cache % 8) ==> j in caches.slabs[s].chain
      modifies caches`partial, caches`next, caches`prev, caches`lists, caches`slabs
      ensures pmm.Valid() && caches.Valid() && |caches.partial| == old(|caches.partial|)
      ensures HeapOk(caches.mem, caches.slabs, large, pmm.free + {s}, arena, {}) && s !in pmm.free
      ensures Live() == old(Live()) && forall p :: p in Live() ==> Usable(p) == old(Usable(p))
    {
      AfterDrop(caches.mem, caches.slabs, large, pmm.free, arena, s);
      DropKeepsUsable(caches.mem, caches.slabs, large, pmm.free, arena, s);
      caches.DropSlab(s);
      PmmUnchanged(pmm);
    }

    /** The free of its page. */
    method GivePage(s: nat)
      requires pmm.Valid() && caches.Valid() && |caches.mem| == pmm.pages && 0 < s < pmm.pages && s !in pmm.free
      requires HeapOk(caches.mem, caches.slabs, large, pmm.free + {s}, arena, {})
      modifies pmm`freeMemory, pmm`usedMemory, pmm`free, pmm.lists, pmm.bits, caches`mem
      ensures pmm.Valid() && caches.Valid() && |caches.mem| == pmm.pages
      ensures |caches.partial| == old(|caches.partial|)
      ensures Live() == old(Live()) && forall p :: p in Live() ==> Usable(p) == old(Usable(p))
      ensures HeapOk(caches.mem, caches.slabs, large, pmm.free, arena, {})
      ensures pmm.free == old(pmm.free) + {s} && Frame(old(caches.mem), caches.mem, old(pmm.free), pmm.free)
    {
      pmm.FreePage(s);
      CachesUnchanged(caches);
      StoreNodes(old(pmm.free), pmm.free);
    }

    /** alloc_pages of a run, by page number. */
    method TakePages(pages: nat) returns (b: nat)
      requires Valid()
      modifies pmm`freeMemory, pmm`usedMemory, pmm`free, pmm.lists, pmm.bits, caches`mem
      ensures b == 0 <==> NoRun(old(pmm.free), pages)
      ensures b == 0 ==> Valid() && pmm.free == old(pmm.free) && caches.mem == old(caches.mem)
      ensures pmm.Valid() && caches.Valid() && |caches.mem| == pmm.pages
      ensures HeapOk(caches.mem, caches.slabs, large, old(pmm.free), arena, {})
      ensures b != 0 ==>
                && OrderFor(pages) <= MAX_ORDER && b == Shl(Shr(b, OrderFor(pages)), OrderFor(pages))
                && Run(b, pages) <= old(pmm.free) && pmm.free == old(pmm.free) - Run(b, pages)
      ensures Live() == old(Live()) && forall p :: p in Live() ==> Usable(p) == old(Usable(p))
      ensures Frame(old(caches.mem), caches.mem, old(pmm.free), pmm.free)
    {
      var phys := pmm.AllocPages(pages);
      CachesUnchanged(caches);
      b := PfnOf(phys);
      if phys == 0 {
        assert pmm.lists.record.stored == {};
        return;
      }
      StoreNodes(old(pmm.free), old(pmm.free));
    }

    /** The page-run path of kmalloc. */
    method AllocLarge(size: nat) returns (ptr: nat)
      requires Valid() && 0 < size && size + 4095 < ADDRESS_LIMIT
      modifies this`large, pmm`freeMemory, pmm`usedMemory, pmm`free, pmm.lists, pmm.bits, caches
      ensures Valid() && |caches.partial| == old(|caches.partial|)
      ensures ptr == 0 <==> NoRun(old(pmm.free), PagesNeeded(size))
      ensures ptr == 0 ==> Live() == old(Live()) && pmm.free == old(pmm.free) && caches.mem == old(caches.mem)
      ensures ptr != 0 ==> ptr !in old(Live()) && Live() == old(Live()) + {ptr} && ptr % 4096 == 0
      ensures ptr != 0 ==> Taken(old(pmm.free), pmm.free, large, ptr, PagesNeeded(size))
      ensures ptr != 0 ==> Usable(ptr) >= size
      ensures FrameBut(old(caches.mem), caches.mem, old(pmm.free), pmm.free, TouchedPage(ptr))
      ensures forall p :: p in old(Live()) ==> Usable(p) == old(Usable(p))
    {
      PagesNeededIff(size);
      var pages := PagesNeeded(size);
      var b := TakePages(pages);
      if b == 0 {
        return 0;
      }
      ghost var mem := caches.mem;
      ptr := RecordLarge(b, pages, old(pmm.free));
      FrameTouch(old(caches.mem), mem, caches.mem, old(pmm.free), pmm.free, ptr / 4096 - 1);
      LargeUsable(caches.mem, caches.slabs, large, pmm.free, arena, size, ptr);
    }

    /** Writes the metadata of a page run that was just taken. */
    method RecordLarge(b: nat, pages: nat, ghost free: set<nat>) returns (ptr: nat)
      requires pmm.Valid() && caches.Valid() && |caches.mem| == pmm.pages && |caches.partial| >= NUM_CLASSES
      requires HeapOk(caches.mem, caches.slabs, large, free, arena, {})
      requires pages >= 2 && OrderFor(pages) <= MAX_ORDER && b == Shl(Shr(b, OrderFor(pages)), OrderFor(pages))
      requires Run(b, pages) <= free && pmm.free == free - Run(b, pages)
      requires forall x :: x in free ==> 0 < x < pmm.pages
      modifies this`large, caches
      ensures Valid() && |caches.partial| == old(|caches.partial|)
      ensures ptr != 0 && ptr !in old(Live()) && Live() == old(Live()) + {ptr}
      ensures Taken(free, pmm.free, large, ptr, pages)
      ensures TouchesOnly(old(caches.mem), caches.mem, ptr / 4096 - 1) && ptr % 4096 == 0
      ensures forall p :: p in old(Live()) ==> Usable(p) == old(Usable(p))
    {
      RunStart(b, pages, free);
      assert b !in caches.slabs.Keys;
      PutMetadata(b, pages);
      AfterLarge(old(caches.mem), caches.mem, caches.slabs, old(large), free, arena, b, pages);
      RunKeepsUsable(old(caches.mem), caches.slabs, old(large), free, arena, b, pages);
      ptr := (b + 1) * 4096;
      PageOf(b + 1);
    }

    /** StoreMetadata beside the page allocator. */
    method PutMetadata(b: nat, pages: nat)
      requires pmm.Valid() && caches.Valid() && b < |caches.mem| && b !in caches.slabs
      modifies this`large, caches
      ensures pmm.Valid() && caches.Valid() && large == old(large)[b := pages]
      ensures caches.slabs == old(caches.slabs) && |caches.partial| == old(|caches.partial|)
      ensures TouchesOnly(old(caches.mem), caches.mem, b)
      ensures caches.mem[b].magic == BYPASS_MAGIC && caches.mem[b].metaPages == pages
    {
      large := large[b := pages];
      caches.StoreMetadata(b, pages);
      PmmUnchanged(pmm);
    }

    /** The page-run path of kfree: the metadata page tells how many pages to free. */
    method FreeLarge(b: nat)
      requires pmm.Valid() && caches.Valid() && |caches.mem| == pmm.pages
      requires HeapOk(caches.mem, caches.slabs, large, pmm.free, arena, {}) && b in large
      modifies this`large, pmm`freeMemory, pmm`usedMemory, pmm`free, pmm.lists, pmm.bits, caches`mem
      ensures pmm.Valid() && caches.Valid() && |caches.mem| == pmm.pages
      ensures HeapOk(caches.mem, caches.slabs, large, pmm.free, arena, {})
      ensures Live() == old(Live()) - {(b + 1) * 4096} && large == old(large) - {b}
      ensures Frame(old(caches.mem), caches.mem, old(pmm.free), pmm.free)
      ensures pmm.free == old(pmm.free) + Run(b, old(large[b]))
      ensures forall p :: p in Live() ==> Usable(p) == old(Usable(p))
    {
      ReleaseKeepsUsable(caches.mem, caches.slabs, large, pmm.free, arena, b);
      RunIsFreeable(caches.mem, caches.slabs, large, pmm, arena, b);
      AfterRelease(caches.mem, caches.slabs, large, pmm.free, arena, b);
      GiveRun(b, caches.mem[b].metaPages);
    }

    /** The release of a run, with the list nodes in memory. */
    method GiveRun(b: nat, pages: nat)
      requires pmm.Valid() && caches.Valid() && |caches.mem| == pmm.pages
      requires OrderFor(pages) <= MAX_ORDER && pmm.Freeable(b, OrderFor(pages)) && b > 0
      requires HeapOk(caches.mem, caches.slabs, large - {b}, pmm.free + Run(b, pages), arena, {})
      modifies this`large, pmm`freeMemory, pmm`usedMemory, pmm`free, pmm.lists, pmm.bits, caches`mem
      ensures pmm.Valid() && caches.Valid() && |caches.mem| == pmm.pages
      ensures HeapOk(caches.mem, caches.slabs, large, pmm.free, arena, {})
      ensures large == old(large) - {b} && pmm.free == old(pmm.free) + Run(b, pages)
      ensures Frame(old(caches.mem), caches.mem, old(pmm.free), pmm.free)
    {
      ReturnRun(b, pages);
      StoreNodes(old(pmm.free), pmm.free);
    }

    /** free_pages of a run beside the caches. */
    method ReturnRun(b: nat, pages: nat)
      requires pmm.Valid() && caches.Valid() && OrderFor(pages) <= MAX_ORDER && pmm.Freeable(b, OrderFor(pages)) &&
               b > 0
      modifies this`large, pmm`freeMemory, pmm`usedMemory, pmm`free, pmm.lists, pmm.bits
      ensures pmm.Valid() && caches.Valid() && large == old(large) - {b}
      ensures pmm.free == old(pmm.free) + Run(b, pages)
      ensures StoredHeads(pmm.lists.record.stored, old(pmm.free), pmm.free)
    {
      large := large - {b};
      pmm.FreePages(b * 4096, pages);
      CachesUnchanged(caches);
    }

    /** The bytes a live pointer may be used for. */
    ghost function Usable(ptr: nat): nat
      reads this`large, caches`slabs
    {
      UsableBytes(caches.slabs, large, ptr)
    }

    /** kmalloc on a core: null, or a new live pointer with room for the size. Null for no
        bytes; for a small size when the cache has no object and no page is free; and for
        any other when no aligned run of the pages needed is free. */
    method Kmalloc(core: nat, size: nat) returns (ptr: nat)
      requires Valid() && size + 4095 < ADDRESS_LIMIT
      modifies this`large, pmm`freeMemory, pmm`usedMemory, pmm`free, pmm.lists, pmm.bits, caches
      ensures Valid() && |caches.partial| == old(|caches.partial|)
      ensures ptr == 0 ==> Live() == old(Live()) && pmm.free == old(pmm.free)
      ensures size == 0 ==> ptr == 0
      ensures size > 0 && old(Served(core, size)) ==> (ptr == 0 <==> old(NoObject(core, size)) && old(pmm.free) == {})
      ensures size > 0 && !old(Served(core, size)) ==>
                (ptr == 0 <==> NoRun(old(pmm.free), PagesNeeded(size)))
      ensures ptr != 0 ==> ptr !in old(Live()) && Live() == old(Live()) + {ptr} && Usable(ptr) >= size
      ensures ptr != 0 ==>
                if old(Served(core, size)) then Usable(ptr) == ClassBytes(size) && ptr % 4096 != 0
                else Taken(old(pmm.free), pmm.free, large, ptr, PagesNeeded(size)) && ptr % 4096 == 0
      ensures ptr != 0 && old(Served(core, size)) ==>
                PageFor(ptr, old(ListFor(core, size)), old(pmm.free), pmm.free)
      ensures FrameBut(old(caches.mem), caches.mem, old(pmm.free), pmm.free, TouchedPage(ptr))
      ensures forall p :: p in old(Live()) ==> Usable(p) == old(Usable(p))
    {
      if size == 0 {
        FrameRefl(caches.mem, pmm.free, -1);
        return 0;
      }
      var cache := GetKmallocCache(core, size);
      if cache >= 0 {
        ptr := AllocSmall(cache, core, size);
      } else {
        ptr := AllocLarge(size);
      }
    }

    /** The cache path of kmalloc. */
    method AllocSmall(cache: nat, ghost core: nat, ghost size: nat) returns (ptr: nat)
      requires Valid() && 0 < size && Served(core, size) && cache < |caches.partial|
      requires cache == core * 8 + ClassFor(size) && cache % 8 == ClassFor(size)
      modifies pmm`freeMemory, pmm`usedMemory, pmm`free, pmm.lists, pmm.bits, caches
      ensures Valid() && |caches.partial| == old(|caches.partial|)
      ensures ptr == 0 ==> Live() == old(Live()) && pmm.free == old(pmm.free)
      ensures ptr == 0 <==> old(NoObject(core, size)) && old(pmm.free) == {}
      ensures ptr != 0 ==> ptr !in old(Live()) && Live() == old(Live()) + {ptr} && ptr % 4096 != 0
      ensures ptr != 0 ==> Usable(ptr) == ClassBytes(size) >= size
      ensures ptr != 0 ==> PageFor(ptr, old(ListFor(core, size)), old(pmm.free), pmm.free)
      ensures FrameBut(old(caches.mem), caches.mem, old(pmm.free), pmm.free, TouchedPage(ptr))
      ensures forall p :: p in old(Live()) ==> Usable(p) == old(Usable(p))
    {
      FrameRefl(caches.mem, pmm.free, -1);
      ghost var list, free := caches.lists[cache], pmm.free;
      ListIs(cache, core, size);
      ptr := CacheAlloc(cache);
      assert ptr != 0 ==> PageFor(ptr, list, free, pmm.free);
      ClassForIsLeast(size);
      if ptr != 0 {
        SmallUsable(caches.slabs, large, cache, ptr);
      }
    }

    /** A small size on a core with caches. */
    predicate Served(core: nat, size: nat)
      reads caches
    {
      size <= 2048 && HasCaches(core)
    }

    /** The partial slabs of the cache for the size. */
    ghost function ListFor(core: nat, size: nat): seq<nat>
      reads caches
    {
      var c := core * 8 + ClassFor(size);
      if 0 <= c < |caches.lists| then caches.lists[c] else []
    }

    lemma ListIs(cache: nat, core: nat, size: nat)
      requires caches.Valid() && cache == core * 8 + ClassFor(size) && cache < |caches.partial|
      ensures cache < |caches.lists| && ListFor(core, size) == caches.lists[cache]
    {
    }

    /** The cache for the size has no partial slab. */
    ghost predicate NoObject(core: nat, size: nat)
      reads caches
    {
      ListFor(core, size) == []
    }

    /** Appends the caches of one more core. */
    method RegisterCore()
      requires Valid()
      modifies caches`partial, caches`lists
      ensures Valid() && |caches.partial| == old(|caches.partial|) + NUM_CLASSES && Live() == old(Live())
      ensures forall p :: p in Live() ==> Usable(p) == old(Usable(p))
    {
      caches.AddCore();
      PmmUnchanged(pmm);
    }

    /** initialize_slub_ap on the core it registers. The array and the pool of the caches come
        first, while the core has no caches yet, then the list node that registers them; if
        only that node cannot be had, the core stays unregistered. The holder of the pool
        address and its list node come last, and may fail without further effect. As long as
        the core has no caches, each object takes a pair of pages: two pairs decide about the
        panic, a third about the registration. */
    method InitializeSlubAp(core: nat) returns (outcome: ApOutcome, apCaches: nat, apPool: nat)
      requires Valid()
      modifies this`large, pmm`freeMemory, pmm`usedMemory, pmm`free, pmm.lists, pmm.bits, caches
      ensures Valid() && old(Live()) <= Live()
      ensures |caches.partial| == old(|caches.partial|) + if outcome.Registered? then NUM_CLASSES else 0
      ensures !old(HasCaches(core)) ==>
                && (outcome.Panic? <==> |Pairs(old(pmm.free))| < 2)
                && (outcome.Unregistered? <==> |Pairs(old(pmm.free))| == 2)
      ensures !outcome.Panic? ==>
                && apCaches in Live() && apPool in Live() && apCaches != apPool
                && apCaches !in old(Live()) && apPool !in old(Live())
                && Usable(apCaches) >= 64 && Usable(apPool) >= 256
      ensures forall p :: p in old(Live()) ==> Usable(p) == old(Usable(p))
    {
      apCaches, apPool := AllocCaches(core);
      if apCaches == 0 || apPool == 0 {
        return Panic, apCaches, apPool;
      }
      outcome := AppendBoth(core);
    }

    /** The array and the pool of the caches. */
    method AllocCaches(core: nat) returns (apCaches: nat, apPool: nat)
      requires Valid()
      modifies this`large, pmm`freeMemory, pmm`usedMemory, pmm`free, pmm.lists, pmm.bits, caches
      ensures Valid() && old(Live()) <= Live() && |caches.partial| == old(|caches.partial|)
      ensures !old(HasCaches(core)) ==>
                && (apCaches == 0 || apPool == 0 <==> |Pairs(old(pmm.free))| < 2)
                && (apCaches != 0 && apPool != 0 ==> |Pairs(pmm.free)| == |Pairs(old(pmm.free))| - 2)
      ensures apCaches != 0 && apPool != 0 ==>
                && apCaches in Live() && apPool in Live() && apCaches != apPool
                && apCaches !in old(Live()) && apPool !in old(Live())
                && Usable(apCaches) >= 64 && Usable(apPool) >= 256
      ensures forall p :: p in old(Live()) ==> Usable(p) == old(Usable(p))
    {
      apCaches := AllocObject(core, 64);
      apPool := AllocObject(core, 256);
    }

    /** push_back of the caches and, through a holder, of the pool. */
    method AppendBoth(core: nat) returns (outcome: ApOutcome)
      requires Valid()
      modifies this`large, pmm`freeMemory, pmm`usedMemory, pmm`free, pmm.lists, pmm.bits, caches
      ensures Valid() && old(Live()) <= Live() && !outcome.Panic?
      ensures |caches.partial| == old(|caches.partial|) + if outcome.Registered? then NUM_CLASSES else 0
      ensures !old(HasCaches(core)) ==> (outcome.Unregistered? <==> |Pairs(old(pmm.free))| == 0)
      ensures forall p :: p in old(Live()) ==> Usable(p) == old(Usable(p))
    {
      outcome := AppendCaches(core);
      var holder := Kmalloc(core, 8);
      if holder != 0 {
        var poolNode := Kmalloc(core, 24);
      }
    }

    /** push_back of the new caches. */
    method AppendCaches(core: nat) returns (outcome: ApOutcome)
      requires Valid()
      modifies this`large, pmm`freeMemory, pmm`usedMemory, pmm`free, pmm.lists, pmm.bits, caches
      ensures Valid() && old(Live()) <= Live() && !outcome.Panic?
      ensures |caches.partial| == old(|caches.partial|) + if outcome.Registered? then NUM_CLASSES else 0
      ensures !old(HasCaches(core)) ==> (outcome.Unregistered? <==> |Pairs(old(pmm.free))| == 0)
      ensures forall p :: p in old(Live()) ==> Usable(p) == old(Usable(p))
    {
      var node := AllocObject(core, 24);
      if node == 0 {
        return Unregistered;
      }
      RegisterCore();
      return Registered;
    }

    /** The core has caches. */
    predicate HasCaches(core: nat)
      reads caches
    {
      core * 8 + 8 <= |caches.partial|
    }

    /** kmalloc of a small object, which takes a pair of pages on a core without caches. */
    method AllocObject(core: nat, size: nat) returns (ptr: nat)
      requires Valid() && 0 < size <= 2048
      modifies this`large, pmm`freeMemory, pmm`usedMemory, pmm`free, pmm.lists, pmm.bits, caches
      ensures Valid() && old(Live()) <= Live() && |caches.partial| == old(|caches.partial|)
      ensures !old(HasCaches(core)) ==>
                && (ptr == 0 <==> |Pairs(old(pmm.free))| == 0)
                && |Pairs(pmm.free)| == |Pairs(old(pmm.free))| - if ptr == 0 then 0 else 1
      ensures ptr != 0 ==> ptr in Live() && ptr !in old(Live()) && Usable(ptr) >= size
      ensures forall p :: p in old(Live()) ==> Usable(p) == old(Usable(p))
    {
      ptr := Kmalloc(core, size);
      if !old(HasCaches(core)) {
        TwoPages(size);
        PairTaken(old(pmm.free), pmm.free, large, ptr);
      }
    }

    /** kfree of null or a live pointer. The first payload page of a large allocation must
        not read as a slab header, or the pointer would be taken for a small object. The header
        of a slab page that goes back stays unless the page comes to head a free block. */
    method Kfree(ptr: nat)
      requires Valid() && (ptr == 0 || ptr in Live())
      requires ptr in LargeLive(large) ==> !ReadsAsSlab(PfnOf(ptr))
      modifies this`large, pmm`freeMemory, pmm`usedMemory, pmm`free, pmm.lists, pmm.bits, caches
      ensures Valid() && |caches.partial| == old(|caches.partial|)
      ensures ptr == 0 ==> Live() == old(Live()) && pmm.free == old(pmm.free) && caches.mem == old(caches.mem)
      ensures ptr != 0 ==> Live() == old(Live()) - {ptr}
      ensures ptr != 0 && ptr in old(SmallLive(caches.slabs)) ==>
                && ObjectFreed(ptr, old(caches.mem), caches.mem, old(pmm.free), pmm.free) && large == old(large)
                && (ReadsAsSlab(ptr / 4096) <==> !Heads(pmm.free, ptr / 4096))
      ensures ptr != 0 && ptr in old(LargeLive(large)) ==>
                && RunFreed(ptr, old(large), large, old(pmm.free), pmm.free)
                && Frame(old(caches.mem), caches.mem, old(pmm.free), pmm.free)
      ensures forall p :: p in Live() ==> Usable(p) == old(Usable(p))
    {
      if ptr == 0 {
        return;
      }
      var page := PfnOf(ptr);
      var isSlubPage := page < |caches.mem| && caches.mem[page].magic == 0x51AB51AB
                        && 0 <= caches.mem[page].cache < |caches.partial|;
      if isSlubPage {
        FreeObject(ptr);
      } else {
        FreeRun(page, ptr);
      }
    }

    /** kfree of a pointer that reads as a slab object. */
    method FreeObject(ptr: nat)
      requires Valid() && ptr in SmallLive(caches.slabs)
      modifies pmm`freeMemory, pmm`usedMemory, pmm`free, pmm.lists, pmm.bits, caches
      ensures Valid() && |caches.partial| == old(|caches.partial|)
      ensures Live() == old(Live()) - {ptr} && ptr !in old(LargeLive(large)) && large == old(large)
      ensures ObjectFreed(ptr, old(caches.mem), caches.mem, old(pmm.free), pmm.free)
      ensures ReadsAsSlab(ptr / 4096) <==> !Heads(pmm.free, ptr / 4096)
      ensures forall p :: p in Live() ==> Usable(p) == old(Usable(p))
    {
      ghost var s, i := SmallLiveIn(caches.slabs, ptr);
      SmallNotLarge(s, caches.slabs[s].cache % 8, i, large);
      CacheFree(ptr, s, i);
    }

    /** kfree of a live pointer that does not read as a slab object. */
    method FreeRun(page: nat, ghost ptr: nat)
      requires Valid() && ptr in Live() && page == PfnOf(ptr) && !ReadsAsSlab(page)
      modifies this`large, pmm`freeMemory, pmm`usedMemory, pmm`free, pmm.lists, pmm.bits, caches`mem
      ensures Valid() && Live() == old(Live()) - {ptr} && ptr !in old(SmallLive(caches.slabs))
      ensures RunFreed(ptr, old(large), large, old(pmm.free), pmm.free)
      ensures Frame(old(caches.mem), caches.mem, old(pmm.free), pmm.free)
      ensures forall p :: p in Live() ==> Usable(p) == old(Usable(p))
    {
      FreeRunOf(page, ptr);
    }

    /** kfree of a pointer whose page is no slab: the page before holds the metadata. */
    method FreeRunOf(page: nat, ghost ptr: nat)
      requires pmm.Valid() && caches.Valid() && |caches.mem| == pmm.pages
      requires HeapOk(caches.mem, caches.slabs, large, pmm.free, arena, {})
      requires ptr in Live() && page == PfnOf(ptr) && !ReadsAsSlab(page)
      modifies this`large, pmm`freeMemory, pmm`usedMemory, pmm`free, pmm.lists, pmm.bits, caches`mem
      ensures pmm.Valid() && caches.Valid() && |caches.mem| == pmm.pages
      ensures HeapOk(caches.mem, caches.slabs, large, pmm.free, arena, {})
      ensures Live() == old(Live()) - {ptr} && ptr !in old(SmallLive(caches.slabs))
      ensures RunFreed(ptr, old(large), large, old(pmm.free), pmm.free)
      ensures Frame(old(caches.mem), caches.mem, old(pmm.free), pmm.free)
      ensures forall p :: p in Live() ==> Usable(p) == old(Usable(p))
    {
      PointerRun(ptr);
      if caches.mem[page - 1].magic == BYPASS_MAGIC {
        FreeLarge(page - 1);
      } else {
        assert false;
      }
    }

    lemma PointerRun(ptr: nat)
      requires caches.Valid() && HeapOk(caches.mem, caches.slabs, large, pmm.free, arena, {})
      requires ptr in Live() && !ReadsAsSlab(PfnOf(ptr))
      ensures ptr !in SmallLive(caches.slabs) && ptr == PfnOf(ptr) * 4096 && 0 < PfnOf(ptr) <= |caches.mem|
      ensures PfnOf(ptr) - 1 in large && caches.mem[PfnOf(ptr) - 1].magic == BYPASS_MAGIC
    {
      SmallReadsAsSlab(ptr);
      var b :| b in large && ptr == (b + 1) * 4096;
      assert RunOk(caches.mem, b, large[b]);
    }

    /** A small object's page always reads as a slab. */
    lemma SmallReadsAsSlab(ptr: nat)
      requires caches.Valid()
      ensures ptr in SmallLive(caches.slabs) ==> ReadsAsSlab(PfnOf(ptr))
    {
      if ptr in SmallLive(caches.slabs) {
        var s, i := SmallLiveIn(caches.slabs, ptr);
        assert ShapeOk(caches.mem, |caches.partial|, caches.slabs, s);
      }
    }
  }

  /** Slabs that stay keep their cache. */
  ghost predicate SameCaches(slabs: Slabs, slabs': Slabs) {
    forall s :: s in slabs && s in slabs' ==> slabs'[s].cache == slabs[s].cache
  }

  /** Large allocations that stay keep their size. */
  ghost predicate SameRuns(large: map<nat, nat>, large': map<nat, nat>) {
    forall b :: b in large && b in large' ==> large'[b] == large[b]
  }

  /** A slab of a cache is added. */
  ghost predicate Refilled(slabs: Slabs, slabs': Slabs, s: nat, c: nat) {
    slabs' == slabs[s := Slab(c, AllSlots(Capacity(c % 8)))] && s !in slabs
  }

  /** An object of the first partial slab leaves the free pages alone; without one, it takes its
      own page from them. */
  ghost predicate PageFor(obj: nat, list: seq<nat>, free: set<nat>, free': set<nat>) {
    if list != [] then obj / 4096 == list[0] && free' == free
    else obj / 4096 in free && free' == free - {obj / 4096}
  }

  /** No aligned run of as many pages is free. */
  ghost predicate NoRun(free: set<nat>, pages: nat) {
    OrderFor(pages) > MAX_ORDER || forall i: nat :: !Whole(free, i, OrderFor(pages))
  }

  /** The aligned pairs of free pages. */
  ghost function Pairs(free: set<nat>): set<nat> {
    set x | x in free && Whole(free, Shr(x, 1), 1) :: Shr(x, 1)
  }

  lemma PairIsWhole(free: set<nat>, i: nat)
    ensures i in Pairs(free) <==> Whole(free, i, 1)
  {
    BlockHasPage(i, 1);
  }

  /** A run of two pages takes exactly one pair, if there is one. */
  lemma PairTaken(free: set<nat>, free': set<nat>, large: map<nat, nat>, ptr: nat)
    requires ptr == 0 <==> NoRun(free, 2)
    requires if ptr == 0 then free' == free else Taken(free, free', large, ptr, 2)
    ensures ptr == 0 <==> |Pairs(free)| == 0
    ensures |Pairs(free')| == |Pairs(free)| - if ptr == 0 then 0 else 1
  {
    assert OrderFor(2) == 1;
    forall i: nat
      ensures i in Pairs(free) <==> Whole(free, i, 1)
    {
      PairIsWhole(free, i);
    }
    if ptr == 0 {
      assert Pairs(free) == {};
    } else {
      var b :| b in large && Run(b, 2) <= free && free' == free - Run(b, 2);
      assert Run(b, 2) == Pages(Shr(b, 1), 1);
      PairLeaves(free, free', Shr(b, 1));
    }
  }

  lemma PairLeaves(free: set<nat>, free': set<nat>, i: nat)
    requires Whole(free, i, 1) && free' == free - Pages(i, 1)
    ensures i in Pairs(free) && |Pairs(free')| == |Pairs(free)| - 1
  {
    PairIsWhole(free, i);
    BlockHasPage(i, 1);
    forall j: nat
      ensures j in Pairs(free') <==> j in Pairs(free) && j != i
    {
      PairIsWhole(free, j);
      PairIsWhole(free', j);
    }
    assert Pairs(free') == Pairs(free) - {i};
  }

  /** Pages of a run that were free are now a large allocation. */
  ghost predicate Taken(free: set<nat>, free': set<nat>, large: map<nat, nat>, ptr: nat, pages: nat) {
    exists b :: b in large && ptr == (b + 1) * 4096 && large[b] == pages
                && Run(b, pages) <= free && free' == free - Run(b, pages)
  }

  /** A page with one object in use less, and the same header. */
  ghost predicate Returned(mem: seq<Page>, mem': seq<Page>, page: nat) {
    && TouchesOnly(mem, mem', page)
    && page < |mem| && SameHeader(mem[page], mem'[page]) && mem'[page].inuse == mem[page].inuse - 1
  }

  /** The slab of the object has one object in use less. If that was the last one, its page is
      free; its header stays unless the page now heads a block. */
  ghost predicate ObjectFreed(ptr: nat, mem: seq<Page>, mem': seq<Page>, free: set<nat>, free': set<nat>) {
    var page := ptr / 4096;
    && FrameBut(mem, mem', free, free', page) && page < |mem| && mem'[page].inuse == mem[page].inuse - 1
    && free' == free + (if mem[page].inuse == 1 then {page} else {})
    && if Heads(free', page) then mem'[page].magic % 4096 == 0 else SameHeader(mem[page], mem'[page])
  }

  /** The run of the original request is free. */
  ghost predicate RunFreed(ptr: nat, large: map<nat, nat>, large': map<nat, nat>, free: set<nat>, free': set<nat>) {
    var b := ptr / 4096 - 1;
    b in large && large' == large - {b} && free' == free + Run(b, large[b])
  }

  /** The page whose words an allocation changes: the slab, or the metadata page. */
  function TouchedPage(ptr: nat): int {
    if ptr % 4096 == 0 then ptr / 4096 - 1 else ptr / 4096
  }

  ghost predicate TouchesOnly(mem: seq<Page>, mem': seq<Page>, page: int) {
    |mem'| == |mem| && forall x :: 0 <= x < |mem| && x != page ==> mem'[x] == mem[x]
  }

  /** Beside its own page, an operation stores list nodes only, to pages that head a free
      block before or after it; and to all that come to head one. */
  ghost predicate FrameBut(mem: seq<Page>, mem': seq<Page>, free: set<nat>, free': set<nat>, page: int) {
    && |mem'| == |mem|
    && forall x: nat :: x < |mem| && x != page ==> PageFrame(mem[x], mem'[x], Heads(free, x), Heads(free', x))
  }

  ghost predicate Frame(mem: seq<Page>, mem': seq<Page>, free: set<nat>, free': set<nat>) {
    FrameBut(mem, mem', free, free', -1)
  }

  predicate PageFrame(p: Page, p': Page, headed: bool, heads: bool) {
    if heads && !headed then NodeOver(p, p')
    else p' == p || ((headed || heads) && NodeOver(p, p'))
  }

  lemma NodesAreFrame(mem: seq<Page>, mem': seq<Page>, stored: set<nat>, free: set<nat>, free': set<nat>)
    requires NodesOver(mem, mem', stored) && StoredHeads(stored, free, free')
    ensures Frame(mem, mem', free, free')
  {
  }

  lemma FrameRefl(mem: seq<Page>, free: set<nat>, page: int)
    ensures FrameBut(mem, mem, free, free, page)
  {
  }

  lemma FrameTouch(mem: seq<Page>, mem1: seq<Page>, mem2: seq<Page>, free: set<nat>, free': set<nat>, page: int)
    requires Frame(mem, mem1, free, free') && TouchesOnly(mem1, mem2, page)
    ensures FrameBut(mem, mem2, free, free', page)
  {
  }

  lemma FrameButTouch(mem: seq<Page>, mem1: seq<Page>, mem2: seq<Page>, free: set<nat>, free': set<nat>, page: int)
    requires FrameBut(mem, mem1, free, free', page) && TouchesOnly(mem1, mem2, page)
    ensures FrameBut(mem, mem2, free, free', page)
  {
  }

  /** The push and the release of an idle slab together. */
  lemma ObjectGone(ptr: nat, mem: seq<Page>, mem1: seq<Page>, mem2: seq<Page>, free: set<nat>, free': set<nat>)
    requires Returned(mem, mem1, ptr / 4096) && Frame(mem1, mem2, free, free') && ptr / 4096 !in free
    requires free' == free + (if mem1[ptr / 4096].inuse == 0 then {ptr / 4096} else {})
    ensures ObjectFreed(ptr, mem, mem2, free, free')
  {
    if Heads(free, ptr / 4096) {
      HeadsAreFree(free, ptr / 4096);
    }
  }

  /** A slab page that was given an object back reads as a slab exactly if it does not head a
      free block. */
  lemma ReleasedReads(ptr: nat, mem: seq<Page>, mem': seq<Page>, registered: nat, free: set<nat>, free': set<nat>)
    requires ObjectFreed(ptr, mem, mem', free, free') && IsSlabHeader(mem, registered, ptr / 4096)
    ensures IsSlabHeader(mem', registered, ptr / 4096) <==> !Heads(free', ptr / 4096)
  {
  }

  /** Pages with list nodes belong to no slab and to no large allocation. */
  lemma StoredApart(mem: seq<Page>, slabs: Slabs, large: map<nat, nat>, shared: set<nat>, arena: set<nat>,
                    stored: set<nat>, free: set<nat>, free': set<nat>)
    requires HeapOk(mem, slabs, large, shared, arena, {}) && StoredHeads(stored, free, free')
    requires free <= shared && free' <= shared
    ensures stored !! slabs.Keys && stored !! RunPages(large)
  {
    forall x | x in stored
      ensures x in shared
    {
      HeadsAreFree(if Heads(free, x) then free else free', x);
    }
  }

  lemma NodesKeepHeap(mem: seq<Page>, mem': seq<Page>, slabs: Slabs, large: map<nat, nat>, free: set<nat>,
                      arena: set<nat>, stored: set<nat>)
    requires HeapOk(mem, slabs, large, free, arena, {}) && NodesOver(mem, mem', stored) && stored !! RunPages(large)
    ensures HeapOk(mem', slabs, large, free, arena, {})
  {
    forall b | b in large
      ensures RunOk(mem', b, large[b])
    {
      assert RunOk(mem, b, large[b]);
      MetadataOwned(mem, large, b);
    }
  }

  /** A live object of a cache. */
  ghost predicate ObjectOf(slabs: Slabs, c: nat, obj: nat) {
    exists s: nat, i: nat :: LiveSlot(slabs, s, i) && slabs[s].cache == c && obj == SlotAddress(s, c % 8, i)
  }

  /** A pointer that stays live keeps its usable bytes. */
  lemma UsableKept(mem: seq<Page>, mem': seq<Page>, slabs: Slabs, slabs': Slabs,
                   large: map<nat, nat>,
                   large': map<nat, nat>, free: set<nat>, free': set<nat>, arena: set<nat>,
                   idle: set<nat>, idle': set<nat>)
    requires HeapOk(mem, slabs, large, free, arena, idle) && HeapOk(mem', slabs', large', free', arena, idle')
    requires SameCaches(slabs, slabs') && SameRuns(large, large')
    ensures forall p :: p in SmallLive(slabs) + LargeLive(large) && p in SmallLive(slabs') + LargeLive(large') ==>
              UsableBytes(slabs', large', p) == UsableBytes(slabs, large, p)
  {
    forall p | p in SmallLive(slabs) + LargeLive(large) && p in SmallLive(slabs') + LargeLive(large')
      ensures UsableBytes(slabs', large', p) == UsableBytes(slabs, large, p)
    {
      PointerKind(mem, slabs, large, free, arena, idle, p);
      PointerKind(mem', slabs', large', free', arena, idle', p);
    }
  }

  lemma AddKeepsUsable(mem: seq<Page>, mem': seq<Page>, slabs: Slabs, slabs': Slabs,
                       large: map<nat, nat>,
                       free: set<nat>, arena: set<nat>, s: nat, c: nat)
    requires HeapOk(mem, slabs, large, free, arena, {}) && s in free && TouchesOnly(mem, mem', s)
    requires slabs' == slabs[s := Slab(c, AllSlots(Capacity(c % 8)))]
    ensures forall p :: p in SmallLive(slabs) + LargeLive(large) ==>
            UsableBytes(slabs', large, p) == UsableBytes(slabs, large, p)
  {
    AfterRefill(mem, mem', slabs, slabs', large, free, arena, s, c);
    assert s !in slabs.Keys;
    UsableKept(mem, mem', slabs, slabs', large, large, free, free - {s}, arena, {}, {s});
  }

  lemma DropKeepsUsable(mem: seq<Page>, slabs: Slabs, large: map<nat, nat>, free: set<nat>,
                        arena: set<nat>, s: nat)
    requires HeapOk(mem, slabs, large, free, arena, {s}) && s in slabs
    requires forall j: nat :: j < Capacity(slabs[s].cache % 8) ==> j in slabs[s].chain
    ensures forall p :: p in SmallLive(slabs) + LargeLive(large) ==>
              UsableBytes(slabs - {s}, large, p) == UsableBytes(slabs, large, p)
  {
    AfterDrop(mem, slabs, large, free, arena, s);
    UsableKept(mem, mem, slabs, slabs - {s}, large, large, free, free + {s}, arena, {s}, {});
  }

  /** A pointer of one run or slab is not affected by what happens to the map of runs. */
  lemma RunKeepsUsable(mem: seq<Page>, slabs: Slabs, large: map<nat, nat>, free: set<nat>,
                       arena: set<nat>,
                       b: nat, pages: nat)
    requires HeapOk(mem, slabs, large, free, arena, {}) && b !in large
    ensures forall p :: p in SmallLive(slabs) + LargeLive(large) ==>
              UsableBytes(slabs, large[b := pages], p) == UsableBytes(slabs, large, p)
  {
    forall p | p in SmallLive(slabs) + LargeLive(large)
      ensures UsableBytes(slabs, large[b := pages], p) == UsableBytes(slabs, large, p)
    {
      PointerKind(mem, slabs, large, free, arena, {}, p);
    }
  }

  lemma ReleaseKeepsUsable(mem: seq<Page>, slabs: Slabs, large: map<nat, nat>, free: set<nat>,
                           arena: set<nat>,
                           b: nat)
    requires HeapOk(mem, slabs, large, free, arena, {}) && b in large
    ensures forall p :: p in SmallLive(slabs) + LargeLive(large) && p != (b + 1) * 4096 ==>
              UsableBytes(slabs, large - {b}, p) == UsableBytes(slabs, large, p)
  {
    forall p | p in SmallLive(slabs) + LargeLive(large) && p != (b + 1) * 4096
      ensures UsableBytes(slabs, large - {b}, p) == UsableBytes(slabs, large, p)
    {
      PointerKind(mem, slabs, large, free, arena, {}, p);
    }
  }

  /** Which slots of a slab are free does not matter for the usable bytes. */
  lemma RechainKeepsUsable(slabs: Slabs, slabs': Slabs, large: map<nat, nat>, s: nat, c: nat,
                           ps: set<nat>)
    requires s in slabs && slabs[s].cache == c && s in slabs' && slabs' == slabs[s := Slab(c, slabs'[s].chain)]
    ensures forall p :: p in ps ==> UsableBytes(slabs', large, p) == UsableBytes(slabs, large, p)
  {
  }

  /** The kind of a live pointer can be told from its alignment, and where its size is kept
      from its page. */
  lemma PointerKind(mem: seq<Page>, slabs: Slabs, large: map<nat, nat>, free: set<nat>,
                    arena: set<nat>,
                    idle: set<nat>, p: nat)
    requires HeapOk(mem, slabs, large, free, arena, idle) && p in SmallLive(slabs) + LargeLive(large)
    ensures p % 4096 != 0 ==> p in SmallLive(slabs) && p / 4096 in slabs
    ensures p % 4096 == 0 ==> p in LargeLive(large) && p / 4096 !in slabs && p / 4096 - 1 in large
  {
    if p in SmallLive(slabs) {
      SmallKind(slabs, p);
    } else {
      LargeKind(mem, slabs, large, free, arena, idle, p);
    }
  }

  lemma SmallKind(slabs: Slabs, p: nat)
    requires p in SmallLive(slabs)
    ensures p % 4096 != 0 && p / 4096 in slabs
  {
    var s, i := SmallLiveIn(slabs, p);
    SlotBehindHeader(s, slabs[s].cache % 8, i);
  }

  lemma SlotBehindHeader(s: nat, k: nat, i: nat)
    requires k < NUM_CLASSES && i < Capacity(k)
    ensures SlotAddress(s, k, i) % 4096 != 0
  {
    SlotsApart(k, i, i);
  }

  lemma LargeKind(mem: seq<Page>, slabs: Slabs, large: map<nat, nat>, free: set<nat>,
                  arena: set<nat>,
                  idle: set<nat>, p: nat)
    requires HeapOk(mem, slabs, large, free, arena, idle) && p in LargeLive(large)
    ensures p % 4096 == 0 && p / 4096 !in slabs && p / 4096 - 1 in large
  {
    var b :| b in large && p == (b + 1) * 4096;
    PayloadNotSlab(mem, slabs, large, free, arena, idle, b);
    PageOf(b + 1);
  }

  lemma PageOf(b: nat)
    ensures b * 4096 % 4096 == 0 && b * 4096 / 4096 == b
  {
  }

  ghost function UsableBytes(slabs: Slabs, large: map<nat, nat>, ptr: nat): nat {
    var page := ptr / 4096;
    if page in slabs then ObjSize(slabs[page].cache % 8)
    else if page > 0 && page - 1 in large then 4096 * Payload(large[page - 1])
    else 0
  }

  /** Pages of a run behind its metadata page. */
  function Payload(pages: nat): nat {
    var size := Pow2(OrderFor(pages));
    if size == 0 then 0 else size - 1
  }

  lemma SmallUsable(slabs: Slabs, large: map<nat, nat>, c: nat, ptr: nat)
    requires ObjectOf(slabs, c, ptr)
    ensures UsableBytes(slabs, large, ptr) == ObjSize(c % 8) && ptr % 4096 != 0
  {
    var s: nat, i: nat :| LiveSlot(slabs, s, i) && slabs[s].cache == c && ptr == SlotAddress(s, c % 8, i);
    SlotInPage(s, c % 8, i);
    SlotBehindHeader(s, c % 8, i);
  }

  /** The object size of the class for a small size. */
  function ClassBytes(size: nat): nat {
    if ClassFor(size) >= 0 then ObjSize(ClassFor(size)) else 0
  }

  /** A run of at least two pages holds the page after its metadata. */
  lemma RunRange(b: nat, pages: nat, x: nat)
    requires b == Shl(Shr(b, OrderFor(pages)), OrderFor(pages))
    ensures x in Run(b, pages) <==> b <= x < b + Pow2(OrderFor(pages))
    ensures pages <= Pow2(OrderFor(pages))
  {
    ShrIff(x, Shr(b, OrderFor(pages)), OrderFor(pages));
    OrderForIsLeast(pages, 0);
  }

  lemma PayloadNotSlab(mem: seq<Page>, slabs: Slabs, large: map<nat, nat>, free: set<nat>,
                       arena: set<nat>, idle: set<nat>, b: nat)
    requires HeapOk(mem, slabs, large, free, arena, idle) && b in large
    ensures b + 1 in Run(b, large[b]) && b + 1 !in slabs
    ensures Payload(large[b]) + 1 == Pow2(OrderFor(large[b])) >= large[b]
  {
    assert RunOk(mem, b, large[b]);
    RunRange(b, large[b], b + 1);
    assert b + 1 in RunPages(large);
  }

  lemma LargeUsable(mem: seq<Page>, slabs: Slabs, large: map<nat, nat>, free: set<nat>,
                    arena: set<nat>, size: nat, ptr: nat)
    requires HeapOk(mem, slabs, large, free, arena, {}) && 0 < size && size + 4095 < ADDRESS_LIMIT
    requires exists b :: b in large && ptr == (b + 1) * 4096 && large[b] == PagesNeeded(size)
    ensures UsableBytes(slabs, large, ptr) >= size
  {
    var b :| b in large && ptr == (b + 1) * 4096 && large[b] == PagesNeeded(size);
    PayloadNotSlab(mem, slabs, large, free, arena, {}, b);
    PagesNeededIff(size);
    assert ptr / 4096 == b + 1;
  }

  /** Work on the page allocator leaves the caches alone. */
  twostate lemma CachesUnchanged(c: SlabCaches)
    requires old(c.Valid()) && unchanged(c)
    ensures c.Valid()
  {
  }

  /** The metadata of a large allocation describes a run that may be freed as such. */
  lemma RunIsFreeable(mem: seq<Page>, slabs: Slabs, large: map<nat, nat>, m: Pmm, arena: set<nat>,
                      b: nat)
    requires HeapOk(mem, slabs, large, m.free, arena, {}) && b in large && |mem| == m.pages
    ensures 0 < b < |mem| && mem[b].metaPages == large[b] && OrderFor(large[b]) <= MAX_ORDER
    ensures m.Freeable(b, OrderFor(large[b]))
  {
    assert RunOk(mem, b, large[b]);
    OwnRunOut(m.free, slabs.Keys, large, arena, b);
  }

  lemma RunStart(b: nat, pages: nat, free: set<nat>)
    requires b == Shl(Shr(b, OrderFor(pages)), OrderFor(pages)) && Run(b, pages) <= free
    ensures b in free
  {
    BlockHasPage(Shr(b, OrderFor(pages)), OrderFor(pages));
  }

  /** Work on the caches leaves the page allocator alone. */
  twostate lemma PmmUnchanged(m: Pmm)
    requires old(m.Valid()) && unchanged(m) && unchanged(m.lists) && unchanged(m.bits)
    ensures m.Valid()
  {
  }

  lemma PoppedSlot(slabs': Slabs, slabs: Slabs, s: nat, c: nat, chain: seq<nat>)
    requires s in slabs && slabs[s] == Slab(c, chain) && chain != [] && slabs' == slabs[s := Slab(c, chain[1..])]
    requires forall n :: 0 <= n < |chain| ==> chain[n] < Capacity(c % 8)
    requires forall m, n :: 0 <= m < n < |chain| ==> chain[m] != chain[n]
    ensures SlotAddress(s, c % 8, chain[0]) !in SmallLive(slabs)
    ensures SmallLive(slabs') == SmallLive(slabs) + {SlotAddress(s, c % 8, chain[0])}
    ensures |chain[1..]| < Capacity(c % 8)
  {
    assert forall j :: j in chain <==> j in chain[1..] || j == chain[0];
    OneSlot(slabs', s, chain, chain[0]);
    assert slabs'[s := Slab(c, chain)] == slabs;
    ChainFits(chain, Capacity(c % 8));
  }

  /** Objects never start on a page boundary, large payloads always do. */
  lemma SmallNotLarge(s: nat, k: nat, i: nat, large: map<nat, nat>)
    requires k < NUM_CLASSES && i < Capacity(k)
    ensures SlotAddress(s, k, i) !in LargeLive(large) && SlotAddress(s, k, i) != 0
  {
    SlotsApart(k, i, i);
  }
}
