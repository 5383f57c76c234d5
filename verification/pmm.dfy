/** The physical memory manager after initialize_buddy: allocation by splitting, and
    freeing by merging, over free lists and buddy bits that record no allocated block. */
module PhysicalMemory {
  import opened Shifts
  import opened Links
  import opened MemoryLayout
  import opened BuddyBlocks
  import opened BuddyLists
  import opened BuddyBitmap
  import opened Tracking

  /** The least k with n <= 2^k. */
  function OrderFor(n: nat): nat {
    if n <= 1 then 0 else 1 + OrderFor((n + 1) / 2)
  }

  lemma {:induction false} OrderForIsLeast(n: nat, k: nat)
    ensures n <= Pow2(OrderFor(n))
    ensures n <= Pow2(k) ==> OrderFor(n) <= k
    decreases n
  {
    if n > 1 {
      OrderForIsLeast((n + 1) / 2, if k == 0 then 0 else k - 1);
    }
  }

  /** pages_to_order */
  method PagesToOrder(pages: nat) returns (order: nat)
    ensures order == OrderFor(pages)
  {
    if pages <= 1 {
      return 0;
    }
    order := 0;
    var count: nat := pages - 1;
    while count > 0
      invariant OrderFor(pages) == order + OrderFor(count + 1)
    {
      count := count / 2;
      order := order + 1;
    }
  }

  class Pmm {
    const pages: nat
    const lists: FreeLists
    const bits: BuddyMap
    const totalMemory: nat
    var freeMemory: nat
    var usedMemory: nat
    /** The free pages: what the lists stand for. */
    ghost var free: set<nat>

    /** Lists and bits stand for the page set f. */
    ghost predicate Tracks(f: set<nat>)
      reads this, lists, bits
    {
      && 0 < pages <= 0x10_0000_0000_0000
      && lists.Valid() && |lists.next| == pages
      && bits.Valid() && bits.maxPfn == pages - 1
      && (forall x :: x in f ==> 0 < x < pages)
      && ListsTrack(lists.lists, f)
      && BitsTrack(bits, f)
    }

    ghost predicate Valid()
      reads this, lists, bits
    {
      && Tracks(free)
      && freeMemory == 4096 * |free|
      && usedMemory == Wrap(totalMemory - freeMemory)
    }

    /** A block a caller may free: aligned, managed, without page 0, and free nowhere. */
    ghost predicate Freeable(pfn: nat, order: nat)
      reads this
    {
      && pfn == Shl(Shr(pfn, order), order)
      && (forall x :: x in Pages(Shr(pfn, order), order) ==> 0 < x < pages)
      && Pages(Shr(pfn, order), order) !! free
    }

    constructor (pages: nat, totalMemory: nat)
      requires 0 < pages <= 0x10_0000_0000_0000 && totalMemory < ADDRESS_LIMIT
      ensures Valid() && fresh(lists) && fresh(bits)
      ensures this.pages == pages && this.totalMemory == totalMemory && free == {}
    {
      this.pages := pages;
      this.totalMemory := totalMemory;
      lists := new FreeLists(pages);
      bits := new BuddyMap(pages - 1);
      freeMemory := 0;
      usedMemory := totalMemory;
      free := {};
      new;
      EmptyTracks();
    }

    lemma EmptyTracks()
      requires bits.Valid()
      requires lists.lists == seq(NUM_ORDERS, _ => [])
      requires forall k: nat, i: nat :: bits.HasPair(k, i) ==> !bits.Bit(k, i)
      ensures ListsTrack(lists.lists, {}) && BitsTrack(bits, {})
    {
      forall k: nat, i: nat
        ensures !Whole({}, i, k)
      {
        BlockHasPage(i, k);
      }
    }

    /** Every public operation begins a new record of stores. */
    method BeginRecord()
      requires Valid()
      modifies lists`record
      ensures Valid() && AreHeads(lists.record.before, free)
      ensures lists.record.stored == {} && !lists.record.linking
    {
      NodesAreHeads(lists.lists, free);
      lists.Forget();
    }

    /** What the record says at the end. */
    lemma EndRecord(before: set<nat>)
      requires Valid() && AreHeads(lists.record.before, before)
      ensures StoredHeads(lists.record.stored, before, free)
    {
      NodesAreHeads(lists.lists, free);
      RecordedHeads(lists.record, before, free);
    }

    /** list_add of block (i, k) once its bit is toggled. */
    method AddBlock(pfn: nat, k: nat, ghost f: set<nat>)
      requires lists.Valid() && |lists.next| == pages && ListsTrack(lists.lists, f)
      requires pfn == Shl(Shr(pfn, k), k) && Addable(f, Shr(pfn, k), k) && pfn < pages
      modifies lists
      ensures lists.Valid() && |lists.next| == pages
      ensures ListsTrack(lists.lists, f + Pages(Shr(pfn, k), k))
      ensures lists.record.before == old(lists.record.before)
    {
      ghost var i := Shr(pfn, k);
      NotListed(lists.lists, f, i, k);
      ListsAfterAdd(lists.lists, f, i, k);
      lists.Add(pfn, k);
    }

    /** list_remove of a block that is known to be listed. */
    method RemoveBlock(pfn: nat, k: nat, ghost f: set<nat>)
      requires lists.Valid() && |lists.next| == pages && ListsTrack(lists.lists, f)
      requires HeadsBlock(f, pfn, k)
      requires !lists.record.linking
      modifies lists
      ensures lists.Valid() && |lists.next| == pages
      ensures ListsTrack(lists.lists, f - Pages(Shr(pfn, k), k))
      ensures lists.record.before == old(lists.record.before) && !lists.record.linking
    {
      ListsAfterRemove(lists.lists, f, Shr(pfn, k), k);
      lists.Remove(pfn, k);
    }

    /** Moves pages between the two 64-bit counters. */
    method Recount(delta: int, ghost f: set<nat>)
      requires Tracks(f) && freeMemory == 4096 * |free|
      requires usedMemory == Wrap(totalMemory - freeMemory)
      requires |f| == |free| + delta
      modifies this`freeMemory, this`usedMemory, this`free
      ensures Valid() && free == f
    {
      BoundedCount(f, pages);
      CountersMove(totalMemory, |free|, delta);
      usedMemory := Wrap(usedMemory - 4096 * delta);
      freeMemory := Wrap(freeMemory + 4096 * delta);
      free := f;
    }

    /** Lists and bits stand for f, except that the bits already count block (i, k). */
    ghost predicate TracksBut(f: set<nat>, i: nat, k: nat)
      reads this, lists, bits
    {
      && 0 < pages <= 0x10_0000_0000_0000
      && lists.Valid() && |lists.next| == pages
      && bits.Valid() && bits.maxPfn == pages - 1
      && ListsTrack(lists.lists, f)
      && Addable(f, i, k)
      && BitsTrack(bits, f + Pages(i, k))
    }

    /** One round of the merge loop: toggles the bit of the pair and, if that says the
        buddy is free too, unlinks the buddy. */
    method TakeBuddy(pfn: nat, k: nat, ghost rest: set<nat>) returns (bitIsNowOne: bool)
      requires Tracks(rest) && k < MAX_ORDER
      requires pfn == Shl(Shr(pfn, k), k) && pfn < pages
      requires rest !! Pages(Shr(pfn, k), k)
      requires !lists.record.linking
      modifies lists, bits
      ensures bitIsNowOne ==> TracksBut(rest, Shr(pfn, k), k)
      ensures !bitIsNowOne ==>
                && Whole(rest, Buddy(Shr(pfn, k)), k)
                && Tracks(rest - Pages(Buddy(Shr(pfn, k)), k))
      ensures lists.record.before == old(lists.record.before) && !lists.record.linking
    {
      ghost var i := Shr(pfn, k);
      BlockHead(i, k);
      NeverWhole(rest, i, k);
      bitIsNowOne := FlipPair(bits, pfn, k, rest);
      if !bitIsNowOne {
        BuddyIsListed(rest, i, k);
        RemoveBlock(FlipBit(pfn, k), k, rest);
      }
    }

    /** The merge loop: the block ends up in lists that admit it without merging. */
    method Merge(pfn0: nat, order: nat, ghost target: set<nat>) returns (pfn: nat, k: nat, ghost rest: set<nat>)
      requires Tracks(free) && order <= MAX_ORDER && Freeable(pfn0, order)
      requires target == free + Pages(Shr(pfn0, order), order)
      requires !lists.record.linking
      modifies lists, bits
      ensures k <= MAX_ORDER && pfn < pages && pfn == Shl(Shr(pfn, k), k)
      ensures TracksBut(rest, Shr(pfn, k), k) && rest + Pages(Shr(pfn, k), k) == target
      ensures lists.record.before == old(lists.record.before) && !lists.record.linking
    {
      pfn, k, rest := pfn0, order, free;
      BlockHasPage(Shr(pfn, k), k);
      while k < MAX_ORDER
        invariant k <= MAX_ORDER && pfn == Shl(Shr(pfn, k), k) && pfn < pages
        invariant rest !! Pages(Shr(pfn, k), k) && rest + Pages(Shr(pfn, k), k) == target
        invariant Tracks(rest)
        invariant lists.record.before == old(lists.record.before) && !lists.record.linking
      {
        var bitIsNowOne := TakeBuddy(pfn, k, rest);
        if bitIsNowOne {
          return;
        }
        ghost var i := Shr(pfn, k);
        MergedBlock(rest, target, pfn, i, k);
        rest := rest - Pages(Buddy(i), k);
        pfn := ClearBit(pfn, k);
        k := k + 1;
      }
      BitsAtTop(bits, rest, Shr(pfn, k));
    }

    /** Merges a block with its free buddies, then lists the result. */
    method MergeIn(pfn0: nat, order: nat, ghost target: set<nat>)
      requires Tracks(free) && order <= MAX_ORDER && Freeable(pfn0, order) && !lists.record.linking
      requires target == free + Pages(Shr(pfn0, order), order)
      modifies lists, bits
      ensures Tracks(target) && lists.record.before == old(lists.record.before)
    {
      var pfn, k;
      ghost var rest;
      pfn, k, rest := Merge(pfn0, order, target);
      AddBlock(pfn, k, rest);
    }

    /** Adds a block to the free memory. */
    method FreeBlock(pfn0: nat, order: nat)
      requires Valid() && order <= MAX_ORDER && Freeable(pfn0, order) && !lists.record.linking
      modifies this`freeMemory, this`usedMemory, this`free, lists, bits
      ensures Valid() && free == old(free) + Pages(Shr(pfn0, order), order)
      ensures lists.record.before == old(lists.record.before)
    {
      ghost var target := free + Pages(Shr(pfn0, order), order);
      CountAdded(free, Shr(pfn0, order), order);
      MergeIn(pfn0, order, target);
      Recount(Pow2(order), target);
    }

    /** free_pages_order: the null pointer and orders above the highest are ignored. */
    method FreePagesOrder(ptr: nat, order: nat)
      requires Valid()
      requires ptr != 0 && order <= MAX_ORDER ==> Freeable(PfnOf(ptr), order)
      modifies this`freeMemory, this`usedMemory, this`free, lists, bits
      ensures Valid()
      ensures ptr == 0 || order > MAX_ORDER ==>
                free == old(free)
      ensures ptr != 0 && order <= MAX_ORDER ==>
                free == old(free) + Pages(Shr(PfnOf(ptr), order), order)
      ensures StoredHeads(lists.record.stored, old(free), free)
    {
      BeginRecord();
      if ptr != 0 && order <= MAX_ORDER {
        FreeBlock(PfnOf(ptr), order);
      }
      EndRecord(old(free));
    }

    /** free_pages */
    method FreePages(ptr: nat, num: nat)
      requires Valid()
      requires ptr != 0 && OrderFor(num) <= MAX_ORDER ==> Freeable(PfnOf(ptr), OrderFor(num))
      modifies this`freeMemory, this`usedMemory, this`free, lists, bits
      ensures Valid()
      ensures ptr == 0 || OrderFor(num) > MAX_ORDER ==>
                free == old(free)
      ensures ptr != 0 && OrderFor(num) <= MAX_ORDER ==>
                free == old(free) + Pages(Shr(PfnOf(ptr), OrderFor(num)), OrderFor(num))
      ensures StoredHeads(lists.record.stored, old(free), free)
    {
      var order := PagesToOrder(num);
      FreePagesOrder(ptr, order);
    }

    /** Takes a listed block out: list_remove and the toggle that goes with it. */
    method TakeBlock(pfn: nat, k: nat)
      requires Valid() && HeadsBlock(free, pfn, k)
      requires !lists.record.linking
      modifies lists, bits
      ensures Tracks(free - Pages(Shr(pfn, k), k))
      ensures lists.record.before == old(lists.record.before) && !lists.record.linking
    {
      BlockHasPage(Shr(pfn, k), k);
      BlockHead(Shr(pfn, k), k);
      RemoveBlock(pfn, k, free);
      var _ := FlipPair(bits, pfn, k, free);
    }

    /** One round of splitting: lists one half of a block and toggles the bit of the pair. */
    method GiveHalf(keep: nat, give: nat, k: nat, ghost f: set<nat>)
      requires Tracks(f) && k < MAX_ORDER
      requires keep == Shl(Shr(keep, k), k) && give == Shl(Buddy(Shr(keep, k)), k)
      requires Pages(Shr(keep, k), k) !! f && Pages(Buddy(Shr(keep, k)), k) !! f
      requires forall x :: x in Pages(Shr(keep, k), k) ==> 0 < x < pages
      requires forall x :: x in Pages(Buddy(Shr(keep, k)), k) ==> 0 < x < pages
      modifies lists, bits
      ensures Tracks(f + Pages(Buddy(Shr(keep, k)), k))
      ensures lists.record.before == old(lists.record.before)
    {
      ghost var i := Shr(keep, k);
      BlockHead(i, k);
      BlockHead(Buddy(i), k);
      BlockHasPage(i, k);
      BlockHasPage(Buddy(i), k);
      assert Buddy(Buddy(i)) == i;
      AddBlock(give, k, f);
      var _ := FlipPair(bits, keep, k, f);
    }

    /** Splits block (i, k + 1) of f, which is out of the lists, and keeps one half. */
    method KeepHalf(keep: nat, give: nat, k: nat, ghost f: set<nat>, ghost i: nat)
      requires k < MAX_ORDER && Whole(f, i, k + 1) && Tracks(f - Pages(i, k + 1))
      requires forall x :: x in f ==> 0 < x < pages
      requires || (keep == Shl(2 * i, k) && give == Shl(2 * i + 1, k))
               || (keep == Shl(2 * i + 1, k) && give == Shl(2 * i, k))
      modifies lists, bits
      ensures Tracks(f - Pages(Shr(keep, k), k))
      ensures lists.record.before == old(lists.record.before)
    {
      BlockHead(2 * i, k);
      BlockHead(2 * i + 1, k);
      HalfLeaves(f, i, k);
      GiveHalf(keep, give, k, f - Pages(i, k + 1));
    }

    /** The split loop of alloc_pages: keeps the lower half each time. */
    method SplitDown(pfn: nat, from: nat, order: nat, ghost f: set<nat>)
      requires order <= from <= MAX_ORDER && pfn == Shl(Shr(pfn, from), from)
      requires Whole(f, Shr(pfn, from), from) && Tracks(f - Pages(Shr(pfn, from), from))
      requires forall x :: x in f ==> 0 < x < pages
      modifies lists, bits
      ensures pfn == Shl(Shr(pfn, order), order)
      ensures Whole(f, Shr(pfn, order), order) && Tracks(f - Pages(Shr(pfn, order), order))
      ensures lists.record.before == old(lists.record.before)
    {
      var k := from;
      while k > order
        invariant order <= k <= from && pfn == Shl(Shr(pfn, k), k)
        invariant Whole(f, Shr(pfn, k), k) && Tracks(f - Pages(Shr(pfn, k), k))
        invariant lists.record.before == old(lists.record.before)
      {
        ghost var i := Shr(pfn, k);
        k := k - 1;
        LowerHalf(i, k);
        HalvesWhole(f, i, k + 1);
        var buddyPfn := FlipBit(pfn, k);
        KeepHalf(pfn, buddyPfn, k, f, i);
      }
    }

    /** The search for an order with a free block. */
    method FirstNonEmpty(order: nat) returns (k: nat)
      requires lists.Valid() && order <= MAX_ORDER
      ensures order <= k <= NUM_ORDERS
      ensures forall j :: order <= j < k ==> lists.lists[j] == []
      ensures k < NUM_ORDERS ==> lists.lists[k] != []
    {
      k := order;
      while k <= MAX_ORDER && lists.heads[k] == NIL
        invariant order <= k <= NUM_ORDERS
        invariant forall j :: order <= j < k ==> lists.lists[j] == []
      {
        HeadInBounds(lists.heads[k], lists.next, lists.prev, lists.lists[k]);
        k := k + 1;
      }
    }

    /** Takes the first block of list k and splits it down to the order asked for. */
    method TakeRun(k: nat, order: nat) returns (pfn: nat)
      requires Valid() && order <= k <= MAX_ORDER && lists.lists[k] != []
      requires !lists.record.linking
      modifies this`freeMemory, this`usedMemory, this`free, lists, bits
      ensures Valid() && pfn == Shl(Shr(pfn, order), order) && pfn > 0
      ensures HeadsBlock(old(free), pfn, k)
      ensures Whole(old(free), Shr(pfn, order), order)
      ensures free == old(free) - Pages(Shr(pfn, order), order)
      ensures lists.record.before == old(lists.record.before)
    {
      HeadInBounds(lists.heads[k], lists.next, lists.prev, lists.lists[k]);
      pfn := lists.heads[k];
      assert pfn in lists.lists[k];
      TakeBlock(pfn, k);
      SplitDown(pfn, k, order, free);
      CountTaken(free, Shr(pfn, order), order);
      BlockHasPage(Shr(pfn, order), order);
      Recount(0 - Pow2(order), free - Pages(Shr(pfn, order), order));
    }

    /** Takes a block of 2^order pages, by number, or 0. */
    method AllocOrder(order: nat) returns (pfn: nat)
      requires Valid() && order <= MAX_ORDER && !lists.record.linking
      modifies this`freeMemory, this`usedMemory, this`free, lists, bits
      ensures Valid() && lists.record.before == old(lists.record.before)
      ensures pfn == 0 <==> forall i: nat :: !Whole(old(free), i, order)
      ensures pfn == 0 ==> free == old(free) && lists.record == old(lists.record)
      ensures pfn != 0 ==>
                && pfn == Shl(Shr(pfn, order), order) && Whole(old(free), Shr(pfn, order), order)
                && free == old(free) - Pages(Shr(pfn, order), order) && FromLeastBlock(old(free), pfn, order)
    {
      var k := FirstNonEmpty(order);
      if k > MAX_ORDER {
        NothingListed(lists.lists, free, order);
        return 0;
      }
      NoneSmaller(lists.lists, free, order, k);
      pfn := TakeRun(k, order);
    }

    /** alloc_pages: fails exactly when no aligned run of 2^order free pages exists, and
        otherwise takes such a run out of the free pages. */
    method AllocPages(num: nat) returns (ptr: nat)
      requires Valid()
      modifies this`freeMemory, this`usedMemory, this`free, lists, bits
      ensures Valid()
      ensures ptr == 0 <==>
                OrderFor(num) > MAX_ORDER || forall i: nat :: !Whole(old(free), i, OrderFor(num))
      ensures ptr == 0 ==> free == old(free) && lists.record.stored == {}
      ensures ptr != 0 ==>
                && OrderFor(num) <= MAX_ORDER && PageAligned(ptr)
                && PfnOf(ptr) == Shl(Shr(PfnOf(ptr), OrderFor(num)), OrderFor(num))
                && Whole(old(free), Shr(PfnOf(ptr), OrderFor(num)), OrderFor(num))
                && free == old(free) - Pages(Shr(PfnOf(ptr), OrderFor(num)), OrderFor(num))
                && FromLeastBlock(old(free), PfnOf(ptr), OrderFor(num))
      ensures StoredHeads(lists.record.stored, old(free), free)
    {
      BeginRecord();
      EndRecord(old(free));
      var order := PagesToOrder(num);
      if order > MAX_ORDER {
        return 0;
      }
      var pfn := AllocOrder(order);
      EndRecord(old(free));
      SinglePage(pfn);
      ptr := pfn * 4096;
    }

    /** alloc_pages with its default argument: one page, by number, or 0. */
    method AllocPage() returns (pfn: nat)
      requires Valid()
      modifies this`freeMemory, this`usedMemory, this`free, lists, bits
      ensures Valid()
      ensures pfn == 0 <==> old(free) == {}
      ensures pfn == 0 ==> free == old(free) && lists.record.stored == {}
      ensures pfn != 0 ==> pfn in old(free) && free == old(free) - {pfn}
      ensures StoredHeads(lists.record.stored, old(free), free)
    {
      var ptr := AllocPages(1);
      NothingWhole(old(free));
      SinglePage(PfnOf(ptr));
      pfn := PfnOf(ptr);
    }

    /** free_pages with its default count: one page. */
    method FreePage(pfn: nat)
      requires Valid() && 0 < pfn < pages && pfn !in free
      modifies this`freeMemory, this`usedMemory, this`free, lists, bits
      ensures Valid() && free == old(free) + {pfn}
      ensures StoredHeads(lists.record.stored, old(free), free)
    {
      SinglePage(pfn);
      FreePages(pfn * 4096, 1);
    }

    /** The block of one list that contains a page, or NIL. */
    method ScanList(order: nat, target: nat) returns (curr: int)
      requires Valid() && order <= MAX_ORDER
      ensures curr != NIL ==> curr >= 0 && HeadsBlock(free, curr, order) && target in Pages(Shr(curr, order), order)
      ensures curr == NIL ==>
                forall p: nat :: HeadsBlock(free, p, order) ==> target !in Pages(Shr(p, order), order)
    {
      ghost var nodes := lists.lists[order];
      HeadInBounds(lists.heads[order], lists.next, lists.prev, nodes);
      curr := lists.heads[order];
      ghost var n := 0;
      while curr != NIL
        invariant 0 <= n <= |nodes| && curr == At(nodes, n)
        invariant forall m :: 0 <= m < n ==> target !in Pages(Shr(nodes[m], order), order)
        decreases |nodes| - n
      {
        assert nodes[n] in nodes && HeadsBlock(free, nodes[n], order);
        assert NodeLinked(lists.next, lists.prev, nodes, n);
        ShrIff(target, Shr(nodes[n], order), order);
        if curr <= target < curr + Pow2(order) {
          return;
        }
        curr := lists.next[curr];
        n := n + 1;
      }
      forall p: nat | HeadsBlock(free, p, order)
        ensures target !in Pages(Shr(p, order), order)
      {
        assert p in nodes;
      }
    }

    /** The free block that contains a page, if any. */
    method FindBlock(target: nat) returns (curr: int, order: nat)
      requires Valid()
      ensures curr != NIL ==>
                && curr >= 0 && order <= MAX_ORDER
                && HeadsBlock(free, curr, order) && target in Pages(Shr(curr, order), order)
      ensures curr == NIL <==> target !in free
    {
      order := 0;
      while order <= MAX_ORDER
        invariant order <= NUM_ORDERS
        invariant forall k: nat, p: nat :: k < order && HeadsBlock(free, p, k) ==> target !in Pages(Shr(p, k), k)
      {
        curr := ScanList(order, target);
        if curr != NIL {
          return;
        }
        order := order + 1;
      }
      curr := NIL;
      if target in free {
        var k := CanonicalAncestor(free, target, 0);
        ShrShl(Shr(target, k), k);
        assert false;
      }
    }

    /** is_page_free */
    method IsPageFree(target: nat) returns (r: bool)
      requires Valid()
      ensures r <==> target in free
    {
      var curr, _ := FindBlock(target);
      r := curr != NIL;
    }

    /** The split loop of allocate_specific_page: keeps the half with the target. */
    method SplitToward(pfn0: nat, order: nat, target: nat, ghost f: set<nat>)
      requires order <= MAX_ORDER && pfn0 == Shl(Shr(pfn0, order), order)
      requires Whole(f, Shr(pfn0, order), order) && Tracks(f - Pages(Shr(pfn0, order), order))
      requires target in Pages(Shr(pfn0, order), order)
      requires forall x :: x in f ==> 0 < x < pages
      modifies lists, bits
      ensures Tracks(f - {target})
      ensures lists.record.before == old(lists.record.before)
    {
      var pfn: nat, k: nat := pfn0, order;
      while k > 0
        invariant k <= order && pfn == Shl(Shr(pfn, k), k)
        invariant Whole(f, Shr(pfn, k), k) && Tracks(f - Pages(Shr(pfn, k), k))
        invariant target in Pages(Shr(pfn, k), k)
        invariant lists.record.before == old(lists.record.before)
      {
        ghost var i := Shr(pfn, k);
        k := k - 1;
        LowerHalf(i, k);
        HalfLeaves(f, i, k);
        var buddyPfn := FlipBit(pfn, k);
        ShrIff(target, 2 * i + 1, k);
        if buddyPfn <= target < buddyPfn + Pow2(k) {
          KeepHalf(buddyPfn, pfn, k, f, i);
          pfn := buddyPfn;
        } else {
          KeepHalf(pfn, buddyPfn, k, f, i);
        }
      }
      assert Pages(Shr(pfn, 0), 0) == {target};
    }

    /** Takes one page out of the block that contains it. */
    method TakePage(pfn: nat, order: nat, target: nat)
      requires Valid() && order <= MAX_ORDER && !lists.record.linking
      requires HeadsBlock(free, pfn, order) && target in Pages(Shr(pfn, order), order)
      modifies this`freeMemory, this`usedMemory, this`free, lists, bits
      ensures Valid() && free == old(free) - {target}
      ensures lists.record.before == old(lists.record.before)
    {
      TakeBlock(pfn, order);
      SplitToward(pfn, order, target, free);
      SinglePage(target);
      CountTaken(free, Shr(target, 0), 0);
      Recount(-1, free - {target});
    }

    /** allocate_specific_page: takes out one page if it is free. */
    method AllocateSpecificPage(target: nat) returns (r: bool)
      requires Valid()
      modifies this`freeMemory, this`usedMemory, this`free, lists, bits
      ensures Valid()
      ensures r <==> target in old(free)
      ensures free == old(free) - {target}
      ensures StoredHeads(lists.record.stored, old(free), free)
    {
      BeginRecord();
      var curr, order := FindBlock(target);
      r := curr != NIL;
      if r {
        TakePage(curr, order, target);
      }
      EndRecord(old(free));
    }

    /** alloc_page_below_1mib: the lowest free page with PFN 8..255. */
    method AllocPageBelow1Mib() returns (ptr: nat)
      requires Valid()
      modifies this`freeMemory, this`usedMemory, this`free, lists, bits
      ensures Valid()
      ensures ptr == 0 <==> forall x: nat :: 8 <= x < 256 ==> x !in old(free)
      ensures ptr == 0 ==> free == old(free)
      ensures ptr != 0 ==>
                && PageAligned(ptr) && 8 <= PfnOf(ptr) < 256
                && PfnOf(ptr) in old(free)
                && (forall x: nat :: 8 <= x < PfnOf(ptr) ==> x !in old(free))
                && free == old(free) - {PfnOf(ptr)} && StoredHeads(lists.record.stored, old(free), free)
    {
      var pfn := LowestPage();
      SinglePage(pfn);
      ptr := pfn * 4096;
    }

    /** Its search, by page frame numbers. */
    method LowestPage() returns (pfn: nat)
      requires Valid()
      modifies this`freeMemory, this`usedMemory, this`free, lists, bits
      ensures Valid()
      ensures pfn == 0 ==> free == old(free) && forall x: nat :: 8 <= x < 256 ==> x !in old(free)
      ensures pfn != 0 ==> 8 <= pfn < 256 && pfn in old(free) && free == old(free) - {pfn}
      ensures forall x: nat :: 8 <= x < pfn ==> x !in old(free)
      ensures pfn != 0 ==> StoredHeads(lists.record.stored, old(free), free)
    {
      for p := 8 to 256
        invariant Valid() && free == old(free)
        invariant forall x: nat :: 8 <= x < p ==> x !in old(free)
      {
        var r := AllocateSpecificPage(p);
        if r {
          return p;
        }
      }
      return 0;
    }

    /** One round of mark_region_free. Page 0 is left alone: its address is null. */
    method FreeIfUsed(pfn: nat)
      requires Valid() && pfn < pages
      modifies this`freeMemory, this`usedMemory, this`free, lists, bits
      ensures Valid() && free == old(free) + ({pfn} - {0})
    {
      var isFree := IsPageFree(pfn);
      if !isFree {
        SinglePage(pfn);
        FreePages(pfn * 4096, 1);
      }
    }

    /** The loop of mark_region_free, by page frame numbers. */
    method FreeRange(lo: nat, hi: nat)
      requires Valid() && hi <= pages
      modifies this`freeMemory, this`usedMemory, this`free, lists, bits
      ensures Valid() && free == WithRange(old(free), lo, hi)
    {
      NoneYet(free, lo, hi);
      if lo >= hi {
        return;
      }
      var pfn := lo;
      while pfn < hi
        invariant Valid() && lo <= pfn <= hi && free == WithRange(old(free), lo, pfn)
      {
        FreeNext(pfn, lo, old(free));
        pfn := pfn + 1;
      }
    }

    /** One round of it, with the pages freed so far. */
    method FreeNext(pfn: nat, ghost lo: nat, ghost start: set<nat>)
      requires Valid() && lo <= pfn < pages && free == WithRange(start, lo, pfn)
      modifies this`freeMemory, this`usedMemory, this`free, lists, bits
      ensures Valid() && free == WithRange(start, lo, pfn + 1)
    {
      AddNext(start, lo, pfn);
      FreeIfUsed(pfn);
    }

    /** mark_region_free: frees the whole pages of a region that are not free yet. */
    method MarkRegionFree(base: nat, length: nat)
      requires Valid() && base + length < ADDRESS_LIMIT
      requires PfnOf(base + length) <= pages
      modifies this`freeMemory, this`usedMemory, this`free, lists, bits
      ensures Valid()
      ensures free == old(free) + (InnerPages(base, length) - {0})
    {
      FreeRange(PfnOf(AlignUp(base)), PfnOf(AlignDown(base + length)));
    }

    /** mark_region_used: takes out every free page the region touches. */
    method MarkRegionUsed(base: nat, length: nat)
      requires Valid() && base + length + PAGE_SIZE <= ADDRESS_LIMIT
      modifies this`freeMemory, this`usedMemory, this`free, lists, bits
      ensures Valid()
      ensures free == old(free) - OuterPages(base, length)
    {
      UseRange(PfnOf(AlignDown(base)), PfnOf(AlignUp(base + length)));
    }

    /** The loop of mark_region_used, by page frame numbers. */
    method UseRange(lo: nat, hi: nat)
      requires Valid()
      modifies this`freeMemory, this`usedMemory, this`free, lists, bits
      ensures Valid() && free == WithoutRange(old(free), lo, hi)
    {
      NoneYet(free, lo, hi);
      if lo >= hi {
        return;
      }
      var pfn := lo;
      while pfn < hi
        invariant Valid() && lo <= pfn <= hi && free == WithoutRange(old(free), lo, pfn)
      {
        UseNext(pfn, lo, old(free));
        pfn := pfn + 1;
      }
    }

    /** One round of it, with the pages taken so far. */
    method UseNext(pfn: nat, ghost lo: nat, ghost start: set<nat>)
      requires Valid() && lo <= pfn && free == WithoutRange(start, lo, pfn)
      modifies this`freeMemory, this`usedMemory, this`free, lists, bits
      ensures Valid() && free == WithoutRange(start, lo, pfn + 1)
    {
      TakeNext(start, lo, pfn);
      var _ := AllocateSpecificPage(pfn);
    }
  }

  /** The run starts where a canonical block does, one of the least order from the requested one
      on of which there is any. */
  ghost predicate FromLeastBlock(free: set<nat>, pfn: nat, order: nat) {
    exists k: nat :: order <= k <= MAX_ORDER && HeadsBlock(free, pfn, k) && NoBlock(free, order, k)
  }

  /** No canonical block has an order in between. */
  ghost predicate NoBlock(free: set<nat>, lo: nat, hi: nat) {
    forall i: nat, k: nat :: lo <= k < hi ==> !Canonical(free, i, k)
  }

  lemma NoneSmaller(ls: seq<seq<nat>>, f: set<nat>, lo: nat, hi: nat)
    requires ListsTrack(ls, f) && hi <= NUM_ORDERS && forall j :: lo <= j < hi ==> ls[j] == []
    ensures NoBlock(f, lo, hi)
  {
    forall i: nat, k: nat | lo <= k < hi
      ensures !Canonical(f, i, k)
    {
      BlockHead(i, k);
      assert Shl(i, k) !in ls[k];
    }
  }

  ghost function WithRange(free: set<nat>, lo: nat, hi: nat): set<nat> {
    free + (PfnRange(lo, hi) - {0})
  }

  ghost function WithoutRange(free: set<nat>, lo: nat, hi: nat): set<nat> {
    free - PfnRange(lo, hi)
  }

  lemma NoneYet(free: set<nat>, lo: nat, hi: nat)
    ensures WithRange(free, lo, lo) == free && WithoutRange(free, lo, lo) == free
    ensures lo >= hi ==> WithRange(free, lo, hi) == free && WithoutRange(free, lo, hi) == free
  {
  }

  lemma NothingWhole(free: set<nat>)
    ensures (forall i: nat :: !Whole(free, i, OrderFor(1))) <==> free == {}
  {
    assert OrderFor(1) == 0;
    if forall i: nat :: !Whole(free, i, 0) {
      forall x: nat
        ensures x !in free
      {
        SinglePage(x);
        assert !Whole(free, Shr(x, 0), 0);
      }
    } else {
      var i: nat :| Whole(free, i, 0);
      BlockHasPage(i, 0);
    }
  }

  lemma SinglePage(pfn: nat)
    ensures PfnOf(pfn * 4096) == pfn && PageAligned(pfn * 4096) && OrderFor(1) == 0
    ensures Pages(Shr(pfn, 0), 0) == {pfn} && Shl(Shr(pfn, 0), 0) == pfn
  {
  }

  lemma LowerHalf(i: nat, k: nat)
    ensures Shr(Shl(i, k + 1), k) == 2 * i && Shl(2 * i, k) == Shl(i, k + 1)
    ensures FlipBit(Shl(i, k + 1), k) == Shl(2 * i + 1, k) && Buddy(2 * i) == 2 * i + 1
    ensures Shr(Shl(2 * i + 1, k), k) == 2 * i + 1
  {
    ShlShl(i, 1, k);
    assert Shl(i, 1) == 2 * Shl(i, 0);
    BlockHead(2 * i, k);
    ShrShl(2 * i + 1, k);
  }

  /** Taking one half of a block out of f is taking the block out and the other half back. */
  lemma HalfLeaves(f: set<nat>, i: nat, k: nat)
    requires Whole(f, i, k + 1)
    ensures Whole(f, 2 * i, k) && Whole(f, 2 * i + 1, k)
    ensures Pages(2 * i, k) !! f - Pages(i, k + 1) && Pages(2 * i + 1, k) !! f - Pages(i, k + 1)
    ensures f - Pages(i, k + 1) + Pages(2 * i + 1, k) == f - Pages(2 * i, k)
    ensures f - Pages(i, k + 1) + Pages(2 * i, k) == f - Pages(2 * i + 1, k)
    ensures Pages(i, k + 1) == Pages(2 * i, k) + Pages(2 * i + 1, k)
  {
    Halves(i, k + 1);
  }

  lemma CountAdded(f: set<nat>, i: nat, k: nat)
    requires Pages(i, k) !! f
    ensures |f + Pages(i, k)| == |f| + Pow2(k)
  {
    PageCount(i, k);
  }

  lemma CountTaken(f: set<nat>, i: nat, k: nat)
    requires Whole(f, i, k)
    ensures |f - Pages(i, k)| == |f| - Pow2(k)
  {
    PageCount(i, k);
    assert f == f - Pages(i, k) + Pages(i, k);
  }

  lemma NothingListed(ls: seq<seq<nat>>, f: set<nat>, order: nat)
    requires ListsTrack(ls, f)
    requires forall j :: order <= j < NUM_ORDERS ==> ls[j] == []
    ensures order <= MAX_ORDER ==> forall i: nat :: !Whole(f, i, order)
  {
    if i: nat :| order <= MAX_ORDER && Whole(f, i, order) {
      var j := CanonicalAncestor(f, i, order);
      assert false;
    }
  }

  lemma NeverWhole(rest: set<nat>, i: nat, k: nat)
    requires rest !! Pages(i, k)
    ensures !Whole(rest, i, k)
    ensures !PairBit(rest, i / 2, k) ==> !Whole(rest, Buddy(i), k)
    ensures PairBit(rest, i / 2, k) ==> Whole(rest, Buddy(i), k)
  {
    BlockHasPage(i, k);
    assert i == 2 * (i / 2) || i == 2 * (i / 2) + 1;
  }

  /** When the toggled bit reads 0, the buddy is a node of list k. */
  lemma BuddyIsListed(rest: set<nat>, i: nat, k: nat)
    requires k < MAX_ORDER && rest !! Pages(i, k) && PairBit(rest, i / 2, k)
    ensures HeadsBlock(rest, Shl(Buddy(i), k), k) && Canonical(rest, Buddy(i), k)
    ensures Shr(Shl(Buddy(i), k), k) == Buddy(i)
  {
    NeverWhole(rest, i, k);
    BlockHead(Buddy(i), k);
    HalvesWhole(rest, i / 2, k + 1);
  }

  lemma MergedBlock(rest: set<nat>, target: set<nat>, pfn: nat, i: nat, k: nat)
    requires k < MAX_ORDER && rest !! Pages(i, k) && rest + Pages(i, k) == target
    requires Whole(rest, Buddy(i), k) && pfn == Shl(i, k)
    ensures rest - Pages(Buddy(i), k) !! Pages(i / 2, k + 1)
    ensures rest - Pages(Buddy(i), k) + Pages(i / 2, k + 1) == target
    ensures Shr(ClearBit(pfn, k), k + 1) == i / 2 && ClearBit(pfn, k) == Shl(i / 2, k + 1) <= pfn
  {
    BlockHead(i, k);
    BlockHead(i / 2, k + 1);
    Halves(i / 2, k + 1);
    assert {2 * (i / 2), 2 * (i / 2) + 1} == {i, Buddy(i)};
  }

  lemma CountersMove(total: nat, n: nat, delta: int)
    requires 0 <= n + delta <= 0x10_0000_0000_0000 - 1
    ensures Wrap(Wrap(total - 4096 * n) - 4096 * delta) == Wrap(total - 4096 * (n + delta))
    ensures Wrap(4096 * n + 4096 * delta) == 4096 * (n + delta)
  {
    WrapAdd(total - 4096 * n, -4096 * delta);
  }

  lemma {:induction false} BoundedCount(s: set<nat>, n: nat)
    requires forall x :: x in s ==> 0 < x < n
    ensures s == {} || |s| < n
    decreases n
  {
    if s != {} {
      var t := s - {n - 1};
      BoundedCount(t, n - 1);
      assert s == t || s == t + {n - 1};
      var x :| x in s;
    }
  }
}
