/** What holds of the physical memory manager between calls, and what pairs of calls
    undo. */
module PmmProperties {
  import opened Shifts
  import opened Links
  import opened MemoryLayout
  import opened BuddyBlocks
  import opened BuddyLists
  import opened Tracking
  import opened PhysicalMemory

  ghost function Members(s: seq<nat>): set<nat> {
    set x | x in s
  }

  /** History independence: the blocks on every list, and every bit below the top
      order, depend on the free pages alone. */
  lemma SameFreePagesSameBlocks(a: Pmm, b: Pmm)
    requires a.Valid() && b.Valid() && a.free == b.free && a.pages == b.pages
    ensures forall k :: 0 <= k < NUM_ORDERS ==> Members(a.lists.lists[k]) == Members(b.lists.lists[k])
    ensures forall k: nat, i: nat :: k < MAX_ORDER && a.bits.HasPair(k, i) ==>
              b.bits.HasPair(k, i) && a.bits.Bit(k, i) == b.bits.Bit(k, i)
    ensures a.totalMemory == b.totalMemory ==> a.freeMemory == b.freeMemory && a.usedMemory == b.usedMemory
  {
    forall k | 0 <= k < NUM_ORDERS
      ensures Members(a.lists.lists[k]) == Members(b.lists.lists[k])
    {
      forall p: nat
        ensures p in a.lists.lists[k] <==> p in b.lists.lists[k]
      {
        assert p in a.lists.lists[k] <==> HeadsBlock(a.free, p, k);
        assert p in b.lists.lists[k] <==> HeadsBlock(b.free, p, k);
      }
    }
  }

  /** Two canonical blocks that share a page are the same block. */
  lemma BlocksDisjoint(free: set<nat>, i: nat, j: nat, q: nat, k: nat, x: nat)
    requires Canonical(free, i, j) && Canonical(free, q, k) && j <= k
    requires x in Pages(i, j) && x in Pages(q, k)
    ensures i == q && j == k
  {
    if j < k {
      assert Shr(x, j + 1) == Shr(x, j) / 2;
      ShrShr(x, j + 1, k - j - 1);
      Nested(i / 2, j + 1, k);
      assert false;
    }
  }

  /** Between calls: listed blocks are aligned and wholly free, no two of them overlap,
      and a bit below the top order is set iff exactly one buddy of its pair is listed;
      both are never listed together. */
  lemma {:induction false} PairListing(m: Pmm, k: nat, i: nat)
    requires m.Valid() && k < MAX_ORDER && m.bits.HasPair(k, i)
    ensures var lower, upper := Shl(2 * i, k) in m.lists.lists[k], Shl(2 * i + 1, k) in m.lists.lists[k];
            !(lower && upper) && (m.bits.Bit(k, i) <==> lower != upper)
  {
    BlockHead(2 * i, k);
    BlockHead(2 * i + 1, k);
    HalvesWhole(m.free, i, k + 1);
    assert HeadsBlock(m.free, Shl(2 * i, k), k) <==> Shl(2 * i, k) in m.lists.lists[k];
    assert HeadsBlock(m.free, Shl(2 * i + 1, k), k) <==> Shl(2 * i + 1, k) in m.lists.lists[k];
  }

  lemma ListedBlocks(m: Pmm, j: nat, p: nat, k: nat, q: nat, x: nat)
    requires m.Valid() && j <= k < NUM_ORDERS && p in m.lists.lists[j] && q in m.lists.lists[k]
    ensures p == Shl(Shr(p, j), j) && Pages(Shr(p, j), j) <= m.free
    ensures x in Pages(Shr(p, j), j) && x in Pages(Shr(q, k), k) ==> p == q && j == k
  {
    assert HeadsBlock(m.free, p, j) && HeadsBlock(m.free, q, k);
    if x in Pages(Shr(p, j), j) && x in Pages(Shr(q, k), k) {
      BlocksDisjoint(m.free, Shr(p, j), j, Shr(q, k), k, x);
    }
  }

  // ------------------------------------------------------------------------------
  // free_memory counts the pages on the lists

  ghost function Covered(s: seq<nat>, k: nat): set<nat> {
    set p, x | p in s && x in Pages(Shr(p, k), k) :: x
  }

  ghost function CoveredBelow(ls: seq<seq<nat>>, n: nat): set<nat>
    requires n <= |ls|
  {
    set k, x | 0 <= k < n && x in Covered(ls[k], k) :: x
  }

  ghost function ListedPages(ls: seq<seq<nat>>, n: nat): nat
    requires n <= |ls|
  {
    if n == 0 then 0 else ListedPages(ls, n - 1) + |ls[n - 1]| * Pow2(n - 1)
  }

  lemma CoveredApart(free: set<nat>, s: seq<nat>, k: nat, q: nat)
    requires (forall p :: p in s ==> HeadsBlock(free, p, k)) && HeadsBlock(free, q, k) && q !in s
    ensures Covered(s, k) !! Pages(Shr(q, k), k)
  {
    forall x | x in Covered(s, k)
      ensures x !in Pages(Shr(q, k), k)
    {
      var p :| p in s && x in Pages(Shr(p, k), k);
      assert HeadsBlock(free, p, k);
    }
  }

  lemma {:induction false} CoveredCount(free: set<nat>, s: seq<nat>, k: nat)
    requires NoDuplicates(s) && forall p :: p in s ==> HeadsBlock(free, p, k)
    ensures |Covered(s, k)| == |s| * Pow2(k)
  {
    if s == [] {
      assert Covered(s, k) == {};
    } else {
      var init, last := s[..|s| - 1], s[|s| - 1];
      assert last in s && forall p :: p in init ==> p in s;
      CoveredCount(free, init, k);
      CoveredApart(free, init, k, last);
      CoveredSplit(s, k);
      CountUnion(Covered(init, k), Shr(last, k), k, |init|);
    }
  }

  lemma CountUnion(a: set<nat>, i: nat, k: nat, n: nat)
    requires a !! Pages(i, k) && |a| == n * Pow2(k)
    ensures |a + Pages(i, k)| == (n + 1) * Pow2(k)
  {
    PageCount(i, k);
  }

  lemma CoveredSplit(s: seq<nat>, k: nat)
    requires s != []
    ensures Covered(s, k) == Covered(s[..|s| - 1], k) + Pages(Shr(s[|s| - 1], k), k)
  {
    var init, last := s[..|s| - 1], s[|s| - 1];
    assert last in s && forall p :: p in s <==> p in init || p == last;
  }

  lemma {:induction false} CoveredBelowCount(free: set<nat>, ls: seq<seq<nat>>, n: nat)
    requires ListsTrack(ls, free) && n <= NUM_ORDERS
    ensures |CoveredBelow(ls, n)| == ListedPages(ls, n)
  {
    if n == 0 {
      assert CoveredBelow(ls, n) == {};
    } else {
      CoveredBelowCount(free, ls, n - 1);
      AllHead(free, ls, n - 1);
      CoveredCount(free, ls[n - 1], n - 1);
      LowerOrdersApart(free, ls, n - 1);
      CoveredBelowSplit(ls, n);
    }
  }

  lemma CoveredBelowSplit(ls: seq<seq<nat>>, n: nat)
    requires 0 < n <= |ls| && CoveredBelow(ls, n - 1) !! Covered(ls[n - 1], n - 1)
    ensures |CoveredBelow(ls, n)| == |CoveredBelow(ls, n - 1)| + |Covered(ls[n - 1], n - 1)|
  {
    assert CoveredBelow(ls, n) == CoveredBelow(ls, n - 1) + Covered(ls[n - 1], n - 1);
  }

  lemma AllHead(free: set<nat>, ls: seq<seq<nat>>, k: nat)
    requires ListsTrack(ls, free) && k < NUM_ORDERS
    ensures forall p :: p in ls[k] ==> HeadsBlock(free, p, k)
  {
  }

  lemma LowerOrdersApart(free: set<nat>, ls: seq<seq<nat>>, k: nat)
    requires ListsTrack(ls, free) && k < NUM_ORDERS
    ensures CoveredBelow(ls, k) !! Covered(ls[k], k)
  {
    forall x | x in CoveredBelow(ls, k)
      ensures x !in Covered(ls[k], k)
    {
      var j :| 0 <= j < k && x in Covered(ls[j], j);
      var p :| p in ls[j] && x in Pages(Shr(p, j), j);
      assert HeadsBlock(free, p, j);
      forall q | q in ls[k]
        ensures x !in Pages(Shr(q, k), k)
      {
        assert HeadsBlock(free, q, k);
        if x in Pages(Shr(q, k), k) {
          BlocksDisjoint(free, Shr(p, j), j, Shr(q, k), k, x);
        }
      }
    }
  }

  /** The listed blocks partition the free pages. */
  lemma CoveredIsFree(free: set<nat>, ls: seq<seq<nat>>)
    requires ListsTrack(ls, free)
    ensures CoveredBelow(ls, NUM_ORDERS) == free
  {
    forall x | x in CoveredBelow(ls, NUM_ORDERS)
      ensures x in free
    {
      var k :| 0 <= k < NUM_ORDERS && x in Covered(ls[k], k);
      AllHead(free, ls, k);
      var p :| p in ls[k] && x in Pages(Shr(p, k), k);
    }
    forall x | x in free
      ensures x in CoveredBelow(ls, NUM_ORDERS)
    {
      FreePageListed(free, ls, x);
    }
  }

  lemma FreePageListed(free: set<nat>, ls: seq<seq<nat>>, x: nat)
    requires ListsTrack(ls, free) && x in free
    ensures x in CoveredBelow(ls, NUM_ORDERS)
  {
    SinglePage(x);
    var k := CanonicalAncestor(free, x, 0);
    var p := Shl(Shr(x, k), k);
    ShrShl(Shr(x, k), k);
    assert p in ls[k] && x in Pages(Shr(p, k), k);
    assert x in Covered(ls[k], k);
  }

  /** free_memory is the memory on the lists, and free plus used memory is the total,
      up to the 64-bit wrap-around of the counters. */
  lemma CountersExact(m: Pmm)
    requires m.Valid()
    ensures m.freeMemory == 4096 * ListedPages(m.lists.lists, NUM_ORDERS)
    ensures Wrap(m.freeMemory + m.usedMemory) == Wrap(m.totalMemory)
  {
    ListedCount(m.free, m.lists.lists);
    CountersSum(m.totalMemory, m.freeMemory, m.usedMemory);
  }

  lemma ListedCount(free: set<nat>, ls: seq<seq<nat>>)
    requires ListsTrack(ls, free)
    ensures |free| == ListedPages(ls, NUM_ORDERS)
  {
    CoveredIsFree(free, ls);
    CoveredBelowCount(free, ls, NUM_ORDERS);
  }

  lemma CountersSum(total: nat, free: nat, used: nat)
    requires used == Wrap(total - free)
    ensures Wrap(free + used) == Wrap(total)
  {
    WrapAdd(total - free, free);
  }

  // ------------------------------------------------------------------------------
  // Calls that undo each other

  /** Freeing what alloc_pages returned restores the blocks of every order. */
  method AllocThenFree(m: Pmm, num: nat) returns (ptr: nat)
    requires m.Valid()
    modifies m`freeMemory, m`usedMemory, m`free, m.lists, m.bits
    ensures m.Valid() && m.free == old(m.free)
    ensures m.freeMemory == old(m.freeMemory) && m.usedMemory == old(m.usedMemory)
    ensures forall k :: 0 <= k < NUM_ORDERS ==>
              Members(m.lists.lists[k]) == old(Members(m.lists.lists[k]))
  {
    ghost var before := m.lists.lists;
    ptr := TakeAndGive(m, num);
    SameBlocks(before, m.lists.lists, m.free);
  }

  method TakeAndGive(m: Pmm, num: nat) returns (ptr: nat)
    requires m.Valid()
    modifies m`freeMemory, m`usedMemory, m`free, m.lists, m.bits
    ensures m.Valid() && m.free == old(m.free)
  {
    ptr := m.AllocPages(num);
    m.FreePages(ptr, num);
  }

  lemma SameBlocks(a: seq<seq<nat>>, b: seq<seq<nat>>, free: set<nat>)
    requires ListsTrack(a, free) && ListsTrack(b, free)
    ensures forall k :: 0 <= k < NUM_ORDERS ==> Members(a[k]) == Members(b[k])
  {
    forall k | 0 <= k < NUM_ORDERS
      ensures Members(a[k]) == Members(b[k])
    {
      forall p: nat
        ensures p in a[k] <==> p in b[k]
      {
        assert p in a[k] <==> HeadsBlock(free, p, k);
      }
    }
  }

  lemma MembersStep(xs: seq<nat>, n: nat)
    requires NoDuplicates(xs) && n < |xs|
    ensures xs[n] !in Members(xs[..n])
    ensures Members(xs[..n + 1]) == Members(xs[..n]) + {xs[n]}
  {
  }

  /** Frees single pages, in the order given. */
  method FreeEach(m: Pmm, xs: seq<nat>)
    requires m.Valid() && NoDuplicates(xs)
    requires forall x :: x in xs ==> 0 < x < m.pages && x !in m.free
    modifies m`freeMemory, m`usedMemory, m`free, m.lists, m.bits
    ensures m.Valid() && m.free == old(m.free) + Members(xs)
  {
    for n := 0 to |xs|
      invariant m.Valid() && m.free == old(m.free) + Members(xs[..n])
    {
      MembersStep(xs, n);
      Assoc(old(m.free), Members(xs[..n]), {xs[n]});
      m.FreePage(xs[n]);
    }
    assert xs[..|xs|] == xs;
  }

  /** So does freeing the run page by page, in any order. */
  method FreeRunPageByPage(m: Pmm, ptr: nat, order: nat, xs: seq<nat>, ghost before: set<nat>)
    requires m.Valid() && order <= MAX_ORDER
    requires Whole(before, Shr(PfnOf(ptr), order), order)
    requires m.free == before - Pages(Shr(PfnOf(ptr), order), order)
    requires NoDuplicates(xs) && Members(xs) == Pages(Shr(PfnOf(ptr), order), order)
    requires forall x :: x in before ==> 0 < x < m.pages
    modifies m`freeMemory, m`usedMemory, m`free, m.lists, m.bits
    ensures m.Valid() && m.free == before
    ensures forall ls :: ListsTrack(ls, before) ==>
              forall k :: 0 <= k < NUM_ORDERS ==> Members(m.lists.lists[k]) == Members(ls[k])
  {
    assert forall x :: x in xs ==> x in Members(xs);
    FreeEach(m, xs);
    assert m.free == before;
    forall ls | ListsTrack(ls, before)
      ensures forall k :: 0 <= k < NUM_ORDERS ==> Members(m.lists.lists[k]) == Members(ls[k])
    {
      SameBlocks(m.lists.lists, ls, before);
    }
  }

  /** mark_region_used and then mark_region_free on a page-aligned region is the
      identity exactly when every page of the region but page 0 was free. */
  method UseThenFreeRegion(m: Pmm, base: nat, length: nat)
    requires m.Valid() && PageAligned(base) && PageAligned(length)
    requires PfnOf(base + length) <= m.pages && base + length + PAGE_SIZE <= ADDRESS_LIMIT
    modifies m`freeMemory, m`usedMemory, m`free, m.lists, m.bits
    ensures m.Valid()
    ensures m.free == old(m.free) <==> InnerPages(base, length) - {0} <= old(m.free)
  {
    SameRegion(base, length);
    assert 0 !in m.free;
    m.MarkRegionUsed(base, length);
    m.MarkRegionFree(base, length);
    UndoneIff(old(m.free), InnerPages(base, length));
  }

  lemma SameRegion(base: nat, length: nat)
    requires PageAligned(base) && PageAligned(length)
    ensures InnerPages(base, length) == OuterPages(base, length)
  {
  }

  lemma UndoneIff(free: set<nat>, region: set<nat>)
    requires 0 !in free
    ensures free - region + (region - {0}) == free <==> region - {0} <= free
  {
  }
}
