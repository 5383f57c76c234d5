/** initialize_buddy: sizing the bitmaps from the memory map, and seeding the free
    lists with every usable page that is not reserved. */
module PmmSeeding {
  import opened Shifts
  import opened MemoryLayout
  import opened BuddyBlocks
  import opened PhysicalMemory

  datatype MapEntry = MapEntry(addr: nat, len: nat, usable: bool) {
    function End(): nat {
      addr + len
    }
  }

  /** The kernel image with the Multiboot tags, and the bump-allocated range above it. */
  datatype Reserved = Reserved(kernelStart: nat, highestReserved: nat, bumpPtr: nat) {

    function KernelMbiEnd(): nat {
      AlignUp(highestReserved)
    }

    /** The skip tests of the seeding loop, on the address of a page. */
    predicate Skips(p: nat) {
      kernelStart <= p < KernelMbiEnd() || highestReserved <= p < bumpPtr
    }

    /** check_overlap_with_reserved */
    predicate Overlaps(p: nat, blockSize: nat) {
      || (p < KernelMbiEnd() && p + blockSize > kernelStart)
      || (p < bumpPtr && p + blockSize > highestReserved)
    }
  }

  /** What the linker script and the bump allocator guarantee: the kernel starts on a
      page boundary below the reserved end, and bump memory is handed out in pages. */
  ghost predicate LayoutOk(r: Reserved) {
    PageAligned(r.kernelStart) && r.kernelStart < r.highestReserved && PageAligned(r.bumpPtr)
  }

  /** For such layouts, skipping by page address keeps clear of every reserved byte. */
  lemma SkipsIsOverlap(r: Reserved, x: nat)
    requires LayoutOk(r)
    ensures r.Skips(x * 4096) <==> r.Overlaps(x * 4096, PAGE_SIZE)
  {
  }

  /** And that takes the page alignment of the kernel: without it, the page that holds the
      first kernel byte would be seeded. */
  lemma SkipsCoverIff(r: Reserved)
    requires r.kernelStart < r.highestReserved && PageAligned(r.bumpPtr)
    ensures (forall x: nat :: r.Overlaps(x * 4096, PAGE_SIZE) ==> r.Skips(x * 4096)) <==> PageAligned(r.kernelStart)
  {
    if PageAligned(r.kernelStart) {
      forall x: nat | r.Overlaps(x * 4096, PAGE_SIZE)
        ensures r.Skips(x * 4096)
      {
        SkipsIsOverlap(r, x);
      }
    } else {
      var x := r.kernelStart / 4096;
      assert r.Overlaps(x * 4096, PAGE_SIZE) && !r.Skips(x * 4096);
    }
  }

  /** The pages one map entry contributes. */
  ghost function SeedPages(ent: MapEntry, r: Reserved): set<nat> {
    if ent.usable then set x | x in InnerPages(ent.addr, ent.len) && x != 0 && !r.Skips(x * 4096) else {}
  }

  ghost function SeedBelow(ent: MapEntry, r: Reserved, limit: nat): set<nat> {
    set x | x in SeedPages(ent, r) && x < limit
  }

  ghost function SeedAll(entries: seq<MapEntry>, r: Reserved): set<nat> {
    if entries == [] then {}
    else SeedAll(entries[..|entries| - 1], r) + SeedPages(entries[|entries| - 1], r)
  }

  /** A page is seeded iff it lies wholly in a usable entry and is neither page 0 nor
      reserved. */
  lemma {:induction false} SeededIff(entries: seq<MapEntry>, r: Reserved, x: nat)
    ensures x in SeedAll(entries, r) <==>
              && x != 0 && !r.Skips(x * 4096)
              && exists i :: 0 <= i < |entries| && entries[i].usable && x in InnerPages(entries[i].addr, entries[i].len)
  {
    if entries != [] {
      var init := entries[..|entries| - 1];
      SeededIff(init, r, x);
      assert forall i :: 0 <= i < |init| ==> entries[i] == init[i];
    }
  }

  ghost predicate IsReserved(r: Reserved, byte: nat) {
    r.kernelStart <= byte < r.highestReserved || r.highestReserved <= byte < r.bumpPtr
  }

  /** No byte of the page is reserved. */
  ghost predicate Unreserved(r: Reserved, x: nat) {
    forall b: nat :: x * 4096 <= b < (x + 1) * 4096 ==> !IsReserved(r, b)
  }

  ghost predicate InUsableEntry(entries: seq<MapEntry>, x: nat) {
    exists i :: 0 <= i < |entries| && entries[i].usable
                && entries[i].addr <= x * 4096 && (x + 1) * 4096 <= entries[i].addr + entries[i].len
  }

  lemma SkipsIsReserved(r: Reserved, x: nat)
    requires LayoutOk(r)
    ensures r.Skips(x * 4096) <==> !Unreserved(r, x)
  {
    assert r.Skips(x * 4096) <==> IsReserved(r, x * 4096);
    if b: nat :| x * 4096 <= b < (x + 1) * 4096 && IsReserved(r, b) {
      assert IsReserved(r, x * 4096);
    }
  }

  /** On bytes: the seeded pages are those that lie wholly in a usable entry, hold no reserved
      byte, and are not page 0. */
  lemma SeededBytes(entries: seq<MapEntry>, r: Reserved, x: nat)
    requires LayoutOk(r)
    ensures x in SeedAll(entries, r) <==> x != 0 && Unreserved(r, x) && InUsableEntry(entries, x)
  {
    SeededIff(entries, r, x);
    SkipsIsReserved(r, x);
    if i :| 0 <= i < |entries| && entries[i].usable && x in InnerPages(entries[i].addr, entries[i].len) {
      assert entries[i].addr <= x * 4096 && (x + 1) * 4096 <= entries[i].addr + entries[i].len;
    }
    if InUsableEntry(entries, x) {
      var i :| 0 <= i < |entries| && entries[i].usable
               && entries[i].addr <= x * 4096 && (x + 1) * 4096 <= entries[i].addr + entries[i].len;
      assert x in InnerPages(entries[i].addr, entries[i].len);
    }
  }

  ghost predicate DisjointEntries(entries: seq<MapEntry>) {
    forall i, j :: 0 <= i < j < |entries| && entries[i].usable && entries[j].usable ==>
      entries[i].End() <= entries[j].addr || entries[j].End() <= entries[i].addr
  }

  lemma LastIsNew(entries: seq<MapEntry>, r: Reserved, n: nat)
    requires DisjointEntries(entries) && n < |entries|
    ensures SeedAll(entries[..n], r) !! SeedPages(entries[n], r)
  {
    forall x | x in SeedAll(entries[..n], r)
      ensures x !in SeedPages(entries[n], r)
    {
      SeededIff(entries[..n], r, x);
      var i :| 0 <= i < n && entries[i].usable && x in InnerPages(entries[i].addr, entries[i].len);
      assert entries[n].usable ==>
          entries[i].End() <= entries[n].addr || entries[n].End() <= entries[i].addr;
    }
  }

  /** The alignment test on addresses is the alignment of the block. */
  lemma AlignedBlock(p: nat, k: nat)
    requires Shl(4096, k) > 0 && p % Shl(4096, k) == 0
    ensures PfnOf(p) == Shl(Shr(PfnOf(p), k), k)
    ensures Shl(4096, k) == 4096 * Pow2(k)
  {
    var q := p / Shl(4096, k);
    ShlIsTimes(4096, k);
    ShlIsTimes(q, k);
    assert p == q * Shl(4096, k);
    calc {
      p;
      q * (4096 * Pow2(k));
      4096 * (q * Pow2(k));
      4096 * Shl(q, k);
    }
    ShrShl(q, k);
  }

  /** The order search of the seeding loop: the largest block that is aligned, fits and
      avoids reserved memory, or a single page. */
  method ChooseOrder(p: nat, regionEnd: nat, r: Reserved) returns (order: nat)
    requires PageAligned(p) && p < regionEnd && PageAligned(regionEnd)
    ensures order <= MAX_ORDER && p + 4096 * Pow2(order) <= regionEnd
    ensures PfnOf(p) == Shl(Shr(PfnOf(p), order), order)
    ensures order == 0 || !r.Overlaps(p, 4096 * Pow2(order))
  {
    order := MAX_ORDER;
    while order > 0
      invariant order <= MAX_ORDER
    {
      ShlIsTimes(4096, order);
      Pow2Positive(order);
      var blockSize := Shl(4096, order);
      if p + blockSize <= regionEnd && p % blockSize == 0 {
        if !r.Overlaps(p, blockSize) {
          AlignedBlock(p, order);
          return;
        }
      }
      order := order - 1;
    }
    assert Pow2(0) == 1 && Shl(Shr(PfnOf(p), 0), 0) == PfnOf(p);
  }

  /** The pages of a chosen block are exactly the next ones to be seeded. */
  lemma BlockIsNext(ent: MapEntry, r: Reserved, p: nat, order: nat)
    requires ent.usable && PageAligned(p) && PfnOf(p) == Shl(Shr(PfnOf(p), order), order)
    requires AlignUp(ent.addr) <= p && p != 0 && p + 4096 * Pow2(order) <= AlignDown(ent.End())
    requires !r.Skips(p) && (order == 0 || !r.Overlaps(p, 4096 * Pow2(order)))
    ensures SeedBelow(ent, r, PfnOf(p) + Pow2(order))
         == SeedBelow(ent, r, PfnOf(p)) + Pages(Shr(PfnOf(p), order), order)
    ensures Pages(Shr(PfnOf(p), order), order) <= SeedPages(ent, r)
    ensures Pages(Shr(PfnOf(p), order), order) !! SeedBelow(ent, r, PfnOf(p))
    ensures PfnOf(p + 4096 * Pow2(order)) == PfnOf(p) + Pow2(order)
  {
    var i := Shr(PfnOf(p), order);
    forall x: nat
      ensures x in Pages(i, order) <==> PfnOf(p) <= x < PfnOf(p) + Pow2(order)
    {
      ShrIff(x, i, order);
    }
    forall x: nat | PfnOf(p) <= x < PfnOf(p) + Pow2(order)
      ensures x in SeedPages(ent, r)
    {
      assert order == 0 ==> x == PfnOf(p);
      assert p <= x * 4096 && (x + 1) * 4096 <= p + 4096 * Pow2(order);
    }
  }

  /** Addresses that are skipped hold no page to be seeded. */
  lemma NothingSkipped(ent: MapEntry, r: Reserved, p: nat, p': nat)
    requires PageAligned(p) && PageAligned(p') && p <= p'
    requires forall x: nat :: p <= x * 4096 < p' ==> x == 0 || r.Skips(x * 4096)
    ensures SeedBelow(ent, r, PfnOf(p')) == SeedBelow(ent, r, PfnOf(p))
  {
    forall x | x in SeedBelow(ent, r, PfnOf(p'))
      ensures x < PfnOf(p)
    {
      assert x * 4096 < p';
    }
  }

  /** Where the seeding loop goes on from an address it skips. */
  function NextAddress(r: Reserved, p: nat): nat {
    if p == 0 then PAGE_SIZE
    else if r.kernelStart <= p < r.KernelMbiEnd() then r.KernelMbiEnd()
    else r.bumpPtr
  }

  lemma SkipForward(ent: MapEntry, r: Reserved, p: nat)
    requires PageAligned(p) && PageAligned(r.bumpPtr) && (p == 0 || r.Skips(p))
    ensures PageAligned(NextAddress(r, p)) && p < NextAddress(r, p)
    ensures SeedBelow(ent, r, PfnOf(NextAddress(r, p))) == SeedBelow(ent, r, PfnOf(p))
  {
    NothingSkipped(ent, r, p, NextAddress(r, p));
  }

  lemma SeedStart(ent: MapEntry, r: Reserved)
    ensures SeedBelow(ent, r, PfnOf(AlignUp(ent.addr))) == {}
    ensures forall free: set<nat> :: free + SeedBelow(ent, r, PfnOf(AlignUp(ent.addr))) == free
  {
  }

  lemma SeedEnd(ent: MapEntry, r: Reserved, p: nat)
    requires p >= AlignDown(ent.End())
    ensures SeedBelow(ent, r, PfnOf(p)) == SeedPages(ent, r)
  {
  }

  /** One round of the seeding loop. */
  method SeedStep(pmm: Pmm, ent: MapEntry, r: Reserved, p: nat, ghost start: set<nat>) returns (p': nat)
    requires pmm.Valid() && ent.usable && PfnOf(ent.End()) <= pmm.pages && PageAligned(r.bumpPtr)
    requires PageAligned(p) && AlignUp(ent.addr) <= p < AlignDown(ent.End())
    requires SeedPages(ent, r) !! start && pmm.free == start + SeedBelow(ent, r, PfnOf(p))
    modifies pmm`freeMemory, pmm`usedMemory, pmm`free, pmm.lists, pmm.bits
    ensures pmm.Valid() && PageAligned(p') && p < p' && pmm.free == start + SeedBelow(ent, r, PfnOf(p'))
  {
    if p == 0 || r.Skips(p) {
      SkipForward(ent, r, p);
      p' := NextAddress(r, p);
    } else {
      p' := SeedBlock(pmm, ent, r, p, start);
    }
  }

  /** The seeding loop for one entry of the memory map. */
  method SeedEntry(pmm: Pmm, ent: MapEntry, r: Reserved)
    requires pmm.Valid() && PageAligned(r.bumpPtr)
    requires ent.usable ==> PfnOf(ent.End()) <= pmm.pages
    requires SeedPages(ent, r) !! pmm.free
    modifies pmm`freeMemory, pmm`usedMemory, pmm`free, pmm.lists, pmm.bits
    ensures pmm.Valid() && pmm.free == old(pmm.free) + SeedPages(ent, r)
  {
    if !ent.usable {
      return;
    }
    var p: nat, regionEnd: nat := AlignUp(ent.addr), AlignDown(ent.End());
    SeedStart(ent, r);
    while p < regionEnd
      invariant pmm.Valid() && PageAligned(p) && AlignUp(ent.addr) <= p
      invariant pmm.free == old(pmm.free) + SeedBelow(ent, r, PfnOf(p))
      decreases regionEnd - p
    {
      p := SeedStep(pmm, ent, r, p, old(pmm.free));
    }
    SeedEnd(ent, r, p);
  }

  /** A chosen block is one a caller may free. */
  lemma BlockIsFreeable(pmm: Pmm, ent: MapEntry, r: Reserved, p: nat, order: nat, start: set<nat>)
    requires ent.usable && PfnOf(ent.End()) <= pmm.pages
    requires Pages(Shr(PfnOf(p), order), order) <= SeedPages(ent, r)
    requires Pages(Shr(PfnOf(p), order), order) !! SeedBelow(ent, r, PfnOf(p))
    requires PfnOf(p) == Shl(Shr(PfnOf(p), order), order)
    requires SeedPages(ent, r) !! start && pmm.free == start + SeedBelow(ent, r, PfnOf(p))
    ensures pmm.Freeable(PfnOf(p), order)
  {
    forall x | x in Pages(Shr(PfnOf(p), order), order)
      ensures 0 < x < pmm.pages
    {
      assert x in SeedPages(ent, r);
    }
  }

  /** One block of the seeding loop. */
  method SeedBlock(pmm: Pmm, ent: MapEntry, r: Reserved, p: nat, ghost start: set<nat>) returns (p': nat)
    requires pmm.Valid() && ent.usable && PfnOf(ent.End()) <= pmm.pages
    requires PageAligned(p) && AlignUp(ent.addr) <= p < AlignDown(ent.End()) && p != 0 && !r.Skips(p)
    requires SeedPages(ent, r) !! start && pmm.free == start + SeedBelow(ent, r, PfnOf(p))
    modifies pmm`freeMemory, pmm`usedMemory, pmm`free, pmm.lists, pmm.bits
    ensures pmm.Valid() && PageAligned(p') && p < p' && pmm.free == start + SeedBelow(ent, r, PfnOf(p'))
  {
    var order := ChooseOrder(p, AlignDown(ent.End()), r);
    p' := BlockEnd(p, order);
    ghost var block := Pages(Shr(PfnOf(p), order), order);
    BlockIsNext(ent, r, p, order);
    BlockIsFreeable(pmm, ent, r, p, order, start);
    Assoc(start, SeedBelow(ent, r, PfnOf(p)), block);
    pmm.FreePagesOrder(p, order);
  }

  function BlockEnd(p: nat, order: nat): (end: nat)
    ensures p < end && (PageAligned(p) ==> PageAligned(end)) && end == p + 4096 * Pow2(order)
  {
    Pow2Positive(order);
    p + 4096 * Pow2(order)
  }

  /** The bytes of all usable entries. */
  function UsableBytes(entries: seq<MapEntry>): nat {
    if entries == [] then 0
    else
      var last := entries[|entries| - 1];
      UsableBytes(entries[..|entries| - 1]) + if last.usable then last.len else 0
  }

  /** The scan for the end and the total of usable memory. */
  method MaxUsable(entries: seq<MapEntry>) returns (max: nat, total: nat)
    ensures total == Wrap(UsableBytes(entries))
    ensures forall i :: 0 <= i < |entries| && entries[i].usable ==> entries[i].End() <= max
    ensures max == 0 || exists i :: 0 <= i < |entries| && entries[i].usable && entries[i].End() == max
  {
    max, total := 0, 0;
    for n := 0 to |entries|
      invariant total == Wrap(UsableBytes(entries[..n]))
      invariant forall i :: 0 <= i < n && entries[i].usable ==> entries[i].End() <= max
      invariant max == 0 || exists i :: 0 <= i < n && entries[i].usable && entries[i].End() == max
    {
      assert entries[..n + 1][..n] == entries[..n];
      WrapAdd(UsableBytes(entries[..n]), entries[n].len);
      if entries[n].usable {
        total := Wrap(total + entries[n].len);
        if entries[n].End() > max {
          max := entries[n].End();
        }
      }
    }
    assert entries[..|entries|] == entries;
  }

  /** The managed pages are the fewest that hold all usable memory. */
  ghost predicate Covers(entries: seq<MapEntry>, pages: nat) {
    && (forall i :: 0 <= i < |entries| && entries[i].usable ==> entries[i].addr + entries[i].len <= pages * 4096)
    && exists i :: 0 <= i < |entries| && entries[i].usable && (pages - 1) * 4096 < entries[i].addr + entries[i].len
  }

  lemma CoversMax(entries: seq<MapEntry>, max: nat, pages: nat)
    requires pages == (max + 4095) / 4096 > 0
    requires forall i :: 0 <= i < |entries| && entries[i].usable ==> entries[i].End() <= max
    requires max == 0 || exists i :: 0 <= i < |entries| && entries[i].usable && entries[i].End() == max
    ensures Covers(entries, pages)
  {
  }

  /** The walk over the memory map. */
  method SeedEntries(pmm: Pmm, entries: seq<MapEntry>, r: Reserved)
    requires pmm.Valid() && pmm.free == {} && DisjointEntries(entries) && PageAligned(r.bumpPtr)
    requires forall i :: 0 <= i < |entries| && entries[i].usable ==> PfnOf(entries[i].End()) <= pmm.pages
    modifies pmm`freeMemory, pmm`usedMemory, pmm`free, pmm.lists, pmm.bits
    ensures pmm.Valid() && pmm.free == SeedAll(entries, r)
  {
    for n := 0 to |entries|
      invariant pmm.Valid() && pmm.free == SeedAll(entries[..n], r)
    {
      LastIsNew(entries, r, n);
      SeedEntry(pmm, entries[n], r);
      assert entries[..n + 1][..n] == entries[..n];
    }
    assert entries[..|entries|] == entries;
  }

  /** initialize_buddy. Null stands for the panic on a map without usable memory. */
  method InitializeBuddy(entries: seq<MapEntry>, r: Reserved) returns (pmm: Pmm?)
    requires DisjointEntries(entries) && PageAligned(r.bumpPtr)
    requires forall i :: 0 <= i < |entries| && entries[i].usable ==> entries[i].End() <= 0x10_0000_0000_0000
    ensures pmm == null <==>
              forall i :: 0 <= i < |entries| && entries[i].usable ==> entries[i].addr + entries[i].len == 0
    ensures pmm != null ==>
              pmm.Valid() && pmm.free == SeedAll(entries, r) && pmm.totalMemory == Wrap(UsableBytes(entries))
    ensures pmm != null ==> Covers(entries, pmm.pages)
    ensures pmm != null && LayoutOk(r) ==>
              forall x: nat :: x in pmm.free <==> x != 0 && Unreserved(r, x) && InUsableEntry(entries, x)
  {
    var max, total := MaxUsable(entries);
    var totalPages := (max + 4095) / 4096;
    if totalPages == 0 {
      return null;
    }
    var manager := new Pmm(totalPages, total);
    SeedEntries(manager, entries, r);
    CoversMax(entries, max, totalPages);
    pmm := manager;
    if LayoutOk(r) {
      forall x: nat
        ensures x in SeedAll(entries, r) <==> x != 0 && Unreserved(r, x) && InUsableEntry(entries, x)
      {
        SeededBytes(entries, r, x);
      }
    }
  }
}
