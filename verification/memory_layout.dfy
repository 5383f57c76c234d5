/** Page arithmetic and 64-bit wrap-around shared by the memory managers. */
module MemoryLayout {

  const PAGE_SIZE: nat := 4096
  /** One more than the largest physical address. */
  const ADDRESS_LIMIT: nat := 0x1_0000_0000_0000_0000

  /** 64-bit unsigned wrap-around. */
  function Wrap(x: int): (r: nat)
    ensures r < ADDRESS_LIMIT
  {
    x % 0x1_0000_0000_0000_0000
  }

  lemma WrapAdd(x: int, n: int)
    ensures Wrap(Wrap(x) + n) == Wrap(x + n)
  {
  }

  /** The page frame number of an address: address >> 12. */
  function PfnOf(address: nat): nat {
    address / 4096
  }

  predicate PageAligned(address: nat) {
    address % 4096 == 0
  }

  /** align_up and align_down to the page size. */
  function AlignUp(x: nat): (r: nat)
    ensures PageAligned(r) && x <= r < x + PAGE_SIZE
  {
    (x + 4095) / 4096 * 4096
  }

  function AlignDown(x: nat): (r: nat)
    ensures PageAligned(r) && r <= x < r + PAGE_SIZE
  {
    x / 4096 * 4096
  }

  function PfnRange(lo: nat, hi: nat): (s: set<nat>)
    ensures forall x :: x in s <==> lo <= x < hi
    decreases hi - lo
  {
    if lo >= hi then {} else PfnRange(lo, hi - 1) + {hi - 1}
  }

  lemma Assoc(a: set<nat>, b: set<nat>, c: set<nat>)
    ensures a + b + c == a + (b + c)
  {
  }

  lemma AddNext(s: set<nat>, lo: nat, pfn: nat)
    requires lo <= pfn
    ensures s + (PfnRange(lo, pfn) - {0}) + ({pfn} - {0}) == s + (PfnRange(lo, pfn + 1) - {0})
  {
  }

  lemma TakeNext(s: set<nat>, lo: nat, pfn: nat)
    requires lo <= pfn
    ensures s - PfnRange(lo, pfn) - {pfn} == s - PfnRange(lo, pfn + 1)
  {
  }

  /** The pages that lie wholly inside a region. */
  function InnerPages(base: nat, length: nat): (s: set<nat>)
    ensures forall x: nat :: x in s <==> base <= x * 4096 && (x + 1) * 4096 <= base + length
  {
    PfnRange(PfnOf(AlignUp(base)), PfnOf(AlignDown(base + length)))
  }

  /** The pages from the one that holds the first byte up to the end of a region. */
  function OuterPages(base: nat, length: nat): (s: set<nat>)
    ensures forall x: nat :: x in s <==> base < (x + 1) * 4096 && x * 4096 < base + length
  {
    PfnRange(PfnOf(AlignDown(base)), PfnOf(AlignUp(base + length)))
  }
}
