/** Slab pages on values: the size classes, the layout of a slab in its page, and the
    free list that runs through the unused objects. */
module SlabPages {
  import opened Shifts

  const NUM_CLASSES: nat := 8
  const SLAB_MAGIC: nat := 0x51AB51AB
  const BYPASS_MAGIC: nat := 0xDEADBEEF
  const HEADER_SIZE: nat := 48

  // ------------------------------------------------------------------------------
  // Size classes

  /** obj_size of class k: 16 << k. */
  function ObjSize(k: nat): (r: nat)
    ensures r >= 16
  {
    if k == 0 then 16 else if k == 1 then 32 else if k == 2 then 64 else if k == 3 then 128
    else if k == 4 then 256 else if k == 5 then 512 else if k == 6 then 1024 else 2048
  }

  /** Number of significant bits: 64 - clz(x). */
  function BitLength(x: nat): nat {
    if x == 0 then 0 else 1 + BitLength(x / 2)
  }

  /** The class index get_kmalloc_cache computes, from the bits of size - 1. */
  function ClassFor(size: nat): int {
    if size <= 16 then 0 else BitLength(size - 1) - 4
  }

  /** Sizes up to 2048 get the smallest class that holds them, larger ones none. */
  lemma ClassForIsLeast(size: nat)
    requires size > 0
    ensures 0 <= ClassFor(size)
    ensures ClassFor(size) < NUM_CLASSES <==> size <= 2048
    ensures size <= 2048 ==>
              && size <= ObjSize(ClassFor(size))
              && forall k :: 0 <= k < NUM_CLASSES && size <= ObjSize(k) ==> ClassFor(size) <= k
  {
    if size > 16 {
      BitLengthBound(size - 1, 4);
      BitLengthBound(size - 1, 5);
      BitLengthBound(size - 1, 6);
      BitLengthBound(size - 1, 7);
      BitLengthBound(size - 1, 8);
      BitLengthBound(size - 1, 9);
      BitLengthBound(size - 1, 10);
      BitLengthBound(size - 1, 11);
    }
  }

  lemma {:induction false} BitLengthBound(x: nat, n: nat)
    ensures BitLength(x) <= n <==> x < Pow2(n)
    decreases n
  {
    Pow2Positive(n);
    if n > 0 && x > 0 {
      BitLengthBound(x / 2, n - 1);
    }
  }

  // ------------------------------------------------------------------------------
  // Layout

  /** Where the first object starts: behind the header, aligned to the object size up to
      64 bytes. */
  function FirstOffset(k: nat): nat {
    if k == 0 then 48 else 64
  }

  /** max_objs: how many objects fit behind it. */
  function Capacity(k: nat): (r: nat)
    ensures r >= 1
  {
    if k == 0 then 253 else if k == 1 then 126 else if k == 2 then 63 else if k == 3 then 31
    else if k == 4 then 15 else if k == 5 then 7 else if k == 6 then 3 else 1
  }

  /** The computation of format_new_slab gives these values. */
  lemma LayoutComputed(k: nat)
    requires k < NUM_CLASSES
    ensures var alignment := if ObjSize(k) < 64 then ObjSize(k) else 64;
            FirstOffset(k) == (HEADER_SIZE + alignment - 1) / alignment * alignment
    ensures Capacity(k) == (4096 - FirstOffset(k)) / ObjSize(k)
  {
  }

  /** Objects follow each other: the offset of slot i is FirstOffset + i * ObjSize. */
  function SlotOffset(k: nat, i: nat): nat {
    if i == 0 then FirstOffset(k) else SlotOffset(k, i - 1) + ObjSize(k)
  }

  lemma {:induction false} SlotIsProduct(k: nat, i: nat)
    ensures SlotOffset(k, i) == FirstOffset(k) + i * ObjSize(k)
  {
    if i > 0 {
      SlotIsProduct(k, i - 1);
      assert i * ObjSize(k) == (i - 1) * ObjSize(k) + ObjSize(k);
    }
  }

  lemma {:induction false} SlotOrder(k: nat, i: nat, j: nat)
    requires i < j
    ensures SlotOffset(k, i) + ObjSize(k) <= SlotOffset(k, j)
    decreases j
  {
    if i < j - 1 {
      SlotOrder(k, i, j - 1);
    }
  }

  lemma LastSlotFits(k: nat)
    requires k < NUM_CLASSES
    ensures SlotOffset(k, Capacity(k) - 1) + ObjSize(k) <= 4096
  {
    SlotIsProduct(k, Capacity(k) - 1);
  }

  /** Objects lie behind the header, inside the page, and do not overlap. */
  lemma SlotsApart(k: nat, i: nat, j: nat)
    requires k < NUM_CLASSES && i < Capacity(k) && j < Capacity(k)
    ensures HEADER_SIZE <= SlotOffset(k, i) && SlotOffset(k, i) + ObjSize(k) <= 4096
    ensures i < j ==> SlotOffset(k, i) + ObjSize(k) <= SlotOffset(k, j)
    ensures SlotOffset(k, i) == SlotOffset(k, j) ==> i == j
  {
    LastSlotFits(k);
    if i < Capacity(k) - 1 {
      SlotOrder(k, i, Capacity(k) - 1);
    }
    if i > 0 {
      SlotOrder(k, 0, i);
    }
    if i < j {
      SlotOrder(k, i, j);
    } else if j < i {
      SlotOrder(k, j, i);
    }
  }

  // ------------------------------------------------------------------------------
  // Pages

  /** What the words at the start of a page, and the first word of each object in it,
      hold. Addresses are relative to the direct map; 0 is null. */
  datatype Page = Page(magic: nat, cache: int, freelist: nat, inuse: nat, maxObjs: nat,
                       metaPages: nat, words: map<nat, nat>)

  /** The address of slot i in slab page s. */
  function SlotAddress(s: nat, k: nat, i: nat): nat {
    s * 4096 + SlotOffset(k, i)
  }

  /** Rounding an object pointer down to its page finds the slab header. */
  lemma SlotInPage(s: nat, k: nat, i: nat)
    requires k < NUM_CLASSES && i < Capacity(k)
    ensures SlotAddress(s, k, i) / 4096 == s && SlotAddress(s, k, i) - s * 4096 == SlotOffset(k, i)
  {
    SlotsApart(k, i, i);
  }

  /** The pointer to the n-th slot of a chain, or null past its end. */
  function ChainAddress(s: nat, k: nat, chain: seq<nat>, n: nat): nat {
    if n < |chain| then SlotAddress(s, k, chain[n]) else 0
  }

  /** The n-th slot of the chain holds a pointer to the next one. */
  ghost predicate SlotLinked(words: map<nat, nat>, s: nat, k: nat, chain: seq<nat>, n: nat)
    requires n < |chain|
  {
    && SlotOffset(k, chain[n]) in words
    && words[SlotOffset(k, chain[n])] == ChainAddress(s, k, chain, n + 1)
  }

  /** The embedded free list is exactly the chain of slots: in the page and without
      repetition. */
  ghost predicate ChainOk(p: Page, s: nat, k: nat, chain: seq<nat>) {
    && p.freelist == ChainAddress(s, k, chain, 0)
    && (forall n :: 0 <= n < |chain| ==> chain[n] < Capacity(k))
    && (forall m, n :: 0 <= m < n < |chain| ==> chain[m] != chain[n])
    && (forall n :: 0 <= n < |chain| ==> SlotLinked(p.words, s, k, chain, n))
  }

  /** Page s is a slab of a cache, with the slots of the chain free. */
  ghost predicate SlabShape(p: Page, s: nat, cache: nat, chain: seq<nat>) {
    && p.magic == SLAB_MAGIC && p.cache == cache
    && p.maxObjs == Capacity(cache % 8)
    && p.inuse + |chain| == p.maxObjs
    && ChainOk(p, s, cache % 8, chain)
  }

  /** Taking the first free object. */
  function Pop(p: Page, next: nat): Page {
    p.(freelist := next, inuse := p.inuse + 1)
  }

  /** Giving an object back. */
  function Push(p: Page, s: nat, k: nat, i: nat): Page
    requires p.inuse > 0
  {
    p.(words := p.words[SlotOffset(k, i) := p.freelist], freelist := SlotAddress(s, k, i), inuse := p.inuse - 1)
  }

  lemma PopShape(p: Page, s: nat, cache: nat, chain: seq<nat>)
    requires SlabShape(p, s, cache, chain) && chain != []
    ensures SlotLinked(p.words, s, cache % 8, chain, 0)
    ensures SlabShape(Pop(p, p.words[SlotOffset(cache % 8, chain[0])]), s, cache, chain[1..])
  {
    var k, rest := cache % 8, chain[1..];
    assert SlotLinked(p.words, s, k, chain, 0);
    var p' := Pop(p, p.words[SlotOffset(k, chain[0])]);
    forall n | 0 <= n < |rest|
      ensures SlotLinked(p'.words, s, k, rest, n)
    {
      assert SlotLinked(p.words, s, k, chain, n + 1);
    }
  }

  lemma PushShape(p: Page, s: nat, cache: nat, chain: seq<nat>, i: nat)
    requires SlabShape(p, s, cache, chain) && i < Capacity(cache % 8) && i !in chain && p.inuse > 0
    ensures SlabShape(Push(p, s, cache % 8, i), s, cache, [i] + chain)
  {
    var k, longer := cache % 8, [i] + chain;
    var p' := Push(p, s, k, i);
    forall n | 0 <= n < |longer|
      ensures SlotLinked(p'.words, s, k, longer, n)
    {
      if n > 0 {
        assert SlotLinked(p.words, s, k, chain, n - 1);
        assert longer[n] == chain[n - 1] && chain[n - 1] != i;
        SlotsApart(k, i, chain[n - 1]);
      }
    }
  }

  /** A chain without repetition is no longer than the slab. */
  lemma {:induction false} ChainFits(chain: seq<nat>, cap: nat)
    requires forall n :: 0 <= n < |chain| ==> chain[n] < cap
    requires forall m, n :: 0 <= m < n < |chain| ==> chain[m] != chain[n]
    ensures |chain| <= cap
    ensures |chain| == cap ==> forall i: nat :: i < cap ==> i in chain
    decreases cap
  {
    if chain != [] {
      assert chain[0] < cap;
      if n :| 0 <= n < |chain| && chain[n] == cap - 1 {
        var rest := chain[..n] + chain[n + 1..];
        ChainFits(rest, cap - 1);
        assert forall i :: i in chain <==> i in rest || i == cap - 1;
      } else {
        ChainFits(chain, cap - 1);
      }
    }
  }

  /** All slots, in order: the chain of a fresh slab. */
  function AllSlots(n: nat): (r: seq<nat>)
    ensures |r| == n && forall i :: 0 <= i < n ==> r[i] == i
  {
    if n == 0 then [] else AllSlots(n - 1) + [n - 1]
  }

  /** The chaining loop of format_new_slab. */
  method LinkSlots(before: map<nat, nat>, s: nat, k: nat, maxObjs: nat) returns (words: map<nat, nat>)
    requires k < NUM_CLASSES && maxObjs == Capacity(k)
    ensures forall n :: 0 <= n < maxObjs ==> SlotLinked(words, s, k, AllSlots(maxObjs), n)
  {
    var current := FirstOffset(k);
    words := before;
    ghost var chain := AllSlots(maxObjs);
    var i := 0;
    while i < maxObjs - 1
      invariant 0 <= i <= maxObjs - 1 && current == SlotOffset(k, i)
      invariant forall n :: 0 <= n < i ==> SlotLinked(words, s, k, chain, n)
    {
      var next := current + ObjSize(k);
      NodesAfterStep(words, words[current := s * 4096 + next], s, k, chain, i);
      words := words[current := s * 4096 + next];
      current := next;
      i := i + 1;
    }
    NodesAfterStep(words, words[current := 0], s, k, chain, maxObjs - 1);
    words := words[current := 0];
  }

  /** format_new_slab: writes the header and chains all objects together. */
  method FormatNewSlab(p: Page, s: nat, cache: nat) returns (r: Page)
    ensures SlabShape(r, s, cache, AllSlots(Capacity(cache % 8)))
  {
    var k := cache % 8;
    LayoutComputed(k);
    var alignment := if ObjSize(k) < 64 then ObjSize(k) else 64;
    var first := (HEADER_SIZE + alignment - 1) / alignment * alignment;
    var maxObjs := (4096 - first) / ObjSize(k);
    var words := LinkSlots(p.words, s, k, maxObjs);
    r := p.(magic := SLAB_MAGIC, cache := cache, inuse := 0, maxObjs := maxObjs, words := words,
            freelist := s * 4096 + first);
  }

  lemma NodesAfterStep(words: map<nat, nat>, words': map<nat, nat>, s: nat, k: nat,
                       chain: seq<nat>, i: nat)
    requires k < NUM_CLASSES && i < |chain| == Capacity(k) && forall n :: 0 <= n < |chain| ==> chain[n] == n
    requires forall n :: 0 <= n < i ==> SlotLinked(words, s, k, chain, n)
    requires words' == words[SlotOffset(k, i) := ChainAddress(s, k, chain, i + 1)]
    ensures forall n :: 0 <= n <= i ==> SlotLinked(words', s, k, chain, n)
  {
    forall n | 0 <= n <= i
      ensures SlotLinked(words', s, k, chain, n)
    {
      if n < i {
        assert SlotLinked(words, s, k, chain, n);
        SlotsApart(k, n, i);
      }
    }
  }
}
