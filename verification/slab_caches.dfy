/** The caches of the SLUB allocator: slab pages in memory and, per cache, the doubly
    linked list of its partially used slabs. Where pages come from is left to the heap
    above. */
module SlabCaches {
  import opened Links
  import opened SlabPages

  /** A slab: its cache and the slots that are free, in free-list order. */
  datatype Slab = Slab(cache: nat, chain: seq<nat>)

  type Slabs = map<nat, Slab>

  ghost predicate Partial(slabs: Slabs, c: nat, s: nat) {
    s in slabs && slabs[s].cache == c && slabs[s].chain != []
  }

  /** The partial list of every cache holds exactly its slabs with a free slot. */
  ghost predicate ListsOk(partial: seq<int>, next: seq<int>, prev: seq<int>, lists: seq<seq<nat>>, slabs: Slabs) {
    && |partial| == |lists|
    && (forall c :: 0 <= c < |lists| ==> Linked(partial[c], next, prev, lists[c]))
    && (forall c: nat, s: nat :: c < |lists| ==> (s in lists[c] <==> Partial(slabs, c, s)))
  }

  ghost predicate ShapesOk(mem: seq<Page>, caches: nat, slabs: Slabs) {
    forall s :: s in slabs ==> ShapeOk(mem, caches, slabs, s)
  }

  ghost predicate ShapeOk(mem: seq<Page>, caches: nat, slabs: Slabs, s: nat)
    requires s in slabs
  {
    && 0 < s < |mem| && slabs[s].cache < caches
    && SlabShape(mem[s], s, slabs[s].cache, slabs[s].chain)
  }

  lemma ListPush(partial: seq<int>, next: seq<int>, prev: seq<int>, lists: seq<seq<nat>>,
                 slabs: Slabs,
                 c: nat, s: nat, chain: seq<nat>)
    requires ListsOk(partial, next, prev, lists, slabs) && c < |lists| && s < |next| && |next| == |prev| && chain != []
    requires s in slabs ==> slabs[s].cache == c && slabs[s].chain == []
    ensures partial[c] != NIL ==> 0 <= partial[c] < |prev| && partial[c] != s
    ensures ListsOk(partial[c := s], next[s := partial[c]],
                    if partial[c] == NIL then prev[s := NIL] else prev[s := NIL][partial[c] := s],
                    lists[c := [s] + lists[c]], slabs[s := Slab(c, chain)])
  {
    var next' := next[s := partial[c]];
    HeadInBounds(partial[c], next, prev, lists[c]);
    assert !Partial(slabs, c, s);
    PushFront(partial[c], next, prev, lists[c], s);
    var prev' := if partial[c] == NIL then prev[s := NIL] else prev[s := NIL][partial[c] := s];
    forall d: nat | d < |lists| && d != c
      ensures Linked(partial[d], next', prev', lists[d])
    {
      ListsApart(partial, next, prev, lists, slabs, c, d);
      assert !Partial(slabs, d, s);
      LinkedFrame(partial[d], next, prev, next', prev', lists[d]);
    }
    var lists', slabs' := lists[c := [s] + lists[c]], slabs[s := Slab(c, chain)];
    forall d: nat, x: nat | d < |lists|
      ensures x in lists'[d] <==> Partial(slabs', d, x)
    {
      assert x in lists[d] <==> Partial(slabs, d, x);
    }
  }

  lemma ListsApart(partial: seq<int>, next: seq<int>, prev: seq<int>, lists: seq<seq<nat>>,
                   slabs: Slabs,
                   c: nat, d: nat)
    requires ListsOk(partial, next, prev, lists, slabs) && c < |lists| && d < |lists| && c != d
    ensures forall x :: x in lists[c] ==> x !in lists[d]
  {
    forall x | x in lists[c]
      ensures x !in lists[d]
    {
      assert Partial(slabs, c, x) && !Partial(slabs, d, x);
    }
  }

  /** Unlinking a slab that is gone, or that has no free slot left. */
  lemma ListDrop(partial: seq<int>, next: seq<int>, prev: seq<int>, lists: seq<seq<nat>>,
                 slabs: Slabs,
                 c: nat, s: nat, slabs': Slabs)
    requires ListsOk(partial, next, prev, lists, slabs) && c < |lists| && Partial(slabs, c, s)
    requires slabs' == slabs - {s} || slabs' == slabs[s := Slab(c, [])]
    ensures s in lists[c] && s < |next| == |prev|
    ensures prev[s] != NIL ==> 0 <= prev[s] < |next|
    ensures next[s] != NIL ==> 0 <= next[s] < |next|
    ensures ListsOk(if prev[s] == NIL then partial[c := next[s]] else partial,
                    if prev[s] == NIL then next else next[prev[s] := next[s]],
                    if next[s] == NIL then prev else prev[next[s] := prev[s]],
                    lists[c := Without(lists[c], s)], slabs')
  {
    Unlink(partial[c], next, prev, lists[c], s);
    WithoutMembers(lists[c], s);
    var next' := if prev[s] == NIL then next else next[prev[s] := next[s]];
    var prev' := if next[s] == NIL then prev else prev[next[s] := prev[s]];
    forall d: nat | d < |lists| && d != c
      ensures Linked(partial[d], next', prev', lists[d])
    {
      ListsApart(partial, next, prev, lists, slabs, c, d);
      LinkedFrame(partial[d], next, prev, next', prev', lists[d]);
    }
    var lists' := lists[c := Without(lists[c], s)];
    forall d: nat, x: nat | d < |lists|
      ensures x in lists'[d] <==> Partial(slabs', d, x)
    {
      assert x in lists[d] <==> Partial(slabs, d, x);
    }
  }

  lemma ListSame(partial: seq<int>, next: seq<int>, prev: seq<int>, lists: seq<seq<nat>>,
                 slabs: Slabs,
                 s: nat, chain: seq<nat>)
    requires ListsOk(partial, next, prev, lists, slabs) && s in slabs && (chain != [] <==> slabs[s].chain != [])
    ensures ListsOk(partial, next, prev, lists, slabs[s := Slab(slabs[s].cache, chain)])
  {
    var slabs' := slabs[s := Slab(slabs[s].cache, chain)];
    forall d: nat, x: nat | d < |lists|
      ensures x in lists[d] <==> Partial(slabs', d, x)
    {
      assert x in lists[d] <==> Partial(slabs, d, x);
    }
  }

  lemma ShapeUpdate(mem: seq<Page>, caches: nat, slabs: Slabs, s: nat, p: Page, slab: Slab)
    requires ShapesOk(mem, caches, slabs) && 0 < s < |mem| && slab.cache < caches
    requires SlabShape(p, s, slab.cache, slab.chain)
    ensures ShapesOk(mem[s := p], caches, slabs[s := slab])
  {
    var slabs' := slabs[s := slab];
    forall x | x in slabs'
      ensures ShapeOk(mem[s := p], caches, slabs', x)
    {
      assert x != s ==> ShapeOk(mem, caches, slabs, x);
    }
  }

  /** What kfree looks at in a page. */
  ghost predicate SameHeader(p: Page, p': Page) {
    p'.magic == p.magic && p'.cache == p.cache
  }

  /** The first four bytes of a list node: the low half of its next pointer, the address of
      a page or null. */
  function NodeMagic(next: int): nat {
    if next < 0 then 0 else next * 4096 % 0x1_0000_0000
  }

  /** A list node lies over the magic, the cache and the page count of a large allocation;
      its first word never is the slab magic. The other words of a slab header stay. */
  predicate NodeOver(p: Page, p': Page) {
    p' == p.(magic := p'.magic, cache := p'.cache, metaPages := p'.metaPages) && p'.magic % 4096 == 0
  }

  /** List nodes are stored to the given pages and to no other. */
  ghost predicate NodesOver(mem: seq<Page>, mem': seq<Page>, stored: set<nat>) {
    && |mem'| == |mem|
    && forall x: nat :: x < |mem| ==> if x in stored then NodeOver(mem[x], mem'[x]) else mem'[x] == mem[x]
  }

  lemma NodeMagicAligned(next: int)
    ensures NodeMagic(next) % 4096 == 0
  {
  }

  lemma NodesKeepShapes(mem: seq<Page>, mem': seq<Page>, stored: set<nat>, caches: nat, slabs: Slabs)
    requires ShapesOk(mem, caches, slabs) && NodesOver(mem, mem', stored) && stored !! slabs.Keys
    ensures ShapesOk(mem', caches, slabs)
  {
    forall s | s in slabs
      ensures ShapeOk(mem', caches, slabs, s)
    {
      assert ShapeOk(mem, caches, slabs, s);
    }
  }

  /** Memory once the nodes are stored. */
  method NodesStored(mem: seq<Page>, stored: set<nat>, nodes: seq<int>) returns (mem': seq<Page>)
    requires |nodes| == |mem|
    ensures NodesOver(mem, mem', stored)
    ensures forall x :: x in stored && x < |mem| ==> mem'[x].magic == NodeMagic(nodes[x])
  {
    mem' := mem;
    for x := 0 to |mem|
      invariant |mem'| == |mem|
      invariant forall y: nat :: y < x && y in stored ==>
                  NodeOver(mem[y], mem'[y]) && mem'[y].magic == NodeMagic(nodes[y])
      invariant forall y: nat :: y < |mem| && (y >= x || y !in stored) ==> mem'[y] == mem[y]
    {
      if x in stored {
        var cache: int, pages: nat := *, *;
        NodeMagicAligned(nodes[x]);
        mem' := mem'[x := mem[x].(magic := NodeMagic(nodes[x]), cache := cache, metaPages := pages)];
      }
    }
  }

  class SlabCaches {
    /** The words of every page, and the next_slab and prev_slab words of its header. */
    var mem: seq<Page>
    var next: seq<int>
    var prev: seq<int>
    /** partial_list of every cache: eight caches for the BSP, then eight per AP. */
    var partial: seq<int>

    ghost var slabs: Slabs
    ghost var lists: seq<seq<nat>>

    ghost predicate Valid()
      reads this
    {
      && |next| == |prev| == |mem|
      && ShapesOk(mem, |partial|, slabs)
      && ListsOk(partial, next, prev, lists, slabs)
    }

    /** initialize_slub: eight empty caches for the BSP, whatever memory holds. */
    constructor (mem: seq<Page>)
      ensures Valid() && slabs == map[] && this.mem == mem && |partial| == NUM_CLASSES
    {
      this.mem := mem;
      next := seq(|mem|, _ => NIL);
      prev := seq(|mem|, _ => NIL);
      partial := seq(NUM_CLASSES, _ => NIL);
      slabs := map[];
      lists := seq(NUM_CLASSES, _ => []);
    }

    /** The registration step of initialize_slub_ap: eight more empty caches. */
    method AddCore()
      requires Valid()
      modifies this`partial, this`lists
      ensures Valid() && |partial| == old(|partial|) + NUM_CLASSES && partial[..old(|partial|)] == old(partial)
    {
      ghost var empty: seq<seq<nat>> := seq(NUM_CLASSES, _ => []);
      var nils: seq<int> := seq(NUM_CLASSES, _ => NIL);
      forall s | s in slabs
        ensures ShapeOk(mem, |partial + nils|, slabs, s)
      {
        assert ShapeOk(mem, |partial|, slabs, s);
      }
      AddEmpty(partial, next, prev, lists, slabs, nils, empty, |mem|, mem);
      partial := partial + nils;
      lists := lists + empty;
    }

    /** Bytes that are neither in a slab header nor in a free slot may hold anything:
        neither users nor the page allocator disturb the caches. */
    method ForeignStores(mem': seq<Page>, next': seq<int>, prev': seq<int>)
      requires Valid() && |mem'| == |next'| == |prev'| == |mem|
      requires forall s :: s in slabs && s < |mem| ==> next'[s] == next[s] && prev'[s] == prev[s]
      requires forall s :: s in slabs && s < |mem| ==> SameSlabWords(mem[s], mem'[s], slabs[s])
      modifies this`mem, this`next, this`prev
      ensures Valid() && mem == mem' && next == next' && prev == prev'
    {
      forall s | s in slabs
        ensures ShapeOk(mem', |partial|, slabs, s)
      {
        assert ShapeOk(mem, |partial|, slabs, s);
        KeepsShape(mem[s], mem'[s], s, slabs[s]);
      }
      forall c: nat | c < |lists|
        ensures Linked(partial[c], next', prev', lists[c])
      {
        forall x | x in lists[c]
          ensures x in slabs && x < |mem|
        {
          assert Partial(slabs, c, x);
          assert ShapeOk(mem, |partial|, slabs, x);
        }
        LinkedFrame(partial[c], next, prev, next', prev', lists[c]);
      }
      mem, next, prev := mem', next', prev';
    }

    /** The list nodes of the page allocator, stored to pages that are no slabs. */
    method StoreNodes(stored: set<nat>, nodes: seq<int>)
      requires Valid() && |nodes| == |mem| && stored !! slabs.Keys
      modifies this`mem
      ensures Valid() && NodesOver(old(mem), mem, stored)
      ensures forall x :: x in stored && x < |mem| ==>
                mem[x].magic == if nodes[x] < 0 then 0 else nodes[x] * 4096 % 0x1_0000_0000
    {
      var after := NodesStored(mem, stored, nodes);
      NodesKeepShapes(mem, after, stored, |partial|, slabs);
      mem := after;
    }

    /** The metadata kmalloc writes in front of a large allocation. Its page count overlaps
        the cache word of a slab header, which is left unspecified. */
    method StoreMetadata(b: nat, pages: nat)
      requires Valid() && b < |mem| && b !in slabs
      modifies this`mem
      ensures Valid() && |mem| == old(|mem|) && mem[b].magic == BYPASS_MAGIC && mem[b].metaPages == pages
      ensures forall x :: 0 <= x < |mem| && x != b ==> mem[x] == old(mem[x])
    {
      var clobbered: int := *;
      forall s | s in slabs
        ensures ShapeOk(mem[b := mem[b].(magic := BYPASS_MAGIC, metaPages := pages, cache := clobbered)], |partial|,
                        slabs, s)
      {
        assert ShapeOk(mem, |partial|, slabs, s);
      }
      mem := mem[b := mem[b].(magic := BYPASS_MAGIC, metaPages := pages, cache := clobbered)];
    }

    /** The slab-refill step of KmemCache::alloc: formats a page and lists it. */
    method NewSlab(s: nat, c: nat)
      requires Valid() && 0 < s < |mem| && s !in slabs && c < |partial|
      modifies this
      ensures Valid() && |mem| == old(|mem|) && |partial| == old(|partial|)
      ensures slabs == old(slabs)[s := Slab(c, AllSlots(Capacity(c % 8)))]
      ensures lists == old(lists)[c := [s] + old(lists[c])] && partial[c] == s
      ensures forall x :: 0 <= x < |mem| && x != s ==> mem[x] == old(mem[x])
    {
      var chain := AllSlots(Capacity(c % 8));
      var page := FormatNewSlab(mem[s], s, c);
      ShapeUpdate(mem, |partial|, slabs, s, page, Slab(c, chain));
      ListPush(partial, next, prev, lists, slabs, c, s, chain);
      mem := mem[s := page];
      next := next[s := partial[c]];
      prev := prev[s := NIL];
      if partial[c] != NIL {
        prev := prev[partial[c] := s];
      }
      partial := partial[c := s];
      lists := lists[c := [s] + lists[c]];
      slabs := slabs[s := Slab(c, chain)];
    }

    /** KmemCache::alloc from the first partial slab: pops its first free obj, and
        unlinks the slab if that was the last one. */
    method TakeObject(c: nat) returns (obj: nat, ghost s: nat)
      requires Valid() && c < |partial| && lists[c] != []
      modifies this
      ensures Valid() && |mem| == old(|mem|) && |partial| == old(|partial|)
      ensures s == old(lists[c])[0] && Partial(old(slabs), c, s)
      ensures slabs == old(slabs)[s := Slab(c, old(slabs[s].chain)[1..])]
      ensures obj == SlotAddress(s, c % 8, old(slabs[s].chain)[0])
      ensures forall x :: 0 <= x < |mem| && x != s ==> mem[x] == old(mem[x])
    {
      HeadInBounds(partial[c], next, prev, lists[c]);
      var target := partial[c];
      s := target;
      assert s in lists[c];
      assert ShapeOk(mem, |partial|, slabs, s);
      ghost var chain := slabs[s].chain;
      PopShape(mem[s], s, c, chain);
      obj := mem[target].freelist;
      SlotsApart(c % 8, chain[0], chain[0]);
      var after := mem[target].words[obj - target * 4096];
      ShapeUpdate(mem, |partial|, slabs, s, Pop(mem[s], after), Slab(c, chain[1..]));
      if after == 0 {
        RestEmpty(mem[s], s, c, chain);
        ListDrop(partial, next, prev, lists, slabs, c, s, slabs[s := Slab(c, [])]);
        UnlinkFull(target, c);
      } else {
        ListSame(partial, next, prev, lists, slabs, s, chain[1..]);
      }
      mem := mem[target := Pop(mem[target], after)];
      slabs := slabs[s := Slab(c, chain[1..])];
    }

    /** Takes a slab without free slots off the front of its list and clears its links. */
    method UnlinkFull(target: nat, c: nat)
      requires |next| == |prev| == |mem| && target < |mem|
      requires ListsOk(partial, next, prev, lists, slabs) && c < |lists| && lists[c] != [] && lists[c][0] == target
      requires Partial(slabs, c, target)
      modifies this`partial, this`next, this`prev, this`lists
      ensures |next| == |prev| == |mem| && |partial| == old(|partial|)
      ensures ListsOk(partial, next, prev, lists, slabs[target := Slab(c, [])])
    {
      ghost var slabs' := slabs[target := Slab(c, [])];
      HeadInBounds(partial[c], next, prev, lists[c]);
      ListDrop(partial, next, prev, lists, slabs, c, target, slabs');
      partial := partial[c := next[target]];
      if partial[c] != NIL {
        prev := prev[partial[c] := NIL];
      }
      lists := lists[c := Without(lists[c], target)];
      Clear(partial, next, prev, lists, slabs', target);
      next := next[target := NIL];
      prev := prev[target := NIL];
    }

    /** KmemCache::free up to the emptiness test: pushes an obj back and lists the slab
        if it had been full. */
    method GiveBack(obj: nat, ghost s: nat, ghost i: nat)
      requires Valid() && s in slabs && i < Capacity(slabs[s].cache % 8) && i !in slabs[s].chain
      requires obj == SlotAddress(s, slabs[s].cache % 8, i)
      modifies this
      ensures Valid() && |mem| == old(|mem|) && |partial| == old(|partial|)
      ensures slabs == old(slabs)[s := Slab(old(slabs[s].cache), [i] + old(slabs[s].chain))]
      ensures forall x :: 0 <= x < |mem| && x != s ==> mem[x] == old(mem[x])
      ensures s < |mem| && SameHeader(old(mem[s]), mem[s]) && mem[s].inuse == old(mem[s].inuse) - 1
    {
      assert ShapeOk(mem, |partial|, slabs, s);
      ghost var chain := slabs[s].chain;
      SlotInPage(s, slabs[s].cache % 8, i);
      InUse(mem[s], s, slabs[s], i);
      PushShape(mem[s], s, slabs[s].cache, chain, i);
      var header := obj / 4096;
      var c: nat := mem[header].cache;
      var page := mem[header].(words := mem[header].words[obj - header * 4096 := mem[header].freelist],
                               freelist := obj, inuse := mem[header].inuse - 1);
      ShapeUpdate(mem, |partial|, slabs, s, page, Slab(c, [i] + chain));
      if page.inuse == page.maxObjs - 1 {
        Relist(header, c, [i] + chain);
      } else {
        ListSame(partial, next, prev, lists, slabs, s, [i] + chain);
      }
      mem := mem[header := page];
      slabs := slabs[s := Slab(c, [i] + chain)];
    }

    /** Puts a slab that was full at the front of its partial list. */
    method Relist(header: nat, c: nat, ghost chain: seq<nat>)
      requires |next| == |prev| == |mem| && header < |mem| && chain != []
      requires ListsOk(partial, next, prev, lists, slabs) && c < |lists|
      requires header in slabs && slabs[header] == Slab(c, [])
      modifies this`partial, this`next, this`prev, this`lists
      ensures |next| == |prev| == |mem| && |partial| == old(|partial|)
      ensures ListsOk(partial, next, prev, lists, slabs[header := Slab(c, chain)])
    {
      ListPush(partial, next, prev, lists, slabs, c, header, chain);
      next := next[header := partial[c]];
      prev := prev[header := NIL];
      if partial[c] != NIL {
        prev := prev[partial[c] := header];
      }
      partial := partial[c := header];
      lists := lists[c := [header] + lists[c]];
    }

    /** The emptiness step of KmemCache::free: unlinks a slab whose objects are all free. */
    method DropSlab(s: nat)
      requires Valid() && s in slabs && slabs[s].chain != []
      modifies this`partial, this`next, this`prev, this`lists, this`slabs
      ensures Valid() && |partial| == old(|partial|) && slabs == old(slabs) - {s}
    {
      assert ShapeOk(mem, |partial|, slabs, s);
      var c: nat := mem[s].cache;
      ListDrop(partial, next, prev, lists, slabs, c, s, slabs - {s});
      if prev[s] != NIL {
        next := next[prev[s] := next[s]];
      } else {
        partial := partial[c := next[s]];
      }
      if next[s] != NIL {
        prev := prev[next[s] := prev[s]];
      }
      lists := lists[c := Without(lists[c], s)];
      forall x | x in slabs - {s}
        ensures ShapeOk(mem, |partial|, slabs - {s}, x)
      {
        assert ShapeOk(mem, |partial|, slabs, x);
      }
      slabs := slabs - {s};
    }
  }

  /** The words of a slab page that belong to the allocator. */
  ghost predicate SameSlabWords(p: Page, p': Page, slab: Slab) {
    && p'.(metaPages := 0, words := map[]) == p.(metaPages := 0, words := map[])
    && forall n :: 0 <= n < |slab.chain| ==>
         var w := SlotOffset(slab.cache % 8, slab.chain[n]);
         w in p.words ==> w in p'.words && p'.words[w] == p.words[w]
  }

  lemma KeepsShape(p: Page, p': Page, s: nat, slab: Slab)
    requires SlabShape(p, s, slab.cache, slab.chain) && SameSlabWords(p, p', slab)
    ensures SlabShape(p', s, slab.cache, slab.chain)
  {
    forall n | 0 <= n < |slab.chain|
      ensures SlotLinked(p'.words, s, slab.cache % 8, slab.chain, n)
    {
      assert SlotLinked(p.words, s, slab.cache % 8, slab.chain, n);
    }
  }

  lemma RestEmpty(p: Page, s: nat, c: nat, chain: seq<nat>)
    requires SlabShape(p, s, c, chain) && chain != [] && s > 0
    ensures SlotLinked(p.words, s, c % 8, chain, 0)
    ensures p.words[SlotOffset(c % 8, chain[0])] == 0 <==> chain[1..] == []
  {
    assert SlotLinked(p.words, s, c % 8, chain, 0);
  }

  lemma InUse(p: Page, s: nat, slab: Slab, i: nat)
    requires SlabShape(p, s, slab.cache, slab.chain) && i < Capacity(slab.cache % 8) && i !in slab.chain
    ensures p.inuse > 0
  {
    ChainFits(slab.chain, Capacity(slab.cache % 8));
  }

  lemma Clear(partial: seq<int>, next: seq<int>, prev: seq<int>, lists: seq<seq<nat>>,
              slabs: Slabs, s: nat)
    requires ListsOk(partial, next, prev, lists, slabs) && |next| == |prev| && s < |next|
    requires s in slabs && slabs[s].chain == []
    ensures ListsOk(partial, next[s := NIL], prev[s := NIL], lists, slabs)
  {
    forall c: nat | c < |lists|
      ensures Linked(partial[c], next[s := NIL], prev[s := NIL], lists[c])
    {
      assert !Partial(slabs, c, s);
      LinkedFrame(partial[c], next, prev, next[s := NIL], prev[s := NIL], lists[c]);
    }
  }

  lemma AddEmpty(partial: seq<int>, next: seq<int>, prev: seq<int>, lists: seq<seq<nat>>,
                 slabs: Slabs,
                 nils: seq<int>, empty: seq<seq<nat>>, n: nat, mem: seq<Page>)
    requires ListsOk(partial, next, prev, lists, slabs) && ShapesOk(mem, |partial|, slabs)
    requires |nils| == |empty| && |next| == |prev|
    requires forall i :: 0 <= i < |nils| ==> nils[i] == NIL && empty[i] == []
    ensures ListsOk(partial + nils, next, prev, lists + empty, slabs)
  {
    forall c: nat, s: nat | c < |lists + empty|
      ensures s in (lists + empty)[c] <==> Partial(slabs, c, s)
    {
      if c < |lists| {
        assert s in lists[c] <==> Partial(slabs, c, s);
      } else if s in slabs {
        assert ShapeOk(mem, |partial|, slabs, s);
      }
    }
  }
}
