/** What it means for free lists and buddy bits to stand for a set of free pages, and
    how single list and bit updates keep that meaning. Every split and every merge is
    one such pair of updates. */
module Tracking {
  import opened Shifts
  import opened Links
  import opened BuddyBlocks
  import opened BuddyLists
  import opened BuddyBitmap

  /** PFN p heads a canonical block of order k. */
  ghost predicate HeadsBlock(free: set<nat>, p: nat, k: nat) {
    p == Shl(Shr(p, k), k) && Canonical(free, Shr(p, k), k)
  }

  /** PFN p heads a canonical block: its first words hold a list node. */
  ghost predicate Heads(free: set<nat>, p: nat) {
    exists k: nat :: HeadsBlock(free, p, k)
  }

  ghost predicate AreHeads(nodes: set<nat>, free: set<nat>) {
    forall p: nat :: p in nodes <==> Heads(free, p)
  }

  lemma NodesAreHeads(ls: seq<seq<nat>>, free: set<nat>)
    requires ListsTrack(ls, free)
    ensures AreHeads(NodesOf(ls), free)
  {
    forall p: nat
      ensures p in NodesOf(ls) <==> Heads(free, p)
    {
      if k: nat :| HeadsBlock(free, p, k) {
        assert p in ls[k];
      }
    }
  }

  /** The pages one operation stores list nodes to: every page that comes to head a block,
      and no page that heads one neither before nor after. */
  ghost predicate StoredHeads(stored: set<nat>, free: set<nat>, free': set<nat>) {
    && (forall p :: p in stored ==> Heads(free, p) || Heads(free', p))
    && (forall p: nat :: Heads(free', p) && !Heads(free, p) ==> p in stored)
  }

  lemma RecordedHeads(r: Record, free: set<nat>, free': set<nat>)
    requires AreHeads(r.before, free) && AreHeads(r.nodes, free')
    ensures StoredHeads(r.stored, free, free')
  {
  }

  /** The page at the front of a block is free. */
  lemma HeadsAreFree(free: set<nat>, p: nat)
    requires Heads(free, p)
    ensures p in free
  {
    var k: nat :| HeadsBlock(free, p, k);
    BlockHasPage(Shr(p, k), k);
  }

  /** List k holds exactly the canonical blocks of order k. */
  ghost predicate ListsTrack(ls: seq<seq<nat>>, free: set<nat>) {
    && |ls| == NUM_ORDERS
    && (forall k: nat, p: nat :: k < NUM_ORDERS ==> (p in ls[k] <==> HeadsBlock(free, p, k)))
    && (forall k :: 0 <= k < NUM_ORDERS ==> NoDuplicates(ls[k]))
  }

  /** Below the top order, the bit of a pair is set iff exactly one half is free. */
  ghost predicate BitsTrack(m: BuddyMap, free: set<nat>)
    requires m.Valid()
    reads m
  {
    forall k: nat, i: nat :: k < MAX_ORDER && m.HasPair(k, i) ==> m.Bit(k, i) == PairBit(free, i, k)
  }

  lemma BlockHead(i: nat, k: nat)
    ensures Shr(Shl(i, k), k) == i
    ensures Shr(Shl(i, k), k + 1) == i / 2
    ensures FlipBit(Shl(i, k), k) == Shl(Buddy(i), k)
    ensures ClearBit(Shl(i, k), k) == Shl(i / 2, k + 1)
  {
    ShrShl(i, k);
    var e := 2 * (i / 2);
    ShlAdd(e, 1, k);
    ShlShl(i / 2, 1, k);
    assert Shl(i / 2, 1) == 2 * Shl(i / 2, 0);
  }

  lemma NotListed(ls: seq<seq<nat>>, free: set<nat>, i: nat, k: nat)
    requires ListsTrack(ls, free) && Pages(i, k) !! free
    ensures forall j :: 0 <= j < NUM_ORDERS ==> Shl(i, k) !in ls[j]
  {
    var p := Shl(i, k);
    BlockHasPage(i, k);
    forall j: nat | j < NUM_ORDERS
      ensures p !in ls[j]
    {
      assert p in Pages(Shr(p, j), j);
      assert !HeadsBlock(free, p, j);
    }
  }

  lemma ListsAfterAdd(ls: seq<seq<nat>>, free: set<nat>, i: nat, k: nat)
    requires ListsTrack(ls, free) && Addable(free, i, k)
    ensures ListsTrack(ls[k := [Shl(i, k)] + ls[k]], free + Pages(i, k))
  {
    var b := Shl(i, k);
    var ls' := ls[k := [b] + ls[k]];
    NotListed(ls, free, i, k);
    forall j: nat, p: nat | j < NUM_ORDERS
      ensures p in ls'[j] <==> HeadsBlock(free + Pages(i, k), p, j)
    {
      AddMaximal(free, i, k, Shr(p, j), j);
      BlockHead(i, k);
      assert p in ls[j] <==> HeadsBlock(free, p, j);
    }
  }

  lemma ListsAfterRemove(ls: seq<seq<nat>>, free: set<nat>, i: nat, k: nat)
    requires ListsTrack(ls, free) && Canonical(free, i, k)
    ensures Shl(i, k) in ls[k]
    ensures ListsTrack(ls[k := Without(ls[k], Shl(i, k))], free - Pages(i, k))
  {
    var b := Shl(i, k);
    BlockHead(i, k);
    assert HeadsBlock(free, b, k);
    WithoutMembers(ls[k], b);
    var ls' := ls[k := Without(ls[k], b)];
    var free' := free - Pages(i, k);
    RemoveMaximal(free, i, k);
    forall j: nat, p: nat | j < NUM_ORDERS
      ensures p in ls'[j] <==> HeadsBlock(free', p, j)
    {
      AddMaximal(free', i, k, Shr(p, j), j);
      assert p in ls[j] <==> HeadsBlock(free, p, j);
    }
  }

  /** Toggling the bit of a pair is right whenever one block of the pair is about to
      be added unmerged or about to be taken out. */
  method FlipPair(m: BuddyMap, pfn: nat, order: nat, ghost free: set<nat>) returns (now: bool)
    requires m.Valid() && order <= MAX_ORDER && pfn <= m.maxPfn
    requires BitsTrack(m, free)
    modifies m
    ensures m.Valid()
    ensures order < MAX_ORDER ==> now == !PairBit(free, Shr(pfn, order + 1), order)
    ensures forall b: nat :: b / 2 == Shr(pfn, order + 1) && Addable(free, b, order) ==>
                               BitsTrack(m, free + Pages(b, order))
    ensures forall b: nat :: b / 2 == Shr(pfn, order + 1) && Canonical(free, b, order) ==>
                               BitsTrack(m, free - Pages(b, order))
  {
    now := m.Toggle(pfn, order);
    forall b: nat | b / 2 == Shr(pfn, order + 1) && Addable(free, b, order)
      ensures BitsTrack(m, free + Pages(b, order))
    {
      forall k: nat, i: nat | k < MAX_ORDER && m.HasPair(k, i)
        ensures m.Bit(k, i) == PairBit(free + Pages(b, order), i, k)
      {
        AddMaximalBit(free, b, order, i, k);
      }
    }
    forall b: nat | b / 2 == Shr(pfn, order + 1) && Canonical(free, b, order)
      ensures BitsTrack(m, free - Pages(b, order))
    {
      RemoveMaximal(free, b, order);
      forall k: nat, i: nat | k < MAX_ORDER && m.HasPair(k, i)
        ensures m.Bit(k, i) == PairBit(free - Pages(b, order), i, k)
      {
        AddMaximalBit(free - Pages(b, order), b, order, i, k);
      }
    }
  }

  /** At the top order no bit below it changes meaning. */
  lemma BitsAtTop(m: BuddyMap, free: set<nat>, i: nat)
    requires m.Valid() && BitsTrack(m, free) && Addable(free, i, MAX_ORDER)
    ensures BitsTrack(m, free + Pages(i, MAX_ORDER))
  {
    forall k: nat, j: nat | k < MAX_ORDER && m.HasPair(k, j)
      ensures m.Bit(k, j) == PairBit(free + Pages(i, MAX_ORDER), j, k)
    {
      AddMaximalBit(free, i, MAX_ORDER, j, k);
    }
  }

  /** Any wholly free block lies in a canonical one, so looking at the list heads from
      its order up finds memory whenever there is some. */
  lemma {:induction false} CanonicalAncestor(free: set<nat>, i: nat, k: nat) returns (j: nat)
    requires Whole(free, i, k) && k <= MAX_ORDER
    ensures k <= j <= MAX_ORDER && HeadsBlock(free, Shl(Shr(i, j - k), j), j)
    decreases MAX_ORDER - k
  {
    if k == MAX_ORDER || !Whole(free, i / 2, k + 1) {
      j := k;
      BlockHead(i, k);
    } else {
      j := CanonicalAncestor(free, i / 2, k + 1);
      ParentShr(i, j - k);
    }
  }
}
