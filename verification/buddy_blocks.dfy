/** Which blocks the buddy allocator should list, told from the set of free pages
    alone.

    A block is a pair (i, k): block number i of order k, whose pages are the PFNs x
    with x >> k == i. The canonical blocks of a page set are its maximal aligned
    blocks; the bit of a buddy pair says whether exactly one half is wholly free. */
module BuddyBlocks {
  import opened Shifts

  const MAX_ORDER: nat := 10

  function Buddy(i: nat): (b: nat)
    ensures b != i && b / 2 == i / 2
  {
    if i % 2 == 0 then i + 1 else i - 1
  }

  /** The pages of block (i, k). */
  function Pages(i: nat, k: nat): (s: set<nat>)
    ensures forall x: nat :: x in s <==> Shr(x, k) == i
  {
    assert forall x: nat :: Shr(x, k) == i ==> x < Shl(i, k) + Pow2(k) by {
      forall x: nat | Shr(x, k) == i
        ensures x < Shl(i, k) + Pow2(k)
      {
        ShrRange(x, k);
      }
    }
    set x: nat | x < Shl(i, k) + Pow2(k) && Shr(x, k) == i
  }

  ghost predicate Whole(free: set<nat>, i: nat, k: nat) {
    Pages(i, k) <= free
  }

  /** Block (i, k) is a maximal block of the free pages. */
  ghost predicate Canonical(free: set<nat>, i: nat, k: nat) {
    && k <= MAX_ORDER
    && Whole(free, i, k)
    && (k == MAX_ORDER || !Whole(free, i / 2, k + 1))
  }

  /** The value the buddy bit of pair i at order k must have. */
  ghost predicate PairBit(free: set<nat>, i: nat, k: nat) {
    Whole(free, 2 * i, k) != Whole(free, 2 * i + 1, k)
  }

  /** Block (i, k) may be added to the free pages without merging. */
  ghost predicate Addable(free: set<nat>, i: nat, k: nat) {
    && k <= MAX_ORDER
    && Pages(i, k) !! free
    && (k == MAX_ORDER || !Whole(free, Buddy(i), k))
  }

  lemma BlockHasPage(i: nat, k: nat)
    ensures Shl(i, k) in Pages(i, k)
  {
    ShrShl(i, k);
  }

  lemma Halves(i: nat, k: nat)
    requires k > 0
    ensures Pages(i, k) == Pages(2 * i, k - 1) + Pages(2 * i + 1, k - 1)
    ensures Pages(2 * i, k - 1) !! Pages(2 * i + 1, k - 1)
  {
  }

  lemma {:induction false} PageCount(i: nat, k: nat)
    ensures |Pages(i, k)| == Pow2(k)
    decreases k
  {
    if k == 0 {
      assert Pages(i, 0) == {i};
    } else {
      PageCount(2 * i, k - 1);
      PageCount(2 * i + 1, k - 1);
      Halves(i, k);
    }
  }

  /** Blocks nest: pages of a smaller block share one larger block. */
  lemma Nested(i: nat, j: nat, k: nat)
    requires j <= k
    ensures Pages(i, j) <= Pages(Shr(i, k - j), k)
  {
    forall x: nat | x in Pages(i, j)
      ensures x in Pages(Shr(i, k - j), k)
    {
      ShrShr(x, j, k - j);
    }
  }

  lemma ParentShr(q: nat, d: nat)
    requires d > 0
    ensures Shr(q, d) == Shr(q / 2, d - 1)
  {
    ShrShr(q, 1, d - 1);
    assert Shr(q, 1) == Shr(q, 0) / 2;
  }

  /** How adding a block that does not merge changes which blocks are wholly free:
      only the blocks inside it become whole. */
  lemma WholeAfterAdd(free: set<nat>, p: nat, k: nat, q: nat, j: nat)
    requires Addable(free, p, k) && j <= MAX_ORDER
    ensures Whole(free + Pages(p, k), q, j) <==> Whole(free, q, j) || (j <= k && Shr(q, k - j) == p)
    ensures j <= k && Shr(q, k - j) == p ==> !Whole(free, q, j)
  {
    if j <= k {
      Nested(q, j, k);
      BlockHasPage(q, j);
    } else {
      Nested(p, k, j);
      Nested(Buddy(p), k, j);
      ParentShr(p, j - k);
      ParentShr(Buddy(p), j - k);
    }
  }

  /** Adding a block that does not merge adds exactly that block to the canonical
      ones. Read from right to left it is what removing a canonical block does. */
  lemma AddMaximal(free: set<nat>, p: nat, k: nat, q: nat, j: nat)
    requires Addable(free, p, k) && j <= MAX_ORDER
    ensures Canonical(free + Pages(p, k), q, j) <==> Canonical(free, q, j) || (q == p && j == k)
    ensures !Canonical(free, p, k)
  {
    WholeAfterAdd(free, p, k, q, j);
    WholeAfterAdd(free, p, k, p, k);
    if j < MAX_ORDER {
      WholeAfterAdd(free, p, k, q / 2, j + 1);
      if j < k {
        ParentShr(q, k - j);
      } else if j == k && q / 2 == p / 2 {
        assert q == p || q == Buddy(p);
        HalvesWhole(free, q / 2, j + 1);
      }
    }
  }

  /** It flips exactly the bit of its pair. */
  lemma AddMaximalBit(free: set<nat>, p: nat, k: nat, q: nat, j: nat)
    requires Addable(free, p, k) && j < MAX_ORDER
    ensures PairBit(free + Pages(p, k), q, j) <==> (PairBit(free, q, j) != (j == k && q == p / 2))
  {
    WholeAfterAdd(free, p, k, 2 * q, j);
    WholeAfterAdd(free, p, k, 2 * q + 1, j);
    if j < k {
      ParentShr(2 * q, k - j);
      ParentShr(2 * q + 1, k - j);
      assert Shr(2 * q, k - j) == Shr(q, k - j - 1) == Shr(2 * q + 1, k - j);
    } else if j == k && q == p / 2 {
      assert Shr(2 * q, 0) == 2 * q && Shr(2 * q + 1, 0) == 2 * q + 1;
      assert (2 * q == p && 2 * q + 1 == Buddy(p)) || (2 * q + 1 == p && 2 * q == Buddy(p));
    }
  }

  lemma HalvesWhole(free: set<nat>, i: nat, k: nat)
    requires k > 0
    ensures Whole(free, i, k) <==> Whole(free, 2 * i, k - 1) && Whole(free, 2 * i + 1, k - 1)
  {
    Halves(i, k);
  }

  /** A canonical block can be taken out: what is left admits it back unmerged. */
  lemma RemoveMaximal(free: set<nat>, p: nat, k: nat)
    requires Canonical(free, p, k)
    ensures Addable(free - Pages(p, k), p, k)
    ensures free - Pages(p, k) + Pages(p, k) == free
  {
    if k < MAX_ORDER {
      HalvesWhole(free, p / 2, k + 1);
      var b := Buddy(p);
      assert b == 2 * (p / 2) || b == 2 * (p / 2) + 1;
      assert !Whole(free, b, k);
    }
  }
}
