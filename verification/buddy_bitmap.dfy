/** The XOR bitmaps of the buddy allocator: one bit per buddy pair and order, packed
    eight to a byte. */
module BuddyBitmap {
  import opened Shifts
  import opened BuddyBlocks

  /** 1 << bit, for a bit index within a byte. */
  function Mask(bit: nat): bv8
    requires bit < 8
  {
    match bit
    case 0 => 0x01
    case 1 => 0x02
    case 2 => 0x04
    case 3 => 0x08
    case 4 => 0x10
    case 5 => 0x20
    case 6 => 0x40
    case 7 => 0x80
  }

  predicate TestBit(byte: bv8, bit: nat)
    requires bit < 8
  {
    byte & Mask(bit) != 0
  }

  lemma XorFlips(byte: bv8, bit: nat, other: nat)
    requires bit < 8 && other < 8
    ensures TestBit(byte ^ Mask(bit), other) <==> TestBit(byte, other) != (bit == other)
  {
    if bit == other {
      OneBit(byte, bit);
    } else {
      MasksDisjoint(bit, other);
      XorOutside(byte, Mask(bit), Mask(other));
    }
  }

  lemma XorOutside(x: bv8, m: bv8, n: bv8)
    requires m & n == 0
    ensures (x ^ m) & n == x & n
  {
  }

  lemma MasksDisjoint(bit: nat, other: nat)
    requires bit < 8 && other < 8 && bit != other
    ensures Mask(bit) & Mask(other) == 0
  {
    match bit
    case 0 =>
    case 1 =>
    case 2 =>
    case 3 =>
    case 4 =>
    case 5 =>
    case 6 =>
    case 7 =>
  }

  lemma OneBit(byte: bv8, bit: nat)
    requires bit < 8
    ensures (byte ^ Mask(bit)) & Mask(bit) != 0 <==> byte & Mask(bit) == 0
  {
    match bit
    case 0 =>
    case 1 =>
    case 2 =>
    case 3 =>
    case 4 =>
    case 5 =>
    case 6 =>
    case 7 =>
  }

  /** The bytes initialize_buddy reserves for one order; the guard for none is never taken. */
  function BytesNeeded(maxPfn: nat, order: nat): nat {
    (Shr(maxPfn, order + 1) + 1 + 7) / 8
  }

  /** Where the bitmap of an order starts in the block that holds all of them. */
  function StartOf(maxPfn: nat, order: nat): nat {
    if order == 0 then 0 else StartOf(maxPfn, order - 1) + BytesNeeded(maxPfn, order - 1)
  }

  /** The bitmaps follow each other in that block without overlap, and each has at least one
      byte. */
  lemma {:induction false} BitmapsApart(maxPfn: nat, j: nat, k: nat)
    requires j < k
    ensures StartOf(maxPfn, j) + BytesNeeded(maxPfn, j) <= StartOf(maxPfn, k)
    ensures BytesNeeded(maxPfn, j) > 0
    decreases k
  {
    if j < k - 1 {
      BitmapsApart(maxPfn, j, k - 1);
    }
  }

  class BuddyMap {
    const maxPfn: nat
    var bytes: seq<seq<bv8>>

    ghost predicate Valid()
      reads this
    {
      && |bytes| == MAX_ORDER + 1
      && forall k :: 0 <= k <= MAX_ORDER ==> |bytes[k]| == BytesNeeded(maxPfn, k)
    }

    ghost predicate HasPair(order: nat, pair: nat) {
      order <= MAX_ORDER && pair <= Shr(maxPfn, order + 1)
    }

    ghost predicate Bit(order: nat, pair: nat)
      requires Valid() && HasPair(order, pair)
      reads this
    {
      TestBit(bytes[order][pair / 8], pair % 8)
    }

    constructor (maxPfn: nat)
      ensures Valid() && this.maxPfn == maxPfn
      ensures forall k: nat, i: nat :: HasPair(k, i) ==> !Bit(k, i)
    {
      this.maxPfn := maxPfn;
      bytes := seq(MAX_ORDER + 1, k requires 0 <= k <= MAX_ORDER => seq(BytesNeeded(maxPfn, k), _ => 0));
    }

    /** toggle_buddy_bit: flips the bit of the pair pfn belongs to, and no other, and
        returns the new value. */
    method Toggle(pfn: nat, order: nat) returns (now: bool)
      requires Valid() && order <= MAX_ORDER && pfn <= maxPfn
      modifies this
      ensures Valid() && HasPair(order, Shr(pfn, order + 1))
      ensures now == Bit(order, Shr(pfn, order + 1)) == !old(Bit(order, Shr(pfn, order + 1)))
      ensures forall k: nat, i: nat :: HasPair(k, i) ==>
                Bit(k, i) == (old(Bit(k, i)) != (k == order && i == Shr(pfn, order + 1)))
    {
      ShrMonotone(pfn, maxPfn, order + 1);
      var pairIndex := Shr(pfn, order + 1);
      var byteIndex := pairIndex / 8;
      var bitIndex := pairIndex % 8;
      var byte := bytes[order][byteIndex];
      bytes := bytes[order := bytes[order][byteIndex := byte ^ Mask(bitIndex)]];
      forall other | 0 <= other < 8
        ensures TestBit(byte ^ Mask(bitIndex), other) <==> TestBit(byte, other) != (bitIndex == other)
      {
        XorFlips(byte, bitIndex, other);
      }
      now := TestBit(bytes[order][byteIndex], bitIndex);
    }
  }
}
