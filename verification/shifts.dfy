/** Shifts and single-bit masks on unbounded naturals, as the kernel applies them
    to page frame numbers (PFNs). */
module Shifts {

  /** x >> k */
  function Shr(x: nat, k: nat): nat {
    if k == 0 then x else Shr(x, k - 1) / 2
  }

  /** x << k */
  function Shl(x: nat, k: nat): nat {
    if k == 0 then x else 2 * Shl(x, k - 1)
  }

  /** 1 << k */
  function Pow2(k: nat): nat {
    Shl(1, k)
  }

  /** x ^ (1 << k) */
  function FlipBit(x: nat, k: nat): nat {
    if Shr(x, k) % 2 == 0 then x + Pow2(k) else x - PowAtMost(x, k)
  }

  /** x & ~(1 << k) */
  function ClearBit(x: nat, k: nat): nat {
    if Shr(x, k) % 2 == 0 then x else x - PowAtMost(x, k)
  }

  /** 1 << k, for an x in which bit k is set. */
  function PowAtMost(x: nat, k: nat): (r: nat)
    requires Shr(x, k) % 2 == 1
    ensures r == Pow2(k) <= x
  {
    ShrRange(x, k);
    ShlMonotone(1, Shr(x, k), k);
    Pow2(k)
  }

  lemma {:induction false} ShlAdd(a: nat, b: nat, k: nat)
    ensures Shl(a + b, k) == Shl(a, k) + Shl(b, k)
  {
    if k > 0 {
      ShlAdd(a, b, k - 1);
    }
  }

  lemma ShlMonotone(a: nat, b: nat, k: nat)
    requires a <= b
    ensures Shl(a, k) <= Shl(b, k)
  {
    ShlAdd(a, b - a, k);
  }

  lemma {:induction false} Pow2Positive(k: nat)
    ensures Pow2(k) >= 1
  {
    if k > 0 {
      Pow2Positive(k - 1);
    }
  }

  lemma {:induction false} ShrShr(x: nat, a: nat, b: nat)
    ensures Shr(Shr(x, a), b) == Shr(x, a + b)
  {
    if b > 0 {
      ShrShr(x, a, b - 1);
    }
  }

  lemma {:induction false} ShlShl(x: nat, a: nat, b: nat)
    ensures Shl(Shl(x, a), b) == Shl(x, a + b)
  {
    if b > 0 {
      ShlShl(x, a, b - 1);
    }
  }

  lemma {:induction false} ShrShl(x: nat, k: nat)
    ensures Shr(Shl(x, k), k) == x
    decreases k
  {
    if k > 0 {
      ShlShl(x, 1, k - 1);
      assert Shl(x, 1) == 2 * Shl(x, 0);
      ShrShl(2 * x, k - 1);
    }
  }

  /** The numbers whose shift is i are the interval that starts at i << k. */
  lemma {:induction false} ShrRange(x: nat, k: nat)
    ensures Shl(Shr(x, k), k) <= x < Shl(Shr(x, k), k) + Pow2(k)
  {
    if k > 0 {
      ShrRange(x, k - 1);
      var u := Shr(x, k - 1);
      var v := Shr(x, k);
      assert u == v + v + u % 2;
      ShlAdd(v, v, k - 1);
      ShlAdd(v + v, u % 2, k - 1);
      assert u % 2 == 0 ==> Shl(0, k - 1) == 0 by { ShlZero(k - 1); }
    }
  }

  lemma {:induction false} ShlZero(k: nat)
    ensures Shl(0, k) == 0
  {
    if k > 0 {
      ShlZero(k - 1);
    }
  }

  /** A range test on PFNs decides which block a page lies in. */
  lemma ShrIff(x: nat, i: nat, k: nat)
    ensures Shr(x, k) == i <==> Shl(i, k) <= x < Shl(i, k) + Pow2(k)
  {
    ShrRange(x, k);
    var v := Shr(x, k);
    if v < i {
      ShlAdd(v, 1, k);
      ShlMonotone(v + 1, i, k);
    } else if i < v {
      ShlAdd(i, 1, k);
      ShlMonotone(i + 1, v, k);
    }
  }

  lemma {:induction false} ShrMonotone(x: nat, y: nat, k: nat)
    requires x <= y
    ensures Shr(x, k) <= Shr(y, k)
  {
    if k > 0 {
      ShrMonotone(x, y, k - 1);
    }
  }

  lemma {:induction false} ShlIsTimes(x: nat, k: nat)
    ensures Shl(x, k) == x * Pow2(k)
  {
    if k > 0 {
      ShlIsTimes(x, k - 1);
      calc {
        x * Pow2(k);
        x * (2 * Pow2(k - 1));
        2 * (x * Pow2(k - 1));
      }
    }
  }

  /** a | b */
  function Or(a: nat, b: nat): nat {
    if a == 0 then b
    else if b == 0 then a
    else (if a % 2 == 1 || b % 2 == 1 then 1 else 0) + 2 * Or(a / 2, b / 2)
  }

  /** Below the lowest set bit of a, or is addition. */
  lemma {:induction false} OrIsAdd(a: nat, b: nat, k: nat)
    requires b < Pow2(k)
    ensures Or(Shl(a, k), b) == Shl(a, k) + b
    decreases k
  {
    if k > 0 && Shl(a, k) != 0 && b != 0 {
      OrIsAdd(a, b / 2, k - 1);
    }
  }

  lemma {:induction false} OrAbsorbs(a: nat, b: nat, k: nat)
    requires b < Pow2(k) && a == Shl(Shr(a, k), k) + b
    ensures Or(a, b) == a
    decreases k
  {
    if k > 0 && a != 0 && b != 0 {
      ShrShr(a, 1, k - 1);
      assert Shr(a, 1) == Shr(a, 0) / 2;
      OrAbsorbs(a / 2, b / 2, k - 1);
    }
  }

  /** Or with every offset of k bits adds it exactly when a is aligned to 2^k. */
  lemma OrExact(a: nat, k: nat)
    ensures (forall b: nat :: b < Pow2(k) ==> Or(a, b) == a + b) <==> a == Shl(Shr(a, k), k)
  {
    ShrRange(a, k);
    if a == Shl(Shr(a, k), k) {
      forall b: nat | b < Pow2(k)
        ensures Or(a, b) == a + b
      {
        OrIsAdd(Shr(a, k), b, k);
      }
    } else {
      OrAbsorbs(a, a - Shl(Shr(a, k), k), k);
    }
  }
}
