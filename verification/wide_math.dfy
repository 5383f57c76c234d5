/** lib/math.cpp: a * b / c through a 128-bit product, without losing the high half. */
module WideMath {
  import opened MemoryLayout

  /** mulq then divq: the product is the pair (high, low), and the divide faults unless the
      quotient fits 64 bits, that is unless high < c. */
  function MulDivRaw(a: nat, b: nat, c: nat): (q: nat)
    requires a * b / 0x1_0000_0000_0000_0000 < c
    ensures q < ADDRESS_LIMIT
    ensures q * c <= a * b < q * c + c
  {
    var high, low := a * b / 0x1_0000_0000_0000_0000, a * b % 0x1_0000_0000_0000_0000;
    HighHalf(high, low, c);
    DivMod(high * 0x1_0000_0000_0000_0000 + low, c);
    (high * 0x1_0000_0000_0000_0000 + low) / c
  }

  function MulDiv(a: nat, b: nat, c: nat): (r: nat)
    requires 0 < c && a < ADDRESS_LIMIT && b < ADDRESS_LIMIT
  {
    RemainderFits(a, b, c);
    Wrap(Wrap(a / c * b) + MulDivRaw(a % c, b, c))
  }

  lemma DivMod(x: nat, c: nat)
    requires 0 < c
    ensures x / c * c <= x < x / c * c + c
  {
  }

  lemma DivIs(x: nat, c: nat, q: nat)
    requires q * c <= x < q * c + c
    ensures x / c == q
  {
    var p := x / c;
    DivMod(x, c);
    if p < q {
      Larger(p, q, c);
    } else if q < p {
      Larger(q, p, c);
    }
  }

  lemma {:induction false} Larger(p: nat, q: nat, c: nat)
    requires p < q
    ensures p * c + c <= q * c
  {
    if p + 1 < q {
      Larger(p, q - 1, c);
    }
    OneMore(q - 1, c);
  }

  lemma OneMore(q: nat, c: nat)
    ensures (q + 1) * c == q * c + c
  {
  }

  lemma QuotientBelow(x: nat, c: nat, n: nat)
    requires 0 < c && x < n * c
    ensures x / c < n
  {
    DivMod(x, c);
    if n < x / c {
      Larger(n, x / c, c);
    }
  }

  lemma HighHalf(high: nat, low: nat, c: nat)
    requires high < c && low < 0x1_0000_0000_0000_0000
    ensures (high * 0x1_0000_0000_0000_0000 + low) / c < 0x1_0000_0000_0000_0000
  {
    var x := high * 0x1_0000_0000_0000_0000 + low;
    assert x < c * 0x1_0000_0000_0000_0000;
    QuotientBelow(x, c, 0x1_0000_0000_0000_0000);
  }

  /** The divide never faults on a remainder. */
  lemma RemainderFits(a: nat, b: nat, c: nat)
    requires 0 < c && b < ADDRESS_LIMIT
    ensures a % c * b / 0x1_0000_0000_0000_0000 < c
  {
    var r := a % c;
    assert r * b <= r * 0x1_0000_0000_0000_0000 by {
      assert r * (0x1_0000_0000_0000_0000 - b) >= 0;
    }
  }

  /** The result is the exact quotient, modulo 2^64; so it is exact whenever it fits. */
  lemma MulDivExact(a: nat, b: nat, c: nat)
    requires 0 < c && a < ADDRESS_LIMIT && b < ADDRESS_LIMIT
    ensures MulDiv(a, b, c) == Wrap(a * b / c)
    ensures MulDiv(a, b, c) == a * b / c <==> a * b / c < ADDRESS_LIMIT
  {
    RemainderFits(a, b, c);
    var q, r := a / c, a % c;
    var t := MulDivRaw(r, b, c);
    Euclid(a, c);
    QuotientOf(a, b, c, q, r, t);
    Combine(q * b, t, a * b / c);
  }

  lemma QuotientOf(a: nat, b: nat, c: nat, q: nat, r: nat, t: nat)
    requires 0 < c && a == q * c + r && t * c <= r * b < t * c + c
    ensures a * b / c == q * b + t
  {
    Distribute(q * c, r, b);
    Distribute(q * b, t, c);
    Swap(q, b, c);
    DivIs(a * b, c, q * b + t);
  }

  lemma Euclid(a: nat, c: nat)
    requires 0 < c
    ensures a == a / c * c + a % c
  {
  }

  lemma Combine(p: nat, t: nat, x: nat)
    requires x == p + t
    ensures Wrap(Wrap(p) + t) == Wrap(x)
    ensures Wrap(x) == x <==> x < ADDRESS_LIMIT
  {
    WrapAdd(p, t);
  }

  lemma Distribute(x: nat, y: nat, z: nat)
    ensures (x + y) * z == x * z + y * z
  {
  }

  lemma Swap(q: nat, b: nat, c: nat)
    ensures q * c * b == q * b * c
  {
  }

  lemma DivMonotone(x: nat, y: nat, c: nat)
    requires 0 < c && x <= y
    ensures x / c <= y / c
  {
    DivMod(x, c);
    DivMod(y, c);
    if y / c < x / c {
      Larger(y / c, x / c, c);
    }
  }
}
