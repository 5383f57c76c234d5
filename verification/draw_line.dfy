/** gui::draw_line: Bresenham's algorithm with one error term for both axes. */
module DrawLine {

  /** The C++ int. */
  newtype int32 = x: int | -0x8000_0000 <= x < 0x8000_0000

  type Point = (int, int)

  function Abs(x: int): nat {
    if x >= 0 then x else -x
  }

  function Max(x: int, y: int): int {
    if x >= y then x else y
  }

  /** Pixels along the longer axis. */
  function Length(from: Point, to: Point): nat {
    Max(Abs(to.0 - from.0), Abs(to.1 - from.1))
  }

  /** Step n of the line: the longer axis has moved n pixels, and the point is within half
      a pixel of the ideal line along the other axis. */
  ghost predicate OnLine(p: Point, from: Point, to: Point, n: nat) {
    var dx, dy := Abs(to.0 - from.0), Abs(to.1 - from.1);
    var i, j := Abs(p.0 - from.0), Abs(p.1 - from.1);
    && Between(from.0, p.0, to.0) && Between(from.1, p.1, to.1)
    && (if dx >= dy then i == n else j == n)
    && 2 * Abs(dx * j - dy * i) <= Max(dx, dy)
  }

  ghost predicate Between(a: int, x: int, b: int) {
    a <= x <= b || b <= x <= a
  }

  /** m * n, by counting. */
  function Times(m: nat, n: nat): int {
    if n == 0 then 0 else Times(m, n - 1) + m
  }

  lemma {:induction false} TimesIsProduct(m: nat, n: nat)
    ensures Times(m, n) == m * n
  {
    if n > 0 {
      TimesIsProduct(m, n - 1);
    }
  }

  /** The loop after i steps in x and j steps in y; e is dx * j - dy * i. */
  datatype State = State(i: nat, j: nat, e: int)

  predicate StepsX(dx: nat, dy: nat, s: State) {
    2 * (s.e + dx - dy) + dy >= 0
  }

  predicate StepsY(dx: nat, dy: nat, s: State) {
    2 * (s.e + dx - dy) <= dx
  }

  function Next(dx: nat, dy: nat, s: State): State {
    State(if StepsX(dx, dy, s) then s.i + 1 else s.i,
          if StepsY(dx, dy, s) then s.j + 1 else s.j,
          s.e - (if StepsX(dx, dy, s) then dy else 0) + (if StepsY(dx, dy, s) then dx else 0))
  }

  function StateAt(dx: nat, dy: nat, n: nat): State {
    if n == 0 then State(0, 0, 0) else Next(dx, dy, StateAt(dx, dy, n - 1))
  }

  ghost predicate Progress(dx: nat, dy: nat, s: State) {
    && s.e == Times(dx, s.j) - Times(dy, s.i)
    && 2 * Abs(s.e) <= Max(dx, dy)
    && s.i <= dx && s.j <= dy
  }

  /** Which axes step, and that the error stays within half of the longer axis. */
  lemma StepKeepsBound(dx: nat, dy: nat, s: State)
    requires 2 * Abs(s.e) <= Max(dx, dy)
    ensures 2 * Abs(Next(dx, dy, s).e) <= Max(dx, dy)
    ensures if dx >= dy then StepsX(dx, dy, s) else StepsY(dx, dy, s)
  {
  }

  lemma StepProgress(dx: nat, dy: nat, s: State)
    requires Progress(dx, dy, s) && (if dx >= dy then s.i < dx else s.j < dy)
    ensures Progress(dx, dy, Next(dx, dy, s))
  {
    var t := Next(dx, dy, s);
    StepKeepsBound(dx, dy, s);
    assert t.e == Times(dx, t.j) - Times(dy, t.i);
    if dx >= dy {
      InRange(dx, dy, t.i, t.j, t.e);
    } else {
      InRange(dy, dx, t.j, t.i, -t.e);
    }
  }

  /** Every step moves the longer axis by one pixel, and at its end both axes have
      arrived. */
  lemma {:induction false} StateOk(dx: nat, dy: nat, n: nat)
    requires n <= Max(dx, dy)
    ensures Progress(dx, dy, StateAt(dx, dy, n))
    ensures (if dx >= dy then StateAt(dx, dy, n).i else StateAt(dx, dy, n).j) == n
    ensures n == Max(dx, dy) ==> StateAt(dx, dy, n).i == dx && StateAt(dx, dy, n).j == dy
  {
    if n > 0 {
      StateOk(dx, dy, n - 1);
      StepKeepsBound(dx, dy, StateAt(dx, dy, n - 1));
      StepProgress(dx, dy, StateAt(dx, dy, n - 1));
      var s := StateAt(dx, dy, n);
      if dx >= dy {
        EndReached(dx, dy, s.i, s.j, s.e);
      } else {
        EndReached(dy, dx, s.j, s.i, -s.e);
      }
    }
  }

  lemma AtLeastOnce(m: nat, d: int)
    requires d >= 1
    ensures m * d >= m
  {
  }

  /** When the longer axis is at its end, so is the other. */
  lemma EndReached(major: nat, minor: nat, i: nat, j: nat, e: int)
    requires e == Times(major, j) - Times(minor, i) && 2 * Abs(e) <= major && minor <= major && j <= minor
    ensures i == major > 0 ==> j == minor
  {
    TimesIsProduct(major, j);
    TimesIsProduct(minor, i);
    if i == major && j < minor {
      FarBehind(major, minor, j);
    }
  }

  lemma FarBehind(major: nat, minor: nat, j: nat)
    requires j < minor
    ensures major * j - minor * major <= 0 - major
  {
    AtLeastOnce(major, minor - j);
    assert major * (minor - j) == major * minor - major * j;
  }

  /** The other axis does not overshoot. */
  lemma {:induction false} InRange(major: nat, minor: nat, i: nat, j: nat, e: int)
    requires e == Times(major, j) - Times(minor, i) && 2 * Abs(e) <= major && minor <= major && i <= major && major > 0
    ensures j <= minor
  {
    TimesIsProduct(major, j);
    TimesIsProduct(minor, i);
    assert minor * (major - i) >= 0;
    if j > minor {
      AtLeastOnce(major, j - minor);
    }
  }

  /** What the loop needs to know of a state. */
  lemma StateFacts(dx: nat, dy: nat, n: nat, s: State)
    requires n <= Max(dx, dy) && s == StateAt(dx, dy, n)
    ensures -Max(dx, dy) <= 2 * s.e <= Max(dx, dy) && s.i <= dx && s.j <= dy
    ensures if dx >= dy then s.i == n else s.j == n
    ensures s.i == dx && s.j == dy <==> n == Max(dx, dy)
  {
    StateOk(dx, dy, n);
  }

  /** A point i and j pixels from the start, towards the end. */
  function Moved(from: int, to: int, steps: nat): int {
    if from < to then from + steps else from - steps
  }

  function PointOf(from: Point, to: Point, s: State): Point {
    (Moved(from.0, to.0, s.i), Moved(from.1, to.1, s.j))
  }

  function PointAt(from: Point, to: Point, n: nat): Point {
    PointOf(from, to, StateAt(Abs(to.0 - from.0), Abs(to.1 - from.1), n))
  }

  /** The points plotted up to step n. */
  function Trace(from: Point, to: Point, n: nat): (r: seq<Point>)
    ensures |r| == n + 1 && r[n] == PointAt(from, to, n)
  {
    if n == 0 then [PointAt(from, to, 0)] else Trace(from, to, n - 1) + [PointAt(from, to, n)]
  }

  lemma PointOnLine(from: Point, to: Point, s: State, n: nat)
    requires Progress(Abs(to.0 - from.0), Abs(to.1 - from.1), s)
    requires if Abs(to.0 - from.0) >= Abs(to.1 - from.1) then s.i == n else s.j == n
    ensures OnLine(PointOf(from, to, s), from, to, n)
  {
    TimesIsProduct(Abs(to.0 - from.0), s.j);
    TimesIsProduct(Abs(to.1 - from.1), s.i);
    assert Abs(Moved(from.0, to.0, s.i) - from.0) == s.i && Abs(Moved(from.1, to.1, s.j) - from.1) == s.j;
  }

  lemma {:induction false} TraceAt(from: Point, to: Point, n: nat, m: nat)
    requires m <= n
    ensures Trace(from, to, n)[m] == PointAt(from, to, m)
  {
    if m < n {
      TraceAt(from, to, n - 1, m);
    }
  }

  /** The whole trace runs from the start to the end, moves the longer axis by one pixel a
      step, and stays within half a pixel of the line. */
  lemma {:induction false} TraceOnLine(from: Point, to: Point, m: nat)
    requires m <= Max(Abs(to.0 - from.0), Abs(to.1 - from.1))
    ensures var n := Max(Abs(to.0 - from.0), Abs(to.1 - from.1));
            && |Trace(from, to, n)| == n + 1
            && Trace(from, to, n)[0] == from && Trace(from, to, n)[n] == to
            && OnLine(Trace(from, to, n)[m], from, to, m)
  {
    var dx, dy := Abs(to.0 - from.0), Abs(to.1 - from.1);
    var n := Max(dx, dy);
    TraceAt(from, to, n, 0);
    TraceAt(from, to, n, m);
    LastPoint(from, to, n, StateAt(dx, dy, n));
    StateOk(dx, dy, m);
    PointOnLine(from, to, StateAt(dx, dy, m), m);
  }

  lemma WholeTrace(from: Point, to: Point, points: seq<Point>)
    requires points == Trace(from, to, Length(from, to))
    ensures |points| == Length(from, to) + 1 && points[0] == from && points[Length(from, to)] == to
    ensures forall m :: 0 <= m < |points| ==> OnLine(points[m], from, to, m)
  {
    TraceOnLine(from, to, 0);
    forall m | 0 <= m < |points| ensures OnLine(points[m], from, to, m) {
      TraceOnLine(from, to, m);
    }
  }

  lemma LastPoint(from: Point, to: Point, n: nat, s: State)
    requires n == Max(Abs(to.0 - from.0), Abs(to.1 - from.1)) && s == StateAt(Abs(to.0 - from.0), Abs(to.1 - from.1), n)
    ensures PointOf(from, to, s) == to
  {
    StateFacts(Abs(to.0 - from.0), Abs(to.1 - from.1), n, s);
  }

  lemma TraceStep(from: Point, to: Point, n: nat, s: State)
    requires s == StateAt(Abs(to.0 - from.0), Abs(to.1 - from.1), n + 1)
    ensures Trace(from, to, n + 1) == Trace(from, to, n) + [PointOf(from, to, s)]
  {
  }

  /** The variables of the loop in a state. */
  ghost predicate Renders(from: Point, to: Point, dx: nat, dy: nat, s: State, x: int, y: int, err: int) {
    (x, y) == PointOf(from, to, s) && err == s.e + dx - dy
  }

  // ------------------------------------------------------------------------------
  // Int overflow

  predicate Fits(x: int) {
    -0x8000_0000 <= x < 0x8000_0000
  }

  /** The sums and the doubled error of one round are ints. */
  predicate RoundSafe(dx: nat, dy: nat, s: State) {
    var err := s.e + dx - dy;
    var between := if StepsX(dx, dy, s) then err - dy else err;
    Fits(2 * err) && Fits(between) && Fits(if StepsY(dx, dy, s) then between + dx else between)
  }

  ghost predicate IntSafe(dx: nat, dy: nat) {
    forall n: nat :: n < Max(dx, dy) ==> RoundSafe(dx, dy, StateAt(dx, dy, n))
  }

  function Gcd(a: nat, b: nat): nat
    decreases b
  {
    if b == 0 then a else Gcd(b, a % b)
  }

  /** The largest multiple of g of which the double is at most x. */
  function HalfMultiple(g: nat, x: int): int {
    if g == 0 then 0 else g * (x / (2 * g))
  }

  /** The distances that draw_line can handle, from their greatest common divisor. The error
      term takes all multiples of it within half of the longer axis. */
  predicate SafeDistances(dx: nat, dy: nat) {
    var g := Gcd(dx, dy);
    if dx >= dy then
      dx == 0 || (HalfMultiple(g, dx) + dx - dy < 0x4000_0000 && HalfMultiple(g, dx - 1) + 2 * dy - dx <= 0x8000_0000)
    else
      HalfMultiple(g, dy) + dy - dx <= 0x4000_0000 && (dx > 0 ==> HalfMultiple(g, dy) + dy <= 0x8000_0000)
  }

  /** Exactly on those distances, no round of the loop leaves the ints. */
  lemma IntSafeIff(dx: nat, dy: nat)
    requires dx < 0x8000_0000 && dy < 0x8000_0000
    ensures IntSafe(dx, dy) <==> SafeDistances(dx, dy)
  {
    if dx == dy == 0 {
    } else if dx >= dy {
      if SafeDistances(dx, dy) {
        forall n: nat | n < dx
          ensures RoundSafe(dx, dy, StateAt(dx, dy, n))
        {
          FlatRoundSafe(dx, dy, n);
        }
      }
      if IntSafe(dx, dy) {
        FlatExtremes(dx, dy);
      }
    } else {
      if SafeDistances(dx, dy) {
        forall n: nat | n < dy
          ensures RoundSafe(dx, dy, StateAt(dx, dy, n))
        {
          SteepRoundSafe(dx, dy, n);
        }
      }
      if IntSafe(dx, dy) {
        SteepExtremes(dx, dy);
      }
    }
  }

  lemma {:induction false} HalfOpen(dx: nat, dy: nat, n: nat)
    requires dx > 0 || dy > 0
    ensures dx >= dy ==> 0 < 2 * StateAt(dx, dy, n).e + dx <= 2 * dx && StepsX(dx, dy, StateAt(dx, dy, n))
    ensures dx < dy ==> 0 <= 2 * StateAt(dx, dy, n).e + dy < 2 * dy && StepsY(dx, dy, StateAt(dx, dy, n))
  {
    if n > 0 {
      HalfOpen(dx, dy, n - 1);
    }
  }

  /** The greatest common divisor divides both, and is a combination of them. */
  lemma {:induction false} GcdCombines(a: nat, b: nat) returns (p: nat, q: nat, x: int, y: int)
    requires a > 0 || b > 0
    ensures Gcd(a, b) > 0 && a == Gcd(a, b) * p && b == Gcd(a, b) * q && Gcd(a, b) == a * x + b * y
    decreases b
  {
    if b == 0 {
      p, q, x, y := 1, 0, 1, 0;
    } else {
      var d, c := a / b, a % b;
      var p', q', x', y' := GcdCombines(b, c);
      p, q, x, y := p' * d + q', p', y', x' - d * y';
      EuclidStep(a, b, d, c, Gcd(b, c), p', q', x', y');
    }
  }

  lemma EuclidStep(a: int, b: int, d: int, c: int, g: int, p: int, q: int, x: int, y: int)
    requires a == b * d + c && b == g * p && c == g * q && g == b * x + c * y
    ensures a == g * (p * d + q) && g == a * y + b * (x - d * y)
  {
    assert g * (p * d + q) == g * p * d + g * q;
    assert a * y == b * d * y + c * y;
    assert b * (x - d * y) == b * x - b * d * y;
  }

  lemma HalfMultipleIs(g: nat, t: int, x: int)
    requires g > 0
    ensures 2 * (g * t) <= x <==> g * t <= HalfMultiple(g, x)
    ensures 2 * HalfMultiple(g, x) <= x
  {
    var q := x / (2 * g);
    assert x == 2 * g * q + x % (2 * g);
    assert 2 * g * q == 2 * (g * q);
    if t <= q {
      MultiplesInOrder(g, t, q);
    } else {
      MultiplesInOrder(g, q + 1, t);
      assert g * (q + 1) == g * q + g;
    }
  }

  lemma MultiplesInOrder(g: nat, t: int, q: int)
    requires t <= q
    ensures g * t <= g * q
  {
    assert g * (q - t) >= 0;
    assert g * (q - t) == g * q - g * t;
  }

  /** The error is a multiple of the divisor. */
  lemma ErrorMultiple(dx: nat, dy: nat, n: nat) returns (t: int)
    requires n <= Max(dx, dy) && (dx > 0 || dy > 0)
    ensures StateAt(dx, dy, n).e == Gcd(dx, dy) * t && Gcd(dx, dy) > 0
  {
    var s := StateAt(dx, dy, n);
    StateOk(dx, dy, n);
    var p, q, x, y := GcdCombines(dx, dy);
    t := p * s.j - q * s.i;
    TimesIsProduct(dx, s.j);
    TimesIsProduct(dy, s.i);
    Factor(Gcd(dx, dy), p, s.j, q, s.i);
  }

  lemma Factor(g: int, p: int, j: int, q: int, i: int)
    ensures g * p * j - g * q * i == g * (p * j - q * i)
  {
    assert g * (p * j) == g * p * j;
    assert g * (q * i) == g * q * i;
  }

  /** A multiple of g of which the double is at most x. */
  lemma MultipleBelow(g: nat, t: int, x: int, v: int)
    requires g > 0 && v == g * t && 2 * v <= x
    ensures v <= HalfMultiple(g, x)
  {
    HalfMultipleIs(g, t, x);
  }

  lemma Negative(g: int, t: int)
    ensures g * -t == -(g * t)
  {
  }

  lemma MultipleAbove(g: nat, t: int, x: int, v: int)
    requires g > 0 && v == g * t && -2 * v <= x
    ensures 0 - v <= HalfMultiple(g, x)
  {
    Negative(g, t);
    MultipleBelow(g, -t, x, -v);
  }

  lemma FlatRoundSafe(dx: nat, dy: nat, n: nat)
    requires 0 < dx < 0x8000_0000 && dy <= dx && n < dx && SafeDistances(dx, dy)
    ensures RoundSafe(dx, dy, StateAt(dx, dy, n))
  {
    var g, s := Gcd(dx, dy), StateAt(dx, dy, n);
    FlatMultiple(dx, dy, n);
    FlatMultiple(dx, dy, n + 1);
    HalfOpen(dx, dy, n);
    FlatRound(dx, dy, s, Next(dx, dy, s), HalfMultiple(g, dx), HalfMultiple(g, dx - 1));
  }

  lemma FlatMultiple(dx: nat, dy: nat, n: nat)
    requires dy <= dx && 0 < dx && n <= dx
    ensures var g, e := Gcd(dx, dy), StateAt(dx, dy, n).e;
            && 0 < 2 * e + dx <= 2 * dx && e <= HalfMultiple(g, dx) && 0 - e <= HalfMultiple(g, dx - 1)
  {
    HalfOpen(dx, dy, n);
    var t := ErrorMultiple(dx, dy, n);
    MultipleBelow(Gcd(dx, dy), t, dx, StateAt(dx, dy, n).e);
    MultipleAbove(Gcd(dx, dy), t, dx - 1, StateAt(dx, dy, n).e);
  }

  lemma FlatRound(dx: nat, dy: nat, s: State, s': State, high: int, low: int)
    requires 0 < dx < 0x8000_0000 && dy <= dx && s' == Next(dx, dy, s) && StepsX(dx, dy, s)
    requires 0 < 2 * s.e + dx <= 2 * dx && s.e <= high && 0 - s.e <= low
    requires 0 < 2 * s'.e + dx <= 2 * dx && s'.e <= high && 0 - s'.e <= low
    requires high + dx - dy < 0x4000_0000 && low + 2 * dy - dx <= 0x8000_0000
    ensures RoundSafe(dx, dy, s)
  {
  }

  lemma SteepRoundSafe(dx: nat, dy: nat, n: nat)
    requires dx < dy < 0x8000_0000 && n < dy && SafeDistances(dx, dy)
    ensures RoundSafe(dx, dy, StateAt(dx, dy, n))
  {
    var g, s := Gcd(dx, dy), StateAt(dx, dy, n);
    HalfOpen(dx, dy, n);
    SteepMultiple(dx, dy, n);
    SteepMultiple(dx, dy, n + 1);
    SteepRound(dx, dy, s, Next(dx, dy, s), HalfMultiple(g, dy));
  }

  /** How far the error and the distance to the next step reach. */
  lemma SteepMultiple(dx: nat, dy: nat, n: nat)
    requires dx < dy && n <= dy
    ensures var hm, e := HalfMultiple(Gcd(dx, dy), dy), StateAt(dx, dy, n).e;
            -e <= hm && (2 * (dy - dx - e) <= dy ==> dy - dx - e <= hm)
  {
    var g, e := Gcd(dx, dy), StateAt(dx, dy, n).e;
    HalfOpen(dx, dy, n);
    var p, q, x, y := GcdCombines(dx, dy);
    var t := ErrorMultiple(dx, dy, n);
    MultipleAbove(g, t, dy, e);
    if 2 * (dy - dx - e) <= dy {
      StepMultiple(g, p, q, t, dx, dy, e);
    }
  }

  lemma StepMultiple(g: nat, p: int, q: int, t: int, dx: nat, dy: nat, e: int)
    requires g > 0 && dx == g * p && dy == g * q && e == g * t && 2 * (dy - dx - e) <= dy
    ensures dy - dx - e <= HalfMultiple(g, dy)
  {
    Shift(g, t, p, q);
    MultipleBelow(g, q - p - t, dy, dy - dx - e);
  }

  lemma SteepRound(dx: nat, dy: nat, s: State, s': State, hm: int)
    requires dx < dy < 0x8000_0000 && s' == Next(dx, dy, s) && StepsY(dx, dy, s)
    requires 0 <= 2 * s.e + dy < 2 * dy && -s.e <= hm && -s'.e <= hm
    requires 2 * (dy - dx - s.e) <= dy ==> dy - dx - s.e <= hm
    requires hm + dy - dx <= 0x4000_0000 && (dx > 0 ==> hm + dy <= 0x8000_0000)
    ensures RoundSafe(dx, dy, s)
  {
  }

  lemma Shift(g: int, t: int, p: int, q: int)
    ensures g * (q - p - t) == g * q - g * p - g * t
  {
  }

  /** Congruent values within half of a modulus are equal. */
  lemma SameResidue(m: nat, e: int, v: int, k: int)
    requires e == v + m * k && -2 * m < 2 * e - 2 * v < 2 * m
    ensures e == v
  {
    if k >= 1 {
      MultiplesInOrder(m, 1, k);
    } else if k <= -1 {
      MultiplesInOrder(m, k, -1);
    }
  }

  /** On a flat line, every multiple in the range is the error of some round. */
  lemma FlatAttains(dx: nat, dy: nat, t: int) returns (n: nat)
    requires dy <= dx && 0 < dx && 0 < 2 * (Gcd(dx, dy) * t) + dx <= 2 * dx
    ensures n < dx && StateAt(dx, dy, n).e == Gcd(dx, dy) * t
  {
    var p, q, x, y := GcdCombines(dx, dy);
    n := -(y * t) % dx;
    var d := -(y * t) / dx;
    assert -(y * t) == dx * d + n;
    StateOk(dx, dy, n);
    HalfOpen(dx, dy, n);
    var j := StateAt(dx, dy, n).j;
    TimesIsProduct(dx, j);
    TimesIsProduct(dy, n);
    FlatResidue(dx, dy, Gcd(dx, dy), x, y, t, d, n, j);
    SameResidue(dx, StateAt(dx, dy, n).e, Gcd(dx, dy) * t, j - x * t + dy * d);
  }

  lemma FlatResidue(dx: int, dy: int, g: int, x: int, y: int, t: int, d: int, n: int, j: int)
    requires g == dx * x + dy * y && -(y * t) == dx * d + n
    ensures dx * j - dy * n == g * t + dx * (j - x * t + dy * d)
  {
    assert g * t == dx * (x * t) + dy * (y * t);
    assert dy * n == dy * (-(y * t) - dx * d) == -(dy * (y * t)) - dx * (dy * d);
    assert dx * (j - x * t + dy * d) == dx * j - dx * (x * t) + dx * (dy * d);
  }

  lemma FlatExtremes(dx: nat, dy: nat)
    requires 0 < dx < 0x8000_0000 && dy <= dx && IntSafe(dx, dy)
    ensures SafeDistances(dx, dy)
  {
    var g := Gcd(dx, dy);
    var p, q, x, y := GcdCombines(dx, dy);
    HalfMultipleIs(g, 0, dx);
    HalfMultipleIs(g, 0, dx - 1);
    var n := FlatAttains(dx, dy, dx / (2 * g));
    HalfOpen(dx, dy, n);
    assert RoundSafe(dx, dy, StateAt(dx, dy, n));
    var t := (dx - 1) / (2 * g);
    Negative(g, t);
    var n' := FlatAttains(dx, dy, -t);
    HalfOpen(dx, dy, n');
    assert RoundSafe(dx, dy, StateAt(dx, dy, n'));
  }

  /** On a steep line as well. */
  lemma SteepAttains(dx: nat, dy: nat, t: int) returns (n: nat)
    requires dx < dy && 0 <= 2 * (Gcd(dx, dy) * t) + dy < 2 * dy
    ensures n < dy && StateAt(dx, dy, n).e == Gcd(dx, dy) * t
  {
    var p, q, x, y := GcdCombines(dx, dy);
    n := x * t % dy;
    var d := x * t / dy;
    assert x * t == dy * d + n;
    StateOk(dx, dy, n);
    HalfOpen(dx, dy, n);
    var i := StateAt(dx, dy, n).i;
    TimesIsProduct(dx, n);
    TimesIsProduct(dy, i);
    SteepResidue(dx, dy, Gcd(dx, dy), x, y, t, d, n, i);
    SameResidue(dy, StateAt(dx, dy, n).e, Gcd(dx, dy) * t, -(y * t) - dx * d - i);
  }

  lemma SteepResidue(dx: int, dy: int, g: int, x: int, y: int, t: int, d: int, n: int, i: int)
    requires g == dx * x + dy * y && x * t == dy * d + n
    ensures dx * n - dy * i == g * t + dy * (-(y * t) - dx * d - i)
  {
    assert g * t == dx * (x * t) + dy * (y * t);
    assert dx * n == dx * (x * t - dy * d) == dx * (x * t) - dy * (dx * d);
    assert dy * (-(y * t) - dx * d - i) == -(dy * (y * t)) - dy * (dx * d) - dy * i;
  }

  lemma SteepExtremes(dx: nat, dy: nat)
    requires dx < dy < 0x8000_0000 && IntSafe(dx, dy)
    ensures SafeDistances(dx, dy)
  {
    LowestError(dx, dy);
    if dx > 0 {
      LowestStep(dx, dy);
    }
  }

  lemma LowestError(dx: nat, dy: nat)
    requires dx < dy < 0x8000_0000 && IntSafe(dx, dy)
    ensures HalfMultiple(Gcd(dx, dy), dy) + dy - dx <= 0x4000_0000
  {
    var g := Gcd(dx, dy);
    var p, q, x, y := GcdCombines(dx, dy);
    var t := dy / (2 * g);
    HalfMultipleIs(g, 0, dy);
    Negative(g, t);
    var n := SteepAttains(dx, dy, -t);
    assert RoundSafe(dx, dy, StateAt(dx, dy, n));
  }

  lemma LowestStep(dx: nat, dy: nat)
    requires 0 < dx < dy < 0x8000_0000 && IntSafe(dx, dy)
    ensures HalfMultiple(Gcd(dx, dy), dy) + dy <= 0x8000_0000
  {
    var n := StepAttained(dx, dy);
    assert RoundSafe(dx, dy, StateAt(dx, dy, n));
  }

  lemma StepAttained(dx: nat, dy: nat) returns (n: nat)
    requires 0 < dx < dy
    ensures n < dy && StateAt(dx, dy, n).e == dy - dx - HalfMultiple(Gcd(dx, dy), dy)
    ensures StepsX(dx, dy, StateAt(dx, dy, n))
  {
    var p, q, x, y := GcdCombines(dx, dy);
    var t := StepTarget(Gcd(dx, dy), p, q, dx, dy);
    n := SteepAttains(dx, dy, t);
  }

  /** The smallest error at which the other axis steps is in the range. */
  lemma StepTarget(g: nat, p: int, q: int, dx: nat, dy: nat) returns (t: int)
    requires g > 0 && dx == g * p && dy == g * q && 0 < dx < dy
    ensures g * t == dy - dx - HalfMultiple(g, dy) && 2 * HalfMultiple(g, dy) <= dy
    ensures 0 <= 2 * (g * t) + dy < 2 * dy
  {
    var h := dy / (2 * g);
    t := q - p - h;
    Shift(g, h, p, q);
    SteepStep(g, p, q, h, dx, dy);
    HalfMultipleIs(g, h, dy);
  }

  lemma SteepStep(g: nat, p: int, q: int, t: int, dx: nat, dy: nat)
    requires g > 0 && dx == g * p && dy == g * q && 0 < dx < dy && t == dy / (2 * g)
    ensures 0 <= 2 * (dy - dx - g * t) + dy < 2 * dy
  {
    HalfMultipleIs(g, t + 1, dy);
    HalfMultipleIs(g, t, dy);
    assert g * (t + 1) == g * t + g;
    MultiplesDiffer(g, p, q);
    MultiplesDiffer(g, 0, p);
  }

  lemma MultiplesDiffer(g: nat, p: int, q: int)
    requires g * p < g * q
    ensures g * p + g <= g * q
  {
    if p >= q {
      MultiplesInOrder(g, q, p);
    }
    MultiplesInOrder(g, p + 1, q);
    assert g * (p + 1) == g * p + g;
  }

  /** The largest safe lines: flat and vertical ones stop at half of the ints, as their doubled
      error is their doubled length; diagonal ones may take all of them; and a third of the ints
      is always safe. */
  lemma SafeLengths(d: nat, dx: nat, dy: nat)
    requires d < 0x8000_0000
    ensures SafeDistances(d, 0) <==> d < 0x4000_0000
    ensures SafeDistances(0, d) <==> d <= 0x4000_0000
    ensures SafeDistances(d, d)
    ensures dx < 0x2AAA_AAAB && dy < 0x2AAA_AAAB ==> SafeDistances(dx, dy)
  {
    if d > 0 {
      OneMultiple(d, d);
      OneMultiple(d, d - 1);
      assert Gcd(d, d) == d && Gcd(0, d) == d && Gcd(d, 0) == d;
    }
    if dx > 0 || dy > 0 {
      var p, q, x, y := GcdCombines(dx, dy);
      HalfMultipleIs(Gcd(dx, dy), 0, dx);
      HalfMultipleIs(Gcd(dx, dy), 0, dx - 1);
      HalfMultipleIs(Gcd(dx, dy), 0, dy);
    }
  }

  lemma OneMultiple(d: nat, x: int)
    requires d > 0 && 0 <= x < 2 * d
    ensures HalfMultiple(d, x) == 0
  {
    var q := x / (2 * d);
    assert x == 2 * d * q + x % (2 * d);
    if q > 0 {
      MultiplesInOrder(2 * d, 1, q);
    } else if q < 0 {
      MultiplesInOrder(2 * d, q, -1);
    }
  }

  /** Both end points are non-negative ints, and their distances are safe. */
  ghost predicate Drawable(from: Point, to: Point) {
    && 0 <= from.0 < 0x8000_0000 && 0 <= from.1 < 0x8000_0000 && 0 <= to.0 < 0x8000_0000 && 0 <= to.1 < 0x8000_0000
    && SafeDistances(Abs(to.0 - from.0), Abs(to.1 - from.1))
  }

  /** The pen stays in the box of the end points. */
  lemma InBox(from: int, to: int, i: nat, i': nat, sx: int)
    requires 0 <= from < 0x8000_0000 && 0 <= to < 0x8000_0000 && i' <= Abs(to - from)
    requires sx == (if from < to then 1 else -1) && i' == i + 1
    ensures 0 <= Moved(from, to, i) + sx < 0x8000_0000
  {
  }

  lemma RoundFacts(from: Point, to: Point, n: nat, s: State, sx: int, sy: int)
    requires Drawable(from, to) && n < Length(from, to) && s == StateAt(Abs(to.0 - from.0), Abs(to.1 - from.1), n)
    requires sx == (if from.0 < to.0 then 1 else -1) && sy == (if from.1 < to.1 then 1 else -1)
    ensures RoundSafe(Abs(to.0 - from.0), Abs(to.1 - from.1), s)
    ensures StepsX(Abs(to.0 - from.0), Abs(to.1 - from.1), s) ==> 0 <= Moved(from.0, to.0, s.i) + sx < 0x8000_0000
    ensures StepsY(Abs(to.0 - from.0), Abs(to.1 - from.1), s) ==> 0 <= Moved(from.1, to.1, s.j) + sy < 0x8000_0000
  {
    IntSafeIff(Abs(to.0 - from.0), Abs(to.1 - from.1));
    StateFacts(Abs(to.0 - from.0), Abs(to.1 - from.1), n, s);
    NextInBox(Abs(to.0 - from.0), Abs(to.1 - from.1), n, s);
    if StepsX(Abs(to.0 - from.0), Abs(to.1 - from.1), s) {
      InBox(from.0, to.0, s.i, s.i + 1, sx);
    }
    if StepsY(Abs(to.0 - from.0), Abs(to.1 - from.1), s) {
      InBox(from.1, to.1, s.j, s.j + 1, sy);
    }
  }

  lemma NextInBox(dx: nat, dy: nat, n: nat, s: State)
    requires n < Max(dx, dy) && s == StateAt(dx, dy, n)
    ensures StepsX(dx, dy, s) ==> s.i + 1 <= dx
    ensures StepsY(dx, dy, s) ==> s.j + 1 <= dy
  {
    StateFacts(dx, dy, n + 1, Next(dx, dy, s));
  }

  /** One round of the loop. */
  method StepPen(dx: int32, dy: int32, sx: int32, sy: int32, x: int32, y: int32, err: int32, ghost s: State)
    returns (x': int32, y': int32, err': int32)
    requires 0 <= dx && dy <= 0 && -1 <= sx <= 1 && -1 <= sy <= 1
    requires StepsX(dx as int, -(dy as int), s) ==> 0 <= x as int + sx as int < 0x8000_0000
    requires StepsY(dx as int, -(dy as int), s) ==> 0 <= y as int + sy as int < 0x8000_0000
    requires err as int == s.e + dx as int + dy as int && RoundSafe(dx as int, -(dy as int), s)
    ensures var t := Next(dx as int, -(dy as int), s);
            && x' as int == x as int + sx as int * (t.i - s.i) && y' as int == y as int + sy as int * (t.j - s.j)
            && err' as int == t.e + dx as int + dy as int
  {
    x', y', err' := x, y, err;
    var e2 := 2 * err;
    if e2 >= dy {
      err' := err' + dy;
      x' := x' + sx;
    }
    if e2 <= dx {
      err' := err' + dx;
      y' := y' + sy;
    }
  }

  lemma MovedStep(from: int, to: int, i: nat, i': nat, sx: int)
    requires sx == (if from < to then 1 else -1) && (i' == i || i' == i + 1)
    ensures Moved(from, to, i) + sx * (i' - i) == Moved(from, to, i')
  {
  }

  /** draw_line, returning the points it plots. */
  method DrawLine(x0: int32, y0: int32, x1: int32, y1: int32) returns (points: seq<Point>)
    requires Drawable((x0 as int, y0 as int), (x1 as int, y1 as int))
    ensures var from, to := (x0 as int, y0 as int), (x1 as int, y1 as int);
            && |points| == Length(from, to) + 1 && points[0] == from && points[Length(from, to)] == to
            && (forall m :: 0 <= m < |points| ==> OnLine(points[m], from, to, m))
            && points == Trace(from, to, Length(from, to))
  {
    var dx: int32 := if x1 >= x0 then x1 - x0 else x0 - x1;
    var sx: int32 := if x0 < x1 then 1 else -1;
    var dy: int32 := if y1 >= y0 then y0 - y1 else y1 - y0;
    var sy: int32 := if y0 < y1 then 1 else -1;
    ghost var from, to := (x0 as int, y0 as int), (x1 as int, y1 as int);
    IntSafeIff(Abs(to.0 - from.0), Abs(to.1 - from.1));
    points := Loop(x0, y0, x1, y1, dx, dy, sx, sy, dx + dy, from, to);
    WholeTrace(from, to, points);
  }

  /** The loop of draw_line. */
  method Loop(x0: int32, y0: int32, x1: int32, y1: int32, dx: int32, dy: int32, sx: int32, sy: int32, err0: int32,
              ghost from: Point, ghost to: Point) returns (points: seq<Point>)
    requires Drawable((x0 as int, y0 as int), (x1 as int, y1 as int))
    requires from == (x0 as int, y0 as int) && to == (x1 as int, y1 as int)
    requires dx as int == Abs(to.0 - from.0) && -(dy as int) == Abs(to.1 - from.1) &&
             err0 as int == dx as int + dy as int
    requires sx == (if x0 < x1 then 1 else -1) && sy == (if y0 < y1 then 1 else -1)
    ensures points == Trace(from, to, Length(from, to))
  {
    ghost var n: nat, s := 0, State(0, 0, 0);
    var x, y, err := x0, y0, err0;
    points := [(x as int, y as int)];
    DrawingStart(from, to, points, err as int);
    while !(x == x1 && y == y1)
      invariant Drawing(from, to, n, s, points, x as int, y as int, err as int)
      decreases Length(from, to) - n
    {
      DrawingEnd(from, to, n, s, points, x as int, y as int, err as int);
      x, y, err := Round(dx, dy, sx, sy, x, y, err, from, to, n, s, points);
      points := points + [(x as int, y as int)];
      n, s := n + 1, Next(Abs(to.0 - from.0), Abs(to.1 - from.1), s);
    }
    DrawingEnd(from, to, n, s, points, x as int, y as int, err as int);
  }

  /** The loop after n rounds. */
  ghost predicate Drawing(from: Point, to: Point, n: nat, s: State, points: seq<Point>, x: int, y: int, err: int) {
    && n <= Length(from, to) && s == StateAt(Abs(to.0 - from.0), Abs(to.1 - from.1), n)
    && points == Trace(from, to, n)
    && Renders(from, to, Abs(to.0 - from.0), Abs(to.1 - from.1), s, x, y, err)
  }

  lemma DrawingStart(from: Point, to: Point, points: seq<Point>, err: int)
    requires points == [from] && err == Abs(to.0 - from.0) - Abs(to.1 - from.1)
    ensures Drawing(from, to, 0, State(0, 0, 0), points, from.0, from.1, err)
  {
  }

  lemma DrawingStep(from: Point, to: Point, n: nat, s: State, points: seq<Point>, x: int, y: int,
                    err: int)
    requires n < Length(from, to) && s == StateAt(Abs(to.0 - from.0), Abs(to.1 - from.1), n)
    requires points == Trace(from, to, n)
    requires Renders(from, to, Abs(to.0 - from.0), Abs(to.1 - from.1),
                     Next(Abs(to.0 - from.0), Abs(to.1 - from.1), s), x, y, err)
    ensures Drawing(from, to, n + 1, Next(Abs(to.0 - from.0), Abs(to.1 - from.1), s), points + [(x, y)], x, y, err)
  {
    TraceStep(from, to, n, Next(Abs(to.0 - from.0), Abs(to.1 - from.1), s));
  }

  lemma DrawingEnd(from: Point, to: Point, n: nat, s: State, points: seq<Point>, x: int, y: int,
                   err: int)
    requires Drawing(from, to, n, s, points, x, y, err)
    ensures (x, y) == to ==> points == Trace(from, to, Length(from, to))
    ensures (x, y) != to ==> n < Length(from, to)
  {
    EndIff(from, to, n, s);
  }

  /** The end point is reached at the last step, and not before. */
  lemma EndIff(from: Point, to: Point, n: nat, s: State)
    requires n <= Max(Abs(to.0 - from.0), Abs(to.1 - from.1)) && s == StateAt(Abs(to.0 - from.0), Abs(to.1 - from.1), n)
    ensures PointOf(from, to, s) == to <==> n == Max(Abs(to.0 - from.0), Abs(to.1 - from.1))
  {
    StateFacts(Abs(to.0 - from.0), Abs(to.1 - from.1), n, s);
  }

  /** One round of the loop, on a line that has not ended. */
  method Draw(dx: int32, dy: int32, sx: int32, sy: int32, x: int32, y: int32, err: int32,
              ghost from: Point, ghost to: Point, ghost n: nat, ghost s: State)
    returns (x': int32, y': int32, err': int32)
    requires Drawable(from, to)
    requires dx as int == Abs(to.0 - from.0) && -(dy as int) == Abs(to.1 - from.1)
    requires sx == (if from.0 < to.0 then 1 else -1) && sy == (if from.1 < to.1 then 1 else -1)
    requires n < Max(dx as int, -(dy as int)) && s == StateAt(dx as int, -(dy as int), n)
    requires Renders(from, to, dx as int, -(dy as int), s, x as int, y as int, err as int)
    ensures Renders(from, to, dx as int, -(dy as int), Next(dx as int, -(dy as int), s), x' as int, y' as int,
                    err' as int)
  {
    RoundFacts(from, to, n, s, sx as int, sy as int);
    x', y', err' := StepPen(dx, dy, sx, sy, x, y, err, s);
    RendersNext(from, to, dx as int, -(dy as int), s, sx as int, sy as int, x as int, y as int, x' as int, y' as int,
                err' as int);
  }

  lemma RendersNext(from: Point, to: Point, dx: nat, dy: nat, s: State, sx: int, sy: int, x: int, y: int, x': int,
                    y': int, err': int)
    requires (x, y) == PointOf(from, to, s)
    requires sx == (if from.0 < to.0 then 1 else -1) && sy == (if from.1 < to.1 then 1 else -1)
    requires x' == x + sx * (Next(dx, dy, s).i - s.i) && y' == y + sy * (Next(dx, dy, s).j - s.j)
    requires err' == Next(dx, dy, s).e + dx - dy
    ensures Renders(from, to, dx, dy, Next(dx, dy, s), x', y', err')
  {
    MovedStep(from.0, to.0, s.i, Next(dx, dy, s).i, sx);
    MovedStep(from.1, to.1, s.j, Next(dx, dy, s).j, sy);
  }

  method Round(dx: int32, dy: int32, sx: int32, sy: int32, x: int32, y: int32, err: int32,
               ghost from: Point, ghost to: Point, ghost n: nat, ghost s: State, ghost points: seq<Point>)
    returns (x': int32, y': int32, err': int32)
    requires Drawable(from, to)
    requires dx as int == Abs(to.0 - from.0) && -(dy as int) == Abs(to.1 - from.1)
    requires sx == (if from.0 < to.0 then 1 else -1) && sy == (if from.1 < to.1 then 1 else -1)
    requires n < Length(from, to) && Drawing(from, to, n, s, points, x as int, y as int, err as int)
    ensures Drawing(from, to, n + 1, Next(Abs(to.0 - from.0), Abs(to.1 - from.1), s), points + [(x' as int, y' as int)],
                    x' as int, y' as int, err' as int)
  {
    x', y', err' := Draw(dx, dy, sx, sy, x, y, err, from, to, n, s);
    DrawingStep(from, to, n, s, points, x' as int, y' as int, err' as int);
  }
}
