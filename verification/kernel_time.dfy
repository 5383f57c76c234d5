/** The three time sources: their counters converted to nanoseconds. */
module TimeSources {
  import opened MemoryLayout
  import opened WideMath

  datatype Source = Tsc(hz: nat) | Hpet(hz: nat) | Pit

  predicate WellFormed(s: Source) {
    s.Pit? || s.hz < ADDRESS_LIMIT
  }

  /** get_ns of each source on a counter value; a source that is not ready reads 0 ticks. */
  function GetNs(s: Source, ticks: nat): (r: nat)
    requires WellFormed(s) && ticks < ADDRESS_LIMIT
    ensures r < ADDRESS_LIMIT
  {
    match s
    case Tsc(hz) => if hz == 0 then 0 else MulDiv(ticks, 1000000000, hz)
    case Hpet(hz) => if hz == 0 then 0 else Wrap(ticks * 1000000000) / hz
    case Pit => Wrap(ticks * 1000000000) / 1000
  }

  /** The time the counter stands for. */
  function TrueNs(s: Source, ticks: nat): nat {
    match s
    case Tsc(hz) => if hz == 0 then 0 else ticks * 1000000000 / hz
    case Hpet(hz) => if hz == 0 then 0 else ticks * 1000000000 / hz
    case Pit => ticks * 1000000000 / 1000
  }

  /** How far each counter can be converted: the TSC until the result leaves 64 bits, the
      others only until the product does. */
  predicate Convertible(s: Source, ticks: nat) {
    match s
    case Tsc(hz) => hz == 0 || ticks * 1000000000 / hz < ADDRESS_LIMIT
    case Hpet(hz) => hz == 0 || ticks * 1000000000 < ADDRESS_LIMIT
    case Pit => ticks * 1000000000 < ADDRESS_LIMIT
  }

  lemma WrapBefore(x: nat, hz: nat)
    requires 0 < hz < ADDRESS_LIMIT
    ensures Wrap(x) / hz == x / hz <==> x < ADDRESS_LIMIT
  {
    if x >= ADDRESS_LIMIT {
      var w := Wrap(x);
      DivMonotone(w + hz, x, hz);
      DivMod(w, hz);
      DivIs(w + hz, hz, w / hz + 1);
    }
  }

  /** The conversion is right exactly as long as the counter is convertible. */
  lemma GetNsExactIff(s: Source, ticks: nat)
    requires WellFormed(s) && ticks < ADDRESS_LIMIT
    ensures GetNs(s, ticks) == TrueNs(s, ticks) <==> Convertible(s, ticks)
  {
    match s
    case Tsc(hz) =>
      if hz > 0 {
        MulDivExact(ticks, 1000000000, hz);
      }
    case Hpet(hz) =>
      if hz > 0 {
        WrapBefore(ticks * 1000000000, hz);
      }
    case Pit => WrapBefore(ticks * 1000000000, 1000);
  }

  lemma TrueNsMonotone(s: Source, t: nat, u: nat)
    requires t <= u
    ensures TrueNs(s, t) <= TrueNs(s, u)
    ensures Convertible(s, u) ==> Convertible(s, t)
  {
    if s.Pit? {
      DivMonotone(t * 1000000000, u * 1000000000, 1000);
    } else if s.hz > 0 {
      DivMonotone(t * 1000000000, u * 1000000000, s.hz);
    }
  }

  /** More ticks never read as less time, up to a counter value. */
  ghost predicate MonotoneUpTo(s: Source, last: nat)
    requires WellFormed(s) && last < ADDRESS_LIMIT
  {
    forall t: nat, u: nat :: t <= u <= last ==> GetNs(s, t) <= GetNs(s, u)
  }

  /** An HPET whose reading is not 0 throughout the convertible range. The period register
      counts femtoseconds, so that the frequency is at most 10^15. */
  predicate FrequencyOk(s: Source) {
    s.Hpet? ==> s.hz <= 18446744073000000000
  }

  /** A clock runs backwards as soon as its counter leaves the convertible range: at the
      first tick past it, whatever the frequency. */
  lemma MonotoneIff(s: Source, last: nat)
    requires WellFormed(s) && FrequencyOk(s) && last < ADDRESS_LIMIT
    ensures MonotoneUpTo(s, last) <==> Convertible(s, last)
  {
    if Convertible(s, last) {
      forall t: nat, u: nat | t <= u <= last
        ensures GetNs(s, t) <= GetNs(s, u)
      {
        ConvertibleInOrder(s, t, u, last);
      }
    } else {
      var t := FirstWrap(s, last);
      StepsBack(s, t);
    }
  }

  /** The frequency bound is exact: above it, the first wrap-around goes from 0 to 0. */
  lemma MonotoneIffHoldsIff(s: Source)
    requires WellFormed(s)
    ensures (forall last: nat :: last < ADDRESS_LIMIT ==> (MonotoneUpTo(s, last) <==> Convertible(s, last)))
       <==> FrequencyOk(s)
  {
    if FrequencyOk(s) {
      forall last: nat | last < ADDRESS_LIMIT
        ensures MonotoneUpTo(s, last) <==> Convertible(s, last)
      {
        MonotoneIff(s, last);
      }
    } else {
      forall t: nat | t <= 18446744074
        ensures GetNs(s, t) == 0
      {
        ReadsZero(t * 1000000000, s.hz);
      }
      assert MonotoneUpTo(s, 18446744074) && !Convertible(s, 18446744074);
    }
  }

  lemma ReadsZero(x: nat, hz: nat)
    requires x <= 18446744074000000000 && x % 1000000000 == 0 && 18446744073000000000 < hz < ADDRESS_LIMIT
    ensures Wrap(x) / hz == 0
  {
    assert Wrap(x) < hz;
    DivIs(Wrap(x), hz, 0);
  }

  lemma ConvertibleInOrder(s: Source, t: nat, u: nat, last: nat)
    requires WellFormed(s) && t <= u <= last < ADDRESS_LIMIT && Convertible(s, last)
    ensures GetNs(s, t) <= GetNs(s, u)
  {
    TrueNsMonotone(s, u, last);
    TrueNsMonotone(s, t, u);
    GetNsExactIff(s, t);
    GetNsExactIff(s, u);
  }

  /** The last tick in range. */
  lemma {:induction false} FirstWrap(s: Source, last: nat) returns (t: nat)
    requires !Convertible(s, last)
    ensures t < last && Convertible(s, t) && !Convertible(s, t + 1)
  {
    if last == 0 {
      TrueNsAtZero(s);
      assert false;
    } else if Convertible(s, last - 1) {
      t := last - 1;
    } else {
      t := FirstWrap(s, last - 1);
    }
  }

  lemma TrueNsAtZero(s: Source)
    ensures Convertible(s, 0)
  {
    if s.Tsc? && s.hz > 0 {
      DivIs(0, s.hz, 0);
    }
  }

  /** The tick after the last one in range reads as less time. */
  lemma StepsBack(s: Source, t: nat)
    requires WellFormed(s) && FrequencyOk(s) && t + 1 < ADDRESS_LIMIT && Convertible(s, t) && !Convertible(s, t + 1)
    ensures GetNs(s, t) > GetNs(s, t + 1)
  {
    match s
    case Tsc(hz) => TscStepsBack(hz, t);
    case Hpet(hz) =>
      assert t == 18446744073;
      QuotientDrops(18446744073000000000, 290448384, hz);
    case Pit =>
      assert t == 18446744073;
  }

  lemma QuotientDrops(x: nat, y: nat, hz: nat)
    requires 0 < hz <= x && y <= x && (hz <= x - y || y < hz)
    ensures x / hz > y / hz
  {
    if hz <= x - y {
      DivMod(y, hz);
      DivIs(y + hz, hz, y / hz + 1);
      DivMonotone(y + hz, x, hz);
    } else {
      DivIs(y, hz, 0);
      DivIs(hz, hz, 1);
      DivMonotone(hz, x, hz);
    }
  }

  lemma TscStepsBack(hz: nat, t: nat)
    requires 0 < hz < ADDRESS_LIMIT && t + 1 < ADDRESS_LIMIT
    requires t * 1000000000 / hz < ADDRESS_LIMIT <= (t + 1) * 1000000000 / hz
    ensures GetNs(Tsc(hz), t) > GetNs(Tsc(hz), t + 1)
  {
    var x, y := t * 1000000000 / hz, (t + 1) * 1000000000 / hz;
    MulDivExact(t, 1000000000, hz);
    MulDivExact(t + 1, 1000000000, hz);
    OneTickMore(t, hz);
    WrapOnce(y);
  }

  lemma WrapOnce(y: nat)
    requires ADDRESS_LIMIT <= y < 2 * ADDRESS_LIMIT
    ensures Wrap(y) == y - ADDRESS_LIMIT
  {
  }

  /** A tick is at most a second. */
  lemma OneTickMore(t: nat, hz: nat)
    requires 0 < hz
    ensures (t + 1) * 1000000000 / hz <= t * 1000000000 / hz + 1000000000
  {
    var q := t * 1000000000 / hz;
    DivMod(t * 1000000000, hz);
    Distribute(q, 1000000000, hz);
    QuotientAtMost((t + 1) * 1000000000, hz, q + 1000000000);
  }

  lemma QuotientAtMost(x: nat, hz: nat, q: nat)
    requires 0 < hz && x < q * hz + hz
    ensures x / hz <= q
  {
    OneMore(q, hz);
    QuotientBelow(x, hz, q + 1);
  }

  /** One tick of a 10 MHz HPET, half an hour after it started, loses that half hour. */
  lemma HpetClockJumpsBack()
    ensures GetNs(Hpet(10000000), 18446744073) == 1844674407300
    ensures GetNs(Hpet(10000000), 18446744074) == 29
  {
  }
}

/** KernelTime: monotonic time carried over from one source to the next. */
module Timekeeping {
  import opened MemoryLayout
  import opened WideMath
  import opened TimeSources

  datatype Timer = NoTimer | Timer(source: Source)

  /** The counter values seen of one source: at its start and latest. */
  datatype Span = Span(source: Source, first: nat, last: nat)

  ghost predicate SpanOk(s: Span) {
    WellFormed(s.source) && s.first <= s.last < ADDRESS_LIMIT
  }

  ghost predicate SpansOk(spans: seq<Span>) {
    forall k :: 0 <= k < |spans| ==> SpanOk(spans[k])
  }

  /** The nanoseconds that the readings add up to. */
  ghost function Counted(spans: seq<Span>): int
    requires SpansOk(spans)
  {
    if spans == [] then 0
    else
      var s := spans[|spans| - 1];
      Counted(spans[..|spans| - 1]) + GetNs(s.source, s.last) - GetNs(s.source, s.first)
  }

  /** The nanoseconds that passed on the counters. */
  ghost function Elapsed(spans: seq<Span>): int {
    if spans == [] then 0
    else
      var s := spans[|spans| - 1];
      Elapsed(spans[..|spans| - 1]) + TrueNs(s.source, s.last) - TrueNs(s.source, s.first)
  }

  /** Every counter stayed in its convertible range, and the total within 64 bits. */
  ghost predicate InRange(spans: seq<Span>) {
    && (forall k :: 0 <= k < |spans| ==> Convertible(spans[k].source, spans[k].last))
    && Elapsed(spans) < ADDRESS_LIMIT
  }

  /** The latest source read again. */
  ghost function Extend(spans: seq<Span>, ticks: nat): seq<Span> {
    if spans == [] then []
    else spans[..|spans| - 1] + [spans[|spans| - 1].(last := ticks)]
  }

  ghost predicate Reads(spans: seq<Span>, ticks: nat) {
    spans != [] ==> spans[|spans| - 1].last <= ticks < ADDRESS_LIMIT
  }

  ghost predicate Sorted(results: seq<nat>) {
    forall i, j :: 0 <= i < j < |results| ==> results[i] <= results[j]
  }

  /** As long as the counters are in range, the readings never went back. */
  ghost predicate Monotone(spans: seq<Span>, results: seq<nat>) {
    InRange(spans) ==>
      && Sorted(results)
      && (forall k :: 0 <= k < |results| ==> results[k] <= Elapsed(spans))
  }

  lemma {:induction false} CountedIsElapsed(spans: seq<Span>)
    requires SpansOk(spans) && (forall k :: 0 <= k < |spans| ==> Convertible(spans[k].source, spans[k].last))
    ensures Counted(spans) == Elapsed(spans) >= 0
  {
    if spans != [] {
      var s := spans[|spans| - 1];
      CountedIsElapsed(spans[..|spans| - 1]);
      TrueNsMonotone(s.source, s.first, s.last);
      GetNsExactIff(s.source, s.first);
      GetNsExactIff(s.source, s.last);
    }
  }

  /** Reading on keeps the spans well formed, and time does not go back. */
  lemma ExtendGrows(spans: seq<Span>, ticks: nat)
    requires SpansOk(spans) && Reads(spans, ticks)
    ensures SpansOk(Extend(spans, ticks))
    ensures Elapsed(spans) <= Elapsed(Extend(spans, ticks))
    ensures InRange(Extend(spans, ticks)) ==> InRange(spans)
    ensures spans != [] ==>
              var s := spans[|spans| - 1];
              Counted(Extend(spans, ticks)) == Counted(spans[..|spans| - 1]) + GetNs(s.source,
                  ticks) - GetNs(s.source, s.first)
  {
    if spans != [] {
      var n := |spans| - 1;
      var s, e := spans[n], Extend(spans, ticks);
      assert e[..n] == spans[..n] && e[n] == s.(last := ticks);
      TrueNsMonotone(s.source, s.last, ticks);
      assert forall k :: 0 <= k < n ==> e[k] == spans[k];
    }
  }

  /** A read in range tells the elapsed time, and is not before any earlier read. */
  lemma ReadKeepsMonotone(spans: seq<Span>, ticks: nat, results: seq<nat>, ns: nat)
    requires SpansOk(spans) && Reads(spans, ticks) && SpansOk(Extend(spans, ticks))
    requires Monotone(spans, results) && ns == Wrap(Counted(Extend(spans, ticks)))
    ensures Monotone(Extend(spans, ticks), results + [ns])
    ensures InRange(Extend(spans, ticks)) ==> ns == Elapsed(Extend(spans, ticks))
  {
    ExtendGrows(spans, ticks);
    var e := Extend(spans, ticks);
    if InRange(e) {
      InRangeRead(e);
      AppendSorted(results, Elapsed(spans), ns);
    }
  }

  lemma InRangeRead(spans: seq<Span>)
    requires SpansOk(spans) && InRange(spans)
    ensures Wrap(Counted(spans)) == Elapsed(spans)
  {
    CountedIsElapsed(spans);
    WrapSmall(Elapsed(spans));
  }

  lemma WrapSmall(x: int)
    requires 0 <= x < ADDRESS_LIMIT
    ensures Wrap(x) == x
  {
  }

  lemma AppendSorted(results: seq<nat>, bound: int, ns: nat)
    requires Sorted(results) && (forall k :: 0 <= k < |results| ==> results[k] <= bound) && bound <= ns
    ensures Sorted(results + [ns]) && forall k :: 0 <= k < |results + [ns]| ==> (results + [ns])[k] <= ns
  {
  }

  /** A source that starts adds nothing yet. */
  lemma StartAddsNothing(spans: seq<Span>, source: Source, ticks: nat, results: seq<nat>)
    requires SpansOk(spans) && WellFormed(source) && ticks < ADDRESS_LIMIT && Monotone(spans, results)
    ensures SpansOk(spans + [Span(source, ticks, ticks)])
    ensures Counted(spans + [Span(source, ticks, ticks)]) == Counted(spans)
    ensures Monotone(spans + [Span(source, ticks, ticks)], results)
  {
    var e := spans + [Span(source, ticks, ticks)];
    assert e[..|e| - 1] == spans;
    assert forall k :: 0 <= k < |spans| ==> e[k] == spans[k];
  }

  lemma ExtendKeepsMonotone(spans: seq<Span>, ticks: nat, results: seq<nat>)
    requires SpansOk(spans) && Reads(spans, ticks) && Monotone(spans, results)
    ensures Monotone(Extend(spans, ticks), results)
  {
    ExtendGrows(spans, ticks);
  }

  /** Wrap-around in the parts does not show in the sum. */
  lemma CarryOver(counted: int, now: int, start: int)
    ensures Wrap(Wrap(counted) + Wrap(now - start)) == Wrap(counted + now - start)
  {
    WrapAdd(now - start, Wrap(counted));
    WrapAdd(counted, now - start);
  }

  /** The carried-over total with what the current source counted, in 64-bit arithmetic. */
  function Combined(accumulated: nat, bootNs: nat, currentNs: nat): nat {
    Wrap(accumulated + Wrap(currentNs - bootNs))
  }

  /** What the next reading of the current source makes of the carried-over total. */
  lemma CarriedTotal(spans: seq<Span>, ticks: nat, accumulated: nat, bootNs: nat)
    requires SpansOk(spans) && Reads(spans, ticks) && spans != [] && SpansOk(Extend(spans, ticks))
    requires accumulated == Wrap(Counted(spans[..|spans| - 1]))
    requires bootNs == GetNs(spans[|spans| - 1].source, spans[|spans| - 1].first)
    ensures Combined(accumulated, bootNs, GetNs(spans[|spans| - 1].source, ticks))
         == Wrap(Counted(Extend(spans, ticks)))
  {
    ExtendGrows(spans, ticks);
    CarryOver(Counted(spans[..|spans| - 1]), GetNs(spans[|spans| - 1].source, ticks), bootNs);
  }

  /** get_monotonic_ns from the fields and the counter. */
  function Reading(s: Source, accumulated: nat, bootNs: nat, ticks: nat): nat
    requires WellFormed(s) && ticks < ADDRESS_LIMIT
  {
    Combined(accumulated, bootNs, GetNs(s, ticks))
  }

  lemma CombinedWraps(accumulated: nat, bootNs: nat, currentNs: nat)
    requires bootNs < ADDRESS_LIMIT
    ensures var total := accumulated + currentNs - bootNs;
            && Combined(accumulated, bootNs, currentNs) == Wrap(total)
            && (0 <= total < ADDRESS_LIMIT ==> Combined(accumulated, bootNs, currentNs) == total)
            && (total < 0 ==> Combined(accumulated, bootNs, currentNs) == ADDRESS_LIMIT + total)
  {
    WrapAdd(currentNs - bootNs, accumulated);
  }

  /** Totals in order, or falling below the baseline, read in order. */
  lemma CombinedInOrder(accumulated: nat, bootNs: nat, early: nat, late: nat)
    requires bootNs < ADDRESS_LIMIT && accumulated + early - bootNs < ADDRESS_LIMIT
    requires early < ADDRESS_LIMIT
    requires if accumulated + late < bootNs then early <= late || bootNs <= accumulated + early
             else bootNs <= accumulated + early && early <= late && accumulated + late - bootNs < ADDRESS_LIMIT
    ensures Combined(accumulated, bootNs, early) <= Combined(accumulated, bootNs, late)
  {
    CombinedWraps(accumulated, bootNs, early);
    CombinedWraps(accumulated, bootNs, late);
  }

  /** Smaller totals read as less, and so does one at the baseline after one below it. */
  lemma CombinedGoesBack(accumulated: nat, bootNs: nat, early: nat, late: nat)
    requires bootNs < ADDRESS_LIMIT && late < ADDRESS_LIMIT
    requires bootNs <= accumulated + late && accumulated + late - bootNs < ADDRESS_LIMIT
    requires if accumulated + early < bootNs then true else late < early && accumulated + early - bootNs < ADDRESS_LIMIT
    ensures Combined(accumulated, bootNs, late) < Combined(accumulated, bootNs, early)
  {
    CombinedWraps(accumulated, bootNs, early);
    CombinedWraps(accumulated, bootNs, late);
  }

  /** The readings do not go back while the counter runs from the baseline to a value. */
  ghost predicate ReadingsSorted(s: Source, accumulated: nat, first: nat, last: nat)
    requires WellFormed(s) && first <= last < ADDRESS_LIMIT
  {
    forall t: nat, u: nat :: first <= t <= u <= last ==>
      Reading(s, accumulated, GetNs(s, first), t) <= Reading(s, accumulated, GetNs(s, first), u)
  }

  /** On the TSC, wherever it started, get_monotonic_ns does not go back exactly as long as
      the time that passed, with what is carried over, stays within 64 bits. */
  lemma TscReadingsSortedIff(hz: nat, accumulated: nat, first: nat, last: nat)
    requires hz < ADDRESS_LIMIT && accumulated < ADDRESS_LIMIT && first <= last < ADDRESS_LIMIT
    ensures ReadingsSorted(Tsc(hz), accumulated, first, last)
       <==> accumulated + TrueNs(Tsc(hz), last) - TrueNs(Tsc(hz), first) < ADDRESS_LIMIT
  {
    if accumulated + TrueNs(Tsc(hz), last) - TrueNs(Tsc(hz), first) < ADDRESS_LIMIT {
      forall t: nat, u: nat | first <= t <= u <= last
        ensures Reading(Tsc(hz), accumulated, GetNs(Tsc(hz), first), t)
             <= Reading(Tsc(hz), accumulated, GetNs(Tsc(hz), first), u)
      {
        TscInOrder(hz, accumulated, first, t, u, last);
      }
    } else {
      var t := LastFitting(hz, accumulated, first, last);
      TscGoesBack(hz, accumulated, first, t);
    }
  }

  lemma TscInOrder(hz: nat, accumulated: nat, first: nat, t: nat, u: nat, last: nat)
    requires hz < ADDRESS_LIMIT && accumulated < ADDRESS_LIMIT && first <= t <= u <= last < ADDRESS_LIMIT
    requires accumulated + TrueNs(Tsc(hz), last) - TrueNs(Tsc(hz), first) < ADDRESS_LIMIT
    ensures Reading(Tsc(hz), accumulated, GetNs(Tsc(hz), first), t)
         <= Reading(Tsc(hz), accumulated, GetNs(Tsc(hz), first), u)
  {
    TrueNsMonotone(Tsc(hz), first, t);
    TrueNsMonotone(Tsc(hz), t, u);
    TrueNsMonotone(Tsc(hz), u, last);
    TscReading(hz, accumulated, first, t);
    TscReading(hz, accumulated, first, u);
    WrapInOrder(accumulated + TrueNs(Tsc(hz), t) - TrueNs(Tsc(hz), first),
                accumulated + TrueNs(Tsc(hz), u) - TrueNs(Tsc(hz), first));
  }

  lemma WrapInOrder(x: int, y: int)
    requires 0 <= x <= y < ADDRESS_LIMIT
    ensures Wrap(x) <= Wrap(y)
  {
  }

  lemma TscGoesBack(hz: nat, accumulated: nat, first: nat, t: nat)
    requires hz < ADDRESS_LIMIT && accumulated < ADDRESS_LIMIT && first <= t && t + 1 < ADDRESS_LIMIT
    requires accumulated + TrueNs(Tsc(hz), t) - TrueNs(Tsc(hz), first) < ADDRESS_LIMIT
    requires accumulated + TrueNs(Tsc(hz), t + 1) - TrueNs(Tsc(hz), first) >= ADDRESS_LIMIT
    ensures Reading(Tsc(hz), accumulated, GetNs(Tsc(hz), first), t)
          > Reading(Tsc(hz), accumulated, GetNs(Tsc(hz), first), t + 1)
  {
    TscReading(hz, accumulated, first, t);
    TscReading(hz, accumulated, first, t + 1);
    TrueNsMonotone(Tsc(hz), first, t);
    TotalWraps(hz, accumulated - TrueNs(Tsc(hz), first), t);
  }

  /** A TSC reading is the total modulo 2^64, beyond the convertible range too. */
  lemma TscReading(hz: nat, accumulated: nat, first: nat, t: nat)
    requires hz < ADDRESS_LIMIT && first < ADDRESS_LIMIT && t < ADDRESS_LIMIT
    ensures Reading(Tsc(hz), accumulated, GetNs(Tsc(hz), first), t)
         == Wrap(accumulated + TrueNs(Tsc(hz), t) - TrueNs(Tsc(hz), first))
  {
    CombinedWraps(accumulated, GetNs(Tsc(hz), first), GetNs(Tsc(hz), t));
    if hz > 0 {
      var x, y := TrueNs(Tsc(hz), t), TrueNs(Tsc(hz), first);
      MulDivExact(t, 1000000000, hz);
      MulDivExact(first, 1000000000, hz);
      WrapAdd(x, accumulated - Wrap(y));
      WrapSub(y, accumulated + x);
    }
  }

  lemma WrapSub(y: int, x: int)
    ensures Wrap(x - Wrap(y)) == Wrap(x - y)
  {
  }

  /** The last counter value whose total is within 64 bits. */
  lemma {:induction false} LastFitting(hz: nat, accumulated: nat, first: nat, last: nat) returns (t: nat)
    requires accumulated < ADDRESS_LIMIT && first <= last
    requires accumulated + TrueNs(Tsc(hz), last) - TrueNs(Tsc(hz), first) >= ADDRESS_LIMIT
    ensures first <= t < last && accumulated + TrueNs(Tsc(hz), t) - TrueNs(Tsc(hz), first) < ADDRESS_LIMIT
    ensures accumulated + TrueNs(Tsc(hz), t + 1) - TrueNs(Tsc(hz), first) >= ADDRESS_LIMIT
    decreases last
  {
    if accumulated + TrueNs(Tsc(hz), last - 1) - TrueNs(Tsc(hz), first) < ADDRESS_LIMIT {
      t := last - 1;
    } else {
      t := LastFitting(hz, accumulated, first, last - 1);
    }
  }

  lemma TotalWraps(hz: nat, offset: int, t: nat)
    requires 0 <= offset + TrueNs(Tsc(hz), t) < ADDRESS_LIMIT <= offset + TrueNs(Tsc(hz), t + 1)
    ensures Wrap(offset + TrueNs(Tsc(hz), t + 1)) < Wrap(offset + TrueNs(Tsc(hz), t))
  {
    if hz > 0 {
      OneTickMore(t, hz);
      WrapOnce(offset + TrueNs(Tsc(hz), t + 1));
      WrapSmall(offset + TrueNs(Tsc(hz), t));
    }
  }

  /** On the HPET and the PIT, whose product wraps around at 18446744074 ticks, readings go
      back at the first tick out of range, or, if the total then falls below the baseline, jump
      to just below 2^64 and go back once it has reached the baseline again: as many ticks after
      the wrap-around as the baseline at the latest. */
  lemma CounterReadingsSortedIff(s: Source, accumulated: nat, first: nat, last: nat)
    requires WellFormed(s) && FrequencyOk(s) && !s.Tsc? && first <= last < ADDRESS_LIMIT && Convertible(s, first)
    requires forall t: nat :: first <= t <= last ==> accumulated + GetNs(s, t) - GetNs(s, first) < ADDRESS_LIMIT
    ensures ReadingsSorted(s, accumulated, first, last)
       <==> || Convertible(s, last)
            || (last < 18446744074 + first && accumulated + GetNs(s, last) < GetNs(s, first))
  {
    if Convertible(s, last) {
      InRangeSorted(s, accumulated, first, last);
    } else {
      FirstTickOut(s, last);
      if last < 18446744074 + first && accumulated + GetNs(s, last) < GetNs(s, first) {
        JumpSorted(s, accumulated, first, last);
      } else {
        JumpEnds(s, accumulated, first, last);
      }
    }
  }

  lemma FirstTickOut(s: Source, t: nat)
    requires !s.Tsc? && (s.Hpet? ==> s.hz > 0)
    ensures Convertible(s, t) <==> t < 18446744074
  {
  }

  lemma InRangeSorted(s: Source, accumulated: nat, first: nat, last: nat)
    requires WellFormed(s) && first <= last < ADDRESS_LIMIT && Convertible(s, last)
    requires forall t: nat :: first <= t <= last ==> accumulated + GetNs(s, t) - GetNs(s, first) < ADDRESS_LIMIT
    ensures ReadingsSorted(s, accumulated, first, last)
  {
    forall t: nat, u: nat | first <= t <= u <= last
      ensures Reading(s, accumulated, GetNs(s, first), t) <= Reading(s, accumulated, GetNs(s, first), u)
    {
      ConvertibleInOrder(s, first, t, last);
      ConvertibleInOrder(s, t, u, last);
      CombinedInOrder(accumulated, GetNs(s, first), GetNs(s, t), GetNs(s, u));
    }
  }

  /** The counter between the first and the second wrap-around of its product. */
  function SecondRound(s: Source, n: nat): nat {
    if s.Pit? then (n * 1000000000 + 290448384) / 1000
    else if s.Hpet? && s.hz > 0 then (n * 1000000000 + 290448384) / s.hz
    else 0
  }

  lemma ReadsSecondRound(s: Source, n: nat)
    requires WellFormed(s) && !s.Tsc? && (s.Hpet? ==> s.hz > 0) && n <= 18446744073
    ensures GetNs(s, 18446744074 + n) == SecondRound(s, n) && TrueNs(s, n) <= SecondRound(s, n)
  {
    var x := (18446744074 + n) * 1000000000;
    assert x == ADDRESS_LIMIT + (n * 1000000000 + 290448384);
    WrapOnce(x);
    DivMonotone(n * 1000000000, n * 1000000000 + 290448384, if s.Pit? then 1000 else s.hz);
  }

  lemma SecondRoundMonotone(s: Source, m: nat, n: nat)
    requires WellFormed(s) && m <= n
    ensures SecondRound(s, m) <= SecondRound(s, n)
  {
    if s.Pit? {
      DivMonotone(m * 1000000000 + 290448384, n * 1000000000 + 290448384, 1000);
    } else if s.hz > 0 {
      DivMonotone(m * 1000000000 + 290448384, n * 1000000000 + 290448384, s.hz);
    }
  }

  /** Between the first and the second wrap-around, readings of the counter are in order, and as
      many ticks after the first as a counter value, they have reached its reading again. */
  lemma AfterWrap(s: Source, m: nat, n: nat)
    requires WellFormed(s) && !s.Tsc? && (s.Hpet? ==> s.hz > 0) && m <= n <= 18446744073
    ensures GetNs(s, 18446744074 + m) <= GetNs(s, 18446744074 + n)
    ensures GetNs(s, n) <= GetNs(s, 18446744074 + n)
  {
    ReadsSecondRound(s, m);
    ReadsSecondRound(s, n);
    SecondRoundMonotone(s, m, n);
    FirstTickOut(s, n);
    GetNsExactIff(s, n);
  }

  /** Below the baseline, readings are just below 2^64. */
  lemma JumpSorted(s: Source, accumulated: nat, first: nat, last: nat)
    requires WellFormed(s) && !s.Tsc? && (s.Hpet? ==> s.hz > 0)
    requires first <= 18446744073 < last < 18446744074 + first && accumulated + GetNs(s, last) < GetNs(s, first)
    requires forall t: nat :: first <= t <= last ==> accumulated + GetNs(s, t) - GetNs(s, first) < ADDRESS_LIMIT
    ensures ReadingsSorted(s, accumulated, first, last)
  {
    forall t: nat, u: nat | first <= t <= u <= last
      ensures Reading(s, accumulated, GetNs(s, first), t) <= Reading(s, accumulated, GetNs(s, first), u)
    {
      if u <= 18446744073 {
        FirstTickOut(s, u);
        InRangeSorted(s, accumulated, first, u);
        assert ReadingsSorted(s, accumulated, first, u);
      } else if t <= 18446744073 {
        IntoJump(s, accumulated, first, t, u, last);
      } else {
        WithinJump(s, accumulated, first, t, u, last);
      }
    }
  }

  lemma WithinJump(s: Source, accumulated: nat, first: nat, t: nat, u: nat, last: nat)
    requires WellFormed(s) && !s.Tsc? && (s.Hpet? ==> s.hz > 0)
    requires first <= 18446744073 < t <= u <= last < 18446744074 + first
    requires accumulated + GetNs(s, last) < GetNs(s, first)
    ensures Reading(s, accumulated, GetNs(s, first), t) <= Reading(s, accumulated, GetNs(s, first), u)
  {
    AfterWrap(s, t - 18446744074, u - 18446744074);
    AfterWrap(s, u - 18446744074, last - 18446744074);
    CombinedInOrder(accumulated, GetNs(s, first), GetNs(s, t), GetNs(s, u));
  }

  lemma IntoJump(s: Source, accumulated: nat, first: nat, t: nat, u: nat, last: nat)
    requires WellFormed(s) && !s.Tsc? && (s.Hpet? ==> s.hz > 0)
    requires first <= t <= 18446744073 < u <= last < 18446744074 + first
    requires accumulated + GetNs(s, last) < GetNs(s, first)
    requires accumulated + GetNs(s, t) - GetNs(s, first) < ADDRESS_LIMIT
    ensures Reading(s, accumulated, GetNs(s, first), t) <= Reading(s, accumulated, GetNs(s, first), u)
  {
    FirstTickOut(s, t);
    ConvertibleInOrder(s, first, t, t);
    AfterWrap(s, u - 18446744074, last - 18446744074);
    CombinedInOrder(accumulated, GetNs(s, first), GetNs(s, t), GetNs(s, u));
  }

  /** Once the baseline is reached again, readings have gone back. */
  lemma JumpEnds(s: Source, accumulated: nat, first: nat, last: nat)
    requires WellFormed(s) && FrequencyOk(s) && !s.Tsc? && (s.Hpet? ==> s.hz > 0)
    requires first <= 18446744073 < last < ADDRESS_LIMIT
    requires last >= 18446744074 + first || accumulated + GetNs(s, last) >= GetNs(s, first)
    requires forall t: nat :: first <= t <= last ==> accumulated + GetNs(s, t) - GetNs(s, first) < ADDRESS_LIMIT
    ensures !ReadingsSorted(s, accumulated, first, last)
  {
    if accumulated + GetNs(s, 18446744074) >= GetNs(s, first) {
      BackAtOnce(s, accumulated, first);
    } else {
      BackLater(s, accumulated, first, if last >= 18446744074 + first then 18446744074 + first else last);
    }
  }

  lemma BackAtOnce(s: Source, accumulated: nat, first: nat)
    requires WellFormed(s) && FrequencyOk(s) && !s.Tsc? && (s.Hpet? ==> s.hz > 0) && first <= 18446744073
    requires accumulated + GetNs(s, 18446744074) >= GetNs(s, first)
    requires accumulated + GetNs(s, 18446744073) - GetNs(s, first) < ADDRESS_LIMIT
    ensures Reading(s, accumulated, GetNs(s, first), 18446744074)
          < Reading(s, accumulated, GetNs(s, first), 18446744073)
  {
    FirstTickOut(s, 18446744073);
    FirstTickOut(s, 18446744074);
    StepsBack(s, 18446744073);
    CombinedGoesBack(accumulated, GetNs(s, first), GetNs(s, 18446744073), GetNs(s, 18446744074));
  }

  lemma BackLater(s: Source, accumulated: nat, first: nat, u: nat)
    requires WellFormed(s) && !s.Tsc? && (s.Hpet? ==> s.hz > 0) && first <= 18446744073 < u <= 18446744074 + first
    requires accumulated + GetNs(s, 18446744074) < GetNs(s, first)
    requires u == 18446744074 + first || accumulated + GetNs(s, u) >= GetNs(s, first)
    requires accumulated + GetNs(s, u) - GetNs(s, first) < ADDRESS_LIMIT
    ensures Reading(s, accumulated, GetNs(s, first), u) < Reading(s, accumulated, GetNs(s, first), 18446744074)
  {
    AfterWrap(s, first, first);
    CombinedGoesBack(accumulated, GetNs(s, first), GetNs(s, 18446744074), GetNs(s, u));
  }

  /** The optional name of a source. */
  datatype Signature = NoSignature | Signature(text: string)

  class KernelTime {
    var signature: string
    var sourceTimer: Timer
    var timerHz: nat
    var bootWallNs: nat
    var bootNs: nat
    var accumulatedNs: nat
    /** Every counter reading and every result so far. */
    ghost var spans: seq<Span>
    ghost var results: seq<nat>

    ghost predicate Valid()
      reads this
    {
      && SpansOk(spans)
      && (sourceTimer.NoTimer? <==> spans == [])
      && (spans == [] ==> accumulatedNs == 0)
      && (spans != [] ==>
            var s := spans[|spans| - 1];
            && sourceTimer == Timer(s.source) && bootNs == GetNs(s.source, s.first)
            && accumulatedNs == Wrap(Counted(spans[..|spans| - 1])))
      && Monotone(spans, results)
    }

    constructor ()
      ensures Valid() && sourceTimer == NoTimer && spans == [] && results == [] && signature == "NULL"
    {
      signature := "NULL";
      sourceTimer, timerHz, bootWallNs, bootNs, accumulatedNs := NoTimer, 0, 0, 0, 0;
      spans, results := [], [];
    }

    /** The function pointer is the new source; oldTicks and newTicks are what the outgoing
        and the incoming counter read, and rtcSeconds what the clock chip reads. */
    method Initialize(srcHz: nat, getNs: Timer, hasDelay: bool, name: Signature,
                      oldTicks: nat, newTicks: nat, rtcSeconds: nat)
      requires Valid() && Reads(spans, oldTicks) && (name.Signature? ==> |name.text| <= 4)
      requires newTicks < ADDRESS_LIMIT && (getNs.Timer? ==> WellFormed(getNs.source))
      modifies this
      ensures Valid() && results == old(results)
      ensures srcHz == 0 || getNs.NoTimer? || !hasDelay ==>
                && sourceTimer == old(sourceTimer) && timerHz == old(timerHz) && spans == old(spans)
                && bootNs == old(bootNs) && accumulatedNs == old(accumulatedNs) && bootWallNs == old(bootWallNs)
                && signature == old(signature)
      ensures srcHz > 0 && getNs.Timer? && hasDelay ==>
                && sourceTimer == getNs && timerHz == srcHz
                && signature == (if name.Signature? then name.text else "NULL")
                && spans == Extend(old(spans), oldTicks) + [Span(getNs.source, newTicks, newTicks)]
                && bootWallNs == (if old(spans) == [] then Wrap(rtcSeconds * 1000000000) else old(bootWallNs))
    {
      if srcHz == 0 || getNs.NoTimer? || !hasDelay {
        return;
      }
      signature := if name.Signature? then name.text else "NULL";
      if sourceTimer.NoTimer? {
        bootWallNs := Wrap(rtcSeconds * 1000000000);
      }
      var carried := Carried(oldTicks);
      Switch(carried, srcHz, getNs.source, newTicks, Extend(spans, oldTicks));
    }

    /** The total up to the last reading of the outgoing source. */
    method Carried(oldTicks: nat) returns (total: nat)
      requires Valid() && Reads(spans, oldTicks)
      ensures SpansOk(Extend(spans, oldTicks)) && total == Wrap(Counted(Extend(spans, oldTicks)))
      ensures Monotone(Extend(spans, oldTicks), results)
    {
      ExtendGrows(spans, oldTicks);
      ExtendKeepsMonotone(spans, oldTicks, results);
      total := accumulatedNs;
      if sourceTimer.Timer? {
        CarriedTotal(spans, oldTicks, accumulatedNs, bootNs);
        total := Combined(accumulatedNs, bootNs, GetNs(sourceTimer.source, oldTicks));
      }
    }

    /** The new source takes over at its baseline. */
    method Switch(carried: nat, srcHz: nat, source: Source, newTicks: nat, ghost before: seq<Span>)
      requires SpansOk(before) && Monotone(before, results) && carried == Wrap(Counted(before))
      requires newTicks < ADDRESS_LIMIT && WellFormed(source)
      modifies this`accumulatedNs, this`sourceTimer, this`timerHz, this`bootNs, this`spans
      ensures Valid() && sourceTimer == Timer(source) && timerHz == srcHz
      ensures spans == before + [Span(source, newTicks, newTicks)]
    {
      StartAddsNothing(before, source, newTicks, results);
      accumulatedNs := carried;
      sourceTimer, timerHz := Timer(source), srcHz;
      bootNs := GetNs(source, newTicks);
      spans := before + [Span(source, newTicks, newTicks)];
      assert spans[..|spans| - 1] == before;
    }

    /** The counter reads ticks. In range, the result is the time that passed on all counters
        since the start, and the results of a whole run are sorted. */
    method GetMonotonicNs(ticks: nat) returns (ns: nat)
      requires Valid() && Reads(spans, ticks)
      modifies this`spans, this`results
      ensures Valid() && spans == Extend(old(spans), ticks) && results == old(results) + [ns]
      ensures SpansOk(spans) && ns == Wrap(Counted(spans))
      ensures sourceTimer.Timer? ==> ns == Reading(sourceTimer.source, accumulatedNs, bootNs, ticks)
      ensures InRange(spans) ==> ns == Elapsed(spans) && Sorted(results)
    {
      ExtendGrows(spans, ticks);
      if sourceTimer.NoTimer? {
        ns := 0;
      } else {
        CarriedTotal(spans, ticks, accumulatedNs, bootNs);
        var currentNs := GetNs(sourceTimer.source, ticks);
        ns := Combined(accumulatedNs, bootNs, currentNs);
      }
      ReadKeepsMonotone(spans, ticks, results, ns);
      ghost var e := Extend(spans, ticks);
      assert spans != [] ==> e[..|e| - 1] == spans[..|spans| - 1];
      spans, results := e, results + [ns];
    }

    /** Wall time is monotonic time shifted by the boot time. */
    method GetRealtimeNs(ticks: nat) returns (ns: nat)
      requires Valid() && Reads(spans, ticks)
      modifies this`spans, this`results
      ensures Valid() && spans == Extend(old(spans), ticks)
      ensures SpansOk(spans) && ns == Wrap(bootWallNs + Counted(spans))
      ensures InRange(spans) && bootWallNs + Elapsed(spans) < ADDRESS_LIMIT ==> ns == bootWallNs + Elapsed(spans)
    {
      var monotonic := GetMonotonicNs(ticks);
      WrapAdd(Counted(spans), bootWallNs);
      ns := Wrap(bootWallNs + monotonic);
    }
  }

  /** The failing direction on a clock: read at the last tick in range and at the next one,
      it goes back unless the total falls below the baseline, and its results are no longer
      sorted. */
  method ReadPastRange(k: KernelTime, t: nat) returns (before: nat, after: nat)
    requires k.Valid() && k.sourceTimer.Timer? && FrequencyOk(k.sourceTimer.source)
    requires Reads(k.spans, t) && t + 1 < ADDRESS_LIMIT && WellFormed(k.sourceTimer.source)
    requires Convertible(k.sourceTimer.source, t) && !Convertible(k.sourceTimer.source, t + 1)
    requires k.bootNs <= k.accumulatedNs + GetNs(k.sourceTimer.source, t + 1)
    requires k.accumulatedNs + GetNs(k.sourceTimer.source, t) - k.bootNs < ADDRESS_LIMIT
    modifies k`spans, k`results
    ensures k.Valid() && after < before && !Sorted(k.results)
  {
    ghost var n := |k.results|;
    ExtendLast(k.spans, t);
    NextTickBack(k.sourceTimer.source, k.accumulatedNs, k.bootNs, t);
    before := k.GetMonotonicNs(t);
    after := k.GetMonotonicNs(t + 1);
    Unsorted(k.results, n);
  }

  lemma NextTickBack(s: Source, accumulated: nat, bootNs: nat, t: nat)
    requires WellFormed(s) && FrequencyOk(s) && t + 1 < ADDRESS_LIMIT && bootNs < ADDRESS_LIMIT
    requires Convertible(s, t) && !Convertible(s, t + 1)
    requires bootNs <= accumulated + GetNs(s, t + 1) && accumulated + GetNs(s, t) - bootNs < ADDRESS_LIMIT
    ensures Reading(s, accumulated, bootNs, t + 1) < Reading(s, accumulated, bootNs, t)
  {
    StepsBack(s, t);
    CombinedGoesBack(accumulated, bootNs, GetNs(s, t), GetNs(s, t + 1));
  }

  lemma ExtendLast(spans: seq<Span>, ticks: nat)
    requires spans != []
    ensures Extend(spans, ticks) != [] && Extend(spans, ticks)[|Extend(spans, ticks)| - 1].last == ticks
  {
  }

  lemma Unsorted(results: seq<nat>, n: nat)
    requires n + 1 < |results| && results[n] > results[n + 1]
    ensures !Sorted(results)
  {
  }
}
