/** lib/string_util.cpp: utoa and itoa. */
module NumberText {
  import opened MemoryLayout
  import opened Shifts
  import opened WideMath

  /** The digit table. */
  function DigitChar(d: nat): char
    requires d < 16
  {
    "0123456789ABCDEF"[d]
  }

  /** What a digit stands for, and any other character: 16. */
  function DigitValue(c: char): (d: nat)
    ensures d <= 16
  {
    if '0' <= c <= '9' then c as int - '0' as int
    else if 'A' <= c <= 'F' then c as int - 'A' as int + 10
    else 16
  }

  lemma DigitRoundTrip(d: nat)
    requires d < 16
    ensures DigitValue(DigitChar(d)) == d && DigitChar(d) != '\0' && DigitChar(d) != '-'
    ensures DigitChar(d) == '0' <==> d == 0
  {
    var table := "0123456789ABCDEF";
    assert table[0] == '0' && table[1] == '1' && table[2] == '2' && table[3] == '3' && table[4] == '4' &&
           table[5] == '5';
    assert table[6] == '6' && table[7] == '7' && table[8] == '8' && table[9] == '9' && table[10] == 'A' &&
           table[11] == 'B';
    assert table[12] == 'C' && table[13] == 'D' && table[14] == 'E' && table[15] == 'F';
  }

  lemma CharRoundTrip(c: char)
    requires DigitValue(c) < 16
    ensures DigitChar(DigitValue(c)) == c
  {
    DigitRoundTrip(DigitValue(c));
  }

  /** The number a numeral denotes. */
  function Parse(s: string, base: nat): nat {
    if s == [] then 0 else Parse(s[..|s| - 1], base) * base + DigitValue(s[|s| - 1])
  }

  predicate Numeral(s: string, base: nat) {
    && s != [] && (s[0] == '0' ==> |s| == 1)
    && forall k :: 0 <= k < |s| ==> DigitOk(s[k], base)
  }

  predicate DigitOk(c: char, base: nat) {
    DigitValue(c) < base && DigitValue(c) < 16
  }

  /** value / base and value % base, by counting. */
  function Quotient(value: nat, base: nat): (q: nat)
    requires 2 <= base
    ensures value > 0 ==> q < value
  {
    if value < base then 0 else Quotient(value - base, base) + 1
  }

  function Remainder(value: nat, base: nat): (r: nat)
    requires 2 <= base
    ensures r < base
  {
    if value < base then value else Remainder(value - base, base)
  }

  lemma {:induction false} QuotientRemainder(value: nat, base: nat)
    requires 2 <= base
    ensures Quotient(value, base) * base + Remainder(value, base) == value
    ensures Quotient(value, base) == value / base && Remainder(value, base) == value % base
  {
    if value >= base {
      QuotientRemainder(value - base, base);
      OneMore(Quotient(value - base, base), base);
    }
    LastDigit(Quotient(value, base), base, Remainder(value, base));
  }

  lemma LastDigit(front: nat, base: nat, d: nat)
    requires d < base
    ensures (front * base + d) / base == front && (front * base + d) % base == d
  {
    DivIs(front * base + d, base, front);
    Euclid(front * base + d, base);
  }

  predicate BaseOk(base: int) {
    2 <= base <= 36
  }

  /** Every digit of the value is in the table. The table ends at 15, so that above base 16
      only some values are. */
  predicate InTable(value: nat, base: nat): (r: bool)
    requires 2 <= base
    ensures base <= 16 ==> r
  {
    value == 0 || (Remainder(value, base) < 16 && InTable(Quotient(value, base), base))
  }

  /** The digits of a value, most significant first; none of 0. */
  function Digits(value: nat, base: nat): string
    requires BaseOk(base) && InTable(value, base)
  {
    if value == 0 then [] else Digits(Quotient(value, base), base) + [DigitChar(Remainder(value, base))]
  }

  predicate TextOk(value: nat, base: int) {
    BaseOk(base) ==> InTable(value, base)
  }

  /** What utoa writes before the NUL. */
  function Text(value: nat, base: int): string
    requires TextOk(value, base)
  {
    if !BaseOk(base) then [] else if value == 0 then "0" else Digits(value, base)
  }

  lemma AppendDigit(front: string, q: nat, d: nat, base: nat)
    requires d < base && d < 16 && Parse(front, base) == q && (q > 0 ==> |front| > 0 && front[0] != '0')
    requires q + d > 0 && (q == 0 ==> front == []) && forall k :: 0 <= k < |front| ==> DigitOk(front[k], base)
    ensures Parse(front + [DigitChar(d)], base) == q * base + d && (front + [DigitChar(d)])[0] != '0'
    ensures forall k :: 0 <= k < |front + [DigitChar(d)]| ==> DigitOk((front + [DigitChar(d)])[k], base)
  {
    DigitRoundTrip(d);
    assert (front + [DigitChar(d)])[..|front|] == front;
  }

  lemma {:induction false} DigitsParse(value: nat, base: nat)
    requires BaseOk(base) && InTable(value, base)
    ensures Parse(Digits(value, base), base) == value
    ensures forall k :: 0 <= k < |Digits(value, base)| ==> DigitOk(Digits(value, base)[k], base)
    ensures value > 0 ==> |Digits(value, base)| > 0 && Digits(value, base)[0] != '0'
  {
    if value > 0 {
      var q, d := Quotient(value, base), Remainder(value, base);
      QuotientRemainder(value, base);
      DigitsParse(q, base);
      AppendDigit(Digits(q, base), q, d, base);
    }
  }

  /** The text is a numeral, without leading zeros, of the value. */
  lemma TextParses(value: nat, base: nat)
    requires BaseOk(base) && InTable(value, base)
    ensures Numeral(Text(value, base), base) && Parse(Text(value, base), base) == value
  {
    DigitsParse(value, base);
    DigitRoundTrip(0);
    if value == 0 {
      assert "0"[..0] == [] && Parse([], base) == 0;
    }
  }

  lemma TimesPositive(x: nat, base: nat)
    requires 1 <= x && 1 <= base
    ensures x * base >= 1
  {
  }

  lemma {:induction false} ParsePositive(s: string, base: nat)
    requires BaseOk(base) && Numeral(s, base) && s[0] != '0'
    ensures Parse(s, base) > 0
  {
    var n := |s| - 1;
    if n == 0 {
      CharRoundTrip(s[0]);
      assert s[..0] == [];
    } else {
      ParsePositive(s[..n], base);
      TimesPositive(Parse(s[..n], base), base);
    }
  }

  lemma {:induction false} DigitsOfParse(s: string, base: nat)
    requires BaseOk(base) && Numeral(s, base) && s[0] != '0'
    ensures InTable(Parse(s, base), base) && Digits(Parse(s, base), base) == s
  {
    var n := |s| - 1;
    var front, d := s[..n], DigitValue(s[n]);
    ParsePositive(s, base);
    LastDigit(Parse(front, base), base, d);
    QuotientRemainder(Parse(s, base), base);
    CharRoundTrip(s[n]);
    if n > 0 {
      DigitsOfParse(front, base);
    }
    assert s == front + [s[n]];
  }

  /** Every numeral is the text of its value. */
  lemma ParseTexts(s: string, base: nat)
    requires BaseOk(base) && Numeral(s, base)
    ensures InTable(Parse(s, base), base) && Text(Parse(s, base), base) == s
  {
    if s[0] == '0' {
      assert s == "0" && s[..0] == [];
    } else {
      ParsePositive(s, base);
      DigitsOfParse(s, base);
    }
  }

  lemma {:induction false} DigitsLength(value: nat, base: nat, bits: nat)
    requires BaseOk(base) && InTable(value, base) && value < Pow2(bits)
    ensures |Digits(value, base)| <= bits
  {
    if value > 0 {
      Halved(value, base, bits);
      DigitsLength(Quotient(value, base), base, bits - 1);
    }
  }

  lemma Halved(value: nat, base: nat, bits: nat)
    requires 0 < value < Pow2(bits) && 2 <= base
    ensures bits > 0 && Quotient(value, base) < Pow2(bits - 1)
  {
    QuotientRemainder(value, base);
    TwiceAtMost(Quotient(value, base), base);
  }

  lemma TwiceAtMost(q: nat, base: nat)
    requires 2 <= base
    ensures 2 * q <= q * base
  {
    assert q * (base - 2) >= 0;
  }

  lemma Shl16(x: nat)
    ensures Shl(x, 15) == 0x8000 * x && Shl(x, 16) == 0x1_0000 * x
  {
    Shl4(x);
    ShlShl(x, 4, 4);
    Shl4(Shl(x, 4));
    ShlShl(x, 8, 4);
    Shl4(Shl(x, 8));
    ShlShl(x, 12, 3);
    ShlShl(x, 12, 4);
    Shl4(Shl(x, 12));
  }

  lemma Shl4(x: nat)
    ensures Shl(x, 3) == 8 * x && Shl(x, 4) == 16 * x
  {
    assert Shl(x, 1) == 2 * x;
    assert Shl(x, 2) == 4 * x;
  }

  lemma Pow2Of64()
    ensures Pow2(64) == 0x1_0000_0000_0000_0000 && Pow2(63) == 0x8000_0000_0000_0000
  {
    Shl16(1);
    ShlShl(1, 16, 16);
    Shl16(0x1_0000);
    ShlShl(1, 32, 16);
    Shl16(0x1_0000_0000);
    ShlShl(1, 48, 15);
    ShlShl(1, 48, 16);
    Shl16(0x1_0000_0000_0000);
  }

  /** 65 characters hold any 64-bit value in any base. */
  lemma TextFits(value: nat, base: nat)
    requires BaseOk(base) && InTable(value, base) && value < ADDRESS_LIMIT
    ensures 1 <= |Text(value, base)| <= 64
  {
    Pow2Of64();
    DigitsLength(value, base, 64);
  }

  function Reversed(s: string): (r: string)
    ensures |r| == |s|
  {
    if s == [] then [] else [s[|s| - 1]] + Reversed(s[..|s| - 1])
  }

  lemma {:induction false} ReversedAt(s: string, k: nat)
    requires k < |s|
    ensures Reversed(s)[k] == s[|s| - 1 - k]
  {
    if k > 0 {
      ReversedAt(s[..|s| - 1], k - 1);
    }
  }

  /** The buffer holds a C string at an offset. */
  ghost predicate Holds(buf: seq<char>, off: nat, text: string) {
    off + |text| < |buf| && buf[off..off + |text|] == text && buf[off + |text|] == '\0'
  }

  /** Nothing outside the string was written. */
  ghost predicate Outside(buf: seq<char>, was: seq<char>, off: nat, n: nat) {
    |buf| == |was| && forall k :: 0 <= k < |buf| && !(off <= k <= off + n) ==> buf[k] == was[k]
  }

  method SplitDigit(v: nat, base: nat) returns (digit: nat, rest: nat)
    requires 2 <= base
    ensures digit == Remainder(v, base) && rest == Quotient(v, base)
  {
    QuotientRemainder(v, base);
    digit, rest := v % base, v / base;
  }

  /** The digit loop: leaves the digits backwards. */
  method ExtractDigits(value: nat, str: array<char>, off: nat, base: nat) returns (end: nat)
    requires BaseOk(base) && InTable(value, base) && off + |Digits(value, base)| < str.Length
    modifies str
    ensures end == off + |Digits(value, base)| && Reversed(str[off..end]) == Digits(value, base)
    ensures forall k :: 0 <= k < str.Length && !(off <= k < end) ==> str[k] == old(str[k])
  {
    var v: nat := value;
    end := off;
    ghost var done: string := [];
    while v > 0
      invariant InTable(v, base) && off <= end && end == off + |done| && end + |Digits(v, base)| < str.Length
      invariant str[off..end] == done && Digits(v, base) + Reversed(done) == Digits(value, base)
      invariant forall k :: 0 <= k < str.Length && !(off <= k < end) ==> str[k] == old(str[k])
    {
      DigitStep(v, base, done);
      var digit, rest := SplitDigit(v, base);
      str[end] := DigitChar(digit);
      end := end + 1;
      done := done + [DigitChar(digit)];
      v := rest;
    }
  }

  /** One digit moved from the value to the text. */
  lemma DigitStep(v: nat, base: nat, done: string)
    requires BaseOk(base) && InTable(v, base) && v > 0
    ensures |Digits(v, base)| == |Digits(Quotient(v, base), base)| + 1
    ensures Digits(v, base) + Reversed(done) == Digits(Quotient(v, base),
                                                       base) + Reversed(done + [DigitChar(Remainder(v, base))])
  {
    var c := DigitChar(Remainder(v, base));
    ReversedAppend(done, c);
    Regroup(Digits(Quotient(v, base), base), c, Reversed(done));
  }

  lemma ReversedAppend(s: string, c: char)
    ensures Reversed(s + [c]) == [c] + Reversed(s)
  {
    assert (s + [c])[..|s|] == s;
  }

  lemma Regroup(front: string, c: char, back: string)
    ensures front + [c] + back == front + ([c] + back)
  {
  }

  /** Where the character at k comes from: the mirrored position once start and last have
      passed it. */
  function Origin(k: int, off: int, end: int, start: int, last: int): int {
    if off <= k < start || last < k < end then off + end - 1 - k else k
  }

  ghost predicate HalfReversed(s: string, was: string, off: int, end: int, start: int, last: int) {
    && |s| == |was| && 0 <= off <= end <= |s| && off - 1 <= last && start <= end
    && forall k :: 0 <= k < |s| ==> s[k] == was[Origin(k, off, end, start, last)]
  }

  lemma SwapEnds(s: string, was: string, off: int, end: int, start: int, last: int)
    requires off <= start < last < end && start + last == off + end - 1
    requires HalfReversed(s, was, off, end, start, last)
    ensures HalfReversed(s[start := s[last]][last := s[start]], was, off, end, start + 1, last - 1)
  {
    var t := s[start := s[last]][last := s[start]];
    forall k | 0 <= k < |t| ensures t[k] == was[Origin(k, off, end, start + 1, last - 1)] {
      if k != start && k != last {
        assert t[k] == s[k];
      }
    }
  }

  lemma WhollyReversed(s: string, was: string, off: int, end: int, start: int, last: int)
    requires 0 <= off <= start <= end <= |s| && start + last == off + end - 1 && off - 1 <= last <= start
    requires HalfReversed(s, was, off, end, start, last)
    ensures s[off..end] == Reversed(was[off..end])
    ensures forall k :: 0 <= k < |s| && !(off <= k < end) ==> s[k] == was[k]
  {
    forall k | 0 <= k < end - off ensures s[off + k] == Reversed(was[off..end])[k] {
      ReversedAt(was[off..end], k);
    }
  }

  /** The reversal loop, from both ends. */
  method ReverseInPlace(str: array<char>, off: nat, end: nat)
    requires off <= end <= str.Length
    modifies str
    ensures str[off..end] == Reversed(old(str[off..end]))
    ensures forall k :: 0 <= k < str.Length && !(off <= k < end) ==> str[k] == old(str[k])
  {
    var start, last := off, end - 1;
    ghost var was := str[..];
    while start < last
      invariant off <= start <= end && off - 1 <= last < end && start + last == off + end - 1
      invariant HalfReversed(str[..], was, off, end, start, last)
    {
      ghost var before := str[..];
      var temp := str[start];
      str[start] := str[last];
      str[last] := temp;
      assert str[..] == before[start := before[last]][last := before[start]];
      SwapEnds(before, was, off, end, start, last);
      start, last := start + 1, last - 1;
    }
    WhollyReversed(str[..], was, off, end, start, last);
    assert str[..][off..end] == str[off..end] && was[off..end] == old(str[off..end]);
  }

  /** The digits in order, and the NUL. */
  method WriteDigits(value: nat, str: array<char>, off: nat, base: nat)
    requires BaseOk(base) && InTable(value, base) && off + |Digits(value, base)| < str.Length
    modifies str
    ensures Holds(str[..], off, Digits(value, base)) && Outside(str[..], old(str[..]), off, |Digits(value, base)|)
  {
    var end := ExtractDigits(value, str, off, base);
    ghost var digits := str[off..end];
    str[end] := '\0';
    assert str[off..end] == digits;
    ReverseInPlace(str, off, end);
    assert str[..][off..end] == str[off..end];
  }

  /** utoa into the buffer from an offset on. */
  method Utoa(value: nat, str: array?<char>, off: nat, base: int) returns (r: array?<char>)
    requires value < ADDRESS_LIMIT && TextOk(value, base)
    requires str != null ==> off + |Text(value, base)| < str.Length
    modifies str
    ensures r == str
    ensures str != null ==>
              Holds(str[..], off, Text(value, base)) && Outside(str[..], old(str[..]), off, |Text(value, base)|)
  {
    r := str;
    if str == null {
      return;
    }
    if base < 2 || base > 36 {
      str[off] := '\0';
      return;
    }
    if value == 0 {
      str[off] := '0';
      str[off + 1] := '\0';
      return;
    }
    WriteDigits(value, str, off, base);
  }

  /** What itoa writes: a sign in base 10 only, else the two's complement bits. */
  function SignedText(value: int, base: int): string
    requires TextOk(Magnitude(value, base), base)
  {
    if base == 10 && value < 0 then "-" + Text(-value, base) else Text(Wrap(value), base)
  }

  function Magnitude(value: int, base: int): nat {
    if base == 10 && value < 0 then -value else Wrap(value)
  }

  function ParseSigned(s: string): int {
    if s != [] && s[0] == '-' then 0 - Parse(s[1..], 10) else Parse(s, 10)
  }

  /** The signed reading of 64 bits. */
  function ToSigned(x: nat): int {
    if x < 0x8000_0000_0000_0000 then x else x - 0x1_0000_0000_0000_0000
  }

  /** Base 10 reads back as the number. */
  lemma DecimalReadsBack(value: int)
    requires -0x8000_0000_0000_0000 < value < 0x8000_0000_0000_0000
    ensures ParseSigned(SignedText(value, 10)) == value && |SignedText(value, 10)| <= 64
  {
    if value < 0 {
      NegativeText(-value);
    } else {
      SignedBits(value);
      PositiveText(value, 10);
    }
  }

  /** The other bases read back as its bits. */
  lemma BitsReadBack(value: int, base: nat)
    requires BaseOk(base) && base != 10 && -0x8000_0000_0000_0000 <= value < 0x8000_0000_0000_0000
    requires InTable(Wrap(value), base)
    ensures ToSigned(Parse(SignedText(value, base), base)) == value && |SignedText(value, base)| <= 64
  {
    SignedBits(value);
    PositiveText(Wrap(value), base);
  }

  lemma SignedBits(value: int)
    requires -0x8000_0000_0000_0000 <= value < 0x8000_0000_0000_0000
    ensures ToSigned(Wrap(value)) == value && (value >= 0 ==> Wrap(value) == value)
  {
  }

  lemma NegativeText(value: nat)
    requires 0 < value < 0x8000_0000_0000_0000
    ensures ParseSigned("-" + Text(value, 10)) == 0 - value && |Text(value, 10)| <= 63
  {
    TextParses(value, 10);
    assert ("-" + Text(value, 10))[1..] == Text(value, 10);
    Pow2Of64();
    DigitsLength(value, 10, 63);
  }

  lemma PositiveText(value: nat, base: nat)
    requires BaseOk(base) && InTable(value, base) && value < ADDRESS_LIMIT
    ensures Parse(Text(value, base), base) == value && |Text(value, base)| <= 64
    ensures base == 10 ==> ParseSigned(Text(value, base)) == value
  {
    TextParses(value, base);
    TextFits(value, base);
    var s := Text(value, base);
    assert DigitValue(s[0]) < 16 && s[0] != '-';
  }

  lemma SignedHolds(buf: seq<char>, signed: seq<char>, was: seq<char>, text: string)
    requires |was| > 0 && signed == was[0 := '-'] && Holds(buf, 1, text) && Outside(buf, signed, 1, |text|)
    ensures Holds(buf, 0, "-" + text) && Outside(buf, was, 0, |text| + 1)
  {
    assert buf[0] == '-';
    assert buf[0..1 + |text|] == [buf[0]] + buf[1..1 + |text|];
  }

  /** itoa; the negation of INT64_MIN has no value. */
  method Itoa(value: int, str: array?<char>, base: int) returns (r: array?<char>)
    requires -0x8000_0000_0000_0000 <= value < 0x8000_0000_0000_0000 && (base == 10 ==> value > -0x8000_0000_0000_0000)
    requires TextOk(Magnitude(value, base), base)
    requires str != null ==> |SignedText(value, base)| < str.Length
    modifies str
    ensures r == str
    ensures str != null ==>
              Holds(str[..], 0, SignedText(value, base)) && Outside(str[..], old(str[..]), 0, |SignedText(value, base)|)
  {
    r := str;
    if str == null {
      return;
    }
    if base == 10 && value < 0 {
      str[0] := '-';
      ghost var signed := str[..];
      var _ := Utoa(-value, str, 1, base);
      SignedHolds(str[..], signed, old(str[..]), Text(-value, base));
    } else {
      var _ := Utoa(Wrap(value), str, 0, base);
    }
  }
}
