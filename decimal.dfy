/**
 * The two JavaScript conversions the crawler relies on between integers and
 * text: `String(i)` (used for the price-store filter id, the valuation URL
 * and the season code) and `Number(text)` (used on the last three characters
 * of a season code). Integers are unbounded here; `String` agrees with this
 * plain decimal form only on safe integers, of magnitude at most 2^53 - 1
 * (`Number.MAX_SAFE_INTEGER`). Above that, a JavaScript number prints its
 * shortest round-trip digits padded with zeros, and from 1e21 on it switches
 * to exponent notation.
 */
module Decimal {
  import opened Records

  predicate IsDigit(c: char) {
    '0' <= c <= '9'
  }

  predicate AllDigits(s: string) {
    forall i :: 0 <= i < |s| ==> IsDigit(s[i])
  }

  function DigitChar(d: nat): (c: char)
    requires d < 10
    ensures IsDigit(c) && c as int - '0' as int == d
  {
    ('0' as int + d) as char
  }

  /** A digit run in canonical form: non-empty, and starting with '0' only when it is "0". */
  predicate NoLeadingZero(d: string) {
    d != [] && (d[0] == '0' ==> |d| == 1)
  }

  /** Decimal text of a natural number: most significant digit first, no leading zero. */
  function NatToString(n: nat): (s: string)
    ensures |s| > 0 && AllDigits(s)
    ensures NoLeadingZero(s)
    decreases n
  {
    if n < 10 then [DigitChar(n)] else NatToString(n / 10) + [DigitChar(n % 10)]
  }

  /** `String(i)` for an integer. */
  function IntToString(i: int): (s: string)
    ensures |s| > 0
    ensures s[0] == '-' <==> i < 0
    ensures AllDigits(if i < 0 then s[1..] else s)
  {
    if i < 0 then "-" + NatToString(-i) else NatToString(i)
  }

  /**
   * `String(i)` is the canonical decimal text: an optional '-' for a negative
   * integer, then digits with no leading zero (except in "0" itself).
   */
  lemma IntToStringCanonical(i: int)
    ensures var s := IntToString(i);
      (s[0] == '-' <==> i < 0) && AllDigits(if i < 0 then s[1..] else s) && NoLeadingZero(if i < 0 then s[1..] else s)
  {
    if i < 0 {
      assert IntToString(i)[1..] == NatToString(-i);
    }
  }

  /** The number a string of decimal digits denotes (0 for the empty string). */
  function DigitsValue(s: string): nat
    requires AllDigits(s)
    decreases |s|
  {
    if s == [] then 0 else DigitsValue(s[..|s| - 1]) * 10 + DigitValue(s[|s| - 1])
  }

  /**
   * `Number(s)` on the texts the crawler hands it: the empty text is 0, and a
   * run of digits, optionally preceded by '-', is that integer. `None` is
   * given for every other text (JavaScript's NaN, among others).
   */
  function NumberOf(s: string): (r: Option<int>)
    ensures r.Some? && r.value < 0 ==> |s| > 1 && s[0] == '-'
    ensures AllDigits(s) ==> r.Some? && r.value >= 0
  {
    if s == [] then Some(0)
    else if s[0] == '-' && |s| > 1 && AllDigits(s[1..]) then Some(-(DigitsValue(s[1..]) as int))
    else if AllDigits(s) then Some(DigitsValue(s))
    else None
  }

  /** `String(s).slice(-3)`: the last three characters, or all of a shorter text. */
  function LastThree(s: string): (t: string)
    ensures |t| == if |s| >= 3 then 3 else |s|
    ensures t == s[|s| - |t|..]
  {
    if |s| >= 3 then s[|s| - 3..] else s
  }

  lemma {:induction false} NatRoundTrip(n: nat)
    ensures DigitsValue(NatToString(n)) == n
    decreases n
  {
    var s := NatToString(n);
    if n >= 10 {
      NatRoundTrip(n / 10);
      assert s[..|s| - 1] == NatToString(n / 10);
    }
  }

  /** `Number(String(i))` gives `i` back for every integer. */
  lemma IntRoundTrip(i: int)
    ensures NumberOf(IntToString(i)) == Some(i)
  {
    var s := IntToString(i);
    if i < 0 {
      assert s[1..] == NatToString(-i);
      NatRoundTrip(-i);
    } else {
      NatRoundTrip(i);
      assert IsDigit(s[0]);
    }
  }

  /** `String` is injective on integers. */
  lemma IntToStringInjective(i: int, j: int)
    requires IntToString(i) == IntToString(j)
    ensures i == j
  {
    IntRoundTrip(i);
    IntRoundTrip(j);
  }

  /** A natural number has at least three digits exactly when it is at least 100. */
  lemma NatToStringLength(n: nat)
    ensures |NatToString(n)| >= 2 <==> n >= 10
    ensures |NatToString(n)| >= 3 <==> n >= 100
  {
    if n >= 10 {
      assert |NatToString(n)| == |NatToString(n / 10)| + 1;
      if n >= 100 {
        assert |NatToString(n / 10)| >= 2;
      } else {
        assert |NatToString(n / 10)| == 1;
      }
    }
  }

  lemma {:induction false} DigitsBoundedByLength(s: string)
    requires AllDigits(s) && |s| <= 3
    ensures DigitsValue(s) < 1000
  {
    if s != [] {
      var p := s[..|s| - 1];
      DigitsBoundedByLength(p);
      if |p| > 0 {
        var q := p[..|p| - 1];
        DigitsBoundedByLength(q);
        if |q| > 0 {
          assert q[..|q| - 1] == [];
        }
        assert DigitsValue(p) < 100;
      }
    }
  }

  function DigitValue(c: char): int {
    c as int - '0' as int
  }

  function Pow10(k: nat): nat {
    if k == 0 then 1 else Pow10(k - 1) * 10
  }

  /** The value of two digit strings written one after the other. */
  lemma {:induction false} DigitsConcat(p: string, q: string)
    requires AllDigits(p) && AllDigits(q)
    ensures AllDigits(p + q)
    ensures DigitsValue(p + q) == DigitsValue(p) * Pow10(|q|) + DigitsValue(q)
    decreases |q|
  {
    if q == [] {
      assert p + q == p;
    } else {
      var init := q[..|q| - 1];
      assert (p + q)[..|p + q| - 1] == p + init;
      assert (p + q)[|p + q| - 1] == q[|q| - 1];
      DigitsConcat(p, init);
      ShiftDigit(DigitsValue(p), Pow10(|init|), DigitsValue(init), DigitValue(q[|q| - 1]));
    }
  }

  lemma ShiftDigit(a: int, b: int, c: int, d: int)
    ensures (a * b + c) * 10 + d == a * (b * 10) + (c * 10 + d)
  {
  }

  lemma DigitsSplitThree(s: string)
    requires AllDigits(s) && |s| >= 3
    ensures AllDigits(s[..|s| - 3]) && AllDigits(s[|s| - 3..])
    ensures DigitsValue(s) == DigitsValue(s[..|s| - 3]) * 1000 + DigitsValue(s[|s| - 3..])
  {
    var p, q := s[..|s| - 3], s[|s| - 3..];
    assert p + q == s;
    DigitsConcat(p, q);
    assert Pow10(3) == 1000;
  }

  /** A non-empty run of digits is read as the number it denotes. */
  lemma NumberOfDigits(t: string)
    requires |t| > 0 && AllDigits(t)
    ensures NumberOf(t) == Some(DigitsValue(t))
  {
    assert IsDigit(t[0]);
  }

  lemma ModOfMultiple(q: int, r: int)
    requires 0 <= r < 1000
    ensures (q * 1000 + r) % 1000 == r
  {
  }

  /** The last three digits of a digit string denote its value modulo 1000. */
  lemma DigitsLastThree(s: string)
    requires AllDigits(s)
    ensures AllDigits(LastThree(s))
    ensures DigitsValue(LastThree(s)) == DigitsValue(s) % 1000
  {
    if |s| <= 3 {
      DigitsBoundedByLength(s);
    } else {
      DigitsSplitThree(s);
      DigitsBoundedByLength(s[|s| - 3..]);
      ModOfMultiple(DigitsValue(s[..|s| - 3]), DigitsValue(s[|s| - 3..]));
    }
  }

  lemma NonNegativeCodeDigits(n: nat)
    ensures NumberOf(LastThree(IntToString(n))) == Some(n % 1000)
  {
    var s := NatToString(n);
    assert IntToString(n) == s;
    DigitsLastThree(s);
    NatRoundTrip(n);
    NumberOfDigits(LastThree(s));
  }

  lemma ShortNegativeCodeDigits(n: int)
    requires -100 < n < 0
    ensures NumberOf(LastThree(IntToString(n))) == Some(n)
  {
    NatToStringLength(-n);
    assert LastThree(IntToString(n)) == IntToString(n);
    IntRoundTrip(n);
  }

  /** A prefix does not reach the last three characters of a text of three or more. */
  lemma LastThreeOfLonger(p: string, d: string)
    requires |d| >= 3
    ensures LastThree(p + d) == LastThree(d)
  {
    assert (p + d)[|p + d| - 3..] == d[|d| - 3..];
  }

  lemma LongNegativeCodeDigits(n: int)
    requires n <= -100
    ensures NumberOf(LastThree(IntToString(n))) == Some((-n) % 1000)
  {
    var d := NatToString(-n);
    NatToStringLength(-n);
    LastThreeDigitsAfter("-", d);
    NatRoundTrip(-n);
    assert NumberOf(LastThree("-" + d)) == Some((-n) % 1000);
    assert IntToString(n) == "-" + d;
  }

  /** Behind any prefix, the last three of three or more digits denote their value modulo 1000. */
  lemma LastThreeDigitsAfter(p: string, d: string)
    requires |d| >= 3 && AllDigits(d)
    ensures NumberOf(LastThree(p + d)) == Some(DigitsValue(d) % 1000)
  {
    LastThreeOfLonger(p, d);
    DigitsLastThree(d);
    NumberOfDigits(LastThree(d));
  }

  /**
   * `Number(String(n).slice(-3))` in closed form: n mod 1000 for n >= 0; a
   * negative code with at most two digits keeps its sign and value; a longer
   * negative code loses its '-' and yields its last three digits.
   */
  lemma SeasonCodeDigits(n: int)
    ensures NumberOf(LastThree(IntToString(n)))
         == Some(if n >= 0 then n % 1000 else if n > -100 then n else (-n) % 1000)
  {
    if n >= 0 {
      NonNegativeCodeDigits(n);
    } else if n > -100 {
      ShortNegativeCodeDigits(n);
    } else {
      LongNegativeCodeDigits(n);
    }
  }
}
