/**
  The numbers of the optimizer as decimal values: rounding a parameter to
  three decimals (numpy's round, halves to the even neighbour) and the text
  that Python's string conversion of such a value produces, together with a
  parser that reads that text back.

  A parameter rounded to three decimals is represented exactly, as an
  integer count of thousandths.
*/
module Decimal {
  import opened Wrappers

  function Abs(k: int): nat
  {
    if k < 0 then -k else k
  }

  /** The integer nearest to y; when y lies halfway, the even one. */
  function RoundHalfEven(y: real): (k: int)
    ensures -0.5 <= k as real - y <= 0.5
    ensures (k as real - y == 0.5 || y - k as real == 0.5) ==> k % 2 == 0
  {
    var fl := y.Floor;
    var frac := y - fl as real;
    if frac < 0.5 then fl
    else if frac > 0.5 then fl + 1
    else if fl % 2 == 0 then fl
    else fl + 1
  }

  /** The two properties of RoundHalfEven determine its result. */
  lemma RoundHalfEvenUnique(y: real, k: int)
    requires -0.5 <= k as real - y <= 0.5
    requires (k as real - y == 0.5 || y - k as real == 0.5) ==> k % 2 == 0
    ensures k == RoundHalfEven(y)
  {
  }

  /** `np.round(x, 3)`, as a count of thousandths. */
  function Thousandths(x: real): int
  {
    RoundHalfEven(x * 1000.0)
  }

  /** The value of a count of thousandths. */
  function Value(k: int): real
  {
    k as real / 1000.0
  }

  /** Rounding moves a value by at most half a thousandth. */
  lemma RoundingError(x: real)
    ensures -0.0005 <= Value(Thousandths(x)) - x <= 0.0005
  {
  }

  /** Rounding an already rounded value changes nothing. */
  lemma RoundingIdempotent(x: real)
    ensures Thousandths(Value(Thousandths(x))) == Thousandths(x)
  {
    var k := Thousandths(x);
    assert Value(k) * 1000.0 == k as real;
    RoundHalfEvenUnique(Value(k) * 1000.0, k);
  }

  /** A value at or above a multiple of a thousandth rounds to at least that multiple. */
  lemma RoundingKeepsLowerBound(x: real, k: int)
    requires Value(k) <= x
    ensures k <= Thousandths(x)
  {
    assert k as real <= x * 1000.0;
  }

  // ---- decimal digits ----

  predicate IsDigit(c: char)
  {
    '0' <= c <= '9'
  }

  predicate AllDigits(s: string)
  {
    forall i :: 0 <= i < |s| ==> IsDigit(s[i])
  }

  function DigitValue(c: char): nat
    requires IsDigit(c)
  {
    c as int - '0' as int
  }

  function DigitChar(d: nat): (c: char)
    requires d < 10
    ensures IsDigit(c) && DigitValue(c) == d
  {
    ('0' as int + d) as char
  }

  /** The decimal numeral of n, without leading zeros. */
  function NatToString(n: nat): (s: string)
    ensures 1 <= |s| && AllDigits(s)
    decreases n
  {
    if n < 10 then [DigitChar(n)] else NatToString(n / 10) + [DigitChar(n % 10)]
  }

  /** The number a numeral denotes. */
  function StringToNat(s: string): nat
    requires AllDigits(s)
  {
    if s == [] then 0 else StringToNat(s[..|s| - 1]) * 10 + DigitValue(s[|s| - 1])
  }

  lemma {:induction false} NatToStringRoundTrip(n: nat)
    ensures StringToNat(NatToString(n)) == n
    decreases n
  {
    var s := NatToString(n);
    if n >= 10 {
      NatToStringRoundTrip(n / 10);
      assert s[..|s| - 1] == NatToString(n / 10);
    }
  }

  /**
    The digits after the decimal point of a fraction of r thousandths, as
    Python's shortest float text writes them: trailing zeros dropped, but at
    least one digit.
  */
  function FractionDigits(r: nat): (s: string)
    requires r < 1000
    ensures 1 <= |s| <= 3 && AllDigits(s)
    ensures |s| > 1 ==> s[|s| - 1] != '0'
  {
    var d1, d2, d3 := r / 100, r / 10 % 10, r % 10;
    if r % 100 == 0 then [DigitChar(d1)]
    else if r % 10 == 0 then [DigitChar(d1), DigitChar(d2)]
    else [DigitChar(d1), DigitChar(d2), DigitChar(d3)]
  }

  /** The number of thousandths that one to three digits after a decimal point denote. */
  function FractionValue(s: string): nat
    requires 1 <= |s| <= 3 && AllDigits(s)
  {
    DigitValue(s[0]) * 100
    + (if |s| > 1 then DigitValue(s[1]) * 10 else 0)
    + (if |s| > 2 then DigitValue(s[2]) else 0)
  }

  lemma FractionRoundTrip(r: nat)
    requires r < 1000
    ensures FractionValue(FractionDigits(r)) == r
  {
    var d1, d2, d3 := r / 100, r / 10 % 10, r % 10;
    assert r == d1 * 100 + d2 * 10 + d3;
  }

  /**
    The text of a value of k thousandths, as `str` of a Python float writes it:
    an optional minus sign, the integer part, a point and the fraction digits.
  */
  function FormatThousandths(k: int): (s: string)
    ensures '_' !in s
  {
    var digits := NatToString(Abs(k) / 1000) + "." + FractionDigits(Abs(k) % 1000);
    assert forall i :: 0 <= i < |digits| ==> digits[i] == '.' || IsDigit(digits[i]);
    if k < 0 then "-" + digits else digits
  }

  /** The position of the first c in s, if any. */
  function IndexOf(s: string, c: char): (r: Option<nat>)
    ensures r.Some? ==> r.value < |s| && s[r.value] == c && c !in s[..r.value]
    ensures r.None? ==> c !in s
  {
    if s == [] then None
    else if s[0] == c then Some(0)
    else match IndexOf(s[1..], c)
      case None => None
      case Some(p) =>
        assert s[..p + 1] == [s[0]] + s[1..][..p];
        Some(p + 1)
  }

  /** Reads the text of an unsigned value with one to three fraction digits. */
  function ParseUnsigned(s: string): Option<nat>
  {
    match IndexOf(s, '.')
    case None => None
    case Some(p) =>
      var whole, fraction := s[..p], s[p + 1..];
      if whole != [] && AllDigits(whole) && 1 <= |fraction| <= 3 && AllDigits(fraction)
      then Some(StringToNat(whole) * 1000 + FractionValue(fraction))
      else None
  }

  /** Reads back the text that FormatThousandths writes. */
  function ParseThousandths(s: string): Option<int>
  {
    if |s| > 0 && s[0] == '-' then
      match ParseUnsigned(s[1..])
      case None => None
      case Some(v) => Some(-(v as int))
    else
      match ParseUnsigned(s)
      case None => None
      case Some(v) => Some(v)
  }

  /** The first c in a + [c] + b is the one after a, when a holds none. */
  lemma {:induction false} IndexOfAfter(a: string, c: char, b: string)
    requires c !in a
    ensures IndexOf(a + [c] + b, c) == Some(|a|)
  {
    if a != [] {
      assert (a + [c] + b)[1..] == a[1..] + [c] + b;
      IndexOfAfter(a[1..], c, b);
    }
  }

  lemma UnsignedRoundTrip(n: nat)
    ensures ParseUnsigned(NatToString(n / 1000) + "." + FractionDigits(n % 1000)) == Some(n)
  {
    var whole, fraction := NatToString(n / 1000), FractionDigits(n % 1000);
    var s := whole + "." + fraction;
    assert '.' !in whole by {
      forall i | 0 <= i < |whole| ensures whole[i] != '.' {
        assert IsDigit(whole[i]);
      }
    }
    IndexOfAfter(whole, '.', fraction);
    assert s[..|whole|] == whole;
    assert s[|whole| + 1..] == fraction;
    NatToStringRoundTrip(n / 1000);
    FractionRoundTrip(n % 1000);
  }

  /** Every value's text reads back as that value. */
  lemma FormatRoundTrip(k: int)
    ensures ParseThousandths(FormatThousandths(k)) == Some(k)
  {
    var n := Abs(k);
    var digits := NatToString(n / 1000) + "." + FractionDigits(n % 1000);
    UnsignedRoundTrip(n);
    if k < 0 {
      assert ("-" + digits)[1..] == digits;
    } else {
      assert digits[0] == NatToString(n / 1000)[0];
      assert IsDigit(digits[0]);
    }
  }

  /** Two different values never share a text. */
  lemma FormatInjective(k1: int, k2: int)
    ensures FormatThousandths(k1) == FormatThousandths(k2) <==> k1 == k2
  {
    FormatRoundTrip(k1);
    FormatRoundTrip(k2);
  }
}
