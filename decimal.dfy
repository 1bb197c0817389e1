/**
 * Decimal text of integers, as Go's fmt prints them (%d, %v, fmt.Sprint) and as
 * strconv.ParseInt(s, 10, 64) reads them back.
 */
module Decimal {
  import opened Base

  predicate IsDigit(c: char) {
    '0' <= c <= '9'
  }

  predicate AllDigits(s: string) {
    forall i :: 0 <= i < |s| ==> IsDigit(s[i])
  }

  function DigitChar(d: nat): (c: char)
    requires d < 10
    ensures IsDigit(c)
  {
    (('0' as int) + d) as char
  }

  function DigitValue(c: char): (d: nat)
    requires IsDigit(c)
    ensures d < 10
  {
    (c as int) - ('0' as int)
  }

  /** The digits of n, most significant first, with no leading zero. */
  function NatDigits(n: nat): (s: string)
    ensures |s| > 0 && AllDigits(s)
    ensures |s| > 1 ==> s[0] != '0'
  {
    if n < 10 then [DigitChar(n)] else NatDigits(n / 10) + [DigitChar(n % 10)]
  }

  /** The value of a run of decimal digits. */
  function DigitsValue(s: string): nat
    requires AllDigits(s)
  {
    if s == [] then 0 else 10 * DigitsValue(s[..|s| - 1]) + DigitValue(s[|s| - 1])
  }

  /** An integer in base 10: a minus sign for negative values, then its digits. */
  function Format(x: int): (s: string)
    ensures |s| > 0 && s[0] != '+'
    ensures x < 0 <==> s[0] == '-'
    ensures forall i :: 0 < i < |s| ==> IsDigit(s[i])
  {
    if x < 0 then "-" + NatDigits(-x) else NatDigits(x)
  }

  /** The text after an optional leading '+' or '-'. */
  function Unsigned(s: string): (u: string)
    ensures |u| <= |s| && u == s[|s| - |u|..]
  {
    if |s| > 0 && (s[0] == '+' || s[0] == '-') then s[1..] else s
  }

  /** An optional sign followed by one or more decimal digits. */
  predicate IsSignedDecimal(s: string) {
    |Unsigned(s)| > 0 && AllDigits(Unsigned(s))
  }

  /** The integer a signed decimal text denotes. */
  function SignedValue(s: string): int
    requires IsSignedDecimal(s)
  {
    if s[0] == '-' then -(DigitsValue(Unsigned(s)) as int) else DigitsValue(Unsigned(s)) as int
  }

  /**
   * strconv.ParseInt(s, 10, 64): an optional '+' or '-', then one or more
   * decimal digits (leading zeros allowed, no underscores in base 10), whose
   * value must lie in the int64 range. Syntax and range errors are both None.
   */
  function ParseInt64(s: string): (r: Option<Int64>)
    ensures r.Some? <==> IsSignedDecimal(s) && MinInt64 <= SignedValue(s) <= MaxInt64
    ensures r.Some? ==> r.value == SignedValue(s)
    // implied by the first clause; stated on its own it keeps proofs about parsed text cheap
    ensures r.Some? ==> |s| > 0 && forall i :: 0 <= i < |s| ==> IsDigit(s[i]) || (i == 0 && (s[0] == '+' || s[0] == '-'))
  {
    if |s| == 0 then None
    else
      var neg := s[0] == '-';
      var body := if s[0] == '+' || s[0] == '-' then s[1..] else s;
      if |body| == 0 || !AllDigits(body) then None
      else
        var v := if neg then -(DigitsValue(body) as int) else DigitsValue(body) as int;
        if MinInt64 <= v <= MaxInt64 then Some(v) else None
  }

  /** z zero digits. */
  function Zeros(z: nat): (s: string)
    ensures |s| == z && forall i :: 0 <= i < z ==> s[i] == '0'
  {
    seq(z, _ => '0')
  }

  /** Leading zeros do not change the value of a run of digits. */
  lemma {:induction false} LeadingZeros(z: nat, t: string)
    requires AllDigits(t)
    ensures AllDigits(Zeros(z) + t)
    ensures DigitsValue(Zeros(z) + t) == DigitsValue(t)
    decreases |t|, z
  {
    var zs := Zeros(z);
    var s := zs + t;
    if t == [] {
      assert s == zs;
      if z > 0 {
        LeadingZeros(z - 1, []);
        assert s[..|s| - 1] == Zeros(z - 1) + [];
      }
    } else {
      LeadingZeros(z, t[..|t| - 1]);
      assert s[..|s| - 1] == zs + t[..|t| - 1];
    }
  }

  /**
   * Text strconv.ParseInt accepts besides the canonical form: a '+' sign,
   * leading zeros and a minus sign before zero, so "+5" and "007" read as 5
   * and 7, and "-0" as 0.
   */
  lemma ParseNonCanonical(sign: string, z: nat, x: Int64)
    requires x >= 0 && (sign == "" || sign == "+" || sign == "-")
    ensures ParseInt64(sign + Zeros(z) + Format(x)) == Some(if sign == "-" then -x else x)
  {
    var t := Zeros(z) + Format(x);
    assert AllDigits(t) && DigitsValue(t) == x by {
      LeadingZeros(z, Format(x));
      DigitsOfNat(x);
    }
    assert sign + Zeros(z) + Format(x) == sign + t;
    ParseDigits(t, sign, if sign == "-" then -x else x);
  }

  lemma ParseDigits(t: string, sign: string, v: Int64)
    requires |t| > 0 && AllDigits(t) && (sign == "" || sign == "+" || sign == "-")
    requires v == if sign == "-" then -(DigitsValue(t) as int) else DigitsValue(t) as int
    ensures ParseInt64(sign + t) == Some(v)
  {
    var s := sign + t;
    if sign == "" {
      assert s == t && IsDigit(s[0]);
    } else {
      assert s[1..] == t;
    }
    assert Unsigned(s) == t;
  }

  lemma {:induction false} DigitsOfNat(n: nat)
    ensures DigitsValue(NatDigits(n)) == n
  {
    if n >= 10 {
      var s := NatDigits(n);
      DigitsOfNat(n / 10);
      assert s[..|s| - 1] == NatDigits(n / 10);
    }
  }

  /** Printing an int64 and parsing it back gives the same value. */
  lemma ParseFormat(x: Int64)
    ensures ParseInt64(Format(x)) == Some(x)
  {
    var s := Format(x);
    if x < 0 {
      DigitsOfNat(-(x as int));
      assert s[1..] == NatDigits(-(x as int));
    } else {
      DigitsOfNat(x);
    }
  }

  /** Two int64 values with the same decimal text are equal. */
  lemma FormatInjective(x: Int64, y: Int64)
    requires Format(x) == Format(y)
    ensures x == y
  {
    ParseFormat(x);
    ParseFormat(y);
  }
}
