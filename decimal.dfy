/**
  Decimal conversions the parser takes from Go's `strconv` package:
  `strconv.FormatInt(i, 10)` and `strconv.ParseInt(s, 10, 64)`.
  Integers are unbounded here; the 64-bit range checks are not modelled.
*/
module Decimal {
  import opened Wrappers
  import opened Text

  function DigitChar(d: nat): (c: char)
    requires d < 10
    ensures IsDigit(c)
  {
    ('0' as int + d) as char
  }

  function DigitValue(c: char): (d: nat)
    requires IsDigit(c)
    ensures d < 10 && DigitChar(d) == c
  {
    c as int - '0' as int
  }

  /** The base-10 digits of `n`, most significant first, with no leading zero. */
  function FormatNat(n: nat): (s: string)
    ensures |s| >= 1 && AllDigits(s)
    ensures s[0] == '0' ==> n == 0 && s == "0"
    decreases n
  {
    if n < 10 then [DigitChar(n)] else FormatNat(n / 10) + [DigitChar(n % 10)]
  }

  /** strconv.FormatInt(n, 10): a minus sign before the digits of a negative number. */
  function FormatInt(n: int): (s: string)
    ensures |s| >= 1
    ensures n >= 0 <==> AllDigits(s)
    ensures n >= 0 ==> (s[0] == '0' ==> n == 0)
    ensures n < 0 ==> |s| >= 2 && s[0] == '-' && AllDigits(s[1..]) && s[1] != '0'
  {
    if n < 0 then
      var s := "-" + FormatNat(-n);
      assert !IsDigit(s[0]);
      s
    else FormatNat(n)
  }

  /** The number a non-empty string of digits denotes (leading zeros allowed). */
  function DigitsValue(s: string): nat
    requires AllDigits(s)
  {
    if |s| == 0 then 0 else DigitsValue(s[..|s| - 1]) * 10 + DigitValue(s[|s| - 1])
  }

  /** strconv's base-10 syntax: an optional sign, then one or more digits. */
  predicate IsDecimal(s: string) {
    if |s| > 0 && (s[0] == '+' || s[0] == '-') then |s| > 1 && AllDigits(s[1..])
    else |s| > 0 && AllDigits(s)
  }

  /**
    strconv.ParseInt(s, 10, 64) without its 64-bit range check: `None` stands for the
    syntax error, `Some(n)` for the value.
  */
  function ParseInt(s: string): (r: Option<int>)
    ensures r.Some? <==> IsDecimal(s)
  {
    if |s| > 0 && (s[0] == '+' || s[0] == '-') then
      var digits := s[1..];
      if |digits| > 0 && AllDigits(digits) then
        var magnitude: int := DigitsValue(digits);
        Some(if s[0] == '-' then -magnitude else magnitude)
      else None
    else if |s| > 0 && AllDigits(s) then Some(DigitsValue(s))
    else None
  }

  /** Reading back the digits of `n` gives `n`. */
  lemma {:induction false} DigitsValueFormatNat(n: nat)
    ensures DigitsValue(FormatNat(n)) == n
    decreases n
  {
    if n >= 10 {
      DigitsValueFormatNat(n / 10);
      var s := FormatNat(n);
      assert s[..|s| - 1] == FormatNat(n / 10);
    }
  }

  /** ParseInt inverts FormatInt for every integer. */
  lemma ParseFormat(n: int)
    ensures ParseInt(FormatInt(n)) == Some(n)
  {
    if n < 0 {
      ParseNegative(-n);
    } else {
      var s := FormatNat(n);
      DigitsValueFormatNat(n);
      assert s[0] != '+' && s[0] != '-';
    }
  }

  lemma ParseNegative(m: nat)
    requires m > 0
    ensures ParseInt("-" + FormatNat(m)) == Some(-(m as int))
  {
    var digits := FormatNat(m);
    DigitsValueFormatNat(m);
    var s := "-" + digits;
    assert s[0] == '-' && s[1..] == digits;
    assert ParseInt(s) == Some(0 - DigitsValue(digits));
  }

  /** A run of `0` characters, possibly empty. */
  predicate AllZeros(z: string) {
    forall i | 0 <= i < |z| :: z[i] == '0'
  }

  /** A run of zeros denotes 0. */
  lemma {:induction false} DigitsValueZeros(z: string)
    requires AllZeros(z)
    ensures AllDigits(z) && DigitsValue(z) == 0
    decreases |z|
  {
    if |z| > 0 {
      DigitsValueZeros(z[..|z| - 1]);
    }
  }

  /** Zeros in front of a digit string do not change the number it denotes. */
  lemma {:induction false} DigitsValueLeadingZeros(z: string, s: string)
    requires AllZeros(z) && AllDigits(s)
    ensures AllDigits(z + s) && DigitsValue(z + s) == DigitsValue(s)
    decreases |s|
  {
    forall i | 0 <= i < |z + s|
      ensures IsDigit((z + s)[i])
    {
      if i >= |z| {
        assert (z + s)[i] == s[i - |z|];
      }
    }
    if |s| == 0 {
      assert z + s == z;
      DigitsValueZeros(z);
    } else {
      var front := s[..|s| - 1];
      DigitsValueLeadingZeros(z, front);
      assert (z + s)[..|z + s| - 1] == z + front;
      assert (z + s)[|z + s| - 1] == s[|s| - 1];
    }
  }

  /** strconv.ParseInt reads a string of digits, leading zeros included, as the number it denotes. */
  lemma ParseDigits(s: string)
    requires |s| > 0 && AllDigits(s)
    ensures ParseInt(s) == Some(DigitsValue(s))
  {
    assert IsDigit(s[0]);
  }

  /** With or without a sign, zeros in front of the digits of n leave the value n. */
  lemma ParseLeadingZeros(z: string, n: nat)
    requires AllZeros(z)
    ensures ParseInt(z + FormatNat(n)) == Some(n)
    ensures ParseInt("+" + z + FormatNat(n)) == Some(n)
    ensures ParseInt("-" + z + FormatNat(n)) == Some(-(n as int))
  {
    var d := z + FormatNat(n);
    DigitsValueLeadingZeros(z, FormatNat(n));
    DigitsValueFormatNat(n);
    ParseDigits(d);
    SignedDigits('+', d);
    SignedDigits('-', d);
    assert "+" + z + FormatNat(n) == ['+'] + d;
    assert "-" + z + FormatNat(n) == ['-'] + d;
  }

  /** A sign in front of a digit string applies to the number the digits denote. */
  lemma SignedDigits(sign: char, d: string)
    requires sign == '+' || sign == '-'
    requires |d| > 0 && AllDigits(d)
    ensures ParseInt([sign] + d) == Some(if sign == '-' then -(DigitsValue(d) as int) else DigitsValue(d))
  {
    assert ([sign] + d)[1..] == d;
  }

  /**
    FormatNat inverts the digit reading on canonical digit strings (no leading zero
    unless the string is "0"): the strings FormatNat produces are exactly those.
  */
  lemma {:induction false} FormatNatDigitsValue(s: string)
    requires |s| >= 1 && AllDigits(s)
    requires s[0] == '0' ==> |s| == 1
    ensures FormatNat(DigitsValue(s)) == s
    decreases |s|
  {
    var n := DigitsValue(s);
    if |s| == 1 {
      assert s[..0] == [];
    } else {
      var front := s[..|s| - 1];
      FormatNatDigitsValue(front);
      DigitsValuePositive(front);
      assert n / 10 == DigitsValue(front);
      assert n % 10 == DigitValue(s[|s| - 1]);
      assert s == front + [s[|s| - 1]];
    }
  }

  /** A canonical digit string of two or more digits denotes a number of at least 1. */
  lemma {:induction false} DigitsValuePositive(s: string)
    requires |s| >= 1 && AllDigits(s) && s[0] != '0'
    ensures DigitsValue(s) >= 1
    decreases |s|
  {
    if |s| > 1 {
      DigitsValuePositive(s[..|s| - 1]);
    } else {
      assert DigitValue(s[0]) != 0;
    }
  }
}
