/**
 * Row identifiers: `"FHA-" + f"{n:03d}"` (the decimal number zero-padded to at
 * least three digits), and the way the desktop model reads a number back out
 * of an identifier when it loads a table (drop every non-digit, then read the
 * rest as a decimal number; no digits at all means no number).
 */
module Ids {
  import opened Wrappers

  predicate IsDigit(c: char)
  {
    '0' <= c <= '9'
  }

  predicate AllDigits(s: string)
  {
    forall i :: 0 <= i < |s| ==> IsDigit(s[i])
  }

  function DigitChar(d: nat): (c: char)
    requires d < 10
    ensures IsDigit(c)
  {
    (d + '0' as int) as char
  }

  function DigitValue(c: char): nat
    requires IsDigit(c)
  {
    c as int - '0' as int
  }

  /** The decimal notation of `n`, no leading zeros (`str(n)`). */
  function DecimalDigits(n: nat): (s: string)
    ensures |s| >= 1 && AllDigits(s)
    ensures n < 10 <==> |s| == 1
  {
    if n < 10 then [DigitChar(n)] else DecimalDigits(n / 10) + [DigitChar(n % 10)]
  }

  /** The value of a string of decimal digits; leading zeros count for nothing. */
  function DecimalValue(s: string): nat
    requires AllDigits(s)
  {
    if s == [] then 0 else DecimalValue(s[..|s| - 1]) * 10 + DigitValue(s[|s| - 1])
  }

  function Zeros(k: nat): (s: string)
    ensures |s| == k && AllDigits(s)
  {
    if k == 0 then [] else ['0'] + Zeros(k - 1)
  }

  /** `f"{n:03d}"`: the decimal notation of `n`, left-padded with zeros to three characters. */
  function Pad3(n: nat): (s: string)
    ensures AllDigits(s)
    ensures |s| == (if n < 1000 then 3 else |DecimalDigits(n)|)
  {
    var d := DecimalDigits(n);
    DecimalDigitsLength(n);
    if |d| >= 3 then d else Zeros(3 - |d|) + d
  }

  const IdPrefix := "FHA-"

  /** The identifier of the row at position `n - 1`. */
  function FormatId(n: nat): string
  {
    IdPrefix + Pad3(n)
  }

  /** `re.sub(r'\D', '', s)`: the digits of `s`, in order. */
  function DigitsOnly(s: string): (d: string)
    ensures AllDigits(d) && |d| <= |s|
  {
    if s == [] then []
    else if IsDigit(s[0]) then [s[0]] + DigitsOnly(s[1..])
    else DigitsOnly(s[1..])
  }

  /**
   * The number a loaded identifier carries: the digits it contains read as a
   * decimal number, or nothing when it contains no digit (`to_numeric` of an
   * empty string is NaN and is dropped).
   */
  function IdNumber(id: string): (r: Option<nat>)
    ensures r.None? <==> forall i :: 0 <= i < |id| ==> !IsDigit(id[i])
  {
    var d := DigitsOnly(id);
    DigitsOnlyEmpty(id);
    if d == [] then None else Some(DecimalValue(d))
  }

  // ---------------------------------------------------------------------------
  // Lemmas
  // ---------------------------------------------------------------------------

  lemma {:induction false} DecimalDigitsLength(n: nat)
    ensures n < 1000 ==> |DecimalDigits(n)| <= 3
    ensures n >= 1000 ==> |DecimalDigits(n)| >= 4
  {
    if n >= 10 { DecimalDigitsLength(n / 10); }
  }

  lemma {:induction false} DigitsOnlyEmpty(s: string)
    ensures DigitsOnly(s) == [] <==> forall i :: 0 <= i < |s| ==> !IsDigit(s[i])
  {
    if s != [] {
      DigitsOnlyEmpty(s[1..]);
      assert forall i :: 1 <= i < |s| ==> s[i] == s[1..][i - 1];
    }
  }

  /** Reading the decimal notation of `n` gives back `n`. */
  lemma {:induction false} DecimalRoundTrip(n: nat)
    ensures DecimalValue(DecimalDigits(n)) == n
  {
    if n >= 10 {
      var d := DecimalDigits(n / 10) + [DigitChar(n % 10)];
      assert d[..|d| - 1] == DecimalDigits(n / 10);
      DecimalRoundTrip(n / 10);
    }
  }

  /** Leading zeros do not change the value of a digit string. */
  lemma {:induction false} LeadingZerosIgnored(k: nat, s: string)
    requires AllDigits(s)
    ensures DecimalValue(Zeros(k) + s) == DecimalValue(s)
  {
    if s == [] {
      assert Zeros(k) + s == Zeros(k);
      ZerosValue(k);
    } else {
      var t := Zeros(k) + s;
      assert t[..|t| - 1] == Zeros(k) + s[..|s| - 1];
      LeadingZerosIgnored(k, s[..|s| - 1]);
    }
  }

  lemma {:induction false} ZerosValue(k: nat)
    ensures DecimalValue(Zeros(k)) == 0
  {
    if k > 0 {
      assert Zeros(k) == Zeros(k - 1) + ['0'] by { ZerosSnoc(k); }
      assert Zeros(k)[..k - 1] == Zeros(k - 1);
      ZerosValue(k - 1);
    }
  }

  lemma {:induction false} ZerosSnoc(k: nat)
    requires k > 0
    ensures Zeros(k) == Zeros(k - 1) + ['0']
  {
    if k > 1 { ZerosSnoc(k - 1); }
  }

  lemma {:induction false} DigitsOnlyOfDigits(s: string)
    requires AllDigits(s)
    ensures DigitsOnly(s) == s
  {
    if s != [] { DigitsOnlyOfDigits(s[1..]); }
  }

  lemma {:induction false} DigitsOnlyConcat(a: string, b: string)
    ensures DigitsOnly(a + b) == DigitsOnly(a) + DigitsOnly(b)
  {
    if a != [] {
      assert (a + b)[1..] == a[1..] + b;
      DigitsOnlyConcat(a[1..], b);
    } else {
      assert a + b == b;
    }
  }

  /** The padded number reads back as the number. */
  lemma {:induction false} Pad3RoundTrip(n: nat)
    ensures DecimalValue(Pad3(n)) == n
  {
    var d := DecimalDigits(n);
    DecimalRoundTrip(n);
    if |d| < 3 { LeadingZerosIgnored(3 - |d|, d); }
  }

  /**
   * The number read back out of a generated identifier is the number it was
   * generated from: dropping the non-digits of "FHA-" + pad3(n) leaves pad3(n).
   */
  lemma {:induction false} IdNumberRoundTrip(n: nat)
    ensures IdNumber(FormatId(n)) == Some(n)
  {
    DigitsOnlyConcat(IdPrefix, Pad3(n));
    assert DigitsOnly(IdPrefix) == [] by {
      assert !IsDigit(IdPrefix[0]) && !IsDigit(IdPrefix[1]) && !IsDigit(IdPrefix[2]) && !IsDigit(IdPrefix[3]);
      DigitsOnlyEmpty(IdPrefix);
    }
    DigitsOnlyOfDigits(Pad3(n));
    assert DigitsOnly(FormatId(n)) == Pad3(n);
    Pad3RoundTrip(n);
  }

  /** Different numbers give different identifiers. */
  lemma {:induction false} FormatIdInjective(a: nat, b: nat)
    requires FormatId(a) == FormatId(b)
    ensures a == b
  {
    IdNumberRoundTrip(a);
    IdNumberRoundTrip(b);
  }

  /** Below 1000 an identifier is exactly seven characters; from 1000 on it grows. */
  lemma {:induction false} FormatIdLength(n: nat)
    ensures n < 1000 ==> |FormatId(n)| == 7
    ensures n >= 1000 ==> |FormatId(n)| >= 8
  {
    DecimalDigitsLength(n);
  }
}
