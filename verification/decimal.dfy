/**
  Decimal rendering of natural numbers, as `Number.prototype.toString()`
  produces it for a non-negative integer with radix 10, together with its
  inverse and the digit-level facts the badge formatter relies on.
 */
module Decimal {

  predicate IsDigit(c: char) {
    '0' <= c <= '9'
  }

  /** A non-empty string of decimal digits. */
  predicate IsDecimal(s: string) {
    |s| >= 1 && forall i :: 0 <= i < |s| ==> IsDigit(s[i])
  }

  /** The shape `toString()` produces: digits only, no leading zero except "0" itself. */
  predicate IsCanonical(s: string) {
    IsDecimal(s) && (|s| > 1 ==> s[0] != '0')
  }

  function DigitChar(d: nat): (c: char)
    requires d < 10
    ensures IsDigit(c)
    ensures DigitValue(c) == d
  {
    (48 + d) as char
  }

  function DigitValue(c: char): (d: nat)
    requires IsDigit(c)
    ensures d < 10
  {
    c as int - 48
  }

  function Pow10(k: nat): (p: nat)
    ensures p >= 1
  {
    if k == 0 then 1 else 10 * Pow10(k - 1)
  }

  /** The decimal numeral of `n`, most significant digit first. */
  function NatToString(n: nat): (s: string)
    ensures IsCanonical(s)
    ensures s[|s| - 1] == DigitChar(n % 10)
    ensures |s| == 1 <==> n < 10
    decreases n
  {
    if n < 10 then [DigitChar(n)] else NatToString(n / 10) + [DigitChar(n % 10)]
  }

  /** The value of a string of decimal digits (leading zeros allowed). */
  function StringToNat(s: string): nat
    requires forall i :: 0 <= i < |s| ==> IsDigit(s[i])
    decreases |s|
  {
    if |s| == 0 then 0 else 10 * StringToNat(s[..|s| - 1]) + DigitValue(s[|s| - 1])
  }

  /** Reading back a rendered numeral gives the number. */
  lemma {:induction false} StringToNatOfNatToString(n: nat)
    ensures StringToNat(NatToString(n)) == n
    decreases n
  {
    var s := NatToString(n);
    if n >= 10 {
      StringToNatOfNatToString(n / 10);
      assert s[..|s| - 1] == NatToString(n / 10);
    }
  }

  /** A value is at least its leading digit. */
  lemma {:induction false} StringToNatAtLeastLead(s: string)
    requires IsDecimal(s)
    ensures StringToNat(s) >= DigitValue(s[0])
    decreases |s|
  {
    if |s| > 1 {
      var t := s[..|s| - 1];
      assert t[0] == s[0];
      StringToNatAtLeastLead(t);
    }
  }

  /** Rendering the value of a canonical numeral gives the numeral back. */
  lemma {:induction false} NatToStringOfStringToNat(s: string)
    requires IsCanonical(s)
    ensures NatToString(StringToNat(s)) == s
    decreases |s|
  {
    var n := StringToNat(s);
    var c := s[|s| - 1];
    if |s| == 1 {
      assert s[..|s| - 1] == [];
      assert n == 10 * StringToNat(s[..|s| - 1]) + DigitValue(c);
      assert DigitChar(DigitValue(c)) == c;
    } else {
      var t := s[..|s| - 1];
      assert t[0] == s[0];
      StringToNatAtLeastLead(t);
      NatToStringOfStringToNat(t);
      var m := StringToNat(t);
      assert m >= 1;
      assert n / 10 == m && n % 10 == DigitValue(c);
      assert DigitChar(DigitValue(c)) == c;
      assert s == t + [c];
    }
  }

  /** `n` with its `k` lowest decimal digits dropped. */
  function DropDigits(n: nat, k: nat): nat
    decreases k
  {
    if k == 0 then n else DropDigits(n / 10, k - 1)
  }

  /** Cutting the last `k` characters off a numeral drops `k` digits of its value. */
  lemma {:induction false} PrefixIsDropDigits(n: nat, k: nat)
    requires k < |NatToString(n)|
    ensures NatToString(n)[..|NatToString(n)| - k] == NatToString(DropDigits(n, k))
    decreases k
  {
    var s := NatToString(n);
    if k > 0 {
      var t := NatToString(n / 10);
      assert s == t + [DigitChar(n % 10)];
      PrefixIsDropDigits(n / 10, k - 1);
      assert s[..|s| - k] == t[..|t| - (k - 1)];
    }
  }

  /** A number in `[10^k, 10^(k+1))` has exactly `k + 1` digits. */
  lemma {:induction false} LengthOfNatToString(n: nat, k: nat)
    requires Pow10(k) <= n < Pow10(k + 1)
    ensures |NatToString(n)| == k + 1
    decreases k
  {
    if k > 0 {
      LengthOfNatToString(n / 10, k - 1);
    }
  }

  /** A number below `10^k` has at most `k` digits. */
  lemma {:induction false} LengthAtMost(n: nat, k: nat)
    requires 1 <= k && n < Pow10(k)
    ensures |NatToString(n)| <= k
    decreases k
  {
    if n >= 10 {
      LengthAtMost(n / 10, k - 1);
    }
  }

  /** A number at least `10^k` has more than `k` digits. */
  lemma {:induction false} LengthAtLeast(n: nat, k: nat)
    requires Pow10(k) <= n
    ensures |NatToString(n)| > k
    decreases k
  {
    if k > 0 {
      LengthAtLeast(n / 10, k - 1);
    }
  }
}
