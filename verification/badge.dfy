/**
  The request-count label of `updateBadgeCallback` (js/async.js): a count
  becomes its decimal numeral below 1000 and a short `K`/`M` label above,
  cut out of the numeral with `slice`, so digits are dropped, never rounded.
 */
module Badge {
  import opened Wrappers
  import opened Decimal
  import opened JsString

  /** The label shown on the extension icon for `count` requests. */
  function FormatBadge(count: nat): string {
    var countStr := NatToString(count);
    if count >= 1000 then
      if count < 10000 then
        Slice(countStr, 0, 1) + "." + Slice(countStr, 1, -2) + "K"
      else if count < 1000000 then
        Slice(countStr, 0, -3) + "K"
      else if count < 10000000 then
        Slice(countStr, 0, 1) + "." + Slice(countStr, 1, -5) + "M"
      else
        Slice(countStr, 0, -6) + "M"
    else
      countStr
  }

  /** The place value of the last digit a label for `count` shows. */
  function Granularity(count: nat): (g: nat)
    ensures g >= 1
  {
    if count < 1000 then 1
    else if count < 10000 then 100
    else if count < 1000000 then 1000
    else if count < 10000000 then 100000
    else 1000000
  }

  /** The number a label stands for, read back: a plain numeral, or a
      `d.d` or integer mantissa scaled by its `K` (10^3) or `M` (10^6) suffix. */
  function ParseBadge(badge: string): Option<nat> {
    if |badge| == 0 then None
    else
      var last := badge[|badge| - 1];
      if last == 'K' || last == 'M' then
        var scale: nat := if last == 'K' then 1000 else 1000000;
        var mantissa := badge[..|badge| - 1];
        if |mantissa| == 3 && IsDigit(mantissa[0]) && mantissa[1] == '.' && IsDigit(mantissa[2]) then
          Some((10 * DigitValue(mantissa[0]) + DigitValue(mantissa[2])) * (scale / 10))
        else if IsDecimal(mantissa) then
          Some(StringToNat(mantissa) * scale)
        else
          None
      else if IsDecimal(badge) then
        Some(StringToNat(badge))
      else
        None
  }

  /** The two leading characters of the numeral of a number with `k + 2` digits. */
  lemma LeadingDigits(n: nat, k: nat)
    requires Pow10(k + 1) <= n < Pow10(k + 2)
    ensures var s := NatToString(n);
      |s| == k + 2
      && 1 <= DropDigits(n, k + 1) < 10
      && s[0] == DigitChar(DropDigits(n, k + 1))
      && s[1] == DigitChar(DropDigits(n, k) % 10)
      && DropDigits(n, k) == 10 * DropDigits(n, k + 1) + DropDigits(n, k) % 10
  {
    var s := NatToString(n);
    LengthOfNatToString(n, k + 1);
    PrefixIsDropDigits(n, k + 1);
    PrefixIsDropDigits(n, k);
    DropDigitsStep(n, k);
    DropDigitsBound(n, k + 1);
    var hi := DropDigits(n, k + 1);
    var two := DropDigits(n, k);
    assert s[..1] == NatToString(hi);
    assert s[..2] == NatToString(two);
    assert two >= 10;
    assert NatToString(two) == NatToString(two / 10) + [DigitChar(two % 10)];
    assert s[0] == s[..1][0];
    assert s[1] == s[..2][1];
  }

  lemma {:induction false} DropDigitsStep(n: nat, k: nat)
    ensures DropDigits(n, k + 1) == DropDigits(n, k) / 10
    decreases k
  {
    if k > 0 {
      DropDigitsStep(n / 10, k - 1);
    }
  }

  /** Dropping `k` digits maps `[10^k, 10^(k+1))` onto the single digits 1..9. */
  lemma {:induction false} DropDigitsBound(n: nat, k: nat)
    requires Pow10(k) <= n < Pow10(k + 1)
    ensures 1 <= DropDigits(n, k) < 10
    decreases k
  {
    if k > 0 {
      DropDigitsBound(n / 10, k - 1);
    }
  }

  lemma DropThree(n: nat)
    ensures DropDigits(n, 2) == n / 100 && DropDigits(n, 3) == n / 1000
  {
    assert DropDigits(n, 3) == DropDigits(n / 10, 2) == DropDigits(n / 10 / 10, 1) == n / 10 / 10 / 10;
  }

  lemma DropSix(n: nat)
    ensures DropDigits(n, 5) == n / 100000 && DropDigits(n, 6) == n / 1000000
  {
    var n3 := n / 10 / 10 / 10;
    assert DropDigits(n, 3) == n3 by { DropThree(n); }
    assert DropDigits(n, 6) == DropDigits(n3, 3) by { DropOver(n, 3, 3); }
    assert DropDigits(n, 5) == DropDigits(n3, 2) by { DropOver(n, 3, 2); }
    DropThree(n3);
  }

  lemma {:induction false} DropOver(n: nat, j: nat, k: nat)
    ensures DropDigits(n, j + k) == DropDigits(DropDigits(n, j), k)
    decreases j
  {
    if j > 0 {
      DropOver(n / 10, j - 1, k);
      assert j + k - 1 == (j - 1) + k;
    }
  }

  /** Counts below 1000 show their full numeral. */
  lemma BadgeBelowThousand(count: nat)
    requires count < 1000
    ensures FormatBadge(count) == NatToString(count)
  {
  }

  /** Counts in `[1000, 10000)` show the thousands digit, a dot and the hundreds digit: 1999 is "1.9K". */
  lemma BadgeThousands(count: nat)
    requires 1000 <= count < 10000
    ensures FormatBadge(count) == [DigitChar(count / 1000), '.', DigitChar(count / 100 % 10), 'K']
  {
    var s := NatToString(count);
    assert Pow10(3) == 1000 && Pow10(4) == 10000;
    LeadingDigits(count, 2);
    DropThree(count);
    assert Slice(s, 0, 1) == [s[0]];
    assert Slice(s, 1, -2) == [s[1]];
  }

  /** Counts in `[10^4, 10^6)` show the whole thousands: 999999 is "999K". */
  lemma BadgeTensOfThousands(count: nat)
    requires 10000 <= count < 1000000
    ensures FormatBadge(count) == NatToString(count / 1000) + "K"
  {
    var s := NatToString(count);
    assert Pow10(4) == 10000;
    LengthAtLeast(count, 4);
    PrefixIsDropDigits(count, 3);
    DropThree(count);
    assert Slice(s, 0, -3) == s[..|s| - 3];
  }

  /** Counts in `[10^6, 10^7)` show the millions digit, a dot and the hundred-thousands digit. */
  lemma BadgeMillions(count: nat)
    requires 1000000 <= count < 10000000
    ensures FormatBadge(count) == [DigitChar(count / 1000000), '.', DigitChar(count / 100000 % 10), 'M']
  {
    var s := NatToString(count);
    assert Pow10(6) == 1000000 && Pow10(7) == 10000000;
    LeadingDigits(count, 5);
    DropSix(count);
    assert Slice(s, 0, 1) == [s[0]];
    assert Slice(s, 1, -5) == [s[1]];
  }

  /** Counts from 10^7 on show the whole millions: 123456789 is "123M". */
  lemma BadgeTensOfMillions(count: nat)
    requires count >= 10000000
    ensures FormatBadge(count) == NatToString(count / 1000000) + "M"
  {
    var s := NatToString(count);
    assert Pow10(7) == 10000000;
    LengthAtLeast(count, 7);
    PrefixIsDropDigits(count, 6);
    DropSix(count);
    assert Slice(s, 0, -6) == s[..|s| - 6];
  }

  /** Below 10^9 every label fits in four characters. */
  lemma BadgeFitsFour(count: nat)
    requires count < 1000000000
    ensures 1 <= |FormatBadge(count)| <= 4
  {
    assert Pow10(3) == 1000 && Pow10(4) == 10000 && Pow10(6) == 1000000 && Pow10(7) == 10000000;
    if count < 1000 {
      LengthAtMost(count, 3);
    } else if count < 10000 {
      BadgeThousands(count);
    } else if count < 1000000 {
      BadgeTensOfThousands(count);
      LengthAtMost(count / 1000, 3);
    } else if count < 10000000 {
      BadgeMillions(count);
    } else {
      BadgeTensOfMillions(count);
      LengthAtMost(count / 1000000, 3);
    }
  }

  /** The four-character bound is tight: 10^9 already needs five. */
  lemma BadgeAtBillion()
    ensures FormatBadge(1000000000) == "1000M"
  {
    BadgeTensOfMillions(1000000000);
    assert NatToString(1000) == "1000";
  }

  /** Concrete labels below 10^4: truncation, never rounding. */
  lemma BadgeExamplesSmall()
    ensures FormatBadge(999) == "999"
    ensures FormatBadge(1000) == "1.0K"
    ensures FormatBadge(1999) == "1.9K"
  {
    assert NatToString(9) == "9";
    assert NatToString(99) == "99";
    assert NatToString(999) == "999";
    BadgeThousands(1000);
    BadgeThousands(1999);
  }

  /** Concrete `K` labels from 10^4 on. */
  lemma BadgeExamplesThousands()
    ensures FormatBadge(10000) == "10K"
    ensures FormatBadge(999999) == "999K"
  {
    BadgeTensOfThousands(10000);
    assert NatToString(1) == "1";
    assert NatToString(10) == "10";
    BadgeTensOfThousands(999999);
    assert NatToString(9) == "9";
    assert NatToString(99) == "99";
    assert NatToString(999) == "999";
  }

  /** Concrete `M` labels. */
  lemma BadgeExamplesMillions()
    ensures FormatBadge(1500000) == "1.5M"
    ensures FormatBadge(9999999) == "9.9M"
    ensures FormatBadge(123456789) == "123M"
  {
    BadgeMillions(1500000);
    BadgeMillions(9999999);
    BadgeTensOfMillions(123456789);
    assert NatToString(1) == "1";
    assert NatToString(12) == "12";
    assert NatToString(123) == "123";
  }

  /** Every label reads back as the count cut down to the label's last shown
      digit: the label never overstates the count and understates it by less
      than one unit of that digit. */
  lemma BadgeTruncates(count: nat)
    ensures ParseBadge(FormatBadge(count)) == Some(count / Granularity(count) * Granularity(count))
  {
    if count < 1000 {
      var s := NatToString(count);
      assert IsDigit(s[|s| - 1]);
      StringToNatOfNatToString(count);
    } else if count < 10000 {
      BadgeThousands(count);
      DottedNumeral(count / 1000, count / 100 % 10, 'K');
      assert count / 100 == 10 * (count / 1000) + count / 100 % 10;
    } else if count < 1000000 {
      BadgeTensOfThousands(count);
      ScaledNumeral(count / 1000, 'K');
    } else if count < 10000000 {
      BadgeMillions(count);
      DottedNumeral(count / 1000000, count / 100000 % 10, 'M');
      assert count / 100000 == 10 * (count / 1000000) + count / 100000 % 10;
    } else {
      BadgeTensOfMillions(count);
      ScaledNumeral(count / 1000000, 'M');
    }
  }

  /** A `d.d` mantissa followed by a suffix reads back as its tenths of the suffix's scale. */
  lemma DottedNumeral(a: nat, b: nat, suffix: char)
    requires a < 10 && b < 10 && (suffix == 'K' || suffix == 'M')
    ensures ParseBadge([DigitChar(a), '.', DigitChar(b), suffix])
      == Some((10 * a + b) * (if suffix == 'K' then 100 else 100000))
  {
    var badge := [DigitChar(a), '.', DigitChar(b), suffix];
    assert badge[..|badge| - 1] == [DigitChar(a), '.', DigitChar(b)];
  }

  /** A numeral of at least two digits followed by a suffix reads back as the
      numeral's value times the suffix's scale. */
  lemma ScaledNumeral(m: nat, suffix: char)
    requires m >= 10 && (suffix == 'K' || suffix == 'M')
    ensures ParseBadge(NatToString(m) + [suffix]) == Some(m * (if suffix == 'K' then 1000 else 1000000))
  {
    var s := NatToString(m);
    var text := s + [suffix];
    assert text[..|text| - 1] == s;
    assert |s| != 1;
    assert |s| == 3 ==> IsDigit(s[1]);
    StringToNatOfNatToString(m);
  }
}
