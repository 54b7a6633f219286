/** Decimal numerals as JavaScript writes and reads them for non-negative
    integers: `String(n)`, `parseInt(s)` and `toFixed(1)` of a percentage. */
module Numerals {
  import opened Wrappers

  predicate IsDigit(c: char)
  {
    '0' <= c <= '9'
  }

  predicate AllDigits(s: string)
  {
    forall i :: 0 <= i < |s| ==> IsDigit(s[i])
  }

  function DigitChar(d: nat): (c: char)
    requires d < 10
    ensures IsDigit(c)
  {
    ('0' as int + d) as char
  }

  function DigitValue(c: char): (d: nat)
    requires IsDigit(c)
    ensures d < 10
  {
    c as int - '0' as int
  }

  /** `String(n)`: the decimal digits of `n`, without leading zeros. */
  function DecimalString(n: nat): (r: string)
    ensures |r| >= 1 && AllDigits(r)
  {
    if n < 10 then [DigitChar(n)] else DecimalString(n / 10) + [DigitChar(n % 10)]
  }

  /** The value of a string of decimal digits; leading zeros are allowed. */
  function DecimalValue(s: string): nat
    requires AllDigits(s)
  {
    if s == [] then 0 else 10 * DecimalValue(s[..|s| - 1]) + DigitValue(s[|s| - 1])
  }

  lemma {:induction false} DecimalRoundTrip(n: nat)
    ensures DecimalValue(DecimalString(n)) == n
  {
    if n >= 10 {
      var s := DecimalString(n);
      assert s[..|s| - 1] == DecimalString(n / 10);
      DecimalRoundTrip(n / 10);
    }
  }

  /** A numeral without superfluous leading zeros is what `String` prints for its value. */
  lemma {:induction false} DecimalStringOfValue(s: string)
    requires AllDigits(s) && s != [] && (|s| > 1 ==> s[0] != '0')
    ensures DecimalString(DecimalValue(s)) == s
  {
    var p := s[..|s| - 1];
    if p == [] {
      assert s == [s[0]];
    } else {
      DecimalStringOfValue(p);
      DecimalValuePositive(p);
      assert s == p + [s[|s| - 1]];
    }
  }

  lemma {:induction false} DecimalValuePositive(s: string)
    requires AllDigits(s) && s != [] && s[0] != '0'
    ensures DecimalValue(s) >= 1
  {
    if |s| > 1 {
      DecimalValuePositive(s[..|s| - 1]);
    }
  }

  /** The number of leading decimal digits of `s`. */
  function DigitPrefix(s: string): (k: nat)
    ensures k <= |s| && AllDigits(s[..k]) && (k < |s| ==> !IsDigit(s[k]))
  {
    if s == [] || !IsDigit(s[0]) then 0
    else
      var k := DigitPrefix(s[1..]);
      assert s[..k + 1] == [s[0]] + s[1..][..k];
      k + 1
  }

  /** `parseInt(s)` restricted to unsigned decimal text: the value of the leading
      digits, or `None` (JavaScript's NaN) when `s` does not start with a digit. */
  function ParseInt(s: string): Option<nat>
  {
    var k := DigitPrefix(s);
    if k == 0 then None else Some(DecimalValue(s[..k]))
  }

  /** `parseInt` reads back what `String` wrote. */
  lemma ParseIntDecimal(n: nat)
    ensures ParseInt(DecimalString(n)) == Some(n)
  {
    var s := DecimalString(n);
    var k := DigitPrefix(s);
    assert k == |s|;
    assert s[..k] == s;
    DecimalRoundTrip(n);
  }

  /** `((count / total) * 100)` rounded to tenths, exact midpoints rounding up. */
  function PercentTenths(count: nat, total: nat): nat
    requires total > 0
  {
    (2000 * count + total) / (2 * total)
  }

  /** The tenths are within half a tenth of the exact share. */
  lemma PercentTenthsRounds(count: nat, total: nat)
    requires total > 0
    ensures var t := PercentTenths(count, total);
      2000 * count < 2 * total * t + total && 2 * total * t <= 2000 * count + total
  {
    var t := PercentTenths(count, total);
    var m := (2000 * count + total) % (2 * total);
    assert 2000 * count + total == 2 * total * t + m;
  }

  /** `((count / total) * 100).toFixed(1)`; `0 / 0` is NaN. */
  function PercentText(count: nat, total: nat): string
  {
    if total == 0 then "NaN"
    else
      var t := PercentTenths(count, total);
      DecimalString(t / 10) + "." + [DigitChar(t % 10)]
  }
}
