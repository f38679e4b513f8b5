/**
 * The `formattedAmount` projection of an expense: a rupee sign followed by the
 * amount written the way ECMAScript's `Number.prototype.toFixed(2)` writes it.
 * Amounts are exact reals here, so toFixed's rounding rule is applied to the
 * exact value rather than to its nearest binary double.
 */
module Money {
  import opened Wrappers
  import opened Decimal

  const Rupee: char := '\U{20B9}'

  /** toFixed switches to exponent notation from this magnitude on. */
  const FixedLimit: real := 1_000_000_000_000_000_000_000.0

  /**
   * The number of hundredths toFixed(2) writes for `x`: the integer nearest to
   * `100 * x`, the larger one when two are equally near.
   */
  function NearestHundredths(x: real): (n: nat)
    requires x >= 0.0
    ensures x * 100.0 - 0.5 < n as real <= x * 100.0 + 0.5
  {
    (x * 100.0 + 0.5).Floor
  }

  /** `x` with exactly two fractional digits (toFixed(2) for a non-negative `x`). */
  function FixedTwo(x: real): (r: string)
    requires x >= 0.0
    ensures |r| >= 4 && r[|r| - 3] == '.'
    ensures AllDigits(r[..|r| - 3]) && IsDigit(r[|r| - 2]) && IsDigit(r[|r| - 1])
    ensures |r| > 4 ==> r[0] != '0'
  {
    var n := NearestHundredths(x);
    var r := NatToString(n / 100) + "." + [DigitChar(n % 100 / 10), DigitChar(n % 10)];
    assert r[..|r| - 3] == NatToString(n / 100);
    r
  }

  /** The `formattedAmount` virtual: rupee sign, then the sign of a negative amount, then toFixed(2). */
  function FormattedAmount(amount: real): (r: string)
    requires -FixedLimit < amount < FixedLimit
    ensures |r| >= 5 && r[0] == Rupee
    ensures r[|r| - 3] == '.' && IsDigit(r[|r| - 2]) && IsDigit(r[|r| - 1])
    ensures r[1] == '-' <==> amount < 0.0
    ensures var m := if amount < 0.0 then r[2..] else r[1..]; |m| > 4 ==> m[0] != '0'
  {
    [Rupee] + (if amount < 0.0 then "-" else "") + FixedTwo(if amount < 0.0 then -amount else amount)
  }

  /** Reads "digits.dd" back as a count of hundredths. */
  function ParseFixedTwo(s: string): Option<nat> {
    if |s| >= 4 && s[|s| - 3] == '.' && AllDigits(s[..|s| - 3])
       && IsDigit(s[|s| - 2]) && IsDigit(s[|s| - 1])
    then Some(StringToNat(s[..|s| - 3]) * 100 + DigitValue(s[|s| - 2]) * 10 + DigitValue(s[|s| - 1]))
    else None
  }

  /** Reads a formatted amount back as a signed count of hundredths (paise). */
  function ParseFormatted(s: string): Option<int> {
    if s == [] || s[0] != Rupee then None
    else if |s| >= 2 && s[1] == '-' then
      match ParseFixedTwo(s[2..])
      case Some(n) => Some(-(n as int))
      case None => None
    else
      match ParseFixedTwo(s[1..])
      case Some(n) => Some(n as int)
      case None => None
  }

  /** The paise that the formatted string of `amount` denotes. */
  function ShownPaise(amount: real): int
    requires -FixedLimit < amount < FixedLimit
  {
    if amount < 0.0 then -(NearestHundredths(-amount) as int) else NearestHundredths(amount)
  }

  lemma FixedTwoRoundTrip(x: real)
    requires x >= 0.0
    ensures ParseFixedTwo(FixedTwo(x)) == Some(NearestHundredths(x))
  {
    var n := NearestHundredths(x);
    var q, d1, d0 := n / 100, n % 100 / 10, n % 10;
    var s := FixedTwo(x);
    assert s[..|s| - 3] == NatToString(q);
    NatToStringRoundTrip(q);
    assert DigitValue(s[|s| - 2]) == d1;
    assert DigitValue(s[|s| - 1]) == d0;
    assert n % 100 == d1 * 10 + d0;
  }

  /**
   * The formatted amount is unambiguous: reading it back gives the amount
   * rounded to the nearest paisa, never more than half a paisa away.
   */
  lemma FormattedAmountRoundTrip(amount: real)
    requires -FixedLimit < amount < FixedLimit
    ensures ParseFormatted(FormattedAmount(amount)) == Some(ShownPaise(amount))
    ensures amount * 100.0 - 0.5 <= ShownPaise(amount) as real <= amount * 100.0 + 0.5
  {
    var x := if amount < 0.0 then -amount else amount;
    var s := FormattedAmount(amount);
    FixedTwoRoundTrip(x);
    if amount < 0.0 {
      assert s[2..] == FixedTwo(x);
    } else {
      assert s[1..] == FixedTwo(x);
      assert !IsDigit('-');
    }
  }

  /** An amount that is a whole number of paise is shown exactly. */
  lemma FormattedWholePaise(amount: real, paise: int)
    requires -FixedLimit < amount < FixedLimit
    requires amount * 100.0 == paise as real
    ensures ParseFormatted(FormattedAmount(amount)) == Some(paise)
  {
    FormattedAmountRoundTrip(amount);
  }

  /** 4.5 rupees is shown as "₹4.50". */
  lemma FormattedCoffee()
    ensures FormattedAmount(4.5) == [Rupee] + "4.50"
  {
    assert NearestHundredths(4.5) == 450;
  }
}
