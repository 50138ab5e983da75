/**
 * Order numbers: "EMI-" followed by the decimal digits of
 * `Math.floor(100000 + Math.random() * 900000)`. The random draw is the
 * parameter `k`, the integer part of `Math.random() * 900000`, so `k < 900000`.
 */
module OrderNumbers {
  import opened Wrappers

  const Prefix := "EMI-"

  function Pow10(d: nat): (p: nat)
    ensures p >= 1
  {
    if d == 0 then 1 else 10 * Pow10(d - 1)
  }

  lemma SixDigitRange()
    ensures Pow10(5) == 100000 && Pow10(6) == 1000000
  {
    assert Pow10(2) == 100;
    assert Pow10(4) == 10000;
  }

  predicate IsDigit(c: char)
  {
    '0' <= c <= '9'
  }

  function DigitChar(n: nat): (c: char)
    requires n < 10
    ensures IsDigit(c) && c as int - '0' as int == n
  {
    ('0' as int + n) as char
  }

  function DigitValue(c: char): (n: nat)
    requires IsDigit(c)
    ensures n < 10 && DigitChar(n) == c
  {
    (c as int - '0' as int) as nat
  }

  /** The decimal notation of `n` without leading zeros (JavaScript's number-to-string). */
  function Decimal(n: nat): (s: string)
    ensures |s| >= 1
    ensures forall i :: 0 <= i < |s| ==> IsDigit(s[i])
  {
    if n < 10 then [DigitChar(n)] else Decimal(n / 10) + [DigitChar(n % 10)]
  }

  /** The number a string of decimal digits denotes. */
  function DecimalValue(s: string): nat
    requires forall i :: 0 <= i < |s| ==> IsDigit(s[i])
  {
    if |s| == 0 then 0 else 10 * DecimalValue(s[..|s| - 1]) + DigitValue(s[|s| - 1])
  }

  /** Reading the digits back gives the number. */
  lemma {:induction false} DecimalRoundTrip(n: nat)
    ensures DecimalValue(Decimal(n)) == n
  {
    var s := Decimal(n);
    if n >= 10 {
      DecimalRoundTrip(n / 10);
      assert s[..|s| - 1] == Decimal(n / 10);
      assert DigitValue(s[|s| - 1]) == n % 10;
    }
  }

  /** A number with `d` digits is written with exactly `d` characters, the first not '0'. */
  lemma {:induction false} DecimalLength(n: nat, d: nat)
    requires d >= 1 && Pow10(d - 1) <= n < Pow10(d)
    ensures |Decimal(n)| == d
    ensures Decimal(n)[0] != '0'
  {
    if d == 1 {
      assert n < 10;
    } else {
      assert Pow10(d - 1) == 10 * Pow10(d - 2);
      DecimalLength(n / 10, d - 1);
    }
  }

  /** The order number for random draw `k`. */
  function OrderNumber(k: nat): (s: string)
    requires k < 900000
    ensures |s| == 10 && s[..4] == Prefix
  {
    SixDigitRange();
    DecimalLength(100000 + k, 6);
    Prefix + Decimal(100000 + k)
  }

  /** "EMI-" followed by exactly six digits, the first of them not '0'. */
  predicate IsOrderNumber(s: string)
  {
    |s| == 10 && s[..4] == Prefix && s[4] != '0' && forall i :: 4 <= i < 10 ==> IsDigit(s[i])
  }

  /** The random draw an order number was made from, if the string is one. */
  function DrawOf(s: string): (k: Option<nat>)
    ensures k.Some? ==> k.value < 900000
  {
    if IsOrderNumber(s) then
      var n := DecimalValue(s[4..]);
      if 100000 <= n < 1000000 then Some(n - 100000) else None
    else None
  }

  /** Every generated number has the format, and the draw can be read back from it. */
  lemma OrderNumberWellFormed(k: nat)
    requires k < 900000
    ensures IsOrderNumber(OrderNumber(k))
    ensures DrawOf(OrderNumber(k)) == Some(k)
  {
    var s := OrderNumber(k);
    SixDigitRange();
    DecimalLength(100000 + k, 6);
    DecimalRoundTrip(100000 + k);
    assert s[4..] == Decimal(100000 + k);
  }

  /** Two orders get the same number exactly when their random draws were the same. */
  lemma OrderNumberInjective(k1: nat, k2: nat)
    requires k1 < 900000 && k2 < 900000
    ensures OrderNumber(k1) == OrderNumber(k2) <==> k1 == k2
  {
    OrderNumberWellFormed(k1);
    OrderNumberWellFormed(k2);
  }
}
