/**
 * Price rules. The server and the client resolve a variant's price with two
 * different JavaScript operators: the server with `||`, which also skips an
 * override of 0, the client with `??`, which skips only a missing override.
 */
module Pricing {
  import opened Wrappers
  import opened Records

  /** The order total the server stores: `variant.priceOverride || product.price`. */
  function OrderTotal(product: Product, variant: Variant): (r: Money)
    ensures variant.priceOverride.Some? && variant.priceOverride.value != 0 ==> r == variant.priceOverride.value
    ensures variant.priceOverride.None? || variant.priceOverride.value == 0 ==> r == product.price
  {
    match variant.priceOverride
    case Some(p) => if p != 0 then p else product.price
    case None => product.price
  }

  /** The price the client shows: `variant.priceOverride ?? product.price`. */
  function EffectivePrice(product: Product, variant: Variant): (r: Money)
    ensures variant.priceOverride.Some? ==> r == variant.priceOverride.value
    ensures variant.priceOverride.None? ==> r == product.price
  {
    match variant.priceOverride
    case Some(p) => p
    case None => product.price
  }

  /** The two rules disagree exactly when the override is 0 and the base price is not. */
  lemma OrderTotalDiffersFromEffectivePrice(product: Product, variant: Variant)
    ensures OrderTotal(product, variant) != EffectivePrice(product, variant)
        <==> variant.priceOverride == Some(0) && product.price != 0
  {
  }

  /**
   * `Math.round(price * 0.02)`, the 2% amount paid today, computed exactly:
   * the integer nearest to price/50, halves rounded up.
   */
  function DownPayment(price: Money): (d: Money)
    ensures 100 * d - 50 <= 2 * price < 100 * d + 50
  {
    (2 * price + 50) / 100
  }

  /** Exactly one integer is nearest to price/50 with halves rounded up, so the rule is fully determined. */
  lemma DownPaymentUnique(price: Money, d: Money)
    requires 100 * d - 50 <= 2 * price < 100 * d + 50
    ensures d == DownPayment(price)
  {
    var e := DownPayment(price);
    assert 100 * d - 50 <= 2 * price < 100 * e + 50;
    assert 100 * e - 50 <= 2 * price < 100 * d + 50;
  }

  /** For a non-negative price the amount paid today is between 0 and the price. */
  lemma DownPaymentBounds(price: Money)
    requires price >= 0
    ensures 0 <= DownPayment(price) <= price
  {
  }

  /** A larger price never gives a smaller amount paid today. */
  lemma DownPaymentMonotonic(p: Money, q: Money)
    requires p <= q
    ensures DownPayment(p) <= DownPayment(q)
  {
    var dp, dq := DownPayment(p), DownPayment(q);
    assert 100 * dp - 50 <= 2 * p <= 2 * q < 100 * dq + 50;
  }

  /** The "Effective Total" of a plan: monthly amount times tenure. */
  function InstalmentTotal(plan: EmiPlan): (t: Money)
    ensures plan.tenureMonths >= 0 && plan.monthlyAmount >= 0 ==> t >= 0
  {
    plan.monthlyAmount * plan.tenureMonths
  }

  /** The zero-interest label "(No Cost)" is shown exactly for plans without interest. */
  predicate IsNoCost(plan: EmiPlan)
  {
    plan.interestRate == 0.0
  }
}
