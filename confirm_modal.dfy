/**
 * The order summary shown before a purchase is confirmed: the device price,
 * the amount paid today, the instalment total and the zero-interest label.
 */
module ConfirmModal {
  import opened Wrappers
  import opened Records
  import opened Pricing
  import opened OrderNumbers
  import opened CatalogTables
  import opened OrderController

  /** The figures the summary displays. */
  datatype Summary = Summary(effectivePrice: Money, downpayment: Money, effectiveTotal: Money, noCostLabel: bool)

  /** The summary, or nothing unless the dialog is open and product, variant and plan are all present. */
  function Render(isOpen: bool, product: Option<Product>, variant: Option<Variant>, plan: Option<EmiPlan>): (r: Option<Summary>)
    ensures r.Some? <==> isOpen && product.Some? && variant.Some? && plan.Some?
    ensures r.Some? ==> r.value.effectivePrice == EffectivePrice(product.value, variant.value)
    ensures r.Some? ==> 100 * r.value.downpayment - 50 <= 2 * r.value.effectivePrice < 100 * r.value.downpayment + 50
    ensures r.Some? ==> r.value.effectiveTotal == plan.value.monthlyAmount * plan.value.tenureMonths
    ensures r.Some? ==> (r.value.noCostLabel <==> plan.value.interestRate == 0.0)
  {
    if !isOpen || product.None? || variant.None? || plan.None? then None
    else
      var price := EffectivePrice(product.value, variant.value);
      Some(Summary(price, DownPayment(price), InstalmentTotal(plan.value), IsNoCost(plan.value)))
  }

  /** For a non-negative price, the amount paid today is between 0 and the price. */
  lemma DownpaymentWithinPrice(product: Product, variant: Variant, plan: EmiPlan)
    requires EffectivePrice(product, variant) >= 0
    ensures var s := Render(true, Some(product), Some(variant), Some(plan)).value;
            0 <= s.downpayment <= s.effectivePrice
  {
    DownPaymentBounds(EffectivePrice(product, variant));
  }

  /** The "Effective Total" depends only on the plan, never on the device's price. */
  lemma TotalIgnoresDevicePrice(p1: Product, v1: Variant, p2: Product, v2: Variant, plan: EmiPlan)
    ensures Render(true, Some(p1), Some(v1), Some(plan)).value.effectiveTotal
         == Render(true, Some(p2), Some(v2), Some(plan)).value.effectiveTotal
  {
  }

  /**
   * How the summary shown for a placed order relates to the stored row: its
   * total is the stored monthly amount times the stored tenure, it equals the
   * stored total only when that product equals the cash price, and its price
   * equals the stored total unless the variant's override is 0 and the
   * product price is not.
   */
  lemma SummaryAgainstStoredOrder(c: Catalog, orders: seq<Order>, variantId: string, emiPlanId: string,
                                  id: nat, k: nat, now: int)
    requires k < 900000 && PlaceOrder(c, orders, variantId, emiPlanId, id, k, now).Success?
    ensures var placed := PlaceOrder(c, orders, variantId, emiPlanId, id, k, now).data;
            var o := placed.order;
            var s := Render(true, placed.product, placed.variant, placed.emiPlan).value;
            && s.effectiveTotal == o.monthlySchedule * o.tenure
            && (s.effectiveTotal == o.totalAmount <==> o.monthlySchedule * o.tenure == o.totalAmount)
            && (s.effectivePrice == o.totalAmount <==>
                  !(placed.variant.value.priceOverride == Some(0) && placed.product.value.price != 0))
  {
    var placed := PlaceOrder(c, orders, variantId, emiPlanId, id, k, now).data;
    OrderTotalDiffersFromEffectivePrice(placed.product.value, placed.variant.value);
  }

  /**
   * The amount an order stores is the cash price, not the total shown in the
   * summary: for the 256GB iPhone 17 Pro and its 3-month plan the stored total
   * is 127400 while the summary shows 3 x 42467 = 127401.
   */
  lemma StoredTotalIsNotSummaryTotal()
    ensures var product := Product("p1", "iphone-17-pro", "iPhone 17 Pro", 149900, 127400, 0);
            var variant := Variant("v1", "p1", "Natural Titanium", "256GB", Some(127400));
            var plan := EmiPlan("e1", "v1", 42467, 3, 0.0, 500);
            var c := Catalog([product], [variant], [plan]);
            var placed := PlaceOrder(c, [], "v1", "e1", 0, 0, 0);
            && placed.Success?
            && placed.data.order.totalAmount == 127400
            && Render(true, Some(product), Some(variant), Some(plan)).value.effectiveTotal == 127401
  {
    var product := Product("p1", "iphone-17-pro", "iPhone 17 Pro", 149900, 127400, 0);
    var variant := Variant("v1", "p1", "Natural Titanium", "256GB", Some(127400));
    var plan := EmiPlan("e1", "v1", 42467, 3, 0.0, 500);
    var c := Catalog([product], [variant], [plan]);
    assert VariantById(c.variants, "v1") == Some(variant);
    assert ProductById(c.products, "p1") == Some(product);
    assert PlanById(c.plans, "e1") == Some(plan);
  }

  /** With a price override of 0 the summary shows 0 while the order stores the base price. */
  lemma ZeroOverrideSummaryDiffersFromOrder(product: Product, variant: Variant, plan: EmiPlan)
    requires variant.priceOverride == Some(0) && product.price != 0
    ensures Render(true, Some(product), Some(variant), Some(plan)).value.effectivePrice == 0
    ensures OrderTotal(product, variant) == product.price
  {
  }
}
