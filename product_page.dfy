/**
 * The product page's state: the loaded product, the selected variant, the
 * plans on offer and the selected plan, and the buy flow. Each network answer
 * the page waits for is a parameter of the step that receives it.
 */
module ProductPage {
  import opened Wrappers
  import opened Records
  import opened CatalogTables
  import opened Pricing
  import opened Sequences

  /**
   * The price shown above the pickers: the selected variant's override when
   * it has one, otherwise the loaded product's price (`??`); nothing while
   * neither is known.
   */
  function ShownPrice(product: Option<ProductWithVariants>, selected: Option<VariantWithPlans>): (r: Option<Money>)
    ensures r.None? <==> product.None? && (selected.None? || selected.value.variant.priceOverride.None?)
    ensures product.Some? && selected.Some? ==> r == Some(EffectivePrice(product.value.product, selected.value.variant))
    ensures product.Some? && selected.None? ==> r == Some(product.value.product.price)
  {
    if selected.Some? && selected.value.variant.priceOverride.Some? then selected.value.variant.priceOverride
    else if product.Some? then Some(product.value.product.price)
    else None
  }

  /** The variant a freshly loaded product opens on: its first, if any. */
  function FirstVariant(p: ProductWithVariants): (r: Option<VariantWithPlans>)
    ensures r.None? <==> |p.variants| == 0
    ensures r.Some? ==> r.value == p.variants[0]
  {
    if |p.variants| == 0 then None else Some(p.variants[0])
  }

  /** The plan a list of plans opens on: the first in tenure order, which has the shortest tenure. */
  function DefaultPlan(plans: seq<EmiPlan>): (r: Option<EmiPlan>)
    ensures r.None? <==> |plans| == 0
    ensures r.Some? ==> r.value in plans && forall e :: e in plans ==> r.value.tenureMonths <= e.tenureMonths
  {
    if |plans| == 0 then None
    else
      ByTenureHeadIsShortest(plans);
      Some(ByTenure(plans)[0])
  }

  /**
   * Among plans of equal tenure the sort keeps the fetched order, so the
   * default plan is the first fetched plan with the shortest tenure.
   */
  lemma DefaultPlanIsFirstShortest(plans: seq<EmiPlan>, i: nat)
    requires i < |plans|
    requires forall e :: e in plans ==> plans[i].tenureMonths <= e.tenureMonths
    requires forall j :: 0 <= j < i ==> plans[j].tenureMonths != plans[i].tenureMonths
    ensures DefaultPlan(plans) == Some(plans[i])
  {
    SortByHeadIsFirstLeast(plans, Tenure, i);
  }

  class Page {
    var product: Option<ProductWithVariants>
    var selectedVariant: Option<VariantWithPlans>
    var emiPlans: seq<EmiPlan>
    var selectedPlan: Option<EmiPlan>
    var loading: bool
    var emiLoading: bool
    var error: Option<string>
    var isModalOpen: bool
    var placingOrder: bool
    var confirmedOrder: Option<ExpandedOrder>

    /** The plans on offer are in tenure order and the selected plan is one of them. */
    ghost predicate Valid()
      reads this
    {
      && (forall i, j :: 0 <= i < j < |emiPlans| ==> emiPlans[i].tenureMonths <= emiPlans[j].tenureMonths)
      && (selectedPlan.Some? ==> selectedPlan.value in emiPlans)
    }

    /** The page as first rendered: loading, with nothing selected. */
    constructor ()
      ensures Valid()
      ensures product.None? && selectedVariant.None? && emiPlans == [] && selectedPlan.None?
      ensures loading && !emiLoading && error.None? && !isModalOpen && !placingOrder && confirmedOrder.None?
    {
      product := None;
      selectedVariant := None;
      emiPlans := [];
      selectedPlan := None;
      loading := true;
      emiLoading := false;
      error := None;
      isModalOpen := false;
      placingOrder := false;
      confirmedOrder := None;
    }

    /**
     * Loading a product by its slug, given what the fetch returned. On
     * success the first variant is selected and, only when it has plans,
     * its plans replace those on offer; otherwise the plans and the plan
     * selected before are kept. A failed fetch shows its message.
     */
    method Load(fetched: Result<ProductWithVariants>)
      requires Valid()
      modifies this
      ensures Valid()
      ensures !loading && confirmedOrder.None?
      ensures fetched.Failed? ==> error == Some(fetched.message) && product == old(product)
                                  && selectedVariant == old(selectedVariant)
                                  && emiPlans == old(emiPlans) && selectedPlan == old(selectedPlan)
      ensures fetched.Ok? ==> error.None? && product == Some(fetched.value)
                              && selectedVariant == FirstVariant(fetched.value)
      ensures fetched.Ok? && selectedVariant.Some? && |selectedVariant.value.emiPlans| > 0 ==>
                emiPlans == ByTenure(selectedVariant.value.emiPlans)
                && selectedPlan == DefaultPlan(selectedVariant.value.emiPlans)
      ensures fetched.Ok? && (selectedVariant.None? || |selectedVariant.value.emiPlans| == 0) ==>
                emiPlans == old(emiPlans) && selectedPlan == old(selectedPlan)
      ensures emiLoading == old(emiLoading) && isModalOpen == old(isModalOpen) && placingOrder == old(placingOrder)
    {
      loading := true;
      error := None;
      confirmedOrder := None;
      match fetched {
        case Ok(data) =>
          product := Some(data);
          var first := FirstVariant(data);
          selectedVariant := first;
          if first.Some? && |first.value.emiPlans| > 0 {
            var plansAsc := ByTenure(first.value.emiPlans);
            emiPlans := plansAsc;
            selectedPlan := Some(plansAsc[0]);
          }
        case Failed(message) =>
          error := Some(message);
      }
      loading := false;
    }

    /**
     * The synchronous half of choosing a variant: a null variant or the one
     * already selected changes nothing; any other is selected, the plan
     * selection is cleared and the plans start loading.
     */
    method BeginVariantSelect(v: Option<VariantWithPlans>) returns (started: bool)
      requires Valid()
      modifies this
      ensures Valid()
      ensures started <==> v.Some? && (old(selectedVariant).None? || v.value.variant.id != old(selectedVariant).value.variant.id)
      ensures started ==> selectedVariant == v && selectedPlan.None? && emiLoading
      ensures !started ==> selectedVariant == old(selectedVariant) && selectedPlan == old(selectedPlan)
                           && emiLoading == old(emiLoading)
      ensures emiPlans == old(emiPlans) && product == old(product)
      ensures isModalOpen == old(isModalOpen) && placingOrder == old(placingOrder)
      ensures confirmedOrder == old(confirmedOrder) && loading == old(loading) && error == old(error)
    {
      if v.None? || (selectedVariant.Some? && v.value.variant.id == selectedVariant.value.variant.id) {
        return false;
      }
      selectedVariant := v;
      selectedPlan := None;
      emiLoading := true;
      started := true;
    }

    /**
     * The asynchronous half: the plans fetched for the new variant are put
     * in tenure order and the first is selected; a failed fetch keeps the
     * plans on offer as they were. Either way the plans stop loading.
     */
    method ReceivePlans(fetched: Result<seq<EmiPlan>>)
      requires Valid()
      modifies this
      ensures Valid()
      ensures !emiLoading
      ensures fetched.Ok? ==> emiPlans == ByTenure(fetched.value) && selectedPlan == DefaultPlan(fetched.value)
      ensures fetched.Failed? ==> emiPlans == old(emiPlans) && selectedPlan == old(selectedPlan)
      ensures selectedVariant == old(selectedVariant) && product == old(product)
      ensures isModalOpen == old(isModalOpen) && placingOrder == old(placingOrder)
      ensures confirmedOrder == old(confirmedOrder) && loading == old(loading) && error == old(error)
    {
      match fetched {
        case Ok(plans) =>
          var plansAsc := ByTenure(plans);
          emiPlans := plansAsc;
          selectedPlan := if |plansAsc| > 0 then Some(plansAsc[0]) else None;
        case Failed(_) =>
      }
      emiLoading := false;
    }

    /**
     * `handleVariantSelect`, with the plan fetch answered by `fetched`. When
     * the fetch fails the new variant is shown with no plan selected but with
     * the previous variant's plans still on offer.
     */
    method HandleVariantSelect(v: Option<VariantWithPlans>, fetched: Result<seq<EmiPlan>>)
      requires Valid()
      modifies this
      ensures Valid()
      ensures !emiLoading || (emiLoading == old(emiLoading) && selectedVariant == old(selectedVariant))
      ensures v.Some? && (old(selectedVariant).None? || v.value.variant.id != old(selectedVariant).value.variant.id) ==>
                && selectedVariant == v && !emiLoading
                && (fetched.Ok? ==> emiPlans == ByTenure(fetched.value) && selectedPlan == DefaultPlan(fetched.value))
                && (fetched.Failed? ==> emiPlans == old(emiPlans) && selectedPlan.None?)
      ensures !(v.Some? && (old(selectedVariant).None? || v.value.variant.id != old(selectedVariant).value.variant.id)) ==>
                selectedVariant == old(selectedVariant) && selectedPlan == old(selectedPlan)
                && emiPlans == old(emiPlans) && emiLoading == old(emiLoading)
      ensures product == old(product) && isModalOpen == old(isModalOpen) && placingOrder == old(placingOrder)
      ensures confirmedOrder == old(confirmedOrder) && loading == old(loading) && error == old(error)
    {
      var started := BeginVariantSelect(v);
      if started {
        ReceivePlans(fetched);
      }
    }

    /** Tapping a plan card; the cards are the plans on offer, shown only once they have loaded. */
    method ChoosePlan(p: EmiPlan)
      requires Valid() && p in emiPlans && !emiLoading
      modifies this
      ensures Valid() && selectedPlan == Some(p)
      ensures emiPlans == old(emiPlans) && selectedVariant == old(selectedVariant) && product == old(product)
      ensures isModalOpen == old(isModalOpen) && placingOrder == old(placingOrder) && emiLoading == old(emiLoading)
      ensures confirmedOrder == old(confirmedOrder) && loading == old(loading) && error == old(error)
    {
      selectedPlan := Some(p);
    }

    /** The buy button is enabled while a plan is selected and no order is being placed. */
    predicate BuyEnabled()
      reads this
    {
      selectedPlan.Some? && !placingOrder
    }

    /** Pressing the buy button opens the order summary; a disabled button does nothing. */
    method OpenConfirm()
      modifies this
      ensures isModalOpen == (old(isModalOpen) || old(BuyEnabled()))
      ensures selectedPlan == old(selectedPlan) && selectedVariant == old(selectedVariant) && emiPlans == old(emiPlans)
      ensures product == old(product) && placingOrder == old(placingOrder) && emiLoading == old(emiLoading)
      ensures confirmedOrder == old(confirmedOrder) && loading == old(loading) && error == old(error)
    {
      if BuyEnabled() {
        isModalOpen := true;
      }
    }

    /** Closing the summary; its close buttons are disabled while the order is being placed. */
    method CloseConfirm()
      modifies this
      ensures isModalOpen == (old(isModalOpen) && old(placingOrder))
      ensures selectedPlan == old(selectedPlan) && selectedVariant == old(selectedVariant) && emiPlans == old(emiPlans)
      ensures product == old(product) && placingOrder == old(placingOrder) && emiLoading == old(emiLoading)
      ensures confirmedOrder == old(confirmedOrder) && loading == old(loading) && error == old(error)
    {
      if !placingOrder {
        isModalOpen := false;
      }
    }

    /**
     * `handleConfirmOrder`, with the order request answered by `placed`. With
     * no variant or no plan selected the request cannot be built and fails
     * like a rejected one. On success the confirmed order is kept and the
     * summary closes; on failure nothing changes but an alert.
     */
    method ConfirmOrder(placed: Result<ExpandedOrder>)
      requires Valid()
      modifies this
      ensures Valid() && !placingOrder
      ensures var ok := old(selectedVariant).Some? && old(selectedPlan).Some? && placed.Ok?;
              && (ok ==> confirmedOrder == Some(placed.value) && !isModalOpen)
              && (!ok ==> confirmedOrder == old(confirmedOrder) && isModalOpen == old(isModalOpen))
      ensures selectedPlan == old(selectedPlan) && selectedVariant == old(selectedVariant) && emiPlans == old(emiPlans)
      ensures product == old(product) && emiLoading == old(emiLoading) && loading == old(loading) && error == old(error)
    {
      placingOrder := true;
      if selectedVariant.Some? && selectedPlan.Some? && placed.Ok? {
        confirmedOrder := Some(placed.value);
        isModalOpen := false;
      }
      placingOrder := false;
    }
  }
}
