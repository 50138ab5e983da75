/** The plan read: the plans of one variant, in ascending order of tenure. */
module EmiController {
  import opened Wrappers
  import opened Records
  import opened CatalogTables
  import opened ProductController

  const VariantNotFound := "Variant not found"

  /** `GET /emi-plans/:variantId`: a 404 for an unknown variant, else all its plans by tenure. */
  function GetEmiPlansByVariant(c: Catalog, variantId: string): (r: Outcome<seq<EmiPlan>>)
    ensures !r.Thrown?
    ensures r.NotFound? <==> forall v :: v in c.variants ==> v.id != variantId
    ensures r.NotFound? ==> r.message == VariantNotFound
    ensures r.Success? ==> forall e :: e in r.data ==> e.variantId == variantId
    ensures r.Success? ==> forall e :: multiset(r.data)[e] == if e.variantId == variantId then multiset(c.plans)[e] else 0
    ensures r.Success? ==> forall i, j :: 0 <= i < j < |r.data| ==> r.data[i].tenureMonths <= r.data[j].tenureMonths
  {
    match VariantById(c.variants, variantId)
    case None => NotFound(VariantNotFound)
    case Some(_) =>
      var plans := ByTenure(PlansOf(c.plans, variantId));
      assert forall e :: e in plans ==> e in multiset(PlansOf(c.plans, variantId));
      Success(plans)
  }

  /** A known variant without plans is answered with an empty list, not an error. */
  lemma KnownVariantWithoutPlans(c: Catalog, variantId: string)
    requires exists v :: v in c.variants && v.id == variantId
    requires forall e :: e in c.plans ==> e.variantId != variantId
    ensures GetEmiPlansByVariant(c, variantId) == Success([])
  {
  }

  /**
   * The plan read agrees with the product reads: for every variant listed
   * under a product's slug, asking for its plans gives exactly the plans
   * nested in it.
   */
  lemma SameAsNestedPlans(c: Catalog, slug: string)
    requires exists p :: p in c.products && p.slug == slug
    ensures var r := GetProductVariants(c, slug);
            forall v :: v in r.data ==> GetEmiPlansByVariant(c, v.variant.id) == Success(v.emiPlans)
  {
    var p := ProductBySlug(c.products, slug).value;
    forall v | v in GetProductVariants(c, slug).data
      ensures GetEmiPlansByVariant(c, v.variant.id) == Success(v.emiPlans)
    {
      assert v.variant in VariantsOf(c.variants, p.id);
    }
  }
}
