/**
 * Reads of the catalog tables shared by the controllers: lookups by a unique
 * key, the variants of a product, the plans of a variant, and plans in
 * ascending order of tenure.
 */
module CatalogTables {
  import opened Wrappers
  import opened Records
  import opened Sequences

  /** What the database's key and foreign-key constraints guarantee of the tables. */
  ghost predicate WellFormed(c: Catalog)
  {
    && (forall i, j :: 0 <= i < j < |c.products| ==> c.products[i].id != c.products[j].id)
    && (forall i, j :: 0 <= i < j < |c.products| ==> c.products[i].slug != c.products[j].slug)
    && (forall i, j :: 0 <= i < j < |c.variants| ==> c.variants[i].id != c.variants[j].id)
    && (forall i, j :: 0 <= i < j < |c.plans| ==> c.plans[i].id != c.plans[j].id)
    && (forall v :: v in c.variants ==> exists p :: p in c.products && p.id == v.productId)
    && (forall e :: e in c.plans ==> exists v :: v in c.variants && v.id == e.variantId)
  }

  /** `findUnique({ where: { slug } })` on the product table. */
  function ProductBySlug(products: seq<Product>, slug: string): (r: Option<Product>)
    ensures r.None? <==> forall p :: p in products ==> p.slug != slug
    ensures r.Some? ==> r.value in products && r.value.slug == slug
  {
    Find(products, (p: Product) => p.slug == slug)
  }

  /** `findUnique({ where: { id } })` on the product table. */
  function ProductById(products: seq<Product>, id: string): (r: Option<Product>)
    ensures r.None? <==> forall p :: p in products ==> p.id != id
    ensures r.Some? ==> r.value in products && r.value.id == id
  {
    Find(products, (p: Product) => p.id == id)
  }

  /** `findUnique({ where: { id } })` on the variant table. */
  function VariantById(variants: seq<Variant>, id: string): (r: Option<Variant>)
    ensures r.None? <==> forall v :: v in variants ==> v.id != id
    ensures r.Some? ==> r.value in variants && r.value.id == id
  {
    Find(variants, (v: Variant) => v.id == id)
  }

  /** `findUnique({ where: { id } })` on the plan table. */
  function PlanById(plans: seq<EmiPlan>, id: string): (r: Option<EmiPlan>)
    ensures r.None? <==> forall e :: e in plans ==> e.id != id
    ensures r.Some? ==> r.value in plans && r.value.id == id
  {
    Find(plans, (e: EmiPlan) => e.id == id)
  }

  /** A variant together with its product (`include: { product: true }`). */
  function VariantWithProduct(c: Catalog, variantId: string): (r: Option<(Variant, Product)>)
    ensures r.Some? ==> r.value.0 in c.variants && r.value.0.id == variantId
    ensures r.Some? ==> r.value.1 in c.products && r.value.1.id == r.value.0.productId
    ensures VariantById(c.variants, variantId).None? ==> r.None?
  {
    match VariantById(c.variants, variantId)
    case None => None
    case Some(v) =>
      match ProductById(c.products, v.productId)
      case None => None
      case Some(p) => Some((v, p))
  }

  /** In a well-formed catalog a slug names at most one product, so the lookup finds that one. */
  lemma ProductBySlugIsTheProduct(c: Catalog, p: Product)
    requires WellFormed(c) && p in c.products
    ensures ProductBySlug(c.products, p.slug) == Some(p)
  {
    var q := ProductBySlug(c.products, p.slug).value;
    var i :| 0 <= i < |c.products| && c.products[i] == p;
    var j :| 0 <= j < |c.products| && c.products[j] == q;
  }

  /** In a well-formed catalog the product of an existing variant exists, so the join never loses it. */
  lemma VariantWithProductFound(c: Catalog, variantId: string)
    requires WellFormed(c)
    ensures VariantWithProduct(c, variantId).Some? <==> VariantById(c.variants, variantId).Some?
  {
    match VariantById(c.variants, variantId)
    case None =>
    case Some(v) =>
      var p :| p in c.products && p.id == v.productId;
  }

  /** `findMany({ where: { productId } })`: the variants of a product, in table order. */
  function VariantsOf(variants: seq<Variant>, productId: string): (r: seq<Variant>)
    ensures forall v :: v in r <==> v in variants && v.productId == productId
    ensures forall v :: multiset(r)[v] == if v.productId == productId then multiset(variants)[v] else 0
  {
    Filter(variants, (v: Variant) => v.productId == productId)
  }

  /** `findMany({ where: { variantId } })`: the plans of a variant, in table order. */
  function PlansOf(plans: seq<EmiPlan>, variantId: string): (r: seq<EmiPlan>)
    ensures forall e :: e in r <==> e in plans && e.variantId == variantId
    ensures forall e :: multiset(r)[e] == if e.variantId == variantId then multiset(plans)[e] else 0
  {
    Filter(plans, (e: EmiPlan) => e.variantId == variantId)
  }

  function Tenure(e: EmiPlan): int
  {
    e.tenureMonths
  }

  /** Plans in ascending order of tenure: `orderBy: { tenureMonths: 'asc' }` or `sort((a, b) => a.tenureMonths - b.tenureMonths)`. */
  function ByTenure(plans: seq<EmiPlan>): (r: seq<EmiPlan>)
    ensures multiset(r) == multiset(plans) && |r| == |plans|
    ensures forall i, j :: 0 <= i < j < |r| ==> r[i].tenureMonths <= r[j].tenureMonths
  {
    SortBy(plans, Tenure)
  }

  /** A list already in tenure order is left as it is, so sorting again changes nothing. */
  lemma ByTenureIdempotent(plans: seq<EmiPlan>)
    ensures ByTenure(ByTenure(plans)) == ByTenure(plans)
  {
    SortBySorted(ByTenure(plans), Tenure);
  }

  /** The first plan in tenure order is one of the plans and has the shortest tenure. */
  lemma ByTenureHeadIsShortest(plans: seq<EmiPlan>)
    requires |plans| > 0
    ensures ByTenure(plans)[0] in plans
    ensures forall e :: e in plans ==> ByTenure(plans)[0].tenureMonths <= e.tenureMonths
  {
    SortByHeadIsLeast(plans, Tenure);
  }
}
