/**
 * The product reads: the whole catalog, one product by its slug, and the
 * variants of a product. Plans nested in the answers are in tenure order
 * wherever the query asks for that order.
 */
module ProductController {
  import opened Wrappers
  import opened Records
  import opened Sequences
  import opened CatalogTables

  const ProductNotFound := "Product not found"

  /** The variants of a product, each with its plans nested, in tenure order when `sortPlans` holds. */
  function VariantsWithPlans(c: Catalog, productId: string, sortPlans: bool): (r: seq<VariantWithPlans>)
    ensures |r| == |VariantsOf(c.variants, productId)|
    ensures forall i :: 0 <= i < |r| ==> r[i].variant == VariantsOf(c.variants, productId)[i]
    ensures forall i :: 0 <= i < |r| ==>
      r[i].emiPlans == if sortPlans then ByTenure(PlansOf(c.plans, r[i].variant.id)) else PlansOf(c.plans, r[i].variant.id)
  {
    var vs := VariantsOf(c.variants, productId);
    seq(|vs|, i requires 0 <= i < |vs| =>
      VariantWithPlans(vs[i], if sortPlans then ByTenure(PlansOf(c.plans, vs[i].id)) else PlansOf(c.plans, vs[i].id)))
  }

  /** The bare variants of a list of nested variants. */
  function Variants(r: seq<VariantWithPlans>): (vs: seq<Variant>)
    ensures |vs| == |r| && forall i :: 0 <= i < |r| ==> vs[i] == r[i].variant
  {
    seq(|r|, i requires 0 <= i < |r| => r[i].variant)
  }

  /** A nested variant list holds exactly the variants of `productId`, as many times as the table does. */
  ghost predicate ExactlyVariantsOf(r: seq<VariantWithPlans>, c: Catalog, productId: string)
  {
    forall v :: multiset(Variants(r))[v] == if v.productId == productId then multiset(c.variants)[v] else 0
  }

  /** Every variant's nested plans are all of its plans, in ascending order of tenure. */
  ghost predicate PlansComplete(r: seq<VariantWithPlans>, c: Catalog, sorted: bool)
  {
    forall i :: 0 <= i < |r| ==>
      && multiset(r[i].emiPlans) == multiset(PlansOf(c.plans, r[i].variant.id))
      && (forall e :: e in r[i].emiPlans ==> e.variantId == r[i].variant.id)
      && (sorted ==> forall a, b :: 0 <= a < b < |r[i].emiPlans| ==>
            r[i].emiPlans[a].tenureMonths <= r[i].emiPlans[b].tenureMonths)
  }

  lemma VariantsWithPlansCorrect(c: Catalog, productId: string, sortPlans: bool)
    ensures ExactlyVariantsOf(VariantsWithPlans(c, productId, sortPlans), c, productId)
    ensures PlansComplete(VariantsWithPlans(c, productId, sortPlans), c, sortPlans)
  {
    var r := VariantsWithPlans(c, productId, sortPlans);
    assert Variants(r) == VariantsOf(c.variants, productId);
    forall i | 0 <= i < |r|
      ensures multiset(r[i].emiPlans) == multiset(PlansOf(c.plans, r[i].variant.id))
      ensures forall e :: e in r[i].emiPlans ==> e.variantId == r[i].variant.id
    {
      var ps := PlansOf(c.plans, r[i].variant.id);
      forall e | e in r[i].emiPlans ensures e.variantId == r[i].variant.id {
        assert e in multiset(r[i].emiPlans);
      }
    }
  }

  /** The bare products of a list of nested products. */
  function Products(r: seq<ProductWithVariants>): (ps: seq<Product>)
    ensures |ps| == |r| && forall i :: 0 <= i < |r| ==> ps[i] == r[i].product
  {
    seq(|r|, i requires 0 <= i < |r| => r[i].product)
  }

  function CreatedAt(p: Product): int
  {
    p.createdAt
  }

  /** A product with all its variants and their plans in table order. */
  function NestVariants(c: Catalog, p: Product): (r: ProductWithVariants)
    ensures r.product == p && r.variants == VariantsWithPlans(c, p.id, false)
    ensures ExactlyVariantsOf(r.variants, c, p.id) && PlansComplete(r.variants, c, false)
  {
    VariantsWithPlansCorrect(c, p.id, false);
    ProductWithVariants(p, VariantsWithPlans(c, p.id, false))
  }

  /**
   * `GET /products`: every product, oldest first, each with all its
   * variants and their plans in table order (no order is asked for).
   */
  function GetAllProducts(c: Catalog): (r: seq<ProductWithVariants>)
    ensures multiset(Products(r)) == multiset(c.products)
    ensures forall i, j :: 0 <= i < j < |r| ==> r[i].product.createdAt <= r[j].product.createdAt
    ensures forall i :: 0 <= i < |r| ==> r[i] == NestVariants(c, r[i].product)
  {
    var ps := SortBy(c.products, CreatedAt);
    var r := seq(|ps|, i requires 0 <= i < |ps| => NestVariants(c, ps[i]));
    assert Products(r) == ps;
    r
  }

  /** `GET /products/:slug`: the product with that slug and its variants, plans in tenure order, or a 404. */
  function GetProductBySlug(c: Catalog, slug: string): (r: Outcome<ProductWithVariants>)
    ensures !r.Thrown?
    ensures r.NotFound? <==> forall p :: p in c.products ==> p.slug != slug
    ensures r.NotFound? ==> r.message == ProductNotFound
    ensures r.Success? ==> r.data.product in c.products && r.data.product.slug == slug
    ensures r.Success? ==> ExactlyVariantsOf(r.data.variants, c, r.data.product.id)
    ensures r.Success? ==> PlansComplete(r.data.variants, c, true)
  {
    match ProductBySlug(c.products, slug)
    case None => NotFound(ProductNotFound)
    case Some(p) =>
      VariantsWithPlansCorrect(c, p.id, true);
      Success(ProductWithVariants(p, VariantsWithPlans(c, p.id, true)))
  }

  /** `GET /products/:slug/variants`: the product's variants, plans in tenure order, or a 404. */
  function GetProductVariants(c: Catalog, slug: string): (r: Outcome<seq<VariantWithPlans>>)
    ensures !r.Thrown?
    ensures r.NotFound? <==> forall p :: p in c.products ==> p.slug != slug
    ensures r.NotFound? ==> r.message == ProductNotFound
    ensures r.Success? ==> exists p :: p in c.products && p.slug == slug && ExactlyVariantsOf(r.data, c, p.id)
    ensures r.Success? ==> PlansComplete(r.data, c, true)
  {
    match ProductBySlug(c.products, slug)
    case None => NotFound(ProductNotFound)
    case Some(p) =>
      VariantsWithPlansCorrect(c, p.id, true);
      Success(VariantsWithPlans(c, p.id, true))
  }

  /** Both slug reads agree: the variants listed are those nested in the product. */
  lemma SlugReadsAgree(c: Catalog, slug: string)
    ensures GetProductBySlug(c, slug).NotFound? <==> GetProductVariants(c, slug).NotFound?
    ensures GetProductBySlug(c, slug).Success? ==>
      GetProductVariants(c, slug) == Success(GetProductBySlug(c, slug).data.variants)
  {
  }
}
