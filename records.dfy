/**
 * The records of the EMI store: the catalog (products, their colour/storage
 * variants and each variant's monthly-instalment plans) and the orders placed
 * against a variant and a plan. The relational database is replaced by
 * in-memory tables: a catalog table is a sequence of rows in table order.
 */
module Records {
  import opened Wrappers

  /** Money is a whole number of rupees. */
  type Money = int

  datatype Product = Product(
    id: string,
    slug: string,
    name: string,
    mrp: Money,
    price: Money,
    createdAt: int)

  /** A purchasable configuration of a product; `priceOverride` is nullable. */
  datatype Variant = Variant(
    id: string,
    productId: string,
    color: string,
    storage: string,
    priceOverride: Option<Money>)

  /** A monthly-instalment plan of one variant. `interestRate` is a percentage. */
  datatype EmiPlan = EmiPlan(
    id: string,
    variantId: string,
    monthlyAmount: Money,
    tenureMonths: int,
    interestRate: real,
    cashbackAmount: Money)

  datatype Status = Confirmed | Cancelled

  /**
   * An order row. `totalAmount`, `monthlySchedule` and `tenure` are values
   * copied from the catalog when the order was placed; `variantId` and
   * `emiPlanId` are plain references.
   */
  datatype Order = Order(
    id: nat,
    orderNumber: string,
    variantId: string,
    emiPlanId: string,
    totalAmount: Money,
    monthlySchedule: Money,
    tenure: int,
    status: Status,
    createdAt: int)

  /** The in-memory catalog tables. */
  datatype Catalog = Catalog(products: seq<Product>, variants: seq<Variant>, plans: seq<EmiPlan>)

  /** A variant as the API returns it: with its plans nested. */
  datatype VariantWithPlans = VariantWithPlans(variant: Variant, emiPlans: seq<EmiPlan>)

  /** A product as the API returns it: with its variants (and their plans) nested. */
  datatype ProductWithVariants = ProductWithVariants(product: Product, variants: seq<VariantWithPlans>)

  /** An order as the API returns it: joined with the current variant, its product and the plan. */
  datatype ExpandedOrder = ExpandedOrder(
    order: Order,
    variant: Option<Variant>,
    product: Option<Product>,
    emiPlan: Option<EmiPlan>)

  /**
   * An error object handed to the error middleware: an optional database
   * error code (`err.code`), an optional HTTP status (`err.statusCode`),
   * the message (the empty string when it has none) and the stack trace.
   */
  datatype AppError = AppError(code: Option<string>, statusCode: Option<int>, message: string, stack: string)

  /**
   * What a controller does with a request: answer with data, answer 404
   * with a message itself, or throw an error on to the error middleware.
   */
  datatype Outcome<+T> = Success(data: T) | NotFound(message: string) | Thrown(error: AppError)

  /** The error the database layer throws for a violated constraint or a missing row. */
  function DatabaseError(code: string): (e: AppError)
    ensures e.code == Some(code) && e.statusCode.None?
  {
    AppError(Some(code), None, "database error " + code, "")
  }

  const UniqueConstraintFailed := "P2002"
  const RecordNotFound := "P2025"
}
