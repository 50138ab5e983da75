/**
 * The order controller over an in-memory order table: placing an order
 * against a variant and a plan, listing orders newest first, and cancelling
 * an order by id. The catalog is read-only here and is passed in; the random
 * draw of the order number, the new row's id and its creation time are
 * parameters or come from the store's id counter.
 */
module OrderController {
  import opened Wrappers
  import opened Records
  import opened Sequences
  import opened CatalogTables
  import opened Pricing
  import opened OrderNumbers

  const VariantOrPlanNotFound := "Variant or EMI Plan not found"

  /** Some order row already carries `number` (the order number column is unique). */
  predicate NumberTaken(orders: seq<Order>, number: string)
  {
    exists i :: 0 <= i < |orders| && orders[i].orderNumber == number
  }

  /** The order joined with the current variant, that variant's product and the plan (`include`). */
  function Expand(c: Catalog, o: Order): (r: ExpandedOrder)
    ensures r.order == o
    ensures r.variant.Some? ==> r.variant.value in c.variants && r.variant.value.id == o.variantId
    ensures r.emiPlan.Some? ==> r.emiPlan.value in c.plans && r.emiPlan.value.id == o.emiPlanId
    ensures r.product.Some? ==> r.variant.Some? && r.product.value in c.products
                                && r.product.value.id == r.variant.value.productId
    ensures r.variant == VariantById(c.variants, o.variantId) && r.emiPlan == PlanById(c.plans, o.emiPlanId)
    ensures r.product == if r.variant.Some? then ProductById(c.products, r.variant.value.productId) else None
    ensures WellFormed(c) && (exists v :: v in c.variants && v.id == o.variantId) ==> r.variant.Some? && r.product.Some?
    ensures (exists e :: e in c.plans && e.id == o.emiPlanId) ==> r.emiPlan.Some?
  {
    var v := VariantById(c.variants, o.variantId);
    var p := if v.Some? then ProductById(c.products, v.value.productId) else None;
    ExpandedOrder(o, v, p, PlanById(c.plans, o.emiPlanId))
  }

  /**
   * What `POST /orders` answers for rows `orders`, new row id `id`, random
   * draw `k` and creation time `now`.
   */
  function PlaceOrder(c: Catalog, orders: seq<Order>, variantId: string, emiPlanId: string,
                      id: nat, k: nat, now: int): (r: Outcome<ExpandedOrder>)
    requires k < 900000
    ensures r.NotFound? <==> VariantWithProduct(c, variantId).None? || PlanById(c.plans, emiPlanId).None?
    ensures r.NotFound? ==> r.message == VariantOrPlanNotFound
    ensures r.Thrown? <==> !r.NotFound? && NumberTaken(orders, OrderNumber(k))
    ensures r.Thrown? ==> r.error.code == Some(UniqueConstraintFailed)
    ensures r.Success? ==>
      && r.data.variant.Some? && r.data.product.Some? && r.data.emiPlan.Some?
      && r.data.variant.value in c.variants && r.data.variant.value.id == variantId
      && r.data.product.value in c.products && r.data.product.value.id == r.data.variant.value.productId
      && r.data.emiPlan.value in c.plans && r.data.emiPlan.value.id == emiPlanId
    ensures r.Success? ==>
      var o := r.data.order;
      && o.id == id && o.createdAt == now && o.status == Confirmed
      && o.variantId == variantId && o.emiPlanId == emiPlanId
      && IsOrderNumber(o.orderNumber) && DrawOf(o.orderNumber) == Some(k)
      && !NumberTaken(orders, o.orderNumber)
      && o.monthlySchedule == r.data.emiPlan.value.monthlyAmount
      && o.tenure == r.data.emiPlan.value.tenureMonths
      && o.totalAmount == OrderTotal(r.data.product.value, r.data.variant.value)
  {
    var found := VariantWithProduct(c, variantId);
    var plan := PlanById(c.plans, emiPlanId);
    if found.None? || plan.None? then NotFound(VariantOrPlanNotFound)
    else
      var (variant, product) := found.value;
      var number := OrderNumber(k);
      OrderNumberWellFormed(k);
      if NumberTaken(orders, number) then Thrown(DatabaseError(UniqueConstraintFailed))
      else
        var o := Order(id, number, variantId, emiPlanId, OrderTotal(product, variant),
                       plan.value.monthlyAmount, plan.value.tenureMonths, Confirmed, now);
        Success(ExpandedOrder(o, Some(variant), Some(product), plan))
  }

  /** Nothing checks that the plan belongs to the variant: a plan of another variant is accepted. */
  lemma PlanOfOtherVariantAccepted(c: Catalog, orders: seq<Order>, variant: Variant, plan: EmiPlan,
                                   id: nat, k: nat, now: int)
    requires WellFormed(c) && variant in c.variants && plan in c.plans
    requires plan.variantId != variant.id
    requires k < 900000 && !NumberTaken(orders, OrderNumber(k))
    ensures PlaceOrder(c, orders, variant.id, plan.id, id, k, now).Success?
  {
    VariantWithProductFound(c, variant.id);
  }

  function NegCreatedAt(o: Order): int
  {
    -o.createdAt
  }

  /** The bare order rows of a list of joined orders. */
  function Rows(r: seq<ExpandedOrder>): (os: seq<Order>)
    ensures |os| == |r| && forall i :: 0 <= i < |r| ==> os[i] == r[i].order
  {
    seq(|r|, i requires 0 <= i < |r| => r[i].order)
  }

  /** `GET /orders`: every row, newest first, each joined with its variant, product and plan. */
  function ListOrders(c: Catalog, orders: seq<Order>): (r: seq<ExpandedOrder>)
    ensures |r| == |orders|
    ensures forall i :: 0 <= i < |r| ==> r[i] == Expand(c, r[i].order)
    ensures multiset(Rows(r)) == multiset(orders)
    ensures forall i, j :: 0 <= i < j < |r| ==> r[i].order.createdAt >= r[j].order.createdAt
  {
    var sorted := SortBy(orders, NegCreatedAt);
    var r := seq(|sorted|, i requires 0 <= i < |sorted| => Expand(c, sorted[i]));
    assert Rows(r) == sorted;
    forall i, j | 0 <= i < j < |r| ensures r[i].order.createdAt >= r[j].order.createdAt {
      assert NegCreatedAt(sorted[i]) <= NegCreatedAt(sorted[j]);
    }
    r
  }

  /**
   * The amounts an order shows come from its own row, not from the catalog:
   * listing the same rows against an edited catalog gives the same orders.
   */
  lemma SnapshotIgnoresCatalogEdits(c1: Catalog, c2: Catalog, orders: seq<Order>)
    ensures forall i :: 0 <= i < |orders| ==> ListOrders(c1, orders)[i].order == ListOrders(c2, orders)[i].order
  {
  }

  /** Every order with id `id` gets status `Cancelled`; everything else is kept. */
  function MarkCancelled(orders: seq<Order>, id: nat): (r: seq<Order>)
    ensures |r| == |orders|
    ensures forall j :: 0 <= j < |orders| ==> r[j] == if orders[j].id == id then orders[j].(status := Cancelled) else orders[j]
  {
    seq(|orders|, j requires 0 <= j < |orders| => if orders[j].id == id then orders[j].(status := Cancelled) else orders[j])
  }

  /** Cancelling twice is the same as cancelling once. */
  lemma CancelIdempotent(orders: seq<Order>, id: nat)
    ensures MarkCancelled(MarkCancelled(orders, id), id) == MarkCancelled(orders, id)
  {
  }

  /** Cancellation is terminal: a cancelled order stays cancelled, whatever order is cancelled next. */
  lemma CancelledStaysCancelled(orders: seq<Order>, id: nat, j: nat)
    requires j < |orders| && orders[j].status == Cancelled
    ensures MarkCancelled(orders, id)[j].status == Cancelled
  {
  }

  /** An id no order has leaves the rows as they are. */
  lemma CancelUnknownIdIsIdentity(orders: seq<Order>, id: nat)
    requires forall j :: 0 <= j < |orders| ==> orders[j].id != id
    ensures MarkCancelled(orders, id) == orders
  {
  }

  /** Ids are unique and below `nextId`; order numbers are well formed and unique. */
  ghost predicate ValidRows(orders: seq<Order>, nextId: nat)
  {
    && (forall i :: 0 <= i < |orders| ==> orders[i].id < nextId && IsOrderNumber(orders[i].orderNumber))
    && (forall i, j :: 0 <= i < j < |orders| ==> orders[i].id != orders[j].id)
    && (forall i, j :: 0 <= i < j < |orders| ==> orders[i].orderNumber != orders[j].orderNumber)
  }

  /** Appending a row with the next id and an unused, well-formed number keeps the table valid. */
  lemma AppendKeepsValid(orders: seq<Order>, nextId: nat, o: Order)
    requires ValidRows(orders, nextId)
    requires o.id == nextId && IsOrderNumber(o.orderNumber) && !NumberTaken(orders, o.orderNumber)
    ensures ValidRows(orders + [o], nextId + 1)
  {
  }

  /** Cancelling changes only statuses, so the table stays valid. */
  lemma CancelKeepsValid(orders: seq<Order>, nextId: nat, id: nat)
    requires ValidRows(orders, nextId)
    ensures ValidRows(MarkCancelled(orders, id), nextId)
  {
  }

  /** With unique ids, cancelling by id rewrites exactly the one row that has it. */
  lemma CancelRewritesOneRow(orders: seq<Order>, nextId: nat, id: nat, i: nat)
    requires ValidRows(orders, nextId) && i < |orders| && orders[i].id == id
    ensures MarkCancelled(orders, id) == orders[i := orders[i].(status := Cancelled)]
  {
    assert forall j :: 0 <= j < |orders| && j != i ==> orders[j].id != id;
  }

  /** The order table. Rows are kept in insertion order; `nextId` is the id the next row gets. */
  class OrderStore {
    var orders: seq<Order>
    var nextId: nat

    ghost predicate Valid()
      reads this
    {
      ValidRows(orders, nextId)
    }

    constructor ()
      ensures Valid() && orders == [] && nextId == 0
    {
      orders := [];
      nextId := 0;
    }

    /** `createOrder`: a new `Confirmed` row on success, no change on any failure. */
    method CreateOrder(c: Catalog, variantId: string, emiPlanId: string, k: nat, now: int)
      returns (r: Outcome<ExpandedOrder>)
      requires Valid() && k < 900000
      modifies this
      ensures Valid()
      ensures r == PlaceOrder(c, old(orders), variantId, emiPlanId, old(nextId), k, now)
      ensures r.Success? ==> orders == old(orders) + [r.data.order] && nextId == old(nextId) + 1
      ensures !r.Success? ==> orders == old(orders) && nextId == old(nextId)
    {
      var found := VariantWithProduct(c, variantId);
      var plan := PlanById(c.plans, emiPlanId);
      if found.None? || plan.None? {
        return NotFound(VariantOrPlanNotFound);
      }
      var (variant, product) := found.value;
      var number := OrderNumber(k);
      if NumberTaken(orders, number) {
        return Thrown(DatabaseError(UniqueConstraintFailed));
      }
      OrderNumberWellFormed(k);
      var o := Order(nextId, number, variantId, emiPlanId, OrderTotal(product, variant),
                     plan.value.monthlyAmount, plan.value.tenureMonths, Confirmed, now);
      r := Success(ExpandedOrder(o, Some(variant), Some(product), plan));
      assert r == PlaceOrder(c, orders, variantId, emiPlanId, nextId, k, now);
      AppendKeepsValid(orders, nextId, o);
      orders := orders + [o];
      nextId := nextId + 1;
    }

    /** `getAllOrders`: reads the table without changing it. */
    method GetAllOrders(c: Catalog) returns (r: seq<ExpandedOrder>)
      ensures r == ListOrders(c, orders)
    {
      r := ListOrders(c, orders);
    }

    /**
     * `cancelOrder`: overwrites the status of the row with id `id` with
     * `Cancelled`, whatever it was; a missing row is the database's
     * record-not-found error and changes nothing.
     */
    method CancelOrder(c: Catalog, id: nat) returns (r: Outcome<ExpandedOrder>)
      requires Valid()
      modifies this
      ensures Valid() && nextId == old(nextId)
      ensures orders == MarkCancelled(old(orders), id)
      ensures !r.NotFound?
      ensures r.Thrown? <==> forall j :: 0 <= j < |old(orders)| ==> old(orders)[j].id != id
      ensures r.Thrown? ==> r.error.code == Some(RecordNotFound)
      ensures r.Success? ==> r.data.order.id == id && r.data.order.status == Cancelled
                             && r.data.order in orders && r == Success(Expand(c, r.data.order))
    {
      match FirstIndex(orders, (o: Order) => o.id == id)
      case None =>
        CancelUnknownIdIsIdentity(orders, id);
        CancelKeepsValid(orders, nextId, id);
        r := Thrown(DatabaseError(RecordNotFound));
      case Some(i) =>
        CancelRewritesOneRow(orders, nextId, id, i);
        CancelKeepsValid(orders, nextId, id);
        var updated := orders[i].(status := Cancelled);
        orders := orders[i := updated];
        r := Success(Expand(c, updated));
    }
  }
}
