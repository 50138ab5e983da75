/**
 * The "My Orders" page: the listed orders, the count of active ones, and the
 * cancel flow, which marks the order cancelled in the list the page already
 * holds instead of fetching the list again.
 */
module OrdersPage {
  import opened Wrappers
  import opened Records
  import opened Sequences
  import opened OrderController

  /** An order that is not cancelled: it counts as active and shows a cancel button. */
  predicate IsActive(o: ExpandedOrder)
  {
    o.order.status != Cancelled
  }

  /** The number of active orders shown in the page header. */
  function ActiveCount(orders: seq<ExpandedOrder>): (n: nat)
    ensures n <= |orders|
    ensures n == 0 <==> forall i :: 0 <= i < |orders| ==> !IsActive(orders[i])
    ensures n == |Filter(orders, IsActive)|
  {
    if |orders| == 0 then 0
    else
      assert forall i :: 0 < i < |orders| ==> orders[i] == orders[1..][i - 1];
      assert orders == [orders[0]] + orders[1..];
      FilterCons(orders[0], orders[1..], IsActive);
      (if IsActive(orders[0]) then 1 else 0) + ActiveCount(orders[1..])
  }

  /** The list after a confirmed cancellation: each entry for order `id` is marked cancelled, the rest kept. */
  function CancelInList(orders: seq<ExpandedOrder>, id: nat): (r: seq<ExpandedOrder>)
    ensures |r| == |orders|
    ensures forall i :: 0 <= i < |orders| ==>
      r[i] == if orders[i].order.id == id then orders[i].(order := orders[i].order.(status := Cancelled)) else orders[i]
  {
    seq(|orders|, i requires 0 <= i < |orders| =>
      if orders[i].order.id == id then orders[i].(order := orders[i].order.(status := Cancelled)) else orders[i])
  }

  /**
   * The list the page holds after cancelling equals the list a fresh fetch
   * would give once the server has cancelled the order: marking an order
   * cancelled does not move it, since the list is ordered by creation time.
   */
  lemma OptimisticCancelMatchesRefetch(c: Catalog, rows: seq<Order>, id: nat)
    ensures CancelInList(ListOrders(c, rows), id) == ListOrders(c, MarkCancelled(rows, id))
  {
    var cancel := (o: Order) => if o.id == id then o.(status := Cancelled) else o;
    assert MarkCancelled(rows, id) == Map(rows, cancel);
    SortByCommutesWithMap(rows, NegCreatedAt, cancel);
    var sorted := SortBy(rows, NegCreatedAt);
    var lhs := CancelInList(ListOrders(c, rows), id);
    var rhs := ListOrders(c, MarkCancelled(rows, id));
    assert SortBy(MarkCancelled(rows, id), NegCreatedAt) == Map(sorted, cancel);
    forall i | 0 <= i < |lhs| ensures lhs[i] == rhs[i] {
      assert ListOrders(c, rows)[i] == Expand(c, sorted[i]);
      assert rhs[i] == Expand(c, cancel(sorted[i]));
      ExpandIgnoresStatus(c, sorted[i]);
    }
  }

  /** Joining does not look at the status, so a cancelled row joins to the same records. */
  lemma ExpandIgnoresStatus(c: Catalog, o: Order)
    ensures Expand(c, o.(status := Cancelled)) == Expand(c, o).(order := o.(status := Cancelled))
  {
  }

  /** Cancelling an order that is already cancelled, or absent, leaves the list as it is. */
  lemma CancelInactiveIsIdentity(orders: seq<ExpandedOrder>, id: nat)
    requires forall i :: 0 <= i < |orders| && orders[i].order.id == id ==> !IsActive(orders[i])
    ensures CancelInList(orders, id) == orders
  {
  }

  /**
   * With order ids unique in the list, cancelling an active order lowers the
   * active count by exactly one.
   */
  lemma {:induction false} CancelActiveDecrementsCount(orders: seq<ExpandedOrder>, id: nat, k: nat)
    requires forall i, j :: 0 <= i < j < |orders| ==> orders[i].order.id != orders[j].order.id
    requires k < |orders| && orders[k].order.id == id && IsActive(orders[k])
    ensures ActiveCount(CancelInList(orders, id)) == ActiveCount(orders) - 1
  {
    var r := CancelInList(orders, id);
    var rest := orders[1..];
    assert r[1..] == CancelInList(rest, id);
    if k == 0 {
      assert forall i :: 0 <= i < |rest| ==> rest[i].order.id != id by {
        forall i | 0 <= i < |rest| ensures rest[i].order.id != id {
          assert rest[i] == orders[i + 1];
        }
      }
      CancelInactiveIsIdentity(rest, id);
    } else {
      assert rest[k - 1] == orders[k];
      CancelActiveDecrementsCount(rest, id, k - 1);
    }
  }

  /**
   * After a cancellation exactly the entries of the cancelled order lose
   * their cancel button; every other entry keeps or lacks it as before.
   */
  lemma CancelHidesOnlyThatButton(orders: seq<ExpandedOrder>, id: nat)
    ensures forall i :: 0 <= i < |orders| ==>
      (IsActive(CancelInList(orders, id)[i]) <==> IsActive(orders[i]) && orders[i].order.id != id)
  {
  }

  /** The page's state. */
  class Page {
    var orders: seq<ExpandedOrder>
    var loading: bool
    var isModalOpen: bool
    var orderToCancel: Option<ExpandedOrder>
    var cancelling: bool

    constructor ()
      ensures orders == [] && loading && !isModalOpen && orderToCancel.None? && !cancelling
    {
      orders := [];
      loading := true;
      isModalOpen := false;
      orderToCancel := None;
      cancelling := false;
    }

    /** The order list arrives (or the fetch fails and the list stays empty as it was). */
    method Loaded(fetched: Result<seq<ExpandedOrder>>)
      modifies this
      ensures !loading
      ensures orders == if fetched.Ok? then fetched.value else old(orders)
      ensures isModalOpen == old(isModalOpen) && orderToCancel == old(orderToCancel) && cancelling == old(cancelling)
    {
      if fetched.Ok? {
        orders := fetched.value;
      }
      loading := false;
    }

    /** The cancel button of order `o`: remembers it and opens the confirmation. */
    method HandleCancelClick(o: ExpandedOrder)
      modifies this
      ensures orderToCancel == Some(o) && isModalOpen
      ensures orders == old(orders) && loading == old(loading) && cancelling == old(cancelling)
    {
      orderToCancel := Some(o);
      isModalOpen := true;
    }

    /** Closing the confirmation (its backdrop works even during a request); the chosen order is kept. */
    method CloseModal()
      modifies this
      ensures !isModalOpen
      ensures orders == old(orders) && orderToCancel == old(orderToCancel)
      ensures loading == old(loading) && cancelling == old(cancelling)
    {
      isModalOpen := false;
    }

    /**
     * `handleConfirmCancel`, where `succeeded` says whether the cancel request
     * succeeded. With no order chosen nothing happens. On success the order is
     * marked cancelled in the list and the confirmation closes; on failure the
     * list is left as it was.
     */
    method HandleConfirmCancel(succeeded: bool)
      modifies this
      ensures !cancelling || (old(orderToCancel).None? && cancelling == old(cancelling))
      ensures old(orderToCancel).Some? && succeeded ==>
                orders == CancelInList(old(orders), old(orderToCancel).value.order.id)
                && !isModalOpen && orderToCancel.None?
      ensures old(orderToCancel).None? || !succeeded ==>
                orders == old(orders) && isModalOpen == old(isModalOpen) && orderToCancel == old(orderToCancel)
      ensures loading == old(loading)
    {
      if orderToCancel.None? {
        return;
      }
      cancelling := true;
      if succeeded {
        orders := CancelInList(orders, orderToCancel.value.order.id);
        isModalOpen := false;
        orderToCancel := None;
      }
      cancelling := false;
    }
  }
}
