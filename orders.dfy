/**
 * The orders service: a global order-id counter, an in-memory table of
 * confirmed orders, and `create_order`, which walks the requested items
 * against the inventory service and stores the order only when every item
 * was reserved.
 */
module Orders {
  import opened Wrappers
  import Inventory
  import opened Workflow

  /** The only status an order ever gets. */
  datatype OrderStatus = Confirmed

  /** A stored order; `totalValue` is in cents. */
  datatype Order = Order(orderId: int, customerId: string, items: seq<LineItem>, totalValue: int, status: OrderStatus)

  /** The body of a `create_order` request. */
  datatype OrderRequest = OrderRequest(customerId: string, items: seq<ItemRequest>)

  /** `get_order` for an id that was never stored (HTTP 404). */
  datatype LookupError = OrderNotFound(orderId: int)

  /** The answer of `get_all_orders`. */
  datatype OrderListing = OrderListing(orders: seq<Order>, total: int)

  /** The id the counter starts from. */
  const FirstOrderId: int := 1000

  /** The orders stored under `ids`, in that order. */
  function InOrder(orders: map<int, Order>, ids: seq<int>): (r: seq<Order>)
    requires forall i :: 0 <= i < |ids| ==> ids[i] in orders
    ensures |r| == |ids|
    ensures forall i :: 0 <= i < |ids| ==> r[i] == orders[ids[i]]
    decreases |ids|
  {
    if ids == [] then [] else InOrder(orders, ids[..|ids| - 1]) + [orders[ids[|ids| - 1]]]
  }

  class OrderService {
    /** The next order id to hand out (`order_id_counter`). */
    var counter: int
    /** The stored orders by id (`orders_db`). */
    var orders: map<int, Order>
    /** The keys of `orders` in insertion order, which is the order the table lists them in. */
    var ids: seq<int>
    /** The inventory service the orders service calls. */
    const inventory: Inventory.Store

    /**
     * Ids were handed out in increasing order below the counter, every stored
     * order sits under its own id, is confirmed, and its total is the sum of
     * its line totals.
     */
    ghost predicate Valid()
      reads this
    {
      (forall i, j :: 0 <= i < j < |ids| ==> ids[i] < ids[j]) &&
      (forall i :: 0 <= i < |ids| ==> ids[i] < counter) &&
      (forall id :: id in ids <==> id in orders) &&
      |orders| == |ids| &&
      (forall id :: id in orders ==>
         orders[id].orderId == id && orders[id].status == Confirmed &&
         orders[id].totalValue == SumTotals(orders[id].items))
    }

    constructor (inventory: Inventory.Store)
      ensures Valid()
      ensures this.inventory == inventory
      ensures counter == FirstOrderId && orders == map[] && ids == []
    {
      this.inventory := inventory;
      counter := FirstOrderId;
      orders := map[];
      ids := [];
    }

    /** `get_order`: the stored order with this id, or 404. */
    function GetOrder(orderId: int): (r: Result<Order, LookupError>)
      reads this
      ensures r.Success? <==> orderId in orders
      ensures r.Success? ==> r.value == orders[orderId]
      ensures r.Failure? ==> r.error == OrderNotFound(orderId)
    {
      if orderId in orders then Success(orders[orderId]) else Failure(OrderNotFound(orderId))
    }

    /** `get_all_orders`: every stored order in the order it was stored, and how many there are. */
    function AllOrders(): (r: OrderListing)
      requires Valid()
      reads this
      ensures r.total == |orders| == |r.orders|
      ensures forall i :: 0 <= i < |r.orders| ==> r.orders[i].orderId in orders && orders[r.orders[i].orderId] == r.orders[i]
      ensures forall i, j :: 0 <= i < j < |r.orders| ==> r.orders[i].orderId < r.orders[j].orderId
      ensures forall id :: id in orders ==> exists i :: 0 <= i < |r.orders| && r.orders[i].orderId == id
    {
      var listed := InOrder(orders, ids);
      assert forall id :: id in orders ==> exists i :: 0 <= i < |ids| && ids[i] == id && listed[i].orderId == id;
      OrderListing(listed, |orders|)
    }

    /**
     * One pass of `create_order`'s item loop: read the product, compare its
     * stock with the quantity, reserve, and append the priced line item.
     */
    method CheckAndReserve(item: ItemRequest, fault: Fault, lines: seq<LineItem>, total: int)
      returns (lines': seq<LineItem>, total': int, error: Option<OrderError>)
      modifies inventory
      ensures Progress(lines', total', inventory.table, error) ==
              Advance(Progress(lines, total, old(inventory.table), None), item, fault)
    {
      lines', total', error := lines, total, None;
      if fault.ReadUnreachable? {
        error := Some(InventoryUnreachable);
        return;
      }
      var view := inventory.Get(item.productId);
      if view.Failure? {
        error := Some(ProductNotFound(item.productId));
        return;
      }
      if view.value.stock < item.quantity {
        error := Some(InsufficientStock(item.productId, view.value.stock, item.quantity));
        return;
      }
      if fault.Interleaved? {
        // another client's reservation lands between the read and this one
        var _ := inventory.Reserve(item.productId, fault.quantity);
      }
      if fault.ReserveUnreachable? {
        error := Some(InventoryUnreachable);
        return;
      }
      var reservation := inventory.Reserve(item.productId, item.quantity);
      if fault.ReserveResponseLost? {
        error := Some(InventoryUnreachable);
      } else if reservation.Failure? {
        error := Some(ReservationFailed(item.productId));
      } else {
        var line := LineItem(item.productId, view.value.name, item.quantity, view.value.price,
                             view.value.price * item.quantity);
        total' := total + line.total;
        lines' := lines + [line];
      }
    }

    /**
     * The item loop of `create_order`: items in request order until the first
     * failure, accumulating line items and the running total.
     */
    method ReserveItems(items: seq<ItemRequest>, faults: seq<Fault>)
      returns (lines: seq<LineItem>, total: int, error: Option<OrderError>)
      modifies inventory
      ensures Progress(lines, total, inventory.table, error) == Run(old(inventory.table), items, faults)
    {
      ghost var t0 := inventory.table;
      lines, total, error := [], 0, None;
      var i := 0;
      while i < |items| && error.None?
        invariant 0 <= i <= |items|
        invariant Progress(lines, total, inventory.table, error) == Prefix(t0, items, faults, i)
      {
        lines, total, error := CheckAndReserve(items[i], FaultAt(faults, i), lines, total);
        i := i + 1;
      }
      if error.Some? {
        AbortIsFinal(t0, items, faults, i, |items|);
      }
    }

    /** `orders_db[order_id] = order` for a fresh id above every stored one. */
    method Persist(order: Order)
      requires Valid()
      requires order.orderId < counter && forall i :: 0 <= i < |ids| ==> ids[i] < order.orderId
      requires order.status == Confirmed && order.totalValue == SumTotals(order.items)
      modifies this`orders, this`ids
      ensures Valid()
      ensures order.orderId !in old(orders)
      ensures orders == old(orders)[order.orderId := order] && ids == old(ids) + [order.orderId]
    {
      orders := orders[order.orderId := order];
      ids := ids + [order.orderId];
    }

    /**
     * `create_order`: take the next id, walk the items in request order
     * against the inventory service (with `faults` saying what the network and
     * other clients do to each item's calls), and store a confirmed order only
     * when every item was reserved. A failure keeps the reservations already
     * made for earlier items.
     */
    method CreateOrder(request: OrderRequest, faults: seq<Fault>) returns (r: Result<Order, OrderError>)
      requires Valid()
      modifies this, inventory
      ensures Valid()
      ensures counter == old(counter) + 1
      ensures var w := Run(old(inventory.table), request.items, faults);
              inventory.table == w.table &&
              r == if w.error.None? then Success(Order(old(counter), request.customerId, w.lines, w.total, Confirmed))
                   else Failure(w.error.value)
      ensures r.Success? ==>
                r.value.orderId == old(counter) && old(counter) !in old(orders) &&
                orders == old(orders)[r.value.orderId := r.value] && ids == old(ids) + [r.value.orderId] &&
                GetOrder(r.value.orderId) == Success(r.value)
      ensures r.Success? ==>
                |r.value.items| == |request.items| && r.value.totalValue == SumTotals(r.value.items)
      ensures r.Failure? ==> orders == old(orders) && ids == old(ids)
    {
      var orderId := counter;
      counter := counter + 1;
      var lines, total, error := ReserveItems(request.items, faults);
      if error.Some? {
        return Failure(error.value);
      }
      TotalIsSum(old(inventory.table), request.items, faults, |request.items|);
      var order := Order(orderId, request.customerId, lines, total, Confirmed);
      Persist(order);
      r := Success(order);
    }
  }
}
