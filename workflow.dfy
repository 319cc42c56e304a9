/**
 * The item loop of the orders service's `create_order`, as a pure function
 * over the inventory table. Items are handled one at a time in request order:
 * read the product, compare its stock with the requested quantity, reserve,
 * and append a priced line item. The first failure ends the loop, and the
 * reservations of earlier items stay in the table (there is no rollback).
 *
 * The inventory service is called directly. What the network or other
 * clients can do to a call is an explicit per-item `Fault`.
 */
module Workflow {
  import opened Wrappers
  import Inventory

  /** One requested item of an order. */
  datatype ItemRequest = ItemRequest(productId: string, quantity: int)

  /** One priced line of an order, with the product's name and price as read. */
  datatype LineItem = LineItem(productId: string, productName: string, quantity: int, unitPrice: int, total: int)

  /** Why `create_order` gave up, one cause per HTTP status. */
  datatype OrderError =
    | ProductNotFound(productId: string)
    | InsufficientStock(productId: string, available: int, requested: int)
    | ReservationFailed(productId: string)
    | InventoryUnreachable
  {
    function StatusCode(): (code: int)
      ensures code == 404 <==> this.ProductNotFound?
      ensures code == 400 <==> this.InsufficientStock?
      ensures code == 500 <==> this.ReservationFailed?
      ensures code == 503 <==> this.InventoryUnreachable?
    {
      match this
      case ProductNotFound(_) => 404
      case InsufficientStock(_, _, _) => 400
      case ReservationFailed(_) => 500
      case InventoryUnreachable => 503
    }
  }

  /**
   * What happens to the inventory calls of one item:
   * - `ReadUnreachable`: the product read never reaches the service;
   * - `Interleaved(q)`: another client's reservation of `q` units of the same
   *   product is served between this item's read and its reservation;
   * - `ReserveUnreachable`: the reservation never reaches the service;
   * - `ReserveResponseLost`: the reservation is served, but its answer is lost.
   */
  datatype Fault =
    | NoFault
    | ReadUnreachable
    | Interleaved(quantity: int)
    | ReserveUnreachable
    | ReserveResponseLost

  /** The fault that hits item `i`; items past the end of `faults` get none. */
  function FaultAt(faults: seq<Fault>, i: nat): Fault {
    if i < |faults| then faults[i] else NoFault
  }

  /** A fault that makes no reservation the orders service does not see. */
  predicate Clean(f: Fault) {
    !f.Interleaved? && !f.ReserveResponseLost?
  }

  /** The state of the item loop: line items, running total, inventory, error. */
  datatype Progress = Progress(lines: seq<LineItem>, total: int, table: Inventory.Table, error: Option<OrderError>)

  /** The line item for `item` priced from product record `p`. */
  function Snapshot(item: ItemRequest, p: Inventory.Product): LineItem {
    LineItem(item.productId, p.name, item.quantity, p.price, p.price * item.quantity)
  }

  /** The error names the item it was raised for, unless it is a network failure. */
  predicate Names(e: OrderError, productId: string) {
    e.InventoryUnreachable? || e.productId == productId
  }

  /** One pass of the loop body for `item`, starting from a state without error. */
  function Advance(p: Progress, item: ItemRequest, f: Fault): (q: Progress)
    requires p.error.None?
    ensures q.table.Keys == p.table.Keys
    ensures q.error.None? ==>
              item.productId in p.table &&
              q.lines == p.lines + [Snapshot(item, p.table[item.productId])] &&
              q.total == p.total + p.table[item.productId].price * item.quantity
    ensures q.error.Some? ==> q.lines == p.lines && q.total == p.total
  {
    if f.ReadUnreachable? then p.(error := Some(InventoryUnreachable))
    else match Inventory.View(p.table, item.productId)
      case Failure(_) => p.(error := Some(ProductNotFound(item.productId)))
      case Success(v) =>
        if v.stock < item.quantity then
          p.(error := Some(InsufficientStock(item.productId, v.stock, item.quantity)))
        else
          var before := if f.Interleaved? then Inventory.ApplyReserve(p.table, item.productId, f.quantity).1 else p.table;
          if f.ReserveUnreachable? then p.(table := before, error := Some(InventoryUnreachable))
          else
            var reserved := Inventory.ApplyReserve(before, item.productId, item.quantity);
            if f.ReserveResponseLost? then p.(table := reserved.1, error := Some(InventoryUnreachable))
            else if reserved.0.Failure? then p.(table := reserved.1, error := Some(ReservationFailed(item.productId)))
            else
              var line := LineItem(item.productId, v.name, item.quantity, v.price, v.price * item.quantity);
              Progress(p.lines + [line], p.total + line.total, reserved.1, None)
  }

  /**
   * How one item fails: 503 when the read is lost, 404 for an unknown product
   * and 400 for too little stock (both without reserving), 500 only after a
   * concurrent reservation, and without a fault it succeeds exactly when the
   * product exists and its stock covers the quantity. Every business error
   * names the item's product.
   */
  lemma ErrorPolicy(p: Progress, item: ItemRequest, f: Fault)
    requires p.error.None?
    ensures var q := Advance(p, item, f);
            q.error.Some? ==> Names(q.error.value, item.productId)
    ensures var q := Advance(p, item, f);
            f.ReadUnreachable? ==> q.error == Some(InventoryUnreachable) && q.table == p.table
    ensures var q := Advance(p, item, f);
            !f.ReadUnreachable? && item.productId !in p.table ==>
              q.error == Some(ProductNotFound(item.productId)) && q.table == p.table
    ensures var q := Advance(p, item, f);
            !f.ReadUnreachable? && item.productId in p.table && p.table[item.productId].stock < item.quantity ==>
              q.error == Some(InsufficientStock(item.productId, p.table[item.productId].stock, item.quantity)) &&
              q.table == p.table
    ensures var q := Advance(p, item, f);
            q.error == Some(ReservationFailed(item.productId)) ==> f.Interleaved?
    ensures var q := Advance(p, item, f);
            f.NoFault? ==>
              (q.error.None? <==> item.productId in p.table && item.quantity <= p.table[item.productId].stock)
  {
  }

  /** One item changes no product, name or price, and no stock becomes negative. */
  lemma AdvanceKeepsCatalog(p: Progress, item: ItemRequest, f: Fault)
    requires p.error.None?
    ensures Inventory.SameCatalog(p.table, Advance(p, item, f).table)
    ensures Inventory.NonNegative(p.table) ==> Inventory.NonNegative(Advance(p, item, f).table)
  {
    var id := item.productId;
    if !f.ReadUnreachable? && id in p.table && item.quantity <= p.table[id].stock {
      var before := if f.Interleaved? then Inventory.ApplyReserve(p.table, id, f.quantity).1 else p.table;
      if f.Interleaved? {
        Inventory.ReserveTouchesOnlyStock(p.table, id, f.quantity);
      }
      Inventory.ReserveTouchesOnlyStock(before, id, item.quantity);
    }
  }

  /**
   * With a clean fault, one item decrements its product's stock by its
   * quantity exactly when it gets a line item, and changes no other stock.
   */
  lemma AdvanceLedger(p: Progress, item: ItemRequest, f: Fault)
    requires p.error.None? && Clean(f)
    ensures forall id :: id in p.table ==>
              Advance(p, item, f).table[id].stock ==
              p.table[id].stock - (if Advance(p, item, f).error.None? && id == item.productId then item.quantity else 0)
  {
    var id := item.productId;
    if !f.ReadUnreachable? && id in p.table && item.quantity <= p.table[id].stock && !f.ReserveUnreachable? {
      Inventory.ReserveTouchesOnlyStock(p.table, id, item.quantity);
    }
  }

  /** The loop state after the first `n` items (the loop stops at the first error). */
  function Prefix(t0: Inventory.Table, items: seq<ItemRequest>, faults: seq<Fault>, n: nat): (p: Progress)
    requires n <= |items|
    ensures |p.lines| <= n
    ensures p.error.None? ==> |p.lines| == n
  {
    if n == 0 then Progress([], 0, t0, None)
    else
      var before := Prefix(t0, items, faults, n - 1);
      if before.error.Some? then before
      else Advance(before, items[n - 1], FaultAt(faults, n - 1))
  }

  /**
   * The loop never adds or removes products, never changes a name or a price,
   * and never drives a stock negative.
   */
  lemma {:induction false} PrefixKeepsCatalog(t0: Inventory.Table, items: seq<ItemRequest>, faults: seq<Fault>, n: nat)
    requires n <= |items|
    ensures Inventory.SameCatalog(t0, Prefix(t0, items, faults, n).table)
    ensures Inventory.NonNegative(t0) ==> Inventory.NonNegative(Prefix(t0, items, faults, n).table)
  {
    if n > 0 {
      PrefixKeepsCatalog(t0, items, faults, n - 1);
      var before := Prefix(t0, items, faults, n - 1);
      if before.error.None? {
        AdvanceKeepsCatalog(before, items[n - 1], FaultAt(faults, n - 1));
      }
    }
  }

  /** The whole item loop of `create_order`. */
  function Run(t0: Inventory.Table, items: seq<ItemRequest>, faults: seq<Fault>): Progress {
    Prefix(t0, items, faults, |items|)
  }

  /** The sum of the line totals. */
  function SumTotals(lines: seq<LineItem>): int
    decreases |lines|
  {
    if lines == [] then 0 else SumTotals(lines[..|lines| - 1]) + lines[|lines| - 1].total
  }

  /** The quantity of product `id` requested by `items`. */
  function Demand(items: seq<ItemRequest>, id: string): int
    decreases |items|
  {
    if items == [] then 0
    else
      Demand(items[..|items| - 1], id) +
      (if items[|items| - 1].productId == id then items[|items| - 1].quantity else 0)
  }

  /**
   * Line item `k` belongs to the requested item at position `k`: it names the
   * same product and quantity, carries that product's name and price, and
   * totals price times quantity.
   */
  lemma {:induction false} LineFollowsRequest(t0: Inventory.Table, items: seq<ItemRequest>, faults: seq<Fault>, n: nat, k: nat)
    requires n <= |items|
    requires k < |Prefix(t0, items, faults, n).lines|
    ensures items[k].productId in t0
    ensures Prefix(t0, items, faults, n).lines[k] == Snapshot(items[k], t0[items[k].productId])
  {
    var before := Prefix(t0, items, faults, n - 1);
    if before.error.Some? || k < n - 1 {
      LineFollowsRequest(t0, items, faults, n - 1, k);
    } else {
      NewLineFromCatalog(t0, items, faults, n - 1);
    }
  }

  /** The line item added for item `k` carries the name and price the product started with. */
  lemma NewLineFromCatalog(t0: Inventory.Table, items: seq<ItemRequest>, faults: seq<Fault>, k: nat)
    requires k < |items|
    requires Prefix(t0, items, faults, k).error.None?
    requires Advance(Prefix(t0, items, faults, k), items[k], FaultAt(faults, k)).error.None?
    ensures items[k].productId in t0
    ensures Advance(Prefix(t0, items, faults, k), items[k], FaultAt(faults, k)).lines ==
            Prefix(t0, items, faults, k).lines + [Snapshot(items[k], t0[items[k].productId])]
  {
    PrefixKeepsCatalog(t0, items, faults, k);
  }

  /** The running total is the sum of the line totals. */
  lemma {:induction false} TotalIsSum(t0: Inventory.Table, items: seq<ItemRequest>, faults: seq<Fault>, n: nat)
    requires n <= |items|
    ensures Prefix(t0, items, faults, n).total == SumTotals(Prefix(t0, items, faults, n).lines)
  {
    if n > 0 {
      TotalIsSum(t0, items, faults, n - 1);
      var before := Prefix(t0, items, faults, n - 1);
      if before.error.None? {
        var p := Advance(before, items[n - 1], FaultAt(faults, n - 1));
        assert Prefix(t0, items, faults, n) == p;
        if p.error.None? {
          assert p.lines[..|p.lines| - 1] == before.lines;
        }
      }
    }
  }

  /** Once an item has failed, no later item is read or reserved. */
  lemma {:induction false} AbortIsFinal(t0: Inventory.Table, items: seq<ItemRequest>, faults: seq<Fault>, n: nat, m: nat)
    requires n <= m <= |items|
    requires Prefix(t0, items, faults, n).error.Some?
    ensures Prefix(t0, items, faults, m) == Prefix(t0, items, faults, n)
    decreases m
  {
    if m > n {
      AbortIsFinal(t0, items, faults, n, m - 1);
      assert Prefix(t0, items, faults, m - 1).error.Some?;
    }
  }

  /**
   * A failed loop failed at some item `k`: every earlier item succeeded, and
   * the outcome is exactly that item's failure, so no item after `k` was read
   * or reserved.
   */
  lemma {:induction false} FirstFailure(t0: Inventory.Table, items: seq<ItemRequest>, faults: seq<Fault>, n: nat)
    returns (k: nat)
    requires n <= |items|
    requires Prefix(t0, items, faults, n).error.Some?
    ensures k < n && Prefix(t0, items, faults, k).error.None?
    ensures Prefix(t0, items, faults, n) == Advance(Prefix(t0, items, faults, k), items[k], FaultAt(faults, k))
  {
    var before := Prefix(t0, items, faults, n - 1);
    if before.error.Some? {
      k := FirstFailure(t0, items, faults, n - 1);
    } else {
      k := n - 1;
    }
  }

  /**
   * Without a concurrent reservation, a reservation that follows a successful
   * stock check always succeeds, so the loop never fails with
   * `ReservationFailed`.
   */
  lemma {:induction false} NoReservationFailureWhenSequential(t0: Inventory.Table, items: seq<ItemRequest>, faults: seq<Fault>, n: nat)
    requires n <= |items|
    requires forall i :: 0 <= i < n ==> !FaultAt(faults, i).Interleaved?
    ensures !(Prefix(t0, items, faults, n).error.Some? && Prefix(t0, items, faults, n).error.value.ReservationFailed?)
  {
    if n > 0 {
      NoReservationFailureWhenSequential(t0, items, faults, n - 1);
      var before := Prefix(t0, items, faults, n - 1);
      if before.error.None? {
        ErrorPolicy(before, items[n - 1], FaultAt(faults, n - 1));
      }
    }
  }

  /**
   * No rollback: unless a reservation happens that the loop does not see,
   * every stock is its starting value minus the quantities of the items that
   * got a line item, including when a later item failed.
   */
  lemma {:induction false} StockLedger(t0: Inventory.Table, items: seq<ItemRequest>, faults: seq<Fault>, n: nat, id: string)
    requires n <= |items| && id in t0
    requires forall i :: 0 <= i < n ==> Clean(FaultAt(faults, i))
    ensures id in Prefix(t0, items, faults, n).table
    ensures Prefix(t0, items, faults, n).table[id].stock ==
            t0[id].stock - Demand(items[..|Prefix(t0, items, faults, n).lines|], id)
  {
    if n > 0 {
      StockLedger(t0, items, faults, n - 1, id);
      var before := Prefix(t0, items, faults, n - 1);
      if before.error.None? {
        AdvanceLedger(before, items[n - 1], FaultAt(faults, n - 1));
        DemandStep(items, n - 1, id);
      }
    }
  }

  /** Adding one item to the requested prefix adds its quantity to its product's demand. */
  lemma DemandStep(items: seq<ItemRequest>, k: nat, id: string)
    requires k < |items|
    ensures Demand(items[..k + 1], id) ==
            Demand(items[..k], id) + (if items[k].productId == id then items[k].quantity else 0)
  {
    assert items[..k + 1][..k] == items[..k];
  }

  /** Item `k` fits: its product exists and the stock left by the items before it covers it. */
  ghost predicate Fits(t0: Inventory.Table, items: seq<ItemRequest>, k: nat)
    requires k < |items|
  {
    items[k].productId in t0 &&
    items[k].quantity <= t0[items[k].productId].stock - Demand(items[..k], items[k].productId)
  }

  /** Without a fault, an item that follows successful items succeeds exactly when it fits. */
  lemma NextSucceedsIffFits(t0: Inventory.Table, items: seq<ItemRequest>, faults: seq<Fault>, n: nat)
    requires 0 < n <= |items|
    requires forall i :: 0 <= i < n - 1 ==> Clean(FaultAt(faults, i))
    requires FaultAt(faults, n - 1).NoFault?
    requires Prefix(t0, items, faults, n - 1).error.None?
    ensures Prefix(t0, items, faults, n).error.None? <==> Fits(t0, items, n - 1)
  {
    var before := Prefix(t0, items, faults, n - 1);
    var item := items[n - 1];
    var p := Advance(before, item, NoFault);
    assert Prefix(t0, items, faults, n) == p;
    ErrorPolicy(before, item, NoFault);
    PrefixKeepsCatalog(t0, items, faults, n - 1);
    if item.productId in t0 {
      StockLedger(t0, items, faults, n - 1, item.productId);
    }
  }

  /** Without faults the loop gets through the first `n` items exactly when each of them fits. */
  lemma {:induction false} SucceedsIffAllFit(t0: Inventory.Table, items: seq<ItemRequest>, faults: seq<Fault>, n: nat)
    requires n <= |items|
    requires forall i :: 0 <= i < n ==> FaultAt(faults, i).NoFault?
    ensures Prefix(t0, items, faults, n).error.None? <==> forall k :: 0 <= k < n ==> Fits(t0, items, k)
  {
    if n > 0 {
      SucceedsIffAllFit(t0, items, faults, n - 1);
      var before := Prefix(t0, items, faults, n - 1);
      if before.error.None? {
        NextSucceedsIffFits(t0, items, faults, n);
      }
    }
  }

  /**
   * Two mice and one keyboard from the starting table: the order totals
   * 2 * 29.99 + 89.99 = 149.97, and the stocks drop to 148 and 74.
   */
  lemma MouseKeyboardExample()
    ensures var w := Run(Inventory.Seed(), [ItemRequest("mouse", 2), ItemRequest("keyboard", 1)], []);
            w.error.None? && w.total == 14997 &&
            w.lines == [LineItem("mouse", "Wireless Mouse", 2, 2999, 5998),
                        LineItem("keyboard", "Mechanical Keyboard", 1, 8999, 8999)] &&
            w.table["mouse"].stock == 148 && w.table["keyboard"].stock == 74
  {
  }

  /**
   * An unknown product second in the list fails the whole order with 404
   * naming it, while the first item's reservation stays in the table.
   */
  lemma UnknownProductExample()
    ensures var w := Run(Inventory.Seed(), [ItemRequest("mouse", 2), ItemRequest("tablet", 1)], []);
            w.error == Some(ProductNotFound("tablet")) && w.error.value.StatusCode() == 404 &&
            w.table["mouse"].stock == 148
  {
  }
}
