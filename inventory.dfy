/**
 * The inventory service: a table from product id to a product record, read
 * by `get_inventory` and `get_all_inventory` and changed only by the
 * conditional decrement `reserve_inventory`.
 *
 * Prices are integer cents instead of floating-point dollars.
 */
module Inventory {
  import opened Wrappers

  /** One product record; `price` is in cents. */
  datatype Product = Product(name: string, stock: int, price: int)

  type Table = map<string, Product>

  /** The failures the inventory service answers with (HTTP 404 and 400). */
  datatype InventoryError =
    | NotFound(productId: string)
    | InsufficientStock(available: int, requested: int)
  {
    function StatusCode(): (code: int)
      ensures code == 404 <==> this.NotFound?
      ensures code == 400 <==> this.InsufficientStock?
    {
      match this
      case NotFound(_) => 404
      case InsufficientStock(_, _) => 400
    }
  }

  /** The answer of `get_inventory` for a known product. */
  datatype ProductView = ProductView(productId: string, name: string, stock: int, price: int, available: bool)

  /** The answer of `get_all_inventory`. */
  datatype Listing = Listing(items: Table, totalItems: int)

  /** The answer of a successful `reserve_inventory`. */
  datatype Reservation = Reservation(productId: string, reservedQuantity: int, remainingStock: int)

  type ReserveResult = Result<Reservation, InventoryError>

  /** The quantity reserved when a request names none. */
  const DefaultQuantity: int := 1

  /** No product has negative stock. */
  ghost predicate NonNegative(t: Table) {
    forall id :: id in t ==> t[id].stock >= 0
  }

  /** `u` holds the same products as `t`, with the same names and prices. */
  ghost predicate SameCatalog(t: Table, u: Table) {
    t.Keys == u.Keys &&
    forall id :: id in t ==> u[id].name == t[id].name && u[id].price == t[id].price
  }

  /** The table the service starts with. */
  function Seed(): (t: Table)
    ensures NonNegative(t)
    ensures "laptop" in t && t["laptop"] == Product("Laptop Pro", 25, 129999)
    ensures "mouse" in t && t["mouse"] == Product("Wireless Mouse", 150, 2999)
    ensures "keyboard" in t && t["keyboard"] == Product("Mechanical Keyboard", 75, 8999)
    ensures "monitor" in t && t["monitor"] == Product("4K Monitor", 40, 44999)
    ensures "headset" in t && t["headset"] == Product("Gaming Headset", 60, 7999)
    ensures t.Keys == {"laptop", "mouse", "keyboard", "monitor", "headset"}
  {
    map[
      "laptop" := Product("Laptop Pro", 25, 129999),
      "mouse" := Product("Wireless Mouse", 150, 2999),
      "keyboard" := Product("Mechanical Keyboard", 75, 8999),
      "monitor" := Product("4K Monitor", 40, 44999),
      "headset" := Product("Gaming Headset", 60, 7999)
    ]
  }

  /** `get_inventory`: look a product up without changing anything. */
  function View(t: Table, id: string): (r: Result<ProductView, InventoryError>)
    ensures r.Failure? <==> id !in t
    ensures r.Failure? ==> r.error == NotFound(id)
    ensures r.Success? ==>
              r.value.productId == id && r.value.name == t[id].name &&
              r.value.stock == t[id].stock && r.value.price == t[id].price
    ensures r.Success? ==> (r.value.available <==> t[id].stock > 0)
  {
    if id !in t then Failure(NotFound(id))
    else
      var p := t[id];
      Success(ProductView(id, p.name, p.stock, p.price, p.stock > 0))
  }

  /** `get_all_inventory`: the whole table and the number of products in it. */
  function ListAll(t: Table): (l: Listing)
    ensures l.items == t
    ensures l.totalItems == |l.items.Keys|
  {
    Listing(t, |t|)
  }

  /**
   * `reserve_inventory` as a state transition: the answer and the table after
   * the call. The decrement happens only when the stock covers the quantity,
   * so no failing call changes the table and no call drives a stock negative.
   */
  function ApplyReserve(t: Table, id: string, quantity: int): (out: (ReserveResult, Table))
    ensures id !in t ==> out.0 == Failure(NotFound(id))
    ensures id in t && t[id].stock < quantity ==>
              out.0 == Failure(InsufficientStock(t[id].stock, quantity))
    ensures out.0.Success? <==> id in t && quantity <= t[id].stock
    ensures out.0.Success? ==>
              id in out.1 && out.1[id].stock == t[id].stock - quantity &&
              out.0.value == Reservation(id, quantity, out.1[id].stock)
    ensures out.0.Failure? ==> out.1 == t
    ensures out.1.Keys == t.Keys
  {
    if id !in t then (Failure(NotFound(id)), t)
    else if t[id].stock < quantity then (Failure(InsufficientStock(t[id].stock, quantity)), t)
    else
      var u := t[id := t[id].(stock := t[id].stock - quantity)];
      (Success(Reservation(id, quantity, u[id].stock)), u)
  }

  /**
   * A reservation changes nothing but the stock of the product it names, and
   * leaves no stock negative that was not negative before.
   */
  lemma ReserveTouchesOnlyStock(t: Table, id: string, quantity: int)
    ensures SameCatalog(t, ApplyReserve(t, id, quantity).1)
    ensures forall k :: k in t && k != id ==> ApplyReserve(t, id, quantity).1[k] == t[k]
    ensures NonNegative(t) ==> NonNegative(ApplyReserve(t, id, quantity).1)
  {
  }

  /** A reservation never changes how many products `get_all_inventory` reports. */
  lemma ReserveKeepsProductCount(t: Table, id: string, quantity: int)
    ensures ListAll(ApplyReserve(t, id, quantity).1).totalItems == ListAll(t).totalItems
  {
    var u := ApplyReserve(t, id, quantity).1;
    assert u.Keys == t.Keys;
  }

  /** One reservation request against the service. */
  datatype Call = Call(productId: string, quantity: int)

  /**
   * Reservation calls served one after another: the answers in call order and
   * the final table.
   */
  function Replay(t: Table, calls: seq<Call>): (out: (seq<ReserveResult>, Table))
    ensures |out.0| == |calls|
    ensures out.1.Keys == t.Keys
    decreases |calls|
  {
    if calls == [] then ([], t)
    else
      var before := Replay(t, calls[..|calls| - 1]);
      var last := calls[|calls| - 1];
      var step := ApplyReserve(before.1, last.productId, last.quantity);
      (before.0 + [step.0], step.1)
  }

  /** The quantity granted to product `id` by the successful answers in `rs`. */
  function Granted(rs: seq<ReserveResult>, id: string): int
    decreases |rs|
  {
    if rs == [] then 0
    else
      var last := rs[|rs| - 1];
      Granted(rs[..|rs| - 1], id) +
      (if last.Success? && last.value.productId == id then last.value.reservedQuantity else 0)
  }

  /** Every stock drops by exactly what the served calls granted for it. */
  lemma {:induction false} ReplayAccounts(t: Table, calls: seq<Call>, id: string)
    requires id in t
    ensures id in Replay(t, calls).1
    ensures Replay(t, calls).1[id].stock == t[id].stock - Granted(Replay(t, calls).0, id)
    decreases |calls|
  {
    if calls != [] {
      var front := calls[..|calls| - 1];
      ReplayAccounts(t, front, id);
      var rs := Replay(t, calls).0;
      assert rs[..|rs| - 1] == Replay(t, front).0;
    }
  }

  /** Serialized reservations never drive a stock negative. */
  lemma {:induction false} ReplayKeepsNonNegative(t: Table, calls: seq<Call>)
    requires NonNegative(t)
    ensures NonNegative(Replay(t, calls).1)
    decreases |calls|
  {
    if calls != [] {
      var front := calls[..|calls| - 1];
      var last := calls[|calls| - 1];
      ReplayKeepsNonNegative(t, front);
      ReserveTouchesOnlyStock(Replay(t, front).1, last.productId, last.quantity);
    }
  }

  /** Serialized reservations never grant more than the stock there was. */
  lemma NeverOversells(t: Table, calls: seq<Call>, id: string)
    requires NonNegative(t) && id in t
    ensures Granted(Replay(t, calls).0, id) <= t[id].stock
  {
    ReplayAccounts(t, calls, id);
    ReplayKeepsNonNegative(t, calls);
  }

  /** `n` reservations of one unit each of product `id`. */
  function Units(id: string, n: nat): (calls: seq<Call>)
    ensures |calls| == n
  {
    if n == 0 then [] else Units(id, n - 1) + [Call(id, 1)]
  }

  /**
   * Against a stock of `s`, `n` single-unit reservations are granted
   * `min(n, s)` units in all, and the stock ends at `s - min(n, s)`.
   */
  lemma {:induction false} UnitReservations(t: Table, id: string, n: nat)
    requires id in t && t[id].stock >= 0
    ensures id in Replay(t, Units(id, n)).1
    ensures Granted(Replay(t, Units(id, n)).0, id) == if n <= t[id].stock then n else t[id].stock
    ensures Replay(t, Units(id, n)).1[id].stock == if n <= t[id].stock then t[id].stock - n else 0
  {
    if n > 0 {
      UnitReservations(t, id, n - 1);
      var front := Units(id, n - 1);
      assert Units(id, n)[..n - 1] == front;
      var prev := Replay(t, front);
      var step := ApplyReserve(prev.1, id, 1);
      assert Replay(t, Units(id, n)) == (prev.0 + [step.0], step.1);
      var rs := prev.0 + [step.0];
      assert rs[..|rs| - 1] == prev.0;
      assert Granted(rs, id) == Granted(prev.0, id) + (if step.0.Success? then 1 else 0);
    }
  }

  /**
   * From the starting table, reserving 5 laptops leaves 20; asking for 30
   * more then fails, reporting 20 available and 30 requested, and the stock
   * stays at 20.
   */
  lemma LaptopExample()
    ensures ApplyReserve(Seed(), "laptop", 5).0 == Success(Reservation("laptop", 5, 20))
    ensures var t := ApplyReserve(Seed(), "laptop", 5).1;
            ApplyReserve(t, "laptop", 30) == (Failure(InsufficientStock(20, 30)), t) && t["laptop"].stock == 20
  {
  }

  /** The inventory service's state: its product table, updated in place. */
  class Store {
    var table: Table

    constructor ()
      ensures table == Seed()
    {
      table := Seed();
    }

    /** `get_inventory` on the current table. */
    function Get(id: string): Result<ProductView, InventoryError>
      reads this
    {
      View(table, id)
    }

    /** `get_all_inventory` on the current table. */
    function All(): Listing
      reads this
    {
      ListAll(table)
    }

    /** `reserve_inventory`: decrement the named product's stock in place when it suffices. */
    method Reserve(id: string, quantity: int) returns (r: ReserveResult)
      modifies this
      ensures (r, table) == ApplyReserve(old(table), id, quantity)
    {
      if id !in table {
        return Failure(NotFound(id));
      }
      var p := table[id];
      if p.stock < quantity {
        return Failure(InsufficientStock(p.stock, quantity));
      }
      table := table[id := p.(stock := p.stock - quantity)];
      r := Success(Reservation(id, quantity, table[id].stock));
    }

    /** `reserve_inventory` called without a quantity. */
    method ReserveDefault(id: string) returns (r: ReserveResult)
      modifies this
      ensures (r, table) == ApplyReserve(old(table), id, DefaultQuantity)
    {
      r := Reserve(id, DefaultQuantity);
    }
  }
}
