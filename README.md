# Storefront order workflow: a verified model

This project models the two services that hold the storefront's logic:

- The **inventory service** (`inventory-api/app.py`) keeps a table from product id to a record with a name, an integer stock and a price. `get_inventory` reads one record and reports `available = stock > 0`. `get_all_inventory` returns the table and its size. `reserve_inventory` is the conditional decrement. An unknown id gives 404. A stock below the quantity gives 400 and reports both numbers. Otherwise the stock drops by the quantity and the remaining stock is returned. An omitted quantity means 1.
- The **orders service** (`orders-api/app.py`) keeps a global order-id counter starting at 1000 and an ordered table of orders. `create_order` works in four steps:
  1. It takes the counter's value as the order id and bumps the counter, whatever happens next.
  2. It walks the requested items in order. For each item it reads the product, compares the stock with the quantity, reserves, and appends a priced line item.
  3. It stops at the first failure: 404 for an unknown product, 400 for too little stock, 500 for a failed reservation, 503 for an unreachable inventory service. Reservations already made for earlier items are not undone.
  4. When every item succeeds, it stores a `confirmed` order. `get_order` and `get_all_orders` read that table.

Files:

- `wrappers.dfy`: the `Option` and `Result` datatypes.
- `inventory.dfy` (module `Inventory`): the table and its operations.
  - The pure functions `View`, `ListAll` and `ApplyReserve` describe the service's answers and its state change.
  - `Replay` runs a sequence of reservations one after another.
  - The class `Store` holds the table as a field that `Reserve` updates in place.
- `workflow.dfy` (module `Workflow`): `create_order`'s item loop as a pure function over the inventory table. `Advance` handles one item, `Prefix` the first `n` items, and `Run` the whole request. The lemmas state what the loop promises.
- `orders.dfy` (module `Orders`): the class `OrderService`. It holds the counter, the order table and a reference to the inventory `Store`. `CreateOrder`, `ReserveItems`, `CheckAndReserve` and `Persist` are imperative methods, and `ReserveItems` holds the item loop. Each is proved against the workflow functions.

Modelling choices:

- **Money.** Prices and totals are integer cents, where the source uses floating-point dollars. 29.99 becomes 2999, so `total_value` is exactly the sum of the line totals.
- **The HTTP hop.** A call from the orders service to the inventory service is a direct call to the `Store`. What the network or other clients do to one item's calls is a per-item `Fault`, passed in as `faults`. Items past the end of `faults` get no fault. The faults are:
  - `ReadUnreachable`: the read never arrives (503).
  - `ReserveUnreachable`: the reservation never arrives (503).
  - `ReserveResponseLost`: the reservation is served but its answer is lost (503, with the stock already decremented).
  - `Interleaved(q)`: another client's reservation of `q` units of the same product lands between this item's read and its reservation. In the model this is the only way the 500 branch can fire, and `NoReservationFailureWhenSequential` proves that without it the branch is dead.
- **Quantities.** The code accepts any integer quantity, and the model follows the code. Callers are meant to send a positive quantity, but nothing in the source enforces that. A zero quantity reserves nothing, and a negative quantity raises the stock. A stock still never becomes negative.
- **Order listing.** `orders_db` is a Python dict, so it keeps insertion order. The model keeps the keys in insertion order in `ids`, and `get_all_orders` lists the orders in that order.

## Model

| member | source | states |
|---|---|---|
| Inventory.Seed | inventory-api/app.py:57-63 | the starting table holds exactly the five products laptop, mouse, keyboard, monitor and headset, each with its name, stock and price in cents, all stocks non-negative |
| Inventory.InventoryError.StatusCode | inventory-api/app.py:130-142 | an unknown product answers 404 and insufficient stock answers 400, and no other status |
| Inventory.View | inventory-api/app.py:101-120 | lookup fails with NotFound exactly for unknown ids; otherwise it reports the record's name, stock and price, with `available` true exactly when stock > 0 |
| Inventory.ListAll | inventory-api/app.py:83-91 | the listing carries the whole table and `total_items` equals the number of products |
| Inventory.ApplyReserve | inventory-api/app.py:123-157 | NotFound for an unknown id; InsufficientStock reporting the current stock and the requested quantity when stock < quantity; success exactly when the product exists and its stock covers the quantity, then the stock drops by exactly the quantity and the answer reports that quantity and the remaining stock; a failure leaves the table unchanged; the set of products never changes |
| Inventory.ReserveTouchesOnlyStock | inventory-api/app.py:135-144 | a reservation leaves every other product untouched and every name and price unchanged, and keeps all stocks non-negative whatever the quantity |
| Inventory.ReserveKeepsProductCount | inventory-api/app.py:91 | no reservation changes the `total_items` that the listing reports |
| Inventory.Replay | inventory-api/app.py:123-157 | serving reservation calls one after another gives one answer per call and keeps the set of products |
| Inventory.ReplayAccounts | inventory-api/app.py:144 | after serialized reservations, each stock equals its start value minus the quantity granted for it |
| Inventory.ReplayKeepsNonNegative | inventory-api/app.py:135-144 | serialized reservations never drive a stock negative |
| Inventory.NeverOversells | inventory-api/app.py:135-144 | serialized reservations never grant more of a product than its starting stock |
| Inventory.UnitReservations | inventory-api/app.py:135-144 | n single-unit reservations against stock s are granted min(n, s) units in all and leave s - min(n, s) |
| Inventory.LaptopExample | inventory-api/app.py:135-157 | from the starting table, reserving 5 laptops leaves 20, and a following request for 30 fails with 20 available and 30 requested and leaves 20 |
| Inventory.Store.constructor | inventory-api/app.py:57-63 | the service starts with the seeded table |
| Inventory.Store.Reserve | inventory-api/app.py:123-157 | the in-place update returns the answer and leaves the table that ApplyReserve describes |
| Inventory.Store.ReserveDefault | inventory-api/app.py:124 | a reservation without a quantity reserves 1 unit |
| Workflow.OrderError.StatusCode | orders-api/app.py:174-228 | the four failure causes map to four distinct statuses: product not found 404, insufficient stock 400, reservation failed 500, inventory unreachable 503 |
| Workflow.Advance | orders-api/app.py:162-228 | one item keeps the set of products; on success it appends the line item priced from the product read and adds price times quantity to the total; on failure the line items and total are unchanged |
| Workflow.ErrorPolicy | orders-api/app.py:170-228 | a lost read gives 503 with no change; an unknown product gives 404 and a stock below the quantity gives 400, both naming the product and neither reserving; 500 only after a concurrent reservation; with no fault an item succeeds exactly when its product exists and the stock covers the quantity |
| Workflow.AdvanceKeepsCatalog | orders-api/app.py:193-198 | one item's calls change no product, name or price and keep all stocks non-negative |
| Workflow.AdvanceLedger | orders-api/app.py:193-220 | unless a reservation happens that the orders service does not see, one item decrements only its own product, by its quantity, and only when it gets a line item |
| Workflow.Prefix | orders-api/app.py:161-228 | after n items the loop holds at most n line items, and exactly n when nothing has failed |
| Workflow.PrefixKeepsCatalog | orders-api/app.py:161-228 | the loop never adds or removes products, changes a name or price, or drives a stock negative |
| Workflow.LineFollowsRequest | orders-api/app.py:211-220 | line item k belongs to requested item k: same product and quantity, the product's name and price as read, and total = price × quantity |
| Workflow.TotalIsSum | orders-api/app.py:159-212 | the accumulated total_value equals the sum of the line totals |
| Workflow.AbortIsFinal | orders-api/app.py:162-228 | once an item has failed, the later items change nothing: they are neither read nor reserved |
| Workflow.FirstFailure | orders-api/app.py:162-228 | a failed request failed at one item k: all earlier items succeeded and the outcome is exactly item k's failure |
| Workflow.NoReservationFailureWhenSequential | orders-api/app.py:185-206 | without a concurrent reservation between read and reserve, the 500 "reservation failed" branch never fires |
| Workflow.StockLedger | orders-api/app.py:161-228 | no rollback: each stock ends at its start value minus the quantities of the items that got a line item, even when a later item failed |
| Workflow.NextSucceedsIffFits | orders-api/app.py:174-220 | without a fault, the item after a successful prefix succeeds exactly when its product exists and the stock left by the earlier items covers it |
| Workflow.SucceedsIffAllFit | orders-api/app.py:162-220 | without faults, a request succeeds exactly when every item's product exists and its quantity fits in the stock left by the items before it |
| Workflow.MouseKeyboardExample | orders-api/app.py:162-220 | two mice and a keyboard from the starting table give total 14997 cents and stocks 148 and 74 |
| Workflow.UnknownProductExample | orders-api/app.py:174-180 | an unknown second product fails the request with 404 naming it, while the first item's reservation stays |
| Orders.OrderService.constructor | orders-api/app.py:96-98 | the order table starts empty and the counter starts at 1000 |
| Orders.OrderService.GetOrder | orders-api/app.py:128-142 | an id that was stored returns exactly the stored order; any other id fails with 404 naming the id |
| Orders.OrderService.AllOrders | orders-api/app.py:119-125 | lists only stored orders, each exactly as stored, every stored order appears, in ascending id order, and `total` equals the number of stored orders |
| Orders.OrderService.CheckAndReserve | orders-api/app.py:163-220 | one item's calls against the inventory object give exactly the state Advance describes |
| Orders.OrderService.ReserveItems | orders-api/app.py:158-228 | the loop stops at the first failure and leaves the line items, total and inventory that Run describes |
| Orders.OrderService.Persist | orders-api/app.py:240 | a fresh id is added to the table, no existing entry changes, and the table's invariant holds |
| Orders.OrderService.CreateOrder | orders-api/app.py:145-251 | every call, successful or failed, takes the counter's old value as its id and bumps the counter by exactly 1. The inventory ends as the item loop leaves it. On success a confirmed order is stored under its fresh id, with one line per requested item and total_value equal to the sum of the line totals, and get_order returns exactly that order. On failure the error of the first failing item is returned and the order table is unchanged |

## Left out

- OpenTelemetry and Azure Monitor setup, spans, counters, histograms and log lines in both services: they only emit telemetry and change no result.
- FastAPI routing, pydantic parsing, the root and health endpoints and the uvicorn bootstrap: framework glue. Product ids are plain strings, and how an id is spelled into a request path is not modelled. In the source an id holding `?` or `#` is read as a shorter id but reserved at a path with no POST route, which gives a 500 without any concurrency; the model does not capture that, so `NoReservationFailureWhenSequential` holds in the model only.
- `storefront-frontend/app.py` is not part of this model. It relays requests to the orders service and adds no logic.
- `created_at` (`datetime.utcnow()`): a clock reading, left out of `Order`.
- Floating-point prices and totals: modelled as exact integer cents, so float rounding in `total_value` is not captured.
- The HTTP transport: replaced by direct calls plus the `Fault` parameter. Timeouts, malformed responses and network errors other than "the call did not arrive" and "the answer was lost" are not modelled.
- Concurrency: request handlers run one at a time. The only interleaving modelled is another client's reservation of the same product between one item's read and its reservation. Other interleavings are not modelled: a concurrent reservation of a different product, or one between two items. Interleavings inside `reserve_inventory` itself are not modelled either.
- Read answers other than 200 and 404 are not modelled. The modelled inventory service answers only those two, and the orders service maps any non-200 read to 404.
