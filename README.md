# Delivery backend: order workflow and data-access core in Dafny

This project models the core of a food-delivery backend written in Python
(FastAPI, SQLAlchemy, pydantic). Its parts:

- **OrderService.** Pricing and creating an order from line items,
  cancelling an order, changing its status, and the per-item order view.
- **The data-access layer.** It covers:
  - the product queries and the clamped stock adjustment (`CRUDProduct`);
  - order queries and creating an order together with its items (`CRUDOrder`);
  - address queries, address creation and the default-address reassignment
    (`CRUDAddress`).
- **The settings validator.** It turns the `CORS_ORIGINS` setting into a list
  of origins.

The database session is a class, `Store.Session`. It holds one table per
stored entity, each a sequence of rows in storage order. It also holds
`nextId`, the counter new primary keys are drawn from. `Session.Valid()`
requires every stored key, and every item's parent key, to be below the
counter.

Operations that change rows are methods. Each one modifies only the tables it
writes (`modifies db`orders` and the like) and keeps `Valid()`. Each states
its new state through a specification function of the old state:
`ApplyCancel`, `ApplyStatusChange`, `SetDefault`, `ClearDefaults`,
`NewItems`, `PricedEntries` and `StockAfter`. The properties the source
promises are proved about those functions.

Queries are functions on the sequences. They are built from one generic
filter / offset / limit / first layer, in module `Queries`.

Modules:

| file | module | contents |
|---|---|---|
| base.dfy | Base | `Option`, `Result`, the error causes |
| records.dfy | Records | product, order, order item, address, `OrderStatus` |
| queries.dfy | Queries | `Filter`, `Page`, `Select`, `IndexWhere`, `First` |
| store.dfy | Store | the session class and its key invariant |
| text.dfy | Text | substring search, ILIKE lower-casing, `strip`, `split`, `join` |
| product_crud.dfy | ProductCrud | product queries and `UpdateStock` |
| order_crud.dfy | OrderCrud | order queries, generic update, `CreateWithItems` |
| address_crud.dfy | AddressCrud | address queries, creation, default reassignment |
| order_service.dfy | OrderService | order creation, cancellation, status update, order view |
| config.dfy | Config | `AssembleCorsOrigins` |

Modelling choices:

- **Money is an integer in minor units.** The source stores prices and totals
  as floats.
- **Time is an integer number of seconds.** The "now" of the recent-orders
  query and the creation time of a new order are parameters.
- **Errors.** Each exception the source raises is a `Failure` carrying a
  cause: `NotFound`, `InvalidTransition`, `NotOwned`, `MissingAttribute` or
  `InvalidValue`.
- **Failed reassignment.** When `set_as_default` fails, the clearing it
  already did is never committed. The model therefore leaves the table as it
  was.

## Model

| member | source | states |
|---|---|---|
| OrderService.PriceLines | app/services/order_service.py:15-31 | The pricing loop fails, with NotFound, exactly when some line's product is missing. Otherwise it yields one entry per line, in line order, and the running total that starts from 0. |
| OrderService.LinesTotalAppend | app/services/order_service.py:15-24 | The accumulated total of two concatenated line lists is the sum of their totals, and every product of both parts exists. |
| OrderService.LinesTotalPositive | app/services/order_service.py:15-24 | No lines cost 0. With positive catalog prices and positive quantities, any non-empty request costs more than 0. |
| OrderService.CreatedItemsFollowLines | app/services/order_service.py:18-31 | The created items match the lines one to one. Item i carries the order's key, line i's product and quantity, and that product's catalog price. Every item's product resolves. |
| OrderService.TotalMatchesItems | app/services/order_service.py:15-31 | The items created from the priced lines, at their captured unit prices, sum to the order's total. |
| OrderService.PricedEntriesPrefix | app/services/order_service.py:18-31 | Pricing a prefix of the lines gives the matching prefix of the entries. |
| OrderService.CreatedOrderTotalMatchesItems | app/crud/order.py:37-44 | In a consistent session, the items stored under a new order's key sum, at their unit prices, to the total the order was created with. |
| OrderService.CreateOrder | app/services/order_service.py:14-46 | Order creation fails exactly when some requested product is missing, and then writes nothing. On success it appends one PENDING order with the requested address, the user and the computed total. It also appends one item per line, with consecutive new keys, and keeps the key invariant. |
| OrderService.CancelBlockedIffDelivered | app/services/order_service.py:53 | The guard `status in OrderStatus.DELIVERED` is a substring test on the status strings. It holds for DELIVERED and for no other status. |
| OrderService.CancelStatus | app/services/order_service.py:53-56 | Cancellation is refused, with InvalidTransition, exactly from DELIVERED. From every other status, CANCELLED included, the result is CANCELLED. |
| OrderService.StatusChange | app/services/order_service.py:93-97 | A status change is refused exactly when the order is CANCELLED or DELIVERED and the new status differs. Otherwise the new status is applied, with no ordering among the states. |
| OrderService.ApplyCancel | app/services/order_service.py:48-59 | A missing order gives NotFound and a DELIVERED one gives InvalidTransition. Otherwise the table is the same except that the order's status is CANCELLED. |
| OrderService.ApplyStatusChange | app/services/order_service.py:88-102 | A missing order gives NotFound. A terminal order asked to take a different status gives InvalidTransition. Otherwise the table is the same except for the order's status. |
| OrderService.CancelIdempotent | app/services/order_service.py:56-57 | Cancelling an order twice gives the same table as cancelling it once. |
| OrderService.CancelledOrderStaysCancelled | app/services/order_service.py:93-94 | After a successful cancellation, a status update succeeds exactly when the new status is CANCELLED. |
| OrderService.TerminalStatusIsSticky | app/services/order_service.py:93-97 | A status update on a CANCELLED or DELIVERED order either fails or leaves the table unchanged. |
| OrderService.CancelOrder | app/services/order_service.py:48-59 | Cancelling fails, changing nothing, when ApplyCancel fails. Otherwise the orders table becomes ApplyCancel's table and the updated order is returned. Only the orders table is written. |
| OrderService.UpdateOrderStatus | app/services/order_service.py:88-102 | Updating fails, changing nothing, when ApplyStatusChange fails. Otherwise the orders table becomes ApplyStatusChange's table and the updated order is returned. |
| OrderService.GetOrderDetails | app/services/order_service.py:61-86 | A missing order gives NotFound. An order with an item whose product is gone gives MissingAttribute, and only then. Otherwise the view carries the order's key, user, status, creation time and address, and one detail per item of the order, in item order, with the item's product, that product's name and the quantity. |
| ProductCrud.Get | app/crud/product.py:51-53 | The lookup by key returns a product of the table with that key, or none exactly when no product has it. |
| ProductCrud.GetByName | app/crud/product.py:11-15 | Returns the first product with exactly that name, or none exactly when no product has it. |
| ProductCrud.GetByCategory | app/crud/product.py:17-29 | Returns the page of products in that category. Exactly min(`limit`, matches − `skip`) rows come back, none when `skip` passes the last match, and row i is the (`skip`+i)-th match in table order. With no offset and few enough matches, that is every product of the category. |
| ProductCrud.GetAvailableProducts | app/crud/product.py:31-43 | Returns the page of products with stock above 0. Exactly min(`limit`, matches − `skip`) rows come back, none when `skip` passes the last match, and row i is the (`skip`+i)-th match in table order. With no offset and few enough matches, that is every product in stock. |
| ProductCrud.SearchProducts | app/crud/product.py:66-82 | Returns the page of products whose name, or present description, contains the query ignoring case. Exactly min(`limit`, matches − `skip`) rows come back, none when `skip` passes the last match, and row i is the (`skip`+i)-th match in table order. With no offset and few enough matches, that is every matching product. |
| ProductCrud.EmptyQueryMatchesAll | app/crud/product.py:72-78 | The pattern built from an empty query matches every product. |
| ProductCrud.StockAfter | app/crud/product.py:55-59 | The adjusted stock is never negative. It is the sum of stock and change, or 0 when that sum is negative. |
| ProductCrud.StockAfterComposes | app/crud/product.py:55-59 | Two adjustments give the same stock as their combined change, when the first does not clamp. |
| ProductCrud.UpdateStock | app/crud/product.py:45-64 | A missing product gives NotFound and changes nothing. Otherwise only that product's stock changes, to StockAfter of the old stock and the change, and the updated product is returned. |
| OrderCrud.NewItemsPrefix | app/crud/order.py:37-44 | Creating items for a prefix of the entries gives the same items as the matching prefix of a longer creation. |
| OrderCrud.ItemsOf | app/models/order.py:36 | An order's items are items of the table with that order's key, and every such item is among them. |
| OrderCrud.GetMultiByUser | app/crud/order.py:11-23 | Returns the page of orders placed by the user. Exactly min(`limit`, matches − `skip`) rows come back, none when `skip` passes the last match, and row i is the (`skip`+i)-th match in table order. With no offset and few enough, that is all of the user's orders. |
| OrderCrud.GetOrdersByStatus | app/crud/order.py:50-62 | Returns the page of orders in that status. Exactly min(`limit`, matches − `skip`) rows come back, none when `skip` passes the last match, and row i is the (`skip`+i)-th match in table order. With no offset and few enough, that is all of them. |
| OrderCrud.GetRecentOrders | app/crud/order.py:64-78 | Returns the page of orders created at or after `now` minus `days` days. Exactly min(`limit`, matches − `skip`) rows come back, none when `skip` passes the last match, and row i is the (`skip`+i)-th match in table order. With no offset and few enough, that is all such orders. |
| OrderCrud.RecentWindowMonotone | app/crud/order.py:71-74 | A longer window never has fewer matching orders. |
| OrderCrud.ApplyPatch | app/services/order_service.py:99-100 | The generic update overwrites each supplied field and keeps every other field, key, owner and creation time included. |
| OrderCrud.StatusOnlyChangesStatus | app/services/order_service.py:56-57 | A status-only update changes the status and nothing else. |
| OrderCrud.Update | app/services/order_service.py:99-100 | The order at the given position is replaced by its patched version, and no other row changes. |
| OrderCrud.CreateWithItems | app/crud/order.py:25-48 | Appends one order, with the next key, the given user and the data's address, total and status. Then it appends one item per entry, in entry order, with consecutive keys. Each item carries the new order's key and the entry's product, quantity and price. The counter advances past all of them. |
| OrderCrud.NextKeyOwnsCreatedItems | app/crud/order.py:37-44 | In a consistent session, the order created under the next key has exactly the items created with it. |
| OrderCrud.CreatedItemsAreTheOrdersItems | app/crud/order.py:37-44 | The items of a fresh order key, after the new items are appended, are exactly the new items. |
| OrderCrud.CreatedOrderIsFound | app/crud/order.py:31-34 | Under a fresh key, the lookup finds the appended order at the end of the table. |
| AddressCrud.Get | app/crud/address.py:59-61 | The lookup by key returns an address of the table with that key, or none exactly when no address has it. |
| AddressCrud.GetMultiByUser | app/crud/address.py:11-23 | Returns the page of the user's addresses. Exactly min(`limit`, matches − `skip`) rows come back, none when `skip` passes the last match, and row i is the (`skip`+i)-th match in table order. With no offset and few enough, that is all of them. |
| AddressCrud.GetDefaultAddress | app/crud/address.py:38-46 | Returns an address of the user flagged default, or none exactly when the user has no default address. |
| AddressCrud.CreateWithUser | app/crud/address.py:25-36 | Appends one address under the next key, carrying the user and the input fields, and keeps the key invariant. |
| AddressCrud.CreateKeepsDefaultsUniqueIff | app/crud/address.py:25-36 | Adding an address keeps every user's default unique exactly when it is not flagged default or its owner had no default. |
| AddressCrud.SetDefault | app/crud/address.py:48-67 | Fails, with NotOwned, exactly when the address is missing or belongs to another user. On success the target is flagged. Every other address among the user's first `cap` loses the flag, and every other row, other users' rows included, is unchanged. |
| AddressCrud.ClearDefaultsInPlace | app/crud/address.py:52-56 | The in-place clearing loop leaves the table equal to ClearDefaults of the old one: the user's first `cap` addresses lose the flag. |
| AddressCrud.SetDefaultWithCap | app/crud/address.py:48-67 | The reassignment with a clearing cap. On failure the table is as before. On success the table is SetDefault's and the flagged address is returned. |
| AddressCrud.SetAsDefault | app/crud/address.py:48-67 | The reassignment as written, with the clearing capped at the default page size of 100. |
| AddressCrud.ClearsAllWhenWithinCap | app/crud/address.py:53-56 | A user with no more than `cap` addresses has every one of them cleared. |
| AddressCrud.SetDefaultLeavesOneDefault | app/crud/address.py:53-65 | For a user with at most `cap` addresses, a successful reassignment leaves the target as that user's only default. |
| AddressCrud.SetDefaultKeepsDefaultsUnique | app/crud/address.py:48-67 | The same precondition keeps every user's default unique. |
| AddressCrud.SetDefaultIdempotent | app/crud/address.py:48-67 | Reassigning the same default twice gives the same table as once. |
| AddressCrud.SetAsDefaultAll | app/crud/address.py:48-67 | The corrected reassignment: the clearing visits all of the user's addresses. On success the target is the user's only default, whatever the number of addresses. |
| AddressCrud.SetDefaultAllLeavesOneDefault | app/crud/address.py:52-56 | Clearing all of the user's addresses leaves exactly one default, at the target. |
| AddressCrud.CappedClearingLeavesTwoDefaults | app/crud/address.py:53-56 | The counterexample. 101 addresses of one user, only the last flagged, satisfy the invariant. Making the first the default, with the cap of 100, succeeds but leaves two defaults. |
| Config.AssembleCorsOrigins | app/core/config.py:15-21 | Refuses, with InvalidValue, exactly the values that are neither string nor list. A list, or a string starting with "[", passes unchanged. Any other string becomes one origin per comma-separated piece, each stripped: one more origin than commas, none containing a comma, none with surrounding whitespace. |
| Config.CorsRoundTrip | app/core/config.py:17-18 | Trimmed, comma-free origins joined by commas, the first not starting with "[", parse back to the same list. |
| Text.Strip | app/core/config.py:18 | `strip()` yields a slice of the string that neither starts nor ends with whitespace (Python's `isspace` set). Only whitespace outside it is dropped. |
| Text.StripKeepsTrimmed | app/core/config.py:18 | A string without surrounding whitespace is its own strip. |
| Text.Split | app/core/config.py:18 | `split(",")` yields one more piece than separators, none containing the separator. |
| Text.JoinSplit | app/core/config.py:18 | Joining the pieces of a split with the separator restores the string. |
| Text.SplitJoin | app/core/config.py:18 | Splitting a join of separator-free pieces gives the pieces back. |
| Queries.Select | app/crud/product.py:23-29 | `filter().offset().limit().all()` returns exactly min(`limit`, matches − `skip`) rows, none when `skip` passes the last match. Row i is the (`skip`+i)-th match in table order. With no offset and few enough matches, every matching row is returned. |
| Queries.First | app/crud/product.py:15 | `filter().first()` returns the first matching row, or none exactly when no row matches. |

## Left out

- Floating point: prices, item totals and `total_amount` are integers in minor currency units rather than floats, so there is no rounding.
- HTTP endpoints, authentication, JWT handling, session setup and start-up bootstrapping are framework wiring and foreign calls. They are not part of this model.
- The generic base class of the data-access layer is not part of this model. Its `get` is modelled as the first row with the key, and its `update` as overwriting the supplied fields (`OrderCrud.ApplyPatch`).
- Primary keys in the source are string columns with no default. As written, the `db.flush()` in `create_with_items` (app/crud/order.py:34), and the insert of every new row, fails, because no key is supplied. The model follows the evident intent and draws consecutive integer keys from the session counter.
- Transactions, autoflush, rollback and concurrent requests are not modelled. Calls are sequential. A failed reassignment leaves the table as before, because it is never committed.
- Timestamps: `created_at` defaults are evaluated once, when the module is imported. The model takes the creation time as a parameter of order creation, and `now` as a parameter of `GetRecentOrders`. `updated_at` is not modelled.
- Result order: SQL gives no row order without ORDER BY. The model uses table order, and an order's `items` relationship follows the items table.
- `skip` and `limit` are non-negative integers (`nat`). Negative values, which SQL would reject or treat specially, are not modelled.
- `OrderCrud.GetRecentOrders`: the time arithmetic is whole seconds. Date-time precision and time zones are not modelled.
- `ProductCrud.SearchProducts` and `Text.ContainsIgnoringCase`: ILIKE wildcards inside the query (`%` and `_`) match literally in the model. Lower-casing covers ASCII and Russian letters only, not every collation.
- `OrderService.CreateOrder`: the submitted request is modelled as its evident content, an address and a sequence of (product, quantity) lines. As written, the service reads `order_in.items`, which the request schema does not declare (it declares `order_details`). It also builds the internal `OrderCreate` without that required field.
- `OrderCrud.CreateWithItems`: as written, `Order(**obj_in.dict(exclude={"items"}), ...)` (app/crud/order.py:31-32) raises. The exclusion names `items`, not `order_details`, so the constructor receives `order_details`, `delivery_fee`, `estimated_delivery_time` and `special_instructions` (app/schemas/order.py:13-15), none of which is an order column. SQLAlchemy's default constructor rejects unknown keywords with a TypeError. (app/db/base_class.py is not part of this model.) The model follows the evident intent: it stores only the order columns.
- `OrderCrud.ApplyPatch` covers address, total and status; the other optional update fields have no order-table column.
- `OrderService.GetOrderDetails`: the view leaves out `unit_price`, `total_price` and the order's `total_price`. As written, the source reads `item.price`, `item.total` and `order.total_price`, which the order and item models do not define (they have `unit_price` and `total_amount`). So every found order with items, and every found order at the final `total_price` read, raises an attribute error in the source. The model returns the view without those fields. `updated_at` is left out as well.
- `OrderService.CreateOrder` does not require positive quantities or prices, because the source checks neither. `OrderService.LinesTotalPositive` takes both as preconditions.
- `AddressCrud.CreateWithUser`: as written, `Address(**obj_in.dict(), user_id=...)` (app/crud/address.py:31-32) raises. The create schema names the postal code `zip_code`, but the address model defines only `postal_code` (app/models/address.py:13), and SQLAlchemy's default constructor rejects the unknown keyword. The model follows the evident intent and stores the value as the postal code.
- `Config.AssembleCorsOrigins`: values that are neither strings nor lists form one `OtherValue` case. Pydantic's later coercion of the result to a list of strings is not modelled. As written, the validator takes `self` as its first parameter (app/core/config.py:15-16). Pydantic v2 refuses an instance-method field validator when the class is defined. The model follows the evident intent, a class-level validator of the value alone.
- The owner-or-admin checks of the endpoints are not modelled.

## Findings

| source | as written | input that shows it | evidently intended | confidence | as-written member | corrected member |
|---|---|---|---|---|---|---|
| app/crud/address.py:53-56 | The clearing step fetches the user's addresses with `get_multi_by_user` and its default limit of 100 (line 12). So it clears at most the first 100. | A user with 101 addresses, only the 101st marked default, calls `set_as_default` on the first. The call succeeds, and the user has two default addresses. | Clear the default flag on all of the user's addresses, as the comment on line 52 says. A successful call then leaves exactly one default. | not executed | AddressCrud.CappedClearingLeavesTwoDefaults | AddressCrud.SetAsDefaultAll |
