# Storefront order lines — a Dafny model

This project models the data layer of a small storefront backend. Its core
is the order-line manager (`OrderProduct`). The manager adds a product to an
order, merges a repeated add into the existing line, prices lines from the
product's current unit price, changes a line's quantity, lists an order's
lines and removes a line. The model also covers the two stores it reads:
`Product` (create, look up, list, partial update, delete) and `OrderStore`
(list, show, create, overwrite, delete, delete all).

The database is one immutable `Schema.State`. It holds three maps and three
serial counters:

- `orders`: order id to (status, user id, total).
- `products`: product id to (name, price, nullable category).
- `lines`: the (order id, product id) pair to (line id, quantity, price).

Because `lines` is keyed by the pair, the table's uniqueness constraint on
(order_id, product_id) holds by construction. Each store call is a pure
function of the state:

- A call that can throw returns a `Step`: the new state plus `Ok(row)` or
  `Err(error)`. Every error path returns the state unchanged.
- A call that cannot throw returns a `Write` (state plus returned value), a
  bare state, or a query result.

Money is integer cents. Quantities are mathematical integers; the 32-bit
range of the quantity column is not modelled (see "## Left out").
`addProduct` does not validate its quantity, so the model accepts zero and
negative values there.

The model follows the code as written, including where it is surprising:

- **Merge price.** When a product is added to an order that already has a
  line for it, the stored price becomes the unit price times the quantity
  just added. It is not the unit price times the new total quantity, which is
  what the insert branch (src/models/OrderProducts.ts:67-77) and
  updateQuantity (src/models/OrderProducts.ts:151-158) store. See
  "## Findings".
- **Orders on an absent id.** `show`, `update` and `delete` return nothing or
  do nothing; they do not throw, although some repository tests expect a
  throw.
- **Joins.** Both line queries inner-join `products`. A line whose product
  row is gone is therefore not returned by either query.

## Model

| member | source | states |
|---|---|---|
| `OrderProducts.AddProduct` | src/models/OrderProducts.ts:14-88 | Fails with order-not-found, then order-not-active, then product-not-found, in that order; on failure the state is unchanged. It succeeds exactly when the order is active and the product exists. On success only the (order, product) line changes. A new line gets quantity q and a fresh id. An existing line keeps its id and gains q units. Either way the price is set to unit price × q. |
| `OrderProducts.GetOrderProducts` | src/models/OrderProducts.ts:90-111 | Returns exactly the order's lines whose product exists, once each, each joined with its product name. An order with no lines gives the empty sequence. |
| `OrderProducts.GetByOrderAndProduct` | src/models/OrderProducts.ts:113-129 | Returns the line for the pair, joined with the product's name and current price. Returns null if and only if there is no line or the product row is gone. |
| `OrderProducts.UpdateQuantity` | src/models/OrderProducts.ts:131-174 | A quantity ≤ 0 fails before any lookup. Next a missing product fails, then a missing line; every failure leaves the state unchanged. On success the line keeps its id, its quantity becomes exactly q and its price becomes current unit price × q. Nothing else changes, and order status is never consulted. |
| `OrderProducts.RemoveProduct` | src/models/OrderProducts.ts:176-194 | Succeeds if and only if the line exists. On success it deletes exactly that line and returns the row it held. On failure the error is line-not-found and the state is unchanged. |
| `OrderProducts.AddChecksOrderFirst` | src/models/OrderProducts.ts:18-40 | When the order is absent or inactive and the product is also absent, the error is about the order, not the product, and nothing is written. |
| `OrderProducts.AddThenGet` | src/models/OrderProducts.ts:54-77 | The row addProduct returns is the row the single lookup then finds. |
| `OrderProducts.AddTwiceMerges` | tests/models.test.ts:330-341 | Adding q1 then q2 of a product leaves a single line for the pair. That line has quantity q1 + q2 and the first line's id, and its price is unit price × q2. |
| `OrderProducts.AddThenRemoveRestores` | src/models/OrderProducts.ts:67-77 | Removing a line that addProduct just inserted gives back the original tables; only the line serial has advanced. The removal returns the inserted row. |
| `OrderProducts.RemoveTwiceFails` | tests/models.test.ts:430-446 | After a removal the lookup returns null. A second removal of the pair fails with line-not-found and changes nothing. |
| `OrderProducts.UpdateQuantityThenGet` | tests/models.test.ts:408-414 | After a successful quantity update, the lookup returns the updated row with the product's name and price. |
| `OrderProducts.UpdateQuantityIgnoresOrders` | src/models/OrderProducts.ts:141-169 | Replacing the orders table by any other leaves updateQuantity's result and resulting lines unchanged, so a completed or missing order does not block it. |
| `OrderProducts.UpdateQuantityIdempotent` | src/models/OrderProducts.ts:154-163 | Repeating a successful quantity update returns the same result and state. |
| `OrderProducts.PositiveQuantitiesPreserved` | src/models/OrderProducts.ts:137-139 | If every line has positive quantity, updateQuantity and removeProduct preserve this, and so does addProduct when given a positive quantity. |
| `OrderProducts.RunKeepsInvariant` | src/models/OrderProducts.ts:14-194 | Over any sequence of addProduct, updateQuantity and removeProduct calls, the orders and products tables are never written. Line ids stay unique and below the line serial, and the serial never decreases. |
| `OrderProducts.RunKeepsPositiveQuantities` | src/models/OrderProducts.ts:137-139 | Over any sequence of calls in which every add has a positive quantity, all line quantities stay positive. |
| `OrderProducts.AddAcceptsZeroQuantity` | src/models/OrderProducts.ts:14-44 | addProduct does not validate the quantity: adding 0 of a product not yet on the order inserts a line of quantity 0. |
| `OrderProducts.AddProductRepriced` | src/models/OrderProducts.ts:54-66 | Corrected merge rule. It fails and writes exactly as addProduct does. On success it writes the same line keys, quantities and line ids and advances the line serial the same way, but the line's price is unit price × its new total quantity. |
| `OrderProducts.WritesKeepLinePriced` | src/models/OrderProducts.ts:42-77 | After a successful updateQuantity, an insert by addProduct, or any successful corrected add, the written line's price equals the product's unit price × the line's quantity. |
| `OrderProducts.RepricedAddTwice` | src/models/OrderProducts.ts:54-66 | With the corrected rule, adding q1 then q2 gives quantity q1 + q2 and price unit price × (q1 + q2). |
| `OrderProducts.MergeLosesEarlierUnits` | src/models/OrderProducts.ts:58-64 | As written, adding q1 ≠ 0 then q2 of a product with a non-zero price leaves a line whose price is not unit price × quantity. |
| `ProductStore.StoredCategory` | src/models/Product.ts:21 | The stored category is null if and only if it was omitted or empty; otherwise it is the given string. |
| `ProductStore.Create` | src/models/Product.ts:12-26 | Stores name, price and the normalised category under the product serial's next id, which is not yet used, and returns that row. Only the product serial advances. Orders and lines are untouched. |
| `ProductStore.FindById` | src/models/Product.ts:28-36 | Returns null if and only if the id is absent; otherwise returns the stored row under that id. |
| `ProductStore.FindAll` | src/models/Product.ts:38-46 | Returns every stored product exactly once, each as stored. |
| `ProductStore.Update` | src/models/Product.ts:48-70 | An absent id fails with the state unchanged. Otherwise each supplied field is replaced and each omitted field keeps its value. No other product, order, line or serial counter changes. |
| `ProductStore.Delete` | src/models/Product.ts:72-79 | Removes only that product; an absent id leaves the state as it was. The serial counters are kept, so the id is never handed out again. |
| `ProductStore.CreateThenFind` | tests/models.test.ts:144-185 | A created product is found under the returned id, exactly as returned. |
| `ProductStore.CreateEmptyCategoryIsNull` | src/models/Product.ts:21 | Creating with an empty category is the same as creating without one. |
| `ProductStore.DeleteThenFind` | tests/models.test.ts:471-484 | After a delete the product is not found, whether or not it existed. |
| `ProductStore.UpdateNothingIsIdentity` | src/models/Product.ts:53-57 | An update that supplies no field leaves the state unchanged and returns the stored row. |
| `ProductStore.UpdateIdempotent` | src/models/Product.ts:53-57 | Repeating an update returns the same result and state. |
| `ProductStore.UpdateNeverClearsCategory` | src/models/Product.ts:56 | A product that has a category keeps a category after any update. |
| `ProductStore.UpdateThenFind` | tests/models.test.ts:189-206 | The row update returns is what findById then finds. |
| `OrderStore.Index` | src/models/Order.ts:11-17 | Returns every stored order exactly once, each as stored. |
| `OrderStore.Show` | src/models/Order.ts:19-25 | Returns nothing if and only if the id is absent, and never fails; otherwise returns the stored row under that id. |
| `OrderStore.Create` | src/models/Order.ts:27-33 | Stores status, user id and total exactly as given, under the order serial's next id, which is not yet used. Only the order serial advances. Products and lines are untouched. |
| `OrderStore.Update` | src/models/Order.ts:35-41 | On an existing id it overwrites all three fields, keeps the id and returns the row; the serial counters are kept. On an absent id it returns nothing and the state is unchanged. |
| `OrderStore.Delete` | src/models/Order.ts:43-48 | Removes only that order; an absent id is a no-op. The serial counters are kept, so the id is never handed out again. |
| `OrderStore.DeleteAll` | src/models/Order.ts:50-54 | Afterwards no id shows an order. Products, lines and the serial counters are untouched. |
| `OrderStore.CreateThenShow` | tests/models.test.ts:221-263 | A created order is shown under its id exactly as returned. |
| `OrderStore.CreateKeepsExisting` | src/models/Order.ts:27-33 | Creating an order never changes an order already stored. |
| `OrderStore.UpdateThenShow` | tests/models.test.ts:271-284 | After an update, show returns what update returned; on an absent id both are nothing. |
| `OrderStore.DeleteOnlyThat` | src/models/Order.ts:43-48 | After a delete the order is not shown, and every other order shows as before. |
| `Scenarios.ModelTestsWalkthrough` | tests/models.test.ts:144-446 | With the model tests' data (a product created at 29.99, renamed and repriced to 39.99; an order completed by update; a second active order): adding 2 then 3 gives one line of quantity 5, priced 119.97 by the merge rule. Adds to order 99999 or of product 99999 fail without writing. Setting quantity 10 gives 399.90. Quantity 0 and product 99999 are rejected. Removal returns the row, the lookup is then null and a second removal fails. |
| `Scenarios.CreatedOrderHasNoLines` | tests/models.test.ts:376-389 | In a valid state, a newly created order has no lines to list, because every line refers to an order id already handed out. |
| `Scenarios.CreatedProductIsOnNoOrder` | tests/models.test.ts:376-389 | In a valid state, a newly created product is on no order: the lookup for it under any order is null. |
| `Scenarios.CompletedOrderRejectsProducts` | src/models/OrderProducts.ts:28-30 | Once an order is updated to a status other than active, adding a product to it fails with order-not-active and writes nothing. |
| `Scenarios.DeletedOrderRejectsProducts` | src/models/OrderProducts.ts:24-26 | After an order is deleted, adding a product to it fails with order-not-found and writes nothing. |
| `Scenarios.PriceChangeIsSnapshot` | src/models/OrderProducts.ts:42-44 | Changing a product's price leaves existing line rows untouched; the lookup reports the new unit price beside the old line. |
| `Scenarios.UpdateQuantityUsesCurrentPrice` | src/models/OrderProducts.ts:141-152 | After a product price change, updateQuantity reprices the line from the new unit price. |
| `Scenarios.DeletedProductHidesLines` | src/models/OrderProducts.ts:101-103 | After a product is deleted, neither line query returns a line for it. |

## Left out

- Store and connection failures: the model has no failure path for a failed query, a lost connection or a broken pool. Error logging and the wrapping of such failures are omitted too.
- Floating point: `parseFloat` of the NUMERIC price and its multiplication by the quantity become exact integer-cent arithmetic. Rounding is not modelled.
- `created_at` timestamps are not modelled. Serial ids come from counters that only increase.
- Foreign keys and cascades: the migrations are not part of this model. Deleting a product or an order is a plain map removal. Whether the database would reject or cascade such a delete while lines still refer to it is not modelled.
- `OrderProducts.AddProduct`: `order_products.quantity` is a 32-bit integer column. A non-integer quantity, or a merge whose `quantity + $1` leaves the 32-bit range, is a failed query in the source but succeeds in the model.
- `OrderProducts.UpdateQuantity`: likewise, a non-integer quantity or one beyond the 32-bit range is a failed query in the source but succeeds in the model.
- Concurrency: the race between addProduct's existence check and its write is not modelled. Every call is one atomic transition.
- Users (`src/models/User.ts`): bcrypt hashing with a pepper happens in a library whose behaviour is not visible.
- The route layer, the auth middleware and `src/database.ts` are not modelled. This includes the route-level checks on malformed ids and on non-positive quantities for updates.
- The compiled `.js` and `.d.ts` variants of the models are superseded by the `.ts` sources and are not modelled.
- Some repository tests expect errors from `OrderStore.show`, `update` and `delete` on an absent id. The code does not throw there, and the model follows the code.

## Findings

| source | as written | input that shows it | evidently intended | confidence | as-written member | corrected member |
|---|---|---|---|---|---|---|
| src/models/OrderProducts.ts:44-64 | On a repeated add, the line price is set to unit price × the added quantity, while the quantity becomes the sum | Product priced 10.00; add 2, then add 3: the line ends with quantity 5 and price 30.00 | Price = unit price × new total quantity (50.00), as for an insert and for updateQuantity | not executed; medium | `OrderProducts.MergeLosesEarlierUnits` | `OrderProducts.RepricedAddTwice` |
