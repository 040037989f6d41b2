/**
 The order-line manager: adding a product to an order (insert or merge),
 listing and looking up an order's lines, repricing a line on a quantity
 change and removing a line. Every transition checks its error conditions
 before writing, touches at most the one line keyed by (order id, product id)
 and never changes the orders or products tables.
 */
module OrderProducts {
  import opened Schema

  /** An `order_products` row as the store returns it (`created_at` is not modelled). */
  datatype LineRow = LineRow(id: int, orderId: int, productId: int, quantity: int, price: int)

  /** A line joined with its product's name, as the per-order listing returns it. */
  datatype NamedLine = NamedLine(row: LineRow, productName: string)

  /** A line joined with its product's name and current unit price, as the single lookup returns it. */
  datatype PricedLine = PricedLine(row: LineRow, productName: string, productPrice: int)

  function RowOf(key: LineKey, line: Line): LineRow {
    LineRow(line.id, key.0, key.1, line.quantity, line.price)
  }

  function KeyOf(row: LineRow): LineKey {
    (row.orderId, row.productId)
  }

  predicate IsActive(s: State, orderId: int) {
    orderId in s.orders && s.orders[orderId].status == ACTIVE
  }

  /**
   Only the line under `key` may differ between the two states; the orders
   and products tables and the order and product serials are the same.
   */
  ghost predicate OnlyLineChanged(s: State, s': State, key: LineKey) {
    && s'.orders == s.orders
    && s'.products == s.products
    && s'.nextOrderId == s.nextOrderId
    && s'.nextProductId == s.nextProductId
    && s'.lines - {key} == s.lines - {key}
  }

  /**
   Adds `quantity` units of a product to an order. The order must exist and
   be active, then the product must exist; the line price is the product's
   current unit price times `quantity`. A new line gets a fresh id; an
   existing line has `quantity` added to its quantity and its price set to
   the unit price times the ADDED quantity, not the new total (see
   `AddProductRepriced` for the rule the insert branch and `UpdateQuantity`
   apply: unit price times the line's quantity).
   `quantity` is not checked here.
   */
  function AddProduct(s: State, orderId: int, productId: int, quantity: int): (r: Step<LineRow>)
    ensures orderId !in s.orders ==> r == Step(s, Err(OrderNotFound(orderId)))
    ensures orderId in s.orders && s.orders[orderId].status != ACTIVE ==> r == Step(s, Err(OrderNotActive(orderId)))
    ensures IsActive(s, orderId) && productId !in s.products ==> r == Step(s, Err(ProductNotFound(productId)))
    ensures r.result.Ok? <==> IsActive(s, orderId) && productId in s.products
    ensures r.result.Err? ==> r.state == s
    ensures r.result.Ok? ==> var key := (orderId, productId);
      && OnlyLineChanged(s, r.state, key)
      && key in r.state.lines
      && r.result.value == RowOf(key, r.state.lines[key])
      && r.state.lines[key].price == s.products[productId].price * quantity
    ensures r.result.Ok? && (orderId, productId) !in s.lines ==>
      && r.state.lines.Keys == s.lines.Keys + {(orderId, productId)}
      && r.state.lines[(orderId, productId)].quantity == quantity
      && r.state.lines[(orderId, productId)].id == s.nextLineId
      && r.state.nextLineId == s.nextLineId + 1
      && (Valid(s) ==> forall k :: k in s.lines ==> s.lines[k].id != r.state.lines[(orderId, productId)].id)
    ensures r.result.Ok? && (orderId, productId) in s.lines ==>
      && r.state.lines.Keys == s.lines.Keys
      && r.state.nextLineId == s.nextLineId
      && r.state.lines[(orderId, productId)].id == s.lines[(orderId, productId)].id
      && r.state.lines[(orderId, productId)].quantity == s.lines[(orderId, productId)].quantity + quantity
    ensures Valid(s) ==> Valid(r.state)
  {
    if orderId !in s.orders then
      Step(s, Err(OrderNotFound(orderId)))
    else if s.orders[orderId].status != ACTIVE then
      Step(s, Err(OrderNotActive(orderId)))
    else if productId !in s.products then
      Step(s, Err(ProductNotFound(productId)))
    else
      var totalPrice := s.products[productId].price * quantity;
      var key := (orderId, productId);
      if key in s.lines then
        var line := s.lines[key].(quantity := s.lines[key].quantity + quantity, price := totalPrice);
        Step(s.(lines := s.lines[key := line]), Ok(RowOf(key, line)))
      else
        var line := Line(s.nextLineId, quantity, totalPrice);
        Step(s.(lines := s.lines[key := line], nextLineId := s.nextLineId + 1), Ok(RowOf(key, line)))
  }

  /** The lines of an order whose product still exists (the listing joins on products). */
  function OrderKeys(s: State, orderId: int): set<LineKey> {
    set k | k in s.lines && k.0 == orderId && k.1 in s.products
  }

  function Named(s: State, key: LineKey): NamedLine
    requires key in s.lines && key.1 in s.products
  {
    NamedLine(RowOf(key, s.lines[key]), s.products[key.1].name)
  }

  /**
   Lists exactly the lines of the order, each joined with its product's name,
   once each; an order without lines yields the empty sequence, not an error.
   */
  method GetOrderProducts(s: State, orderId: int) returns (rows: seq<NamedLine>)
    ensures |rows| == |OrderKeys(s, orderId)|
    ensures forall i :: 0 <= i < |rows| ==>
      && rows[i].row.orderId == orderId
      && KeyOf(rows[i].row) in s.lines
      && rows[i].row.productId in s.products
      && rows[i] == Named(s, KeyOf(rows[i].row))
    ensures forall k :: k in OrderKeys(s, orderId) ==> exists i :: 0 <= i < |rows| && KeyOf(rows[i].row) == k
    ensures forall i, j :: 0 <= i < j < |rows| ==> KeyOf(rows[i].row) != KeyOf(rows[j].row)
    ensures (forall k :: k in s.lines ==> k.0 != orderId) ==> rows == []
  {
    var keys := Enumerate(OrderKeys(s, orderId));
    rows := seq(|keys|, i requires 0 <= i < |keys| && keys[i] in OrderKeys(s, orderId) => Named(s, keys[i]));
    forall i | 0 <= i < |rows|
      ensures keys[i] in OrderKeys(s, orderId) && KeyOf(rows[i].row) == keys[i] && rows[i] == Named(s, keys[i])
    {
      assert keys[i] in keys;
    }
    forall k | k in OrderKeys(s, orderId)
      ensures exists i :: 0 <= i < |rows| && KeyOf(rows[i].row) == k
    {
      var i :| 0 <= i < |keys| && keys[i] == k;
      assert KeyOf(rows[i].row) == k;
    }
    if forall k :: k in s.lines ==> k.0 != orderId {
      assert OrderKeys(s, orderId) == {};
    }
  }

  /** The line for the pair joined with its product, or null when there is none (or its product is gone). */
  function GetByOrderAndProduct(s: State, orderId: int, productId: int): (r: Option<PricedLine>)
    ensures r.Some? <==> (orderId, productId) in s.lines && productId in s.products
    ensures r.Some? ==>
      && r.value.row == RowOf((orderId, productId), s.lines[(orderId, productId)])
      && r.value.productName == s.products[productId].name
      && r.value.productPrice == s.products[productId].price
  {
    var key := (orderId, productId);
    if key in s.lines && productId in s.products then
      var p := s.products[productId];
      Some(PricedLine(RowOf(key, s.lines[key]), p.name, p.price))
    else
      None
  }

  /**
   Sets the line's quantity to exactly `quantity` and reprices it from the
   product's current unit price. A non-positive quantity fails before any
   lookup; then a missing product, then a missing line. The order's status is
   not consulted.
   */
  function UpdateQuantity(s: State, orderId: int, productId: int, quantity: int): (r: Step<LineRow>)
    ensures quantity <= 0 ==> r == Step(s, Err(QuantityNotPositive))
    ensures quantity > 0 && productId !in s.products ==> r == Step(s, Err(ProductNotFound(productId)))
    ensures quantity > 0 && productId in s.products && (orderId, productId) !in s.lines ==>
      r == Step(s, Err(LineNotFound(orderId, productId)))
    ensures r.result.Ok? <==> quantity > 0 && productId in s.products && (orderId, productId) in s.lines
    ensures r.result.Err? ==> r.state == s
    ensures r.result.Ok? ==> var key := (orderId, productId);
      && OnlyLineChanged(s, r.state, key)
      && r.state.nextLineId == s.nextLineId
      && r.state.lines.Keys == s.lines.Keys
      && r.state.lines[key].id == s.lines[key].id
      && r.state.lines[key].quantity == quantity
      && r.state.lines[key].price == s.products[productId].price * quantity
      && r.result.value == RowOf(key, r.state.lines[key])
    ensures Valid(s) ==> Valid(r.state)
  {
    if quantity <= 0 then
      Step(s, Err(QuantityNotPositive))
    else if productId !in s.products then
      Step(s, Err(ProductNotFound(productId)))
    else
      var key := (orderId, productId);
      if key !in s.lines then
        Step(s, Err(LineNotFound(orderId, productId)))
      else
        var totalPrice := s.products[productId].price * quantity;
        var line := s.lines[key].(quantity := quantity, price := totalPrice);
        Step(s.(lines := s.lines[key := line]), Ok(RowOf(key, line)))
  }

  /** Deletes the line and returns the row it held; fails when there is no line for the pair. */
  function RemoveProduct(s: State, orderId: int, productId: int): (r: Step<LineRow>)
    ensures r.result.Ok? <==> (orderId, productId) in s.lines
    ensures r.result.Err? ==> r == Step(s, Err(LineNotFound(orderId, productId)))
    ensures r.result.Ok? ==> var key := (orderId, productId);
      && OnlyLineChanged(s, r.state, key)
      && r.state.nextLineId == s.nextLineId
      && r.state.lines == s.lines - {key}
      && r.result.value == RowOf(key, s.lines[key])
    ensures Valid(s) ==> Valid(r.state)
  {
    var key := (orderId, productId);
    if key in s.lines then
      Step(s.(lines := s.lines - {key}), Ok(RowOf(key, s.lines[key])))
    else
      Step(s, Err(LineNotFound(orderId, productId)))
  }

  // ---- Properties relating the operations ----

  /** An absent order is reported before an absent product, and nothing is written. */
  lemma AddChecksOrderFirst(s: State, orderId: int, productId: int, quantity: int)
    requires !IsActive(s, orderId) && productId !in s.products
    ensures AddProduct(s, orderId, productId, quantity).state == s
    ensures AddProduct(s, orderId, productId, quantity).result.error != ProductNotFound(productId)
  {
  }

  /** What addProduct returns is what the single lookup then sees. */
  lemma AddThenGet(s: State, orderId: int, productId: int, quantity: int)
    requires IsActive(s, orderId) && productId in s.products
    ensures var r := AddProduct(s, orderId, productId, quantity);
      GetByOrderAndProduct(r.state, orderId, productId).Some?
      && GetByOrderAndProduct(r.state, orderId, productId).value.row == r.result.value
  {
  }

  /**
   Adding the same product twice keeps one line for the pair with the summed
   quantity and the first line's id; its price is the unit price times the
   second quantity only.
   */
  lemma AddTwiceMerges(s: State, orderId: int, productId: int, q1: int, q2: int)
    requires IsActive(s, orderId) && productId in s.products
    requires (orderId, productId) !in s.lines
    ensures var r1 := AddProduct(s, orderId, productId, q1);
      var r2 := AddProduct(r1.state, orderId, productId, q2);
      && r2.result.Ok?
      && r2.state.lines.Keys == s.lines.Keys + {(orderId, productId)}
      && r2.result.value.id == r1.result.value.id
      && r2.result.value.quantity == q1 + q2
      && r2.result.value.price == s.products[productId].price * q2
  {
  }

  /** Removing a line that addProduct just inserted restores the tables; only the line serial has moved on. */
  lemma AddThenRemoveRestores(s: State, orderId: int, productId: int, quantity: int)
    requires IsActive(s, orderId) && productId in s.products
    requires (orderId, productId) !in s.lines
    ensures var r1 := AddProduct(s, orderId, productId, quantity);
      RemoveProduct(r1.state, orderId, productId) == Step(s.(nextLineId := s.nextLineId + 1), Ok(r1.result.value))
  {
  }

  /** Removal succeeds once: afterwards the lookup is null and a second removal fails without writing. */
  lemma RemoveTwiceFails(s: State, orderId: int, productId: int)
    requires (orderId, productId) in s.lines
    ensures var r1 := RemoveProduct(s, orderId, productId);
      && r1.result.Ok?
      && GetByOrderAndProduct(r1.state, orderId, productId).None?
      && RemoveProduct(r1.state, orderId, productId) == Step(r1.state, Err(LineNotFound(orderId, productId)))
  {
  }

  /** The line updateQuantity returns is what the single lookup then sees. */
  lemma UpdateQuantityThenGet(s: State, orderId: int, productId: int, quantity: int)
    requires quantity > 0 && productId in s.products && (orderId, productId) in s.lines
    ensures var r := UpdateQuantity(s, orderId, productId, quantity);
      GetByOrderAndProduct(r.state, orderId, productId) == Some(PricedLine(r.result.value, s.products[productId].name, s.products[productId].price))
  {
  }

  /** updateQuantity ignores the orders table: a completed or even missing order changes nothing about its outcome. */
  lemma UpdateQuantityIgnoresOrders(s: State, orders: map<int, Order>, orderId: int, productId: int, quantity: int)
    ensures var t := s.(orders := orders);
      && UpdateQuantity(t, orderId, productId, quantity).result == UpdateQuantity(s, orderId, productId, quantity).result
      && UpdateQuantity(t, orderId, productId, quantity).state.lines == UpdateQuantity(s, orderId, productId, quantity).state.lines
  {
  }

  /** Setting the same quantity twice has no further effect. */
  lemma UpdateQuantityIdempotent(s: State, orderId: int, productId: int, quantity: int)
    ensures var r := UpdateQuantity(s, orderId, productId, quantity);
      r.result.Ok? ==> UpdateQuantity(r.state, orderId, productId, quantity) == r
  {
  }

  /** Every stored line has a positive quantity: the invariant updateQuantity's guard (src/models/OrderProducts.ts:137) maintains. */
  ghost predicate PositiveQuantities(s: State) {
    forall k :: k in s.lines ==> s.lines[k].quantity > 0
  }

  /** updateQuantity keeps quantities positive; addProduct does so only when handed a positive quantity. */
  lemma PositiveQuantitiesPreserved(s: State, orderId: int, productId: int, quantity: int)
    requires PositiveQuantities(s)
    ensures PositiveQuantities(UpdateQuantity(s, orderId, productId, quantity).state)
    ensures PositiveQuantities(RemoveProduct(s, orderId, productId).state)
    ensures quantity > 0 ==> PositiveQuantities(AddProduct(s, orderId, productId, quantity).state)
  {
  }

  /** addProduct does not validate the quantity: a zero quantity inserts a line of quantity zero. */
  lemma AddAcceptsZeroQuantity(s: State, orderId: int, productId: int)
    requires IsActive(s, orderId) && productId in s.products && (orderId, productId) !in s.lines
    ensures var r := AddProduct(s, orderId, productId, 0);
      r.result.Ok? && r.result.value.quantity == 0 && !PositiveQuantities(r.state)
  {
  }

  // ---- The line price rule ----

  /** The line's stored price is its product's current unit price times its quantity. */
  ghost predicate LinePriced(s: State, key: LineKey) {
    key in s.lines && key.1 in s.products && s.lines[key].price == s.products[key.1].price * s.lines[key].quantity
  }

  /**
   addProduct with the price rule the insert branch and `UpdateQuantity`
   apply, unit price times the line's quantity: on a merge the line is
   repriced from the unit price times the NEW TOTAL quantity. Everything else
   is as in `AddProduct`.
   */
  function AddProductRepriced(s: State, orderId: int, productId: int, quantity: int): (r: Step<LineRow>)
    ensures r.result.Ok? <==> IsActive(s, orderId) && productId in s.products
    ensures r.result.Err? ==> r == AddProduct(s, orderId, productId, quantity)
    ensures r.result.Ok? ==> var key := (orderId, productId);
      && OnlyLineChanged(s, r.state, key)
      && r.state.lines.Keys == AddProduct(s, orderId, productId, quantity).state.lines.Keys
      && r.state.lines[key].quantity == AddProduct(s, orderId, productId, quantity).state.lines[key].quantity
      && r.state.lines[key].id == AddProduct(s, orderId, productId, quantity).state.lines[key].id
      && r.state.nextLineId == AddProduct(s, orderId, productId, quantity).state.nextLineId
      && r.result.value == RowOf(key, r.state.lines[key])
      && LinePriced(r.state, key)
    ensures Valid(s) ==> Valid(r.state)
  {
    var r := AddProduct(s, orderId, productId, quantity);
    if r.result.Err? then
      r
    else
      var key := (orderId, productId);
      var line := r.state.lines[key];
      var line' := line.(price := s.products[productId].price * line.quantity);
      Step(r.state.(lines := r.state.lines[key := line']), Ok(RowOf(key, line')))
  }

  /** Every successful write of the intended rules leaves the written line consistently priced. */
  lemma WritesKeepLinePriced(s: State, orderId: int, productId: int, quantity: int)
    ensures UpdateQuantity(s, orderId, productId, quantity).result.Ok? ==>
      LinePriced(UpdateQuantity(s, orderId, productId, quantity).state, (orderId, productId))
    ensures (orderId, productId) !in s.lines && AddProduct(s, orderId, productId, quantity).result.Ok? ==>
      LinePriced(AddProduct(s, orderId, productId, quantity).state, (orderId, productId))
    ensures AddProductRepriced(s, orderId, productId, quantity).result.Ok? ==>
      LinePriced(AddProductRepriced(s, orderId, productId, quantity).state, (orderId, productId))
  {
  }

  /** Repricing on the merge makes two adds store what an insert of q1 + q2 would: price = unit price * (q1 + q2). */
  lemma RepricedAddTwice(s: State, orderId: int, productId: int, q1: int, q2: int)
    requires IsActive(s, orderId) && productId in s.products
    requires (orderId, productId) !in s.lines
    ensures var r1 := AddProductRepriced(s, orderId, productId, q1);
      var r2 := AddProductRepriced(r1.state, orderId, productId, q2);
      && r2.result.Ok?
      && r2.result.value.quantity == q1 + q2
      && r2.result.value.price == s.products[productId].price * (q1 + q2)
  {
  }

  /**
   As written, the merge breaks that consistency whenever the unit price and
   the earlier quantity are non-zero: the stored price misses the units that
   were already on the line.
   */
  lemma MergeLosesEarlierUnits(s: State, orderId: int, productId: int, q1: int, q2: int)
    requires IsActive(s, orderId) && productId in s.products
    requires (orderId, productId) !in s.lines
    requires s.products[productId].price != 0 && q1 != 0
    ensures var r1 := AddProduct(s, orderId, productId, q1);
      var r2 := AddProduct(r1.state, orderId, productId, q2);
      && r2.result.Ok?
      && !LinePriced(r2.state, (orderId, productId))
  {
  }

  // ---- Sequences of calls ----

  /** One call of the order-line manager's writing operations. */
  datatype Call =
    | Add(orderId: int, productId: int, quantity: int)
    | SetQuantity(orderId: int, productId: int, quantity: int)
    | Remove(orderId: int, productId: int)

  function Apply(s: State, c: Call): State {
    match c
    case Add(o, p, q) => AddProduct(s, o, p, q).state
    case SetQuantity(o, p, q) => UpdateQuantity(s, o, p, q).state
    case Remove(o, p) => RemoveProduct(s, o, p).state
  }

  /** The state after the calls, in order; a failing call leaves the state as it was. */
  function Run(s: State, calls: seq<Call>): State
    decreases |calls|
  {
    if calls == [] then s else Run(Apply(s, calls[0]), calls[1..])
  }

  /**
   However the order-line calls are interleaved, the orders and products
   tables are never written, line ids stay unique and below the line serial,
   and the serial never goes back.
   */
  lemma {:induction false} RunKeepsInvariant(s: State, calls: seq<Call>)
    requires Valid(s)
    ensures var t := Run(s, calls);
      && Valid(t)
      && t.orders == s.orders
      && t.products == s.products
      && t.nextLineId >= s.nextLineId
    decreases |calls|
  {
    if calls != [] {
      RunKeepsInvariant(Apply(s, calls[0]), calls[1..]);
    }
  }

  /** If every add is handed a positive quantity (neither addProduct nor its route checks this), every line's quantity stays positive. */
  lemma {:induction false} RunKeepsPositiveQuantities(s: State, calls: seq<Call>)
    requires PositiveQuantities(s)
    requires forall i :: 0 <= i < |calls| && calls[i].Add? ==> calls[i].quantity > 0
    ensures PositiveQuantities(Run(s, calls))
    decreases |calls|
  {
    if calls != [] {
      var c := calls[0];
      PositiveQuantitiesPreserved(s, c.orderId, c.productId, if c.Remove? then 1 else c.quantity);
      assert forall i :: 0 <= i < |calls[1..]| ==> calls[1..][i] == calls[i + 1];
      RunKeepsPositiveQuantities(Apply(s, c), calls[1..]);
    }
  }
}
