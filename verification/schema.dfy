/**
 The database state the storefront stores act on: the `orders`, `products`
 and `order_products` tables, each as a map keyed by its primary key, plus
 the serial counters that hand out fresh ids. Money is kept in integer
 cents; the order-line table is keyed by the (order id, product id) pair, so
 its uniqueness constraint on that pair holds by construction.
 */
module Schema {

  datatype Option<+T> = None | Some(value: T)

  /** The failures the stores raise, one constructor per message they throw. */
  datatype Error =
    | OrderNotFound(orderId: int)
    | OrderNotActive(orderId: int)
    | ProductNotFound(productId: int)
    | QuantityNotPositive
    | LineNotFound(orderId: int, productId: int)
    | CouldNotUpdateProduct(productId: int)

  datatype Result<+T> = Ok(value: T) | Err(error: Error)

  /** A transition that may fail: the state afterwards and what the call returned or threw. */
  datatype Step<+T> = Step(state: State, result: Result<T>)

  /** A transition that cannot fail: the state afterwards and the value returned. */
  datatype Write<+T> = Write(state: State, returned: T)

  /** The only order status under which products may be added. */
  const ACTIVE: string := "active"

  /** A row of `orders`, without its key. */
  datatype Order = Order(status: string, userId: int, total: int)

  /** A row of `products`, without its key; `category` is nullable. */
  datatype Product = Product(name: string, price: int, category: Option<string>)

  /** A row of `order_products`, without its (order id, product id) key. */
  datatype Line = Line(id: int, quantity: int, price: int)

  type LineKey = (int, int)

  datatype State = State(
    orders: map<int, Order>,
    products: map<int, Product>,
    lines: map<LineKey, Line>,
    nextOrderId: int,
    nextProductId: int,
    nextLineId: int)

  /**
   Every stored id was handed out by its serial counter, every line refers to
   order and product ids already handed out, and no two order lines share an id.
   */
  ghost predicate Valid(s: State) {
    && (forall id :: id in s.orders ==> id < s.nextOrderId)
    && (forall id :: id in s.products ==> id < s.nextProductId)
    && (forall k :: k in s.lines ==> s.lines[k].id < s.nextLineId)
    && (forall k :: k in s.lines ==> k.0 < s.nextOrderId && k.1 < s.nextProductId)
    && (forall k, k' :: k in s.lines && k' in s.lines && k != k' ==> s.lines[k].id != s.lines[k'].id)
  }

  /** The three serial counters are the same in both states. */
  predicate SerialsKept(s: State, s': State) {
    && s'.nextOrderId == s.nextOrderId
    && s'.nextProductId == s.nextProductId
    && s'.nextLineId == s.nextLineId
  }

  /** A freshly migrated database: empty tables, serials starting at 1. */
  function Empty(): (s: State)
    ensures Valid(s)
    ensures s.orders == map[] && s.products == map[] && s.lines == map[]
  {
    State(map[], map[], map[], 1, 1, 1)
  }

  /** Lists a finite set once per element, in an unspecified order (the order of a SELECT without ORDER BY). */
  method Enumerate<K>(keys: set<K>) returns (ks: seq<K>)
    ensures |ks| == |keys|
    ensures forall k :: k in ks <==> k in keys
    ensures forall i, j :: 0 <= i < j < |ks| ==> ks[i] != ks[j]
  {
    ks := [];
    var rest := keys;
    while rest != {}
      invariant rest <= keys
      invariant forall k :: k in keys <==> k in ks || k in rest
      invariant forall k :: k in ks ==> k !in rest
      invariant forall i, j :: 0 <= i < j < |ks| ==> ks[i] != ks[j]
      invariant |ks| + |rest| == |keys|
      decreases rest
    {
      var k :| k in rest;
      ks := ks + [k];
      rest := rest - {k};
    }
  }
}
