/**
 Properties that span the three stores: the model-level test scenarios of
 the repository, and how order and product writes affect the order lines.
 */
module Scenarios {
  import opened Schema
  import ProductStore
  import OrderStore
  import OrderProducts

  /**
   The model tests' sequence, with their data: a product created at 29.99,
   renamed and repriced to 39.99; an order created active and then completed;
   a second, active order. Adding 2 then 3 units leaves one line of quantity
   5 (priced 3 * 39.99 by the merge rule); adds to order 99999 or of product
   99999 fail; setting quantity 10 reprices the line to 399.90; quantity 0 and
   product 99999 are rejected; the line is removed once, after which the
   lookup is null and a second removal fails.
   */
  lemma {:induction false} ModelTestsWalkthrough()
    ensures
      var p0 := ProductStore.Create(Empty(), "Test Product", 2999, None);
      var pid := p0.returned.id;
      var p1 := ProductStore.Update(p0.state, pid, Some("Updated Product Name"), None, None);
      var p2 := ProductStore.Update(p1.state, pid, None, Some(3999), None);
      var o1 := OrderStore.Create(p2.state, Order(ACTIVE, 1, 9999));
      var o2 := OrderStore.Update(o1.state, o1.returned.id, Order("complete", 1, 15000));
      var o3 := OrderStore.Create(o2.state, Order(ACTIVE, 1, 0));
      var oid := o3.returned.id;
      var a1 := OrderProducts.AddProduct(o3.state, oid, pid, 2);
      var a2 := OrderProducts.AddProduct(a1.state, oid, pid, 3);
      var u1 := OrderProducts.UpdateQuantity(a2.state, oid, pid, 10);
      var d := OrderProducts.RemoveProduct(u1.state, oid, pid);
      && p2.result == Ok(ProductStore.ProductRow(pid, "Updated Product Name", 3999, None))
      && o2.returned == Some(OrderStore.OrderRow(o1.returned.id, "complete", 1, 15000))
      && a1.result == Ok(OrderProducts.LineRow(1, oid, pid, 2, 7998))
      && a2.result == Ok(OrderProducts.LineRow(1, oid, pid, 5, 11997))
      && OrderProducts.AddProduct(a2.state, 99999, pid, 1) == Step(a2.state, Err(OrderNotFound(99999)))
      && OrderProducts.AddProduct(a2.state, oid, 99999, 1) == Step(a2.state, Err(ProductNotFound(99999)))
      && OrderProducts.GetByOrderAndProduct(a2.state, oid, 99999).None?
      && u1.result == Ok(OrderProducts.LineRow(1, oid, pid, 10, 39990))
      && OrderProducts.UpdateQuantity(u1.state, oid, pid, 0) == Step(u1.state, Err(QuantityNotPositive))
      && OrderProducts.UpdateQuantity(u1.state, oid, 99999, 5) == Step(u1.state, Err(ProductNotFound(99999)))
      && d.result == Ok(OrderProducts.LineRow(1, oid, pid, 10, 39990))
      && OrderProducts.GetByOrderAndProduct(d.state, oid, pid).None?
      && OrderProducts.RemoveProduct(d.state, oid, pid).result == Err(LineNotFound(oid, pid))
  {
  }

  /** A newly created order lists no products: no line refers to an order id not yet handed out. */
  lemma CreatedOrderHasNoLines(s: State, order: Order)
    requires Valid(s)
    ensures var w := OrderStore.Create(s, order);
      OrderProducts.OrderKeys(w.state, w.returned.id) == {}
  {
  }

  /** A newly created product is on no order yet. */
  lemma CreatedProductIsOnNoOrder(s: State, name: string, price: int, category: Option<string>, orderId: int)
    requires Valid(s)
    ensures var w := ProductStore.Create(s, name, price, category);
      OrderProducts.GetByOrderAndProduct(w.state, orderId, w.returned.id).None?
  {
  }

  /** Once an order is updated to a status other than active, products can no longer be added to it. */
  lemma CompletedOrderRejectsProducts(s: State, orderId: int, order: Order, productId: int, quantity: int)
    requires orderId in s.orders && order.status != ACTIVE
    ensures var w := OrderStore.Update(s, orderId, order);
      OrderProducts.AddProduct(w.state, orderId, productId, quantity) == Step(w.state, Err(OrderNotActive(orderId)))
  {
  }

  /** A deleted order cannot receive products. */
  lemma DeletedOrderRejectsProducts(s: State, orderId: int, productId: int, quantity: int)
    ensures var t := OrderStore.Delete(s, orderId);
      OrderProducts.AddProduct(t, orderId, productId, quantity) == Step(t, Err(OrderNotFound(orderId)))
  {
  }

  /**
   A line's price is a snapshot: changing the product's price leaves the
   stored line untouched, while the single lookup reports the new unit price
   beside it.
   */
  lemma PriceChangeIsSnapshot(s: State, orderId: int, productId: int, newPrice: int)
    requires (orderId, productId) in s.lines && productId in s.products
    ensures var w := ProductStore.Update(s, productId, None, Some(newPrice), None);
      var before := OrderProducts.GetByOrderAndProduct(s, orderId, productId);
      var after := OrderProducts.GetByOrderAndProduct(w.state, orderId, productId);
      && after.Some?
      && after.value.row == before.value.row
      && after.value.productPrice == newPrice
  {
  }

  /**
   The next updateQuantity does pick up the new unit price: the line is
   repriced from the product as it is at that moment.
   */
  lemma UpdateQuantityUsesCurrentPrice(s: State, orderId: int, productId: int, newPrice: int, quantity: int)
    requires (orderId, productId) in s.lines && productId in s.products && quantity > 0
    ensures var w := ProductStore.Update(s, productId, None, Some(newPrice), None);
      OrderProducts.UpdateQuantity(w.state, orderId, productId, quantity).result.value.price == newPrice * quantity
  {
  }

  /** Deleting a product hides its lines from both queries, since they join on products. */
  lemma DeletedProductHidesLines(s: State, orderId: int, productId: int)
    ensures var t := ProductStore.Delete(s, productId);
      && OrderProducts.GetByOrderAndProduct(t, orderId, productId).None?
      && (orderId, productId) !in OrderProducts.OrderKeys(t, orderId)
  {
  }
}
