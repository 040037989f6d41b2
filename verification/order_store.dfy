/**
 The order store: list, show, create, overwrite and delete rows of the
 `orders` table. Lookups and writes on an absent id return nothing rather
 than failing.
 */
module OrderStore {
  import opened Schema

  /** An `orders` row as the store returns it (`SELECT *`). */
  datatype OrderRow = OrderRow(id: int, status: string, userId: int, total: int)

  function RowOf(id: int, o: Order): OrderRow {
    OrderRow(id, o.status, o.userId, o.total)
  }

  /** Returns every stored order, once each. */
  method Index(s: State) returns (rows: seq<OrderRow>)
    ensures |rows| == |s.orders|
    ensures forall i :: 0 <= i < |rows| ==> rows[i].id in s.orders && rows[i] == RowOf(rows[i].id, s.orders[rows[i].id])
    ensures forall id :: id in s.orders ==> exists i :: 0 <= i < |rows| && rows[i].id == id
    ensures forall i, j :: 0 <= i < j < |rows| ==> rows[i].id != rows[j].id
  {
    var ids := Enumerate(s.orders.Keys);
    rows := seq(|ids|, i requires 0 <= i < |ids| && ids[i] in s.orders => RowOf(ids[i], s.orders[ids[i]]));
    forall id | id in s.orders
      ensures exists i :: 0 <= i < |rows| && rows[i].id == id
    {
      var i :| 0 <= i < |ids| && ids[i] == id;
      assert rows[i].id == id;
    }
  }

  /** Returns the stored row, or nothing (undefined, not an error) when the id is absent. */
  function Show(s: State, id: int): (r: Option<OrderRow>)
    ensures r.Some? <==> id in s.orders
    ensures r.Some? ==> r.value.id == id && r.value == RowOf(id, s.orders[id])
  {
    if id in s.orders then Some(RowOf(id, s.orders[id])) else None
  }

  /** Inserts status, user id and total exactly as given under a fresh serial id. */
  function Create(s: State, order: Order): (r: Write<OrderRow>)
    ensures var id := r.returned.id;
      && r.state.orders == s.orders[id := order]
      && (Valid(s) ==> id !in s.orders)
    ensures r.returned.id == s.nextOrderId && r.state.nextOrderId == s.nextOrderId + 1
    ensures r.state.nextProductId == s.nextProductId && r.state.nextLineId == s.nextLineId
    ensures r.returned.status == order.status && r.returned.userId == order.userId && r.returned.total == order.total
    ensures r.state.products == s.products && r.state.lines == s.lines
    ensures Valid(s) ==> Valid(r.state)
  {
    var id := s.nextOrderId;
    Write(s.(orders := s.orders[id := order], nextOrderId := id + 1), RowOf(id, order))
  }

  /** Overwrites all three fields of an existing order, keeping its id; an absent id changes nothing and returns nothing. */
  function Update(s: State, id: int, order: Order): (r: Write<Option<OrderRow>>)
    ensures r.returned.Some? <==> id in s.orders
    ensures id !in s.orders ==> r.state == s
    ensures id in s.orders ==> r.state.orders == s.orders[id := order] && r.returned.value.id == id
    ensures r.returned.Some? ==>
      r.returned.value.status == order.status && r.returned.value.userId == order.userId && r.returned.value.total == order.total
    ensures r.state.products == s.products && r.state.lines == s.lines
    ensures SerialsKept(s, r.state)
    ensures Valid(s) ==> Valid(r.state)
  {
    if id in s.orders then
      Write(s.(orders := s.orders[id := order]), Some(RowOf(id, order)))
    else
      Write(s, None)
  }

  /** Removes only that order; an absent id is a no-op. */
  function Delete(s: State, id: int): (r: State)
    ensures id !in r.orders
    ensures r.orders == s.orders - {id}
    ensures id !in s.orders ==> r == s
    ensures r.products == s.products && r.lines == s.lines
    ensures SerialsKept(s, r)
    ensures Valid(s) ==> Valid(r)
  {
    s.(orders := s.orders - {id})
  }

  /** Empties the orders table. */
  function DeleteAll(s: State): (r: State)
    ensures forall id :: Show(r, id).None?
    ensures r.products == s.products && r.lines == s.lines
    ensures SerialsKept(s, r)
    ensures Valid(s) ==> Valid(r)
  {
    s.(orders := map[])
  }

  // ---- Properties relating the operations ----

  /** A created order is shown under its id with the stored fields. */
  lemma CreateThenShow(s: State, order: Order)
    ensures var w := Create(s, order);
      Show(w.state, w.returned.id) == Some(w.returned)
  {
  }

  /** Creating never overwrites an order that was already stored. */
  lemma CreateKeepsExisting(s: State, order: Order, id: int)
    requires Valid(s) && id in s.orders
    ensures Show(Create(s, order).state, id) == Show(s, id)
  {
  }

  /** After an update, show returns the row update returned. */
  lemma UpdateThenShow(s: State, id: int, order: Order)
    ensures var w := Update(s, id, order);
      Show(w.state, id) == w.returned
  {
  }

  /** Delete removes the one order and leaves every other order as it was. */
  lemma DeleteOnlyThat(s: State, id: int, other: int)
    requires other != id
    ensures Show(Delete(s, id), id).None?
    ensures Show(Delete(s, id), other) == Show(s, other)
  {
  }
}
