/**
 The product store: create, look up, list, partially update and delete rows
 of the `products` table.
 */
module ProductStore {
  import opened Schema

  /** A `products` row as the store returns it (`created_at` is not modelled). */
  datatype ProductRow = ProductRow(id: int, name: string, price: int, category: Option<string>)

  function RowOf(id: int, p: Product): ProductRow {
    ProductRow(id, p.name, p.price, p.category)
  }

  /** `category || null`: an omitted or empty category is stored as null. */
  function StoredCategory(category: Option<string>): (c: Option<string>)
    ensures c.Some? <==> category.Some? && category.value != ""
    ensures c.Some? ==> c == category
  {
    match category
    case Some(text) => if text == "" then None else category
    case None => None
  }

  /** `COALESCE(given, current)`: a supplied value replaces the stored one, an omitted one keeps it. */
  function Coalesce<T>(given: Option<T>, current: T): T {
    match given
    case Some(v) => v
    case None => current
  }

  /** Inserts a product under a fresh serial id and returns the stored row. */
  function Create(s: State, name: string, price: int, category: Option<string>): (r: Write<ProductRow>)
    ensures var id := r.returned.id;
      && r.state.products == s.products[id := Product(name, price, StoredCategory(category))]
      && r.returned == RowOf(id, r.state.products[id])
      && (Valid(s) ==> id !in s.products)
    ensures r.returned.id == s.nextProductId && r.state.nextProductId == s.nextProductId + 1
    ensures r.state.nextOrderId == s.nextOrderId && r.state.nextLineId == s.nextLineId
    ensures r.returned.name == name && r.returned.price == price
    ensures category.None? ==> r.returned.category.None?
    ensures r.state.orders == s.orders && r.state.lines == s.lines
    ensures Valid(s) ==> Valid(r.state)
  {
    var id := s.nextProductId;
    var p := Product(name, price, StoredCategory(category));
    Write(s.(products := s.products[id := p], nextProductId := id + 1), RowOf(id, p))
  }

  /** Returns the stored row, or null when the id is absent. */
  function FindById(s: State, id: int): (r: Option<ProductRow>)
    ensures r.Some? <==> id in s.products
    ensures r.Some? ==> r.value.id == id && r.value == RowOf(id, s.products[id])
  {
    if id in s.products then Some(RowOf(id, s.products[id])) else None
  }

  /** Returns every stored product, once each. */
  method FindAll(s: State) returns (rows: seq<ProductRow>)
    ensures |rows| == |s.products|
    ensures forall i :: 0 <= i < |rows| ==> rows[i].id in s.products && rows[i] == RowOf(rows[i].id, s.products[rows[i].id])
    ensures forall id :: id in s.products ==> exists i :: 0 <= i < |rows| && rows[i].id == id
    ensures forall i, j :: 0 <= i < j < |rows| ==> rows[i].id != rows[j].id
  {
    var ids := Enumerate(s.products.Keys);
    rows := seq(|ids|, i requires 0 <= i < |ids| && ids[i] in s.products => RowOf(ids[i], s.products[ids[i]]));
    forall id | id in s.products
      ensures exists i :: 0 <= i < |rows| && rows[i].id == id
    {
      var i :| 0 <= i < |ids| && ids[i] == id;
      assert rows[i].id == id;
    }
  }

  /**
   Partial update: each of name, price and category that is supplied
   replaces the stored value, each omitted one keeps it; an absent id fails
   and changes nothing.
   */
  function Update(s: State, id: int, name: Option<string>, price: Option<int>, category: Option<string>): (r: Step<ProductRow>)
    ensures r.result.Ok? <==> id in s.products
    ensures r.result.Err? ==> r == Step(s, Err(CouldNotUpdateProduct(id)))
    ensures r.result.Ok? ==>
      && r.state.products.Keys == s.products.Keys
      && r.state.products - {id} == s.products - {id}
      && r.result.value == RowOf(id, r.state.products[id])
    ensures r.result.Ok? && name.Some? ==> r.state.products[id].name == name.value
    ensures r.result.Ok? && name.None? ==> r.state.products[id].name == s.products[id].name
    ensures r.result.Ok? && price.Some? ==> r.state.products[id].price == price.value
    ensures r.result.Ok? && price.None? ==> r.state.products[id].price == s.products[id].price
    ensures r.result.Ok? && category.Some? ==> r.state.products[id].category == category
    ensures r.result.Ok? && category.None? ==> r.state.products[id].category == s.products[id].category
    ensures r.state.orders == s.orders && r.state.lines == s.lines
    ensures SerialsKept(s, r.state)
    ensures Valid(s) ==> Valid(r.state)
  {
    if id !in s.products then
      Step(s, Err(CouldNotUpdateProduct(id)))
    else
      var current := s.products[id];
      var category' := if category.Some? then category else current.category;
      var p := Product(Coalesce(name, current.name), Coalesce(price, current.price), category');
      Step(s.(products := s.products[id := p]), Ok(RowOf(id, p)))
  }

  /** Removes the product if present; an absent id is not an error. */
  function Delete(s: State, id: int): (r: State)
    ensures id !in r.products
    ensures r.products == s.products - {id}
    ensures id !in s.products ==> r == s
    ensures r.orders == s.orders && r.lines == s.lines
    ensures SerialsKept(s, r)
    ensures Valid(s) ==> Valid(r)
  {
    s.(products := s.products - {id})
  }

  // ---- Properties relating the operations ----

  /** A created product is found under the returned id with the given name and price. */
  lemma CreateThenFind(s: State, name: string, price: int, category: Option<string>)
    ensures var w := Create(s, name, price, category);
      FindById(w.state, w.returned.id) == Some(w.returned)
  {
  }

  /** An empty category string is stored as null, exactly as an omitted one. */
  lemma CreateEmptyCategoryIsNull(s: State, name: string, price: int)
    ensures Create(s, name, price, Some("")) == Create(s, name, price, None)
  {
  }

  /** After a delete the product is no longer found, whether or not it existed. */
  lemma DeleteThenFind(s: State, id: int)
    ensures FindById(Delete(s, id), id).None?
  {
  }

  /** An update supplying no field leaves the state as it was and returns the stored row. */
  lemma UpdateNothingIsIdentity(s: State, id: int)
    requires id in s.products
    ensures Update(s, id, None, None, None) == Step(s, Ok(RowOf(id, s.products[id])))
  {
  }

  /** Repeating an update has no further effect. */
  lemma UpdateIdempotent(s: State, id: int, name: Option<string>, price: Option<int>, category: Option<string>)
    ensures var r := Update(s, id, name, price, category);
      Update(r.state, id, name, price, category) == r
  {
  }

  /** COALESCE cannot store null over a value: once a product has a category, no update removes it. */
  lemma UpdateNeverClearsCategory(s: State, id: int, name: Option<string>, price: Option<int>, category: Option<string>)
    requires id in s.products && s.products[id].category.Some?
    ensures Update(s, id, name, price, category).state.products[id].category.Some?
  {
  }

  /** The row returned by an update is what a later lookup sees. */
  lemma UpdateThenFind(s: State, id: int, name: Option<string>, price: Option<int>, category: Option<string>)
    requires id in s.products
    ensures var r := Update(s, id, name, price, category);
      FindById(r.state, id) == Some(r.result.value)
  {
  }
}
