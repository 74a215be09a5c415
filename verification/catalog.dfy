/** The sweets catalogue and its stock: the seven handlers of the sweets
    controller as pure functions from (store, request) to (outcome, new store).
    The sweets table is a finite map from id to record; the id counter of the
    table is kept beside it. Each purchase and restock runs under a row lock
    inside one database transaction, so each is modelled as one atomic step. */
module Catalog {
  import opened Outcomes
  import opened Text

  /** One row of the sweets table, without its id. Prices are in cents. */
  datatype Sweet = Sweet(name: string, category: string, price: int, quantity: int)

  /** A row as the handlers answer with it: the id and the record. */
  datatype Row = Row(id: int, sweet: Sweet)

  /** The sweets table and the next value of its id sequence. */
  datatype Store = Store(rows: map<int, Sweet>, nextId: int)

  /** Every id in use was handed out by the id sequence, which starts at 1. */
  ghost predicate Valid(s: Store)
  {
    && s.nextId >= 1
    && forall id :: id in s.rows ==> 1 <= id < s.nextId
  }

  const Empty: Store := Store(map[], 1)

  lemma EmptyIsValid()
    ensures Valid(Empty) && |Empty.rows| == 0
  {
  }

  /** The row stored under id, as the handlers would answer with it. */
  predicate Stored(s: Store, r: Row)
  {
    r.id in s.rows && s.rows[r.id] == r.sweet
  }

  /** Rows in strictly ascending id order. */
  predicate Ascending(rs: seq<Row>)
  {
    forall i, j :: 0 <= i < j < |rs| ==> rs[i].id < rs[j].id
  }

  // ---------------------------------------------------------------- create

  /** The body of a create request; None stands for a field left out. */
  datatype NewSweet = NewSweet(
    name: Option<string>, category: Option<string>,
    price: Option<int>, quantity: Option<int>)

  /** Name and category must be truthy; price and quantity need only be
      present, so a price or quantity of 0 (or a negative one) is accepted. */
  predicate HasAllFields(f: NewSweet)
  {
    Truthy(f.name) && Truthy(f.category) && f.price.Some? && f.quantity.Some?
  }

  /** Inserts a new row under the next id of the sequence. */
  function Create(s: Store, f: NewSweet): (r: Step<Row, Store>)
    requires Valid(s)
    ensures Valid(r.state)
    ensures !HasAllFields(f) ==> r == Step(Err(MissingFields), s)
    ensures HasAllFields(f) ==>
      && r.outcome.Ok?
      && r.outcome.value.id !in s.rows
      && r.outcome.value.sweet
         == Sweet(f.name.value, f.category.value, f.price.value, f.quantity.value)
      && r.state.rows == s.rows[r.outcome.value.id := r.outcome.value.sweet]
      && forall id :: id in s.rows ==> id < r.outcome.value.id
  {
    if !HasAllFields(f) then Step(Err(MissingFields), s)
    else
      var id := s.nextId;
      var sweet := Sweet(f.name.value, f.category.value, f.price.value, f.quantity.value);
      Step(Ok(Row(id, sweet)), Store(s.rows[id := sweet], id + 1))
  }

  // ---------------------------------------------------------- list, search

  /** The rows whose ids lie in [lo, hi), in ascending id order. */
  function RowsBetween(rows: map<int, Sweet>, lo: int, hi: int): (r: seq<Row>)
    ensures Ascending(r)
    ensures forall x :: x in r ==> lo <= x.id < hi && x.id in rows && rows[x.id] == x.sweet
    ensures forall id :: id in rows && lo <= id < hi ==> Row(id, rows[id]) in r
    decreases hi - lo
  {
    if lo >= hi then []
    else if lo in rows then [Row(lo, rows[lo])] + RowsBetween(rows, lo + 1, hi)
    else RowsBetween(rows, lo + 1, hi)
  }

  /** Every row of the table, ordered by id. */
  function List(s: Store): (r: seq<Row>)
    requires Valid(s)
    ensures Ascending(r)
    ensures forall x :: x in r ==> Stored(s, x)
    ensures forall id :: id in s.rows ==> Row(id, s.rows[id]) in r
  {
    RowsBetween(s.rows, 1, s.nextId)
  }

  /** The query of a search request; a filter that is None, or an empty
      string, is not applied. */
  datatype Filters = Filters(
    name: Option<string>, category: Option<string>,
    minPrice: Option<int>, maxPrice: Option<int>)

  const NoFilters: Filters := Filters(None, None, None, None)

  /** The conjunction of the supplied filters: name is a case-insensitive
      substring, category an exact match, the price bounds inclusive. */
  predicate Matches(x: Sweet, f: Filters)
  {
    && (Truthy(f.name) ==> ContainsIgnoringCase(x.name, f.name.value))
    && (Truthy(f.category) ==> x.category == f.category.value)
    && (f.minPrice.Some? ==> x.price >= f.minPrice.value)
    && (f.maxPrice.Some? ==> x.price <= f.maxPrice.value)
  }

  /** Keeps the rows that match, in their order. */
  function Filter(rs: seq<Row>, f: Filters): (r: seq<Row>)
    ensures forall x :: x in r <==> x in rs && Matches(x.sweet, f)
    ensures Ascending(rs) ==> Ascending(r)
    ensures (forall x :: x in rs ==> Matches(x.sweet, f)) ==> r == rs
    decreases |rs|
  {
    if |rs| == 0 then []
    else
      var tail := Filter(rs[1..], f);
      assert rs == [rs[0]] + rs[1..];
      if Matches(rs[0].sweet, f) then
        var r := [rs[0]] + tail;
        assert Ascending(rs) ==> Ascending(r) by {
          if Ascending(rs) {
            forall x | x in tail
              ensures rs[0].id < x.id
            {
              var j :| 0 <= j < |rs[1..]| && rs[1..][j] == x;
              assert rs[j + 1] == x;
            }
          }
        }
        r
      else tail
  }

  /** The rows satisfying every supplied filter, ordered by id. */
  function Search(s: Store, f: Filters): (r: seq<Row>)
    requires Valid(s)
    ensures Ascending(r)
    ensures forall x :: x in r ==> Stored(s, x) && Matches(x.sweet, f)
    ensures forall id :: id in s.rows && Matches(s.rows[id], f) ==> Row(id, s.rows[id]) in r
  {
    Filter(List(s), f)
  }

  /** A search without filters lists the whole table. */
  lemma SearchWithoutFilters(s: Store)
    requires Valid(s)
    ensures Search(s, NoFilters) == List(s)
  {
  }

  /** Only one of the filters of f, the others left out. */
  function NameOnly(f: Filters): Filters { Filters(f.name, None, None, None) }
  function CategoryOnly(f: Filters): Filters { Filters(None, f.category, None, None) }
  function MinPriceOnly(f: Filters): Filters { Filters(None, None, f.minPrice, None) }
  function MaxPriceOnly(f: Filters): Filters { Filters(None, None, None, f.maxPrice) }

  /** The filters compose by AND: a row is found by a search iff each of its
      filters, applied alone, finds it. */
  lemma SearchIsConjunction(s: Store, f: Filters, x: Row)
    requires Valid(s)
    ensures x in Search(s, f) <==>
      && x in Search(s, NameOnly(f))
      && x in Search(s, CategoryOnly(f))
      && x in Search(s, MinPriceOnly(f))
      && x in Search(s, MaxPriceOnly(f))
  {
  }

  // ---------------------------------------------------------------- update

  /** The body of an update request; None stands for a field left out. */
  datatype Patch = Patch(
    name: Option<string>, category: Option<string>,
    price: Option<int>, quantity: Option<int>)

  predicate IsEmptyPatch(p: Patch)
  {
    p.name.None? && p.category.None? && p.price.None? && p.quantity.None?
  }

  /** The record with each supplied field replaced. */
  function Patched(x: Sweet, p: Patch): Sweet
  {
    Sweet(
      if p.name.Some? then p.name.value else x.name,
      if p.category.Some? then p.category.value else x.category,
      if p.price.Some? then p.price.value else x.price,
      if p.quantity.Some? then p.quantity.value else x.quantity)
  }

  /** Rewrites the supplied fields of one row. An empty patch is refused
      before the row is looked up. */
  function Update(s: Store, id: int, p: Patch): (r: Step<Row, Store>)
    ensures Valid(s) ==> Valid(r.state)
    ensures IsEmptyPatch(p) ==> r == Step(Err(NothingToUpdate), s)
    ensures !IsEmptyPatch(p) && id !in s.rows ==> r == Step(Err(NotFound), s)
    ensures r.outcome.Ok? <==> !IsEmptyPatch(p) && id in s.rows
    ensures r.outcome.Ok? ==>
      var before := s.rows[id];
      var after := r.outcome.value.sweet;
      && r.outcome.value.id == id
      && r.state == s.(rows := s.rows[id := after])
      && (p.name.Some? ==> after.name == p.name.value)
      && (p.name.None? ==> after.name == before.name)
      && (p.category.Some? ==> after.category == p.category.value)
      && (p.category.None? ==> after.category == before.category)
      && (p.price.Some? ==> after.price == p.price.value)
      && (p.price.None? ==> after.price == before.price)
      && (p.quantity.Some? ==> after.quantity == p.quantity.value)
      && (p.quantity.None? ==> after.quantity == before.quantity)
  {
    if IsEmptyPatch(p) then Step(Err(NothingToUpdate), s)
    else if id !in s.rows then Step(Err(NotFound), s)
    else
      var sweet := Patched(s.rows[id], p);
      Step(Ok(Row(id, sweet)), s.(rows := s.rows[id := sweet]))
  }

  /** Applying the same update twice has the effect of applying it once. */
  lemma UpdateIdempotent(s: Store, id: int, p: Patch)
    ensures var once := Update(s, id, p);
      Update(once.state, id, p) == once
  {
    var once := Update(s, id, p);
    if once.outcome.Ok? {
      assert Patched(once.outcome.value.sweet, p) == once.outcome.value.sweet;
      assert once.state.rows[id := once.outcome.value.sweet] == once.state.rows;
    }
  }

  // ---------------------------------------------------------------- delete

  /** Removes one row. */
  function Delete(s: Store, id: int): (r: Step<(), Store>)
    ensures Valid(s) ==> Valid(r.state)
    ensures id !in s.rows ==> r == Step(Err(NotFound), s)
    ensures id in s.rows ==>
      && r.outcome.Ok?
      && r.state.nextId == s.nextId
      && r.state.rows.Keys == s.rows.Keys - {id}
      && forall k :: k in r.state.rows ==> r.state.rows[k] == s.rows[k]
  {
    if id !in s.rows then Step(Err(NotFound), s)
    else Step(Ok(()), s.(rows := s.rows - {id}))
  }

  /** Deleting a freshly created row gives back the table it was created in;
      the id is not handed out again. */
  lemma CreateThenDelete(s: Store, f: NewSweet)
    requires Valid(s)
    requires HasAllFields(f)
    ensures var c := Create(s, f);
      var d := Delete(c.state, c.outcome.value.id);
      && d.outcome.Ok?
      && d.state.rows == s.rows
      && Create(d.state, f).outcome.value.id != c.outcome.value.id
  {
  }

  // ------------------------------------------------------ purchase, restock

  /** Number(quantity) of the request body; None stands for NaN, which is
      what a missing or non-numeric quantity becomes. */
  type Quantity = Option<int>

  /** The quantity test of purchase and restock: NaN, zero and negative
      quantities are refused. */
  predicate ValidQuantity(q: Quantity)
  {
    q.Some? && q.value > 0
  }

  /** Adds delta to the stock of a present row, under its row lock. */
  function ApplyDelta(s: Store, id: int, delta: int): (r: Row)
    requires id in s.rows
    ensures r.id == id
    ensures r.sweet.quantity == s.rows[id].quantity + delta
    ensures r.sweet.(quantity := s.rows[id].quantity) == s.rows[id]
  {
    Row(id, s.rows[id].(quantity := s.rows[id].quantity + delta))
  }

  /** One purchase transaction: quantity check, then row lookup, then stock
      check, then the decrement; every refusal leaves the store untouched. */
  function Purchase(s: Store, id: int, qty: Quantity): (r: Step<Row, Store>)
    ensures Valid(s) ==> Valid(r.state)
    ensures !ValidQuantity(qty) ==> r == Step(Err(InvalidQuantity), s)
    ensures ValidQuantity(qty) && id !in s.rows ==> r == Step(Err(NotFound), s)
    ensures ValidQuantity(qty) && id in s.rows && s.rows[id].quantity < qty.value
            ==> r == Step(Err(InsufficientStock), s)
    ensures r.outcome.Ok? <==>
            ValidQuantity(qty) && id in s.rows && s.rows[id].quantity >= qty.value
    ensures r.outcome.Ok? ==>
      && r.outcome.value.id == id
      && r.outcome.value.sweet.quantity == s.rows[id].quantity - qty.value
      && r.outcome.value.sweet.quantity >= 0
      && r.outcome.value.sweet.(quantity := s.rows[id].quantity) == s.rows[id]
      && r.state == s.(rows := s.rows[id := r.outcome.value.sweet])
  {
    if !ValidQuantity(qty) then Step(Err(InvalidQuantity), s)
    else if id !in s.rows then Step(Err(NotFound), s)
    else if s.rows[id].quantity < qty.value then Step(Err(InsufficientStock), s)
    else
      var row := ApplyDelta(s, id, -qty.value);
      Step(Ok(row), s.(rows := s.rows[id := row.sweet]))
  }

  /** One restock transaction: quantity check, then row lookup, then the
      increment. There is no upper bound on stock. */
  function Restock(s: Store, id: int, qty: Quantity): (r: Step<Row, Store>)
    ensures Valid(s) ==> Valid(r.state)
    ensures !ValidQuantity(qty) ==> r == Step(Err(InvalidQuantity), s)
    ensures ValidQuantity(qty) && id !in s.rows ==> r == Step(Err(NotFound), s)
    ensures r.outcome.Ok? <==> ValidQuantity(qty) && id in s.rows
    ensures r.outcome.Ok? ==>
      && r.outcome.value.id == id
      && r.outcome.value.sweet.quantity == s.rows[id].quantity + qty.value
      && r.outcome.value.sweet.quantity > s.rows[id].quantity
      && r.outcome.value.sweet.(quantity := s.rows[id].quantity) == s.rows[id]
      && r.state == s.(rows := s.rows[id := r.outcome.value.sweet])
  {
    if !ValidQuantity(qty) then Step(Err(InvalidQuantity), s)
    else if id !in s.rows then Step(Err(NotFound), s)
    else
      var row := ApplyDelta(s, id, qty.value);
      Step(Ok(row), s.(rows := s.rows[id := row.sweet]))
  }

  /** Restocking k units and then buying k units of the same sweet gives back
      the original table. This needs the stock to be non-negative: create and
      update accept a negative quantity, and from -1 a restock of k leaves
      k - 1 units, too few for the purchase of k. */
  lemma RestockThenPurchase(s: Store, id: int, k: int)
    requires id in s.rows && s.rows[id].quantity >= 0 && k > 0
    ensures var r := Restock(s, id, Some(k));
      var p := Purchase(r.state, id, Some(k));
      && r.outcome.Ok? && p.outcome.Ok?
      && p.outcome.value == Row(id, s.rows[id])
      && p.state == s
  {
  }

  /** Buying k units and then restocking k units gives back the original
      table. */
  lemma PurchaseThenRestock(s: Store, id: int, k: int)
    requires id in s.rows && 0 < k <= s.rows[id].quantity
    ensures var p := Purchase(s, id, Some(k));
      var r := Restock(p.state, id, Some(k));
      && p.outcome.Ok? && r.outcome.Ok?
      && r.state == s
  {
  }

  /** Once a row is deleted, a purchase or restock with a valid quantity, an
      update with a non-empty patch, and a delete of its id all report
      NotFound, so no row is recreated. An invalid quantity or an empty patch
      is refused before the lookup, as on any other id. */
  lemma DeletedRowIsGone(s: Store, id: int, qty: Quantity, p: Patch)
    requires id in s.rows
    requires ValidQuantity(qty) && !IsEmptyPatch(p)
    ensures var d := Delete(s, id).state;
      && Purchase(d, id, qty) == Step(Err(NotFound), d)
      && Restock(d, id, qty) == Step(Err(NotFound), d)
      && Update(d, id, p) == Step(Err(NotFound), d)
      && Delete(d, id) == Step(Err(NotFound), d)
  {
  }
}
