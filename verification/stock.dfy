/** Runs of stock transactions. Each purchase or restock holds its row lock
    for the whole of its read-check-write cycle, so a run of them on the shared
    table behaves as their serial composition in lock order. This module
    states what such a run does to the stock. */
module StockRuns {
  import opened Outcomes
  import opened Catalog

  /** One stock transaction as requested. */
  datatype StockOp = Buy(id: int, qty: Quantity) | Refill(id: int, qty: Quantity)

  function Perform(s: Store, op: StockOp): Step<Row, Store>
  {
    match op
    case Buy(id, q) => Purchase(s, id, q)
    case Refill(id, q) => Restock(s, id, q)
  }

  /** The table after a run, and each transaction's outcome in run order. */
  datatype Trace = Trace(final: Store, outcomes: seq<Result<Row>>)

  function Run(s: Store, ops: seq<StockOp>): (t: Trace)
    ensures |t.outcomes| == |ops|
    ensures t.final.rows.Keys == s.rows.Keys
    decreases |ops|
  {
    if |ops| == 0 then Trace(s, [])
    else
      var first := Perform(s, ops[0]);
      var rest := Run(first.state, ops[1..]);
      Trace(rest.final, [first.outcome] + rest.outcomes)
  }

  /** The signed stock change one committed transaction made to item id;
      refused transactions and transactions on other items contribute 0. */
  function Delta(op: StockOp, outcome: Result<Row>, id: int): int
  {
    if outcome.Err? || op.id != id || op.qty.None? then 0
    else match op
      case Buy(_, q) => -q.value
      case Refill(_, q) => q.value
  }

  /** The sum of the changes the committed transactions made to item id. */
  function NetDelta(ops: seq<StockOp>, outcomes: seq<Result<Row>>, id: int): int
    requires |ops| == |outcomes|
    decreases |ops|
  {
    if |ops| == 0 then 0
    else Delta(ops[0], outcomes[0], id) + NetDelta(ops[1..], outcomes[1..], id)
  }

  /** No stock transaction creates or removes an item, or touches any field
      but the quantity; each item's final quantity is its initial quantity
      plus the sum of the committed transactions on it. */
  lemma {:induction false} RunConservesStock(s: Store, ops: seq<StockOp>)
    ensures var t := Run(s, ops);
      && t.final.nextId == s.nextId
      && forall id :: id in s.rows ==>
           t.final.rows[id]
           == s.rows[id].(quantity := s.rows[id].quantity + NetDelta(ops, t.outcomes, id))
    decreases |ops|
  {
    if |ops| > 0 {
      var first := Perform(s, ops[0]);
      RunConservesStock(first.state, ops[1..]);
    }
  }

  /** Every item has a non-negative stock. */
  ghost predicate StockNonNegative(s: Store)
  {
    forall id :: id in s.rows ==> s.rows[id].quantity >= 0
  }

  /** Stock transactions never drive a non-negative stock below zero, at any
      point of a run: every answered row, and the final table, has
      non-negative stock. */
  lemma {:induction false} RunKeepsStockNonNegative(s: Store, ops: seq<StockOp>)
    requires StockNonNegative(s)
    ensures var t := Run(s, ops);
      && StockNonNegative(t.final)
      && forall i :: 0 <= i < |ops| && t.outcomes[i].Ok? ==>
           t.outcomes[i].value.sweet.quantity >= 0
    decreases |ops|
  {
    if |ops| > 0 {
      var first := Perform(s, ops[0]);
      RunKeepsStockNonNegative(first.state, ops[1..]);
      var t := Run(s, ops);
      var rest := Run(first.state, ops[1..]);
      assert t.outcomes == [first.outcome] + rest.outcomes;
      forall i | 0 <= i < |ops| && t.outcomes[i].Ok?
        ensures t.outcomes[i].value.sweet.quantity >= 0
      {
        if i > 0 {
          assert t.outcomes[i] == rest.outcomes[i - 1];
        }
      }
    }
  }

  /** Purchases of one item in lock order: each one succeeds exactly when the
      stock left by the earlier successful ones covers it. */
  lemma {:induction false} PurchasesSucceedWhileStockLasts(s: Store, id: int, qs: seq<int>)
    requires id in s.rows
    requires forall i :: 0 <= i < |qs| ==> qs[i] > 0
    ensures var t := Run(s, Buys(id, qs));
      forall i :: 0 <= i < |qs| ==>
        var before := Run(s, Buys(id, qs[..i])).final.rows[id].quantity;
        (t.outcomes[i].Ok? <==> before >= qs[i])
        && (t.outcomes[i].Err? ==> t.outcomes[i].error == InsufficientStock)
    decreases |qs|
  {
    if |qs| > 0 {
      var first := Purchase(s, id, Some(qs[0]));
      PurchasesSucceedWhileStockLasts(first.state, id, qs[1..]);
      var t := Run(s, Buys(id, qs));
      assert Buys(id, qs)[1..] == Buys(id, qs[1..]);
      forall i | 0 <= i < |qs|
        ensures var before := Run(s, Buys(id, qs[..i])).final.rows[id].quantity;
          (t.outcomes[i].Ok? <==> before >= qs[i])
          && (t.outcomes[i].Err? ==> t.outcomes[i].error == InsufficientStock)
      {
        RunConservesStock(s, Buys(id, qs[..i]));
        if i > 0 {
          assert qs[..i][1..] == qs[1..][..i - 1];
          assert Buys(id, qs[..i])[0] == Buy(id, Some(qs[0]));
          assert Buys(id, qs[..i])[1..] == Buys(id, qs[1..][..i - 1]);
        } else {
          assert Buys(id, qs[..i]) == [];
        }
      }
    }
  }

  /** Purchases of q[0], q[1], ... units of item id. */
  function Buys(id: int, qs: seq<int>): (ops: seq<StockOp>)
    ensures |ops| == |qs|
    ensures forall i :: 0 <= i < |qs| ==> ops[i] == Buy(id, Some(qs[i]))
  {
    seq(|qs|, i requires 0 <= i < |qs| => Buy(id, Some(qs[i])))
  }

  /** Ten units in stock and two purchases of six: in either lock order the
      first succeeds and leaves four, the second is refused for insufficient
      stock. */
  lemma TwoPurchasesOfSixFromTen(s: Store, id: int)
    requires id in s.rows && s.rows[id].quantity == 10
    ensures var t := Run(s, [Buy(id, Some(6)), Buy(id, Some(6))]);
      && t.outcomes[0].Ok? && t.outcomes[0].value.sweet.quantity == 4
      && t.outcomes[1] == Err(InsufficientStock)
      && t.final.rows[id].quantity == 4
  {
    var first := Purchase(s, id, Some(6));
    assert first.state.rows[id].quantity == 4;
    var ops := [Buy(id, Some(6)), Buy(id, Some(6))];
    assert ops[1..] == [Buy(id, Some(6))];
    assert ops[1..][1..] == [];
    var second := Purchase(first.state, id, Some(6));
    assert second == Step(Err(InsufficientStock), first.state);
    assert Run(first.state, ops[1..]).final == Run(second.state, []).final;
  }

  /** A restock may leave a negative stock negative: create and update do not
      check the quantity, so stock can start below zero. */
  lemma RestockKeepsNegativeStock()
    ensures var s := Store(map[1 := Sweet("Toffee", "candy", 100, -1)], 2);
      && Restock(s, 1, Some(1)).state.rows[1].quantity == 0
      && Purchase(Restock(s, 1, Some(1)).state, 1, Some(1)).outcome == Err(InsufficientStock)
  {
  }
}
