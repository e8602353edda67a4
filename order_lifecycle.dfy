/**
 * One cycle of the background task `process_orders`: every pending order
 * becomes in_progress, then every in_progress order becomes completed.
 * The sleeps between and after the phases are not modelled; each phase is a
 * loop that sets the status of the orders its query selected.
 */
module OrderLifecycle {
  import opened OrderModels

  /** One phase: every order whose status is `from` gets status `to`; all others are kept. */
  function Advance(orders: map<int, Order>, from: Status, to: Status): (r: map<int, Order>)
    ensures r.Keys == orders.Keys
  {
    map id | id in orders :: if orders[id].status == from then orders[id].(status := to) else orders[id]
  }

  /** A full cycle: phase 1, then phase 2. */
  function Cycle(orders: map<int, Order>): map<int, Order> {
    Advance(Advance(orders, Pending, InProgress), InProgress, Completed)
  }

  /** The forward order of the lifecycle: pending, then in_progress, then completed. */
  predicate Precedes(a: Status, b: Status) {
    (a == Pending && (b == InProgress || b == Completed)) || (a == InProgress && b == Completed)
  }

  /** Running a phase twice in a row is the same as running it once. */
  lemma PhaseIdempotent(orders: map<int, Order>, from: Status, to: Status)
    ensures Advance(Advance(orders, from, to), from, to) == Advance(orders, from, to)
  {
    var once := Advance(orders, from, to);
    assert forall id :: id in once ==> Advance(once, from, to)[id] == once[id];
  }

  /** Phase 1 leaves no order pending; phase 2 leaves none in progress. */
  lemma PhasesEmptyTheirSource(orders: map<int, Order>)
    ensures forall id :: id in Advance(orders, Pending, InProgress) ==>
      Advance(orders, Pending, InProgress)[id].status != Pending
    ensures forall id :: id in Advance(orders, InProgress, Completed) ==>
      Advance(orders, InProgress, Completed)[id].status != InProgress
  {
  }

  /** After one full cycle with no other writes, no order is pending or in progress. */
  lemma CycleLeavesNothingActive(orders: map<int, Order>)
    ensures forall id :: id in Cycle(orders) ==>
      Cycle(orders)[id].status == Completed || Cycle(orders)[id].status == Cancelled
  {
    var mid := Advance(orders, Pending, InProgress);
    assert forall id :: id in mid ==> mid[id].status != Pending;
  }

  /**
   * The sweep adds and removes no orders, never touches a completed or
   * cancelled order, changes no column but the status, and every status it
   * changes moves forward along pending, in_progress, completed.
   */
  lemma CycleMovesForward(orders: map<int, Order>)
    ensures Cycle(orders).Keys == orders.Keys
    ensures forall id :: id in orders && (orders[id].status == Completed || orders[id].status == Cancelled) ==>
      Cycle(orders)[id] == orders[id]
    ensures forall id :: id in orders ==> Cycle(orders)[id] == orders[id].(status := Cycle(orders)[id].status)
    ensures forall id :: id in orders && Cycle(orders)[id].status != orders[id].status ==>
      Precedes(orders[id].status, Cycle(orders)[id].status)
  {
  }

  /** A non-empty set of ids has a member (by extensionality against the empty set). */
  lemma SomeIdIn(ids: set<int>)
    requires ids != {}
    ensures exists id :: id in ids
  {
    if forall id :: id !in ids {
      assert false;
    }
  }

  /** The table after the orders in `done` have been given status `to`. */
  function Moved(orders: map<int, Order>, done: set<int>, to: Status): (r: map<int, Order>)
    ensures r.Keys == orders.Keys
  {
    map id | id in orders :: if id in done then orders[id].(status := to) else orders[id]
  }

  /** Setting the status of one more order extends the set of moved orders by that one. */
  lemma MoveOneMore(orders: map<int, Order>, done: set<int>, id: int, to: Status)
    requires id in orders
    ensures Moved(orders, done, to)[id := orders[id].(status := to)] == Moved(orders, done + {id}, to)
  {
    var lhs := Moved(orders, done, to)[id := orders[id].(status := to)];
    var rhs := Moved(orders, done + {id}, to);
    assert forall k :: k in lhs ==> lhs[k] == rhs[k];
  }

  /** The ids the query `status == from` returns. */
  function Selected(orders: map<int, Order>, from: Status): (r: set<int>)
    ensures forall id :: id in r <==> id in orders && orders[id].status == from
  {
    set id | id in orders && orders[id].status == from
  }

  /** Moving exactly the orders whose status is `from` is one phase. */
  lemma MovedSelectedIsAdvance(orders: map<int, Order>, from: Status, to: Status)
    ensures Moved(orders, Selected(orders, from), to) == Advance(orders, from, to)
  {
    var selected := Selected(orders, from);
    var lhs := Moved(orders, selected, to);
    var rhs := Advance(orders, from, to);
    assert forall k :: k in lhs ==> lhs[k] == rhs[k];
  }

  /**
   * `for order in selected: order.status = to`, where `selected` is what the
   * query `status == from` returned before the loop started; the changes are
   * written back together, as the single `commit` after the loop does.
   */
  method MoveAll(db: OrderDb, from: Status, to: Status)
    requires db.Valid()
    modifies db
    ensures db.Valid()
    ensures db.orders == Advance(old(db.orders), from, to)
    ensures db.users == old(db.users) && db.dishes == old(db.dishes) && db.orderDishes == old(db.orderDishes)
    ensures db.nextDishId == old(db.nextDishId) && db.nextOrderId == old(db.nextOrderId)
  {
    var start := db.orders;
    var selected := Selected(start, from);
    var orders := start;
    var todo := selected;
    while todo != {}
      modifies {}
      invariant todo <= selected
      invariant orders == Moved(start, selected - todo, to)
      decreases todo
    {
      SomeIdIn(todo);
      var id :| id in todo;
      MoveOneMore(start, selected - todo, id, to);
      assert selected - todo + {id} == selected - (todo - {id});
      orders := orders[id := start[id].(status := to)];
      todo := todo - {id};
    }
    assert selected - todo == selected;
    MovedSelectedIsAdvance(start, from, to);
    db.orders := orders;
  }

  /** Phase 1 of the cycle: pending orders go to in_progress. */
  method StartPendingOrders(db: OrderDb)
    requires db.Valid()
    modifies db
    ensures db.Valid()
    ensures db.orders == Advance(old(db.orders), Pending, InProgress)
    ensures db.users == old(db.users) && db.dishes == old(db.dishes) && db.orderDishes == old(db.orderDishes)
    ensures db.nextDishId == old(db.nextDishId) && db.nextOrderId == old(db.nextOrderId)
  {
    MoveAll(db, Pending, InProgress);
  }

  /** Phase 2 of the cycle: in_progress orders go to completed. */
  method CompleteInProgressOrders(db: OrderDb)
    requires db.Valid()
    modifies db
    ensures db.Valid()
    ensures db.orders == Advance(old(db.orders), InProgress, Completed)
    ensures db.users == old(db.users) && db.dishes == old(db.dishes) && db.orderDishes == old(db.orderDishes)
    ensures db.nextDishId == old(db.nextDishId) && db.nextOrderId == old(db.nextOrderId)
  {
    MoveAll(db, InProgress, Completed);
  }

  /** One pass of the `while True` loop, both phases with nothing in between. */
  method RunCycle(db: OrderDb)
    requires db.Valid()
    modifies db
    ensures db.Valid()
    ensures db.orders == Cycle(old(db.orders))
    ensures forall id :: id in db.orders ==> db.orders[id].status == Completed || db.orders[id].status == Cancelled
    ensures db.users == old(db.users) && db.dishes == old(db.dishes) && db.orderDishes == old(db.orderDishes)
    ensures db.nextDishId == old(db.nextDishId) && db.nextOrderId == old(db.nextOrderId)
  {
    StartPendingOrders(db);
    CompleteInProgressOrders(db);
    CycleLeavesNothingActive(old(db.orders));
  }

}
