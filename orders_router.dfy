/**
 * The OrderService `/orders` endpoints. The caller is the user the
 * `get_current_user` dependency resolved; `create_order`,
 * `update_order_status` and `delete_order` change the tables in place.
 */
module OrdersRouter {
  import opened Wrappers
  import opened Http
  import opened Text
  import opened Tokens
  import opened OrderModels
  import opened OrderSchemas

  const TokenExpired: HttpError := HttpError(Unauthorized, "Token has expired")
  const CouldNotValidate: HttpError := HttpError(Unauthorized, "Could not validate credentials")
  const UserNotFound: HttpError := HttpError(NotFound, "User not found")
  const OrderNotFound: HttpError := HttpError(NotFound, "Order not found")
  const NoOrders: HttpError := HttpError(NotFound, "No orders found")
  const StatusForbidden: HttpError := HttpError(Forbidden, "You are not authorized to update the order status")
  const ListForbidden: HttpError := HttpError(Forbidden, "You are not authorized to get the list of all orders")
  const DeleteForbidden: HttpError := HttpError(Forbidden, "You are not authorized to delete orders")
  const StatusUpdated: string := "Order status updated"

  /** 400 "Dish with id {dish_id} is not available". */
  function NotAvailable(dishId: int): HttpError {
    HttpError(BadRequest, "Dish with id " + IntToString(dishId) + " is not available")
  }

  /** 400 "Only {quantity} {name} available", naming the stock the check saw. */
  function OnlyAvailable(stock: int, name: string): HttpError {
    HttpError(BadRequest, "Only " + IntToString(stock) + " " + name + " available")
  }

  /**
   * `get_current_user`: the user row the `user_id` claim names. A library
   * failure, a missing claim and an unknown id are all 401.
   */
  function GetCurrentUser(token: DecodeOutcome, users: map<int, User>): (r: Result<User>)
    ensures token.Expired? ==> r == Err(TokenExpired)
    ensures token.Invalid? ==> r == Err(CouldNotValidate)
    ensures token.Claims? ==> (r.Ok? <==> token.userId.Some? && token.userId.value in users)
    ensures r.Ok? ==> token.Claims? && token.userId.Some? && r.value == users[token.userId.value]
    ensures r.Err? && token.Claims? ==> r.error == CouldNotValidate
  {
    match token
    case Expired => Err(TokenExpired)
    case Invalid => Err(CouldNotValidate)
    case Claims(userId, _) =>
      if userId.None? then Err(CouldNotValidate)
      else if userId.value !in users then Err(CouldNotValidate)
      else Ok(users[userId.value])
  }

  predicate ManagesOrders(role: string) {
    role == "manager" || role == "chef"
  }

  // ---------------------------------------------------------------------
  // The stock check of `create_order`, one item at a time

  /** One pass of the loop body: reject, or take the item's quantity from its dish. */
  function TakeItem(dishes: map<int, Dish>, item: DishItem): Result<map<int, Dish>> {
    var id := item.dishId;
    if id !in dishes || dishes[id].quantity == 0 then Err(NotAvailable(id))
    else if dishes[id].quantity < item.quantity then Err(OnlyAvailable(dishes[id].quantity, dishes[id].name))
    else Ok(dishes[id := dishes[id].(quantity := dishes[id].quantity - item.quantity)])
  }

  /** The whole loop: items in request order, each checked against the stock the earlier items left. */
  function PlaceItems(dishes: map<int, Dish>, items: seq<DishItem>): Result<map<int, Dish>>
    decreases |items|
  {
    if items == [] then Ok(dishes)
    else match TakeItem(dishes, items[0])
      case Err(e) => Err(e)
      case Ok(rest) => PlaceItems(rest, items[1..])
  }

  // A reference description of the same loop, in terms of totals.

  /** The total quantity the items ask of one dish. */
  function Requested(items: seq<DishItem>, dishId: int): int
    decreases |items|
  {
    if items == [] then 0
    else (if items[0].dishId == dishId then items[0].quantity else 0) + Requested(items[1..], dishId)
  }

  /** The stock of a dish once the first `k` items have been taken. */
  function Remaining(dishes: map<int, Dish>, items: seq<DishItem>, k: nat, dishId: int): int
    requires k <= |items| && dishId in dishes
  {
    dishes[dishId].quantity - Requested(items[..k], dishId)
  }

  /** Item `k` passes both checks against the stock the items before it left. */
  predicate Fits(dishes: map<int, Dish>, items: seq<DishItem>, k: nat)
    requires k < |items|
  {
    var id := items[k].dishId;
    id in dishes && Remaining(dishes, items, k, id) != 0 && Remaining(dishes, items, k, id) >= items[k].quantity
  }

  /** The error item `k` gets when it does not fit. */
  function Rejection(dishes: map<int, Dish>, items: seq<DishItem>, k: nat): HttpError
    requires k < |items|
  {
    var id := items[k].dishId;
    if id !in dishes || Remaining(dishes, items, k, id) == 0 then NotAvailable(id)
    else OnlyAvailable(Remaining(dishes, items, k, id), dishes[id].name)
  }

  /** Every dish with its stock lowered by the total asked of it; every other column kept. */
  function Decremented(dishes: map<int, Dish>, items: seq<DishItem>): map<int, Dish> {
    map id | id in dishes :: dishes[id].(quantity := dishes[id].quantity - Requested(items, id))
  }

  /** The index of the first item that does not fit, or |items| when every item fits. */
  function FirstMisfit(dishes: map<int, Dish>, items: seq<DishItem>, from: nat): (k: nat)
    requires from <= |items|
    ensures from <= k <= |items|
    ensures forall j :: from <= j < k ==> Fits(dishes, items, j)
    ensures k < |items| ==> !Fits(dishes, items, k)
    decreases |items| - from
  {
    if from == |items| then from
    else if !Fits(dishes, items, from) then from
    else FirstMisfit(dishes, items, from + 1)
  }

  lemma {:induction false} RequestedOfPrefix(items: seq<DishItem>, j: nat, dishId: int)
    requires j < |items|
    ensures Requested(items[..j + 1], dishId) ==
      (if items[0].dishId == dishId then items[0].quantity else 0) + Requested(items[1..][..j], dishId)
  {
    var p := items[..j + 1];
    assert p[0] == items[0];
    assert p[1..] == items[1..][..j];
  }

  /**
   * After a first item that fits, the rest of the order sees exactly the
   * stock the reference description predicts for it.
   */
  lemma {:induction false} ShiftAfterFirst(dishes: map<int, Dish>, items: seq<DishItem>)
    requires |items| >= 1 && Fits(dishes, items, 0)
    ensures TakeItem(dishes, items[0]).Ok?
    ensures var rest := TakeItem(dishes, items[0]).value;
      && rest.Keys == dishes.Keys
      && (forall id :: id in dishes ==> rest[id] == dishes[id].(quantity := rest[id].quantity))
      && (forall id :: id in dishes ==>
            rest[id].quantity == dishes[id].quantity - (if items[0].dishId == id then items[0].quantity else 0))
      && (forall j :: 0 <= j < |items| - 1 ==>
            (Fits(rest, items[1..], j) <==> Fits(dishes, items, j + 1)) &&
            Rejection(rest, items[1..], j) == Rejection(dishes, items, j + 1))
  {
    assert items[..0] == [];
    var rest := TakeItem(dishes, items[0]).value;
    forall j | 0 <= j < |items| - 1
      ensures Fits(rest, items[1..], j) <==> Fits(dishes, items, j + 1)
      ensures Rejection(rest, items[1..], j) == Rejection(dishes, items, j + 1)
    {
      var id := items[j + 1].dishId;
      assert items[1..][j] == items[j + 1];
      RequestedOfPrefix(items, j, id);
    }
  }

  /** When every item fits, the order succeeds and takes from each dish exactly the total asked of it. */
  lemma {:induction false} PlaceItemsAllFit(dishes: map<int, Dish>, items: seq<DishItem>)
    requires forall k :: 0 <= k < |items| ==> Fits(dishes, items, k)
    ensures PlaceItems(dishes, items) == Ok(Decremented(dishes, items))
    decreases |items|
  {
    if items == [] {
      assert Decremented(dishes, items) == dishes;
    } else {
      ShiftAfterFirst(dishes, items);
      var rest := TakeItem(dishes, items[0]).value;
      PlaceItemsAllFit(rest, items[1..]);
      assert Decremented(rest, items[1..]) == Decremented(dishes, items);
    }
  }

  /** When item `k` is the first that does not fit, the order fails with that item's rejection. */
  lemma {:induction false} PlaceItemsFirstMisfit(dishes: map<int, Dish>, items: seq<DishItem>, k: nat)
    requires k < |items|
    requires forall j :: 0 <= j < k ==> Fits(dishes, items, j)
    requires !Fits(dishes, items, k)
    ensures PlaceItems(dishes, items) == Err(Rejection(dishes, items, k))
    decreases k
  {
    if k == 0 {
      assert items[..0] == [];
    } else {
      ShiftAfterFirst(dishes, items);
      var rest := TakeItem(dishes, items[0]).value;
      PlaceItemsFirstMisfit(rest, items[1..], k - 1);
    }
  }

  /**
   * The loop against its reference description: an order succeeds exactly
   * when every item fits the stock left by the items before it; it then
   * lowers every dish by the total asked of it and changes nothing else;
   * otherwise it fails with the rejection of the first item that does not fit.
   */
  lemma PlaceItemsMeaning(dishes: map<int, Dish>, items: seq<DishItem>)
    ensures PlaceItems(dishes, items).Ok? <==> forall k :: 0 <= k < |items| ==> Fits(dishes, items, k)
    ensures PlaceItems(dishes, items).Ok? ==> PlaceItems(dishes, items).value == Decremented(dishes, items)
    ensures PlaceItems(dishes, items).Err? ==>
      exists k :: 0 <= k < |items| && (forall j :: 0 <= j < k ==> Fits(dishes, items, j)) &&
                  !Fits(dishes, items, k) && PlaceItems(dishes, items).error == Rejection(dishes, items, k)
  {
    var k := FirstMisfit(dishes, items, 0);
    if k == |items| {
      PlaceItemsAllFit(dishes, items);
    } else {
      PlaceItemsFirstMisfit(dishes, items, k);
    }
  }

  /** A dish no item names is asked for nothing. */
  lemma {:induction false} RequestedUnlisted(items: seq<DishItem>, dishId: int)
    requires forall k :: 0 <= k < |items| ==> items[k].dishId != dishId
    ensures Requested(items, dishId) == 0
    decreases |items|
  {
    if items != [] {
      RequestedUnlisted(items[1..], dishId);
    }
  }

  /**
   * Conservation: after a successful order every dish's stock has fallen by
   * exactly the total requested for it, no other column changed, no dish
   * appeared or vanished, and dishes the order does not name are untouched.
   */
  lemma OrderConservesStock(dishes: map<int, Dish>, items: seq<DishItem>)
    requires PlaceItems(dishes, items).Ok?
    ensures var after := PlaceItems(dishes, items).value;
      && after.Keys == dishes.Keys
      && (forall id :: id in dishes ==> after[id].quantity == dishes[id].quantity - Requested(items, id))
      && (forall id :: id in dishes ==> after[id] == dishes[id].(quantity := after[id].quantity))
      && (forall id :: id in dishes && (forall k :: 0 <= k < |items| ==> items[k].dishId != id) ==>
            after[id] == dishes[id])
  {
    PlaceItemsMeaning(dishes, items);
    forall id | id in dishes && (forall k :: 0 <= k < |items| ==> items[k].dishId != id)
      ensures PlaceItems(dishes, items).value[id] == dishes[id]
    {
      RequestedUnlisted(items, id);
    }
  }

  /**
   * A successful order never drives stock below zero, whatever the requested
   * quantities: each item is taken only when the stock covers it.
   */
  lemma {:induction false} OrderKeepsStockNonNegative(dishes: map<int, Dish>, items: seq<DishItem>)
    requires StockNonNegative(dishes)
    requires PlaceItems(dishes, items).Ok?
    ensures StockNonNegative(PlaceItems(dishes, items).value)
    decreases |items|
  {
    if items != [] {
      var rest := TakeItem(dishes, items[0]).value;
      OrderKeepsStockNonNegative(rest, items[1..]);
    }
  }

  /**
   * The loop alone lets an empty order through, taking nothing; the schema's
   * `min_items=1` is what refuses it.
   */
  lemma EmptyOrderPassesTheLoop(dishes: map<int, Dish>)
    ensures PlaceItems(dishes, []) == Ok(dishes)
    ensures !OrderCreateRequestValid(OrderCreateRequest([]))
  {
  }

  /**
   * A schema-valid order that passes the loop took from at least one dish:
   * its first item names a dish that was in stock.
   */
  lemma ValidOrderTakesFromStockedDish(dishes: map<int, Dish>, req: OrderCreateRequest)
    requires StockNonNegative(dishes)
    requires OrderCreateRequestValid(req)
    requires PlaceItems(dishes, req.dishes).Ok?
    ensures req.dishes[0].dishId in dishes && dishes[req.dishes[0].dishId].quantity > 0
  {
    assert TakeItem(dishes, req.dishes[0]).Ok?;
  }

  /**
   * Stock 2 and a request for 3: "Only 2 Soup available". That nothing is
   * then stored is the `r.Err?` clause of `CreateOrder`.
   */
  lemma ShortStockExample()
    ensures var dishes := map[7 := Dish(7, "Soup", "", 450, 2)];
      PlaceItems(dishes, [DishItem(7, 3)]) == Err(HttpError(400, "Only 2 Soup available"))
  {
  }

  /** A repeated dish is checked against the stock the earlier item already took from. */
  lemma RepeatedDishExample()
    ensures var dishes := map[7 := Dish(7, "Soup", "", 450, 3)];
      PlaceItems(dishes, [DishItem(7, 2), DishItem(7, 2)]) == Err(HttpError(400, "Only 1 Soup available"))
  {
    var dishes := map[7 := Dish(7, "Soup", "", 450, 3)];
    var after := map[7 := Dish(7, "Soup", "", 450, 1)];
    assert dishes[7 := dishes[7].(quantity := 1)] == after;
    assert TakeItem(dishes, DishItem(7, 2)) == Ok(after);
    assert TakeItem(after, DishItem(7, 2)) == Err(OnlyAvailable(1, "Soup"));
  }

  /** No lower bound is declared on a requested quantity, so a negative one raises the stock. */
  lemma NegativeQuantityRaisesStock()
    ensures var dishes := map[7 := Dish(7, "Soup", "", 450, 2)];
      PlaceItems(dishes, [DishItem(7, -5)]) == Ok(map[7 := Dish(7, "Soup", "", 450, 7)])
  {
    var dishes := map[7 := Dish(7, "Soup", "", 450, 2)];
    var after := map[7 := Dish(7, "Soup", "", 450, 7)];
    assert dishes[7 := dishes[7].(quantity := 7)] == after;
    assert TakeItem(dishes, DishItem(7, -5)) == Ok(after);
    assert [DishItem(7, -5)][1..] == [];
  }

  // ---------------------------------------------------------------------
  // The endpoints

  /**
   * `create_order`. The caller's row is looked up again (404 if absent).
   * The loop checks and decrements a working copy of the dish table: the
   * session's uncommitted changes, which later items of the same order see.
   * Only after the loop is anything committed: the dishes, and one new
   * order with a fresh id, status pending, the caller's id and the
   * submitted special requests. No `order_dish` rows are written.
   */
  method CreateOrder(db: OrderDb, caller: User, req: OrderCreateRequest) returns (r: Result<int>)
    requires db.Valid()
    modifies db
    ensures db.Valid()
    ensures db.users == old(db.users) && db.orderDishes == old(db.orderDishes) && db.nextDishId == old(db.nextDishId)
    ensures caller.id !in old(db.users) ==> r == Err(UserNotFound)
    ensures caller.id in old(db.users) && PlaceItems(old(db.dishes), req.dishes).Err? ==>
      r == Err(PlaceItems(old(db.dishes), req.dishes).error)
    ensures r.Err? ==> db.dishes == old(db.dishes) && db.orders == old(db.orders) && db.nextOrderId == old(db.nextOrderId)
    ensures r.Ok? <==> caller.id in old(db.users) && PlaceItems(old(db.dishes), req.dishes).Ok?
    ensures r.Ok? ==>
      && PlaceItems(old(db.dishes), req.dishes) == Ok(db.dishes)
      && r.value == old(db.nextOrderId) && r.value !in old(db.orders)
      && db.orders == old(db.orders)[r.value := Order(r.value, caller.id, Pending, req.specialRequests)]
      && db.nextOrderId == old(db.nextOrderId) + 1
  {
    if caller.id !in db.users {
      return Err(UserNotFound);
    }
    var items := req.dishes;
    var stock := db.dishes;
    var i := 0;
    while i < |items|
      invariant 0 <= i <= |items|
      invariant PlaceItems(db.dishes, items) == PlaceItems(stock, items[i..])
      invariant stock.Keys == db.dishes.Keys
      invariant forall id :: id in stock ==> stock[id].id == id
    {
      var item := items[i];
      assert items[i..][0] == item && items[i..][1..] == items[i + 1..];
      if item.dishId !in stock || stock[item.dishId].quantity == 0 {
        return Err(NotAvailable(item.dishId));
      }
      var dish := stock[item.dishId];
      if dish.quantity < item.quantity {
        return Err(OnlyAvailable(dish.quantity, dish.name));
      }
      stock := stock[item.dishId := dish.(quantity := dish.quantity - item.quantity)];
      i := i + 1;
    }
    assert items[i..] == [];
    var id := db.nextOrderId;
    db.dishes := stock;
    db.orders := db.orders[id := Order(id, caller.id, Pending, req.specialRequests)];
    db.nextOrderId := id + 1;
    r := Ok(id);
  }

  /**
   * `update_order_status`: managers and chefs only (403, checked before the
   * lookup), 404 for an unknown order; otherwise the order takes the
   * requested status, whatever its current one, and nothing else changes.
   */
  method UpdateOrderStatus(db: OrderDb, caller: User, orderId: int, req: OrderStatusUpdateRequest)
    returns (r: Result<string>)
    requires db.Valid()
    modifies db
    ensures db.Valid()
    ensures db.users == old(db.users) && db.dishes == old(db.dishes) && db.orderDishes == old(db.orderDishes)
    ensures db.nextDishId == old(db.nextDishId) && db.nextOrderId == old(db.nextOrderId)
    ensures !ManagesOrders(caller.role) ==> r == Err(StatusForbidden)
    ensures ManagesOrders(caller.role) && orderId !in old(db.orders) ==> r == Err(OrderNotFound)
    ensures r.Err? ==> db.orders == old(db.orders)
    ensures r.Ok? <==> ManagesOrders(caller.role) && orderId in old(db.orders)
    ensures r.Ok? ==> r.value == StatusUpdated
    ensures r.Ok? ==> db.orders == old(db.orders)[orderId := old(db.orders)[orderId].(status := req.status)]
  {
    if !ManagesOrders(caller.role) {
      return Err(StatusForbidden);
    }
    if orderId !in db.orders {
      return Err(OrderNotFound);
    }
    db.orders := db.orders[orderId := db.orders[orderId].(status := req.status)];
    r := Ok(StatusUpdated);
  }

  /** `get_order`: any authenticated caller may read any order; 404 if there is none. */
  function GetOrder(caller: User, orders: map<int, Order>, orderId: int): (r: Result<Order>)
    ensures r.Ok? <==> orderId in orders
    ensures r.Ok? ==> r.value == orders[orderId]
    ensures r.Err? ==> r.error == OrderNotFound
  {
    if orderId !in orders then Err(OrderNotFound) else Ok(orders[orderId])
  }

  /** `get_all_orders`: managers and chefs only (403); 404 when the table is empty; otherwise every order. */
  function GetAllOrders(caller: User, orders: map<int, Order>): (r: Result<map<int, Order>>)
    ensures !ManagesOrders(caller.role) ==> r == Err(ListForbidden)
    ensures ManagesOrders(caller.role) && orders == map[] ==> r == Err(NoOrders)
    ensures r.Ok? <==> ManagesOrders(caller.role) && orders != map[]
    ensures r.Ok? ==> r.value == orders
  {
    if !ManagesOrders(caller.role) then Err(ListForbidden)
    else if |orders| == 0 then Err(NoOrders)
    else Ok(orders)
  }

  /** `delete_order`: managers only (403, before the lookup); 404 if absent; otherwise exactly that order goes. */
  method DeleteOrder(db: OrderDb, caller: User, orderId: int) returns (r: Result<Order>)
    requires db.Valid()
    modifies db
    ensures db.Valid()
    ensures db.users == old(db.users) && db.dishes == old(db.dishes) && db.orderDishes == old(db.orderDishes)
    ensures db.nextDishId == old(db.nextDishId) && db.nextOrderId == old(db.nextOrderId)
    ensures caller.role != "manager" ==> r == Err(DeleteForbidden)
    ensures caller.role == "manager" && orderId !in old(db.orders) ==> r == Err(OrderNotFound)
    ensures r.Err? ==> db.orders == old(db.orders)
    ensures r.Ok? <==> caller.role == "manager" && orderId in old(db.orders)
    ensures r.Ok? ==> r.value == old(db.orders)[orderId] && db.orders == old(db.orders) - {orderId}
  {
    if caller.role != "manager" {
      return Err(DeleteForbidden);
    }
    if orderId !in db.orders {
      return Err(OrderNotFound);
    }
    var order := db.orders[orderId];
    db.orders := db.orders - {orderId};
    r := Ok(order);
  }

}
