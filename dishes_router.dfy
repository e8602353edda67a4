/**
 * The OrderService `/dishes` endpoints. Every endpoint but `/menu` is for
 * managers only and checks the role before it looks anything up;
 * `create_dish`, `update_dish` and `delete_dish` change the dish table in
 * place.
 */
module DishesRouter {
  import opened Wrappers
  import opened Http
  import opened Tokens
  import opened OrderModels
  import opened OrderSchemas
  import opened DishSchemas
  import OrdersRouter

  const CreateForbidden: HttpError := HttpError(Forbidden, "Only managers can create dishes")
  const UpdateForbidden: HttpError := HttpError(Forbidden, "Only managers can update dishes")
  const ListForbidden: HttpError := HttpError(Forbidden, "Only managers can get all dishes")
  const GetForbidden: HttpError := HttpError(Forbidden, "Only managers can get a dish")
  const DeleteForbidden: HttpError := HttpError(Forbidden, "Only managers can delete dishes")
  const NameTakenError: HttpError := HttpError(Conflict, "Dish with this name already exists")
  const DishNotFound: HttpError := HttpError(NotFound, "Dish not found")
  const DishDeleted: string := "Dish deleted"

  // ---------------------------------------------------------------------
  // Authentication

  /**
   * `get_current_user` of this router, as written: its `except` clauses name
   * `ExpiredSignatureError` and `PyJWTError`, which this module never
   * imports, so when the decoder raises, evaluating the first clause raises
   * `NameError` and the request ends in 500. A token that decodes is handled
   * as in the orders router.
   */
  function GetCurrentUser(token: DecodeOutcome, users: map<int, User>): (r: Result<User>)
    ensures !token.Claims? ==> r == Err(Unhandled)
    ensures token.Claims? ==> (r.Ok? <==> token.userId.Some? && token.userId.value in users)
    ensures r.Ok? ==> token.Claims? && token.userId.Some? && r.value == users[token.userId.value]
    ensures r.Err? && token.Claims? ==> r.error == OrdersRouter.CouldNotValidate
  {
    match token
    case Expired => Err(Unhandled)
    case Invalid => Err(Unhandled)
    case Claims(userId, _) =>
      if userId.None? then Err(OrdersRouter.CouldNotValidate)
      else if userId.value !in users then Err(OrdersRouter.CouldNotValidate)
      else Ok(users[userId.value])
  }

  /**
   * The two routers resolve a decodable token to the same user or the same
   * 401; they part only on a token the decoder rejects, where the orders
   * router answers 401 and this one 500.
   */
  lemma DishAuthAgreesOnDecodedTokens(token: DecodeOutcome, users: map<int, User>)
    ensures token.Claims? ==> GetCurrentUser(token, users) == OrdersRouter.GetCurrentUser(token, users)
    ensures token.Expired? ==>
      GetCurrentUser(token, users) == Err(Unhandled) &&
      OrdersRouter.GetCurrentUser(token, users) == Err(OrdersRouter.TokenExpired)
    ensures token.Invalid? ==>
      GetCurrentUser(token, users) == Err(Unhandled) &&
      OrdersRouter.GetCurrentUser(token, users) == Err(OrdersRouter.CouldNotValidate)
  {
  }

  /** An expired token: the orders router says 401 "Token has expired", this router 500. */
  lemma ExpiredTokenIsServerError(users: map<int, User>)
    ensures GetCurrentUser(Expired, users).Err? && GetCurrentUser(Expired, users).error.status == 500
    ensures OrdersRouter.GetCurrentUser(Expired, users).Err? &&
      OrdersRouter.GetCurrentUser(Expired, users).error == HttpError(401, "Token has expired")
  {
  }

  // ---------------------------------------------------------------------
  // Reading

  /** `get_menu`, open to everyone: the dishes with stock above zero, unchanged. */
  function GetMenu(dishes: map<int, Dish>): (r: map<int, Dish>)
    ensures forall id :: id in r <==> id in dishes && dishes[id].quantity > 0
    ensures forall id :: id in r ==> r[id] == dishes[id]
  {
    map id | id in dishes && dishes[id].quantity > 0 :: dishes[id]
  }

  /**
   * The menu lists exactly the dishes an order of one portion would get past
   * the stock check of `create_order`.
   */
  lemma MenuListsOrderableDishes(dishes: map<int, Dish>, dishId: int)
    ensures dishId in GetMenu(dishes) <==> OrdersRouter.PlaceItems(dishes, [DishItem(dishId, 1)]).Ok?
  {
    var items := [DishItem(dishId, 1)];
    assert items[0] == DishItem(dishId, 1) && items[1..] == [];
  }

  /** `get_all_dishes`: managers only (403); every dish, the empty table included. */
  function GetAllDishes(caller: User, dishes: map<int, Dish>): (r: Result<map<int, Dish>>)
    ensures caller.role != "manager" ==> r == Err(ListForbidden)
    ensures r.Ok? <==> caller.role == "manager"
    ensures r.Ok? ==> r.value == dishes
  {
    if caller.role != "manager" then Err(ListForbidden) else Ok(dishes)
  }

  /** `get_dish`: managers only (403, before the lookup); 404 for an unknown id. */
  function GetDish(caller: User, dishes: map<int, Dish>, dishId: int): (r: Result<Dish>)
    ensures caller.role != "manager" ==> r == Err(GetForbidden)
    ensures caller.role == "manager" && dishId !in dishes ==> r == Err(DishNotFound)
    ensures r.Ok? <==> caller.role == "manager" && dishId in dishes
    ensures r.Ok? ==> r.value == dishes[dishId]
  {
    if caller.role != "manager" then Err(GetForbidden)
    else if dishId !in dishes then Err(DishNotFound)
    else Ok(dishes[dishId])
  }

  // ---------------------------------------------------------------------
  // Creating

  /** Some dish already carries this name (the query `name == ...`.first() finds a row). */
  predicate NameTaken(dishes: map<int, Dish>, name: string) {
    exists id :: id in dishes && dishes[id].name == name
  }

  /** No two dishes share a name. `create_dish` keeps this; the table itself does not demand it. */
  predicate NamesUnique(dishes: map<int, Dish>) {
    forall a, b :: a in dishes && b in dishes && dishes[a].name == dishes[b].name ==> a == b
  }

  /** Adding a dish under a name no dish has keeps names unique. */
  lemma AddingFreshNameKeepsNamesUnique(dishes: map<int, Dish>, dish: Dish)
    requires NamesUnique(dishes)
    requires !NameTaken(dishes, dish.name)
    ensures NamesUnique(dishes[dish.id := dish])
  {
    var after := dishes[dish.id := dish];
    forall a, b | a in after && b in after && after[a].name == after[b].name
      ensures a == b
    {
      if a != dish.id && b != dish.id {
        assert after[a] == dishes[a] && after[b] == dishes[b];
      }
    }
  }

  /**
   * `create_dish`: managers only (403), 409 when the name is taken;
   * otherwise one new dish with a fresh id and the request's four fields.
   */
  method CreateDish(db: OrderDb, caller: User, req: DishCreateRequest) returns (r: Result<Dish>)
    requires db.Valid()
    modifies db
    ensures db.Valid()
    ensures db.users == old(db.users) && db.orders == old(db.orders) && db.orderDishes == old(db.orderDishes)
    ensures db.nextOrderId == old(db.nextOrderId)
    ensures caller.role != "manager" ==> r == Err(CreateForbidden)
    ensures caller.role == "manager" && NameTaken(old(db.dishes), req.name) ==> r == Err(NameTakenError)
    ensures r.Err? ==> db.dishes == old(db.dishes) && db.nextDishId == old(db.nextDishId)
    ensures r.Ok? <==> caller.role == "manager" && !NameTaken(old(db.dishes), req.name)
    ensures r.Ok? ==>
      && r.value == Dish(old(db.nextDishId), req.name, req.description, req.price, req.quantity)
      && r.value.id !in old(db.dishes)
      && db.dishes == old(db.dishes)[r.value.id := r.value]
      && db.nextDishId == old(db.nextDishId) + 1
    ensures NamesUnique(old(db.dishes)) ==> NamesUnique(db.dishes)
    ensures DishCreateRequestValid(req) && StockNonNegative(old(db.dishes)) ==> StockNonNegative(db.dishes)
  {
    if caller.role != "manager" {
      return Err(CreateForbidden);
    }
    if NameTaken(db.dishes, req.name) {
      return Err(NameTakenError);
    }
    var dish := Dish(db.nextDishId, req.name, req.description, req.price, req.quantity);
    if NamesUnique(db.dishes) {
      AddingFreshNameKeepsNamesUnique(db.dishes, dish);
    }
    db.dishes := db.dishes[dish.id := dish];
    db.nextDishId := db.nextDishId + 1;
    r := Ok(dish);
  }

  // ---------------------------------------------------------------------
  // Updating: `for field, value in dish_data.dict(exclude_unset=True).items(): setattr(dish, field, value)`

  /** One entry of the request's `dict(exclude_unset=True)`: a column and its new value. */
  datatype Field =
    | NameField(name: string)
    | DescriptionField(description: string)
    | PriceField(price: int)
    | QuantityField(quantity: int)

  /**
   * The fields a request set, in declaration order. `name`, `price` and
   * `quantity` are required and so always set; `description` only when the
   * request carried it.
   */
  function SetFields(req: DishUpdateRequest): (r: seq<Field>)
    ensures |r| == if req.description.Some? then 4 else 3
  {
    [NameField(req.name)]
      + (if req.description.Some? then [DescriptionField(req.description.value)] else [])
      + [PriceField(req.price), QuantityField(req.quantity)]
  }

  /** `setattr(dish, field, value)`. */
  function SetAttr(dish: Dish, f: Field): Dish {
    match f
    case NameField(v) => dish.(name := v)
    case DescriptionField(v) => dish.(description := v)
    case PriceField(v) => dish.(price := v)
    case QuantityField(v) => dish.(quantity := v)
  }

  /** The `setattr` calls of the loop, in order. */
  function SetAttrs(dish: Dish, fields: seq<Field>): Dish
    decreases |fields|
  {
    if fields == [] then dish else SetAttrs(SetAttr(dish, fields[0]), fields[1..])
  }

  /** The dish `update_dish` writes back, described column by column. */
  function Updated(dish: Dish, req: DishUpdateRequest): Dish {
    Dish(dish.id, req.name, if req.description.Some? then req.description.value else dish.description,
         req.price, req.quantity)
  }

  /**
   * The loop replaces name, price and quantity, replaces the description only
   * when the request set it, and keeps the id.
   */
  lemma {:induction false} SetAttrsMeaning(dish: Dish, req: DishUpdateRequest)
    ensures SetAttrs(dish, SetFields(req)) == Updated(dish, req)
  {
    var tail := [PriceField(req.price), QuantityField(req.quantity)];
    var d1 := dish.(name := req.name);
    var d2 := if req.description.Some? then d1.(description := req.description.value) else d1;
    var d3 := d2.(price := req.price);
    assert tail[1..] == [QuantityField(req.quantity)] && tail[1..][1..] == [];
    assert SetAttrs(d3, tail[1..]) == d3.(quantity := req.quantity);
    assert SetAttrs(d2, tail) == Updated(dish, req);
    if req.description.Some? {
      var fields := [NameField(req.name), DescriptionField(req.description.value)] + tail;
      assert SetFields(req) == fields;
      assert fields[1..] == [DescriptionField(req.description.value)] + tail;
      assert fields[1..][1..] == tail;
    } else {
      var fields := [NameField(req.name)] + tail;
      assert SetFields(req) == fields;
      assert fields[1..] == tail;
    }
  }

  /**
   * Updating the same dish twice with one request is the same as updating it
   * once, and a second request overrides whatever columns the first set.
   */
  lemma UpdateIdempotent(dish: Dish, req: DishUpdateRequest, req2: DishUpdateRequest)
    ensures Updated(Updated(dish, req), req) == Updated(dish, req)
    ensures req2.description.Some? ==> Updated(Updated(dish, req), req2) == Updated(dish, req2)
  {
  }

  /**
   * `update_dish` does not check the new name against the other dishes, so a
   * rename can give two dishes the same name, which `create_dish` refuses.
   */
  lemma RenameCanDuplicateName()
    ensures var dishes := map[1 := Dish(1, "Soup", "", 450, 2), 2 := Dish(2, "Tea", "", 150, 5)];
      && NamesUnique(dishes)
      && NameTaken(dishes, "Soup")
      && !NamesUnique(dishes[2 := Updated(dishes[2], DishUpdateRequest("Soup", 150, 5))])
  {
    var dishes := map[1 := Dish(1, "Soup", "", 450, 2), 2 := Dish(2, "Tea", "", 150, 5)];
    var after := dishes[2 := Updated(dishes[2], DishUpdateRequest("Soup", 150, 5))];
    assert dishes[1].name == "Soup";
    assert after[1].name == after[2].name;
  }

  /**
   * `update_dish`: managers only (403, before the lookup), 404 for an unknown
   * id; otherwise the dish's columns are set one `setattr` at a time and it
   * is written back under the same id.
   */
  method UpdateDish(db: OrderDb, caller: User, dishId: int, req: DishUpdateRequest) returns (r: Result<Dish>)
    requires db.Valid()
    modifies db
    ensures db.Valid()
    ensures db.users == old(db.users) && db.orders == old(db.orders) && db.orderDishes == old(db.orderDishes)
    ensures db.nextDishId == old(db.nextDishId) && db.nextOrderId == old(db.nextOrderId)
    ensures caller.role != "manager" ==> r == Err(UpdateForbidden)
    ensures caller.role == "manager" && dishId !in old(db.dishes) ==> r == Err(DishNotFound)
    ensures r.Err? ==> db.dishes == old(db.dishes)
    ensures r.Ok? <==> caller.role == "manager" && dishId in old(db.dishes)
    ensures r.Ok? ==>
      && r.value == Updated(old(db.dishes)[dishId], req)
      && db.dishes == old(db.dishes)[dishId := r.value]
    ensures DishUpdateRequestValid(req) && StockNonNegative(old(db.dishes)) ==> StockNonNegative(db.dishes)
  {
    if caller.role != "manager" {
      return Err(UpdateForbidden);
    }
    if dishId !in db.dishes {
      return Err(DishNotFound);
    }
    var dish := db.dishes[dishId];
    var fields := SetFields(req);
    var i := 0;
    while i < |fields|
      invariant 0 <= i <= |fields|
      invariant SetAttrs(dish, fields[i..]) == SetAttrs(db.dishes[dishId], fields)
    {
      assert fields[i..][0] == fields[i] && fields[i..][1..] == fields[i + 1..];
      dish := SetAttr(dish, fields[i]);
      i := i + 1;
    }
    assert fields[i..] == [];
    SetAttrsMeaning(db.dishes[dishId], req);
    db.dishes := db.dishes[dishId := dish];
    r := Ok(dish);
  }

  // ---------------------------------------------------------------------
  // Deleting

  /** `delete_dish`: managers only (403, before the lookup), 404 if absent; otherwise exactly that dish goes. */
  method DeleteDish(db: OrderDb, caller: User, dishId: int) returns (r: Result<string>)
    requires db.Valid()
    modifies db
    ensures db.Valid()
    ensures db.users == old(db.users) && db.orders == old(db.orders) && db.orderDishes == old(db.orderDishes)
    ensures db.nextDishId == old(db.nextDishId) && db.nextOrderId == old(db.nextOrderId)
    ensures caller.role != "manager" ==> r == Err(DeleteForbidden)
    ensures caller.role == "manager" && dishId !in old(db.dishes) ==> r == Err(DishNotFound)
    ensures r.Err? ==> db.dishes == old(db.dishes)
    ensures r.Ok? <==> caller.role == "manager" && dishId in old(db.dishes)
    ensures r.Ok? ==> r.value == DishDeleted && db.dishes == old(db.dishes) - {dishId}
  {
    if caller.role != "manager" {
      return Err(DeleteForbidden);
    }
    if dishId !in db.dishes {
      return Err(DishNotFound);
    }
    db.dishes := db.dishes - {dishId};
    r := Ok(DishDeleted);
  }

}
