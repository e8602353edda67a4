/** The request bodies of the order endpoints and their constraints. */
module OrderSchemas {
  import opened OrderModels

  /** One requested dish. `quantity` is a plain int: no lower bound is declared. */
  datatype DishItem = DishItem(dishId: int, quantity: int)

  /** `OrderCreateRequest`; `special_requests` defaults to "". */
  datatype OrderCreateRequest = OrderCreateRequest(dishes: seq<DishItem>, specialRequests: string := "")

  /** At least one dish item; special requests of at most 255 characters. */
  predicate OrderCreateRequestValid(r: OrderCreateRequest) {
    |r.dishes| >= 1 && |r.specialRequests| <= 255
  }

  /** `OrderStatusUpdateRequest`: the status must name an `OrderStatus` value, so it is one by type. */
  datatype OrderStatusUpdateRequest = OrderStatusUpdateRequest(status: Status)

  /** Reading a status update body: exactly the four enum strings are accepted. */
  function ParseStatusUpdate(body: string): (r: Wrappers.Option<OrderStatusUpdateRequest>)
    ensures r.Some? <==> StatusConstraint(body)
    ensures r.Some? ==> StatusName(r.value.status) == body
  {
    StatusNamesRoundTrip(Pending, body);
    match ParseStatus(body)
    case None => Wrappers.None
    case Some(s) => Wrappers.Some(OrderStatusUpdateRequest(s))
  }

}
