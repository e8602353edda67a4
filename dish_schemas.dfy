/** The request bodies of the dish endpoints and their constraints. */
module DishSchemas {
  import opened Wrappers

  /** `DishCreateRequest`; `description` defaults to "". */
  datatype DishCreateRequest = DishCreateRequest(name: string, price: int, quantity: int, description: string := "")

  /** Name of at most 100 characters, description of at most 255, price and quantity at least 0. */
  predicate DishCreateRequestValid(r: DishCreateRequest) {
    |r.name| <= 100 && |r.description| <= 255 && r.price >= 0 && r.quantity >= 0
  }

  /**
   * `DishUpdateRequest` declares the same four fields. `name`, `price` and
   * `quantity` have no default, so a request always sets them; only
   * `description` may be left unset (None).
   */
  datatype DishUpdateRequest = DishUpdateRequest(name: string, price: int, quantity: int, description: Option<string> := None)

  predicate DishUpdateRequestValid(r: DishUpdateRequest) {
    |r.name| <= 100 && (r.description.Some? ==> |r.description.value| <= 255) && r.price >= 0 && r.quantity >= 0
  }

}
