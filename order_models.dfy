/**
 * The OrderService tables. `user` and `session` repeat the AuthService
 * schema column for column; here `user` is a read-only copy that no
 * endpoint of this service writes. Prices are integers in minor units
 * (cents) standing for DECIMAL(10, 2).
 */
module OrderModels {
  import opened Wrappers
  import AuthModels

  type User = AuthModels.User
  type Session = AuthModels.Session

  /** The four values of `OrderStatus`, and of the CHECK on `order.status`. */
  datatype Status = Pending | InProgress | Completed | Cancelled

  /** The string stored in the `status` column. */
  function StatusName(s: Status): string {
    match s
    case Pending => "pending"
    case InProgress => "in_progress"
    case Completed => "completed"
    case Cancelled => "cancelled"
  }

  /** Reading a `status` string: the enum value it names, if any. */
  function ParseStatus(s: string): Option<Status> {
    if s == "pending" then Some(Pending)
    else if s == "in_progress" then Some(InProgress)
    else if s == "completed" then Some(Completed)
    else if s == "cancelled" then Some(Cancelled)
    else None
  }

  /** CHECK (status IN ('pending', 'in_progress', 'completed', 'cancelled')). */
  predicate StatusConstraint(s: string) {
    s == "pending" || s == "in_progress" || s == "completed" || s == "cancelled"
  }

  /** Parsing undoes printing, and the strings that parse are exactly those the CHECK constraint admits. */
  lemma StatusNamesRoundTrip(s: Status, t: string)
    ensures ParseStatus(StatusName(s)) == Some(s)
    ensures StatusConstraint(StatusName(s))
    ensures ParseStatus(t).Some? <==> StatusConstraint(t)
    ensures ParseStatus(t).Some? ==> StatusName(ParseStatus(t).value) == t
  {
  }

  datatype Dish = Dish(id: int, name: string, description: string, price: int, quantity: int)

  datatype Order = Order(id: int, userId: int, status: Status, specialRequests: string)

  /** A line of an order: one dish, in a quantity, at a price. No endpoint writes these rows. */
  datatype OrderDish = OrderDish(id: int, orderId: int, dishId: int, quantity: int, price: int)

  /** Every dish has stock of at least zero (the requests ensure it; the table does not). */
  predicate StockNonNegative(dishes: map<int, Dish>) {
    forall id :: id in dishes ==> dishes[id].quantity >= 0
  }

  /**
   * The constraints of the `user` table: each row under its own id, the CHECK
   * on role, and UNIQUE username and email.
   */
  predicate UserRows(users: map<int, User>) {
    && (forall id :: id in users ==> users[id].id == id && AuthModels.RoleConstraint(users[id].role))
    && (forall a, b :: a in users && b in users && users[a].username == users[b].username ==> a == b)
    && (forall a, b :: a in users && b in users && users[a].email == users[b].email ==> a == b)
  }

  /**
   * The OrderService database: the tables its endpoints and the sweep read or
   * write, keyed by primary key, and the autoincrement counters. The
   * `session` table, which no OrderService code touches, is not held here.
   */
  class OrderDb {
    var users: map<int, User>
    var dishes: map<int, Dish>
    var orders: map<int, Order>
    var orderDishes: map<int, OrderDish>
    var nextDishId: int
    var nextOrderId: int

    ghost predicate Valid()
      reads this
    {
      && UserRows(users)
      && (forall id :: id in dishes ==> dishes[id].id == id && id < nextDishId)
      && (forall id :: id in orders ==> orders[id].id == id && id < nextOrderId && orders[id].userId in users)
    }

    constructor (users: map<int, User>)
      requires UserRows(users)
      ensures Valid() && this.users == users && dishes == map[] && orders == map[] && orderDishes == map[]
    {
      this.users := users;
      dishes, orders, orderDishes := map[], map[], map[];
      nextDishId, nextOrderId := 1, 1;
    }
  }

}
