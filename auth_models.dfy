/**
 * The AuthService tables: `user` and `session`, with the table-level
 * constraints (primary key, UNIQUE username and email, the CHECK on role).
 * The `user` rows are a sequence. The queries here have no ORDER BY, so SQL
 * leaves their row order to the backend; the model fixes one order, that of
 * the sequence, for `first()`, `offset` and `limit` to see. New rows are
 * appended and updated rows keep their place.
 */
module AuthModels {
  import opened Wrappers

  datatype User = User(id: int, username: string, email: string, passwordHash: string, role: string)

  /** A `session` row; every column is NOT NULL. No endpoint writes this table. */
  datatype Session = Session(id: int, userId: int, sessionToken: string, expiresAt: int)

  /** Declared widths of the String(n) columns. */
  const UsernameWidth: nat := 50
  const EmailWidth: nat := 100
  const RoleWidth: nat := 10

  /** CHECK (role IN ('customer', 'chef', 'manager')). */
  predicate RoleConstraint(role: string) {
    role == "customer" || role == "chef" || role == "manager"
  }

  /** `query.filter(p).first()`: the index of the first row satisfying `p`. */
  function First(users: seq<User>, p: User -> bool): (r: Option<nat>)
    ensures r.Some? ==> r.value < |users| && p(users[r.value])
    ensures r.Some? ==> forall j :: 0 <= j < r.value ==> !p(users[j])
    ensures r.None? ==> forall j :: 0 <= j < |users| ==> !p(users[j])
    decreases |users|
  {
    if users == [] then None
    else if p(users[0]) then Some(0)
    else match First(users[1..], p)
      case None => None
      case Some(k) => Some(k + 1)
  }

  /** `filter(User.id == id).first()` */
  function FindById(users: seq<User>, id: int): Option<nat> {
    First(users, (u: User) => u.id == id)
  }

  /** `filter(User.email == email).first()` */
  function FindByEmail(users: seq<User>, email: string): Option<nat> {
    First(users, (u: User) => u.email == email)
  }

  /** `filter(User.username == username).first()` */
  function FindByUsername(users: seq<User>, username: string): Option<nat> {
    First(users, (u: User) => u.username == username)
  }

  predicate EmailInUse(users: seq<User>, email: string) {
    exists i :: 0 <= i < |users| && users[i].email == email
  }

  predicate UsernameInUse(users: seq<User>, username: string) {
    exists i :: 0 <= i < |users| && users[i].username == username
  }

  /** Autoincrement primary key: ids grow with the rows and stay below the next id to hand out. */
  predicate IdsIncreasing(users: seq<User>, nextId: int) {
    && (forall i, j :: 0 <= i < j < |users| ==> users[i].id < users[j].id)
    && (forall i :: 0 <= i < |users| ==> users[i].id < nextId)
  }

  predicate EmailsUnique(users: seq<User>) {
    forall i, j :: 0 <= i < j < |users| ==> users[i].email != users[j].email
  }

  predicate UsernamesUnique(users: seq<User>) {
    forall i, j :: 0 <= i < j < |users| ==> users[i].username != users[j].username
  }

  predicate RolesValid(users: seq<User>) {
    forall i :: 0 <= i < |users| ==> RoleConstraint(users[i].role)
  }

  /** Every constraint the `user` table declares. */
  predicate UsersTable(users: seq<User>, nextId: int) {
    IdsIncreasing(users, nextId) && EmailsUnique(users) && UsernamesUnique(users) && RolesValid(users)
  }

  /** In a table with distinct ids, the row `first()` finds by id is the only row with that id. */
  lemma IdLookupIsUnique(users: seq<User>, nextId: int, id: int, k: nat)
    requires IdsIncreasing(users, nextId)
    requires k < |users| && users[k].id == id
    ensures FindById(users, id) == Some(k)
  {
  }

  /** Likewise for the UNIQUE email column. */
  lemma EmailLookupIsUnique(users: seq<User>, email: string, k: nat)
    requires EmailsUnique(users)
    requires k < |users| && users[k].email == email
    ensures FindByEmail(users, email) == Some(k)
  {
  }

  /** The AuthService database: the two tables and the autoincrement counter of `user.id`. */
  class AuthDb {
    var users: seq<User>
    var sessions: seq<Session>
    var nextUserId: int

    ghost predicate Valid()
      reads this
    {
      UsersTable(users, nextUserId)
    }

    constructor ()
      ensures Valid() && users == [] && sessions == []
    {
      users, sessions, nextUserId := [], [], 1;
    }
  }

}
