/**
 * The AuthService `/users` endpoints. Reads are functions of the `user`
 * table; `create_user` and `update_user` change the table in place.
 * bcrypt is the `hash` parameter, a function the model does not look into.
 */
module UsersRouter {
  import opened Wrappers
  import opened Http
  import opened Tokens
  import opened AuthModels
  import opened UserSchemas

  const TokenExpired: HttpError := HttpError(Unauthorized, "Token has expired")
  const CouldNotValidate: HttpError := HttpError(Unauthorized, "Could not validate credentials")
  const EmailTaken: HttpError := HttpError(Conflict, "User with the provided email already exists")
  const UsernameTaken: HttpError := HttpError(Conflict, "User with the provided username already exists")
  const UserNotFound: HttpError := HttpError(NotFound, "User not found")
  const UserCreated: string := "User created successfully"
  const UserUpdated: string := "User updated successfully"

  /** The `try: jwt.decode(...) except ...` block these endpoints share: the `user_id` claim, or the 401 it raises. */
  function DecodeUserId(token: DecodeOutcome): Result<Option<int>> {
    match token
    case Expired => Err(TokenExpired)
    case Invalid => Err(CouldNotValidate)
    case Claims(userId, _) => Ok(userId)
  }

  /** `filter(User.id == payload.get("user_id")).first()`: a missing claim compares with NULL and matches no row. */
  function FindByClaim(users: seq<User>, userId: Option<int>): Option<nat> {
    match userId
    case None => None
    case Some(id) => FindById(users, id)
  }

  function Min(a: int, b: int): int {
    if a <= b then a else b
  }

  /** `query.offset(skip).limit(limit).all()`. */
  function Page(users: seq<User>, skip: nat, limit: nat): (r: seq<User>)
    ensures |r| == if skip >= |users| then 0 else Min(limit, |users| - skip)
    ensures forall i :: 0 <= i < |r| ==> r[i] == users[skip + i]
  {
    if skip >= |users| then [] else users[skip..][..Min(limit, |users| - skip)]
  }

  /** Consecutive pages put together give the larger page: paging neither skips nor repeats a row. */
  lemma PagesTile(users: seq<User>, skip: nat, a: nat, b: nat)
    ensures Page(users, skip, a) + Page(users, skip + a, b) == Page(users, skip, a + b)
  {
    var left, right, whole := Page(users, skip, a), Page(users, skip + a, b), Page(users, skip, a + b);
    assert |left + right| == |whole|;
    forall i | 0 <= i < |whole| ensures (left + right)[i] == whole[i] {
      if i >= |left| {
        assert right[i - |left|] == users[skip + a + (i - |left|)];
      }
    }
  }

  /** `get_users`: any decodable token suffices (no user check); then at most `limit` rows from offset `skip`. */
  function GetUsers(token: DecodeOutcome, users: seq<User>, skip: nat := 0, limit: nat := 100): (r: Result<seq<User>>)
    ensures token.Expired? ==> r == Err(TokenExpired)
    ensures token.Invalid? ==> r == Err(CouldNotValidate)
    ensures token.Claims? ==> r.Ok? && |r.value| <= limit
    ensures token.Claims? ==> |r.value| == if skip >= |users| then 0 else Min(limit, |users| - skip)
    ensures token.Claims? ==> forall i :: 0 <= i < |r.value| ==> r.value[i] == users[skip + i]
  {
    match DecodeUserId(token)
    case Err(e) => Err(e)
    case Ok(_) => Ok(Page(users, skip, limit))
  }

  /** `get_me`: the row whose id is the token's `user_id`, or 401. */
  function GetMe(token: DecodeOutcome, users: seq<User>): (r: Result<User>)
    ensures token.Expired? ==> r == Err(TokenExpired)
    ensures token.Invalid? ==> r == Err(CouldNotValidate)
    ensures token.Claims? && token.userId.None? ==> r == Err(CouldNotValidate)
    ensures token.Claims? && token.userId.Some? ==>
      (r.Ok? <==> exists i :: 0 <= i < |users| && users[i].id == token.userId.value)
    ensures r.Ok? ==> r.value in users && token.Claims? && token.userId == Some(r.value.id)
    ensures r.Err? && token.Claims? ==> r.error == CouldNotValidate
  {
    match DecodeUserId(token)
    case Err(e) => Err(e)
    case Ok(userId) =>
      match FindByClaim(users, userId)
      case None => Err(CouldNotValidate)
      case Some(k) => Ok(users[k])
  }

  /** `get_user`: takes no token; the row with that id, or 404. */
  function GetUser(users: seq<User>, userId: int): (r: Result<User>)
    ensures r.Ok? <==> exists i :: 0 <= i < |users| && users[i].id == userId
    ensures r.Ok? ==> r.value in users && r.value.id == userId
    ensures r.Err? ==> r.error == UserNotFound
  {
    match FindById(users, userId)
    case None => Err(UserNotFound)
    case Some(k) => Ok(users[k])
  }

  /**
   * `create_user`: a taken email is reported before a taken username, both
   * as 409 with the store unchanged. A role outside the CHECK constraint
   * makes the commit fail, which the framework answers with 500. Otherwise
   * one row is appended with the next id and the bcrypt hash of the password,
   * and returned with the message "User created successfully".
   */
  method CreateUser(db: AuthDb, req: UserCreateRequest, hash: string -> string) returns (r: Result<UserMessage>)
    requires db.Valid()
    modifies db
    ensures db.Valid()
    ensures db.sessions == old(db.sessions)
    ensures EmailInUse(old(db.users), req.email) ==> r == Err(EmailTaken)
    ensures !EmailInUse(old(db.users), req.email) && UsernameInUse(old(db.users), req.username) ==>
      r == Err(UsernameTaken)
    ensures (!EmailInUse(old(db.users), req.email) && !UsernameInUse(old(db.users), req.username) &&
             !RoleConstraint(req.role)) ==> r == Err(Unhandled)
    ensures r.Err? ==> db.users == old(db.users) && db.nextUserId == old(db.nextUserId)
    ensures r.Ok? ==>
      && r.value == UserMessage(UserCreated, User(old(db.nextUserId), req.username, req.email, hash(req.password), req.role))
      && db.users == old(db.users) + [r.value.user]
      && db.nextUserId == old(db.nextUserId) + 1
    ensures UserCreateRequestValid(req) && r.Ok? ==> |r.value.user.username| <= UsernameWidth
    ensures r.Ok? <==>
      !EmailInUse(old(db.users), req.email) && !UsernameInUse(old(db.users), req.username) && RoleConstraint(req.role)
  {
    if FindByEmail(db.users, req.email).Some? {
      return Err(EmailTaken);
    }
    if FindByUsername(db.users, req.username).Some? {
      return Err(UsernameTaken);
    }
    var user := User(db.nextUserId, req.username, req.email, hash(req.password), req.role);
    if !RoleConstraint(user.role) {
      return Err(Unhandled);
    }
    db.users := db.users + [user];
    db.nextUserId := db.nextUserId + 1;
    r := Ok(UserMessage(UserCreated, user));
  }

  /**
   * `update_user`: the caller is the row the token's `user_id` names (401
   * when there is none). Only that row changes: its password hash when a
   * non-empty password is supplied, its role when a non-empty role is
   * supplied; the request's username and email are ignored. A role outside
   * the CHECK constraint makes the commit fail (500) and nothing changes.
   * The row is returned with the message "User updated successfully".
   */
  method UpdateUser(db: AuthDb, token: DecodeOutcome, req: UserUpdateRequest, hash: string -> string)
    returns (r: Result<UserMessage>)
    requires db.Valid()
    modifies db
    ensures db.Valid()
    ensures db.sessions == old(db.sessions) && db.nextUserId == old(db.nextUserId)
    ensures token.Expired? ==> r == Err(TokenExpired)
    ensures token.Invalid? ==> r == Err(CouldNotValidate)
    ensures token.Claims? && FindByClaim(old(db.users), token.userId).None? ==> r == Err(CouldNotValidate)
    ensures r.Err? ==> db.users == old(db.users)
    ensures token.Claims? && FindByClaim(old(db.users), token.userId).Some? ==>
      var k := FindByClaim(old(db.users), token.userId).value;
      var u := old(db.users)[k];
      var v := u.(passwordHash := if req.password.Some? && req.password.value != "" then hash(req.password.value) else u.passwordHash,
                  role := if req.role.Some? && req.role.value != "" then req.role.value else u.role);
      && u.id == token.userId.value
      && (RoleConstraint(v.role) ==> r == Ok(UserMessage(UserUpdated, v)) && db.users == old(db.users)[k := v])
      && (!RoleConstraint(v.role) ==> r == Err(Unhandled))
    ensures UserUpdateRequestValid(req) && req.password.Some? && r.Ok? ==> r.value.user.passwordHash == hash(req.password.value)
  {
    var claim := DecodeUserId(token);
    if claim.Err? {
      return Err(claim.error);
    }
    var found := FindByClaim(db.users, claim.value);
    if found.None? {
      return Err(CouldNotValidate);
    }
    var k := found.value;
    var user := db.users[k];
    if req.password.Some? && req.password.value != "" {
      user := user.(passwordHash := hash(req.password.value));
    }
    if req.role.Some? && req.role.value != "" {
      user := user.(role := req.role.value);
    }
    if !RoleConstraint(user.role) {
      return Err(Unhandled);
    }
    db.users := db.users[k := user];
    r := Ok(UserMessage(UserUpdated, user));
  }

}
