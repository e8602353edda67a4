/**
 * How the two services agree on who the caller is. AuthService issues a
 * token whose `user_id` claim is the id of the row that logged in; the
 * `/users/me` endpoint and the OrderService dependencies read that claim back.
 * The OrderService `user` table is taken to hold the same rows as the
 * AuthService one (`Mirrors`); nothing in either service copies them.
 */
module Identity {
  import opened Wrappers
  import opened Http
  import opened Tokens
  import opened AuthModels
  import opened SessionSchemas
  import SessionsRouter
  import UsersRouter
  import OrdersRouter
  import DishesRouter

  /** The OrderService copy has every AuthService row under its id. */
  predicate Mirrors(users: seq<User>, shadow: map<int, User>) {
    forall i :: 0 <= i < |users| ==> users[i].id in shadow && shadow[users[i].id] == users[i]
  }

  /**
   * After a successful login, `/users/me` with the issued token returns the
   * row that logged in: the one with the submitted email, whose hash accepted
   * the password.
   */
  lemma LoginThenGetMe(users: seq<User>, nextId: int, req: SessionCreateRequest,
                       verify: (string, string) -> bool, now: int)
    requires UsersTable(users, nextId)
    requires SessionsRouter.CreateSession(users, req, verify, now).Ok?
    ensures var p := SessionsRouter.CreateSession(users, req, verify, now).value;
      && UsersRouter.GetMe(ClaimsOf(p), users).Ok?
      && UsersRouter.GetMe(ClaimsOf(p), users).value.email == req.email
      && verify(req.password, UsersRouter.GetMe(ClaimsOf(p), users).value.passwordHash)
  {
    var k := FindByEmail(users, req.email).value;
    IdLookupIsUnique(users, nextId, users[k].id, k);
  }

  /**
   * The same token, presented to OrderService, resolves in both of its
   * routers to the very row that logged in, provided the OrderService
   * `user` table mirrors the AuthService one.
   */
  lemma LoginThenOrderServiceUser(users: seq<User>, nextId: int, shadow: map<int, User>,
                                  req: SessionCreateRequest, verify: (string, string) -> bool, now: int)
    requires UsersTable(users, nextId)
    requires Mirrors(users, shadow)
    requires SessionsRouter.CreateSession(users, req, verify, now).Ok?
    ensures var p := SessionsRouter.CreateSession(users, req, verify, now).value;
      && OrdersRouter.GetCurrentUser(ClaimsOf(p), shadow) == UsersRouter.GetMe(ClaimsOf(p), users)
      && DishesRouter.GetCurrentUser(ClaimsOf(p), shadow) == UsersRouter.GetMe(ClaimsOf(p), users)
  {
    var k := FindByEmail(users, req.email).value;
    IdLookupIsUnique(users, nextId, users[k].id, k);
  }

  /**
   * Registering and then logging in with the same email and password works,
   * provided bcrypt accepts a password against its own hash: the token names
   * the new row's id.
   */
  lemma SignUpThenLogIn(users: seq<User>, nextId: int, username: string, email: string, password: string,
                        role: string, hash: string -> string, verify: (string, string) -> bool, now: int)
    requires !EmailInUse(users, email)
    requires verify(password, hash(password))
    ensures var after := users + [User(nextId, username, email, hash(password), role)];
      SessionsRouter.CreateSession(after, SessionCreateRequest(email, password), verify, now) ==
        Ok(SessionPayload(nextId, now + SessionsRouter.SessionLifetime))
  {
    var after := users + [User(nextId, username, email, hash(password), role)];
    assert after[|users|].email == email;
    assert forall j :: 0 <= j < |users| ==> after[j] == users[j];
    var found := FindByEmail(after, email);
    assert found.Some?;
    assert found.value == |users|;
  }

}
