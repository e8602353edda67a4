/**
 * The AuthService `/sessions` endpoints. Login reads the `user` table and
 * builds the claim set to sign; it writes nothing. bcrypt verification is
 * the `verify` parameter; signing and decoding are left to the token library.
 */
module SessionsRouter {
  import opened Wrappers
  import opened Http
  import opened Tokens
  import opened AuthModels
  import opened SessionSchemas

  const InvalidCredentials: HttpError := HttpError(Unauthorized, "Invalid credentials")
  const SessionTokenExpired: HttpError := HttpError(Unauthorized, "Token has expired.")
  const InvalidToken: HttpError := HttpError(Unauthorized, "Invalid token.")

  /** `timedelta(minutes=30)`, in the seconds `now` is counted in. */
  const SessionLifetime: int := 30 * 60

  /**
   * `create_session`: the first row with the given email, then bcrypt
   * verification of the password against its hash; both failures give the
   * same 401. On success, the payload names that row's id and expires 30
   * minutes after `now`.
   */
  function CreateSession(users: seq<User>, req: SessionCreateRequest, verify: (string, string) -> bool, now: int)
    : (r: Result<SessionPayload>)
    ensures r.Err? ==> r.error == InvalidCredentials
    ensures !EmailInUse(users, req.email) ==> r.Err?
    ensures r.Ok? ==> exists i :: (0 <= i < |users| && users[i].email == req.email &&
                                    verify(req.password, users[i].passwordHash) && r.value.userId == users[i].id)
    ensures r.Ok? ==> r.value.expiresAt == now + SessionLifetime
  {
    match FindByEmail(users, req.email)
    case None => Err(InvalidCredentials)
    case Some(k) =>
      if !verify(req.password, users[k].passwordHash) then Err(InvalidCredentials)
      else Ok(SessionPayload(users[k].id, now + SessionLifetime))
  }

  /** With unique emails, login succeeds exactly when the row with that email accepts the password. */
  lemma CreateSessionSucceedsIff(users: seq<User>, req: SessionCreateRequest, verify: (string, string) -> bool, now: int)
    requires EmailsUnique(users)
    ensures CreateSession(users, req, verify, now).Ok? <==>
      exists i :: 0 <= i < |users| && users[i].email == req.email && verify(req.password, users[i].passwordHash)
  {
    if exists i :: 0 <= i < |users| && users[i].email == req.email && verify(req.password, users[i].passwordHash) {
      var i :| 0 <= i < |users| && users[i].email == req.email && verify(req.password, users[i].passwordHash);
      EmailLookupIsUnique(users, req.email, i);
    }
  }

  /**
   * A wrong password for an existing account produces exactly the response
   * that a store without that account produces: the failure does not reveal
   * whether the email is registered.
   */
  lemma WrongPasswordLooksLikeUnknownEmail(
    users: seq<User>, others: seq<User>, req: SessionCreateRequest, verify: (string, string) -> bool, now: int, k: nat)
    requires EmailsUnique(users)
    requires k < |users| && users[k].email == req.email && !verify(req.password, users[k].passwordHash)
    requires !EmailInUse(others, req.email)
    ensures CreateSession(users, req, verify, now) == CreateSession(others, req, verify, now)
    ensures CreateSession(users, req, verify, now) == Err(InvalidCredentials)
  {
    EmailLookupIsUnique(users, req.email, k);
  }

  /**
   * `get_session`: the decoded payload is returned as it is. The response
   * model needs an integer `user_id` and an `expires_at`; a payload without
   * one of them fails response validation, which the framework answers with 500.
   */
  function GetSession(token: DecodeOutcome): (r: Result<SessionInfoResponse>)
    ensures token.Expired? ==> r == Err(SessionTokenExpired)
    ensures token.Invalid? ==> r == Err(InvalidToken)
    ensures r.Ok? ==> token == Claims(Some(r.value.userId), Some(r.value.expiresAt))
    ensures token.Claims? && token.userId.Some? && token.expiresAt.Some? ==>
      r == Ok(SessionInfoResponse(token.userId.value, token.expiresAt.value))
    ensures token.Claims? && (token.userId.None? || token.expiresAt.None?) ==> r == Err(Unhandled)
  {
    match token
    case Expired => Err(SessionTokenExpired)
    case Invalid => Err(InvalidToken)
    case Claims(userId, expiresAt) =>
      if userId.Some? && expiresAt.Some? then Ok(SessionInfoResponse(userId.value, expiresAt.value))
      else Err(Unhandled)
  }

  /** A token issued at login reads back, through `get_session`, as the same user id and an expiry 30 minutes after issue. */
  lemma IssuedSessionReadsBack(users: seq<User>, req: SessionCreateRequest, verify: (string, string) -> bool, now: int)
    requires CreateSession(users, req, verify, now).Ok?
    ensures var p := CreateSession(users, req, verify, now).value;
      GetSession(ClaimsOf(p)) == Ok(SessionInfoResponse(p.userId, now + SessionLifetime))
  {
  }

}
