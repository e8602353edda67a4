/** The request and response shapes of the session endpoints. */
module SessionSchemas {
  import UserSchemas

  datatype SessionCreateRequest = SessionCreateRequest(email: string, password: string)

  /** The login `password` as validated: 8 to 20 characters the pattern, applied as written, accepts. */
  predicate LoginPasswordValid(p: string) {
    8 <= |p| <= 20 && UserSchemas.PatternAsWritten(p)
  }

  /** The corrected login rule: 8 to 20 characters, every one from [a-zA-Z0-9_]. */
  predicate CorrectedLoginPasswordValid(p: string) {
    8 <= |p| <= 20 && UserSchemas.WordString(p)
  }

  predicate SessionCreateRequestValid(r: SessionCreateRequest) {
    LoginPasswordValid(r.password)
  }

  /** The login response carries the token and nothing else. */
  datatype SessionCreateResponse = SessionCreateResponse(accessToken: string)

  /** Session info: an integer user id and the expiry instant (rendered in ISO format by the source). */
  datatype SessionInfoResponse = SessionInfoResponse(userId: int, expiresAt: int)

  /** The login rule and the sign-up rule accept the same passwords, so every password set at sign-up can be typed at login. */
  lemma LoginAcceptsSignupPasswords(p: string)
    ensures LoginPasswordValid(p) <==> UserSchemas.PasswordValid(p)
    ensures CorrectedLoginPasswordValid(p) <==> UserSchemas.CorrectedPasswordValid(p)
  {
  }

  /** The email and password of any accepted sign-up request make an accepted login request. */
  lemma SignUpRequestIsLoginRequest(req: UserSchemas.UserCreateRequest)
    requires UserSchemas.UserCreateRequestValid(req)
    ensures SessionCreateRequestValid(SessionCreateRequest(req.email, req.password))
  {
  }

  /** The login password pattern carries the same defect: a trailing newline passes it. */
  lemma TrailingNewlinePassesLogin()
    ensures LoginPasswordValid("password\n") && !CorrectedLoginPasswordValid("password\n")
  {
    UserSchemas.TrailingNewlinePassesPattern();
  }

}
