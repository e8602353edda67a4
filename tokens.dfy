/**
 * Bearer tokens are JWTs (RFC 7519) signed with HS256, HMAC-SHA-256 as in
 * section 3.2 of RFC 7518. Encoding and verification are done by a library
 * the model does not see; what reaches the endpoints is the outcome of
 * `jwt.decode(token, JWT_SECRET, algorithms=["HS256"])`, taken as input.
 */
module Tokens {
  import opened Wrappers

  /**
   * `Expired`: the library raised ExpiredSignatureError. `Invalid`: any other
   * PyJWTError (bad signature, wrong algorithm, unparsable). `Claims`: the
   * payload, seen through `payload.get("user_id")` and `payload.get("expires_at")`.
   */
  datatype DecodeOutcome =
    | Expired
    | Invalid
    | Claims(userId: Option<int>, expiresAt: Option<int>)

  /** The claim set a login signs: `user_id` and a custom `expires_at` claim. */
  datatype SessionPayload = SessionPayload(userId: int, expiresAt: int)

  /**
   * What decoding yields for a token signed from `p` with the configured
   * secret. The payload has no registered `exp` claim (section 4.1.4 of
   * RFC 7519), so the library never reports such a token as expired.
   */
  function ClaimsOf(p: SessionPayload): DecodeOutcome {
    Claims(Some(p.userId), Some(p.expiresAt))
  }

}
