/** The bearer-token gate put in front of every item route
    (backend/src/middleware/authMiddleware.js). Signature and expiry checking
    is done by a token library; the gate receives it as an oracle. */
module AuthMiddleware {
  import opened Common

  /** The claims a verified token carries. */
  datatype Claims = Claims(userId: string, email: string)

  /** What the token library does with a token: return its claims, or throw
      an error with a `name`. */
  datatype Verification = Verified(claims: Claims) | Thrown(name: string)

  /** The gate's outcome: let the request through with the user attached to it
      (`req.userId`, `req.userEmail`, then `next()`), or answer it. */
  datatype Outcome = Proceed(userId: string, userEmail: string) | Reject(status: int, message: string)

  const BearerPrefix: string := "Bearer "
  const NoTokenMessage: string := "No token provided. Please log in."
  const InvalidTokenMessage: string := "Invalid token. Please log in again."
  const ExpiredTokenMessage: string := "Token expired. Please log in again."
  const AuthErrorMessage: string := "Authentication error."

  predicate HasBearerPrefix(header: string)
  {
    |header| >= |BearerPrefix| && header[..|BearerPrefix|] == BearerPrefix
  }

  /** The token is the header with its first seven characters removed. */
  function TokenOf(header: string): (token: string)
    requires HasBearerPrefix(header)
    ensures header == BearerPrefix + token
  {
    header[7..]
  }

  /** The answer to a verification failure, chosen by the error's name. */
  function ErrorReply(name: string): (r: Outcome)
    ensures r.Reject?
    ensures r.status == 401 <==> name == "JsonWebTokenError" || name == "TokenExpiredError"
    ensures r.status != 401 ==> r == Reject(500, AuthErrorMessage)
    ensures name == "JsonWebTokenError" ==> r.message == InvalidTokenMessage
    ensures name == "TokenExpiredError" ==> r.message == ExpiredTokenMessage
  {
    if name == "JsonWebTokenError" then Reject(401, InvalidTokenMessage)
    else if name == "TokenExpiredError" then Reject(401, ExpiredTokenMessage)
    else Reject(500, AuthErrorMessage)
  }

  /** The middleware. `header` is the `Authorization` header (`None` when
      absent); `verify` is the token library with the server's secret. */
  function Gate(header: Option<string>, verify: string -> Verification): (r: Outcome)
    ensures r.Proceed? <==>
      header.Some? && HasBearerPrefix(header.value) && verify(TokenOf(header.value)).Verified?
    ensures r.Proceed? ==>
      var c := verify(TokenOf(header.value)).claims; r.userId == c.userId && r.userEmail == c.email
    ensures (header.None? || !HasBearerPrefix(header.value)) ==> r == Reject(401, NoTokenMessage)
    ensures r.Reject? ==> r.status == 401 || r == Reject(500, AuthErrorMessage)
  {
    if header.None? || header.value == "" || !HasBearerPrefix(header.value) then
      Reject(401, NoTokenMessage)
    else
      match verify(TokenOf(header.value))
      case Verified(claims) => Proceed(claims.userId, claims.email)
      case Thrown(name) => ErrorReply(name)
  }

  /** The gate consults the token library on the stripped token only: two
      libraries that agree on `t` give the same outcome for `Bearer t`. */
  lemma GateDependsOnlyOnToken(t: string, v1: string -> Verification, v2: string -> Verification)
    requires v1(t) == v2(t)
    ensures Gate(Some(BearerPrefix + t), v1) == Gate(Some(BearerPrefix + t), v2)
  {
    assert TokenOf(BearerPrefix + t) == t;
  }

  /** For a well-formed header, the outcome is decided by what the library
      says of the token: its claims, or the mapping of its error name. */
  lemma GateOnBearer(t: string, verify: string -> Verification)
    ensures Gate(Some(BearerPrefix + t), verify) ==
      match verify(t)
      case Verified(c) => Proceed(c.userId, c.email)
      case Thrown(name) => ErrorReply(name)
  {
    assert TokenOf(BearerPrefix + t) == t;
  }

  /** The prefix is case-sensitive and needs exactly one space: a lower-case
      scheme or a missing space is treated as no token at all. */
  lemma PrefixIsExact(t: string, verify: string -> Verification)
    ensures Gate(Some("bearer " + t), verify) == Reject(401, NoTokenMessage)
    ensures Gate(Some("Bearer" + t), verify) == Reject(401, NoTokenMessage) || (t != [] && t[0] == ' ')
  {
    var h := "bearer " + t;
    assert h[0] != BearerPrefix[0];
    var h2 := "Bearer" + t;
    if t == [] || t[0] != ' ' {
      assert |h2| < 7 || h2[6] != BearerPrefix[6];
    }
  }
}
