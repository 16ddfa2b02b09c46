/** `requireAuth`: reads a bearer token from the `Authorization` header (the
    `Authorization: Bearer` form of section 2.1 of RFC 6750, matched here as the
    case-sensitive literal prefix "Bearer " and a split on single spaces),
    verifies it, and either attaches the user to the request and calls `next`,
    or answers 401. Token verification is a parameter. */
module AuthMiddleware {
  import opened Opt
  import Text

  /** What a verified token carries. */
  datatype Payload = Payload(userId: string, email: string)

  /** The user attached to an authenticated request (`req.user`). */
  datatype AuthUser = AuthUser(id: string, email: string)

  /** The middleware's decision: a 401 reply with its message, or `next()` with
      the user attached. */
  datatype Decision = Reject(message: string) | Proceed(user: AuthUser)

  const Scheme: string := "Bearer "
  const MissingToken: string := "Authorization token missing"
  const BadToken: string := "Invalid or expired token"

  predicate StartsWith(s: string, prefix: string) {
    |prefix| <= |s| && s[..|prefix|] == prefix
  }

  /** `authHeader.split(" ")[1]`, for a header that starts with "Bearer ". */
  function BearerToken(header: string): (token: string)
    requires StartsWith(header, Scheme)
    ensures ' ' !in token
    ensures |Scheme| + |token| <= |header| && header[|Scheme|..|Scheme| + |token|] == token
    ensures |Scheme| + |token| == |header| || header[|Scheme| + |token|] == ' '
  {
    Text.SecondPiece(header, "Bearer", ' ');
    var rest := header[|Scheme|..];
    var token := Text.Split(header, ' ')[1];
    Text.FirstPiece(rest, ' ');
    assert token == Text.Split(rest, ' ')[0];
    token
  }

  /** The middleware. A missing or empty header, or one not starting with the
      exact text "Bearer ", is refused before any verification. */
  function RequireAuth(header: Option<string>, verify: string -> Option<Payload>): (d: Decision)
    ensures (header.None? || !StartsWith(header.value, Scheme)) ==> d == Reject(MissingToken)
    ensures d.Proceed? <==> (header.Some? && StartsWith(header.value, Scheme)
                             && verify(BearerToken(header.value)).Some?)
    ensures d.Proceed? ==> (var p := verify(BearerToken(header.value)).value;
                            d.user == AuthUser(p.userId, p.email))
    ensures (header.Some? && StartsWith(header.value, Scheme)
             && verify(BearerToken(header.value)).None?) ==> d == Reject(BadToken)
    ensures d.Reject? ==> d.message in {MissingToken, BadToken}
  {
    if header.None? || header.value == "" || !StartsWith(header.value, Scheme) then
      Reject(MissingToken)
    else
      match verify(BearerToken(header.value))
      case None => Reject(BadToken)
      case Some(p) => Proceed(AuthUser(p.userId, p.email))
  }

  /** "Bearer " alone carries the empty token. */
  lemma BareSchemeGivesEmptyToken()
    ensures BearerToken(Scheme) == ""
  {
  }

  /** The token handed to verification is everything after "Bearer " up to the
      next space: a header whose remainder holds no space passes it whole. */
  lemma TokenIsRemainder(token: string)
    requires ' ' !in token
    ensures BearerToken(Scheme + token) == token
  {
    var h := Scheme + token;
    var t := BearerToken(h);
    assert h[|Scheme|..] == token;
  }
}
