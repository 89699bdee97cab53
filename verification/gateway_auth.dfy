/** The gateway's authentication middleware: public requests pass
    untouched; every other request needs an "Authorization: Bearer <token>"
    header whose token verifies, and then carries the caller's identity to
    the upstream in X-User-Id and X-User-Role
    (gateway/internal/middleware/auth.go). Token verification (HS256 JWT
    with the shared secret) is a parameter. */
module GatewayAuth {
  import opened Wrappers
  import opened Strings
  import opened Http

  /** The claims of a verified token (gateway/internal/models/claims.go). */
  datatype Claims = Claims(userId: nat, role: string)

  /** Request headers under their canonical names. */
  type Headers = map<string, string>

  const UserIdHeader: string := "X-User-Id"
  const UserRoleHeader: string := "X-User-Role"

  const MissingHeader: string := "missing authorization header"
  const InvalidHeader: string := "invalid authorization header"
  const InvalidToken: string := "invalid token"

  datatype Outcome =
      /** The request continues, with these headers and, when a token was
          checked, its claims stored on the context. */
    | Next(headers: Headers, claims: Option<Claims>)
      /** The request is answered here and goes no further. */
    | Abort(reply: Reply<(), string>)

  /** The token of a header that splits on single spaces into exactly
      "Bearer" and one more field. */
  function BearerToken(header: string): (r: Option<string>)
    ensures r.Some? ==> ' ' !in r.value
  {
    var parts := Split(header, ' ');
    if |parts| == 2 && parts[0] == "Bearer" then Some(parts[1]) else None
  }

  /** The headers forwarded for a verified caller: identity set from the
      claims, replacing whatever the client sent under those names. */
  function WithIdentity(headers: Headers, c: Claims): (r: Headers)
    ensures r.Keys == headers.Keys + {UserIdHeader, UserRoleHeader}
    ensures r[UserIdHeader] == Decimal(c.userId) && r[UserRoleHeader] == c.role
    ensures forall k :: k in headers && k != UserIdHeader && k != UserRoleHeader ==> r[k] == headers[k]
  {
    headers[UserIdHeader := Decimal(c.userId)][UserRoleHeader := c.role]
  }

  /** AuthUnless for one request. */
  function AuthUnless(
    isPublic: bool, authHeader: string, verify: string -> Option<Claims>, headers: Headers): (r: Outcome)
    ensures isPublic ==> r == Next(headers, None)
    ensures r.Abort? ==> !isPublic && r.reply.Error? && r.reply.status == StatusUnauthorized
    ensures !isPublic && authHeader == "" ==> r == Abort(Error(StatusUnauthorized, MissingHeader))
    ensures !isPublic && authHeader != "" && BearerToken(authHeader).None? ==>
      r == Abort(Error(StatusUnauthorized, InvalidHeader))
    ensures !isPublic && r.Next? ==>
      && authHeader != ""
      && BearerToken(authHeader).Some?
      && r.claims == verify(BearerToken(authHeader).value)
      && r.claims.Some?
      && r.headers == WithIdentity(headers, r.claims.value)
    ensures !isPublic && BearerToken(authHeader).Some? && verify(BearerToken(authHeader).value).None? ==>
      r == Abort(Error(StatusUnauthorized, InvalidToken))
  {
    if isPublic then Next(headers, None)
    else if authHeader == "" then Abort(Error(StatusUnauthorized, MissingHeader))
    else match BearerToken(authHeader)
      case None => Abort(Error(StatusUnauthorized, InvalidHeader))
      case Some(token) =>
        match verify(token)
        case None => Abort(Error(StatusUnauthorized, InvalidToken))
        case Some(c) => Next(WithIdentity(headers, c), Some(c))
  }

  /** The accepted headers are exactly "Bearer", one space, and a token
      without spaces. */
  lemma BearerTokenExact(header: string, token: string)
    ensures BearerToken(header) == Some(token) <==> header == "Bearer " + token && ' ' !in token
  {
    if header == "Bearer " + token && ' ' !in token {
      assert header == "Bearer" + [' '] + token;
      SplitAfterField("Bearer", ' ', token);
      SplitFree(token, ' ');
    }
    if BearerToken(header) == Some(token) {
      var parts := Split(header, ' ');
      JoinSplit(header, ' ');
      assert parts[1..] == [token];
      assert Join(parts, ' ') == "Bearer" + [' '] + token;
    }
  }

  /** Headers the middleware turns away although they look close: a double
      space, a lower-case scheme, no token, or a token with a space. */
  lemma BearerRejections()
    ensures BearerToken("Bearer  x") == None
    ensures BearerToken("bearer x") == None
    ensures BearerToken("Bearer") == None
    ensures BearerToken("Bearer x y") == None
  {
    DoubleSpaceRejected();
    LowerCaseRejected();
    SplitFree("Bearer", ' ');
    TwoSpacesRejected();
  }

  lemma DoubleSpaceRejected()
    ensures BearerToken("Bearer  x") == None
  {
    SplitFree("x", ' ');
    assert "Bearer  x" == "Bearer" + [' '] + (" x");
    assert " x" == "" + [' '] + "x";
    SplitAfterField("", ' ', "x");
    SplitAfterField("Bearer", ' ', " x");
  }

  lemma LowerCaseRejected()
    ensures BearerToken("bearer x") == None
  {
    SplitFree("x", ' ');
    assert "bearer x" == "bearer" + [' '] + "x";
    SplitAfterField("bearer", ' ', "x");
  }

  lemma TwoSpacesRejected()
    ensures BearerToken("Bearer x y") == None
  {
    SplitFree("y", ' ');
    assert "Bearer x y" == "Bearer" + [' '] + "x y";
    assert "x y" == "x" + [' '] + "y";
    SplitAfterField("x", ' ', "y");
    SplitAfterField("Bearer", ' ', "x y");
  }

  /** On a protected request the identity the upstream sees comes from the
      token alone: whatever X-User-Id or X-User-Role the client sent, the
      forwarded values are the same. */
  lemma IdentityIgnoresClientHeaders(
    authHeader: string, verify: string -> Option<Claims>, h1: Headers, h2: Headers)
    ensures
      var r1 := AuthUnless(false, authHeader, verify, h1);
      var r2 := AuthUnless(false, authHeader, verify, h2);
      && r1.Next? == r2.Next?
      && (r1.Next? ==>
            r1.headers[UserIdHeader] == r2.headers[UserIdHeader]
            && r1.headers[UserRoleHeader] == r2.headers[UserRoleHeader])
  {
  }
}
