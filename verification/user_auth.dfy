/** The user service's own authentication middleware
    (user-service/internal/middleware/auth_middleware.go). It reads the
    bearer token differently from the gateway: by a fixed seven-character
    prefix rather than by splitting on spaces. Token parsing is a
    parameter. */
module UserAuth {
  import opened Wrappers
  import opened Strings
  import opened Http
  import GatewayAuth

  const BearerPrefix: string := "Bearer "

  datatype Outcome<C> =
      /** The request continues with the parsed claims stored. */
    | Next(claims: C)
    | Abort(reply: Reply<(), string>)

  /** The token after a "Bearer " prefix, when there is at least one more
      character. Go measures the header in bytes; once the header starts
      with the seven ASCII characters of the prefix, "longer than seven
      bytes" and "longer than seven characters" coincide. */
  function ExtractBearer(header: string): (r: Option<string>)
    ensures r.Some? <==> |header| > 7 && HasPrefix(header, BearerPrefix)
    ensures r.Some? ==> header == BearerPrefix + r.value && r.value != ""
  {
    if |header| > 7 && header[..7] == BearerPrefix then Some(header[7..]) else None
  }

  /** AuthMiddleware for one request. */
  function AuthMiddleware<C>(authHeader: string, parseToken: string -> Option<C>): (r: Outcome<C>)
    ensures authHeader == "" ==> r == Abort(Error(StatusUnauthorized, GatewayAuth.MissingHeader))
    ensures authHeader != "" && ExtractBearer(authHeader).None? ==>
      r == Abort(Error(StatusUnauthorized, GatewayAuth.InvalidHeader))
    ensures r.Next? <==> ExtractBearer(authHeader).Some? && parseToken(ExtractBearer(authHeader).value).Some?
    ensures r.Next? ==> r.claims == parseToken(ExtractBearer(authHeader).value).value
    ensures r.Abort? ==> r.reply.Error? && r.reply.status == StatusUnauthorized
  {
    if authHeader == "" then Abort(Error(StatusUnauthorized, GatewayAuth.MissingHeader))
    else match ExtractBearer(authHeader)
      case None => Abort(Error(StatusUnauthorized, GatewayAuth.InvalidHeader))
      case Some(token) =>
        match parseToken(token)
        case None => Abort(Error(StatusUnauthorized, GatewayAuth.InvalidToken))
        case Some(claims) => Next(claims)
  }

  /** Every non-empty token the gateway reads from a header, the user
      service reads from the same header too. */
  lemma GatewayTokensReadAlike(header: string)
    requires GatewayAuth.BearerToken(header).Some? && GatewayAuth.BearerToken(header).value != ""
    ensures ExtractBearer(header) == GatewayAuth.BearerToken(header)
  {
    var token := GatewayAuth.BearerToken(header).value;
    GatewayAuth.BearerTokenExact(header, token);
    assert header[..7] == BearerPrefix;
  }

  /** Where the two readings part: a double space gives the user service a
      token that starts with a space, which the gateway refuses outright;
      an empty token is refused here and split off by the gateway. */
  lemma ReadingsDiffer()
    ensures ExtractBearer("Bearer  x") == Some(" x")
    ensures GatewayAuth.BearerToken("Bearer  x") == None
    ensures ExtractBearer("Bearer ") == None
    ensures GatewayAuth.BearerToken("Bearer ") == Some("")
  {
    GatewayAuth.BearerRejections();
    GatewayAuth.BearerTokenExact("Bearer ", "");
    assert "Bearer " == BearerPrefix + "";
  }
}
