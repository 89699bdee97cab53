/** The gateway's reverse proxy to one upstream service: the path rewrite
    it applies before forwarding, and the reply when the upstream cannot be
    reached (gateway/internal/proxy/proxy.go). */
module GatewayProxy {
  import opened Wrappers
  import opened Strings
  import opened Http

  /** An upstream: the prefix to strip (empty for none) and an optional
      rewrite of the path, applied after stripping. The upstream URL itself
      is configuration and not modelled. */
  datatype Upstream = Upstream(stripPrefix: string, rewrite: Option<string -> string>)

  /** The path ServeHTTP forwards when the prefix is non-empty: one leading
      occurrence of the prefix removed, the remainder rooted at "/". */
  function StripPath(prefix: string, path: string): (r: string)
    requires prefix != ""
    ensures |r| > 0 && r[0] == '/'
    ensures HasPrefix(path, prefix) && HasPrefix(path[|prefix|..], "/") ==> r == path[|prefix|..]
    ensures !HasPrefix(path, prefix) && HasPrefix(path, "/") ==> r == path
    ensures path == prefix ==> r == "/"
  {
    var trimmed := TrimPrefix(path, prefix);
    var nonEmpty := if trimmed == "" then "/" else trimmed;
    if HasPrefix(nonEmpty, "/") then nonEmpty else "/" + nonEmpty
  }

  /** The path the upstream receives: stripped when a prefix is set, then
      passed through the rewrite hook, if any. */
  function ForwardedPath(u: Upstream, path: string): (r: string)
    ensures u.stripPrefix == "" && u.rewrite.None? ==> r == path
    ensures u.stripPrefix != "" && u.rewrite.None? ==> HasPrefix(r, "/")
    ensures u.rewrite.Some? ==>
      r == u.rewrite.value(if u.stripPrefix == "" then path else StripPath(u.stripPrefix, path))
  {
    var stripped := if u.stripPrefix == "" then path else StripPath(u.stripPrefix, path);
    match u.rewrite
    case None => stripped
    case Some(f) => f(stripped)
  }

  /** What the gateway answers for a proxied request: the upstream's own
      status and body, or 502 with the fixed upstream_unavailable body when
      the upstream could not be reached. */
  datatype UpstreamOutcome = Unreachable | Answered(status: int, body: string)

  datatype ProxyError = ProxyError(code: string, message: string)

  const UpstreamUnavailable: ProxyError := ProxyError("upstream_unavailable", "upstream unavailable")

  function Relay(outcome: UpstreamOutcome): (r: Reply<string, ProxyError>)
    ensures outcome.Unreachable? <==> r == Error(StatusBadGateway, UpstreamUnavailable)
    ensures outcome.Answered? ==> r == Json(outcome.status, outcome.body)
  {
    match outcome
    case Unreachable => Error(StatusBadGateway, UpstreamUnavailable)
    case Answered(status, body) => Json(status, body)
  }

  /** Stripping undoes the gateway's mount point: every rooted upstream
      path `p`, reached through the gateway as prefix + p, is forwarded as
      exactly `p`. */
  lemma StripUndoesPrefix(prefix: string, p: string)
    requires prefix != "" && HasPrefix(p, "/")
    ensures StripPath(prefix, prefix + p) == p
  {
    assert (prefix + p)[..|prefix|] == prefix;
    assert (prefix + p)[|prefix|..] == p;
  }

  /** The boundary cases of stripping "/api": the mount point itself goes to
      the root, the prefix is removed without regard to a segment boundary,
      and a path outside the mount point is left alone or rooted. */
  lemma StripExamples()
    ensures StripPath("/api", "/api") == "/"
    ensures StripPath("/api", "/api/venues/3") == "/venues/3"
    ensures StripPath("/api", "/apifoo") == "/foo"
    ensures StripPath("/api", "/health") == "/health"
    ensures StripPath("/api", "api") == "/api"
  {
    assert "/apifoo"[..4] == "/api";
    assert "/api/venues/3"[..4] == "/api";
    assert "/health"[1] != "/api"[1];
  }
}
