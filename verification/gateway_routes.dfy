/** The gateway's decision which requests reach an upstream without a bearer
    token (gateway/internal/transport/routes.go). */
module GatewayRoutes {
  import opened Strings

  const MethodGet: string := "GET"

  /** isPublicRequest: sign-up and login under /api/auth/ for any verb, and
      the read-only venue catalogue, except a venue's booking list. */
  function IsPublicRequest(verb: string, path: string): (r: bool)
    ensures HasPrefix(path, "/api/auth/") ==> r
    ensures r && verb != MethodGet ==> HasPrefix(path, "/api/auth/")
    ensures r ==> HasPrefix(path, "/api/")
    ensures r && !HasPrefix(path, "/api/auth/") && HasSuffix(path, "/bookings") ==>
      HasPrefix(path, "/api/venue-types/")
  {
    if HasPrefix(path, "/api/auth/") then true
    else if verb != MethodGet then false
    else if path == "/api/venue-types" || HasPrefix(path, "/api/venue-types/") then true
    else if path == "/api/venues" || HasPrefix(path, "/api/venues/") then !HasSuffix(path, "/bookings")
    else false
  }

  /** The path's segments begin "", "api", `x`: the path is /api/x or lies
      below it. */
  predicate InArea(segs: seq<string>, x: string)
  {
    |segs| >= 3 && segs[0] == "" && segs[1] == "api" && segs[2] == x
  }

  /** The same decision read off the path's '/'-separated segments: a path
      in the `api` area whose third segment names the public resource. */
  predicate PublicBySegments(verb: string, segs: seq<string>)
  {
    (InArea(segs, "auth") && |segs| >= 4)
    || (verb == MethodGet
        && (InArea(segs, "venue-types") || (InArea(segs, "venues") && segs[|segs| - 1] != "bookings")))
  }

  /** The segments "", "api", `x` start the path exactly when the path is
      `area` = "/api/x" or lies below it. */
  lemma ApiArea(path: string, x: string, area: string)
    requires '/' !in x && area == "/api/" + x
    ensures InArea(Split(path, '/'), x) <==> (path == area || HasPrefix(path, area + "/"))
    ensures (InArea(Split(path, '/'), x) && |Split(path, '/')| >= 4) <==> HasPrefix(path, area + "/")
  {
    var ws := ["", "api", x];
    var segs := Split(path, '/');
    assert Join(ws, '/') == area by {
      assert Join(ws[2..], '/') == x;
      assert Join(ws[1..], '/') == "api" + "/" + x;
    }
    assert area + "/" == Join(ws, '/') + ['/'];
    SplitLeadingFields(path, ws, '/');
    SplitIsFields(path, ws, '/');
    if InArea(segs, x) {
      assert segs[..3] == ws;
      if |segs| == 3 {
        assert segs == ws;
      }
    }
  }

  // The three areas the classifier names, each read both ways.

  lemma AuthArea(path: string)
    ensures (InArea(Split(path, '/'), "auth") && |Split(path, '/')| >= 4) == HasPrefix(path, "/api/auth/")
  {
    ApiArea(path, "auth", "/api/auth");
  }

  lemma VenueTypesArea(path: string)
    ensures InArea(Split(path, '/'), "venue-types") ==
            (path == "/api/venue-types" || HasPrefix(path, "/api/venue-types/"))
  {
    ApiArea(path, "venue-types", "/api/venue-types");
  }

  lemma VenuesArea(path: string)
    ensures InArea(Split(path, '/'), "venues") == (path == "/api/venues" || HasPrefix(path, "/api/venues/"))
  {
    ApiArea(path, "venues", "/api/venues");
  }

  /** Below /api/venues, the last segment is "bookings" exactly when the
      path ends in "/bookings". */
  lemma BookingsLast(path: string)
    requires |path| > 0 && path[0] == '/'
    ensures var segs := Split(path, '/');
      (segs[|segs| - 1] == "bookings") == HasSuffix(path, "/bookings")
  {
    SplitLastField(path, "bookings", '/');
    assert ['/'] + "bookings" == "/bookings";
  }

  /** isPublicRequest agrees with the segment reading on every verb and
      path. */
  lemma PublicMatchesSegments(verb: string, path: string)
    ensures IsPublicRequest(verb, path) == PublicBySegments(verb, Split(path, '/'))
  {
    AuthArea(path);
    VenueTypesArea(path);
    VenuesArea(path);
    if path == "/api/venues" || HasPrefix(path, "/api/venues/") {
      BookingsLast(path);
    }
  }

  /** The classifications the routes rely on: login for any verb and the
      venue catalogue for GET pass. */
  lemma PublicExamples()
    ensures IsPublicRequest("POST", "/api/auth/login")
    ensures IsPublicRequest("GET", "/api/venues")
    ensures IsPublicRequest("GET", "/api/venues/7/availability")
    ensures IsPublicRequest("GET", "/api/venue-types")
  {
    assert "/api/auth/login"[..10] == "/api/auth/";
    assert "/api/venues"[5] != "/api/auth/"[5];
    assert "/api/venue-types"[5] != "/api/auth/"[5];
    assert "/api/venues/7/availability"[5] != "/api/auth/"[5];
    assert "/api/venues/7/availability"[..12] == "/api/venues/";
    assert "/api/venues/7/availability"[17] != "/bookings"[0];
    assert "/api/venues"[2] != "/bookings"[0];
  }

  /** A venue's booking list, writes to the catalogue, other areas and
      look-alike prefixes need a token. */
  lemma ProtectedExamples()
    ensures !IsPublicRequest("GET", "/api/venues/7/bookings")
    ensures !IsPublicRequest("POST", "/api/venues")
    ensures !IsPublicRequest("GET", "/api/bookings")
    ensures !IsPublicRequest("GET", "/api/venuesX")
    ensures !IsPublicRequest("GET", "/api/auth")
  {
    assert "POST"[0] != MethodGet[0];
    assert "/api/venues"[5] != "/api/auth/"[5];
    assert "/api/venues/7/bookings"[5] != "/api/auth/"[5];
    assert "/api/venues/7/bookings"[..12] == "/api/venues/";
    assert "/api/venues/7/bookings"[10] != "/api/venue-types"[10];
    assert "/api/venues/7/bookings"[13..] == "/bookings";
    assert "/api/bookings"[5] != "/api/auth/"[5];
    assert "/api/bookings"[5] != "/api/venues/"[5];
    assert "/api/venuesX"[5] != "/api/auth/"[5];
    assert "/api/venuesX"[10] != "/api/venue-types"[10];
    assert "/api/venuesX"[11] != "/api/venues/"[11];
    assert "/api/auth"[5] != "/api/venues/"[5];
  }
}
