/** The two access middlewares: the CORS origin check
    (internal/middleware/cors.go) and the role gate
    (internal/middleware/rbac.go). Each decides whether the handler chain
    goes on and what it writes if it stops. */
module Access {
  import opened Wrappers
  import opened Http

  type Header = (string, string)

  /** The origins a browser may call from. */
  const Whitelist: seq<string> := [
    "http://localhost:5000",
    "http://localhost:5050",
    "http://localhost:5173",
    "http://localhost:3000",
    "http://192.168.50.121:3000"
  ]

  /** The headers every admitted request gets, whatever its origin. */
  const FixedHeaders: seq<Header> := [
    ("Access-Control-Allow-Credentials", "true"),
    ("Access-Control-Allow-Headers", "Content-Type, Authorization, X-Requested-With"),
    ("Access-Control-Allow-Methods", "GET, POST, PUT, DELETE, PATCH, OPTIONS")
  ]

  /** What the CORS middleware does with a request: pass it on with
      headers set, or abort it with a bare status (and the headers set so
      far). */
  datatype CorsOutcome = Continue(headers: seq<Header>) | Abort(status: int, headers: seq<Header>)

  /** The loop over the whitelist: exact string equality, stopping at the
      first match. */
  method IsWhitelisted(origin: string) returns (allowed: bool)
    ensures allowed <==> origin in Whitelist
  {
    allowed := false;
    var i := 0;
    while i < |Whitelist|
      invariant 0 <= i <= |Whitelist|
      invariant !allowed ==> origin !in Whitelist[..i]
      invariant allowed ==> origin in Whitelist
    {
      if Whitelist[i] == origin {
        allowed := true;
        break;
      }
      i := i + 1;
    }
  }

  /** `CORSMiddleware`: a request without an Origin header, or with one on
      the whitelist, is admitted: the origin is echoed back if there is one,
      the fixed headers are set, and a preflight `OPTIONS` stops there with
      204 while anything else goes on. Any other origin is stopped with 403
      and no CORS header. */
  method Cors(origin: string, requestMethod: string) returns (o: CorsOutcome)
    ensures o.Abort? && o.status == StatusForbidden <==> origin != "" && origin !in Whitelist
    ensures origin != "" && origin !in Whitelist ==> o == Abort(StatusForbidden, [])
    ensures origin == "" || origin in Whitelist ==>
      o.headers == (if origin != "" then [("Access-Control-Allow-Origin", origin)] else []) + FixedHeaders
    ensures (origin == "" || origin in Whitelist) && requestMethod == "OPTIONS" ==> o.Abort? && o.status == StatusNoContent
    ensures o.Continue? <==> (origin == "" || origin in Whitelist) && requestMethod != "OPTIONS"
  {
    var allowed := true;
    if origin != "" {
      allowed := IsWhitelisted(origin);
    }
    if allowed {
      var headers := (if origin != "" then [("Access-Control-Allow-Origin", origin)] else []) + FixedHeaders;
      if requestMethod == "OPTIONS" {
        o := Abort(StatusNoContent, headers);
      } else {
        o := Continue(headers);
      }
    } else {
      o := Abort(StatusForbidden, []);
    }
  }

  /** The value a header list gives a name: the first entry with it. */
  function Lookup(headers: seq<Header>, name: string): (v: Option<string>)
    ensures v.None? <==> forall i :: 0 <= i < |headers| ==> headers[i].0 != name
    ensures v.Some? ==> exists i :: 0 <= i < |headers| && headers[i] == (name, v.value)
    decreases |headers|
  {
    if |headers| == 0 then None
    else if headers[0].0 == name then Some(headers[0].1)
    else
      var rest := Lookup(headers[1..], name);
      assert forall i :: 1 <= i < |headers| ==> headers[i] == headers[1..][i - 1];
      if rest.Some? then
        var i :| 0 <= i < |headers[1..]| && headers[1..][i] == (name, rest.value);
        assert headers[i + 1] == (name, rest.value);
        rest
      else rest
  }

  /** The browser-visible grant: Allow-Origin is present exactly for a
      whitelisted origin and echoes it; credentials are granted to every
      admitted request. */
  lemma AllowOriginEchoes(origin: string, headers: seq<Header>)
    requires origin == "" || origin in Whitelist
    requires headers == (if origin != "" then [("Access-Control-Allow-Origin", origin)] else []) + FixedHeaders
    ensures origin != "" ==> Lookup(headers, "Access-Control-Allow-Origin") == Some(origin)
    ensures origin == "" ==> Lookup(headers, "Access-Control-Allow-Origin").None?
    ensures Lookup(headers, "Access-Control-Allow-Credentials") == Some("true")
  {
    if origin == "" {
      assert headers == FixedHeaders;
    } else {
      assert headers[1..] == FixedHeaders;
    }
  }

  /** What `c.Get("token")` finds: nothing, a value of another type, or
      `pkg.JWTClaims` with a role. */
  datatype Token = NoToken | NotClaims | Claims(role: string)

  /** What the role gate does: pass the request on, or abort it with a
      JSON reply. */
  datatype RoleOutcome = Next | Refused(reply: Reply<()>)

  /** `CheckRole(role)`: no token and a foreign role are 403 "Access
      Denied", a token of the wrong type is 500; only the exact role goes
      on. */
  function CheckRole(required: string, token: Token): (o: RoleOutcome)
    ensures o.Next? <==> token.Claims? && token.role == required
    ensures token.NoToken? ==> o == Refused(Failure(StatusForbidden, "Forbidden Access", "Access Denied", EmptyList))
    ensures token.NotClaims? ==> o == Refused(Failure(StatusInternalServerError, "Internal Server Error", "internal server error", EmptyList))
    ensures token.Claims? && token.role != required ==> o == Refused(Failure(StatusForbidden, "Forbidden Access", "Access Denied", EmptyList))
  {
    match token
    case NoToken => Refused(Failure(StatusForbidden, "Forbidden Access", "Access Denied", EmptyList))
    case NotClaims => Refused(Failure(StatusInternalServerError, "Internal Server Error", "internal server error", EmptyList))
    case Claims(role) =>
      if role != required then Refused(Failure(StatusForbidden, "Forbidden Access", "Access Denied", EmptyList))
      else Next
  }

  /** Roles form no hierarchy: an admin is refused on a user route and a
      user on an admin route, and the match is case-sensitive. */
  lemma NoRoleHierarchy()
    ensures CheckRole("user", Claims("admin")).Refused?
    ensures CheckRole("admin", Claims("user")).Refused?
    ensures CheckRole("admin", Claims("Admin")).Refused?
    ensures CheckRole("admin", Claims("admin")).Next?
  {
    assert "admin" != "user";
    assert "Admin"[0] != "admin"[0];
  }
}
