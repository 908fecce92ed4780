/**
 * The authentication middleware (middleware/auth.go): the Authorization
 * header must read "Bearer <token>", the token must pass the token
 * service's validation, and the claims' user id, role and email are put
 * into the request context before the next handler runs. The validation
 * itself (JWT signature and expiry) is a parameter of the model.
 */
module Auth {
  import opened Wrappers
  import opened GoText
  import Rbac

  const Unauthorized: int := 401

  /** The claims of a valid token. */
  datatype Claims = Claims(userId: int, role: string, email: string)

  /** The values the middleware adds to the request context. */
  datatype RequestContext = RequestContext(userId: int, role: Option<string>, email: string)

  /** What the middleware does: answer 401 with a message, or call the next handler once with a context. */
  datatype AuthOutcome = Rejected(status: int, message: string) | CallNext(ctx: RequestContext)

  /** The token of an Authorization header, when splitting it on ' ' gives exactly "Bearer" and one more piece. */
  function BearerToken(header: string): (r: Option<string>)
    ensures r.Some? ==> header == "Bearer " + r.value && ' ' !in r.value
  {
    var parts := Split(header, ' ');
    if |parts| != 2 || parts[0] != "Bearer" then None
    else
      assert Join(parts, " ") == parts[0] + " " + parts[1];
      Some(parts[1])
  }

  /** The header is accepted exactly when it is "Bearer ", then a token holding no space (possibly empty). */
  lemma BearerTokenIff(header: string)
    ensures BearerToken(header).Some? <==> exists t :: ' ' !in t && header == "Bearer " + t
  {
    if t :| ' ' !in t && header == "Bearer " + t {
      assert header == "Bearer" + [' '] + t;
      SplitFirst("Bearer", t, ' ');
      SplitNoSeparator(t, ' ');
    }
  }

  /** Headers of the wrong shape: no token, the wrong case, two tokens. */
  lemma MalformedHeaders(header: string)
    requires header == "Bearer" || header == "bearer x" || header == "Bearer a b"
    ensures BearerToken(header).None?
  {
    if header == "Bearer a b" {
      TwoTokens("a", "b");
    } else {
      NotBearer(header);
    }
  }

  /** A header too short to hold "Bearer ", or whose first character is not 'B', is refused. */
  lemma NotBearer(header: string)
    requires |header| < 7 || header[0] != 'B'
    ensures BearerToken(header).None?
  {
    BearerTokenIff(header);
    forall t ensures header != "Bearer " + t {
      assert ("Bearer " + t)[0] == 'B';
    }
  }

  /** "Bearer " followed by two space-separated pieces, whatever they are, carries two tokens and is refused. */
  lemma TwoTokens(a: string, b: string)
    ensures BearerToken("Bearer " + a + " " + b).None?
  {
    var header := "Bearer " + a + " " + b;
    BearerTokenIff(header);
    forall t | ' ' !in t ensures header != "Bearer " + t {
      if |t| == |a| + 1 + |b| {
        assert ("Bearer " + t)[7 + |a|] == t[|a|];
        assert header[7 + |a|] == ' ';
      }
    }
  }

  /** AuthMiddleware: a missing header, a malformed one and a refused token each give 401. */
  function Authenticate(header: string, validate: string -> Result<Claims, string>): (r: AuthOutcome)
    ensures header == "" ==> r == Rejected(Unauthorized, "Authorization header required")
    ensures header != "" && BearerToken(header).None? ==>
      r == Rejected(Unauthorized, "Invalid authorization header format")
    ensures BearerToken(header).Some? && validate(BearerToken(header).value).Failure? ==>
      r == Rejected(Unauthorized, "Invalid or expired token")
    ensures r.CallNext? <==> BearerToken(header).Some? && validate(BearerToken(header).value).Success?
    ensures r.CallNext? ==>
      var c := validate(BearerToken(header).value).value;
      r.ctx == RequestContext(c.userId, Some(c.role), c.email)
  {
    if header == "" then Rejected(Unauthorized, "Authorization header required")
    else
      match BearerToken(header)
      case None => Rejected(Unauthorized, "Invalid authorization header format")
      case Some(token) =>
        match validate(token)
        case Failure(_) => Rejected(Unauthorized, "Invalid or expired token")
        case Success(c) => CallNext(RequestContext(c.userId, Some(c.role), c.email))
  }

  /** Behind the middleware, the coach gate lets a request through exactly when its token carries coach or admin. */
  lemma AuthenticatedCoach(header: string, validate: string -> Result<Claims, string>)
    requires Authenticate(header, validate).CallNext?
    ensures Rbac.RequireCoach(Authenticate(header, validate).ctx.role).Next? <==>
      validate(BearerToken(header).value).value.role in {Rbac.RoleCoach, Rbac.RoleAdmin}
  {
  }
}
