/**
 * The CORS middleware (middleware/cors.go). The ENV environment variable
 * is a parameter; the request is reduced to its method and its Origin and
 * Access-Control-Request-Method headers ("" when a header is absent).
 */
module Cors {
  import opened Wrappers

  const Production: string := "production"

  /** The origins a production server answers with their own name. */
  const AllowedOrigins: seq<string> := ["http://localhost:3000", "http://127.0.0.1:3000", "http://192.168.100.9:3000"]

  const AllowOrigin: string := "Access-Control-Allow-Origin"
  const AllowMethods: string := "Access-Control-Allow-Methods"
  const AllowHeaders: string := "Access-Control-Allow-Headers"
  const AllowCredentials: string := "Access-Control-Allow-Credentials"

  datatype CorsRequest = CorsRequest(verb: string, origin: string, requestMethod: string)

  /**
   * The headers the middleware sets, the status it writes itself (None
   * when it leaves the answer to the next handler) and whether it calls
   * the next handler.
   */
  datatype CorsResponse = CorsResponse(headers: map<string, string>, status: Option<int>, callsNext: bool)

  /** The headers set on every request, whatever its origin. */
  const FixedHeaders: map<string, string> := map[
    AllowMethods := "GET, POST, PUT, DELETE, OPTIONS",
    AllowHeaders := "Content-Type, Authorization, X-Requested-With",
    AllowCredentials := "true"]

  /**
   * The value of Access-Control-Allow-Origin, if it is set: in production
   * only a listed origin is echoed; elsewhere any origin is echoed and a
   * request without one gets "*".
   */
  function AllowedOrigin(origin: string, env: string): (r: Option<string>)
    ensures env == Production ==> (r.Some? <==> origin in AllowedOrigins)
    ensures env == Production && r.Some? ==> r.value == origin
    ensures env != Production ==> r == Some(if origin == "" then "*" else origin)
  {
    var allowed := origin in AllowedOrigins || env != Production;
    if allowed && origin != "" then Some(origin)
    else if env != Production then Some("*")
    else None
  }

  /** A preflight request: OPTIONS carrying Access-Control-Request-Method. */
  predicate IsPreflight(req: CorsRequest) {
    req.verb == "OPTIONS" && req.requestMethod != ""
  }

  /** CORS: searches the list of origins, writes the headers, and answers a preflight itself with 200. */
  method HandleCors(req: CorsRequest, env: string) returns (resp: CorsResponse)
    ensures AllowOrigin in resp.headers <==> AllowedOrigin(req.origin, env).Some?
    ensures AllowOrigin in resp.headers ==> resp.headers[AllowOrigin] == AllowedOrigin(req.origin, env).value
    ensures forall h :: h in FixedHeaders ==> h in resp.headers && resp.headers[h] == FixedHeaders[h]
    ensures forall h :: h in resp.headers ==> h in FixedHeaders || h == AllowOrigin
    ensures resp.callsNext <==> !IsPreflight(req)
    ensures resp.status == (if IsPreflight(req) then Some(200) else None)
  {
    var allowed := false;
    var i := 0;
    while i < |AllowedOrigins|
      invariant 0 <= i <= |AllowedOrigins|
      invariant !allowed && req.origin !in AllowedOrigins[..i]
    {
      if req.origin == AllowedOrigins[i] {
        allowed := true;
        break;
      }
      i := i + 1;
    }
    assert allowed <==> req.origin in AllowedOrigins;
    if env != Production {
      allowed := true;
    }
    var headers: map<string, string> := map[];
    if allowed && req.origin != "" {
      headers := headers[AllowOrigin := req.origin];
    } else if env != Production {
      headers := headers[AllowOrigin := "*"];
    }
    headers := headers[AllowMethods := FixedHeaders[AllowMethods]];
    headers := headers[AllowHeaders := FixedHeaders[AllowHeaders]];
    headers := headers[AllowCredentials := FixedHeaders[AllowCredentials]];
    if req.verb == "OPTIONS" {
      if req.requestMethod != "" {
        return CorsResponse(headers, Some(200), false);
      }
    }
    resp := CorsResponse(headers, None, true);
  }

  /** An OPTIONS request without Access-Control-Request-Method goes on to the next handler. */
  lemma PlainOptionsPasses(origin: string)
    ensures !IsPreflight(CorsRequest("OPTIONS", origin, ""))
  {
  }

  /** A production server sends no Allow-Origin to an unlisted origin, not even "*". */
  lemma ProductionRefusesStrangers(origin: string)
    requires origin !in AllowedOrigins
    ensures AllowedOrigin(origin, Production) == None
  {
  }
}
