/**
 * The CORS middleware of the Workers backend: the default header set, the list of
 * allowed origins (three fixed ones plus `FRONTEND_URL` when configured), the
 * response headers for a request, and the preflight response. Environment variables
 * are `Option<string>`; an empty value is falsy, as in JavaScript.
 */
module Cors {
  import opened Wrappers

  type Headers = map<string, string>

  const ALLOW_ORIGIN := "Access-Control-Allow-Origin"

  /** `corsHeaders`. */
  const CORS_HEADERS: Headers := map[
    ALLOW_ORIGIN := "*",
    "Access-Control-Allow-Methods" := "GET, POST, PUT, DELETE, OPTIONS",
    "Access-Control-Allow-Headers" := "Content-Type, Authorization",
    "Access-Control-Allow-Credentials" := "true",
    "Access-Control-Max-Age" := "86400"]

  const FIXED_ORIGINS := ["https://balajib3006.github.io", "http://localhost:3000", "http://127.0.0.1:3000"]

  /** A string-valued setting or header that JavaScript treats as true: present and non-empty. */
  predicate Set(v: Option<string>) {
    v.Some? && v.value != ""
  }

  /** The list `getAllowedOrigins` returns, as a value. */
  function AllowedOrigins(frontendUrl: Option<string>): (r: seq<string>)
    ensures |r| >= 3 && r[..3] == FIXED_ORIGINS
    ensures forall o :: o in r <==> o in FIXED_ORIGINS || (Set(frontendUrl) && o == frontendUrl.value)
  {
    if Set(frontendUrl) then FIXED_ORIGINS + [frontendUrl.value] else FIXED_ORIGINS
  }

  /** `getAllowedOrigins`: the fixed origins, then `FRONTEND_URL` pushed only when it is set. */
  method GetAllowedOrigins(frontendUrl: Option<string>) returns (origins: seq<string>)
    ensures origins == AllowedOrigins(frontendUrl)
    ensures |origins| == if Set(frontendUrl) then 4 else 3
  {
    origins := FIXED_ORIGINS;
    if Set(frontendUrl) {
      origins := origins + [frontendUrl.value];
    }
  }

  /** `setCORSHeaders`: the request's origin is echoed when it is allowed, otherwise the defaults with `*`. */
  function SetCorsHeaders(origin: Option<string>, frontendUrl: Option<string>): (h: Headers)
    ensures h.Keys == CORS_HEADERS.Keys
    ensures forall k :: k in h && k != ALLOW_ORIGIN ==> h[k] == CORS_HEADERS[k]
    ensures Set(origin) && origin.value in AllowedOrigins(frontendUrl) ==> h[ALLOW_ORIGIN] == origin.value
    ensures !(Set(origin) && origin.value in AllowedOrigins(frontendUrl)) ==> h == CORS_HEADERS
  {
    if Set(origin) && origin.value in AllowedOrigins(frontendUrl) then CORS_HEADERS[ALLOW_ORIGIN := origin.value]
    else CORS_HEADERS
  }

  /** An origin other than `*` is echoed back exactly when it is one of the allowed origins. */
  lemma EchoIffAllowed(o: string, frontendUrl: Option<string>)
    requires o != "" && o != "*"
    ensures SetCorsHeaders(Some(o), frontendUrl)[ALLOW_ORIGIN] == o <==>
      (o in FIXED_ORIGINS || (Set(frontendUrl) && o == frontendUrl.value))
  {
  }

  /** Without a configured frontend URL, an origin that only extends an allowed one gets the wildcard, not itself. */
  lemma NoPrefixMatch(suffix: string)
    requires suffix != ""
    ensures SetCorsHeaders(Some("http://localhost:3000" + suffix), None)[ALLOW_ORIGIN] == "*"
  {
    var o := "http://localhost:3000" + suffix;
    assert o[4] == ':' != FIXED_ORIGINS[0][4];
    assert |o| > |FIXED_ORIGINS[1]| == |FIXED_ORIGINS[2]|;
  }

  datatype Response = Response(status: int, body: Option<string>, headers: Headers)

  /** `handleCORS`: the preflight answer, no body, the default headers. */
  function HandleCors(): (r: Response)
    ensures r.status == 204 && r.body.None?
    ensures ALLOW_ORIGIN in r.headers && r.headers[ALLOW_ORIGIN] == "*" && r.headers == SetCorsHeaders(None, None)
  {
    Response(204, None, CORS_HEADERS)
  }
}
