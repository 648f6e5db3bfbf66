/**
 * JWT handling of the Workers backend: the HS256 compact form (three base64url
 * segments joined by '.'), the base64url character mapping, the claims `createJWT`
 * adds, the `exp` test of `verifyJWT`, and the middleware that finds the token in the
 * `Authorization: Bearer` header or the `auth_token` cookie.
 *
 * HMAC, `btoa`/`atob` and JSON are parameters: `btoa` maps a string to standard base64,
 * `sign` gives the standard base64 of the HMAC-SHA-256 signature, `verify` is the
 * signature check (false also where `atob` of the signature would throw), and
 * `decode` is `JSON.parse(atob(.))` with None where either throws.
 */
module JwtAuth {
  import opened Wrappers
  import Js
  import Seqs
  import Text

  type Claims = map<string, Js.Value>

  // ---------------------------------------------------------------- base64url

  predicate IsBase64Char(c: char) {
    ('A' <= c <= 'Z') || ('a' <= c <= 'z') || ('0' <= c <= '9') || c == '+' || c == '/' || c == '='
  }

  predicate IsBase64(s: string) {
    forall i :: 0 <= i < |s| ==> IsBase64Char(s[i])
  }

  predicate IsBase64UrlChar(c: char) {
    ('A' <= c <= 'Z') || ('a' <= c <= 'z') || ('0' <= c <= '9') || c == '-' || c == '_'
  }

  predicate IsBase64Url(s: string) {
    forall i :: 0 <= i < |s| ==> IsBase64UrlChar(s[i])
  }

  function UrlChar(c: char): char {
    if c == '+' then '-' else if c == '/' then '_' else c
  }

  function StdChar(c: char): char {
    if c == '-' then '+' else if c == '_' then '/' else c
  }

  function NotPad(c: char): bool {
    c != '='
  }

  /** `.replace(/=/g, '').replace(/\+/g, '-').replace(/\//g, '_')`. */
  function ToBase64Url(b64: string): (u: string)
    ensures IsBase64(b64) ==> IsBase64Url(u)
    ensures |u| <= |b64|
  {
    var stripped := Seqs.Filter(b64, NotPad);
    var u := Seqs.Map(stripped, UrlChar);
    assert forall i :: 0 <= i < |stripped| ==> stripped[i] in b64 && stripped[i] != '=';
    u
  }

  /** `.replace(/-/g, '+').replace(/_/g, '/')`: padding is not restored. */
  function FromBase64Url(u: string): (b64: string)
    ensures |b64| == |u|
    ensures IsBase64Url(u) ==> IsBase64(b64) && '=' !in b64
  {
    Seqs.Map(u, StdChar)
  }

  /** Decoding the mapping undoes the encoding up to the stripped padding. */
  lemma FromToBase64Url(b64: string)
    requires IsBase64(b64)
    ensures FromBase64Url(ToBase64Url(b64)) == Seqs.Filter(b64, NotPad)
  {
    var stripped := Seqs.Filter(b64, NotPad);
    assert forall i :: 0 <= i < |stripped| ==> stripped[i] in b64;
  }

  /** On base64url text the mapping round-trips the other way round too. */
  lemma {:induction false} ToFromBase64Url(u: string)
    requires IsBase64Url(u)
    ensures ToBase64Url(FromBase64Url(u)) == u
  {
    var b := FromBase64Url(u);
    Seqs.FilterAll(b, NotPad);
  }

  // ---------------------------------------------------------------- compact form

  /** `${header}.${payload}.${signature}`. */
  function Compact(header: string, payload: string, signature: string): string {
    Text.Join([header, payload, signature], ".")
  }

  /** Segments free of '.' are recovered by the split `verifyJWT` starts with. */
  lemma SplitCompact(header: string, payload: string, signature: string)
    requires '.' !in header && '.' !in payload && '.' !in signature
    ensures Text.Split(Compact(header, payload, signature), '.') == [header, payload, signature]
  {
    Text.SplitJoin([header, payload, signature], '.');
  }

  lemma NoDotInBase64Url(u: string)
    requires IsBase64Url(u)
    ensures '.' !in u
  {
  }

  // ---------------------------------------------------------------- claims and expiry

  function Lookup(c: Claims, k: string): Js.Value {
    if k in c then c[k] else Js.Undefined
  }

  /** `{...payload, iat: now, exp: now + expiresIn}` with `now = Math.floor(Date.now() / 1000)`. */
  function CreateClaims(payload: Claims, nowMs: nat, expiresIn: int): (c: Claims)
    ensures c.Keys == payload.Keys + {"iat", "exp"}
    ensures c["iat"] == Js.Num(nowMs / 1000) && c["exp"] == Js.Num(nowMs / 1000 + expiresIn)
    ensures forall k :: k in payload && k != "iat" && k != "exp" ==> c[k] == payload[k]
  {
    payload["iat" := Js.Num(nowMs / 1000)]["exp" := Js.Num(nowMs / 1000 + expiresIn)]
  }

  /**
   * `payload.exp && payload.exp < Date.now() / 1000`. For whole seconds and milliseconds
   * `exp < nowMs / 1000` over the reals is `exp * 1000 < nowMs`. A string `exp` is
   * compared after numeric conversion (`toNumber`, None for NaN, which compares false).
   */
  predicate Expired(exp: Js.Value, nowMs: nat, toNumber: string -> Option<int>) {
    Js.Truthy(exp) &&
    match exp
    case Num(n) => n * 1000 < nowMs
    case Bool(b) => 1000 < nowMs
    case Str(s) => toNumber(s).Some? && toNumber(s).value * 1000 < nowMs
    case _ => false
  }

  /** A numeric expiry is passed exactly when the clock is strictly beyond it; a token is still good at its `exp` second and a zero or missing `exp` never expires. */
  lemma ExpiryBoundary(n: int, nowMs: nat, toNumber: string -> Option<int>)
    ensures Expired(Js.Num(n), nowMs, toNumber) <==> n != 0 && n * 1000 < nowMs
    ensures n >= 0 ==> !Expired(Js.Num(n), n * 1000, toNumber)
    ensures !Expired(Js.Undefined, nowMs, toNumber) && !Expired(Js.Num(0), nowMs, toNumber)
  {
  }

  /** A token made with a lifetime of at least a second is not expired when made, and is expired once the clock passes `iat + expiresIn` seconds. */
  lemma FreshClaimsNotExpired(payload: Claims, nowMs: nat, expiresIn: int, laterMs: nat, toNumber: string -> Option<int>)
    requires expiresIn >= 1
    ensures !Expired(CreateClaims(payload, nowMs, expiresIn)["exp"], nowMs, toNumber)
    ensures laterMs > (nowMs / 1000 + expiresIn) * 1000 ==> Expired(CreateClaims(payload, nowMs, expiresIn)["exp"], laterMs, toNumber)
  {
  }

  // ---------------------------------------------------------------- create / verify

  const Header: Claims := map["alg" := Js.Str("HS256"), "typ" := Js.Str("JWT")]

  /** `createJWT`: header and claims are JSON-encoded, base64-encoded and mapped to base64url; the signature covers `header.payload`. */
  function CreateJwt(payload: Claims, secret: string, nowMs: nat, expiresIn: int,
                     stringify: Claims -> string, btoa: string -> string,
                     sign: (string, string) -> string): string
  {
    var headerB64 := ToBase64Url(btoa(stringify(Header)));
    var payloadB64 := ToBase64Url(btoa(stringify(CreateClaims(payload, nowMs, expiresIn))));
    var data := headerB64 + "." + payloadB64;
    Compact(headerB64, payloadB64, ToBase64Url(sign(secret, data)))
  }

  /** `verifyJWT`: exactly three segments, a good signature over the first two, a decodable payload, and an `exp` not passed. */
  function VerifyJwt(token: string, secret: string, nowMs: nat,
                     verify: (string, string, string) -> bool, decode: string -> Option<Claims>,
                     toNumber: string -> Option<int>): (r: Result<Claims, string>)
    ensures |Text.Split(token, '.')| != 3 ==> r == Err("Invalid token format")
    ensures r.Ok? <==>
      var parts := Text.Split(token, '.');
      && |parts| == 3
      && verify(secret, parts[0] + "." + parts[1], FromBase64Url(parts[2]))
      && decode(FromBase64Url(parts[1])).Some?
      && !Expired(Lookup(decode(FromBase64Url(parts[1])).value, "exp"), nowMs, toNumber)
    ensures r.Ok? ==> r.value == decode(FromBase64Url(Text.Split(token, '.')[1])).value
  {
    var parts := Text.Split(token, '.');
    if |parts| != 3 then Err("Invalid token format")
    else if !verify(secret, parts[0] + "." + parts[1], FromBase64Url(parts[2])) then Err("Invalid signature")
    else match decode(FromBase64Url(parts[1]))
      case None => Err("Unexpected token in JSON")
      case Some(payload) =>
        if Expired(Lookup(payload, "exp"), nowMs, toNumber) then Err("Token expired")
        else Ok(payload)
  }

  /**
   * A token `createJWT` made at `nowMs` is accepted by `verifyJWT` with the same secret
   * at any `laterMs` up to its `exp` second, yielding the claims it was made with, and
   * rejected as expired after it; provided base64 decodes what base64 encodes, the
   * signature check accepts what signing produced, and the encoders only emit the
   * base64 alphabet.
   */
  lemma {:induction false} CreateThenVerify(payload: Claims, secret: string, nowMs: nat, expiresIn: int, laterMs: nat,
                                            stringify: Claims -> string, btoa: string -> string,
                                            sign: (string, string) -> string,
                                            verify: (string, string, string) -> bool, decode: string -> Option<Claims>,
                                            toNumber: string -> Option<int>)
    requires expiresIn >= 1
    requires forall s :: IsBase64(btoa(s))
    requires forall k, d :: IsBase64(sign(k, d))
    requires forall k, d :: verify(k, d, Seqs.Filter(sign(k, d), NotPad))
    requires forall c :: decode(Seqs.Filter(btoa(stringify(c)), NotPad)) == Some(c)
    ensures VerifyJwt(CreateJwt(payload, secret, nowMs, expiresIn, stringify, btoa, sign), secret, laterMs, verify, decode, toNumber)
      == if laterMs <= (nowMs / 1000 + expiresIn) * 1000 then Ok(CreateClaims(payload, nowMs, expiresIn)) else Err("Token expired")
  {
    var claims := CreateClaims(payload, nowMs, expiresIn);
    var h := ToBase64Url(btoa(stringify(Header)));
    var p := ToBase64Url(btoa(stringify(claims)));
    var data := h + "." + p;
    var s := ToBase64Url(sign(secret, data));
    NoDotInBase64Url(h);
    NoDotInBase64Url(p);
    NoDotInBase64Url(s);
    SplitCompact(h, p, s);
    FromToBase64Url(sign(secret, data));
    FromToBase64Url(btoa(stringify(claims)));
    ExpiryBoundary(nowMs / 1000 + expiresIn, laterMs, toNumber);
  }

  // ---------------------------------------------------------------- token lookup

  const BEARER := "Bearer "
  const COOKIE_NAME := "auth_token="

  function TrimJs(s: string): string {
    Text.Trim(Text.JsSpace, s)
  }

  /** Index of the first piece starting with `prefix` (Array.prototype.find). */
  function FindPrefixed(pieces: seq<string>, prefix: string): (r: Option<nat>)
    ensures r.Some? ==> r.value < |pieces| && Text.StartsWith(pieces[r.value], prefix)
    ensures r.Some? ==> forall j :: 0 <= j < r.value ==> !Text.StartsWith(pieces[j], prefix)
    ensures r.None? <==> forall j :: 0 <= j < |pieces| ==> !Text.StartsWith(pieces[j], prefix)
  {
    if pieces == [] then None
    else if Text.StartsWith(pieces[0], prefix) then Some(0)
    else match FindPrefixed(pieces[1..], prefix)
      case None => None
      case Some(i) => Some(i + 1)
  }

  /** Piece `i` is the first one that starts with `prefix`. */
  predicate FirstWithPrefix(pieces: seq<string>, prefix: string, i: int) {
    0 <= i < |pieces| && Text.StartsWith(pieces[i], prefix) && forall j :: 0 <= j < i ==> !Text.StartsWith(pieces[j], prefix)
  }

  /** The trimmed `;`-separated cookie pairs of a Cookie header. */
  function CookiePairs(header: string): seq<string> {
    Seqs.Map(Text.Split(header, ';'), TrimJs)
  }

  /** The value of the first `auth_token=` pair, if any (`substring(11)`). */
  function CookieToken(header: string): (r: Option<string>)
    ensures r.Some? <==> exists j :: 0 <= j < |CookiePairs(header)| && Text.StartsWith(CookiePairs(header)[j], COOKIE_NAME)
    ensures r.Some? ==> exists i :: FirstWithPrefix(CookiePairs(header), COOKIE_NAME, i) && r.value == CookiePairs(header)[i][|COOKIE_NAME|..]
  {
    var pairs := CookiePairs(header);
    match FindPrefixed(pairs, COOKIE_NAME)
    case None => None
    case Some(i) => Some(Text.DropPrefix(pairs[i], 11))
  }

  /**
   * The token the middleware goes on with, "" standing for "none". A `Bearer ` header
   * wins (the cookie is not consulted even if the bearer token is empty); otherwise a
   * non-empty Cookie header is searched.
   */
  function TokenOf(authHeader: Option<string>, cookieHeader: Option<string>): (t: string)
    ensures authHeader.Some? && Text.StartsWith(authHeader.value, BEARER) ==> t == authHeader.value[|BEARER|..]
    ensures !(authHeader.Some? && Text.StartsWith(authHeader.value, BEARER)) && (cookieHeader.None? || cookieHeader.value == "") ==> t == ""
    ensures !(authHeader.Some? && Text.StartsWith(authHeader.value, BEARER)) && cookieHeader.Some? && cookieHeader.value != "" ==>
      t == CookieToken(cookieHeader.value).GetOr("")
  {
    if authHeader.Some? && Text.StartsWith(authHeader.value, BEARER) then Text.DropPrefix(authHeader.value, 7)
    else if cookieHeader.Some? && cookieHeader.value != "" then CookieToken(cookieHeader.value).GetOr("")
    else ""
  }

  /** A bearer header decides alone: its token is the header less its first seven characters. */
  lemma BearerWins(token: string, cookieHeader: Option<string>)
    ensures TokenOf(Some(BEARER + token), cookieHeader) == token
  {
    assert (BEARER + token)[..7] == BEARER;
    assert (BEARER + token)[7..] == token;
  }

  /** The `auth_token=<t>` pair, bare or behind a space, has no ';' when `t` has none. */
  lemma PairHasNoSemicolon(t: string)
    requires ';' !in t
    ensures ';' !in COOKIE_NAME + t && ';' !in " " + COOKIE_NAME + t
  {
    var h := COOKIE_NAME + t;
    assert forall i :: 0 <= i < |COOKIE_NAME| ==> h[i] != ';';
    assert forall i :: |COOKIE_NAME| <= i < |h| ==> h[i] == t[i - |COOKIE_NAME|];
    assert " " + h == [' '] + h;
  }

  /** The pair `auth_token=<t>` yields `t`. */
  lemma PairToken(t: string)
    ensures Text.StartsWith(COOKIE_NAME + t, COOKIE_NAME)
    ensures Text.DropPrefix(COOKIE_NAME + t, 11) == t
  {
    assert (COOKIE_NAME + t)[..|COOKIE_NAME|] == COOKIE_NAME;
    assert (COOKIE_NAME + t)[11..] == t;
  }

  /** A cookie `auth_token=<t>` alone yields `t`, for a `t` without ';' or outer white space. */
  lemma {:induction false} CookieAlone(t: string, authHeader: Option<string>)
    requires ';' !in t && Text.IsTrimmed(Text.JsSpace, t)
    requires authHeader.None? || !Text.StartsWith(authHeader.value, BEARER)
    ensures TokenOf(authHeader, Some(COOKIE_NAME + t)) == t
  {
    CookiePairToken(t);
    CookieDecides(authHeader, COOKIE_NAME + t, t);
  }

  /** Without a bearer header, a non-empty Cookie header's token is the middleware's. */
  lemma CookieDecides(authHeader: Option<string>, h: string, t: string)
    requires authHeader.None? || !Text.StartsWith(authHeader.value, BEARER)
    requires h != "" && CookieToken(h) == Some(t)
    ensures TokenOf(authHeader, Some(h)) == t
  {
  }

  /** The header `auth_token=<t>` is one pair, whose token is `t`. */
  lemma CookiePairToken(t: string)
    requires ';' !in t && Text.IsTrimmed(Text.JsSpace, t)
    ensures CookieToken(COOKIE_NAME + t) == Some(t)
  {
    var h := COOKIE_NAME + t;
    SinglePair(t);
    PairToken(t);
    assert FindPrefixed(CookiePairs(h), COOKIE_NAME) == Some(0);
  }

  lemma SinglePair(t: string)
    requires ';' !in t && Text.IsTrimmed(Text.JsSpace, t)
    ensures CookiePairs(COOKIE_NAME + t) == [COOKIE_NAME + t]
  {
    PairHasNoSemicolon(t);
    TrimLeadingBlank(t);
    OnePair(COOKIE_NAME + t);
  }

  /** A trimmed header without ';' is a single pair. */
  lemma OnePair(h: string)
    requires ';' !in h && TrimJs(h) == h
    ensures CookiePairs(h) == [h]
  {
    Text.SplitNoSep(h, ';');
  }

  /** A pair is trimmed, and one leading blank is trimmed off it. */
  lemma TrimLeadingBlank(t: string)
    requires Text.IsTrimmed(Text.JsSpace, t)
    ensures TrimJs(COOKIE_NAME + t) == COOKIE_NAME + t
    ensures TrimJs(" " + COOKIE_NAME + t) == COOKIE_NAME + t
  {
    var pair := COOKIE_NAME + t;
    TrimmedJoin(COOKIE_NAME, t);
    BlankThenTrimmed(pair);
    assert " " + COOKIE_NAME + t == [' '] + pair;
  }

  /** A trimmed non-empty string is its own trim, and so is the same string behind one blank. */
  lemma BlankThenTrimmed(pair: string)
    requires pair != [] && Text.IsTrimmed(Text.JsSpace, pair)
    ensures TrimJs(pair) == pair
    ensures TrimJs([' '] + pair) == pair
  {
    assert Text.TrimStart(Text.JsSpace, pair) == pair;
    assert Text.TrimEnd(Text.JsSpace, pair) == pair;
    var spaced := [' '] + pair;
    assert spaced[0] == ' ' && spaced[1..] == pair;
    assert Text.IsSpace(Text.JsSpace, ' ');
  }

  /** Two trimmed strings, the first non-empty, join into a trimmed string. */
  lemma TrimmedJoin(a: string, b: string)
    requires a != [] && Text.IsTrimmed(Text.JsSpace, a) && Text.IsTrimmed(Text.JsSpace, b)
    ensures Text.IsTrimmed(Text.JsSpace, a + b)
  {
    if b != [] {
      assert (a + b)[|a + b| - 1] == b[|b| - 1];
    }
  }

  lemma SplitBehindOther(other: string, t: string)
    requires ';' !in other && ';' !in t
    ensures Text.Split(other + "; " + COOKIE_NAME + t, ';') == [other, " " + COOKIE_NAME + t]
  {
    var rest := " " + COOKIE_NAME + t;
    assert other + "; " + COOKIE_NAME + t == other + [';'] + rest;
    PairHasNoSemicolon(t);
    Text.SplitCons(other, rest, ';');
    Text.SplitNoSep(rest, ';');
  }

  /** The token comes from the second pair when the first is not an `auth_token` pair. */
  lemma SecondPairToken(header: string, first: string, second: string)
    requires Text.Split(header, ';') == [first, second]
    requires !Text.StartsWith(TrimJs(first), COOKIE_NAME) && Text.StartsWith(TrimJs(second), COOKIE_NAME)
    ensures CookieToken(header) == Some(Text.DropPrefix(TrimJs(second), 11))
  {
    var pairs := CookiePairs(header);
    assert pairs[0] == TrimJs(first) && pairs[1] == TrimJs(second);
    assert FindPrefixed(pairs, COOKIE_NAME) == Some(1);
  }

  /** A later `auth_token` pair is found behind another cookie. */
  lemma {:induction false} CookieBehindOther(other: string, t: string)
    requires ';' !in other && ';' !in t && Text.IsTrimmed(Text.JsSpace, t)
    requires !Text.StartsWith(TrimJs(other), COOKIE_NAME)
    ensures CookieToken(other + "; " + COOKIE_NAME + t) == Some(t)
  {
    SplitBehindOther(other, t);
    TrimLeadingBlank(t);
    PairToken(t);
    SecondPairToken(other + "; " + COOKIE_NAME + t, other, " " + COOKIE_NAME + t);
  }

  /** `SESSION_SECRET || 'default_secret_change_in_production'`. */
  function Secret(env: Option<string>): (s: string)
    ensures env.Some? && env.value != "" ==> s == env.value
    ensures env.None? || env.value == "" ==> s == "default_secret_change_in_production"
  {
    if env.Some? && env.value != "" then env.value else "default_secret_change_in_production"
  }

  // ---------------------------------------------------------------- middleware

  /** The request object the middleware annotates. */
  class Request {
    var user: Option<Claims>

    constructor ()
      ensures user.None?
    {
      user := None;
    }
  }

  datatype Denial = Denial(status: int, error: string)

  /**
   * `authMiddleware`: None lets the request through with `request.user` set to the
   * verified claims; otherwise a 401 whose message says whether a token was missing
   * or rejected, and the request is left alone.
   */
  method Authenticate(req: Request, authHeader: Option<string>, cookieHeader: Option<string>,
                      secretEnv: Option<string>, nowMs: nat,
                      verify: (string, string, string) -> bool, decode: string -> Option<Claims>,
                      toNumber: string -> Option<int>) returns (denial: Option<Denial>)
    modifies req
    ensures TokenOf(authHeader, cookieHeader) == "" ==>
      denial == Some(Denial(401, "Unauthorized")) && req.user == old(req.user)
    ensures TokenOf(authHeader, cookieHeader) != "" ==>
      var v := VerifyJwt(TokenOf(authHeader, cookieHeader), Secret(secretEnv), nowMs, verify, decode, toNumber);
      && (v.Err? ==> denial == Some(Denial(401, "Invalid or expired token")) && req.user == old(req.user))
      && (v.Ok? ==> denial == None && req.user == Some(v.value))
  {
    var token: Option<string> := None;
    if authHeader.Some? && Text.StartsWith(authHeader.value, BEARER) {
      token := Some(Text.DropPrefix(authHeader.value, 7));
    } else if cookieHeader.Some? && cookieHeader.value != "" {
      var pairs := CookiePairs(cookieHeader.value);
      var found := FindPrefixed(pairs, COOKIE_NAME);
      if found.Some? {
        token := Some(Text.DropPrefix(pairs[found.value], 11));
      }
    }
    if token.None? || token.value == "" {
      return Some(Denial(401, "Unauthorized"));
    }
    var verified := VerifyJwt(token.value, Secret(secretEnv), nowMs, verify, decode, toNumber);
    if verified.Err? {
      return Some(Denial(401, "Invalid or expired token"));
    }
    req.user := Some(verified.value);
    denial := None;
  }
}
