/**
 * Login and logout of the Workers backend: the SHA-256 hex prefix check that stands in
 * for a password hash comparison, the decision ladder of `login`, and the cookies both
 * routes set. SHA-256 itself is a parameter `digest`.
 */
module AuthRoutes {
  import opened Wrappers
  import Js
  import Text
  import JwtAuth
  import Seqs

  // ---------------------------------------------------------------- hex

  type Byte = b: nat | b < 256

  function HexDigit(d: nat): (c: char)
    requires d < 16
  {
    if d < 10 then ('0' as int + d) as char else ('a' as int + d - 10) as char
  }

  predicate IsHexChar(c: char) {
    ('0' <= c <= '9') || ('a' <= c <= 'f')
  }

  function HexValue(c: char): nat
    requires IsHexChar(c)
  {
    if c <= '9' then c as int - '0' as int else c as int - 'a' as int + 10
  }

  /** `b.toString(16).padStart(2, '0')`. */
  function HexByte(b: Byte): (s: string)
    ensures |s| == 2 && IsHexChar(s[0]) && IsHexChar(s[1])
    ensures HexValue(s[0]) * 16 + HexValue(s[1]) == b
  {
    [HexDigit(b / 16), HexDigit(b % 16)]
  }

  /** `bytes.map(b => b.toString(16).padStart(2, '0')).join('')`. */
  function Hex(bytes: seq<Byte>): (s: string)
    ensures |s| == 2 * |bytes|
    ensures forall i :: 0 <= i < |s| ==> IsHexChar(s[i])
  {
    if bytes == [] then "" else HexByte(bytes[0]) + Hex(bytes[1..])
  }

  /** Reading two hex digits at a time. */
  function Unhex(s: string): seq<Byte>
    requires |s| % 2 == 0
    requires forall i :: 0 <= i < |s| ==> IsHexChar(s[i])
  {
    if s == [] then [] else
      var b := HexValue(s[0]) * 16 + HexValue(s[1]);
      [b as Byte] + Unhex(s[2..])
  }

  /** The hex form loses nothing: every byte comes back from its two digits. */
  lemma {:induction false} UnhexHex(bytes: seq<Byte>)
    ensures Unhex(Hex(bytes)) == bytes
  {
    if bytes != [] {
      var s := Hex(bytes);
      assert s[2..] == Hex(bytes[1..]);
      UnhexHex(bytes[1..]);
    }
  }

  // ---------------------------------------------------------------- password check

  /**
   * `hash.includes(hashHex.substring(0, 16))`: for a digest of at least eight bytes (SHA-256
   * gives 32), the check passes exactly when some 16 characters of the stored hash are
   * lower-case hex spelling the digest's first eight bytes.
   */
  predicate ComparePassword(password: Js.Value, hash: string, digest: Js.Value -> seq<Byte>): (ok: bool)
    ensures |digest(password)| >= 8 ==>
      (ok <==> exists i: nat :: SpellsAt(hash, digest(password)[..8], i))
  {
    ComparePasswordDecodes(hash, digest(password));
    Text.Contains(hash, Text.Prefix(Hex(digest(password)), 16))
  }

  /** The stored text at `i` spells `bytes` in hex. */
  predicate SpellsAt(hash: string, bytes: seq<Byte>, i: nat) {
    i + 2 * |bytes| <= |hash| && SpellsBytes(hash[i..i + 2 * |bytes|], bytes)
  }

  /** `s` is lower-case hex, two digits per byte, spelling `bytes`. */
  predicate SpellsBytes(s: string, bytes: seq<Byte>) {
    |s| == 2 * |bytes| && (forall k :: 0 <= k < |s| ==> IsHexChar(s[k])) && Unhex(s) == bytes
  }

  lemma ComparePasswordDecodes(hash: string, d: seq<Byte>)
    ensures |d| >= 8 ==>
      (Text.Contains(hash, Text.Prefix(Hex(d), 16)) <==>
       exists i: nat :: SpellsAt(hash, d[..8], i))
  {
    if |d| < 8 {
      return;
    }
    var p := Text.Prefix(Hex(d), 16);
    HexPrefix(d, 8);
    assert p == Hex(d[..8]);
    UnhexHex(d[..8]);
    if Text.Contains(hash, p) {
      var i: nat :| i <= |hash| && Text.OccursAt(hash, p, i);
      assert hash[i..i + 16] == p;
      assert SpellsAt(hash, d[..8], i);
    }
    if exists i: nat :: SpellsAt(hash, d[..8], i) {
      var i: nat :| SpellsAt(hash, d[..8], i);
      HexUnhex(hash[i..i + 16]);
      assert Text.OccursAt(hash, p, i);
    }
  }

  /** The hex of the first `k` bytes is the first `2k` digits of the hex. */
  lemma {:induction false} HexPrefix(bytes: seq<Byte>, k: nat)
    requires k <= |bytes|
    ensures Hex(bytes)[..2 * k] == Hex(bytes[..k])
  {
    if k > 0 {
      HexPrefix(bytes[1..], k - 1);
      assert bytes[..k][1..] == bytes[1..][..k - 1];
      assert Hex(bytes) == HexByte(bytes[0]) + Hex(bytes[1..]);
      assert Hex(bytes[..k]) == HexByte(bytes[0]) + Hex(bytes[1..][..k - 1]);
    }
  }

  /** Lower-case hex comes back unchanged from its bytes. */
  lemma {:induction false} HexUnhex(s: string)
    requires |s| % 2 == 0
    requires forall i :: 0 <= i < |s| ==> IsHexChar(s[i])
    ensures Hex(Unhex(s)) == s
    decreases |s|
  {
    if s != [] {
      HexUnhex(s[2..]);
      var b := HexValue(s[0]) * 16 + HexValue(s[1]);
      HexDigitValue(s[0]);
      HexDigitValue(s[1]);
      assert b / 16 == HexValue(s[0]) && b % 16 == HexValue(s[1]);
      assert HexByte(b as Byte) == [s[0], s[1]];
      assert Unhex(s) == [b as Byte] + Unhex(s[2..]);
      assert Unhex(s)[1..] == Unhex(s[2..]);
      assert s == [s[0], s[1]] + s[2..];
    }
  }

  lemma HexDigitValue(c: char)
    requires IsHexChar(c)
    ensures HexValue(c) < 16 && HexDigit(HexValue(c)) == c
  {
  }

  /** A stored value that holds the hex digest of the password, anywhere, passes the check. */
  lemma {:induction false} StoredDigestPasses(password: Js.Value, before: string, after: string, digest: Js.Value -> seq<Byte>)
    ensures ComparePassword(password, before + Hex(digest(password)) + after, digest)
  {
    var hex := Hex(digest(password));
    var p := Text.Prefix(hex, 16);
    var hash := before + hex + after;
    assert hash[|before|..|before| + |p|] == p;
    assert Text.OccursAt(hash, p, |before|);
  }

  // ---------------------------------------------------------------- login

  datatype User = User(id: nat, username: string, password: string)

  /** `SELECT * FROM users WHERE username = ?` then `.first()`. */
  function FindUser(users: seq<User>, username: Js.Value): (r: Option<User>)
    ensures r.Some? ==> r.value in users && Js.Str(r.value.username) == username
    ensures r.None? <==> forall i :: 0 <= i < |users| ==> Js.Str(users[i].username) != username
  {
    if users == [] then None
    else if Js.Str(users[0].username) == username then Some(users[0])
    else FindUser(users[1..], username)
  }

  const TOKEN_LIFETIME := 86400

  /** The cookie `login` sets around the new token. */
  function LoginCookie(token: string): string {
    "auth_token=" + token + ";" + LOGIN_ATTRIBUTES
  }

  const LOGIN_ATTRIBUTES := " HttpOnly; Secure; SameSite=Strict; Max-Age=86400; Path=/"

  /** The cookie `logout` sets: an empty token that expires at once. */
  const LOGOUT_COOKIE := "auth_token=" + ";" + LOGOUT_ATTRIBUTES
  const LOGOUT_ATTRIBUTES := " HttpOnly; Secure; SameSite=Strict; Max-Age=0; Path=/"

  /** The `username` and `password` fields of the JSON body. */
  datatype LoginBody = LoginBody(username: Js.Value, password: Js.Value)

  datatype LoginResult =
    | ServerError
    | MissingFields
    | InvalidCredentials
    | LoggedIn(token: string, userId: nat, username: string, setCookie: string)

  function Status(r: LoginResult): int {
    match r
    case ServerError => 500
    case MissingFields => 400
    case InvalidCredentials => 401
    case LoggedIn(_, _, _, _) => 200
  }

  function Message(r: LoginResult): string {
    match r
    case ServerError => "Server error"
    case MissingFields => "Username and password required"
    case InvalidCredentials => "Invalid credentials"
    case LoggedIn(_, _, _, _) => ""
  }

  /** The JWT helpers `login` calls, all outside the model. */
  datatype Crypto = Crypto(
    digest: Js.Value -> seq<Byte>,
    stringify: JwtAuth.Claims -> string,
    btoa: string -> string,
    sign: (string, string) -> string)

  predicate IsDefaultAdmin(username: Js.Value, password: Js.Value) {
    password == Js.Str("admin123") && username == Js.Str("admin")
  }

  /** The claims `login` signs for a user. */
  function UserClaims(id: nat, username: string): JwtAuth.Claims {
    map["userId" := Js.Num(id), "username" := Js.Str(username)]
  }

  /**
   * `login`: 500 when the body is not valid JSON or is `null`, so that destructuring it
   * throws (`body` is None); any other JSON value gives its `username` and `password`
   * properties, `undefined` for a number, string, boolean or array; 400 without a
   * username or password; 401 for an unknown user; 401 when the hash check fails, unless
   * the pair is exactly ('admin', 'admin123'); otherwise a token for `{userId, username}`
   * valid for a day, in the body and in the cookie.
   */
  function Login(body: Option<LoginBody>, users: seq<User>, secretEnv: Option<string>,
                 nowMs: nat, crypto: Crypto): (r: LoginResult)
    ensures r == ServerError <==> body.None?
    ensures r == MissingFields <==> body.Some? && (!Js.Truthy(body.value.username) || !Js.Truthy(body.value.password))
    ensures r.LoggedIn? <==>
      && body.Some? && Js.Truthy(body.value.username) && Js.Truthy(body.value.password)
      && FindUser(users, body.value.username).Some?
      && (ComparePassword(body.value.password, FindUser(users, body.value.username).value.password, crypto.digest)
          || IsDefaultAdmin(body.value.username, body.value.password))
    ensures r.LoggedIn? ==>
      && r.userId == FindUser(users, body.value.username).value.id
      && r.username == FindUser(users, body.value.username).value.username
      && r.token == JwtAuth.CreateJwt(UserClaims(r.userId, r.username), JwtAuth.Secret(secretEnv), nowMs, TOKEN_LIFETIME,
                                      crypto.stringify, crypto.btoa, crypto.sign)
      && r.setCookie == LoginCookie(r.token)
  {
    match body
    case None => ServerError
    case Some(LoginBody(username, password)) =>
      if !Js.Truthy(username) || !Js.Truthy(password) then MissingFields
      else match FindUser(users, username)
        case None => InvalidCredentials
        case Some(user) =>
          if !ComparePassword(password, user.password, crypto.digest) && !IsDefaultAdmin(username, password) then
            InvalidCredentials
          else
            var token := JwtAuth.CreateJwt(UserClaims(user.id, user.username), JwtAuth.Secret(secretEnv), nowMs,
                                           TOKEN_LIFETIME, crypto.stringify, crypto.btoa, crypto.sign);
            LoggedIn(token, user.id, user.username, LoginCookie(token))
  }

  /** A JSON body without the two properties (a number, a string, `true`, `[]`) is answered 400, not 500. */
  lemma PropertylessBodyMissingFields(users: seq<User>, secretEnv: Option<string>, nowMs: nat, crypto: Crypto)
    ensures Login(Some(LoginBody(Js.Undefined, Js.Undefined)), users, secretEnv, nowMs, crypto) == MissingFields
    ensures Status(MissingFields) == 400 && Message(MissingFields) == "Username and password required"
  {
  }

  /**
   * The token `login` hands out is accepted by the middleware, with the same secret, for
   * 24 hours (up to the `exp` second `iat + 86400`) and yields the claims signed for the
   * user who logged in; after that it is refused as expired.
   */
  lemma {:induction false} LoginTokenLasts24Hours(body: Option<LoginBody>, users: seq<User>, secretEnv: Option<string>,
                                                  nowMs: nat, crypto: Crypto, laterMs: nat,
                                                  verify: (string, string, string) -> bool,
                                                  decode: string -> Option<JwtAuth.Claims>,
                                                  toNumber: string -> Option<int>)
    requires Login(body, users, secretEnv, nowMs, crypto).LoggedIn?
    requires forall s :: JwtAuth.IsBase64(crypto.btoa(s))
    requires forall k, d :: JwtAuth.IsBase64(crypto.sign(k, d))
    requires forall k, d :: verify(k, d, Seqs.Filter(crypto.sign(k, d), JwtAuth.NotPad))
    requires forall c :: decode(Seqs.Filter(crypto.btoa(crypto.stringify(c)), JwtAuth.NotPad)) == Some(c)
    ensures var r := Login(body, users, secretEnv, nowMs, crypto);
      var v := JwtAuth.VerifyJwt(r.token, JwtAuth.Secret(secretEnv), laterMs, verify, decode, toNumber);
      v == if laterMs <= (nowMs / 1000 + TOKEN_LIFETIME) * 1000
           then Ok(JwtAuth.CreateClaims(UserClaims(r.userId, r.username), nowMs, TOKEN_LIFETIME))
           else Err("Token expired")
  {
    var r := Login(body, users, secretEnv, nowMs, crypto);
    UserTokenLifetime(r.userId, r.username, JwtAuth.Secret(secretEnv), nowMs, crypto, laterMs, verify, decode, toNumber);
  }

  /** The lifetime of a token signed over `{userId, username}`, apart from the login ladder. */
  lemma {:induction false} UserTokenLifetime(id: nat, username: string, secret: string, nowMs: nat, crypto: Crypto, laterMs: nat,
                                             verify: (string, string, string) -> bool,
                                             decode: string -> Option<JwtAuth.Claims>,
                                             toNumber: string -> Option<int>)
    requires forall s :: JwtAuth.IsBase64(crypto.btoa(s))
    requires forall k, d :: JwtAuth.IsBase64(crypto.sign(k, d))
    requires forall k, d :: verify(k, d, Seqs.Filter(crypto.sign(k, d), JwtAuth.NotPad))
    requires forall c :: decode(Seqs.Filter(crypto.btoa(crypto.stringify(c)), JwtAuth.NotPad)) == Some(c)
    ensures var token := JwtAuth.CreateJwt(UserClaims(id, username), secret, nowMs, TOKEN_LIFETIME,
                                           crypto.stringify, crypto.btoa, crypto.sign);
      JwtAuth.VerifyJwt(token, secret, laterMs, verify, decode, toNumber)
        == if laterMs <= (nowMs / 1000 + TOKEN_LIFETIME) * 1000
           then Ok(JwtAuth.CreateClaims(UserClaims(id, username), nowMs, TOKEN_LIFETIME))
           else Err("Token expired")
  {
    JwtAuth.CreateThenVerify(UserClaims(id, username), secret, nowMs, TOKEN_LIFETIME, laterMs,
                             crypto.stringify, crypto.btoa, crypto.sign, verify, decode, toNumber);
  }

  /** Stamping `iat` and `exp` keeps the user's id and name, so the verified claims name the user who logged in. */
  lemma UserClaimsKept(id: nat, username: string, nowMs: nat)
    ensures var made := JwtAuth.CreateClaims(UserClaims(id, username), nowMs, TOKEN_LIFETIME);
      made["userId"] == Js.Num(id) && made["username"] == Js.Str(username)
  {
  }

  /** The default pair never gets past an unknown user: the fallback only overrides the hash check. */
  lemma DefaultAdminNeedsUser(users: seq<User>, secretEnv: Option<string>, nowMs: nat, crypto: Crypto)
    requires forall i :: 0 <= i < |users| ==> users[i].username != "admin"
    ensures Login(Some(LoginBody(Js.Str("admin"), Js.Str("admin123"))), users, secretEnv, nowMs, crypto) == InvalidCredentials
  {
  }

  // ---------------------------------------------------------------- cookies against the middleware

  lemma {:induction false} TokenCharsAreSafe(token: string)
    requires forall i :: 0 <= i < |token| ==> JwtAuth.IsBase64UrlChar(token[i]) || token[i] == '.'
    ensures ';' !in token && Text.IsTrimmed(Text.JsSpace, token)
  {
  }

  /** The first `;`-separated part of the login cookie is `auth_token=<token>`: the pair a browser sends back. */
  lemma {:induction false} LoginCookiePair(token: string)
    requires ';' !in token
    ensures Text.Split(LoginCookie(token), ';')[0] == "auth_token=" + token
  {
    JwtAuth.PairHasNoSemicolon(token);
    assert LoginCookie(token) == ("auth_token=" + token) + [';'] + LOGIN_ATTRIBUTES;
    Text.SplitCons("auth_token=" + token, LOGIN_ATTRIBUTES, ';');
  }

  /** Sent back as a cookie, a token made of base64url segments is what the middleware extracts. */
  lemma LoginCookieAuthenticates(token: string)
    requires forall i :: 0 <= i < |token| ==> JwtAuth.IsBase64UrlChar(token[i]) || token[i] == '.'
    ensures JwtAuth.TokenOf(None, Some(Text.Split(LoginCookie(token), ';')[0])) == token
  {
    TokenCharsAreSafe(token);
    LoginCookiePair(token);
    JwtAuth.CookieAlone(token, None);
  }

  /** The logout cookie carries an empty token, so a request that still sends it is refused as unauthorized. */
  lemma {:induction false} LogoutCookieUnauthorized()
    ensures Text.Split(LOGOUT_COOKIE, ';')[0] == "auth_token="
    ensures JwtAuth.TokenOf(None, Some("auth_token=")) == ""
  {
    assert LOGOUT_COOKIE == "auth_token=" + [';'] + LOGOUT_ATTRIBUTES;
    Text.SplitCons("auth_token=", LOGOUT_ATTRIBUTES, ';');
    JwtAuth.CookieAlone("", None);
    assert JwtAuth.COOKIE_NAME + "" == "auth_token=";
  }
}
