/** The authentication service: password hashing, access tokens, and the login, logout and
    cookie checks built on them. bcrypt and the JWT codec are modelled by what they promise:
    a hash verifies exactly its own password, and a token decodes to the claims it was signed
    with, under the key and algorithm it was signed with. */
module Auth {
  import opened Wrappers
  import opened Errors
  import opened Entities
  import Repositories
  import Text

  // ---------------------------------------------------------------------------
  // Passwords (passlib's bcrypt context)

  /** bcrypt reads at most this many bytes of a password. */
  const BcryptKeyBytes := 72

  /** The part of a password bcrypt reads: the first 72 bytes of its UTF-8 encoding
      (passlib hands longer secrets over truncated, without an error). */
  function BcryptKey(plain: string): (key: seq<Text.Byte>)
    ensures |key| <= BcryptKeyBytes && key <= Text.Utf8(plain)
    ensures |Text.Utf8(plain)| < BcryptKeyBytes ==> key == Text.Utf8(plain)
    ensures |Text.Utf8(plain)| >= BcryptKeyBytes ==> key == Text.Utf8(plain)[..BcryptKeyBytes]
  {
    var bytes := Text.Utf8(plain);
    if |bytes| <= BcryptKeyBytes then bytes else bytes[..BcryptKeyBytes]
  }

  /** `hash_password`: bcrypt under a fresh salt chosen by the library. */
  function HashPassword(plain: string, salt: string): (h: PasswordHash)
    ensures VerifyPassword(plain, h)
  {
    BcryptHash(salt, BcryptKey(plain))
  }

  /** `_verify_password`: the candidate's key hashed under the stored salt gives the stored
      digest. */
  predicate VerifyPassword(plain: string, h: PasswordHash) {
    BcryptKey(plain) == h.key
  }

  /** Both passwords run to 72 bytes or more and agree on their first 72. */
  predicate AgreeToLimit(a: string, b: string) {
    var x, y := Text.Utf8(a), Text.Utf8(b);
    |x| >= BcryptKeyBytes && |y| >= BcryptKeyBytes && x[..BcryptKeyBytes] == y[..BcryptKeyBytes]
  }

  /** Two passwords with the same key have the same encoding, or both reach the limit and
      agree up to it. */
  lemma SameKey(a: string, b: string)
    requires BcryptKey(a) == BcryptKey(b)
    ensures Text.Utf8(a) == Text.Utf8(b) || AgreeToLimit(a, b)
  {
  }

  /** A hash verifies its own password, and another one exactly when both reach bcrypt's
      72-byte limit and agree up to it; the salt plays no part. */
  lemma HashVerifiesOnlyItsPassword(plain: string, other: string, salt: string)
    ensures VerifyPassword(other, HashPassword(plain, salt)) <==> other == plain || AgreeToLimit(plain, other)
  {
    if VerifyPassword(other, HashPassword(plain, salt)) {
      SameKey(plain, other);
      if Text.Utf8(plain) == Text.Utf8(other) {
        Text.Utf8Injective(plain, other);
      }
    }
  }

  /** So a password shorter than 72 bytes verifies against its hash and nothing else does. */
  lemma ShortPasswordVerifiesOnlyItself(plain: string, other: string, salt: string)
    requires |Text.Utf8(plain)| < BcryptKeyBytes
    ensures VerifyPassword(other, HashPassword(plain, salt)) <==> other == plain
  {
    HashVerifiesOnlyItsPassword(plain, other, salt);
  }

  /** While anything appended to a password of 72 bytes or more verifies against its hash. */
  lemma {:induction false} LongPasswordSharesHash(plain: string, suffix: string, salt: string)
    requires |Text.Utf8(plain)| >= BcryptKeyBytes
    ensures VerifyPassword(plain + suffix, HashPassword(plain, salt))
  {
    Text.Utf8Append(plain, suffix);
    var x := Text.Utf8(plain);
    assert (x + Text.Utf8(suffix))[..BcryptKeyBytes] == x[..BcryptKeyBytes];
  }

  // ---------------------------------------------------------------------------
  // Tokens (python-jose)

  /** A claim value as `json.loads` returns it: a str, an int, a float (finite, NaN or an
      infinity, all of which Python's JSON reader accepts), a bool, None, a list or a dict. */
  datatype Claim =
    | JStr(s: string)
    | JInt(i: int)
    | JFloat(x: real)
    | JNaN
    | JInfinity(negative: bool)
    | JBool(b: bool)
    | JNull
    | JList(items: seq<Claim>)
    | JDict(fields: seq<(string, Claim)>)

  type Claims = map<string, Claim>

  /** A signed token: its claims, the key and the algorithm it was signed with. */
  datatype Jwt = Jwt(claims: Claims, key: string, alg: string)

  /** What a client presents as a token: a signed token, or text that is not one
      (the empty cookie value is `Garbled("")`). */
  datatype Token = Signed(jwt: Jwt) | Garbled(text: string)

  /** `settings.secret_key` and `settings.algorithm`. */
  datatype JwtSettings = JwtSettings(secretKey: string, algorithm: string)

  const MicrosPerSecond := 1_000_000
  /** `timedelta(hours=24)`, in microseconds. */
  const DefaultLifetime := 24 * 3600 * MicrosPerSecond

  /** `expires_delta or timedelta(hours=24)`: a missing or zero delta falls back to a day
      (a timedelta is false exactly when it is zero). Deltas are in microseconds. */
  function Lifetime(delta: Option<int>): (d: int)
    ensures d != 0
    ensures delta.Some? && delta.value != 0 ==> d == delta.value
  {
    if delta.None? || delta.value == 0 then DefaultLifetime else delta.value
  }

  /** The `exp` claim: the expiry instant in whole seconds since the epoch (the codec drops
      the sub-second part of the datetime). `nowMicros` is `datetime.now(timezone.utc)`. */
  function ExpiryClaim(nowMicros: int, delta: Option<int>): int {
    (nowMicros + Lifetime(delta)) / MicrosPerSecond
  }

  /** `create_access_token`: the caller's claims, with `exp` added, signed with the
      configured key and algorithm. */
  function CreateAccessToken(settings: JwtSettings, data: Claims, delta: Option<int>, nowMicros: int): (t: Token)
    ensures t.Signed? && t.jwt.key == settings.secretKey && t.jwt.alg == settings.algorithm
    ensures t.jwt.claims == data["exp" := JInt(ExpiryClaim(nowMicros, delta))]
  {
    Signed(Jwt(data["exp" := JInt(ExpiryClaim(nowMicros, delta))], settings.secretKey, settings.algorithm))
  }

  const InvalidToken := Http(Unauthorized, "Invalid token")
  const ExpiredToken := Http(Unauthorized, "Token has expired")

  /** `int(x)` for a float: the fractional part dropped, toward zero. */
  function Truncate(x: real): (n: int)
    ensures x >= 0.0 ==> n as real <= x < n as real + 1.0
    ensures x < 0.0 ==> n as real - 1.0 < x <= n as real
  {
    if x >= 0.0 then x.Floor else -((-x).Floor)
  }

  function NotANumber(typeName: string): string {
    "int() argument must be a string, a bytes-like object or a real number, not '" + typeName + "'"
  }

  /** Python's `int(value)` on a decoded claim: bools count as 0 and 1, floats are truncated,
      strings are parsed as decimal numerals. */
  function PyInt(c: Claim): (r: Result<int, Exc>)
    ensures c.JInt? ==> r == Ok(c.i)
    ensures c.JStr? ==> (r.Ok? <==> Text.ParseInt(c.s).Some?)
    ensures r.Err? ==> r.error.ValueError? || r.error.TypeError? || r.error.OverflowError?
    ensures r.Err? && r.error.ValueError? <==> c.JNaN? || (c.JStr? && Text.ParseInt(c.s).None?)
    ensures r.Err? && r.error.TypeError? <==> c.JNull? || c.JList? || c.JDict?
  {
    match c
    case JInt(i) => Ok(i)
    case JBool(b) => Ok(if b then 1 else 0)
    case JFloat(x) => Ok(Truncate(x))
    case JNaN => Err(ValueError("cannot convert float NaN to integer"))
    case JInfinity(_) => Err(OverflowError("cannot convert float infinity to integer"))
    case JStr(s) =>
      (match Text.ParseInt(s)
       case Some(n) => Ok(n)
       case None => Err(ValueError("invalid literal for int() with base 10: '" + s + "'")))
    case JNull => Err(TypeError(NotANumber("NoneType")))
    case JList(_) => Err(TypeError(NotANumber("list")))
    case JDict(_) => Err(TypeError(NotANumber("dict")))
  }

  /** `int(claims[name])` for a time claim, None when the claim is absent. The codec turns a
      ValueError into JWTClaimsError, which the service reports as an invalid token; a
      TypeError or OverflowError escapes both. */
  function TimeClaim(claims: Claims, name: string): (r: Result<Option<int>, Exc>)
    ensures r.Ok? <==> name !in claims || PyInt(claims[name]).Ok?
    ensures r.Ok? ==> (r.value.Some? <==> name in claims)
    ensures r.Ok? && name in claims ==> r.value.value == PyInt(claims[name]).value
    ensures r.Err? ==> r.error == InvalidToken || r.error.TypeError? || r.error.OverflowError?
  {
    if name !in claims then Ok(None)
    else match PyInt(claims[name])
      case Ok(n) => Ok(Some(n))
      case Err(e) => Err(if e.ValueError? then InvalidToken else e)
  }

  /** The claims a token may carry and still be accepted at `now` (whole seconds), checked
      all at once: `iat` an integer, `nbf` an integer not after `now`, `exp` an integer not
      before `now`, no `aud` (no audience is expected, so any is refused), `sub` and `jti`
      strings, and no `at_hash` (there is no access token to compare it with). */
  predicate Accepted(claims: Claims, now: int) {
    && ("iat" in claims ==> PyInt(claims["iat"]).Ok?)
    && ("nbf" in claims ==> PyInt(claims["nbf"]).Ok? && PyInt(claims["nbf"]).value <= now)
    && ("exp" in claims ==> PyInt(claims["exp"]).Ok? && PyInt(claims["exp"]).value >= now)
    && "aud" !in claims
    && ("sub" in claims ==> claims["sub"].JStr?)
    && ("jti" in claims ==> claims["jti"].JStr?)
    && "at_hash" !in claims
  }

  /** The codec's claim checks under its default options, in its order (iat, nbf, exp, aud,
      iss, sub, jti, at_hash; iss is not checked without an expected issuer), with the
      service's mapping: None when every check passes, else what `decode_token` raises. */
  function CheckClaims(claims: Claims, now: int): (e: Option<Exc>)
    ensures e.None? <==> Accepted(claims, now)
    ensures e.Some? ==> e.value == InvalidToken || e.value == ExpiredToken
                        || e.value.TypeError? || e.value.OverflowError?
    ensures e == Some(ExpiredToken) ==>
      "exp" in claims && PyInt(claims["exp"]).Ok? && PyInt(claims["exp"]).value < now
  {
    FirstFailure(TimeClaim(claims, "iat"), TimeClaim(claims, "nbf"), TimeClaim(claims, "exp"),
                 CheckOthers(claims), now)
  }

  /** The verdict from the outcomes of the individual checks, taken in order: reading `iat`,
      reading and comparing `nbf`, reading and comparing `exp`, then the others. */
  function FirstFailure(iat: Result<Option<int>, Exc>, nbf: Result<Option<int>, Exc>,
                        exp: Result<Option<int>, Exc>, others: Option<Exc>, now: int): Option<Exc>
  {
    match iat
    case Err(e) => Some(e)
    case Ok(_) =>
      match nbf
      case Err(e) => Some(e)
      case Ok(n) =>
        if n.Some? && n.value > now then Some(InvalidToken)
        else match exp
          case Err(e) => Some(e)
          case Ok(x) =>
            if x.Some? && x.value < now then Some(ExpiredToken)
            else others
  }

  /** The checks after the time claims: `aud` (refused, no audience being expected), `sub`,
      `jti` and `at_hash` (refused, there being no access token); each failure is an invalid
      token. */
  function CheckOthers(claims: Claims): (e: Option<Exc>)
    ensures e.None? <==> "aud" !in claims && "at_hash" !in claims
                         && ("sub" in claims ==> claims["sub"].JStr?)
                         && ("jti" in claims ==> claims["jti"].JStr?)
    ensures e.Some? ==> e.value == InvalidToken
  {
    if "aud" in claims then Some(InvalidToken)
    else if "sub" in claims && !claims["sub"].JStr? then Some(InvalidToken)
    else if "jti" in claims && !claims["jti"].JStr? then Some(InvalidToken)
    else if "at_hash" in claims then Some(InvalidToken)
    else None
  }

  predicate SignedWith(jwt: Jwt, settings: JwtSettings) {
    jwt.key == settings.secretKey && jwt.alg == settings.algorithm
  }

  /** `jwt.decode` followed by `decode_token`'s exception mapping: a token that is not one,
      or not signed with this key and algorithm, is invalid (JWTError); then the claims are
      checked. An expired signature is reported as such, every other JWTError as an invalid
      token; TypeError and OverflowError from `int()` escape. */
  function DecodeToken(settings: JwtSettings, token: Token, nowSeconds: int): (r: Result<Claims, Exc>)
    ensures r.Ok? <==> token.Signed? && SignedWith(token.jwt, settings) && Accepted(token.jwt.claims, nowSeconds)
    ensures r.Ok? ==> r.value == token.jwt.claims
    ensures r.Ok? ==> "sub" in r.value ==> r.value["sub"].JStr?
    ensures r.Err? ==> r.error == InvalidToken || r.error == ExpiredToken
                       || r.error.TypeError? || r.error.OverflowError?
    ensures r.Err? && r.error != InvalidToken ==> token.Signed? && SignedWith(token.jwt, settings)
  {
    match token
    case Garbled(_) => Err(InvalidToken)
    case Signed(jwt) =>
      if !SignedWith(jwt, settings) then Err(InvalidToken)
      else match CheckClaims(jwt.claims, nowSeconds)
        case Some(e) => Err(e)
        case None => Ok(jwt.claims)
  }

  /** A token made from claims that pass every check but the expiry decodes, up to its
      expiry second included, to those claims plus `exp`, and is refused as expired after. */
  lemma TokenRoundTrip(settings: JwtSettings, data: Claims, delta: Option<int>, nowMicros: int, nowSeconds: int)
    requires Accepted(data - {"exp"}, nowSeconds)
    ensures DecodeToken(settings, CreateAccessToken(settings, data, delta, nowMicros), nowSeconds)
         == if nowSeconds <= ExpiryClaim(nowMicros, delta)
            then Ok(data["exp" := JInt(ExpiryClaim(nowMicros, delta))])
            else Err(ExpiredToken)
  {
    var claims := data["exp" := JInt(ExpiryClaim(nowMicros, delta))];
    forall k | k != "exp" ensures (k in claims <==> k in data - {"exp"}) && (k in claims ==> claims[k] == data[k]) {
    }
    assert "iat" in claims ==> claims["iat"] == (data - {"exp"})["iat"];
    assert "nbf" in claims ==> claims["nbf"] == (data - {"exp"})["nbf"];
  }

  /** And it decodes at all exactly then: claims that fail another check spoil the token. */
  lemma TokenAcceptedIff(settings: JwtSettings, data: Claims, delta: Option<int>, nowMicros: int, nowSeconds: int)
    ensures DecodeToken(settings, CreateAccessToken(settings, data, delta, nowMicros), nowSeconds).Ok?
        <==> Accepted(data - {"exp"}, nowSeconds) && nowSeconds <= ExpiryClaim(nowMicros, delta)
  {
    var claims := data["exp" := JInt(ExpiryClaim(nowMicros, delta))];
    var rest := data - {"exp"};
    assert forall k :: k != "exp" ==> (k in claims <==> k in rest);
    assert forall k :: k != "exp" && k in rest ==> claims[k] == rest[k];
  }

  /** The time claims go first: once `iat` and `nbf` pass, a token past its expiry second is
      refused as expired whatever its other claims. */
  lemma TokenExpires(settings: JwtSettings, data: Claims, delta: Option<int>, nowMicros: int, nowSeconds: int)
    requires "iat" in data ==> PyInt(data["iat"]).Ok?
    requires "nbf" in data ==> PyInt(data["nbf"]).Ok? && PyInt(data["nbf"]).value <= nowSeconds
    requires nowSeconds > ExpiryClaim(nowMicros, delta)
    ensures DecodeToken(settings, CreateAccessToken(settings, data, delta, nowMicros), nowSeconds) == Err(ExpiredToken)
  {
    var claims := data["exp" := JInt(ExpiryClaim(nowMicros, delta))];
    assert "iat" in claims ==> claims["iat"] == data["iat"];
    assert "nbf" in claims ==> claims["nbf"] == data["nbf"];
  }

  /** Two decodings that accept together and otherwise fail with the same error. */
  predicate SameVerdict(r1: Result<Claims, Exc>, r2: Result<Claims, Exc>) {
    r1.Ok? == r2.Ok? && (r1.Err? ==> r1.error == r2.error)
  }

  /** `int()` reads a numeral string as a number, so `exp` given as "1700000000" acts like
      the integer. */
  lemma CoercedExpiry(settings: JwtSettings, jwt: Jwt, n: int, nowSeconds: int)
    ensures var asText := Jwt(jwt.claims["exp" := JStr(Text.IntToString(n))], jwt.key, jwt.alg);
            var asInt := Jwt(jwt.claims["exp" := JInt(n)], jwt.key, jwt.alg);
            SameVerdict(DecodeToken(settings, Signed(asText), nowSeconds), DecodeToken(settings, Signed(asInt), nowSeconds))
  {
    assert PyInt(JStr(Text.IntToString(n))) == Ok(n) by {
      Text.ParseIntOfString(n);
    }
    ExpiryReadAsInt(jwt.claims, JStr(Text.IntToString(n)), JInt(n), nowSeconds);
  }

  /** And a bool as 0 or 1: `exp: true` is the instant 1. */
  lemma BoolExpiry(settings: JwtSettings, jwt: Jwt, nowSeconds: int)
    ensures var asBool := Jwt(jwt.claims["exp" := JBool(true)], jwt.key, jwt.alg);
            var asOne := Jwt(jwt.claims["exp" := JInt(1)], jwt.key, jwt.alg);
            SameVerdict(DecodeToken(settings, Signed(asBool), nowSeconds), DecodeToken(settings, Signed(asOne), nowSeconds))
  {
    ExpiryReadAsInt(jwt.claims, JBool(true), JInt(1), nowSeconds);
  }

  /** Only the integer `int()` makes of `exp` matters to the checks. */
  lemma ExpiryReadAsInt(claims: Claims, c1: Claim, c2: Claim, nowSeconds: int)
    requires PyInt(c1) == PyInt(c2)
    ensures CheckClaims(claims["exp" := c1], nowSeconds) == CheckClaims(claims["exp" := c2], nowSeconds)
  {
    var m1, m2 := claims["exp" := c1], claims["exp" := c2];
    assert TimeClaim(m1, "iat") == TimeClaim(m2, "iat");
    assert TimeClaim(m1, "nbf") == TimeClaim(m2, "nbf");
    assert TimeClaim(m1, "exp") == TimeClaim(m2, "exp");
    assert CheckOthers(m1) == CheckOthers(m2) by {
      assert forall k :: k != "exp" ==> (k in m1 <==> k in m2) && (k in m1 ==> m1[k] == m2[k]);
    }
  }

  /** A null `exp` makes `int()` raise TypeError, which neither the codec nor the service
      catches. */
  lemma NullExpiryEscapes(settings: JwtSettings, jwt: Jwt, nowSeconds: int)
    requires SignedWith(jwt, settings) && "iat" !in jwt.claims && "nbf" !in jwt.claims
    requires "exp" in jwt.claims && jwt.claims["exp"] == JNull
    ensures DecodeToken(settings, Signed(jwt), nowSeconds) == Err(TypeError(NotANumber("NoneType")))
  {
  }

  /** An `iat` that is not an integer numeral spoils the token before its expiry is looked at. */
  lemma IatCheckedFirst(settings: JwtSettings, jwt: Jwt, text: string, nowSeconds: int)
    requires SignedWith(jwt, settings) && Text.ParseInt(text).None?
    ensures DecodeToken(settings, Signed(Jwt(jwt.claims["iat" := JStr(text)], jwt.key, jwt.alg)), nowSeconds)
         == Err(InvalidToken)
  {
  }

  /** Without a delta the token stays valid for exactly 86400 seconds after the second it
      was issued in. */
  lemma DefaultExpiry(nowMicros: int)
    ensures ExpiryClaim(nowMicros, None) == nowMicros / MicrosPerSecond + 86400
  {
    assert nowMicros + DefaultLifetime == (nowMicros / MicrosPerSecond + 86400) * MicrosPerSecond
                                          + nowMicros % MicrosPerSecond;
  }

  /** A token signed under another key or algorithm is invalid at any time. */
  lemma ForeignTokenInvalid(settings: JwtSettings, jwt: Jwt, nowSeconds: int)
    requires !SignedWith(jwt, settings)
    ensures DecodeToken(settings, Signed(jwt), nowSeconds) == Err(InvalidToken)
  {
  }

  // ---------------------------------------------------------------------------
  // Cookies

  /** A Set-Cookie header written on the response: `set_cookie(...)` or `delete_cookie(key)`. */
  datatype CookieDirective =
    | SetCookie(key: string, value: Token, maxAge: int, httpOnly: bool, secure: bool, sameSite: string)
    | DeleteCookie(key: string)

  /** The outgoing response's cookie headers, in the order they were written. */
  class Response {
    var cookies: seq<CookieDirective>

    constructor ()
      ensures cookies == []
    {
      cookies := [];
    }
  }

  /** `int(delta.total_seconds())`: whole seconds, truncated toward zero. */
  function WholeSeconds(micros: int): (s: int)
    ensures micros >= 0 ==> s == micros / MicrosPerSecond
    ensures micros < 0 ==> s == -((-micros) / MicrosPerSecond)
  {
    if micros >= 0 then micros / MicrosPerSecond else -((-micros) / MicrosPerSecond)
  }

  /** The request's cookie value, when present and non-empty (`if not token`). */
  function PresentToken(cookies: map<string, Token>, name: string): (r: Option<Token>)
    ensures r.Some? <==> name in cookies && cookies[name] != Garbled("")
    ensures r.Some? ==> r.value == cookies[name]
  {
    if name in cookies && cookies[name] != Garbled("") then Some(cookies[name]) else None
  }

  const TokenNotFound := Http(Unauthorized, "Token not found in cookies")

  /** `verify_token_cookie`: 401 "Token not found in cookies" when the cookie is missing or
      empty, the decoded claims or the decoding error otherwise. */
  function VerifyTokenCookie(settings: JwtSettings, cookies: map<string, Token>, tokenName: string, nowSeconds: int)
    : (r: Result<Claims, Exc>)
    ensures PresentToken(cookies, tokenName).None? ==> r == Err(TokenNotFound)
    ensures PresentToken(cookies, tokenName).Some? ==>
      r == DecodeToken(settings, cookies[tokenName], nowSeconds)
  {
    match PresentToken(cookies, tokenName)
    case None => Err(TokenNotFound)
    case Some(t) => DecodeToken(settings, t, nowSeconds)
  }

  // ---------------------------------------------------------------------------
  // The service object

  /** `authenticate_user`'s outcome: the user with that name whose hash verifies the
      password, or None. */
  function Authenticated(users: seq<User>, username: string, password: string): (r: Option<User>)
    ensures r.Some? ==> r.value in users && r.value.username == username
                        && VerifyPassword(password, r.value.password)
  {
    match Repositories.UserByUsername(users, username)
    case None => None
    case Some(u) => if VerifyPassword(password, u.password) then Some(u) else None
  }

  /** With unique usernames, authentication fails exactly when no user has that name or the
      password does not verify against that user's hash. */
  lemma AuthenticatedIff(users: seq<User>, username: string, password: string)
    requires Repositories.UsernamesUnique(users)
    ensures Authenticated(users, username, password).None? <==>
      forall u :: u in users && u.username == username ==> !VerifyPassword(password, u.password)
  {
    Repositories.UserByUsernameUnique(users, username);
  }

  const BadCredentials := HttpException(Unauthorized, "Invalid username or password", [("WWW-Authenticate", "Bearer")])

  class AuthService {
    const settings: JwtSettings
    /** The `users` table as seen through the service's session. */
    const users: seq<User>
    /** How many times the service's session has been closed. */
    var sessionCloses: nat

    constructor (settings: JwtSettings, users: seq<User>)
      ensures this.settings == settings && this.users == users && sessionCloses == 0
    {
      this.settings := settings;
      this.users := users;
      sessionCloses := 0;
    }

    /** `authenticate_user`: the lookup and the check, then the session is closed. */
    method AuthenticateUser(username: string, password: string) returns (r: Option<User>)
      modifies this
      ensures r == Authenticated(users, username, password)
      ensures sessionCloses == old(sessionCloses) + 1
    {
      r := Authenticated(users, username, password);
      sessionCloses := sessionCloses + 1;
    }

    /** `login_and_set_cookie`: on bad credentials 401 with `WWW-Authenticate: Bearer` and no
        cookie; otherwise a token for `sub = user_id` set as an http-only, secure,
        SameSite=None cookie living as many whole seconds as the token. */
    method LoginAndSetCookie(username: string, password: string, response: Response,
                             tokenName: string, delta: Option<int>, nowMicros: int)
      returns (r: Result<(User, Token), Exc>)
      modifies this, response
      ensures sessionCloses == old(sessionCloses) + 1
      ensures match Authenticated(users, username, password)
        case None => r == Err(BadCredentials) && response.cookies == old(response.cookies)
        case Some(u) =>
          var token := CreateAccessToken(settings, map["sub" := JStr(u.userId)], Some(Lifetime(delta)), nowMicros);
          && r == Ok((u, token))
          && response.cookies == old(response.cookies)
               + [SetCookie(tokenName, token, WholeSeconds(Lifetime(delta)), true, true, "none")]
    {
      var user := AuthenticateUser(username, password);
      match user
      case None =>
        r := Err(BadCredentials);
      case Some(u) =>
        var lifetime := Lifetime(delta);
        var token := CreateAccessToken(settings, map["sub" := JStr(u.userId)], Some(lifetime), nowMicros);
        response.cookies := response.cookies + [SetCookie(tokenName, token, WholeSeconds(lifetime), true, true, "none")];
        r := Ok((u, token));
    }

    /** `logout_and_clear_cookie`. */
    method LogoutAndClearCookie(response: Response, tokenName: string)
      modifies response
      ensures response.cookies == old(response.cookies) + [DeleteCookie(tokenName)]
    {
      response.cookies := response.cookies + [DeleteCookie(tokenName)];
    }
  }

  /** The login cookie carries a token that, until it expires, names the user as `sub`; its
      max-age is the whole seconds of the lifetime (86400 by default). */
  lemma LoginTokenNamesUser(settings: JwtSettings, u: User, delta: Option<int>, nowMicros: int, nowSeconds: int)
    requires nowSeconds <= ExpiryClaim(nowMicros, Some(Lifetime(delta)))
    ensures var token := CreateAccessToken(settings, map["sub" := JStr(u.userId)], Some(Lifetime(delta)), nowMicros);
            var r := DecodeToken(settings, token, nowSeconds);
            r.Ok? && r.value["sub"] == JStr(u.userId)
    ensures delta.None? ==> WholeSeconds(Lifetime(delta)) == 86400
  {
    TokenRoundTrip(settings, map["sub" := JStr(u.userId)], Some(Lifetime(delta)), nowMicros, nowSeconds);
  }
}
