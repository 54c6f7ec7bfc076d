/** `get_current_user`: the guard chain that turns a request's `access_token` cookie into the
    stored user, failing at the first check that does not hold. */
module Dependencies {
  import opened Wrappers
  import opened Errors
  import opened Entities
  import opened Auth
  import Uuids
  import BaseRepo

  /** A database session opened or closed by the dependency. */
  datatype SessionEvent = Opened | Closed

  /** The dependency's result together with the session events it caused. */
  datatype Outcome = Outcome(result: Result<User, Exc>, sessions: seq<SessionEvent>)

  const NotAuthenticated := Http(Unauthorized, "Not authenticated")
  const InvalidPayload := Http(Unauthorized, "Invalid token payload")
  const InvalidUserId := Http(Unauthorized, "Invalid user ID in token")
  /** The 401 of the `if not user` branch, which `get` never lets the code reach. */
  const UserNotFound := Http(Unauthorized, "User not found")

  const AccessTokenCookie := "access_token"

  /** Python truthiness of a JSON value. */
  predicate Truthy(c: Claim) {
    match c
    case JStr(s) => s != ""
    case JInt(i) => i != 0
    case JFloat(x) => x != 0.0
    case JNaN => true
    case JInfinity(_) => true
    case JBool(b) => b
    case JNull => false
    case JList(items) => items != []
    case JDict(fields) => fields != []
  }

  /** The checks, in order: cookie present, token decodes, truthy `sub`, `sub` is a UUID;
      only then a session is opened, the user fetched by `str(UUID(sub))`, and the session
      closed whatever the fetch does. */
  function CurrentUser(settings: JwtSettings, cookies: map<string, Token>, users: seq<User>, nowSeconds: int)
    : (o: Outcome)
    ensures PresentToken(cookies, AccessTokenCookie).None? ==> o == Outcome(Err(NotAuthenticated), [])
    ensures o.sessions == [] || o.sessions == [Opened, Closed]
    ensures o.result.Ok? ==> o.sessions == [Opened, Closed] && o.result.value in users
    ensures o.result != Err(UserNotFound)
  {
    match PresentToken(cookies, AccessTokenCookie)
    case None => Outcome(Err(NotAuthenticated), [])
    case Some(token) =>
      match DecodeToken(settings, token, nowSeconds)
      case Err(e) => Outcome(Err(e), [])
      case Ok(payload) =>
        if "sub" !in payload || !Truthy(payload["sub"]) then Outcome(Err(InvalidPayload), [])
        else
          match Uuids.ParseUuid(payload["sub"].s)
          case None => Outcome(Err(InvalidUserId), [])
          case Some(n) =>
            match BaseRepo.Lookup(users, UserKey, "UserEntity", Uuids.Canonical(n))
            case Err(e) => Outcome(Err(e), [Opened, Closed])
            case Ok(u) => Outcome(Ok(u), [Opened, Closed])
  }

  /** Each guard, when it is the first to fail, decides the error, and no session is opened
      before the subject has passed the UUID check. */
  lemma GuardOrder(settings: JwtSettings, cookies: map<string, Token>, users: seq<User>, nowSeconds: int)
    ensures var o := CurrentUser(settings, cookies, users, nowSeconds);
            match PresentToken(cookies, AccessTokenCookie)
            case None => o.result == Err(NotAuthenticated)
            case Some(t) =>
              match DecodeToken(settings, t, nowSeconds)
              case Err(e) => o == Outcome(Err(e), [])
              case Ok(p) =>
                if "sub" !in p || !Truthy(p["sub"]) then o == Outcome(Err(InvalidPayload), [])
                else if Uuids.ParseUuid(p["sub"].s).None? then o == Outcome(Err(InvalidUserId), [])
                else o.sessions == [Opened, Closed]
  {
  }

  /** A subject that is a UUID but names no stored user surfaces as `get`'s ValueError for
      the canonical id, never as the 401 "User not found". */
  lemma MissingUserIsValueError(settings: JwtSettings, cookies: map<string, Token>, users: seq<User>, nowSeconds: int, n: nat)
    requires PresentToken(cookies, AccessTokenCookie).Some?
    requires var r := DecodeToken(settings, cookies[AccessTokenCookie], nowSeconds);
             r.Ok? && "sub" in r.value && r.value["sub"].JStr? && Uuids.ParseUuid(r.value["sub"].s) == Some(n)
    requires n < Uuids.Uuid128 && forall u :: u in users ==> u.userId != Uuids.Canonical(n)
    ensures CurrentUser(settings, cookies, users, nowSeconds)
         == Outcome(Err(ValueError(BaseRepo.NotFoundMessage("UserEntity", Uuids.Canonical(n)))), [Opened, Closed])
  {
    var r := DecodeToken(settings, cookies[AccessTokenCookie], nowSeconds);
    assert Truthy(r.value["sub"]) by {
      Uuids.ShortTextIsNoUuid("");
    }
  }

  /** The cookie set at login lets its user through until the token expires, provided the
      user id is a canonical UUID and the table's keys are unique. */
  lemma LoginCookieAuthenticates(settings: JwtSettings, users: seq<User>, u: User, n: nat,
                                 delta: Option<int>, nowMicros: int, nowSeconds: int)
    requires BaseRepo.KeysUnique(users, UserKey)
    requires u in users && n < Uuids.Uuid128 && u.userId == Uuids.Canonical(n)
    requires nowSeconds <= ExpiryClaim(nowMicros, Some(Lifetime(delta)))
    ensures var token := CreateAccessToken(settings, map["sub" := JStr(u.userId)], Some(Lifetime(delta)), nowMicros);
            CurrentUser(settings, map[AccessTokenCookie := token], users, nowSeconds) == Outcome(Ok(u), [Opened, Closed])
  {
    var token := CreateAccessToken(settings, map["sub" := JStr(u.userId)], Some(Lifetime(delta)), nowMicros);
    TokenRoundTrip(settings, map["sub" := JStr(u.userId)], Some(Lifetime(delta)), nowMicros, nowSeconds);
    Uuids.CanonicalRoundTrip(n);
    assert u.userId != "";
    LookupStoredUser(users, u);
  }

  /** With unique keys, looking a stored user up by its id finds that user. */
  lemma LookupStoredUser(users: seq<User>, u: User)
    requires BaseRepo.KeysUnique(users, UserKey) && u in users
    ensures BaseRepo.Lookup(users, UserKey, "UserEntity", u.userId) == Ok(u)
  {
    var i :| 0 <= i < |users| && users[i] == u;
    var r := BaseRepo.Lookup(users, UserKey, "UserEntity", u.userId);
    var j :| 0 <= j < |users| && users[j] == r.value;
    assert i == j;
  }
}
