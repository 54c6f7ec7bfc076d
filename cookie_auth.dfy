/** The front-end reading of the session cookie (`getUserFromCookie`) and its clearing
    (`clearAuthCookie`). The cookie string is `document.cookie`; `decodeURIComponent` and
    `jwt_decode` are library functions passed in. */
module CookieAuth {
  import opened Wrappers
  import Text

  const TokenKey := "access_token="
  /** The attributes after the emptied value in the string `clearAuthCookie` writes. */
  const ClearAttributes := "; Path=/" + "; Expires=" + "Thu, 01 Jan " + "1970 00:00:00 GMT;"
  /** What `clearAuthCookie` assigns to `document.cookie`: an empty `access_token` expired in
      1970. */
  const ClearCookie := TokenKey + ClearAttributes

  /** An exception thrown by a JavaScript built-in. */
  datatype JsError = URIError(message: string)

  /** The claims read from the token (`JWTPayload`). */
  datatype JwtPayload = JwtPayload(sub: string, username: Option<string>)

  /** The user the front end takes as logged in. */
  datatype SessionUser = SessionUser(userId: string, username: string)

  /** The regular expression `(?:^|; )access_token=([^;]+)` matches with its key starting at
      `i`: at the start of the string or right after "; ", and followed by at least one
      character other than ';'. */
  predicate MatchesAt(cookie: string, i: nat) {
    (i == 0 || (2 <= i <= |cookie| && cookie[i - 2..i] == "; "))
    && Text.OccursAt(cookie, TokenKey, i)
    && i + |TokenKey| < |cookie| && cookie[i + |TokenKey|] != ';'
  }

  /** The leftmost key position at or after `from` where the expression matches. */
  function FirstMatch(cookie: string, from: nat): (r: Option<nat>)
    ensures r.Some? ==> from <= r.value && MatchesAt(cookie, r.value)
    ensures forall j: nat :: from <= j && (r.None? || j < r.value) ==> !MatchesAt(cookie, j)
    decreases |cookie| - from
  {
    if from >= |cookie| then None
    else if MatchesAt(cookie, from) then Some(from)
    else FirstMatch(cookie, from + 1)
  }

  /** The characters from `i` up to the next ';' or the end: the group `([^;]+)`. */
  function ValueFrom(s: string, i: nat): (r: string)
    requires i <= |s|
    ensures ';' !in r
    ensures i + |r| <= |s| && r == s[i..i + |r|]
    ensures i + |r| == |s| || s[i + |r|] == ';'
    ensures i < |s| && s[i] != ';' ==> r != ""
    decreases |s| - i
  {
    if i == |s| || s[i] == ';' then "" else [s[i]] + ValueFrom(s, i + 1)
  }

  /** `match[1]` of the leftmost match, or None when there is none. */
  function TokenOf(cookie: string): (r: Option<string>)
    ensures r.None? <==> forall j: nat :: !MatchesAt(cookie, j)
    ensures r.Some? ==> r.value != "" && ';' !in r.value
  {
    match FirstMatch(cookie, 0)
    case None => None
    case Some(i) => Some(ValueFrom(cookie, i + |TokenKey|))
  }

  /** `getUserFromCookie`. The URI decoding is outside the `try`, so its error escapes; a
      failing `jwt_decode` gives null; the username falls back to the subject. */
  function GetUserFromCookie(cookie: string, decodeUri: string -> Result<string, JsError>,
                             jwtDecode: string -> Option<JwtPayload>)
    : (r: Result<Option<SessionUser>, JsError>)
    ensures TokenOf(cookie).None? ==> r == Ok(None)
    ensures TokenOf(cookie).Some? && decodeUri(TokenOf(cookie).value).Err? ==>
              r == Err(decodeUri(TokenOf(cookie).value).error)
    ensures r.Ok? && r.value.Some? ==>
              TokenOf(cookie).Some? && decodeUri(TokenOf(cookie).value).Ok?
              && var p := jwtDecode(decodeUri(TokenOf(cookie).value).value);
                 p.Some? && r.value.value == SessionUser(p.value.sub, p.value.username.GetOr(p.value.sub))
    ensures r == Ok(None) <==>
              TokenOf(cookie).None?
              || (decodeUri(TokenOf(cookie).value).Ok?
                  && jwtDecode(decodeUri(TokenOf(cookie).value).value).None?)
  {
    match TokenOf(cookie)
    case None => Ok(None)
    case Some(match1) =>
      match decodeUri(match1)
      case Err(e) => Err(e)
      case Ok(token) =>
        match jwtDecode(token)
        case None => Ok(None)
        case Some(payload) => Ok(Some(SessionUser(payload.sub, payload.username.GetOr(payload.sub))))
  }

  /** The characters of the key that the lemmas below rely on. */
  lemma KeyFacts()
    ensures |TokenKey| == 13 && TokenKey[0] == 'a' && TokenKey[6] == '_'
    ensures ';' !in TokenKey
  {
  }

  /** The group stops at the first ';' (or the end). */
  lemma {:induction false} ValueFromStops(s: string, i: nat, value: string)
    requires i + |value| <= |s| && s[i..i + |value|] == value && ';' !in value
    requires i + |value| == |s| || s[i + |value|] == ';'
    ensures ValueFrom(s, i) == value
    decreases |value|
  {
    if value != [] {
      assert s[i] == value[0];
      assert s[i + 1..i + |value|] == value[1..];
      ValueFromStops(s, i + 1, value[1..]);
    }
  }

  /** A match past position 0 needs a ';' two characters before the key. */
  lemma NoSemicolonNoLaterMatch(c: string)
    requires ';' !in c
    ensures forall j: nat :: j > 0 ==> !MatchesAt(c, j)
  {
    forall j: nat | j > 0
      ensures !MatchesAt(c, j)
    {
      if 2 <= j <= |c| {
        assert c[j - 2..j][0] == c[j - 2] != ';';
      }
    }
  }

  /** The token is the group of the first match. */
  lemma TokenOfFirstMatch(c: string, i: nat)
    requires MatchesAt(c, i)
    requires forall j: nat :: j < i ==> !MatchesAt(c, j)
    ensures TokenOf(c) == Some(ValueFrom(c, i + |TokenKey|))
  {
    var r := FirstMatch(c, 0);
    assert r.Some?;
    assert r.value == i;
  }

  /** The key at the start followed by a non-empty value matches, with that value as group. */
  lemma TokenStartFacts(value: string, rest: string)
    requires value != "" && ';' !in value
    requires rest == "" || rest[0] == ';'
    ensures MatchesAt(TokenKey + value + rest, 0)
    ensures ValueFrom(TokenKey + value + rest, |TokenKey|) == value
  {
    var c := TokenKey + value + rest;
    KeyFacts();
    assert c[..|TokenKey|] == TokenKey;
    assert c[|TokenKey|] == value[0];
    assert c[|TokenKey|..|TokenKey| + |value|] == value;
    ValueFromStops(c, |TokenKey|, value);
  }

  /** A cookie string that starts with the key and a non-empty value yields that value. */
  lemma TokenAtStart(value: string, rest: string)
    requires value != "" && ';' !in value
    requires rest == "" || rest[0] == ';'
    ensures TokenOf(TokenKey + value + rest) == Some(value)
  {
    TokenStartFacts(value, rest);
    TokenOfFirstMatch(TokenKey + value + rest, 0);
  }

  /** A key found inside the text before the separator would already match there. */
  lemma NoMatchBeforeSeparator(first: string, tail: string, j: nat)
    requires forall k: nat :: !MatchesAt(first, k)
    requires j < |first| + 2
    ensures !MatchesAt(first + "; " + tail, j)
  {
    var c := first + "; " + tail;
    var n := |TokenKey|;
    KeyFacts();
    assert c[|first|] == ';';
    if j + n < |first| {
      assert c[j..j + n] == first[j..j + n];
      assert c[j + n] == first[j + n];
      if 2 <= j {
        assert c[j - 2..j] == first[j - 2..j];
      }
      assert MatchesAt(c, j) == MatchesAt(first, j);
    } else if j + n == |first| {
      assert c[j + n] == ';';
    } else if j <= |first| && j + n <= |c| {
      assert c[j..j + n][|first| - j] == ';';
    } else if j == |first| + 1 && 2 <= j {
      assert c[j - 2..j][1] == c[|first|];
    }
  }

  /** Text in front does not change the group read further on. */
  lemma {:induction false} ValueFromShift(pre: string, s: string, k: nat)
    requires k <= |s|
    ensures ValueFrom(pre + s, |pre| + k) == ValueFrom(s, k)
    decreases |s| - k
  {
    if k < |s| {
      assert (pre + s)[|pre| + k] == s[k];
      ValueFromShift(pre, s, k + 1);
    }
  }

  /** A match at the start of `tail` is a match after "; " in front of it as well. */
  lemma MatchShift(first: string, tail: string)
    requires MatchesAt(tail, 0)
    ensures MatchesAt(first + "; " + tail, |first| + 2)
  {
    var pre := first + "; ";
    var c := pre + tail;
    var n := |TokenKey|;
    assert c[|pre| - 2..|pre|] == "; ";
    assert c[|pre|..|pre| + n] == tail[..n];
    assert c[|pre| + n] == tail[n];
  }

  /** Right after "; " the key and a non-empty value match, with that value as the group. */
  lemma MatchAfterSeparator(first: string, value: string, rest: string)
    requires value != "" && ';' !in value
    requires rest == "" || rest[0] == ';'
    ensures MatchesAt(first + "; " + (TokenKey + value + rest), |first| + 2)
    ensures ValueFrom(first + "; " + (TokenKey + value + rest), |first| + 2 + |TokenKey|) == value
  {
    var tail := TokenKey + value + rest;
    TokenStartFacts(value, rest);
    MatchShift(first, tail);
    ValueFromShift(first + "; ", tail, |TokenKey|);
  }

  /** After "; " the key is found as well, when the text before holds no match. */
  lemma TokenAfterSeparator(first: string, value: string, rest: string)
    requires forall j: nat :: !MatchesAt(first, j)
    requires value != "" && ';' !in value
    requires rest == "" || rest[0] == ';'
    ensures TokenOf(first + "; " + (TokenKey + value + rest)) == Some(value)
  {
    var tail := TokenKey + value + rest;
    var c := first + "; " + tail;
    MatchAfterSeparator(first, value, rest);
    forall j: nat | j < |first| + 2
      ensures !MatchesAt(c, j)
    {
      NoMatchBeforeSeparator(first, tail, j);
    }
    TokenOfFirstMatch(c, |first| + 2);
  }

  /** The key must start the string or follow "; ": preceded by any other character, as in
      "xaccess_token=v", it is not found. */
  lemma KeyInsideWordRejected(x: char, value: string)
    requires x != ';' && ';' !in value
    ensures TokenOf([x] + TokenKey + value) == None
  {
    var c := [x] + TokenKey + value;
    KeyFacts();
    assert ';' !in c;
    NoSemicolonNoLaterMatch(c);
    if |TokenKey| <= |c| {
      assert c[..|TokenKey|][1] == 'a' != TokenKey[1];
    }
  }

  /** The value must be non-empty: "access_token=;" gives no token. */
  lemma EmptyValueRejected()
    ensures TokenOf(TokenKey + ";") == None
  {
    var c := TokenKey + ";";
    KeyFacts();
    assert c[|TokenKey|] == ';';
    forall j: nat
      ensures !MatchesAt(c, j)
    {
    }
  }

  /** The string `clearAuthCookie` writes carries no token: read back as it is, it gives no
      user. */
  lemma ClearedCookieHasNoUser(decodeUri: string -> Result<string, JsError>,
                               jwtDecode: string -> Option<JwtPayload>)
    ensures TokenOf(ClearCookie) == None
    ensures GetUserFromCookie(ClearCookie, decodeUri, jwtDecode) == Ok(None)
  {
    var c := ClearCookie;
    var n := |TokenKey|;
    KeyFacts();
    assert '_' !in ClearAttributes by {
      assert '_' !in "; Path=/";
      assert '_' !in "; Expires=";
      assert '_' !in "Thu, 01 Jan ";
      assert '_' !in "1970 00:00:00 GMT;";
    }
    forall j: nat
      ensures !MatchesAt(c, j)
    {
      if j == 0 {
        assert c[n] == ';';
      } else if n <= j + 6 && j + n <= |c| {
        assert c[j..j + n][6] == ClearAttributes[j + 6 - n] != '_';
      } else if 2 <= j && j + 6 < n {
        assert c[j - 2..j][0] == TokenKey[j - 2] != ';';
      }
    }
  }
}
