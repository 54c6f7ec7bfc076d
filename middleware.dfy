/** The response-envelope middleware (`ResponseWrapperMiddleware.dispatch`). Documentation
    routes and responses that are not JSON pass through untouched; every other response is
    replaced by a JSON response `{"error": status >= 400, "data": payload}` with the same status
    code, onto which the original headers are copied.

    Headers are Starlette's raw header list: (name, value) pairs in order, names stored in lower
    case. Setting a header on a response (`response.headers[k] = v`) follows Starlette's
    `MutableHeaders.__setitem__`: the first entry of that name takes the new value, the other
    entries of that name are deleted, and the entry is appended when the name is new. */
module ResponseWrapper {
  import opened Wrappers
  import Text

  /** A JSON document as `json.loads` returns it. */
  datatype JsonValue =
    | JNull
    | JBool(b: bool)
    | JNumber(literal: string)
    | JString(s: string)
    | JArray(items: seq<JsonValue>)
    | JObject(fields: seq<(string, JsonValue)>)

  /** One raw header: (name, value). */
  type Header = (string, string)

  /** The response produced by the rest of the application; its body is the joined chunks. */
  datatype Downstream = Downstream(status: int, headers: seq<Header>, body: string)

  /** What the middleware sends: the downstream response itself, or a new JSON response. */
  datatype Outgoing =
    | Unchanged(original: Downstream)
    | Wrapped(status: int, headers: seq<Header>, content: JsonValue)

  const ExcludePaths: set<string> := {"/openapi.json", "/docs", "/docs/oauth2-redirect", "/redoc"}
  const JsonMediaType := "application/json"
  /** Header names that the new response supplies itself and that are not copied over. */
  const RenderedHeaders: set<string> := {"content-type", "content-length"}

  // ---------------------------------------------------------------------------
  // Header lists

  /** The values of the entries named `n`, in order. */
  function Values(hs: seq<Header>, n: string): (r: seq<string>)
    ensures |r| <= |hs|
  {
    if hs == [] then []
    else (if hs[0].0 == n then [hs[0].1] else []) + Values(hs[1..], n)
  }

  lemma {:induction false} ValuesAppend(a: seq<Header>, b: seq<Header>, n: string)
    ensures Values(a + b, n) == Values(a, n) + Values(b, n)
  {
    if a != [] {
      assert (a + b)[0] == a[0] && (a + b)[1..] == a[1..] + b;
      ValuesAppend(a[1..], b, n);
    } else {
      assert a + b == b;
    }
  }

  /** The entries not named `n`, in order. */
  function Without(hs: seq<Header>, n: string): seq<Header> {
    if hs == [] then []
    else (if hs[0].0 == n then [] else [hs[0]]) + Without(hs[1..], n)
  }

  /** `Headers.get(key, "")`: the first value stored under the lower-cased key. */
  function Get(hs: seq<Header>, key: string, default: string): (r: string)
    ensures Values(hs, Text.Lower(key)) == [] ==> r == default
    ensures Values(hs, Text.Lower(key)) != [] ==> r == Values(hs, Text.Lower(key))[0]
  {
    var vs := Values(hs, Text.Lower(key));
    if vs == [] then default else vs[0]
  }

  /** The first entry named `n` takes the value `v`; the later ones are dropped. */
  function ReplaceFirst(hs: seq<Header>, n: string, v: string): seq<Header> {
    if hs == [] then []
    else if hs[0].0 == n then [(n, v)] + Without(hs[1..], n)
    else [hs[0]] + ReplaceFirst(hs[1..], n, v)
  }

  /** `MutableHeaders.__setitem__` with the name already lower-cased. */
  function SetHeader(hs: seq<Header>, n: string, v: string): seq<Header> {
    if Values(hs, n) == [] then hs + [(n, v)] else ReplaceFirst(hs, n, v)
  }

  lemma {:induction false} WithoutValues(hs: seq<Header>, n: string, m: string)
    ensures Values(Without(hs, n), m) == if m == n then [] else Values(hs, m)
  {
    if hs != [] {
      WithoutValues(hs[1..], n, m);
      ValuesAppend(if hs[0].0 == n then [] else [hs[0]], Without(hs[1..], n), m);
    }
  }

  lemma {:induction false} WithoutIdempotent(hs: seq<Header>, n: string)
    ensures Without(Without(hs, n), n) == Without(hs, n)
  {
    if hs != [] {
      WithoutIdempotent(hs[1..], n);
      var head: seq<Header> := if hs[0].0 == n then [] else [hs[0]];
      WithoutAppend(head, Without(hs[1..], n), n);
    }
  }

  lemma {:induction false} WithoutAppend(a: seq<Header>, b: seq<Header>, n: string)
    ensures Without(a + b, n) == Without(a, n) + Without(b, n)
  {
    if a != [] {
      assert (a + b)[0] == a[0] && (a + b)[1..] == a[1..] + b;
      WithoutAppend(a[1..], b, n);
    } else {
      assert a + b == b;
    }
  }

  lemma {:induction false} ReplaceFirstValues(hs: seq<Header>, n: string, v: string, m: string)
    requires Values(hs, n) != []
    ensures Values(ReplaceFirst(hs, n, v), m) == if m == n then [v] else Values(hs, m)
  {
    if hs[0].0 == n {
      WithoutValues(hs[1..], n, m);
      ValuesAppend([(n, v)], Without(hs[1..], n), m);
    } else {
      ReplaceFirstValues(hs[1..], n, v, m);
      ValuesAppend([hs[0]], ReplaceFirst(hs[1..], n, v), m);
    }
  }

  lemma {:induction false} ReplaceFirstOthers(hs: seq<Header>, n: string, v: string)
    requires Values(hs, n) != []
    ensures Without(ReplaceFirst(hs, n, v), n) == Without(hs, n)
  {
    if hs[0].0 == n {
      WithoutAppend([(n, v)], Without(hs[1..], n), n);
      WithoutIdempotent(hs[1..], n);
    } else {
      ReplaceFirstOthers(hs[1..], n, v);
      WithoutAppend([hs[0]], ReplaceFirst(hs[1..], n, v), n);
    }
  }

  /** After setting `n` to `v` there is exactly one entry named `n`, holding `v`, and the
      values of every other name are those before. */
  lemma SetHeaderValues(hs: seq<Header>, n: string, v: string, m: string)
    ensures Values(SetHeader(hs, n, v), m) == if m == n then [v] else Values(hs, m)
  {
    if Values(hs, n) == [] {
      ValuesAppend(hs, [(n, v)], m);
      if m == n {
        assert Values(hs, m) == [];
      }
    } else {
      ReplaceFirstValues(hs, n, v, m);
    }
  }

  /** Setting `n` leaves the entries of every other name where and as they were. */
  lemma {:induction false} SetHeaderOthers(hs: seq<Header>, n: string, v: string)
    ensures Without(SetHeader(hs, n, v), n) == Without(hs, n)
  {
    if Values(hs, n) == [] {
      WithoutAppend(hs, [(n, v)], n);
      assert Without([(n, v)], n) == [];
    } else {
      ReplaceFirstOthers(hs, n, v);
    }
  }

  /** A mutable header list as Starlette keeps it on a response. */
  class MutableHeaders {
    var raw: seq<Header>

    constructor (init: seq<Header>)
      ensures raw == init
    {
      raw := init;
    }

    /** `headers[key] = value`. */
    method Set(key: string, value: string)
      modifies this
      ensures raw == SetHeader(old(raw), Text.Lower(key), value)
    {
      raw := SetHeader(raw, Text.Lower(key), value);
    }

    /** `headers.append(key, value)`: a further entry, whatever is already there. */
    method Append(key: string, value: string)
      modifies this
      ensures raw == old(raw) + [(Text.Lower(key), value)]
    {
      raw := raw + [(Text.Lower(key), value)];
    }
  }

  // ---------------------------------------------------------------------------
  // Copying the original headers

  /** The header list with every name lower-cased, as `k.lower()` sees it. */
  function Lowered(hs: seq<Header>): (r: seq<Header>)
    ensures |r| == |hs|
    ensures forall i :: 0 <= i < |hs| ==> r[i] == (Text.Lower(hs[i].0), hs[i].1)
  {
    seq(|hs|, i requires 0 <= i < |hs| => (Text.Lower(hs[i].0), hs[i].1))
  }

  /** One turn of the copy loop: skip the rendered headers, set every other one. */
  function CopyStep(cur: seq<Header>, h: Header): seq<Header> {
    var n := Text.Lower(h.0);
    if n in RenderedHeaders then cur else SetHeader(cur, n, h.1)
  }

  /** The new response's headers after copying `hs`, as written: one `__setitem__` per entry. */
  function Copied(init: seq<Header>, hs: seq<Header>): seq<Header> {
    if hs == [] then init else CopyStep(Copied(init, hs[..|hs| - 1]), hs[|hs| - 1])
  }

  /** The copy loop `for k, v in original.headers.items(): ...` onto the new response. */
  method CopyHeaders(original: seq<Header>, response: MutableHeaders)
    modifies response
    ensures response.raw == Copied(old(response.raw), original)
  {
    ghost var init := response.raw;
    var k := 0;
    while k < |original|
      invariant 0 <= k <= |original|
      invariant response.raw == Copied(init, original[..k])
    {
      var (name, value) := original[k];
      assert original[..k + 1][..k] == original[..k];
      if Text.Lower(name) !in RenderedHeaders {
        response.Set(name, value);
      }
      k := k + 1;
    }
    assert original[..k] == original;
  }

  /** What the copy leaves under each name: a rendered name keeps the new response's own
      values; any other name that occurs in the original holds exactly one value, the LAST
      one the original had under that name (case-insensitively); the rest keep their values. */
  lemma {:induction false} CopiedValues(init: seq<Header>, hs: seq<Header>, n: string)
    ensures n in RenderedHeaders || Values(Lowered(hs), n) == [] ==>
              Values(Copied(init, hs), n) == Values(init, n)
    ensures n !in RenderedHeaders && Values(Lowered(hs), n) != [] ==>
              Values(Copied(init, hs), n) == [Text.Last(Values(Lowered(hs), n))]
  {
    if hs != [] {
      var p, h := hs[..|hs| - 1], hs[|hs| - 1];
      assert hs == p + [h];
      assert Lowered(hs) == Lowered(p) + [(Text.Lower(h.0), h.1)];
      ValuesAppend(Lowered(p), [(Text.Lower(h.0), h.1)], n);
      CopiedValues(init, p, n);
      if Text.Lower(h.0) !in RenderedHeaders {
        SetHeaderValues(Copied(init, p), Text.Lower(h.0), h.1, n);
      }
    }
  }

  // ---------------------------------------------------------------------------
  // Copying by appending: what the loop is evidently meant to do

  /** The new response's headers when every copied entry is appended (`headers.append`). */
  function Appended(init: seq<Header>, hs: seq<Header>): seq<Header> {
    if hs == [] then init
    else
      var cur := Appended(init, hs[..|hs| - 1]);
      var h := hs[|hs| - 1];
      if Text.Lower(h.0) in RenderedHeaders then cur else cur + [(Text.Lower(h.0), h.1)]
  }

  /** Appending keeps every value of every copied name, in the original order, after the new
      response's own values; the rendered names keep only the new response's values. */
  lemma {:induction false} AppendedValues(init: seq<Header>, hs: seq<Header>, n: string)
    ensures n in RenderedHeaders ==> Values(Appended(init, hs), n) == Values(init, n)
    ensures n !in RenderedHeaders ==>
              Values(Appended(init, hs), n) == Values(init, n) + Values(Lowered(hs), n)
  {
    if hs != [] {
      var p, h := hs[..|hs| - 1], hs[|hs| - 1];
      assert hs == p + [h];
      assert Lowered(hs) == Lowered(p) + [(Text.Lower(h.0), h.1)];
      ValuesAppend(Lowered(p), [(Text.Lower(h.0), h.1)], n);
      AppendedValues(init, p, n);
      if Text.Lower(h.0) !in RenderedHeaders {
        ValuesAppend(Appended(init, p), [(Text.Lower(h.0), h.1)], n);
      }
    }
  }

  /** Two headers of one name (two `Set-Cookie` entries, say): the loop as written keeps only
      the second value, while appending keeps both. */
  lemma DuplicateHeaderCollapses(init: seq<Header>, name: string, v1: string, v2: string)
    requires Text.Lower(name) !in RenderedHeaders
    ensures Values(Copied(init, [(name, v1), (name, v2)]), Text.Lower(name)) == [v2]
    ensures Values(Appended(init, [(name, v1), (name, v2)]), Text.Lower(name))
              == Values(init, Text.Lower(name)) + [v1, v2]
  {
    var hs: seq<Header> := [(name, v1), (name, v2)];
    var n := Text.Lower(name);
    assert Lowered(hs) == [(n, v1), (n, v2)];
    assert Values([(n, v2)], n) == [v2];
    assert Values(Lowered(hs), n) == [v1, v2];
    CopiedValues(init, hs, n);
    AppendedValues(init, hs, n);
  }

  // ---------------------------------------------------------------------------
  // The wrapping rules

  /** The content type of the downstream response, "" when it has none. */
  function ContentType(original: Downstream): string {
    Get(original.headers, "content-type", "")
  }

  /** The response is returned as it is: a documentation route, or a body that is not JSON. */
  predicate PassesThrough(path: string, original: Downstream) {
    path in ExcludePaths || !Text.StartsWith(ContentType(original), JsonMediaType)
  }

  /** The wrapped data: the parsed body when `json.loads` succeeds, its text otherwise. */
  function Payload(parsed: Option<JsonValue>, text: string): (r: JsonValue)
    ensures parsed.Some? ==> r == parsed.value
    ensures parsed.None? ==> r == JString(text)
  {
    parsed.GetOr(JString(text))
  }

  /** The envelope `{"error": status >= 400, "data": payload}`. */
  function Envelope(status: int, payload: JsonValue): JsonValue {
    JObject([("error", JBool(status >= 400)), ("data", payload)])
  }

  /** The value of the first field named `key` of an object. */
  function Field(fields: seq<(string, JsonValue)>, key: string): Option<JsonValue> {
    if fields == [] then None
    else if fields[0].0 == key then Some(fields[0].1)
    else Field(fields[1..], key)
  }

  /** The envelope has exactly the two fields; "error" is true iff the status is 400 or more,
      and "data" is the payload. */
  lemma EnvelopeFields(status: int, payload: JsonValue)
    ensures Envelope(status, payload).JObject?
    ensures |Envelope(status, payload).fields| == 2
    ensures Field(Envelope(status, payload).fields, "error") == Some(JBool(true)) <==> status >= 400
    ensures Field(Envelope(status, payload).fields, "error") == Some(JBool(false)) <==> status < 400
    ensures Field(Envelope(status, payload).fields, "data") == Some(payload)
  {
    assert "error" != "data";
  }

  /** The headers a new `JSONResponse` starts with: its length (not for a status below 200,
      204 or 304) and its media type. */
  function JsonResponseHeaders(status: int, renderedLength: nat): seq<Header> {
    (if status < 200 || status == 204 || status == 304 then []
     else [("content-length", Text.NatToString(renderedLength))])
    + [("content-type", JsonMediaType)]
  }

  /** `dispatch`. The downstream call and the reading of its body are done by the caller:
      `parsed` is what `json.loads(body.decode())` returns (None when it raises), `replaced`
      is `body.decode(errors="replace")`, and `renderedLength` is the byte length of the new
      response's rendered body. */
  method Dispatch(path: string, original: Downstream, parsed: Option<JsonValue>,
                  replaced: string, renderedLength: nat)
    returns (r: Outgoing)
    ensures PassesThrough(path, original) ==> r == Unchanged(original)
    ensures !PassesThrough(path, original) ==>
              r.Wrapped? && r.status == original.status
              && r.content == Envelope(original.status, Payload(parsed, replaced))
              && r.headers == Copied(JsonResponseHeaders(original.status, renderedLength),
                                     original.headers)
  {
    if path in ExcludePaths {
      return Unchanged(original);
    }
    var contentType := Get(original.headers, "content-type", "");
    if !Text.StartsWith(contentType, JsonMediaType) {
      return Unchanged(original);
    }
    var payload := Payload(parsed, replaced);
    var wrapped := Envelope(original.status, payload);
    var response := new MutableHeaders(JsonResponseHeaders(original.status, renderedLength));
    CopyHeaders(original.headers, response);
    r := Wrapped(original.status, response.raw, wrapped);
  }

  /** A wrapped response declares itself JSON once, and its length is its own, whatever
      content type or length the original carried. */
  lemma WrappedRenderedHeaders(status: int, renderedLength: nat, hs: seq<Header>)
    ensures Values(Copied(JsonResponseHeaders(status, renderedLength), hs), "content-type")
              == [JsonMediaType]
    ensures Values(Copied(JsonResponseHeaders(status, renderedLength), hs), "content-length")
              == if status < 200 || status == 204 || status == 304 then []
                 else [Text.NatToString(renderedLength)]
  {
    var init := JsonResponseHeaders(status, renderedLength);
    CopiedValues(init, hs, "content-type");
    CopiedValues(init, hs, "content-length");
    assert "content-type" != "content-length";
    if status < 200 || status == 204 || status == 304 {
      assert init == [("content-type", JsonMediaType)];
    } else {
      ValuesAppend([("content-length", Text.NatToString(renderedLength))],
                   [("content-type", JsonMediaType)], "content-type");
      ValuesAppend([("content-length", Text.NatToString(renderedLength))],
                   [("content-type", JsonMediaType)], "content-length");
    }
  }
}
