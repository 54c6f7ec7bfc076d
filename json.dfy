/** JSON string literals as Python's `json.dumps(..., ensure_ascii=False)` writes them, and
    the reading of such a literal back, as `json.loads` does. */
module Json {
  import opened Wrappers
  import Uuids

  const Backspace := '\U{0008}'
  const FormFeed := '\U{000C}'

  /** The escape of one character: quote, backslash and the control characters are escaped
      (the usual short forms, `\u00XX` in lower-case hex for the rest); every other character,
      non-ASCII included, is written as it is. */
  function EscapeChar(c: char): (r: string)
    ensures |r| >= 1
    ensures forall k :: 0 <= k < |r| ==> r[k] >= ' '
    ensures c >= ' ' && c != '"' && c != '\\' ==> r == [c]
  {
    if c == '"' then "\\\""
    else if c == '\\' then "\\\\"
    else if c == '\n' then "\\n"
    else if c == '\r' then "\\r"
    else if c == '\t' then "\\t"
    else if c == Backspace then "\\b"
    else if c == FormFeed then "\\f"
    else if c < ' ' then "\\u" + Uuids.HexDigits(c as nat, 4)
    else [c]
  }

  /** The body of the literal: no raw control character (so no line break) and no raw quote. */
  function Escape(s: string): (r: string)
    ensures forall k :: 0 <= k < |r| ==> r[k] >= ' '
    ensures |r| >= |s|
  {
    if s == [] then [] else EscapeChar(s[0]) + Escape(s[1..])
  }

  /** `json.dumps` of a string. */
  function Quoted(s: string): string {
    "\"" + Escape(s) + "\""
  }

  /** One escape sequence at the start of `t` (which starts with a backslash): the character
      it stands for and its length. Lone surrogates are refused. */
  function EscapeSequence(t: string): (r: Option<(char, nat)>)
    requires |t| >= 1 && t[0] == '\\'
    ensures r.Some? ==> 2 <= r.value.1 <= |t|
  {
    if |t| < 2 then None
    else if t[1] == '"' || t[1] == '\\' || t[1] == '/' then Some((t[1], 2))
    else if t[1] == 'n' then Some(('\n', 2))
    else if t[1] == 'r' then Some(('\r', 2))
    else if t[1] == 't' then Some(('\t', 2))
    else if t[1] == 'b' then Some((Backspace, 2))
    else if t[1] == 'f' then Some((FormFeed, 2))
    else if t[1] == 'u' && |t| >= 6 && (forall k :: 2 <= k < 6 ==> Uuids.IsHexDigit(t[k])) then
      var v := Uuids.HexValue(t[2..6]);
      if 0xD800 <= v <= 0xDFFF || v >= 0x11_0000 then None else Some((v as char, 6))
    else None
  }

  /** Reading the body of a string literal back: None when it is not a valid body. */
  function Unescape(t: string): Option<string>
    decreases |t|
  {
    if t == [] then Some([])
    else if t[0] == '"' || t[0] < ' ' then None
    else if t[0] != '\\' then
      match Unescape(t[1..])
      case None => None
      case Some(u) => Some([t[0]] + u)
    else
      match EscapeSequence(t)
      case None => None
      case Some(e) =>
        match Unescape(t[e.1..])
        case None => None
        case Some(u) => Some([e.0] + u)
  }

  /** The hexadecimal digits of a control character read back as that character. */
  lemma ControlEscapeValue(c: char)
    requires c < ' '
    ensures Uuids.HexValue(Uuids.HexDigits(c as nat, 4)) == c as nat
  {
    assert Uuids.Pow16(4) == 65536;
    Uuids.HexDigitsValue(c as nat, 4);
  }

  /** Reading back the escape of one character, followed by anything. */
  lemma UnescapeEscapeChar(c: char, rest: string)
    ensures Unescape(EscapeChar(c) + rest) ==
      match Unescape(rest)
      case None => None
      case Some(u) => Some([c] + u)
  {
    var t := EscapeChar(c) + rest;
    if c >= ' ' && c != '"' && c != '\\' {
      assert t[1..] == rest;
    } else if c < ' ' && c != '\n' && c != '\r' && c != '\t' && c != Backspace && c != FormFeed {
      var h := Uuids.HexDigits(c as nat, 4);
      assert t == "\\u" + h + rest;
      assert t[2..6] == h;
      ControlEscapeValue(c);
      assert EscapeSequence(t) == Some((c, 6));
      assert t[6..] == rest;
    } else {
      assert t[2..] == rest;
    }
  }

  /** `json.loads` reads back exactly the string `json.dumps` wrote. */
  lemma {:induction false} UnescapeEscape(s: string)
    ensures Unescape(Escape(s)) == Some(s)
  {
    if s != [] {
      UnescapeEscape(s[1..]);
      UnescapeEscapeChar(s[0], Escape(s[1..]));
      assert [s[0]] + s[1..] == s;
    }
  }

  /** Two strings with the same literal are the same string. */
  lemma QuotedInjective(a: string, b: string)
    requires Quoted(a) == Quoted(b)
    ensures a == b
  {
    assert Escape(a) == Quoted(a)[1..|Quoted(a)| - 1];
    assert Escape(b) == Quoted(b)[1..|Quoted(b)| - 1];
    UnescapeEscape(a);
    UnescapeEscape(b);
  }
}
