/** String operations of Python's `str` and JavaScript's `String` that the modelled code uses. */
module Text {
  import opened Wrappers

  /** The characters Python's `str.strip()` removes (those for which `str.isspace()` holds). */
  const PyWhitespace: set<char> := {
    '\t', '\n', '\U{000B}', '\U{000C}', '\r', '\U{001C}', '\U{001D}', '\U{001E}', '\U{001F}',
    ' ', '\U{0085}', '\U{00A0}', '\U{1680}',
    '\U{2000}', '\U{2001}', '\U{2002}', '\U{2003}', '\U{2004}', '\U{2005}', '\U{2006}',
    '\U{2007}', '\U{2008}', '\U{2009}', '\U{200A}',
    '\U{2028}', '\U{2029}', '\U{202F}', '\U{205F}', '\U{3000}'
  }

  /** The characters JavaScript's `String.prototype.trim()` removes
      (WhiteSpace and LineTerminator of the ECMAScript grammar). */
  const JsWhitespace: set<char> := {
    '\t', '\n', '\U{000B}', '\U{000C}', '\r', ' ', '\U{00A0}', '\U{1680}',
    '\U{2000}', '\U{2001}', '\U{2002}', '\U{2003}', '\U{2004}', '\U{2005}', '\U{2006}',
    '\U{2007}', '\U{2008}', '\U{2009}', '\U{200A}',
    '\U{2028}', '\U{2029}', '\U{202F}', '\U{205F}', '\U{3000}', '\U{FEFF}'
  }

  // ---------------------------------------------------------------------------
  // Trimming

  /** Index of the first character of `s` outside `ws` (|s| when there is none). */
  function TrimStart(s: string, ws: set<char>): (i: nat)
    ensures i <= |s|
    ensures forall k :: 0 <= k < i ==> s[k] in ws
    ensures i < |s| ==> s[i] !in ws
  {
    if |s| == 0 || s[0] !in ws then 0 else 1 + TrimStart(s[1..], ws)
  }

  /** One past the index of the last character of `s` outside `ws` (0 when there is none). */
  function TrimEnd(s: string, ws: set<char>): (j: nat)
    ensures j <= |s|
    ensures forall k :: j <= k < |s| ==> s[k] in ws
    ensures j > 0 ==> s[j - 1] !in ws
  {
    if |s| == 0 || s[|s| - 1] !in ws then |s| else TrimEnd(s[..|s| - 1], ws)
  }

  /** `s` without its leading and trailing characters from `ws`. */
  function Trim(s: string, ws: set<char>): (r: string)
    ensures |r| <= |s|
    ensures forall x :: x in r ==> x in s
    ensures r == [] || (r[0] !in ws && r[|r| - 1] !in ws)
  {
    var i := TrimStart(s, ws);
    var j := TrimEnd(s, ws);
    if i < j then s[i..j] else ""
  }

  /** Python's `str.strip()` with no argument. */
  function PyStrip(s: string): string { Trim(s, PyWhitespace) }

  /** JavaScript's `String.prototype.trim()`. */
  function JsTrim(s: string): string { Trim(s, JsWhitespace) }

  /** A string trims to empty exactly when every character is whitespace. */
  lemma TrimEmptyIff(s: string, ws: set<char>)
    ensures Trim(s, ws) == "" <==> forall k :: 0 <= k < |s| ==> s[k] in ws
  {
    var i := TrimStart(s, ws);
    var j := TrimEnd(s, ws);
    if i < j {
      assert s[i] !in ws;
    }
  }

  /** Trimming keeps the text between the first and last non-whitespace characters. */
  lemma TrimIsInfix(s: string, ws: set<char>)
    ensures exists i, j ::
      (0 <= i <= j <= |s| && Trim(s, ws) == s[i..j]
       && (forall k :: 0 <= k < i ==> s[k] in ws) && (forall k :: j <= k < |s| ==> s[k] in ws))
  {
    var i := TrimStart(s, ws);
    var j := TrimEnd(s, ws);
    if i < j {
      assert Trim(s, ws) == s[i..j];
    } else {
      assert Trim(s, ws) == s[i..i];
    }
  }

  /** Trimming twice is trimming once. */
  lemma TrimIdempotent(s: string, ws: set<char>)
    ensures Trim(Trim(s, ws), ws) == Trim(s, ws)
  {
    var r := Trim(s, ws);
    if r != [] {
      assert TrimStart(r, ws) == 0;
      assert TrimEnd(r, ws) == |r|;
    }
  }

  // ---------------------------------------------------------------------------
  // Occurrences, prefixes

  predicate StartsWith(s: string, prefix: string) {
    |prefix| <= |s| && s[..|prefix|] == prefix
  }

  predicate OccursAt(s: string, pat: string, i: int) {
    0 <= i && i + |pat| <= |s| && s[i..i + |pat|] == pat
  }

  ghost predicate Contains(s: string, pat: string) {
    exists i :: OccursAt(s, pat, i)
  }

  // ---------------------------------------------------------------------------
  // Python's str.split(sep) and sep.join(parts)

  /** Python's `s.split(sep)` for a non-empty separator: the pieces between the
      occurrences of `sep` found scanning from the left without overlap. */
  function Split(s: string, sep: string): (parts: seq<string>)
    requires |sep| > 0
    ensures |parts| >= 1
    decreases |s|
  {
    if |s| < |sep| then [s]
    else if s[..|sep|] == sep then [""] + Split(s[|sep|..], sep)
    else
      var rest := Split(s[1..], sep);
      [[s[0]] + rest[0]] + rest[1..]
  }

  /** Python's `sep.join(parts)`. */
  function Join(parts: seq<string>, sep: string): string {
    if |parts| == 0 then ""
    else if |parts| == 1 then parts[0]
    else parts[0] + sep + Join(parts[1..], sep)
  }

  /** The last element of a non-empty sequence (Python's `xs[-1]`). */
  function Last<T>(xs: seq<T>): T
    requires |xs| > 0
  {
    xs[|xs| - 1]
  }

  lemma JoinCons(p: string, parts: seq<string>, sep: string)
    requires |parts| >= 1
    ensures Join([p] + parts, sep) == p + sep + Join(parts, sep)
  {
    assert ([p] + parts)[1..] == parts;
  }

  /** Prepending a character to the first piece prepends it to the join. */
  lemma JoinConsHead(c: char, parts: seq<string>, sep: string)
    requires |parts| >= 1
    ensures Join([[c] + parts[0]] + parts[1..], sep) == [c] + Join(parts, sep)
  {
    if |parts| == 1 {
      assert [[c] + parts[0]] + parts[1..] == [[c] + parts[0]];
    } else {
      JoinCons([c] + parts[0], parts[1..], sep);
      assert parts == [parts[0]] + parts[1..];
      JoinCons(parts[0], parts[1..], sep);
    }
  }

  /** The step of `SplitJoin` for a text that starts with the separator. */
  lemma SplitJoinSkip(s: string, sep: string)
    requires 0 < |sep| <= |s| && s[..|sep|] == sep
    requires Join(Split(s[|sep|..], sep), sep) == s[|sep|..]
    ensures Join(Split(s, sep), sep) == s
  {
    var tail := s[|sep|..];
    assert Split(s, sep) == [""] + Split(tail, sep);
    JoinCons("", Split(tail, sep), sep);
    assert "" + sep == sep;
    assert s == s[..|sep|] + tail;
  }

  /** The step of `SplitJoin` for a text that does not start with the separator. */
  lemma SplitJoinChar(s: string, sep: string)
    requires 0 < |sep| <= |s| && s[..|sep|] != sep
    requires Join(Split(s[1..], sep), sep) == s[1..]
    ensures Join(Split(s, sep), sep) == s
  {
    var rest := Split(s[1..], sep);
    assert Split(s, sep) == [[s[0]] + rest[0]] + rest[1..];
    JoinConsHead(s[0], rest, sep);
    assert s == [s[0]] + s[1..];
  }

  /** Joining the pieces of a split with the same separator gives back the string. */
  lemma {:induction false} SplitJoin(s: string, sep: string)
    requires |sep| > 0
    ensures Join(Split(s, sep), sep) == s
    decreases |s|
  {
    if |s| < |sep| {
    } else if s[..|sep|] == sep {
      SplitJoin(s[|sep|..], sep);
      SplitJoinSkip(s, sep);
    } else {
      SplitJoin(s[1..], sep);
      SplitJoinChar(s, sep);
    }
  }

  /** The first piece of a join is a prefix of it. */
  lemma JoinHeadPrefix(parts: seq<string>, sep: string)
    requires |parts| >= 1
    ensures StartsWith(Join(parts, sep), parts[0])
  {
  }

  /** A piece free of `sep` stays free when a character goes in front of it, provided the
      text it begins does not start with `sep`. */
  lemma ConsFree(c: char, p: string, s: string, sep: string)
    requires |sep| > 0
    requires !Contains(p, sep)
    requires StartsWith(s, [c] + p)
    requires |sep| > |s| || s[..|sep|] != sep
    ensures !Contains([c] + p, sep)
  {
    var first := [c] + p;
    if Contains(first, sep) {
      var i :| OccursAt(first, sep, i);
      if i > 0 {
        assert first[i..i + |sep|] == p[i - 1..i - 1 + |sep|];
        assert OccursAt(p, sep, i - 1);
      }
    }
  }

  /** A sequence of `sep`-free pieces stays so with a new free head. */
  lemma PiecesFreeCons(p: string, rest: seq<string>, sep: string)
    requires !Contains(p, sep)
    requires forall k :: 0 <= k < |rest| ==> !Contains(rest[k], sep)
    ensures forall k :: 0 <= k < |[p] + rest| ==> !Contains(([p] + rest)[k], sep)
  {
    forall k | 0 <= k < |[p] + rest| ensures !Contains(([p] + rest)[k], sep) {
      if k > 0 { assert ([p] + rest)[k] == rest[k - 1]; }
    }
  }

  /** No piece of a split contains the separator. */
  lemma {:induction false} SplitPiecesFree(s: string, sep: string)
    requires |sep| > 0
    ensures forall k :: 0 <= k < |Split(s, sep)| ==> !Contains(Split(s, sep)[k], sep)
    decreases |s|
  {
    if |s| < |sep| {
      assert Split(s, sep) == [s];
      assert !Contains(s, sep);
    } else if s[..|sep|] == sep {
      SplitPiecesFree(s[|sep|..], sep);
      assert !Contains("", sep);
      PiecesFreeCons("", Split(s[|sep|..], sep), sep);
    } else {
      var rest := Split(s[1..], sep);
      SplitPiecesFree(s[1..], sep);
      SplitJoin(s, sep);
      assert Split(s, sep) == [[s[0]] + rest[0]] + rest[1..];
      JoinHeadPrefix(Split(s, sep), sep);
      ConsFree(s[0], rest[0], s, sep);
      PiecesFreeCons([s[0]] + rest[0], rest[1..], sep);
    }
  }

  /** Joining with a last piece: everything before the last separator, the separator, the last piece. */
  lemma {:induction false} JoinSnoc(parts: seq<string>, sep: string)
    requires |parts| >= 2
    ensures Join(parts, sep) == Join(parts[..|parts| - 1], sep) + sep + Last(parts)
    decreases |parts|
  {
    if |parts| == 2 {
      assert parts[..1] == [parts[0]];
    } else {
      JoinSnoc(parts[1..], sep);
      assert parts[1..][..|parts| - 2] == parts[..|parts| - 1][1..];
    }
  }

  /** Python's `s.split(sep)[-1]`: the text after the last occurrence of `sep`, or all of `s`.
      When `sep` occurs, `s` is some prefix, then `sep`, then the result, and the result
      holds no further `sep`; when it does not occur, the result is `s`. */
  function AfterLast(s: string, sep: string): (r: string)
    requires |sep| > 0
  {
    Last(Split(s, sep))
  }

  lemma AfterLastSpec(s: string, sep: string)
    requires |sep| > 0
    ensures !Contains(AfterLast(s, sep), sep)
    ensures !Contains(s, sep) ==> AfterLast(s, sep) == s
    ensures Contains(s, sep) ==> exists prefix :: s == prefix + sep + AfterLast(s, sep)
  {
    var parts := Split(s, sep);
    SplitPiecesFree(s, sep);
    SplitJoin(s, sep);
    if |parts| == 1 {
      assert s == parts[0];
    } else {
      JoinSnoc(parts, sep);
      var prefix := Join(parts[..|parts| - 1], sep);
      assert s == prefix + sep + Last(parts);
      assert OccursAt(s, sep, |prefix|) by {
        assert s[|prefix|..|prefix| + |sep|] == sep;
      }
    }
  }

  /** Splitting on a character that does not occur gives the whole string back. */
  lemma {:induction false} SplitNoChar(s: string, c: char)
    requires c !in s
    ensures Split(s, [c]) == [s]
    decreases |s|
  {
    if |s| >= 1 {
      SplitNoChar(s[1..], c);
      assert [s[0]] + s[1..] == s;
    }
  }

  /** Splitting `a c b` on `c`, when neither side holds `c`, gives `[a, b]`. */
  lemma {:induction false} SplitAtChar(a: string, c: char, b: string)
    requires c !in a && c !in b
    ensures Split(a + [c] + b, [c]) == [a, b]
    decreases |a|
  {
    var s := a + [c] + b;
    if a == [] {
      assert s[..1] == [c] && s[1..] == b;
      SplitNoChar(b, c);
    } else {
      assert s[0] == a[0] && a[0] in a;
      assert s[1..] == a[1..] + [c] + b;
      SplitAtChar(a[1..], c, b);
      assert [a[0]] + a[1..] == a;
    }
  }

  /** The first piece of `a c b` split on `c` is `a` when `a` holds no `c`. */
  lemma {:induction false} SplitFirstChar(a: string, c: char, b: string)
    requires c !in a
    ensures Split(a + [c] + b, [c])[0] == a
    decreases |a|
  {
    var s := a + [c] + b;
    if a == [] {
      assert s[..1] == [c];
    } else {
      assert s[0] == a[0] && a[0] in a;
      assert s[1..] == a[1..] + [c] + b;
      SplitFirstChar(a[1..], c, b);
      assert [a[0]] + a[1..] == a;
    }
  }

  /** The text after the last `c` of `a c b` is `b` when `b` holds no `c`. */
  lemma {:induction false} AfterLastChar(a: string, c: char, b: string)
    requires c !in b
    ensures AfterLast(a + [c] + b, [c]) == b
    decreases |a|
  {
    var s := a + [c] + b;
    if a == [] {
      assert s[..1] == [c] && s[1..] == b;
      SplitNoChar(b, c);
    } else {
      assert s[1..] == a[1..] + [c] + b;
      AfterLastChar(a[1..], c, b);
      var rest := Split(s[1..], [c]);
      if s[..1] != [c] {
        SplitJoin(s[1..], [c]);
        assert |Join(rest, [c])| > |b|;
      }
    }
  }

  /** The text after the last separator is made of characters of `s`. */
  lemma AfterLastChars(s: string, sep: string)
    requires |sep| > 0
    ensures forall x :: x in AfterLast(s, sep) ==> x in s
  {
    AfterLastSpec(s, sep);
    if Contains(s, sep) {
      var prefix :| s == prefix + sep + AfterLast(s, sep);
      forall x | x in AfterLast(s, sep) ensures x in s {
        var k :| 0 <= k < |AfterLast(s, sep)| && AfterLast(s, sep)[k] == x;
        assert s[|prefix| + |sep| + k] == x;
      }
    }
  }

  /** Python's `strip()` drops one leading blank from a string with non-blank ends. */
  lemma StripLeadingBlank(x: string)
    requires |x| > 0 && x[0] !in PyWhitespace && x[|x| - 1] !in PyWhitespace
    ensures PyStrip([' '] + x) == x
  {
    var s := [' '] + x;
    assert s[1..] == x;
    assert TrimStart(s, PyWhitespace) == 1;
    assert TrimEnd(s, PyWhitespace) == |s|;
  }

  /** A string without the separator's first character is one piece. */
  lemma {:induction false} SplitWithoutLeadChar(s: string, sep: string)
    requires |sep| > 0 && sep[0] !in s
    ensures Split(s, sep) == [s]
    decreases |s|
  {
    if |s| >= |sep| {
      assert s[0] in s;
      assert s[..|sep|][0] == s[0];
      SplitWithoutLeadChar(s[1..], sep);
      assert [s[0]] + s[1..] == s;
    }
  }

  lemma {:induction false} JoinEmptyShorter(parts: seq<string>, sep: string)
    ensures |Join(parts, "")| <= |Join(parts, sep)|
    decreases |parts|
  {
    if |parts| > 1 {
      JoinEmptyShorter(parts[1..], sep);
    }
  }

  // ---------------------------------------------------------------------------
  // Character-wise rewriting

  /** Python's `s.replace(old, new)` for one-character `old` and `new`. */
  function ReplaceChar(s: string, from: char, to: char): (r: string)
    ensures |r| == |s|
    ensures forall k :: 0 <= k < |s| ==> r[k] == (if s[k] == from then to else s[k])
  {
    if s == [] then []
    else [if s[0] == from then to else s[0]] + ReplaceChar(s[1..], from, to)
  }

  /** Python's `s.replace(c, "")`. */
  function RemoveChar(s: string, c: char): (r: string)
    ensures c !in r
    ensures forall x :: x in r ==> x in s
    ensures c !in s ==> r == s
    ensures |r| <= |s|
  {
    if s == [] then [] else (if s[0] == c then [] else [s[0]]) + RemoveChar(s[1..], c)
  }

  /** Python's `s.replace(pat, "")`: drop every occurrence found scanning from the left. */
  function RemoveAll(s: string, pat: string): (r: string)
    requires |pat| > 0
    ensures |r| <= |s|
    ensures pat[0] !in s ==> r == s
  {
    SplitJoin(s, pat);
    JoinEmptyShorter(Split(s, pat), pat);
    if pat[0] !in s then SplitWithoutLeadChar(s, pat); Join(Split(s, pat), "")
    else Join(Split(s, pat), "")
  }

  lemma {:induction false} RemoveCharConcat(a: string, b: string, c: char)
    ensures RemoveChar(a + b, c) == RemoveChar(a, c) + RemoveChar(b, c)
    decreases |a|
  {
    if a != [] {
      assert (a + b)[1..] == a[1..] + b;
      RemoveCharConcat(a[1..], b, c);
    } else {
      assert a + b == b;
    }
  }

  /** Lower-casing of one character by Python's `str.lower()`, for the Basic Latin and
      Latin-1 letters (A-Z and the upper-case letters U+00C0-U+00DE except U+00D7). */
  function LowerChar(c: char): char {
    if 'A' <= c <= 'Z' then (c as int + 32) as char
    else if '\U{00C0}' <= c <= '\U{00DE}' && c != '\U{00D7}' then (c as int + 32) as char
    else c
  }

  function Lower(s: string): (r: string)
    ensures |r| == |s|
    ensures forall k :: 0 <= k < |s| ==> r[k] == LowerChar(s[k])
  {
    if s == [] then [] else [LowerChar(s[0])] + Lower(s[1..])
  }

  /** JavaScript's `toUpperCase()` on the ASCII letters. */
  function Upper(s: string): (r: string)
    ensures |r| == |s|
  {
    if s == [] then []
    else [if 'a' <= s[0] <= 'z' then (s[0] as int - 32) as char else s[0]] + Upper(s[1..])
  }

  // ---------------------------------------------------------------------------
  // Numbers as text

  function DigitChar(d: nat): (c: char)
    requires d < 10
    ensures IsDecimalDigit(c) && c as int - '0' as int == d
  {
    ('0' as int + d) as char
  }

  /** Python's `str(n)` for a natural number. */
  function NatToString(n: nat): (r: string)
    ensures |r| >= 1
    ensures forall k :: 0 <= k < |r| ==> '0' <= r[k] <= '9'
    decreases n
  {
    if n < 10 then [DigitChar(n)] else NatToString(n / 10) + [DigitChar(n % 10)]
  }

  /** Python's `str(i)` for an integer. */
  function IntToString(i: int): string {
    if i < 0 then "-" + NatToString(-i) else NatToString(i)
  }

  /** The ASCII decimal digits (the other Unicode decimal digits are not modelled). */
  predicate IsDecimalDigit(c: char) {
    '0' <= c <= '9'
  }

  function DecimalValue(s: string): nat
    requires forall k :: 0 <= k < |s| ==> IsDecimalDigit(s[k])
  {
    if s == [] then 0
    else
      assert IsDecimalDigit(s[|s| - 1]);
      DecimalValue(s[..|s| - 1]) * 10 + (s[|s| - 1] as int - '0' as int)
  }

  /** Digits with single underscores between them, as `int()` accepts them. */
  predicate WellFormedDecimal(s: string) {
    && |s| > 0 && s[0] != '_' && s[|s| - 1] != '_'
    && (forall k :: 0 <= k < |s| ==> s[k] == '_' || IsDecimalDigit(s[k]))
    && (forall k :: 0 <= k < |s| - 1 ==> !(s[k] == '_' && s[k + 1] == '_'))
  }

  /** The text after an optional '+' or '-'. */
  function Unsigned(t: string): string {
    if |t| > 0 && (t[0] == '-' || t[0] == '+') then t[1..] else t
  }

  /** The value of the digits after the sign, when `int()` accepts them. */
  function UnsignedValue(digits: string): (r: Option<nat>)
    ensures r.Some? <==> WellFormedDecimal(digits)
  {
    if WellFormedDecimal(digits) then
      var plain := RemoveChar(digits, '_');
      assert forall k :: 0 <= k < |plain| ==> IsDecimalDigit(plain[k]) by {
        forall k | 0 <= k < |plain| ensures IsDecimalDigit(plain[k]) {
          assert plain[k] in plain;
          var j :| 0 <= j < |digits| && digits[j] == plain[k];
        }
      }
      Some(DecimalValue(plain))
    else None
  }

  /** Python's `int(s)` on a string: surrounding whitespace, an optional sign, then decimal
      digits. None stands for the ValueError. */
  function ParseInt(s: string): (r: Option<int>)
    ensures r.Some? ==> |PyStrip(s)| > 0 && (r.value < 0 ==> PyStrip(s)[0] == '-')
  {
    var t := PyStrip(s);
    match UnsignedValue(Unsigned(t))
    case Some(v) => Some(if t[0] == '-' then -(v as int) else v as int)
    case None => None
  }

  lemma {:induction false} DecimalValueOfString(n: nat)
    ensures DecimalValue(NatToString(n)) == n
    decreases n
  {
    if n >= 10 {
      var s := NatToString(n);
      var front := NatToString(n / 10);
      assert s[..|s| - 1] == front;
      DecimalValueOfString(n / 10);
    }
  }

  lemma DigitIsNoWhitespace(c: char)
    requires IsDecimalDigit(c)
    ensures c !in PyWhitespace
  {
  }

  /** A string with no surrounding whitespace strips to itself. */
  lemma StripUnpadded(s: string)
    requires |s| > 0 && s[0] !in PyWhitespace && s[|s| - 1] !in PyWhitespace
    ensures PyStrip(s) == s
  {
    assert TrimStart(s, PyWhitespace) == 0;
    assert TrimEnd(s, PyWhitespace) == |s|;
    assert s[0..|s|] == s;
  }

  /** Digits without an underscore read as their decimal value. */
  lemma UnsignedValueOfDigits(digits: string)
    requires |digits| > 0 && forall k :: 0 <= k < |digits| ==> IsDecimalDigit(digits[k])
    ensures UnsignedValue(digits) == Some(DecimalValue(digits))
  {
    assert WellFormedDecimal(digits);
    assert RemoveChar(digits, '_') == digits;
  }

  lemma ParseSigned(t: string, v: nat)
    requires PyStrip(t) == t && UnsignedValue(Unsigned(t)) == Some(v)
    ensures ParseInt(t) == Some(if t[0] == '-' then -(v as int) else v as int)
  {
  }

  /** `int(str(n)) == n` for a natural number. */
  lemma ParseNatString(n: nat)
    ensures ParseInt(NatToString(n)) == Some(n)
  {
    var digits := NatToString(n);
    assert UnsignedValue(digits) == Some(n) by {
      UnsignedValueOfDigits(digits);
      DecimalValueOfString(n);
    }
    assert PyStrip(digits) == digits by {
      DigitIsNoWhitespace(digits[0]);
      DigitIsNoWhitespace(digits[|digits| - 1]);
      StripUnpadded(digits);
    }
    ParseSigned(digits, n);
  }

  /** `int("-" + str(n)) == -n`. */
  lemma ParseNegatedString(n: nat)
    ensures ParseInt("-" + NatToString(n)) == Some(-(n as int))
  {
    var digits := NatToString(n);
    var t := "-" + digits;
    assert UnsignedValue(Unsigned(t)) == Some(n) by {
      assert t[1..] == digits;
      UnsignedValueOfDigits(digits);
      DecimalValueOfString(n);
    }
    assert PyStrip(t) == t by {
      assert t[|t| - 1] == digits[|digits| - 1];
      DigitIsNoWhitespace(digits[|digits| - 1]);
      StripUnpadded(t);
    }
    ParseSigned(t, n);
  }

  /** `int(str(i)) == i`. */
  lemma ParseIntOfString(i: int)
    ensures ParseInt(IntToString(i)) == Some(i)
  {
    if i < 0 {
      var n: nat := -i;
      ParseNegatedString(n);
      assert ParseInt("-" + NatToString(n)) == Some(i);
      assert IntToString(i) == "-" + NatToString(n);
    } else {
      var n: nat := i;
      ParseNatString(n);
      assert ParseInt(NatToString(n)) == Some(i);
      assert IntToString(i) == NatToString(n);
    }
  }

  // ---------------------------------------------------------------------------
  // UTF-8

  type Byte = b: int | 0 <= b < 256

  /** The UTF-8 encoding of one character (a Unicode scalar value). */
  function Utf8Char(c: char): (bytes: seq<Byte>)
    ensures 1 <= |bytes| <= 4
  {
    var n := c as int;
    if n < 0x80 then [n]
    else if n < 0x800 then [0xC0 + n / 64, 0x80 + n % 64]
    else if n < 0x10000 then [0xE0 + n / 4096, 0x80 + n / 64 % 64, 0x80 + n % 64]
    else [0xF0 + n / 262144, 0x80 + n / 4096 % 64, 0x80 + n / 64 % 64, 0x80 + n % 64]
  }

  /** `s.encode("utf-8")`. */
  function Utf8(s: string): (bytes: seq<Byte>)
    ensures |bytes| >= |s|
  {
    if s == [] then [] else Utf8Char(s[0]) + Utf8(s[1..])
  }

  /** How many bytes a sequence starting with `lead` spans. */
  function LeadLength(lead: Byte): nat {
    if lead < 0x80 then 1 else if lead < 0xE0 then 2 else if lead < 0xF0 then 3 else 4
  }

  /** The code point a character's bytes spell. */
  function CodePoint(bytes: seq<Byte>): int
    requires 1 <= |bytes| <= 4
  {
    var b: seq<int> := bytes;
    if |b| == 1 then b[0]
    else if |b| == 2 then (b[0] - 0xC0) * 64 + (b[1] - 0x80)
    else if |b| == 3 then (b[0] - 0xE0) * 4096 + (b[1] - 0x80) * 64 + (b[2] - 0x80)
    else (b[0] - 0xF0) * 262144 + (b[1] - 0x80) * 4096 + (b[2] - 0x80) * 64 + (b[3] - 0x80)
  }

  /** The lead byte gives the length, and the bytes give the character back. */
  lemma Utf8CharDecodes(c: char)
    ensures |Utf8Char(c)| == LeadLength(Utf8Char(c)[0])
    ensures CodePoint(Utf8Char(c)) == c as int
  {
    var n := c as int;
    if n < 0x80 {
    } else if n < 0x800 {
      assert n == n / 64 * 64 + n % 64;
    } else if n < 0x10000 {
      assert n / 64 == n / 4096 * 64 + n / 64 % 64;
      assert n == n / 64 * 64 + n % 64;
    } else {
      assert n / 4096 == n / 262144 * 64 + n / 4096 % 64;
      assert n / 64 == n / 4096 * 64 + n / 64 % 64;
      assert n == n / 64 * 64 + n % 64;
    }
  }

  lemma {:induction false} Utf8Append(a: string, b: string)
    ensures Utf8(a + b) == Utf8(a) + Utf8(b)
  {
    if a != [] {
      assert (a + b)[0] == a[0] && (a + b)[1..] == a[1..] + b;
      Utf8Append(a[1..], b);
    } else {
      assert a + b == b;
    }
  }

  /** Distinct strings have distinct encodings. */
  lemma {:induction false} Utf8Injective(a: string, b: string)
    requires Utf8(a) == Utf8(b)
    ensures a == b
  {
    if a != [] && b != [] {
      var ca, cb := Utf8Char(a[0]), Utf8Char(b[0]);
      Utf8CharDecodes(a[0]);
      Utf8CharDecodes(b[0]);
      assert ca[0] == Utf8(a)[0] && cb[0] == Utf8(b)[0];
      var k := |ca|;
      assert ca == Utf8(a)[..k] && cb == Utf8(b)[..k];
      assert a[0] == b[0] by {
        assert CodePoint(ca) == CodePoint(cb);
      }
      assert Utf8(a[1..]) == Utf8(a)[k..] == Utf8(b)[k..] == Utf8(b[1..]);
      Utf8Injective(a[1..], b[1..]);
      assert a == [a[0]] + a[1..] && b == [b[0]] + b[1..];
    }
  }
}
