/** Python's `uuid.UUID(hex)` constructor and `str(uuid)`, as `get_current_user` uses them to
    validate the token's subject and to form the lookup key. */
module Uuids {
  import opened Wrappers
  import Text

  // ---------------------------------------------------------------------------
  // Hexadecimal digits

  predicate IsHexDigit(c: char) {
    '0' <= c <= '9' || 'a' <= c <= 'f' || 'A' <= c <= 'F'
  }

  function HexDigitValue(c: char): (v: nat)
    requires IsHexDigit(c)
    ensures v < 16
  {
    if '0' <= c <= '9' then c as nat - '0' as nat
    else if 'a' <= c <= 'f' then c as nat - 'a' as nat + 10
    else c as nat - 'A' as nat + 10
  }

  /** The lower-case digit `format(d, 'x')`. */
  function HexChar(d: nat): (c: char)
    requires d < 16
    ensures IsHexDigit(c) && HexDigitValue(c) == d
    ensures !('A' <= c <= 'F')
  {
    if d < 10 then ('0' as nat + d) as char else ('a' as nat + d - 10) as char
  }

  /** The number written by a string of hex digits, most significant first. */
  function HexValue(s: string): nat
    requires forall k :: 0 <= k < |s| ==> IsHexDigit(s[k])
  {
    if s == [] then 0 else HexValue(s[..|s| - 1]) * 16 + HexDigitValue(s[|s| - 1])
  }

  function Pow16(n: nat): (p: nat)
    ensures p >= 1
  {
    if n == 0 then 1 else 16 * Pow16(n - 1)
  }

  /** `'%0*x' % (width, n)` for `n < 16^width`: exactly `width` lower-case digits. */
  function HexDigits(n: nat, width: nat): (s: string)
    ensures |s| == width
    ensures forall k :: 0 <= k < |s| ==> IsHexDigit(s[k]) && !('A' <= s[k] <= 'F')
  {
    if width == 0 then "" else HexDigits(n / 16, width - 1) + [HexChar(n % 16)]
  }

  /** The digits of a number below 16^width read back as that number. */
  lemma {:induction false} HexDigitsValue(n: nat, width: nat)
    requires n < Pow16(width)
    ensures HexValue(HexDigits(n, width)) == n
  {
    if width > 0 {
      var s := HexDigits(n, width);
      assert n / 16 < Pow16(width - 1);
      HexDigitsValue(n / 16, width - 1);
      assert s[..|s| - 1] == HexDigits(n / 16, width - 1);
    }
  }

  // ---------------------------------------------------------------------------
  // int(s, 16)

  /** The digits part accepted by `int(..., 16)`: hex digits, with single underscores
      allowed between two digits. */
  predicate WellFormedDigits(s: string) {
    && |s| > 0 && s[0] != '_' && s[|s| - 1] != '_'
    && (forall k :: 0 <= k < |s| ==> s[k] == '_' || IsHexDigit(s[k]))
    && (forall k :: 0 <= k < |s| - 1 ==> !(s[k] == '_' && s[k + 1] == '_'))
  }

  /** The digits after an optional `0x`/`0X` prefix and the one underscore it may carry. */
  function WithoutHexPrefix(u: string): string {
    if |u| >= 2 && u[0] == '0' && (u[1] == 'x' || u[1] == 'X') then
      if |u| > 2 && u[2] == '_' then u[3..] else u[2..]
    else u
  }

  /** Python's `int(s, 16)`: surrounding whitespace, an optional sign, an optional `0x`
      prefix, then the digits. None stands for the ValueError. */
  function ParseIntBase16(s: string): (r: Option<int>)
    ensures r.Some? && r.value < 0 ==> |Text.PyStrip(s)| > 0 && Text.PyStrip(s)[0] == '-'
  {
    var t := Text.PyStrip(s);
    var digits := WithoutHexPrefix(Text.Unsigned(t));
    if WellFormedDigits(digits) then
      var plain := Text.RemoveChar(digits, '_');
      assert forall k :: 0 <= k < |plain| ==> IsHexDigit(plain[k]) by {
        forall k | 0 <= k < |plain| ensures IsHexDigit(plain[k]) {
          assert plain[k] in plain;
          var j :| 0 <= j < |digits| && digits[j] == plain[k];
        }
      }
      var v := HexValue(plain) as int;
      Some(if |t| > 0 && t[0] == '-' then -v else v)
    else None
  }

  // ---------------------------------------------------------------------------
  // UUID(hex) and str(uuid)

  const Uuid128 := Pow16(32)

  /** `UUID(hex)`: "urn:" and "uuid:" removed wherever they occur, braces stripped from
      both ends, hyphens removed; then exactly 32 characters must remain, readable by
      `int(..., 16)` as a value in [0, 2^128). None stands for the ValueError. */
  function ParseUuid(hex: string): (r: Option<nat>)
    ensures r.Some? ==> r.value < Uuid128
  {
    var h := Text.RemoveAll(Text.RemoveAll(hex, "urn:"), "uuid:");
    var h' := Text.RemoveChar(Text.Trim(h, {'{', '}'}), '-');
    if |h'| != 32 then None
    else match ParseIntBase16(h')
      case None => None
      case Some(v) => if 0 <= v < Uuid128 then Some(v) else None
  }

  /** `str(uuid)`: 32 lower-case digits grouped 8-4-4-4-12. */
  function Canonical(n: nat): (s: string)
    requires n < Uuid128
    ensures |s| == 36
  {
    Grouped(HexDigits(n, 32))
  }

  /** 32 digits grouped 8-4-4-4-12. */
  function Grouped(h: string): (s: string)
    requires |h| == 32
    ensures |s| == 36
  {
    Dash(h[..8], Dash(h[8..12], Dash(h[12..16], Dash(h[16..20], h[20..]))))
  }

  function Dash(x: string, y: string): (s: string)
    ensures |s| == |x| + 1 + |y|
  {
    x + "-" + y
  }

  /** Text shorter than 32 characters is never a UUID (the length check fails). */
  lemma ShortTextIsNoUuid(hex: string)
    requires |hex| < 32
    ensures ParseUuid(hex) == None
  {
  }

  lemma NotInSlice(h: string, i: nat, j: nat, c: char)
    requires i <= j <= |h| && c !in h
    ensures c !in h[i..j]
  {
    assert forall x :: x in h[i..j] ==> x in h;
  }

  lemma RemoveDash(x: string, y: string)
    requires '-' !in x
    ensures Text.RemoveChar(Dash(x, y), '-') == x + Text.RemoveChar(y, '-')
  {
    Text.RemoveCharConcat(x + "-", y, '-');
    Text.RemoveCharConcat(x, "-", '-');
  }

  /** Removing the hyphens of the grouping gives the digits back. */
  lemma UngroupedByHyphenRemoval(h: string)
    requires |h| == 32 && '-' !in h
    ensures Text.RemoveChar(Grouped(h), '-') == h
  {
    var a, b, c, d, e := h[..8], h[8..12], h[12..16], h[16..20], h[20..];
    NotInSlice(h, 0, 8, '-');
    NotInSlice(h, 8, 12, '-');
    NotInSlice(h, 12, 16, '-');
    NotInSlice(h, 16, 20, '-');
    NotInSlice(h, 20, 32, '-');
    assert h[..8] == h[0..8] && h[20..] == h[20..32];
    RemoveDashes(a, b, c, d, e);
    assert h == a + (b + (c + (d + e)));
  }

  lemma RemoveDashes(a: string, b: string, c: string, d: string, e: string)
    requires '-' !in a && '-' !in b && '-' !in c && '-' !in d && '-' !in e
    ensures Text.RemoveChar(Dash(a, Dash(b, Dash(c, Dash(d, e)))), '-') == a + (b + (c + (d + e)))
  {
    RemoveDash(d, e);
    RemoveDash(c, Dash(d, e));
    RemoveDash(b, Dash(c, Dash(d, e)));
    RemoveDash(a, Dash(b, Dash(c, Dash(d, e))));
  }

  /** Every character is a hex digit or a hyphen. */
  predicate HexOrDash(s: string) {
    forall k :: 0 <= k < |s| ==> IsHexDigit(s[k]) || s[k] == '-'
  }

  lemma DashHexOrDash(x: string, y: string)
    requires HexOrDash(x) && HexOrDash(y)
    ensures HexOrDash(Dash(x, y))
  {
    var s := Dash(x, y);
    forall k | 0 <= k < |s| ensures IsHexDigit(s[k]) || s[k] == '-' {
      if k < |x| { assert s[k] == x[k]; }
      else if k > |x| { assert s[k] == y[k - |x| - 1]; }
    }
  }

  lemma SliceHexOrDash(h: string, i: nat, j: nat)
    requires i <= j <= |h| && HexOrDash(h)
    ensures HexOrDash(h[i..j])
  {
    forall k | 0 <= k < j - i ensures IsHexDigit(h[i..j][k]) || h[i..j][k] == '-' {
      assert h[i..j][k] == h[i + k];
    }
  }

  /** The grouping adds only hyphens, and none at either end. */
  lemma GroupedShape(h: string)
    requires |h| == 32 && HexOrDash(h) && IsHexDigit(h[0]) && IsHexDigit(h[31])
    ensures HexOrDash(Grouped(h))
    ensures IsHexDigit(Grouped(h)[0]) && IsHexDigit(Grouped(h)[35])
  {
    SliceHexOrDash(h, 0, 8);
    SliceHexOrDash(h, 8, 12);
    SliceHexOrDash(h, 12, 16);
    SliceHexOrDash(h, 16, 20);
    SliceHexOrDash(h, 20, 32);
    assert h[..8] == h[0..8] && h[20..] == h[20..32];
    DashHexOrDash(h[16..20], h[20..]);
    DashHexOrDash(h[12..16], Dash(h[16..20], h[20..]));
    DashHexOrDash(h[8..12], Dash(h[12..16], Dash(h[16..20], h[20..])));
    DashHexOrDash(h[..8], Dash(h[8..12], Dash(h[12..16], Dash(h[16..20], h[20..]))));
    var g := Grouped(h);
    assert g[0] == h[..8][0];
    var tail := Dash(h[16..20], h[20..]);
    assert g[35] == tail[|tail| - 1] == h[31];
  }

  /** Text made of hex digits and hyphens, with a digit at both ends, survives the prefix
      removal and the brace strip unchanged. */
  lemma CleanupKeepsHexOrDash(c: string)
    requires |c| > 0 && HexOrDash(c) && IsHexDigit(c[0]) && IsHexDigit(c[|c| - 1])
    ensures Text.Trim(Text.RemoveAll(Text.RemoveAll(c, "urn:"), "uuid:"), {'{', '}'}) == c
  {
    assert 'u' !in c by {
      forall k | 0 <= k < |c| ensures c[k] != 'u' { }
    }
    assert Text.TrimStart(c, {'{', '}'}) == 0;
    assert Text.TrimEnd(c, {'{', '}'}) == |c|;
    assert c[0..|c|] == c;
  }

  /** Step by step, the canonical form survives the prefix removal and the brace strip. */
  lemma CanonicalSurvivesCleanup(n: nat)
    requires n < Uuid128
    ensures var c := Canonical(n);
            Text.Trim(Text.RemoveAll(Text.RemoveAll(c, "urn:"), "uuid:"), {'{', '}'}) == c
  {
    var h := HexDigits(n, 32);
    GroupedShape(h);
    CleanupKeepsHexOrDash(Canonical(n));
  }

  lemma PlainDigitsStrip(h: string)
    requires |h| >= 1
    requires forall k :: 0 <= k < |h| ==> IsHexDigit(h[k])
    ensures Text.PyStrip(h) == h
  {
    assert Text.TrimStart(h, Text.PyWhitespace) == 0;
    assert Text.TrimEnd(h, Text.PyWhitespace) == |h|;
    assert h[0..|h|] == h;
  }

  lemma PlainDigitsShape(h: string)
    requires |h| >= 1
    requires forall k :: 0 <= k < |h| ==> IsHexDigit(h[k]) && h[k] != 'x' && h[k] != 'X'
    ensures WithoutHexPrefix(Text.Unsigned(h)) == h
    ensures WellFormedDigits(h)
    ensures Text.RemoveChar(h, '_') == h
  {
    assert '_' !in h;
  }

  /** Plain digits read by `int(..., 16)` give their value. */
  lemma ParsePlainDigits(h: string)
    requires |h| >= 1
    requires forall k :: 0 <= k < |h| ==> IsHexDigit(h[k]) && h[k] != 'x' && h[k] != 'X'
    ensures ParseIntBase16(h) == Some(HexValue(h) as int)
  {
    PlainDigitsStrip(h);
    PlainDigitsShape(h);
  }

  /** The canonical form parses back to the same number, so `str(UUID(sub))` is a
      fixed point for subjects already in canonical form. */
  lemma CanonicalRoundTrip(n: nat)
    requires n < Uuid128
    ensures ParseUuid(Canonical(n)) == Some(n)
  {
    var c := Canonical(n);
    CanonicalSurvivesCleanup(n);
    var h := HexDigits(n, 32);
    assert '-' !in h;
    UngroupedByHyphenRemoval(h);
    ParsePlainDigits(h);
    HexDigitsValue(n, 32);
    ParseUuidOfDigits(c, h, n);
  }

  /** `UUID(hex)` accepts text that cleans up to 32 digits with a value in range. */
  lemma ParseUuidOfDigits(hex: string, h: string, v: nat)
    requires Text.RemoveChar(Text.Trim(Text.RemoveAll(Text.RemoveAll(hex, "urn:"), "uuid:"), {'{', '}'}), '-') == h
    requires |h| == 32 && ParseIntBase16(h) == Some(v as int) && v < Uuid128
    ensures ParseUuid(hex) == Some(v)
  {
  }
}
