/** cpptoml's text of strings and local times: the writer's side and the reader's side. */
module TomlText {
  import opened Bytes

  const BACKSPACE: char := '\U{8}'
  const FORM_FEED: char := '\U{C}'

  // ---- Writing strings ----

  /** std::hex output: lower case, no padding. */
  function Hex(n: nat): string {
    if n < 16 then [HexDigit(n)] else Hex(n / 16) + [HexDigit(n % 16)]
  }

  /** What escape_string writes for one byte. Bytes above 0x7f are negative as char, so they are
      never taken for control characters. */
  function EscapeByte(c: char): string {
    if c == BACKSPACE then "\\b"
    else if c == '\t' then "\\t"
    else if c == '\n' then "\\n"
    else if c == FORM_FEED then "\\f"
    else if c == '\r' then "\\r"
    else if c == '"' then "\\\""
    else if c == '\\' then "\\\\"
    else if c as int <= 0x1f then "\\u" + Hex(c as int)
    else [c]
  }

  function Escaped(s: string): string {
    if s == [] then [] else EscapeByte(s[0]) + Escaped(s[1..])
  }

  lemma {:induction false} EscapedAppend(s: string, c: char)
    ensures Escaped(s + [c]) == Escaped(s) + EscapeByte(c)
  {
    if s == [] {
      assert [c][1..] == [];
    } else {
      assert (s + [c])[1..] == s[1..] + [c];
      EscapedAppend(s[1..], c);
    }
  }

  method EscapeString(str: string) returns (res: string)
    ensures res == Escaped(str)
  {
    res := "";
    var it := 0;
    while it < |str|
      invariant 0 <= it <= |str|
      invariant res == Escaped(str[..it])
    {
      EscapedAppend(str[..it], str[it]);
      assert str[..it + 1] == str[..it] + [str[it]];
      res := res + EscapeByte(str[it]);
      it := it + 1;
    }
    assert str[..it] == str;
  }

  // ---- Reading strings ----

  /** parse_hex: `digits` hexadecimal digits from position p. */
  function ParseHex(s: string, p: nat, digits: nat, value: nat): (r: Option<(nat, nat)>)
    requires p <= |s|
    ensures r.Some? ==> r.value.1 == p + digits <= |s|
    ensures r.Some? ==> forall i :: p <= i < p + digits ==> IsHexDigit(s[i])
    decreases digits
  {
    if digits == 0 then Some((value, p))
    else if p == |s| || !IsHexDigit(s[p]) then None
    else ParseHex(s, p + 1, digits - 1, value * 16 + HexValue(s[p]))
  }

  /** The bytes written for a code point; the three-byte form masks its middle byte with 0x1f. */
  function EncodeCodepoint(cp: nat): string
    requires cp <= 0x10ffff
  {
    if cp <= 0x7f then [cp as char]
    else if cp <= 0x7ff then [(0xc0 + cp / 64 % 32) as char, (0x80 + cp % 64) as char]
    else if cp <= 0xffff then
      [(0xe0 + cp / 4096 % 16) as char, (0x80 + cp / 64 % 32) as char, (0x80 + cp % 64) as char]
    else
      [(0xf0 + cp / 0x4_0000 % 8) as char, (0x80 + cp / 4096 % 64) as char,
       (0x80 + cp / 64 % 64) as char, (0x80 + cp % 64) as char]
  }

  /** parse_escape_code from the backslash at p: the bytes it stands for and the next position. */
  function ReadEscape(s: string, p: nat): (r: Option<(string, nat)>)
    requires p < |s|
    ensures r.Some? ==> p + 2 <= r.value.1 <= |s|
  {
    if p + 1 >= |s| then None
    else
      match s[p + 1]
      case 'b' => Some(([BACKSPACE], p + 2))
      case 't' => Some((['\t'], p + 2))
      case 'n' => Some((['\n'], p + 2))
      case 'f' => Some(([FORM_FEED], p + 2))
      case 'r' => Some((['\r'], p + 2))
      case '"' => Some((['"'], p + 2))
      case '\\' => Some((['\\'], p + 2))
      case c =>
        if c != 'u' && c != 'U' then None
        else
          match ParseHex(s, p + 2, if c == 'U' then 8 else 4, 0)
          case None => None
          case Some(h) =>
            if 0xd7ff < h.0 < 0xe000 || h.0 > 0x10ffff then None
            else Some((EncodeCodepoint(h.0), h.1))
  }

  predicate IsBlank(c: char) { c == ' ' || c == '\t' }

  function SkipBlanks(s: string, p: nat): (q: nat)
    requires p <= |s|
    ensures p <= q <= |s|
    ensures forall i :: p <= i < q ==> s[i] == ' ' || s[i] == '\t'
    ensures q < |s| ==> s[q] != ' ' && s[q] != '\t'
    decreases |s| - p
  {
    if p < |s| && IsBlank(s[p]) then SkipBlanks(s, p + 1) else p
  }

  /** The characters of a quoted string from p on, and the position after it and its blanks. */
  function Literal(s: string, p: nat, delim: char, val: string): (r: Option<(string, nat)>)
    requires p <= |s|
    ensures r.Some? ==> p < r.value.1 <= |s|
    decreases |s| - p
  {
    if p == |s| then None
    else if delim == '"' && s[p] == '\\' then
      match ReadEscape(s, p)
      case None => None
      case Some(e) => Literal(s, e.1, delim, val + e.0)
    else if s[p] == delim then Some((val, SkipBlanks(s, p + 1)))
    else Literal(s, p + 1, delim, val + [s[p]])
  }

  /** string_literal, from the opening delimiter at `start`. */
  method StringLiteral(s: string, start: nat, delim: char) returns (r: Option<(string, nat)>)
    requires start < |s|
    ensures r == Literal(s, start + 1, delim, [])
  {
    var it, val := start + 1, "";
    while it != |s|
      invariant start + 1 <= it <= |s|
      invariant Literal(s, start + 1, delim, []) == Literal(s, it, delim, val)
      decreases |s| - it
    {
      if delim == '"' && s[it] == '\\' {
        var e := ReadEscape(s, it);
        if e == None {
          return None;
        }
        val, it := val + e.value.0, e.value.1;
      } else if s[it] == delim {
        it := it + 1;
        while it != |s| && IsBlank(s[it])
          invariant it <= |s|
          invariant Literal(s, start + 1, delim, []) == Some((val, SkipBlanks(s, it)))
          decreases |s| - it
        {
          it := it + 1;
        }
        return Some((val, it));
      } else {
        val, it := val + [s[it]], it + 1;
      }
    }
    return None;
  }

  // ---- Strings: the reader undoes the writer exactly for strings without other control bytes ----

  predicate IsOtherControl(c: char) {
    c as int <= 0x1f && c != BACKSPACE && c != '\t' && c != '\n' && c != FORM_FEED && c != '\r'
  }

  ghost predicate Writable(s: string) { forall i :: 0 <= i < |s| ==> !IsOtherControl(s[i]) }

  lemma ReadEscapedByte(s: string, p: nat, c: char, val: string)
    requires !IsOtherControl(c)
    requires p <= |s| && EscapeByte(c) <= s[p..]
    ensures p + |EscapeByte(c)| <= |s|
    ensures Literal(s, p, '"', val) == Literal(s, p + |EscapeByte(c)|, '"', val + [c])
  {
    var e := EscapeByte(c);
    assert s[p] == s[p..][0] == e[0];
    if |e| == 2 {
      assert s[p + 1] == s[p..][1] == e[1];
    }
  }

  /** Reading the escaped text of a clean string. */
  lemma {:induction false} ReadEscaped(s: string, p: nat, str: string, rest: string, val: string)
    requires p <= |s| && s[p..] == Escaped(str) + rest && Writable(str)
    ensures p + |Escaped(str)| <= |s| && s[p + |Escaped(str)|..] == rest
    ensures Literal(s, p, '"', val) == Literal(s, p + |Escaped(str)|, '"', val + str)
    decreases |str|
  {
    hide Literal, EscapeByte;
    if str == [] {
      assert val + str == val && Escaped(str) + rest == rest;
    } else {
      var e := EscapeByte(str[0]);
      Step(s, p, e, Escaped(str[1..]), rest);
      ReadEscapedByte(s, p, str[0], val);
      ReadEscaped(s, p + |e|, str[1..], rest, val + [str[0]]);
      assert val + [str[0]] + str[1..] == val + str;
    }
  }

  lemma Step(s: string, p: nat, a: string, b: string, c: string)
    requires p <= |s| && s[p..] == a + b + c
    ensures a <= s[p..] && p + |a| <= |s| && s[p + |a|..] == b + c
  {
    assert s[p + |a|..] == s[p..][|a|..];
  }

  /** The text of a string value as the writer lays it out, followed by anything. */
  function Quoted(str: string, rest: string): string { "\"" + Escaped(str) + ("\"" + rest) }

  lemma WritableIsRecovered(str: string, rest: string)
    requires Writable(str)
    ensures Literal(Quoted(str, rest), 1, '"', [])
      == Some((str, SkipBlanks(Quoted(str, rest), |Escaped(str)| + 2)))
  {
    var s := Quoted(str, rest);
    assert s[1..] == Escaped(str) + ("\"" + rest);
    hide Escaped, Literal, SkipBlanks;
    ReadEscaped(s, 1, str, "\"" + rest, []);
    assert [] + str == str;
    assert s[|Escaped(str)| + 1] == s[|Escaped(str)| + 1..][0] == '"';
    LiteralEnds(s, |Escaped(str)| + 1, str);
  }

  lemma LiteralEnds(s: string, p: nat, val: string)
    requires p < |s| && s[p] == '"'
    ensures Literal(s, p, '"', val) == Some((val, SkipBlanks(s, p + 1)))
  {
  }

  lemma {:induction false} LiteralExtends(s: string, p: nat, delim: char, val: string)
    requires p <= |s| && Literal(s, p, delim, val).Some?
    ensures val <= Literal(s, p, delim, val).value.0
    decreases |s| - p
  {
    if delim == '"' && s[p] == '\\' {
      var e := ReadEscape(s, p).value;
      LiteralExtends(s, e.1, delim, val + e.0);
    } else if s[p] != delim {
      LiteralExtends(s, p + 1, delim, val + [s[p]]);
    }
  }

  /** Hexadecimal digits in escaped text stand for themselves. */
  lemma {:induction false} HexDigitsArePlain(text: string, y: string, rest: string, n: nat)
    requires text == Escaped(y) + ("\"" + rest) && n <= |text|
    requires forall i :: 0 <= i < n ==> IsHexDigit(text[i])
    ensures n <= |y| && text[..n] == y[..n] && text[n..] == Escaped(y[n..]) + ("\"" + rest)
    decreases n
  {
    if n == 0 {
      assert y[0..] == y && text[0..] == text;
    } else {
      hide Escaped, IsHexDigit;
      OneHexDigit(text, y, rest);
      var tail := Escaped(y[1..]) + ("\"" + rest);
      Behind(text, y[0], tail, n);
      HexDigitsArePlain(tail, y[1..], rest, n - 1);
      assert y == [y[0]] + y[1..];
      Behind(y, y[0], y[1..], n);
    }
  }

  lemma OneHexDigit(text: string, y: string, rest: string)
    requires text == Escaped(y) + ("\"" + rest) && IsHexDigit(text[0])
    ensures y != [] && text == [y[0]] + (Escaped(y[1..]) + ("\"" + rest))
  {
    FirstOfEscaped(y, "\"" + rest);
    if y != [] {
      EscapeByteIsSome(y[0]);
    }
    hide Escaped, EscapeByte;
  }

  lemma Behind(text: string, c: char, tail: string, n: nat)
    requires text == [c] + tail && 1 <= n <= |text|
    ensures text[..n] == [c] + tail[..n - 1] && text[n..] == tail[n - 1..]
    ensures forall i :: 0 <= i < n - 1 ==> tail[i] == text[i + 1]
  {
  }

  lemma FirstOfEscaped(y: string, tail: string)
    requires tail != []
    ensures var text := Escaped(y) + tail;
      if y == [] then text[0] == tail[0]
      else text[0] == EscapeByte(y[0])[0] && text == EscapeByte(y[0]) + (Escaped(y[1..]) + tail)
  {
    if y == [] {
      assert Escaped(y) + tail == tail;
    } else {
      EscapeByteIsSome(y[0]);
      hide EscapeByte;
      assert Escaped(y) == EscapeByte(y[0]) + Escaped(y[1..]);
      hide Escaped;
      Associates(EscapeByte(y[0]), Escaped(y[1..]), tail);
    }
  }

  lemma EscapeByteIsSome(c: char)
    ensures EscapeByte(c) != []
    ensures IsHexDigit(EscapeByte(c)[0]) ==> EscapeByte(c) == [c]
  {
  }

  ghost predicate AllHex(s: string) { forall i :: 0 <= i < |s| ==> IsHexDigit(s[i]) }

  lemma HexOfControl(c: char)
    requires c as int <= 0x1f
    ensures 1 <= |Hex(c as int)| <= 2
    ensures AllHex(Hex(c as int))
    ensures c as int > 0 ==> HexValue(Hex(c as int)[0]) >= 1
    ensures c as int == 0 ==> Hex(c as int) == "0"
  {
  }

  lemma FourHexDigits(s: string, p: nat)
    requires p <= |s| && ParseHex(s, p, 4, 0).Some?
    ensures p + 4 <= |s| && IsHexDigit(s[p]) && IsHexDigit(s[p + 1]) && IsHexDigit(s[p + 2]) && IsHexDigit(s[p + 3])
    ensures ParseHex(s, p, 4, 0).value.0
      == HexValue(s[p]) * 0x1000 + HexValue(s[p + 1]) * 0x100 + HexValue(s[p + 2]) * 0x10 + HexValue(s[p + 3])
    ensures ParseHex(s, p, 4, 0).value.0 <= 0xffff
  {
    hide HexValue, IsHexDigit;
    var v1 := HexValue(s[p]);
    var v2 := v1 * 16 + HexValue(s[p + 1]);
    var v3 := v2 * 16 + HexValue(s[p + 2]);
    assert ParseHex(s, p, 4, 0) == ParseHex(s, p + 1, 3, v1);
    assert ParseHex(s, p + 1, 3, v1) == ParseHex(s, p + 2, 2, v2);
    assert ParseHex(s, p + 2, 2, v2) == ParseHex(s, p + 3, 1, v3);
  }

  /** A short code point whose first byte is a control byte is that control byte. */
  lemma EncodedControl(cp: nat, c: char)
    requires cp <= 0xffff && c as int <= 0x1f
    ensures 1 <= |EncodeCodepoint(cp)| <= 3
    ensures EncodeCodepoint(cp)[0] == c ==> cp == c as int && |EncodeCodepoint(cp)| == 1
  {
  }

  /** The text of an unpadded \u escape, and where four hexadecimal digits of it end. */
  lemma ControlLayout(s: string, p: nat, hex: string, y: string, rest: string)
    requires p <= |s| && s[p..] == "\\u" + hex + (Escaped(y) + ("\"" + rest))
    requires AllHex(hex) && 1 <= |hex| <= 2
    ensures p + 2 < |s| && s[p] == '\\' && s[p + 1] == 'u' && s[p + 2] == hex[0]
    ensures ParseHex(s, p + 2, 4, 0).Some? ==>
      4 - |hex| <= |y| && s[p + 6..] == Escaped(y[4 - |hex|..]) + ("\"" + rest)
  {
    var text, n := Escaped(y) + ("\"" + rest), 4 - |hex|;
    assert s[p] == s[p..][0] && s[p + 1] == s[p..][1] && s[p + 2] == s[p..][2];
    var tail := s[p + 2 + |hex|..];
    assert tail == s[p..][2 + |hex|..] == text;
    if ParseHex(s, p + 2, 4, 0).Some? {
      assert forall i :: 0 <= i < n ==> text[i] == tail[i] == s[p + 2 + |hex| + i];
      HexDigitsArePlain(text, y, rest, n);
      assert s[p + 6..] == tail[n..];
    }
  }

  lemma UnicodeEscape(s: string, p: nat)
    requires p + 1 < |s| && s[p + 1] == 'u' && ReadEscape(s, p).Some?
    ensures ParseHex(s, p + 2, 4, 0).Some? && ParseHex(s, p + 2, 4, 0).value.0 <= 0x10ffff
    ensures ReadEscape(s, p) == Some((EncodeCodepoint(ParseHex(s, p + 2, 4, 0).value.0), p + 6))
  {
    hide EncodeCodepoint;
  }

  lemma ControlText(c: char, a: string, b: string)
    requires IsOtherControl(c)
    ensures EscapeByte(c) + a + b == "\\u" + Hex(c as int) + (a + b)
  {
    Associates("\\u" + Hex(c as int), a, b);
  }

  /** What the reader makes of an unpadded \u escape: never the byte it was written for, except
      that \u0 followed by three literal zeros gives a NUL and swallows the zeros. */
  lemma ReadControl(s: string, p: nat, c: char, y: string, rest: string)
    requires IsOtherControl(c) && p <= |s| && s[p..] == EscapeByte(c) + Escaped(y) + ("\"" + rest)
    requires p < |s| && ReadEscape(s, p).Some?
    ensures var n, e := 4 - |Hex(c as int)|, ReadEscape(s, p).value;
      && 2 <= n <= 3 && n <= |y| && e.1 == p + 6
      && s[e.1..] == Escaped(y[n..]) + ("\"" + rest)
      && 1 <= |e.0| <= 3
      && (e.0[0] == c ==> n == 3 && |e.0| == 1)
  {
    hide Escaped, EncodeCodepoint, Hex, HexValue, ReadEscape, ParseHex, EscapeByte;
    HexOfControl(c);
    var hex := Hex(c as int);
    ControlText(c, Escaped(y), "\"" + rest);
    ControlLayout(s, p, hex, y, rest);
    UnicodeEscape(s, p);
    FourHexDigits(s, p + 2);
    EncodedControl(ParseHex(s, p + 2, 4, 0).value.0, c);
  }

  /** The reader never makes more bytes than the writer was given. */
  lemma {:induction false} ReadNoMoreThanWritten(s: string, p: nat, y: string, rest: string, val: string)
    requires p <= |s| && s[p..] == Escaped(y) + ("\"" + rest) && Literal(s, p, '"', val).Some?
    ensures |Literal(s, p, '"', val).value.0| <= |val| + |y|
    decreases |y|
  {
    hide EscapeByte, ReadEscape;
    if y == [] {
      assert s[p] == s[p..][0] == '"';
    } else if IsOtherControl(y[0]) {
      ControlStarts(s, p, y[0], Escaped(y[1..]) + ("\"" + rest));
      Step(s, p, EscapeByte(y[0]), Escaped(y[1..]), "\"" + rest);
      ReadControl(s, p, y[0], y[1..], rest);
      var e, n := ReadEscape(s, p).value, 4 - |Hex(y[0] as int)|;
      ReadNoMoreThanWritten(s, e.1, y[1..][n..], rest, val + e.0);
    } else {
      Step(s, p, EscapeByte(y[0]), Escaped(y[1..]), "\"" + rest);
      ReadEscapedByte(s, p, y[0], val);
      ReadNoMoreThanWritten(s, p + |EscapeByte(y[0])|, y[1..], rest, val + [y[0]]);
    }
  }

  lemma ControlStarts(s: string, p: nat, c: char, tail: string)
    requires IsOtherControl(c) && p <= |s| && s[p..] == EscapeByte(c) + tail
    ensures p < |s| && s[p] == '\\'
  {
    assert s[p] == s[p..][0];
  }

  lemma UnwritableIsLost(str: string, rest: string, k: nat)
    requires k < |str| && IsOtherControl(str[k]) && Writable(str[..k])
    requires Literal(Quoted(str, rest), 1, '"', []).Some?
    ensures Literal(Quoted(str, rest), 1, '"', []).value.0 != str
  {
    hide EscapeByte, ReadEscape;
    var s, pre, c, y := Quoted(str, rest), str[..k], str[k], str[k + 1..];
    var tail := EscapeByte(c) + Escaped(y) + ("\"" + rest);
    EscapedConcat(pre, [c] + y);
    assert str == pre + ([c] + y) && ([c] + y)[1..] == y;
    assert s[1..] == Escaped(pre) + tail;
    ReadEscaped(s, 1, pre, tail, []);
    assert [] + pre == pre;
    var p := 1 + |Escaped(pre)|;
    ControlIsLost(s, p, pre, c, y, rest);
  }

  lemma ControlIsLost(s: string, p: nat, pre: string, c: char, y: string, rest: string)
    requires IsOtherControl(c) && p <= |s| && s[p..] == EscapeByte(c) + Escaped(y) + ("\"" + rest)
    requires Literal(s, p, '"', pre).Some?
    ensures Literal(s, p, '"', pre).value.0 != pre + ([c] + y)
  {
    hide EscapeByte, ReadEscape, Escaped, Hex, IsOtherControl;
    Associates(EscapeByte(c), Escaped(y), "\"" + rest);
    ControlStarts(s, p, c, Escaped(y) + ("\"" + rest));
    var e := ReadEscape(s, p).value;
    ReadControl(s, p, c, y, rest);
    var result := Literal(s, p, '"', pre).value.0;
    assert Literal(s, p, '"', pre) == Literal(s, e.1, '"', pre + e.0);
    LiteralExtends(s, e.1, '"', pre + e.0);
    assert result[|pre|] == (pre + e.0)[|pre|] == e.0[0];
    assert (pre + ([c] + y))[|pre|] == c;
    ReadNoMoreThanWritten(s, e.1, y[4 - |Hex(c as int)|..], rest, pre + e.0);
  }

  lemma {:induction false} EscapedConcat(a: string, b: string)
    ensures Escaped(a + b) == Escaped(a) + Escaped(b)
  {
    if a == [] {
      assert a + b == b;
    } else {
      assert (a + b)[1..] == a[1..] + b;
      EscapedConcat(a[1..], b);
    }
  }

  lemma {:induction false} FirstUnwritable(str: string) returns (k: nat)
    requires !Writable(str)
    ensures k < |str| && IsOtherControl(str[k]) && Writable(str[..k])
  {
    k := 0;
    while !IsOtherControl(str[k])
      invariant k < |str| && forall i :: 0 <= i < k ==> !IsOtherControl(str[i])
      decreases |str| - k
    {
      k := k + 1;
    }
  }

  /** Reading what was written gives the string back exactly when its only control bytes are
      \b, \t, \n, \f and \r. */
  lemma StringRoundTripExactly(str: string, rest: string)
    ensures (Literal(Quoted(str, rest), 1, '"', []).Some? && Literal(Quoted(str, rest), 1, '"', []).value.0 == str)
      <==> Writable(str)
  {
    if Writable(str) {
      WritableIsRecovered(str, rest);
    } else {
      var k := FirstUnwritable(str);
      if Literal(Quoted(str, rest), 1, '"', []).Some? {
        UnwritableIsLost(str, rest, k);
      }
    }
  }

  // ---- Escapes as they are written and read ----

  /** What the writer puts for each control character, quote and backslash; the `\u` form is not
      padded. */
  lemma {:induction false} EscapesAsWritten()
    ensures EscapeByte(8 as char) == "\\b" && EscapeByte(9 as char) == "\\t" && EscapeByte(10 as char) == "\\n"
    ensures EscapeByte(12 as char) == "\\f" && EscapeByte(13 as char) == "\\r"
    ensures EscapeByte('"') == "\\\"" && EscapeByte('\\') == "\\\\"
    ensures EscapeByte(1 as char) == "\\u1" && EscapeByte(0x1f as char) == "\\u1f"
    ensures EscapeByte(0x7f as char) == [0x7f as char] && EscapeByte('a') == "a"
  {
    assert Hex(0x1f) == Hex(1) + [HexDigit(15)];
    assert "\\u" + "1" == "\\u1" && "\\u" + "1f" == "\\u1f";
  }

  /** The short escapes as they are read; any other letter but u and U is refused. */
  lemma EscapesAsRead(c: char)
    ensures c !in "btnfr\"\\uU" ==> ReadEscape(['\\', c], 0) == None
    ensures ReadEscape("\\b", 0) == Some(([8 as char], 2)) && ReadEscape("\\t", 0) == Some(([9 as char], 2))
    ensures ReadEscape("\\n", 0) == Some(([10 as char], 2)) && ReadEscape("\\f", 0) == Some(([12 as char], 2))
    ensures ReadEscape("\\r", 0) == Some(([13 as char], 2))
    ensures ReadEscape("\\\"", 0) == Some((['"'], 2)) && ReadEscape("\\\\", 0) == Some((['\\'], 2))
  {
  }

  /** The bytes of a code point in UTF-8 (section 3 of RFC 3629). */
  function Utf8(cp: nat): seq<int> {
    if cp < 0x80 then [cp]
    else if cp < 0x800 then [0xc0 + cp / 0x40, 0x80 + cp % 0x40]
    else if cp < 0x1_0000 then [0xe0 + cp / 0x1000, 0x80 + cp / 0x40 % 0x40, 0x80 + cp % 0x40]
    else [0xf0 + cp / 0x4_0000, 0x80 + cp / 0x1000 % 0x40, 0x80 + cp / 0x40 % 0x40, 0x80 + cp % 0x40]
  }

  function Codes(s: string): seq<int> { seq(|s|, i requires 0 <= i < |s| => s[i] as int) }

  /** A `\u` or `\U` escape stands for the UTF-8 bytes of its code point exactly when the code point
      does not need three bytes with the upper half of the middle ones. */
  lemma EncodesUtf8Exactly(cp: nat)
    requires cp <= 0x10ffff
    ensures Codes(EncodeCodepoint(cp)) == Utf8(cp) <==> !(0x800 <= cp <= 0xffff && cp / 0x40 % 0x40 >= 0x20)
  {
    if cp <= 0x7ff {
      ShortForms(cp);
    } else if cp <= 0xffff {
      ThreeByteForm(cp);
    } else {
      FourByteForm(cp);
    }
  }

  lemma ShortForms(cp: nat)
    requires cp <= 0x7ff
    ensures Codes(EncodeCodepoint(cp)) == Utf8(cp)
  {
    if cp > 0x7f {
      Fits(cp / 64, 32);
      var text := EncodeCodepoint(cp);
      assert text[0] as int == 0xc0 + cp / 64 && text[1] as int == 0x80 + cp % 64;
    }
  }

  lemma ThreeByteForm(cp: nat)
    requires 0x800 <= cp <= 0xffff
    ensures Codes(EncodeCodepoint(cp)) == Utf8(cp) <==> cp / 0x40 % 0x40 < 0x20
  {
    var text, middle := EncodeCodepoint(cp), cp / 64 % 64;
    Fits(cp / 4096, 16);
    LowerHalf(cp / 64);
    assert |text| == 3 && text[0] as int == 0xe0 + cp / 4096 && text[2] as int == 0x80 + cp % 64;
    assert text[1] as int == 0x80 + (if middle < 32 then middle else middle - 32);
    assert Codes(text)[1] == text[1] as int && Utf8(cp)[1] == 0x80 + middle;
    hide EncodeCodepoint;
    if middle < 32 {
      assert Codes(text) == Utf8(cp);
    }
  }

  lemma FourByteForm(cp: nat)
    requires 0xffff < cp <= 0x10ffff
    ensures Codes(EncodeCodepoint(cp)) == Utf8(cp)
  {
    Fits(cp / 0x4_0000, 8);
    var text := EncodeCodepoint(cp);
    assert text[0] as int == 0xf0 + cp / 0x4_0000 && text[1] as int == 0x80 + cp / 4096 % 64;
    assert text[2] as int == 0x80 + cp / 64 % 64 && text[3] as int == 0x80 + cp % 64;
  }

  lemma Fits(a: nat, n: nat)
    requires a < n
    ensures a % n == a
  {
  }

  lemma LowerHalf(a: nat)
    ensures a % 32 == if a % 64 < 32 then a % 64 else a % 64 - 32
  {
  }

  /** Four hexadecimal digits for `\u`, eight for `\U`, the first the most significant, in upper or
      lower case; halves of surrogate pairs are refused. */
  lemma {:induction false} UnicodeAsRead()
    ensures ReadEscape("\\u00e9", 0) == Some(([0xc3 as char, 0xa9 as char], 6))
    ensures ReadEscape("\\u00E9", 0) == Some(([0xc3 as char, 0xa9 as char], 6))
    ensures ReadEscape("\\U00000041", 0) == Some(("A", 10))
    ensures ReadEscape("\\ud800", 0) == None && ReadEscape("\\u41", 0) == None
  {
    SmallE("\\u00e9");
    SmallE("\\u00E9");
    SurrogateDigits();
    EightDigits();
    hide ParseHex;
    TooFewDigits();
  }

  /** `\u` with four hexadecimal digits is refused exactly for half of a surrogate pair; otherwise it
      is read as the code point of the digits. */
  lemma ShortUnicodeExactly(s: string, p: nat)
    requires p + 6 <= |s| && s[p] == '\\' && s[p + 1] == 'u' && forall i :: p + 2 <= i < p + 6 ==> IsHexDigit(s[i])
    ensures var a, b, c, d := HexValue(s[p + 2]), HexValue(s[p + 3]), HexValue(s[p + 4]), HexValue(s[p + 5]);
      var cp := a * 0x1000 + b * 0x100 + c * 0x10 + d;
      ReadEscape(s, p) == if 0xd800 <= cp <= 0xdfff then None else Some((EncodeCodepoint(cp), p + 6))
  {
    HexIsRead(s, p + 2, 4, 0);
    FourHexDigits(s, p + 2);
  }

  /** `\U` takes eight; and refuses, too, what is above the last code point. */
  lemma LongUnicodeExactly(s: string, p: nat)
    requires p + 10 <= |s| && s[p] == '\\' && s[p + 1] == 'U' && forall i :: p + 2 <= i < p + 10 ==> IsHexDigit(s[i])
    ensures ParseHex(s, p + 2, 8, 0).Some?
    ensures var cp := ParseHex(s, p + 2, 8, 0).value.0;
      ReadEscape(s, p)
      == if 0xd800 <= cp <= 0xdfff || cp > 0x10ffff then None else Some((EncodeCodepoint(cp), p + 10))
  {
    HexIsRead(s, p + 2, 8, 0);
  }

  lemma {:induction false} HexIsRead(s: string, p: nat, digits: nat, value: nat)
    requires p + digits <= |s| && forall i :: p <= i < p + digits ==> IsHexDigit(s[i])
    ensures ParseHex(s, p, digits, value).Some?
    decreases digits
  {
    if digits > 0 {
      HexIsRead(s, p + 1, digits - 1, value * 16 + HexValue(s[p]));
    }
  }

  lemma HexStep(s: string, p: nat, digits: nat, value: nat)
    requires p < |s| && IsHexDigit(s[p]) && digits > 0
    ensures ParseHex(s, p, digits, value) == ParseHex(s, p + 1, digits - 1, value * 16 + HexValue(s[p]))
  {
  }

  lemma HexEnd(s: string, p: nat, value: nat)
    requires p <= |s|
    ensures ParseHex(s, p, 0, value) == Some((value, p))
  {
  }

  lemma {:induction false} SmallE(s: string)
    requires s == "\\u00e9" || s == "\\u00E9"
    ensures ParseHex(s, 2, 4, 0) == Some((0xe9, 6))
  {
    hide ParseHex;
    HexStep(s, 2, 4, 0);
    HexStep(s, 3, 3, 0);
    HexStep(s, 4, 2, 0);
    HexStep(s, 5, 1, 0xe);
    HexEnd(s, 6, 0xe9);
  }

  lemma {:induction false} SurrogateDigits()
    ensures ParseHex("\\ud800", 2, 4, 0) == Some((0xd800, 6))
  {
    var s := "\\ud800";
    hide ParseHex;
    HexStep(s, 2, 4, 0);
    HexStep(s, 3, 3, 0xd);
    HexStep(s, 4, 2, 0xd8);
    HexStep(s, 5, 1, 0xd80);
    HexEnd(s, 6, 0xd800);
  }

  lemma {:induction false} EightDigits()
    ensures ParseHex("\\U00000041", 2, 8, 0) == Some((0x41, 10))
  {
    var s := "\\U00000041";
    hide ParseHex;
    HexStep(s, 2, 8, 0);
    HexStep(s, 3, 7, 0);
    HexStep(s, 4, 6, 0);
    HexStep(s, 5, 5, 0);
    HexStep(s, 6, 4, 0);
    HexStep(s, 7, 3, 0);
    HexStep(s, 8, 2, 0);
    HexStep(s, 9, 1, 4);
    HexEnd(s, 10, 0x41);
  }

  lemma {:induction false} TooFewDigits()
    ensures ParseHex("\\u41", 2, 4, 0) == None
  {
    var s := "\\u41";
    HexStep(s, 2, 4, 0);
    HexStep(s, 3, 3, 4);
    assert ParseHex(s, 4, 2, 0x41) == None;
  }

  /** Between single quotes nothing is an escape: the text up to the next quote is read as it
      stands. */
  lemma {:induction false} SingleQuotedIsVerbatim(text: string, rest: string, val: string)
    requires '\'' !in text
    ensures Literal(text + "'" + rest, 0, '\'', val) == Some((val + text, SkipBlanks(text + "'" + rest, |text| + 1)))
  {
    VerbatimFrom(text + "'" + rest, 0, |text|, val);
    assert (text + "'" + rest)[0..|text|] == text;
  }

  lemma {:induction false} VerbatimFrom(s: string, p: nat, q: nat, val: string)
    requires p <= q < |s| && s[q] == '\'' && forall i :: p <= i < q ==> s[i] != '\''
    ensures Literal(s, p, '\'', val) == Some((val + s[p..q], SkipBlanks(s, q + 1)))
    decreases q - p
  {
    if p == q {
      assert val + s[p..q] == val;
    } else {
      VerbatimFrom(s, p + 1, q, val + [s[p]]);
      assert val + [s[p]] + s[p + 1..q] == val + s[p..q];
    }
  }
}
