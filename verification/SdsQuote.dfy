/** sdscatrepr and sdssplitargs: quoting a byte string and splitting a line into arguments. */
module SdsQuote {
  import opened Bytes
  import opened SdsString

  const BEL: char := '\U{7}'
  const BS: char := '\U{8}'

  /** isprint and isspace in the C locale. */
  predicate IsPrint(c: char) { ' ' <= c <= '~' }

  predicate IsSpace(c: char) { c == ' ' || '\t' <= c <= '\r' }

  function HexPair(high: char, low: char): char {
    (HexValue(high) * 16 + HexValue(low)) as char
  }

  // ---- Printer ----

  function Escape(c: char): string
    requires IsByte(c)
  {
    if c == '\\' || c == '"' then ['\\', c]
    else if c == '\n' then "\\n"
    else if c == '\r' then "\\r"
    else if c == '\t' then "\\t"
    else if c == BEL then "\\a"
    else if c == BS then "\\b"
    else if IsPrint(c) then [c]
    else ['\\', 'x', HexDigit(c as int / 16), HexDigit(c as int % 16)]
  }

  function Escaped(s: string): string
    requires AreBytes(s)
  {
    if s == [] then [] else Escape(s[0]) + Escaped(s[1..])
  }

  function Quote(s: string): string { "\"" + s + "\"" }

  function Repr(s: string): string
    requires AreBytes(s)
  {
    Quote(Escaped(s))
  }

  lemma QuoteAppended(was: string, s: string)
    ensures was + "\"" + s + "\"" == was + Quote(s)
  {
  }

  /** The escapes of the first i bytes, in the order the loop appends them. */
  function EscapedTo(s: string, i: nat): string
    requires AreBytes(s) && i <= |s|
  {
    if i == 0 then [] else EscapedTo(s, i - 1) + Escape(s[i - 1])
  }

  lemma {:induction false} EscapedToTail(s: string, i: nat)
    requires AreBytes(s) && 1 <= i <= |s|
    ensures EscapedTo(s, i) == Escape(s[0]) + EscapedTo(s[1..], i - 1)
  {
    hide Escape;
    if i > 1 {
      EscapedToTail(s, i - 1);
      Associates(Escape(s[0]), EscapedTo(s[1..], i - 2), Escape(s[i - 1]));
    }
  }

  lemma {:induction false} EscapedToAll(s: string)
    requires AreBytes(s)
    ensures EscapedTo(s, |s|) == Escaped(s)
  {
    if s != [] {
      EscapedToTail(s, |s|);
      EscapedToAll(s[1..]);
    }
  }

  lemma EscapedToNothing(s: string)
    requires AreBytes(s)
    ensures EscapedTo(s, 0) == []
  {
  }

  lemma EscapedToNext(s: string, i: nat)
    requires AreBytes(s) && i < |s|
    ensures EscapedTo(s, i + 1) == EscapedTo(s, i) + Escape(s[i])
  {
  }

  /** Appends the quoted form of p to an SDS string, one byte at a time. */
  method CatRepr(s: Sds, p: string)
    requires s.Valid() && AreBytes(p)
    modifies s, s.buf
    ensures s.Valid() && (s.buf == old(s.buf) || fresh(s.buf))
    ensures s.Contents() == old(s.Contents()) + Repr(p)
  {
    hide Escape, Append, EscapedTo, Escaped, Quote, Sds.Contents;
    EscapedToNothing(p);
    ghost var was := s.Contents();
    s.CatLen("\"");
    var i := 0;
    ghost var start, text := s.Contents(), "";
    while i < |p|
      invariant 0 <= i <= |p|
      invariant s.Valid() && (s.buf == old(s.buf) || fresh(s.buf))
      invariant s.Contents() == start + text && text == EscapedTo(p, i)
    {
      var piece := Escape(p[i]);
      s.CatLen(piece);
      EscapedToNext(p, i);
      Associates(start, text, piece);
      i, text := i + 1, text + piece;
    }
    s.CatLen("\"");
    EscapedToAll(p);
    QuoteAppended(was, text);
  }

  // ---- Parser ----

  datatype Mode = Plain | InQuotes | InSingle

  function Unescape(c: char): char {
    match c
    case 'n' => '\n'
    case 'r' => '\r'
    case 't' => '\t'
    case 'b' => BS
    case 'a' => BEL
    case _ => c
  }

  predicate ClosesWell(rest: string) { At(rest, 1) == NUL || IsSpace(At(rest, 1)) }

  predicate EndsToken(c: char) { c in {' ', '\n', '\r', '\t', NUL} }

  /** Reads one token from `rest`: the token and what follows it, or None on unbalanced quotes. */
  function Token(rest: string, mode: Mode, cur: string): (r: Option<(string, string)>)
    ensures r.Some? ==> |r.value.1| <= |rest|
    ensures r.Some? && (mode != Plain || !EndsToken(At(rest, 0))) ==> |r.value.1| < |rest|
    decreases |rest|
  {
    var c := At(rest, 0);
    match mode
    case InQuotes =>
      if c == '\\' && At(rest, 1) == 'x' && IsHexDigit(At(rest, 2)) && IsHexDigit(At(rest, 3)) then
        Token(rest[4..], InQuotes, cur + [HexPair(At(rest, 2), At(rest, 3))])
      else if c == '\\' && At(rest, 1) != NUL then
        Token(rest[2..], InQuotes, cur + [Unescape(At(rest, 1))])
      else if c == '"' then
        if ClosesWell(rest) then Some((cur, rest[1..])) else None
      else if c == NUL then None
      else Token(rest[1..], InQuotes, cur + [c])
    case InSingle =>
      if c == '\\' && At(rest, 1) == '\'' then
        Token(rest[2..], InSingle, cur + ['\''])
      else if c == '\'' then
        if ClosesWell(rest) then Some((cur, rest[1..])) else None
      else if c == NUL then None
      else Token(rest[1..], InSingle, cur + [c])
    case Plain =>
      if c == NUL then Some((cur, rest))
      else if EndsToken(c) then Some((cur, rest[1..]))
      else if c == '"' then Token(rest[1..], InQuotes, cur)
      else if c == '\'' then Token(rest[1..], InSingle, cur)
      else Token(rest[1..], Plain, cur + [c])
  }

  function SkipBlanks(rest: string): (r: string)
    ensures |r| <= |rest| && !IsSpace(At(r, 0))
  {
    if IsSpace(At(rest, 0)) then SkipBlanks(rest[1..]) else rest
  }

  /** All arguments of a line, after those already read. */
  function Arguments(rest: string, vec: seq<string>): Option<seq<string>>
    decreases |rest|
  {
    var r := SkipBlanks(rest);
    if At(r, 0) == NUL then Some(vec)
    else
      match Token(r, Plain, [])
      case None => None
      case Some(t) => Arguments(t.1, vec + [t.0])
  }

  lemma Suffixes(line: string, p: nat)
    requires p <= |line|
    ensures At(line[p..], 0) == At(line, p) && At(line[p..], 1) == At(line, p + 1)
    ensures At(line[p..], 2) == At(line, p + 2) && At(line[p..], 3) == At(line, p + 3)
    ensures p + 1 <= |line| ==> line[p..][1..] == line[p + 1..]
    ensures p + 2 <= |line| ==> line[p..][2..] == line[p + 2..]
    ensures p + 4 <= |line| ==> line[p..][4..] == line[p + 4..]
  {
  }

  /** What is still to be read. */
  function From(line: string, p: nat): string
    requires p <= |line|
  {
    line[p..]
  }

  lemma FromMeans(line: string)
    ensures forall p: nat :: p <= |line| ==> From(line, p) == line[p..]
  {
  }

  /** One character, or one escape, of a token in double quotes. */
  lemma InQuotesStep(line: string, p: nat, cur: string)
    requires p <= |line|
    ensures Token(From(line, p), InQuotes, cur) ==
      var c := At(line, p);
      if c == '\\' && At(line, p + 1) == 'x' && IsHexDigit(At(line, p + 2)) && IsHexDigit(At(line, p + 3)) then
        Token(From(line, p + 4), InQuotes, cur + [HexPair(At(line, p + 2), At(line, p + 3))])
      else if c == '\\' && At(line, p + 1) != NUL then
        Token(From(line, p + 2), InQuotes, cur + [Unescape(At(line, p + 1))])
      else if c == '"' then
        if At(line, p + 1) == NUL || IsSpace(At(line, p + 1)) then Some((cur, From(line, p + 1))) else None
      else if c == NUL then None
      else Token(From(line, p + 1), InQuotes, cur + [c])
  {
    hide HexPair, Unescape, IsSpace;
    Suffixes(line, p);
  }

  lemma InSingleStep(line: string, p: nat, cur: string)
    requires p <= |line|
    ensures Token(From(line, p), InSingle, cur) ==
      var c := At(line, p);
      if c == '\\' && At(line, p + 1) == '\'' then Token(From(line, p + 2), InSingle, cur + ['\''])
      else if c == '\'' then
        if At(line, p + 1) == NUL || IsSpace(At(line, p + 1)) then Some((cur, From(line, p + 1))) else None
      else if c == NUL then None
      else Token(From(line, p + 1), InSingle, cur + [c])
  {
    hide IsSpace;
    Suffixes(line, p);
  }

  lemma PlainStep(line: string, p: nat, cur: string)
    requires p <= |line|
    ensures Token(From(line, p), Plain, cur) ==
      var c := At(line, p);
      if EndsToken(c) then Some((cur, if c == NUL then From(line, p) else From(line, p + 1)))
      else if c == '"' then Token(From(line, p + 1), InQuotes, cur)
      else if c == '\'' then Token(From(line, p + 1), InSingle, cur)
      else Token(From(line, p + 1), Plain, cur + [c])
    ensures At(line, p) == NUL ==> EndsToken(At(line, p))
  {
    Suffixes(line, p);
  }

  /** A character that is not the terminator stands inside the line. */
  lemma InLine(line: string, p: nat)
    ensures At(line, p) != NUL ==> p < |line|
    ensures At(line, p + 1) != NUL ==> p + 1 < |line|
    ensures IsHexDigit(At(line, p + 3)) ==> p + 3 < |line| && At(line, p + 3) != NUL
  {
  }

  /** The token loop: reads the token that starts at `start`, and where it ends. */
  method ReadToken(line: string, start: nat) returns (r: Option<(string, nat)>)
    requires start < |line| && !EndsToken(line[start])
    ensures r.Some? ==> start < r.value.1 <= |line|
    ensures r.Some? ==> Token(line[start..], Plain, []) == Some((r.value.0, line[r.value.1..]))
    ensures r == None ==> Token(line[start..], Plain, []) == None
  {
    assert !EndsToken(At(line, start));
    assert From(line, start) == line[start..];
    hide Token, HexPair, Unescape, IsSpace, IsHexDigit, EndsToken, At, From;
    var p, inq, insq, done := start, false, false, false;
    var current := "";
    while !done
      invariant start <= p <= |line| && !(inq && insq)
      invariant p > start || (!done && !inq && !insq)
      invariant Token(From(line, start), Plain, []) ==
        if done then Some((current, From(line, p)))
        else Token(From(line, p), if inq then InQuotes else if insq then InSingle else Plain, current)
      decreases !done, |line| - p
    {
      var c := At(line, p);
      InLine(line, p);
      if inq {
        InQuotesStep(line, p, current);
        if c == '\\' && At(line, p + 1) == 'x' && IsHexDigit(At(line, p + 2)) && IsHexDigit(At(line, p + 3)) {
          current := current + [HexPair(At(line, p + 2), At(line, p + 3))];
          p := p + 3;
        } else if c == '\\' && At(line, p + 1) != NUL {
          p := p + 1;
          current := current + [Unescape(At(line, p))];
        } else if c == '"' {
          if At(line, p + 1) != NUL && !IsSpace(At(line, p + 1)) {
            return None;
          }
          done := true;
        } else if c == NUL {
          return None;
        } else {
          current := current + [c];
        }
      } else if insq {
        InSingleStep(line, p, current);
        if c == '\\' && At(line, p + 1) == '\'' {
          p := p + 1;
          current := current + ['\''];
        } else if c == '\'' {
          if At(line, p + 1) != NUL && !IsSpace(At(line, p + 1)) {
            return None;
          }
          done := true;
        } else if c == NUL {
          return None;
        } else {
          current := current + [c];
        }
      } else {
        PlainStep(line, p, current);
        if EndsToken(c) {
          done := true;
        } else if c == '"' {
          inq := true;
        } else if c == '\'' {
          insq := true;
        } else {
          current := current + [c];
        }
      }
      if At(line, p) != NUL {
        p := p + 1;
      }
    }
    FromMeans(line);
    return Some((current, p));
  }

  lemma BlanksSkipped(line: string, outer: nat, p: nat, vec: seq<string>)
    requires outer <= p <= |line| && SkipBlanks(line[outer..]) == SkipBlanks(line[p..]) && !IsSpace(At(line, p))
    ensures Arguments(line[outer..], vec) == Arguments(line[p..], vec)
    ensures At(line, p) == NUL ==> Arguments(line[p..], vec) == Some(vec)
  {
    hide Token;
    Suffixes(line, p);
    assert SkipBlanks(line[p..]) == line[p..];
  }

  lemma ArgumentsGoOn(rest: string, vec: seq<string>)
    requires At(rest, 0) != NUL && !IsSpace(At(rest, 0))
    ensures Arguments(rest, vec) == (match Token(rest, Plain, [])
                                     case None => None
                                     case Some(t) => Arguments(t.1, vec + [t.0]))
  {
    hide Token;
    assert SkipBlanks(rest) == rest;
  }

  /** Splits a line; terminates on every input. None stands for the NULL result. */
  method SplitArgs(line: string) returns (r: Option<seq<string>>)
    ensures r == Arguments(line, [])
  {
    var p, vector: seq<string> := 0, [];
    assert line[0..] == line;
    hide Arguments, Token;
    while true
      invariant 0 <= p <= |line|
      invariant Arguments(line, []) == Arguments(line[p..], vector)
      decreases |line| - p
    {
      ghost var outer := p;
      while At(line, p) != NUL && IsSpace(At(line, p))
        invariant outer <= p <= |line|
        invariant SkipBlanks(line[outer..]) == SkipBlanks(line[p..])
        decreases |line| - p
      {
        Suffixes(line, p);
        p := p + 1;
      }
      Suffixes(line, p);
      BlanksSkipped(line, outer, p, vector);
      if At(line, p) == NUL {
        return Some(vector);
      }
      var token := ReadToken(line, p);
      ArgumentsGoOn(line[p..], vector);
      if token == None {
        return None;
      }
      vector, p := vector + [token.value.0], token.value.1;
    }
  }

  // ---- The printer and the parser undo each other ----

  lemma TokenReadsEscape(c: char, tail: string, cur: string)
    requires IsByte(c)
    ensures Token(Escape(c) + tail, InQuotes, cur) == Token(tail, InQuotes, cur + [c])
  {
    if |Escape(c)| == 4 {
      TokenReadsHex(c, tail, cur);
    } else {
      TokenReadsShort(c, tail, cur);
    }
  }

  lemma TokenReadsHex(c: char, tail: string, cur: string)
    requires IsByte(c) && |Escape(c)| == 4
    ensures Token(Escape(c) + tail, InQuotes, cur) == Token(tail, InQuotes, cur + [c])
  {
    var rest := Escape(c) + tail;
    assert rest[4..] == tail;
    assert rest[0] == '\\' && rest[1] == 'x';
    assert rest[2] == HexDigit(c as int / 16) && rest[3] == HexDigit(c as int % 16);
    assert HexPair(rest[2], rest[3]) == c;
    hide Escape, HexDigit, HexValue, IsHexDigit, HexPair, Unescape;
  }

  lemma TokenReadsShort(c: char, tail: string, cur: string)
    requires IsByte(c) && |Escape(c)| != 4
    ensures Token(Escape(c) + tail, InQuotes, cur) == Token(tail, InQuotes, cur + [c])
  {
    hide HexDigit, HexValue, IsHexDigit, HexPair;
    var rest := Escape(c) + tail;
    assert rest[|Escape(c)|..] == tail;
  }

  lemma EscapedOpens(s: string, tail: string)
    requires AreBytes(s) && s != []
    ensures Escaped(s) + "\"" + tail == Escape(s[0]) + (Escaped(s[1..]) + "\"" + tail)
  {
    hide Escape;
    Associates(Escape(s[0]), Escaped(s[1..]), "\"");
    Associates(Escape(s[0]), Escaped(s[1..]) + "\"", tail);
  }

  lemma ClosingQuote(rest: string, tail: string, cur: string)
    requires rest == "\"" + tail && (tail == [] || IsSpace(tail[0]))
    ensures Token(rest, InQuotes, cur) == Some((cur, tail))
  {
    assert rest[0] == '"' && rest[1..] == tail;
  }

  lemma {:induction false} TokenReadsRepr(s: string, tail: string, cur: string)
    requires AreBytes(s) && (tail == [] || IsSpace(tail[0]))
    ensures Token(Escaped(s) + "\"" + tail, InQuotes, cur) == Some((cur + s, tail))
  {
    if s == [] {
      ClosingQuote("\"" + tail, tail, cur);
      assert Escaped(s) + "\"" + tail == "\"" + tail && cur + s == cur;
    } else {
      hide Token, Escape, Escaped;
      TokenReadsRepr(s[1..], tail, cur + [s[0]]);
      ReadFirstByte(s, tail, cur);
    }
  }

  lemma ReadFirstByte(s: string, tail: string, cur: string)
    requires AreBytes(s) && s != []
    requires Token(Escaped(s[1..]) + "\"" + tail, InQuotes, cur + [s[0]]) == Some((cur + [s[0]] + s[1..], tail))
    ensures Token(Escaped(s) + "\"" + tail, InQuotes, cur) == Some((cur + s, tail))
  {
    hide Token, Escape, Escaped;
    EscapedOpens(s, tail);
    TokenReadsEscape(s[0], Escaped(s[1..]) + "\"" + tail, cur);
    assert cur + [s[0]] + s[1..] == cur + s;
  }

  /** Each argument quoted, joined with one space. */
  function QuotedLine(args: seq<string>): string
    requires forall a <- args :: AreBytes(a)
    decreases |args|, 0
  {
    if args == [] then [] else Repr(args[0]) + Separated(args[1..])
  }

  function Separated(args: seq<string>): string
    requires forall a <- args :: AreBytes(a)
    decreases |args|, 1
  {
    if args == [] then [] else " " + QuotedLine(args)
  }

  lemma ArgumentsReadOne(a: string, tail: string, vec: seq<string>)
    requires AreBytes(a) && (tail == [] || IsSpace(tail[0]))
    ensures Arguments(Repr(a) + tail, vec) == Arguments(tail, vec + [a])
  {
    var line, rest := Repr(a) + tail, Escaped(a) + "\"" + tail;
    TokenReadsRepr(a, tail, []);
    ReprOpens(a, tail);
    hide Escaped, Repr, Token, Arguments;
    assert [] + a == a;
    OpeningQuote(line, rest);
    OneArgument(line, a, tail, vec);
  }

  /** The arguments of a line that starts with a token. */
  lemma OneArgument(line: string, a: string, tail: string, vec: seq<string>)
    requires At(line, 0) != NUL && !IsSpace(At(line, 0)) && Token(line, Plain, []) == Some((a, tail))
    ensures Arguments(line, vec) == Arguments(tail, vec + [a])
  {
    hide Token;
    assert SkipBlanks(line) == line;
  }

  lemma ReprOpens(a: string, tail: string)
    requires AreBytes(a)
    ensures Repr(a) + tail == "\"" + (Escaped(a) + "\"" + tail)
  {
    hide Escaped;
  }

  lemma OpeningQuote(line: string, rest: string)
    requires line == "\"" + rest
    ensures At(line, 0) == '"' && Token(line, Plain, []) == Token(rest, InQuotes, [])
  {
    assert line[1..] == rest;
  }

  lemma ArgumentsSkipSpace(line: string, vec: seq<string>)
    ensures Arguments(" " + line, vec) == Arguments(line, vec)
  {
    assert (" " + line)[1..] == line;
    assert SkipBlanks(" " + line) == SkipBlanks(line);
  }

  lemma ArgumentsReadNext(a: string, tail: string, vec: seq<string>)
    requires AreBytes(a) && (tail == [] || IsSpace(tail[0]))
    ensures Arguments(" " + (Repr(a) + tail), vec) == Arguments(tail, vec + [a])
  {
    ArgumentsSkipSpace(Repr(a) + tail, vec);
    ArgumentsReadOne(a, tail, vec);
  }

  lemma {:induction false} ArgumentsReadSeparated(args: seq<string>, vec: seq<string>)
    requires forall a <- args :: AreBytes(a)
    ensures Arguments(Separated(args), vec) == Some(vec + args)
    decreases |args|
  {
    if args == [] {
      assert vec + args == vec;
    } else {
      var rest := args[1..];
      ArgumentsReadSeparated(rest, vec + [args[0]]);
      assert vec + [args[0]] + rest == vec + args;
      assert Separated(rest) == [] || Separated(rest)[0] == ' ';
      ArgumentsReadNext(args[0], Separated(rest), vec);
    }
  }

  /** For every list of byte strings: quoting, joining with a space and splitting gives it back. */
  lemma QuoteSplitRoundTrip(args: seq<string>)
    requires forall a <- args :: AreBytes(a)
    ensures Arguments(QuotedLine(args), []) == Some(args)
  {
    ArgumentsReadSeparated(args, []);
    if args != [] {
      ArgumentsSkipSpace(QuotedLine(args), []);
    }
    assert [] + args == args;
  }

  // ---- What quoted forms look like, and the other forms of tokens ----

  /** Printable text without quotes and backslashes is quoted as it stands. */
  lemma {:induction false} PrintableStandsAsItself(s: string)
    requires forall i :: 0 <= i < |s| ==> ' ' <= s[i] <= '~' && s[i] != '"' && s[i] != '\\'
    ensures AreBytes(s) && Repr(s) == "\"" + s + "\""
  {
    PrintableIsNotEscaped(s);
  }

  lemma {:induction false} PrintableIsNotEscaped(s: string)
    requires forall i :: 0 <= i < |s| ==> ' ' <= s[i] <= '~' && s[i] != '"' && s[i] != '\\'
    ensures AreBytes(s) && Escaped(s) == s
  {
    if s != [] {
      PrintableIsNotEscaped(s[1..]);
      assert Escape(s[0]) == [s[0]] && [s[0]] + s[1..] == s;
    }
  }

  /** The escapes, and a byte that has none. */
  lemma EscapesAsWritten()
    ensures Escape('"') == "\\\"" && Escape('\\') == "\\\\"
    ensures Escape('\n') == "\\n" && Escape('\r') == "\\r" && Escape('\t') == "\\t"
    ensures Escape(7 as char) == "\\a" && Escape(8 as char) == "\\b"
    ensures Escape(0 as char) == "\\x00" && Escape(0x1b as char) == "\\x1b" && Escape(0xff as char) == "\\xff"
    ensures Escape(0x7f as char) == "\\x7f" && Escape(0x80 as char) == "\\x80"
  {
  }

  /** Any byte that is neither printable nor among these is written as two hexadecimal digits. */
  lemma OthersAreHexadecimal(c: char)
    requires IsByte(c) && (c < ' ' || c > '~')
    requires c !in {'\n', '\r', '\t', 7 as char, 8 as char}
    ensures Escape(c) == ['\\', 'x', "0123456789abcdef"[c as int / 16], "0123456789abcdef"[c as int % 16]]
  {
    DigitsAreWritten(c as int / 16);
    DigitsAreWritten(c as int % 16);
  }

  /** Between double quotes a backslash takes the character after it as it is, unless that is one of
      five letters or `x` with two hexadecimal digits. */
  lemma OtherEscapesStandForThemselves(c: char, tail: string, cur: string)
    requires c != NUL && c !in "nrtba" && (c == 'x' ==> !IsHexDigit(At(tail, 0)) || !IsHexDigit(At(tail, 1)))
    ensures Token(['\\', c] + tail, InQuotes, cur) == Token(tail, InQuotes, cur + [c])
  {
    var rest := ['\\', c] + tail;
    assert rest[2..] == tail && At(rest, 2) == At(tail, 0) && At(rest, 3) == At(tail, 1);
  }

  /** An unquoted token ends at a space, a newline, a carriage return or a tab, and at no other
      character, although the vertical tab and the form feed are skipped in front of one. */
  lemma TokensEndExactly(c: char, tail: string, cur: string)
    requires c != NUL && c != '"' && c != '\''
    ensures Token([c] + tail, Plain, cur)
      == if c == ' ' || c == '\n' || c == '\r' || c == '\t' then Some((cur, tail)) else Token(tail, Plain, cur + [c])
    ensures SkipBlanks([c] + tail)
      == if c in {' ', '\n', '\r', '\t', '\U{b}', '\U{c}'} then SkipBlanks(tail) else [c] + tail
  {
    assert ([c] + tail)[1..] == tail;
  }

  /** Quotes that are not closed, or closed in front of something else than a blank, are refused. */
  lemma {:induction false} UnbalancedIsRefused(s: string, tail: string, cur: string)
    requires AreBytes(s)
    ensures Token(Escaped(s), InQuotes, cur) == None
    ensures tail != [] && tail[0] != NUL && !IsSpace(tail[0]) ==>
      Token(Escaped(s) + "\"" + tail, InQuotes, cur) == None
  {
    if s == [] {
      assert [] + "\"" + tail == "\"" + tail;
      if tail != [] && tail[0] != NUL && !IsSpace(tail[0]) {
        ClosedTooEarly(tail, cur);
      }
    } else {
      hide Token, Escape, Escaped;
      UnbalancedIsRefused(s[1..], tail, cur + [s[0]]);
      EscapedFirst(s);
      EscapedOpens(s, tail);
      TokenReadsEscape(s[0], Escaped(s[1..]) + "\"" + tail, cur);
      TokenReadsEscape(s[0], Escaped(s[1..]), cur);
    }
  }

  lemma EscapedFirst(s: string)
    requires AreBytes(s) && s != []
    ensures Escaped(s) == Escape(s[0]) + Escaped(s[1..])
  {
    hide Escape;
  }

  lemma ClosedTooEarly(tail: string, cur: string)
    requires tail != [] && tail[0] != NUL && !IsSpace(tail[0])
    ensures Token("\"" + tail, InQuotes, cur) == None
  {
    assert ("\"" + tail)[1] == tail[0];
  }

  /** Text between single quotes: only the quote itself is escaped. */
  function SingleEscaped(s: string): string {
    if s == [] then [] else (if s[0] == '\'' then "\\'" else [s[0]]) + SingleEscaped(s[1..])
  }

  /** Text without NUL that does not end in a backslash is read back from single quotes. */
  lemma {:induction false} TokenReadsSingleQuoted(s: string, tail: string, cur: string)
    requires NUL !in s && (s != [] ==> s[|s| - 1] != '\\') && (tail == [] || IsSpace(tail[0]))
    ensures Token(SingleEscaped(s) + "'" + tail, InSingle, cur) == Some((cur + s, tail))
  {
    var rest := SingleEscaped(s) + "'" + tail;
    if s == [] {
      assert rest == "'" + tail && rest[1..] == tail && cur + s == cur;
    } else {
      var c, after := s[0], SingleEscaped(s[1..]) + "'" + tail;
      assert s[0] in s && forall c :: c in s[1..] ==> c in s;
      assert rest == (if c == '\'' then "\\'" else [c]) + after;
      SingleFirst(s[1..], tail);
      SingleStep(c, after, cur);
      hide Token, SingleEscaped;
      TokenReadsSingleQuoted(s[1..], tail, cur + [c]);
      assert cur + [c] + s[1..] == cur + s;
    }
  }

  /** What follows begins with a quote only at the end. */
  lemma SingleFirst(s: string, tail: string)
    ensures s != [] ==> (SingleEscaped(s) + "'" + tail)[0] != '\''
  {
  }

  lemma SingleStep(c: char, after: string, cur: string)
    requires c != NUL && after != [] && (c == '\\' ==> after[0] != '\'')
    ensures Token((if c == '\'' then "\\'" else [c]) + after, InSingle, cur) == Token(after, InSingle, cur + [c])
  {
    var first := if c == '\'' then "\\'" else [c];
    assert (first + after)[|first|..] == after;
  }

  predicate IsPlain(c: char) { c != NUL && !IsSpace(c) && c != '"' && c != '\'' }

  /** An unquoted word is read as it stands, backslashes included, up to the blank after it. */
  lemma {:induction false} TokenReadsWord(w: string, tail: string, cur: string)
    requires (forall i :: 0 <= i < |w| ==> IsPlain(w[i])) && (tail == [] || tail[0] == ' ')
    ensures Token(w + tail, Plain, cur) == Some((cur + w, if tail == [] then [] else tail[1..]))
  {
    if w == [] {
      assert w + tail == tail && cur + w == cur;
    } else {
      assert (w + tail)[1..] == w[1..] + tail && (w + tail)[0] == w[0];
      TokenReadsWord(w[1..], tail, cur + [w[0]]);
      assert cur + [w[0]] + w[1..] == cur + w;
    }
  }

  function Words(words: seq<string>): string {
    if words == [] then [] else if |words| == 1 then words[0] else words[0] + (" " + Words(words[1..]))
  }

  lemma WordIsRead(w: string, tail: string, vec: seq<string>)
    requires w != [] && (forall i :: 0 <= i < |w| ==> IsPlain(w[i])) && (tail == [] || tail[0] == ' ')
    ensures Arguments(w + tail, vec) == Arguments(if tail == [] then [] else tail[1..], vec + [w])
  {
    TokenReadsWord(w, tail, []);
    assert [] + w == w && At(w + tail, 0) == w[0] && IsPlain(w[0]);
    hide Token, Arguments;
    ArgumentsGoOn(w + tail, vec);
  }

  lemma WordsOpen(words: seq<string>)
    requires |words| > 1
    ensures Words(words) == words[0] + (" " + Words(words[1..]))
  {
  }

  /** Splitting a line of plain words gives the words. */
  lemma {:induction false} WordsAreSplit(words: seq<string>, vec: seq<string>)
    requires forall w <- words :: w != [] && forall i :: 0 <= i < |w| ==> IsPlain(w[i])
    ensures Arguments(Words(words), vec) == Some(vec + words)
    decreases |words|
  {
    hide Token, IsPlain;
    if words == [] {
      assert vec + words == vec;
    } else {
      var w, rest := words[0], words[1..];
      assert w in words && vec + [w] + rest == vec + words;
      if rest == [] {
        assert words == [w] && w + [] == w;
        WordIsRead(w, [], vec);
      } else {
        WordsOpen(words);
        hide Arguments, Words;
        WordIsRead(w, " " + Words(rest), vec);
        assert (" " + Words(rest))[1..] == Words(rest);
        WordsAreSplit(rest, vec + [w]);
      }
    }
  }
}
