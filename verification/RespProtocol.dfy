/** The request side of the Redis serialization protocol: an array of bulk strings. */
module RespProtocol {
  import opened Bytes

  const CRLF: string := "\r\n"

  function EncodeBulk(arg: string): string {
    "$" + Decimal(|arg|) + CRLF + arg + CRLF
  }

  function EncodeBulks(args: seq<string>): string {
    if args == [] then [] else EncodeBulk(args[0]) + EncodeBulks(args[1..])
  }

  function Encode(args: seq<string>): string {
    "*" + Decimal(|args|) + CRLF + EncodeBulks(args)
  }

  lemma {:induction false} BulksSplit(args: seq<string>, i: nat)
    requires i < |args|
    ensures EncodeBulks(args) == EncodeBulks(args[..i]) + EncodeBulk(args[i]) + EncodeBulks(args[i + 1..])
  {
    var first := args[0];
    if i == 0 {
      assert args[..0] == [];
      assert [] + EncodeBulk(first) == EncodeBulk(first);
    } else {
      assert args[..i][1..] == args[1..][..i - 1] && args[1..][i..] == args[i + 1..];
      BulksSplit(args[1..], i - 1);
      var a, b, c := EncodeBulks(args[1..][..i - 1]), EncodeBulk(args[i]), EncodeBulks(args[i + 1..]);
      assert EncodeBulks(args[..i]) == EncodeBulk(first) + a && EncodeBulks(args) == EncodeBulk(first) + (a + b + c);
      hide EncodeBulk, EncodeBulks;
      Associates(EncodeBulk(first), a + b, c);
      Associates(EncodeBulk(first), a, b);
    }
  }

  /** The bytes of a request: a star, the number of arguments and a line end; and then each argument,
      behind a dollar sign, its length and a line end, and with a line end after it. */
  lemma BytesOfRequest(args: seq<string>, i: nat)
    ensures Encode(args) == "*" + Decimal(|args|) + ['\r', '\n'] + EncodeBulks(args)
    ensures EncodeBulks([]) == []
    ensures i < |args| ==>
      EncodeBulks(args) == EncodeBulks(args[..i])
        + ("$" + Decimal(|args[i]|) + ['\r', '\n'] + args[i] + ['\r', '\n']) + EncodeBulks(args[i + 1..])
  {
    if i < |args| {
      BulksSplit(args, i);
    }
  }

  /** A request as it is sent. */
  lemma {:induction false} PingAsSent()
    ensures Encode(["PING"]) == "*1\r\n" + ("$4\r\n" + "PING\r\n")
  {
    var args := ["PING"];
    assert args[1..] == [];
    assert EncodeBulk("PING") + [] == EncodeBulk("PING");
    assert EncodeBulk("PING") == "$4\r\n" + "PING\r\n" by {
      assert "$" + Decimal(4) + "\r\n" == "$4\r\n" && "PING" + "\r\n" == "PING\r\n";
      Associates("$4\r\n", "PING", "\r\n");
    }
    assert "*" + Decimal(1) + "\r\n" == "*1\r\n";
  }

  function LeadingDigits(s: string): (n: nat)
    ensures n <= |s| && AllDigits(s[..n])
  {
    if s == [] || !IsDigit(s[0]) then 0 else
      var n := LeadingDigits(s[1..]);
      assert s[..n + 1] == [s[0]] + s[1..][..n];
      n + 1
  }

  function StripPrefix(s: string, prefix: string): Option<string> {
    if |prefix| <= |s| && s[..|prefix|] == prefix then Some(s[|prefix|..]) else None
  }

  /** A type byte, a decimal number and the line end: the number and what follows it. */
  function ReadHeader(kind: char, s: string): Option<(nat, string)> {
    if s == [] || s[0] != kind then None
    else
      var n := LeadingDigits(s[1..]);
      match StripPrefix(s[1..][n..], "\r\n")
      case None => None
      case Some(rest) => if n == 0 then None else Some((ParseNat(s[1..][..n]), rest))
  }

  function ReadBulk(s: string): Option<(string, string)> {
    match ReadHeader('$', s)
    case None => None
    case Some(h) =>
      if |h.1| < h.0 then None
      else
        match StripPrefix(h.1[h.0..], "\r\n")
        case None => None
        case Some(rest) => Some((h.1[..h.0], rest))
  }

  function ReadBulks(n: nat, s: string): Option<(seq<string>, string)> {
    if n == 0 then Some(([], s))
    else
      match ReadBulk(s)
      case None => None
      case Some(first) =>
        match ReadBulks(n - 1, first.1)
        case None => None
        case Some(rest) => Some(([first.0] + rest.0, rest.1))
  }

  /** One request: its arguments and the bytes after it. */
  function Decode(s: string): Option<(seq<string>, string)> {
    match ReadHeader('*', s)
    case None => None
    case Some(h) => ReadBulks(h.0, h.1)
  }

  lemma {:induction false} LeadingDigitsOf(digits: string, tail: string)
    requires AllDigits(digits) && tail != [] && !IsDigit(tail[0])
    ensures LeadingDigits(digits + tail) == |digits|
  {
    if digits == [] {
      assert digits + tail == tail;
    } else {
      assert (digits + tail)[1..] == digits[1..] + tail;
      LeadingDigitsOf(digits[1..], tail);
    }
  }

  lemma ReadHeaderOf(kind: char, n: nat, tail: string)
    ensures ReadHeader(kind, [kind] + Decimal(n) + CRLF + tail) == Some((n, tail))
  {
    var s, body := [kind] + Decimal(n) + CRLF + tail, CRLF + tail;
    DecimalRoundTrip(n);
    assert s[1..] == Decimal(n) + body;
    LeadingDigitsOf(Decimal(n), body);
    assert s[1..][..|Decimal(n)|] == Decimal(n) && s[1..][|Decimal(n)|..] == body;
    assert body[..2] == CRLF && body[2..] == tail;
  }

  lemma CutBulk(arg: string, tail: string)
    ensures var rest := arg + CRLF + tail;
      |arg| <= |rest| && rest[..|arg|] == arg && StripPrefix(rest[|arg|..], CRLF) == Some(tail)
  {
    var rest := arg + CRLF + tail;
    assert rest[..|arg|] == arg && rest[|arg|..] == CRLF + tail;
    assert (CRLF + tail)[..2] == CRLF && (CRLF + tail)[2..] == tail;
  }

  lemma ReadBulkOf(arg: string, tail: string)
    ensures ReadBulk(EncodeBulk(arg) + tail) == Some((arg, tail))
  {
    var rest := arg + CRLF + tail;
    assert EncodeBulk(arg) + tail == ['$'] + Decimal(|arg|) + CRLF + rest;
    ReadHeaderOf('$', |arg|, rest);
    hide ReadHeader, EncodeBulk, StripPrefix;
    CutBulk(arg, tail);
  }

  lemma {:induction false} ReadBulksOf(args: seq<string>, tail: string)
    ensures ReadBulks(|args|, EncodeBulks(args) + tail) == Some((args, tail))
  {
    if args == [] {
      assert EncodeBulks(args) + tail == tail;
    } else {
      var rest := EncodeBulks(args[1..]) + tail;
      EncodedFirst(args, tail);
      hide ReadBulk, EncodeBulk, EncodeBulks;
      ReadBulkOf(args[0], rest);
      ReadBulksOf(args[1..], tail);
      ReadFirst(args, EncodeBulks(args) + tail, rest, tail);
    }
  }

  lemma EncodedFirst(args: seq<string>, tail: string)
    requires args != []
    ensures EncodeBulks(args) + tail == EncodeBulk(args[0]) + (EncodeBulks(args[1..]) + tail)
  {
    hide EncodeBulk;
    Associates(EncodeBulk(args[0]), EncodeBulks(args[1..]), tail);
  }

  lemma ReadFirst(args: seq<string>, s: string, rest: string, tail: string)
    requires args != [] && ReadBulk(s) == Some((args[0], rest))
    requires ReadBulks(|args| - 1, rest) == Some((args[1..], tail))
    ensures ReadBulks(|args|, s) == Some((args, tail))
  {
    hide ReadBulk;
    assert [args[0]] + args[1..] == args;
  }

  /** Decoding undoes encoding whatever bytes the arguments hold and whatever follows. */
  lemma DecodeUndoesEncode(args: seq<string>, tail: string)
    ensures Decode(Encode(args) + tail) == Some((args, tail))
  {
    var rest := EncodeBulks(args) + tail;
    assert Encode(args) + tail == ['*'] + Decimal(|args|) + CRLF + rest;
    ReadHeaderOf('*', |args|, rest);
    ReadBulksOf(args, tail);
  }

  function EncodeAll(commands: seq<seq<string>>): string {
    if commands == [] then [] else Encode(commands[0]) + EncodeAll(commands[1..])
  }

  lemma SomeBytes(commands: seq<seq<string>>)
    ensures commands != [] ==> |EncodeAll(commands)| > 0
  {
    if commands != [] {
      assert |Encode(commands[0])| > 0;
    }
  }

  lemma SameList(a: seq<seq<string>>, b: seq<seq<string>>)
    requires a != [] && b != [] && a[0] == b[0] && a[1..] == b[1..]
    ensures a == b
  {
    assert a == [a[0]] + a[1..] && b == [b[0]] + b[1..];
  }

  lemma DecodeFirst(commands: seq<seq<string>>)
    requires commands != []
    ensures Decode(EncodeAll(commands)) == Some((commands[0], EncodeAll(commands[1..])))
  {
    hide Encode, Decode;
    DecodeUndoesEncode(commands[0], EncodeAll(commands[1..]));
  }

  /** A pipeline of concatenated requests is read back in only one way. */
  lemma {:induction false} PipelineDecodesUniquely(a: seq<seq<string>>, b: seq<seq<string>>)
    requires EncodeAll(a) == EncodeAll(b)
    ensures a == b
  {
    if a == [] || b == [] {
      SomeBytes(a);
      SomeBytes(b);
    } else {
      hide Decode, EncodeAll;
      DecodeFirst(a);
      DecodeFirst(b);
      PipelineDecodesUniquely(a[1..], b[1..]);
      SameList(a, b);
    }
  }
}
