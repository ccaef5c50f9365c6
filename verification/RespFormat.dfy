/** Connection::redisvFormatCommand: a printf-like template turned into one RESP request. */
module RespFormat {
  import opened Bytes
  import Numbers
  import opened RespProtocol

  // ---- Templates and the values they take ----

  /** One element of a template. `Num` keeps its whole text from '%' to the conversion letter;
      `TooLong` is a conversion of 14 characters or more, which takes its value, prints nothing and
      leaves the text after its first two characters to be read again. */
  datatype Item = Lit(c: char) | Space | Str | Bin | Percent | Num(spec: string) | TooLong {
    predicate Takes() { Str? || Bin? || Num? || TooLong? }
  }

  /** An argument of the call. The bytes of a number are the text vsnprintf prints for it. */
  datatype Value = StrValue(bytes: string) | BinValue(bytes: string) | NumValue(bytes: string)

  datatype Ending = Complete | Malformed | PastTerminator

  datatype Scanned = Scanned(items: seq<Item>, ending: Ending) {
    function After(item: Item): Scanned { Scanned([item] + items, ending) }
  }

  /** The values suit the items: enough of them, each of the kind va_arg asks for. */
  predicate Fits(items: seq<Item>, vals: seq<Value>) {
    if items == [] then true
    else if !items[0].Takes() then Fits(items[1..], vals)
    else
      && vals != []
      && (items[0].Str? ==> vals[0].StrValue?)
      && (items[0].Bin? ==> vals[0].BinValue?)
      && (items[0].Num? || items[0].TooLong? ==> vals[0].NumValue?)
      && Fits(items[1..], vals[1..])
  }

  // ---- Recognizing a numeric conversion ----

  predicate IsFlag(c: char) { c in "#0-+ " }

  predicate IsIntConversion(c: char) { c in "diouxX" }

  predicate IsDoubleConversion(c: char) { c in "eEfFgGaA" }

  function SkipFlags(f: string, p: nat): (q: nat)
    requires p <= |f|
    ensures p <= q <= |f|
    decreases |f| - p
  {
    if IsFlag(At(f, p)) then SkipFlags(f, p + 1) else p
  }

  function SkipDigits(f: string, p: nat): (q: nat)
    requires p <= |f|
    ensures p <= q <= |f|
    decreases |f| - p
  {
    if IsDigit(At(f, p)) then SkipDigits(f, p + 1) else p
  }

  /** Where the size modifier or conversion letter stands, after flags, width and precision. */
  function SpecBody(f: string, c: nat): (p: nat)
    requires c < |f|
    ensures c < p <= |f|
  {
    var width := SkipDigits(f, SkipFlags(f, c + 1));
    if At(f, width) == '.' then SkipDigits(f, width + 1) else width
  }

  /** The outcome of reading a conversion at c: where its letter stands, an unknown conversion, or
      a format that ends first, and where; strchr takes that terminator for a letter. */
  datatype Conversion = Letter(at: nat) | Unknown | Ended(at: nat)

  function ReadConversion(f: string, c: nat): (r: Conversion)
    requires c < |f|
    ensures r.Letter? ==> c < r.at < |f|
    ensures r.Ended? ==> c < r.at <= |f| && At(f, r.at) == NUL
  {
    var p := SpecBody(f, c);
    if At(f, p) == NUL then Ended(p)
    else if IsIntConversion(At(f, p)) || IsDoubleConversion(At(f, p)) then Letter(p)
    else if At(f, p) == 'h' && At(f, p + 1) == 'h' then
      if IsIntConversion(At(f, p + 2)) then Letter(p + 2) else Unknown
    else if At(f, p) == 'h' then
      if IsIntConversion(At(f, p + 1)) then Letter(p + 1) else Unknown
    else if At(f, p) == 'l' && At(f, p + 1) == 'l' then
      if IsIntConversion(At(f, p + 2)) then Letter(p + 2) else Unknown
    else if At(f, p) == 'l' then
      if IsIntConversion(At(f, p + 1)) then Letter(p + 1) else Unknown
    else Unknown
  }

  const FORMAT_LIMIT: nat := 14

  /** The items of the format from position c on. */
  function Scan(f: string, c: nat): Scanned
    requires c <= |f|
    decreases |f| - c
  {
    if At(f, c) == NUL then Scanned([], Complete)
    else if f[c] != '%' || At(f, c + 1) == NUL then
      Scan(f, c + 1).After(if f[c] == ' ' then Space else Lit(f[c]))
    else if f[c + 1] == 's' then Scan(f, c + 2).After(Str)
    else if f[c + 1] == 'b' then Scan(f, c + 2).After(Bin)
    else if f[c + 1] == '%' then Scan(f, c + 2).After(Percent)
    else
      match ReadConversion(f, c)
      case Unknown => Scanned([], Malformed)
      case Ended(p) =>
        // a short one is printed, and reading goes on behind the terminator
        if p + 1 - c < FORMAT_LIMIT then Scanned([], PastTerminator)
        else Scan(f, c + 2).After(TooLong)
      case Letter(p) =>
        if p + 1 - c < FORMAT_LIMIT then Scan(f, p + 1).After(Num(f[c..p + 1]))
        else Scan(f, c + 2).After(TooLong)
  }

  // ---- The meaning of a template: split on spaces, then substitute ----

  function WordLength(items: seq<Item>): (n: nat)
    ensures n <= |items|
    ensures forall i :: 0 <= i < n ==> items[i] != Space
    ensures n < |items| ==> items[n] == Space
  {
    if items == [] || items[0] == Space then 0 else 1 + WordLength(items[1..])
  }

  function Words(items: seq<Item>): seq<seq<Item>> {
    if items == [] then []
    else if items[0] == Space then Words(items[1..])
    else [items[..WordLength(items)]] + Words(items[WordLength(items)..])
  }

  function Takes(items: seq<Item>): nat {
    if items == [] then 0 else (if items[0].Takes() then 1 else 0) + Takes(items[1..])
  }

  /** The bytes an item contributes. */
  function Text(item: Item, vals: seq<Value>): string
    requires item.Takes() ==> vals != []
  {
    match item
    case Lit(c) => [c]
    case Space => []
    case Percent => "%"
    case TooLong => []
    case _ => vals[0].bytes
  }

  function AfterItem(item: Item, vals: seq<Value>): seq<Value>
    requires item.Takes() ==> vals != []
  {
    if item.Takes() then vals[1..] else vals
  }

  function Substitute(word: seq<Item>, vals: seq<Value>): string
    requires Takes(word) <= |vals|
  {
    if word == [] then []
    else Text(word[0], vals) + Substitute(word[1..], AfterItem(word[0], vals))
  }

  function TotalTakes(words: seq<seq<Item>>): nat {
    if words == [] then 0 else Takes(words[0]) + TotalTakes(words[1..])
  }

  function SubstituteAll(words: seq<seq<Item>>, vals: seq<Value>): seq<string>
    requires TotalTakes(words) <= |vals|
  {
    if words == [] then []
    else [Substitute(words[0], vals)] + SubstituteAll(words[1..], vals[Takes(words[0])..])
  }

  // ---- The order in which the scanner builds the same arguments ----

  /** The arguments still to come: `cur` is the open argument, `touched` whether it counts. */
  function Build(items: seq<Item>, vals: seq<Value>, cur: string, touched: bool): seq<string>
    requires Takes(items) <= |vals|
  {
    if items == [] then (if touched then [cur] else [])
    else if items[0] == Space then
      if touched then [cur] + Build(items[1..], vals, [], false) else Build(items[1..], vals, cur, false)
    else Build(items[1..], AfterItem(items[0], vals), cur + Text(items[0], vals), true)
  }

  lemma {:induction false} FitsTakes(items: seq<Item>, vals: seq<Value>)
    requires Fits(items, vals)
    ensures Takes(items) <= |vals|
  {
    if items != [] {
      FitsTakes(items[1..], if items[0].Takes() then vals[1..] else vals);
    }
  }

  lemma {:induction false} TakesSplit(items: seq<Item>, n: nat)
    requires n <= |items|
    ensures Takes(items) == Takes(items[..n]) + Takes(items[n..])
  {
    if n == 0 {
      assert items[0..] == items;
    } else {
      TakesSplit(items[1..], n - 1);
      assert items[..n][1..] == items[1..][..n - 1];
      assert items[n..] == items[1..][n - 1..];
    }
  }

  lemma {:induction false} BuildWord(items: seq<Item>, n: nat, vals: seq<Value>, cur: string)
    requires Takes(items) <= |vals| && n <= |items|
    requires forall i :: 0 <= i < n ==> items[i] != Space
    ensures Takes(items[..n]) <= |vals| && Takes(items[n..]) <= |vals[Takes(items[..n])..]|
    ensures Build(items, vals, cur, true)
      == Build(items[n..], vals[Takes(items[..n])..], cur + Substitute(items[..n], vals), true)
    decreases n
  {
    TakesSplit(items, n);
    if n == 0 {
      assert items[0..] == items && cur + [] == cur;
    } else {
      var item, rest := items[0], items[1..];
      var left := AfterItem(item, vals);
      WordTail(items, n, vals);
      BuildWord(rest, n - 1, left, cur + Text(item, vals));
      Associates(cur, Text(item, vals), Substitute(rest[..n - 1], left));
      hide Substitute, Text, AfterItem, Takes;
      assert Build(items, vals, cur, true) == Build(rest, left, cur + Text(item, vals), true);
    }
  }

  /** A word of at least one item: its first item and the rest of it. */
  lemma WordTail(items: seq<Item>, n: nat, vals: seq<Value>)
    requires 0 < n <= |items| && Takes(items[..n]) <= |vals|
    ensures items[0].Takes() ==> vals != []
    ensures items[n..] == items[1..][n - 1..] && Takes(items[1..][..n - 1]) <= |AfterItem(items[0], vals)|
    ensures AfterItem(items[0], vals)[Takes(items[1..][..n - 1])..] == vals[Takes(items[..n])..]
    ensures Substitute(items[..n], vals)
      == Text(items[0], vals) + Substitute(items[1..][..n - 1], AfterItem(items[0], vals))
  {
    assert items[..n][1..] == items[1..][..n - 1];
    hide Text;
  }

  lemma {:induction false} WordsTakes(items: seq<Item>)
    ensures TotalTakes(Words(items)) == Takes(items)
    decreases |items|
  {
    if items != [] {
      var n := WordLength(items);
      if n == 0 {
        WordsTakes(items[1..]);
      } else {
        TakesSplit(items, n);
        WordsTakes(items[n..]);
      }
    }
  }

  /** One pass over the template builds exactly: split on spaces, drop empty words, substitute. */
  lemma {:induction false} BuildIsSubstitution(items: seq<Item>, vals: seq<Value>)
    requires Takes(items) <= |vals|
    ensures TotalTakes(Words(items)) <= |vals|
    ensures Build(items, vals, [], false) == SubstituteAll(Words(items), vals)
    decreases |items|
  {
    WordsTakes(items);
    if items != [] {
      var n := WordLength(items);
      if n == 0 {
        BuildIsSubstitution(items[1..], vals);
      } else {
        var word, rest := items[..n], items[n..];
        TakesSplit(items, n);
        var left := vals[Takes(word)..];
        BuildFirst(items, vals);
        BuildWord(items, n, vals, []);
        var arg := Substitute(word, vals);
        assert [] + arg == arg;
        BuildIsSubstitution(rest, left);
        BuildCloses(rest, left, arg);
        assert Words(items) == [word] + Words(rest);
        assert ([word] + Words(rest))[1..] == Words(rest);
      }
    }
  }

  lemma BuildFirst(items: seq<Item>, vals: seq<Value>)
    requires items != [] && items[0] != Space && Takes(items) <= |vals|
    ensures Build(items, vals, [], false) == Build(items, vals, [], true)
  {
  }

  lemma BuildCloses(items: seq<Item>, vals: seq<Value>, arg: string)
    requires Takes(items) <= |vals| && (items == [] || items[0] == Space)
    ensures Build(items, vals, arg, true) == [arg] + Build(items, vals, [], false)
  {
  }

  // ---- Templates written out, and read back ----

  predicate ValidSpec(spec: string) {
    && 2 <= |spec| < FORMAT_LIMIT && spec[0] == '%'
    && NUL !in spec
    && spec[1] !in "sb%"
    && ReadConversion(spec, 0) == Letter(|spec| - 1)
  }

  predicate ValidItem(item: Item) {
    match item
    case Lit(c) => c !in " %" && c != NUL
    case Num(spec) => ValidSpec(spec)
    case TooLong => false
    case _ => true
  }

  function RenderItem(item: Item): string {
    match item
    case Lit(c) => [c]
    case Space => " "
    case Str => "%s"
    case Bin => "%b"
    case Percent => "%%"
    case Num(spec) => spec
    case TooLong => []
  }

  function Render(items: seq<Item>): string {
    if items == [] then [] else RenderItem(items[0]) + Render(items[1..])
  }

  ghost predicate StandsAt(f: string, c: nat, spec: string) {
    c + |spec| <= |f| && forall k {:trigger spec[k]} :: 0 <= k < |spec| ==> f[c + k] == spec[k]
  }

  lemma {:induction false} SkipFlagsAt(f: string, c: nat, spec: string, p: nat)
    requires StandsAt(f, c, spec) && p <= |spec| && SkipFlags(spec, p) < |spec|
    ensures SkipFlags(f, c + p) == c + SkipFlags(spec, p)
    decreases |spec| - p
  {
    assert At(f, c + p) == spec[p];
    if IsFlag(spec[p]) {
      SkipFlagsAt(f, c, spec, p + 1);
    }
  }

  lemma {:induction false} SkipDigitsAt(f: string, c: nat, spec: string, p: nat)
    requires StandsAt(f, c, spec) && p <= |spec| && SkipDigits(spec, p) < |spec|
    ensures SkipDigits(f, c + p) == c + SkipDigits(spec, p)
    decreases |spec| - p
  {
    assert At(f, c + p) == spec[p];
    if IsDigit(spec[p]) {
      SkipDigitsAt(f, c, spec, p + 1);
    }
  }

  /** A conversion is read the same wherever it stands and whatever follows it. */
  lemma ReadConversionAt(f: string, c: nat, spec: string)
    requires spec != [] && StandsAt(f, c, spec)
    requires NUL !in spec && ReadConversion(spec, 0) == Letter(|spec| - 1)
    ensures ReadConversion(f, c) == Letter(c + |spec| - 1)
  {
    var p := SpecBody(spec, 0);
    SpecBodyAt(f, c, spec);
    assert At(f, c + p) == spec[p];
    assert p + 1 < |spec| ==> At(f, c + p + 1) == spec[p + 1];
    assert p + 2 < |spec| ==> At(f, c + p + 2) == spec[p + 2];
  }

  lemma SpecBodyAt(f: string, c: nat, spec: string)
    requires spec != [] && StandsAt(f, c, spec) && SpecBody(spec, 0) < |spec|
    ensures SpecBody(f, c) == c + SpecBody(spec, 0)
  {
    var flags := SkipFlags(spec, 1);
    var width := SkipDigits(spec, flags);
    SkipFlagsAt(f, c, spec, 1);
    SkipDigitsAt(f, c, spec, flags);
    assert At(f, c + width) == spec[width];
    if spec[width] == '.' {
      SkipDigitsAt(f, c, spec, width + 1);
    }
  }

  lemma ScanAtNumber(f: string, c: nat, p: nat)
    requires c < |f| && f[c] == '%' && At(f, c + 1) != NUL && At(f, c + 1) !in "sb%"
    requires c < p < |f| && p + 1 - c < FORMAT_LIMIT && ReadConversion(f, c) == Letter(p)
    ensures Scan(f, c) == Scan(f, p + 1).After(Num(f[c..p + 1]))
  {
    hide ReadConversion;
  }

  lemma ScanNumber(f: string, c: nat, spec: string)
    requires ValidSpec(spec) && StandsAt(f, c, spec)
    ensures Scan(f, c) == Scan(f, c + |spec|).After(Num(spec))
  {
    hide Scan, ReadConversion;
    assert f[c] == spec[0] && f[c + 1] == spec[1] && spec[1] in spec;
    ReadConversionAt(f, c, spec);
    ScanAtNumber(f, c, c + |spec| - 1);
    assert f[c..c + |spec|] == spec;
  }

  lemma ScanItem(f: string, c: nat, item: Item)
    requires ValidItem(item) && StandsAt(f, c, RenderItem(item))
    ensures Scan(f, c) == Scan(f, c + |RenderItem(item)|).After(item)
  {
    hide ReadConversion;
    var text := RenderItem(item);
    if item.Num? {
      ScanNumber(f, c, item.spec);
    } else {
      assert f[c] == text[0];
      assert |text| > 1 ==> f[c + 1] == text[1];
    }
  }

  /** Exactly when a numeric conversion is printed: when it has less than 14 characters. A longer
      one takes its value, prints nothing, and its text after the first two characters is read
      again as template. */
  lemma ConversionIsPrintedExactly(spec: string)
    requires |spec| >= 2 && spec[0] == '%' && NUL !in spec && spec[1] !in "sb%"
    requires ReadConversion(spec, 0) == Letter(|spec| - 1)
    ensures Scan(spec, 0) == Scanned([Num(spec)], Complete) <==> |spec| < 14
    ensures |spec| >= 14 ==> Scan(spec, 0) == Scan(spec, 2).After(TooLong)
  {
    hide Scan, ReadConversion;
    assert spec[0] in spec && spec[1] in spec;
    ScanEnd(spec, |spec|);
    if |spec| < FORMAT_LIMIT {
      ScanAtNumber(spec, 0, |spec| - 1);
      assert spec[0..|spec|] == spec && [Num(spec)] + [] == [Num(spec)];
    } else {
      ScanAtLong(spec, 0, |spec| - 1);
      assert Scan(spec, 0).items[0] == TooLong;
    }
  }

  lemma ScanAtLong(f: string, c: nat, p: nat)
    requires c < |f| && f[c] == '%' && At(f, c + 1) != NUL && At(f, c + 1) !in "sb%"
    requires p + 1 - c >= FORMAT_LIMIT && (ReadConversion(f, c) == Letter(p) || ReadConversion(f, c) == Ended(p))
    ensures Scan(f, c) == Scan(f, c + 2).After(TooLong)
  {
    hide ReadConversion;
  }

  function Literals(text: string): seq<Item> { seq(|text|, i requires 0 <= i < |text| => Lit(text[i])) }

  lemma {:induction false} ScanLiterals(f: string, c: nat)
    requires c <= |f| && forall i :: c <= i < |f| ==> f[i] !in "% " && f[i] != NUL
    ensures Scan(f, c) == Scanned(Literals(f[c..]), Complete)
    decreases |f| - c
  {
    if c == |f| {
      ScanEnd(f, c);
    } else {
      hide Scan;
      ScanPlain(f, c);
      ScanLiterals(f, c + 1);
      assert Literals(f[c..]) == [Lit(f[c])] + Literals(f[c + 1..]);
    }
  }

  lemma LiteralsTail(text: string)
    requires text != []
    ensures Literals(text)[1..] == Literals(text[1..])
  {
  }

  lemma {:induction false} LiteralWord(text: string, vals: seq<Value>)
    ensures Takes(Literals(text)) == 0 && WordLength(Literals(text)) == |text|
    ensures Substitute(Literals(text), vals) == text && Fits(Literals(text), vals)
  {
    if text != [] {
      LiteralWord(text[1..], vals);
      LiteralsTail(text);
      assert [text[0]] + text[1..] == text;
    }
  }

  /** A template that is a long conversion and literals makes one argument, the literals. */
  lemma LongWord(text: string, number: string)
    ensures var vals, items := [NumValue(number)], [TooLong] + Literals(text);
      Fits(items, vals) && TotalTakes(Words(items)) <= |vals| && SubstituteAll(Words(items), vals) == [text]
  {
    var vals, word := [NumValue(number)], Literals(text);
    var items := [TooLong] + word;
    LiteralWord(text, vals[1..]);
    assert items[1..] == word;
    assert items[..|items|] == items && items[|items|..] == [];
    assert Words(items) == [items] + Words([]);
    assert Words(items) == [items] && [items][1..] == [];
    assert Substitute(items, vals) == [] + Substitute(word, vals[1..]);
    assert [] + Substitute(word, vals[1..]) == text;
    assert Takes(items) == 1 && TotalTakes([items]) == Takes(items) + TotalTakes([]);
    OneWord(items, vals);
  }

  lemma OneWord(word: seq<Item>, vals: seq<Value>)
    requires Takes(word) <= |vals|
    ensures TotalTakes([word]) <= |vals| && SubstituteAll([word], vals) == [Substitute(word, vals)]
  {
    assert [word][1..] == [];
    assert TotalTakes([word]) == Takes(word) + TotalTakes([]);
    assert SubstituteAll([], vals[Takes(word)..]) == [];
    assert SubstituteAll([word], vals) == [Substitute(word, vals)] + SubstituteAll([], vals[Takes(word)..]);
  }

  /** No further '%' stands in a conversion. */
  lemma {:induction false} FlagsAreFlags(f: string, p: nat)
    requires p <= |f|
    ensures forall i :: p <= i < SkipFlags(f, p) ==> IsFlag(f[i])
    decreases |f| - p
  {
    if IsFlag(At(f, p)) {
      FlagsAreFlags(f, p + 1);
    }
  }

  lemma {:induction false} DigitsAreDigits(f: string, p: nat)
    requires p <= |f|
    ensures forall i :: p <= i < SkipDigits(f, p) ==> IsDigit(f[i])
    decreases |f| - p
  {
    if IsDigit(At(f, p)) {
      DigitsAreDigits(f, p + 1);
    }
  }

  lemma NoPercentInBody(f: string, c: nat)
    requires c < |f|
    ensures forall i :: c < i < SpecBody(f, c) ==> f[i] != '%'
  {
    var flags := SkipFlags(f, c + 1);
    var width := SkipDigits(f, flags);
    FlagsAreFlags(f, c + 1);
    DigitsAreDigits(f, flags);
    if At(f, width) == '.' {
      DigitsAreDigits(f, width + 1);
    }
  }

  /** Where the text of a conversion ends: with its letter, or with the format. */
  predicate IsConversion(spec: string) {
    && |spec| >= 2 && spec[0] == '%' && NUL !in spec && spec[1] !in "sb%"
    && (ReadConversion(spec, 0) == Letter(|spec| - 1) || ReadConversion(spec, 0) == Ended(|spec|))
  }

  lemma NoPercentInside(spec: string)
    requires IsConversion(spec)
    ensures forall i :: 1 <= i < |spec| ==> spec[i] != '%'
  {
    NoPercentInBody(spec, 0);
    hide SpecBody;
  }

  lemma {:induction false} NoPercentCompletes(f: string, c: nat, p: nat)
    requires c <= p <= |f| && At(f, p) == NUL && forall i :: c <= i < p ==> f[i] != '%'
    ensures Scan(f, c).ending == Complete
    decreases p - c
  {
    if At(f, c) == NUL {
      ScanEnd(f, c);
    } else {
      hide Scan;
      ScanPlain(f, c);
      NoPercentCompletes(f, c + 1, p);
    }
  }

  /** Exactly when a format that ends inside a conversion is read past its terminator: when that
      conversion, with the terminator taken for its letter, has less than 14 characters. A longer
      one is read again from its third character, up to the terminator. */
  lemma CutOffIsReadPastExactly(f: string, c: nat, p: nat)
    requires c < |f| && f[c] == '%' && At(f, c + 1) != NUL && At(f, c + 1) !in "sb%"
    requires ReadConversion(f, c) == Ended(p)
    ensures Scan(f, c).ending == PastTerminator <==> p + 1 - c < 14
    ensures p + 1 - c >= 14 ==> Scan(f, c) == Scan(f, c + 2).After(TooLong) && Scan(f, c).ending == Complete
  {
    if p + 1 - c >= FORMAT_LIMIT {
      NoPercentInBody(f, c);
      assert p == SpecBody(f, c);
      hide Scan, ReadConversion;
      ScanAtLong(f, c, p);
      NoPercentCompletes(f, c + 2, p);
    }
  }

  lemma LongConversionScans(spec: string)
    requires IsConversion(spec) && ' ' !in spec
    requires |spec| + (if ReadConversion(spec, 0).Ended? then 1 else 0) >= FORMAT_LIMIT
    ensures Scan(spec, 0) == Scanned([TooLong] + Literals(spec[2..]), Complete)
  {
    hide Scan, ReadConversion, Literals;
    NoPercentInside(spec);
    assert forall i :: 0 <= i < |spec| ==> spec[i] in spec;
    ScanAtLong(spec, 0, ReadConversion(spec, 0).at);
    ScanLiterals(spec, 2);
  }

  /** A long conversion without the blank flag, complete or cut off: whatever number is given, the
      argument sent is the text of the conversion without its first two characters. */
  lemma LongConversionIsSentAsText(spec: string, number: string)
    requires IsConversion(spec) && ' ' !in spec
    requires |spec| + (if ReadConversion(spec, 0).Ended? then 1 else 0) >= 14
    ensures var vals, items := [NumValue(number)], Scan(spec, 0).items;
      && Scan(spec, 0).ending == Complete && Fits(items, vals) && TotalTakes(Words(items)) <= |vals|
      && SubstituteAll(Words(items), vals) == [spec[2..]]
  {
    LongConversionScans(spec);
    hide Scan, ReadConversion, Words, SubstituteAll, Fits, TotalTakes, Literals;
    LongWord(spec[2..], number);
  }

  /** Such a conversion: twelve zeros, thirteen characters after the '%'. */
  lemma {:induction false} TwelveZeros(number: string)
    ensures var vals, items := [NumValue(number)], Scan("%000000000000d", 0).items;
      && Fits(items, vals) && TotalTakes(Words(items)) <= |vals|
      && SubstituteAll(Words(items), vals) == ["00000000000d"]
  {
    var f := "%000000000000d";
    LongConversionReads();
    hide Scan, ReadConversion, Words, SubstituteAll, Fits;
    LongConversionIsSentAsText(f, number);
    assert f[2..] == "00000000000d";
  }

  lemma {:induction false} LongConversionReads()
    ensures ReadConversion("%000000000000d", 0) == Letter(13)
    ensures ReadConversion("%0000000000000", 0) == Ended(14)
  {
    OnlyFlags("%000000000000d", 13);
    OnlyFlags("%0000000000000", 14);
    hide SpecBody;
  }

  lemma OnlyFlags(f: string, q: nat)
    requires 1 <= q <= |f| && forall i :: 1 <= i < q ==> IsFlag(f[i])
    requires !IsFlag(At(f, q)) && !IsDigit(At(f, q)) && At(f, q) != '.'
    ensures SpecBody(f, 0) == q
  {
    hide IsFlag, IsDigit;
    FlagsRun(f, 1, q);
    assert SkipDigits(f, q) == q;
  }

  /** A conversion that the format cuts off, long enough to be sent as text. */
  lemma {:induction false} ThirteenZeros(number: string)
    ensures var vals, items := [NumValue(number)], Scan("%0000000000000", 0).items;
      && Scan("%0000000000000", 0).ending == Complete && Fits(items, vals) && TotalTakes(Words(items)) <= |vals|
      && SubstituteAll(Words(items), vals) == ["000000000000"]
  {
    var f := "%0000000000000";
    LongConversionReads();
    hide Scan, ReadConversion, Words, SubstituteAll, Fits;
    LongConversionIsSentAsText(f, number);
    assert f[2..] == "000000000000";
  }

  lemma {:induction false} FlagsRun(f: string, p: nat, q: nat)
    requires p <= q <= |f| && !IsFlag(At(f, q)) && forall i :: p <= i < q ==> IsFlag(f[i])
    ensures SkipFlags(f, p) == q
    decreases q - p
  {
    if p < q {
      FlagsRun(f, p + 1, q);
    }
  }

  lemma ScanEnd(f: string, c: nat)
    requires c <= |f| && At(f, c) == NUL
    ensures Scan(f, c) == Scanned([], Complete)
  {
  }

  lemma ScanPlain(f: string, c: nat)
    requires c < |f| && f[c] != NUL && (f[c] != '%' || At(f, c + 1) == NUL)
    ensures Scan(f, c) == Scan(f, c + 1).After(if f[c] == ' ' then Space else Lit(f[c]))
  {
    hide ReadConversion;
  }

  lemma StandsHere(f: string, c: nat, text: string, tail: string)
    requires c <= |f| && f[c..] == text + tail
    ensures StandsAt(f, c, text) && f[c + |text|..] == tail
  {
    var rest := f[c..];
    assert forall k :: 0 <= k < |text| ==> f[c + k] == rest[k];
    assert f[c + |text|..] == rest[|text|..];
  }

  /** Scanning a written-out template finds its items again. */
  lemma {:induction false} ScanRendered(f: string, c: nat, items: seq<Item>)
    requires c <= |f| && f[c..] == Render(items)
    requires forall i :: 0 <= i < |items| ==> ValidItem(items[i])
    ensures Scan(f, c) == Scanned(items, Complete)
    decreases |items|
  {
    hide Scan, RenderItem, ValidItem;
    ScanEnd(f, |f|);
    if items != [] {
      var text := RenderItem(items[0]);
      StandsHere(f, c, text, Render(items[1..]));
      ScanItem(f, c, items[0]);
      ScanRendered(f, c + |text|, items[1..]);
      assert [items[0]] + items[1..] == items;
    }
  }

  // ---- The conversions, and a request ----

  /** The integer conversions take no size modifier, or one of four. */
  lemma IntegersTakeSizes(letter: char)
    requires letter in "diouxX"
    ensures ReadConversion(['%', letter], 0) == Letter(1)
    ensures ReadConversion(['%', 'h', letter], 0) == Letter(2)
    ensures ReadConversion(['%', 'h', 'h', letter], 0) == Letter(3)
    ensures ReadConversion(['%', 'l', letter], 0) == Letter(2)
    ensures ReadConversion(['%', 'l', 'l', letter], 0) == Letter(3)
  {
    OneLetter(['%', letter]);
    OneLetter(['%', 'h', letter]);
    OneLetter(['%', 'l', letter]);
    OneLetter(['%', 'h', 'h', letter]);
    OneLetter(['%', 'l', 'l', letter]);
    hide SpecBody, IsDoubleConversion;
  }

  /** The floating-point conversions take none. */
  lemma DoublesTakeNoSize(letter: char)
    requires letter in "eEfFgGaA"
    ensures ReadConversion(['%', letter], 0) == Letter(1)
    ensures ReadConversion(['%', 'l', letter], 0) == Unknown && ReadConversion(['%', 'h', letter], 0) == Unknown
  {
    OneLetter(['%', letter]);
    OneLetter(['%', 'h', letter]);
    OneLetter(['%', 'l', letter]);
    hide SpecBody;
  }

  /** What may stand in front of the letter: a flag, a digit of the width other than the flag `0`,
      the dot of the precision, or a size. */
  lemma OneInFrontExactly(c: char)
    ensures ReadConversion(['%', c, 'd'], 0) == Letter(2) <==> c in "#0-+ " || c in "123456789" || c in ".hl"
  {
    var f := ['%', c, 'd'];
    OneLetter(f);
    if IsFlag(c) {
      FlagsRun(f, 1, 2);
      assert SkipDigits(f, 2) == 2;
    } else if IsDigit(c) || c == '.' {
      FlagsRun(f, 1, 1);
      assert SkipDigits(f, 2) == 2;
    }
  }

  /** Other conversions of printf are refused. */
  lemma OthersAreRefused(letter: char)
    requires letter in {'c', 'p', 'n', 'z', 'j', 't', 'L'}
    ensures ReadConversion(['%', letter], 0) == Unknown
  {
    OneLetter(['%', letter]);
    hide SpecBody;
  }

  /** Nothing stands between the percent sign and the letters. */
  lemma OneLetter(f: string)
    requires |f| > 1
    ensures !IsFlag(f[1]) && !IsDigit(f[1]) && f[1] != '.' ==> SpecBody(f, 0) == 1
  {
    if !IsFlag(f[1]) && !IsDigit(f[1]) && f[1] != '.' {
      OnlyFlags(f, 1);
    }
  }

  /** Flags, width and precision stand in this order in front of the size and the letter. */
  lemma {:induction false} FlagsWidthPrecision()
    ensures Scan("%-08.3ld", 0) == Scanned([Num("%-08.3ld")], Complete)
  {
    var f := "%-08.3ld";
    FlagsRun(f, 1, 3);
    assert SkipDigits(f, 4) == 4 && SkipDigits(f, 3) == 4;
    assert SkipDigits(f, 6) == 6 && SkipDigits(f, 5) == 6;
    assert ReadConversion(f, 0) == Letter(7);
    ConversionIsPrintedExactly(f);
  }

  lemma BuildNext(item: Item, rest: seq<Item>, vals: seq<Value>, cur: string, touched: bool)
    requires Takes([item] + rest) <= |vals| && (item.Takes() ==> vals != []) && Takes(rest) <= |AfterItem(item, vals)|
    ensures Build([item] + rest, vals, cur, touched) ==
      if item != Space then Build(rest, AfterItem(item, vals), cur + Text(item, vals), true)
      else if touched then [cur] + Build(rest, vals, [], false) else Build(rest, vals, cur, false)
  {
    assert ([item] + rest)[1..] == rest;
  }

  /** The arguments of a template with text, a value that holds a blank and a percent sign. */
  lemma {:induction false} TemplateAsSent()
    ensures var items := Scan("GET %s 5%%", 0).items;
      && Scan("GET %s 5%%", 0).ending == Complete && Takes(items) <= 1 && TotalTakes(Words(items)) <= 1
      && SubstituteAll(Words(items), [StrValue("a b")]) == ["GET", "a b", "5%"]
  {
    var items := [Lit('G'), Lit('E'), Lit('T'), Space] + [Str, Space] + [Lit('5'), Percent];
    hide Scan, Words, SubstituteAll, Build, Takes, TotalTakes;
    TemplateItems();
    TemplateBuilds();
    BuildIsSubstitution(items, [StrValue("a b")]);
  }

  lemma {:induction false} TemplateItems()
    ensures Scan("GET %s 5%%", 0) == Scanned(
        [Lit('G'), Lit('E'), Lit('T'), Space] + [Str, Space] + [Lit('5'), Percent], Complete)
  {
    var f := "GET %s 5%%";
    var get, value, five := [Lit('G'), Lit('E'), Lit('T'), Space], [Str, Space], [Lit('5'), Percent];
    hide Scan;
    ScanEnd(f, 10);
    ScanItem(f, 8, Percent);
    ScanPlain(f, 7);
    assert Scan(f, 7).items == five;
    ScanPlain(f, 6);
    ScanItem(f, 4, Str);
    assert Scan(f, 4).items == value + five;
    FirstWord(f, value + five);
    assert get + (value + five) == get + value + five;
  }

  lemma FirstWord(f: string, rest: seq<Item>)
    requires f == "GET %s 5%%" && Scan(f, 4) == Scanned(rest, Complete)
    ensures Scan(f, 0) == Scanned([Lit('G'), Lit('E'), Lit('T'), Space] + rest, Complete)
  {
    hide Scan;
    ScanPlain(f, 3);
    ScanPlain(f, 2);
    ScanPlain(f, 1);
    ScanPlain(f, 0);
  }

  lemma TakesNext(item: Item, rest: seq<Item>)
    ensures Takes([item] + rest) == Takes(rest) + if item.Takes() then 1 else 0
  {
    assert ([item] + rest)[1..] == rest;
  }

  lemma {:induction false} TemplateTakes()
    ensures var f := [Percent] + [];
      var h := [Space] + ([Lit('5')] + f);
      var j := [Space] + ([Str] + h);
      var l := [Lit('E')] + ([Lit('T')] + j);
      && Takes(f) == Takes([Lit('5')] + f) == Takes(h) == 0
      && Takes([Str] + h) == Takes(j) == Takes([Lit('T')] + j) == Takes(l) == Takes([Lit('G')] + l) == 1
  {
    var e: seq<Item> := [];
    var f := [Percent] + e;
    var g := [Lit('5')] + f;
    var h := [Space] + g;
    var i := [Str] + h;
    var j := [Space] + i;
    var k := [Lit('T')] + j;
    var l := [Lit('E')] + k;
    assert Takes(e) == 0;
    hide Takes;
    TakesNext(Percent, e);
    TakesNext(Lit('5'), f);
    TakesNext(Space, g);
    TakesNext(Str, h);
    TakesNext(Space, i);
    TakesNext(Lit('T'), j);
    TakesNext(Lit('E'), k);
    TakesNext(Lit('G'), l);
  }

  lemma {:induction false} TemplateBuilds()
    ensures var items := [Lit('G'), Lit('E'), Lit('T'), Space] + [Str, Space] + [Lit('5'), Percent];
      Takes(items) <= 1 && Build(items, [StrValue("a b")], [], false) == ["GET", "a b", "5%"]
  {
    var vals := [StrValue("a b")];
    var e: seq<Item> := [];
    var f := [Percent] + e;
    var g := [Lit('5')] + f;
    var h := [Space] + g;
    var i := [Str] + h;
    var j := [Space] + i;
    var k := [Lit('T')] + j;
    var l := [Lit('E')] + k;
    assert [Lit('G'), Lit('E'), Lit('T'), Space] + [Str, Space] + [Lit('5'), Percent] == [Lit('G')] + l;
    TemplateTakes();
    assert Build(e, [], "5%", true) == ["5%"] && vals[1..] == [];
    hide Takes, Build;
    assert "G" + "E" == "GE" && "GE" + "T" == "GET" && "5" + "%" == "5%";
    assert [] + "G" == "G" && [] + "a b" == "a b" && [] + "5" == "5";
    BuildNext(Percent, e, [], "5", true);
    BuildNext(Lit('5'), f, [], [], false);
    BuildNext(Space, g, [], "a b", true);
    BuildNext(Str, h, vals, [], false);
    BuildNext(Space, i, vals, "GET", true);
    BuildNext(Lit('T'), j, vals, "GE", true);
    BuildNext(Lit('E'), k, vals, "G", true);
    BuildNext(Lit('G'), l, vals, [], false);
  }

  // ---- The formatter ----

  datatype Outcome = Command(bytes: string) | FormatError | OutsideModel

  method ScanFlags(format: string, start: nat) returns (p: nat)
    requires start <= |format|
    ensures p == SkipFlags(format, start)
  {
    p := start;
    while IsFlag(At(format, p))
      invariant start <= p <= |format|
      invariant SkipFlags(format, p) == SkipFlags(format, start)
      decreases |format| - p
    {
      p := p + 1;
    }
  }

  method ScanDigits(format: string, start: nat) returns (p: nat)
    requires start <= |format|
    ensures p == SkipDigits(format, start)
  {
    p := start;
    while IsDigit(At(format, p))
      invariant start <= p <= |format|
      invariant SkipDigits(format, p) == SkipDigits(format, start)
      decreases |format| - p
    {
      p := p + 1;
    }
  }

  /** The scan of flags, width, precision and size, with its moving pointer. */
  method ScanConversion(format: string, c: nat) returns (r: Conversion)
    requires c < |format|
    ensures r == ReadConversion(format, c)
  {
    hide SkipFlags, SkipDigits, IsIntConversion, IsDoubleConversion;
    var p := ScanFlags(format, c + 1);
    p := ScanDigits(format, p);
    if At(format, p) == '.' {
      p := ScanDigits(format, p + 1);
    }
    assert p == SpecBody(format, c);
    hide SpecBody;
    var letter := At(format, p);
    if letter == NUL {
      return Ended(p);
    }
    if IsIntConversion(letter) || IsDoubleConversion(letter) {
      return Letter(p);
    }
    if letter == 'h' && At(format, p + 1) == 'h' {
      return if IsIntConversion(At(format, p + 2)) then Letter(p + 2) else Unknown;
    }
    if letter == 'h' {
      return if IsIntConversion(At(format, p + 1)) then Letter(p + 1) else Unknown;
    }
    if letter == 'l' && At(format, p + 1) == 'l' {
      return if IsIntConversion(At(format, p + 2)) then Letter(p + 2) else Unknown;
    }
    if letter == 'l' {
      return if IsIntConversion(At(format, p + 1)) then Letter(p + 1) else Unknown;
    }
    return Unknown;
  }

  function BulkLen(len: nat): nat { 1 + |Decimal(len)| + 2 + len + 2 }

  function TotalLen(args: seq<string>): nat {
    if args == [] then 0 else TotalLen(args[..|args| - 1]) + BulkLen(|args[|args| - 1]|)
  }

  lemma {:induction false} EncodeBulksAppend(args: seq<string>, arg: string)
    ensures EncodeBulks(args + [arg]) == EncodeBulks(args) + EncodeBulk(arg)
  {
    if args == [] {
      assert [arg][1..] == [];
    } else {
      assert (args + [arg])[1..] == args[1..] + [arg];
      EncodeBulksAppend(args[1..], arg);
    }
  }

  lemma {:induction false} TotalLenIsExact(args: seq<string>)
    ensures TotalLen(args) == |EncodeBulks(args)|
  {
    if args != [] {
      var init, last := args[..|args| - 1], args[|args| - 1];
      TotalLenIsExact(init);
      EncodeBulksAppend(init, last);
      assert init + [last] == args;
    }
  }

  method Bulklen(len: nat) returns (r: nat)
    ensures r == BulkLen(len)
  {
    var digits := Numbers.CountDigits(len);
    r := 1 + digits + 2 + len + 2;
  }

  /** sprintf and memcpy into the command buffer. */
  method Write(cmd: array<char>, pos: nat, text: string) returns (next: nat)
    requires pos + |text| <= cmd.Length
    modifies cmd
    ensures next == pos + |text| && cmd[..next] == old(cmd[..pos]) + text
  {
    forall i | pos <= i < pos + |text| { cmd[i] := text[i - pos]; }
    next := pos + |text|;
    assert cmd[..pos] == old(cmd[..pos]);
  }

  method WriteBulk(cmd: array<char>, pos: nat, arg: string) returns (next: nat)
    requires pos + |EncodeBulk(arg)| <= cmd.Length
    modifies cmd
    ensures next == pos + |EncodeBulk(arg)| && cmd[..next] == old(cmd[..pos]) + EncodeBulk(arg)
  {
    var header := "$" + Decimal(|arg|) + CRLF;
    next := Write(cmd, pos, header);
    next := Write(cmd, next, arg);
    next := Write(cmd, next, CRLF);
    assert EncodeBulk(arg) == header + arg + CRLF;
  }

  /** Fills a buffer of exactly the precomputed length. */
  method WriteCommand(args: seq<string>, totlen: nat) returns (cmd: array<char>)
    requires totlen == TotalLen(args) + 1 + |Decimal(|args|)| + 2
    ensures fresh(cmd) && cmd.Length == totlen + 1
    ensures cmd[..totlen] == Encode(args) && cmd[totlen] == NUL
  {
    cmd := new char[totlen + 1];
    TotalLenIsExact(args);
    var header := "*" + Decimal(|args|) + CRLF;
    var pos := Write(cmd, 0, header);
    var j := 0;
    assert args[..0] == [];
    ghost var text := EncodeBulks(args[..0]);
    hide EncodeBulk, EncodeBulks, Decimal;
    while j < |args|
      invariant 0 <= j <= |args| && text == EncodeBulks(args[..j])
      invariant pos == |header| + |text| <= cmd.Length && cmd[..pos] == header + text
    {
      PrefixFits(args, j);
      EncodedPrefix(args, j);
      pos := WriteBulk(cmd, pos, args[j]);
      Associates(header, text, EncodeBulk(args[j]));
      text, j := text + EncodeBulk(args[j]), j + 1;
    }
    assert args[..j] == args;
    assert pos == totlen;
    cmd[pos] := NUL;
  }

  lemma EncodedPrefix(args: seq<string>, j: nat)
    requires j < |args|
    ensures EncodeBulks(args[..j + 1]) == EncodeBulks(args[..j]) + EncodeBulk(args[j])
  {
    assert args[..j + 1] == args[..j] + [args[j]];
    EncodeBulksAppend(args[..j], args[j]);
  }

  lemma {:induction false} PrefixFits(args: seq<string>, j: nat)
    requires j < |args|
    ensures |EncodeBulks(args[..j])| + |EncodeBulk(args[j])| <= |EncodeBulks(args)|
    decreases |args|
  {
    var init, last := args[..|args| - 1], args[|args| - 1];
    EncodeBulksAppend(init, last);
    assert init + [last] == args;
    if j < |args| - 1 {
      PrefixFits(init, j);
      assert init[..j] == args[..j];
    }
  }

  /** The switch on what follows a '%': the item read, what it appends, where reading goes on. */
  method ReadPercent(format: string, c: nat, vals: seq<Value>, cur: string)
    returns (ending: Ending, next: nat, ap: seq<Value>, curarg: string, ghost item: Item)
    requires c < |format| && format[c] == '%' && At(format, c + 1) != NUL
    requires Fits(Scan(format, c).items, vals)
    ensures ending != Complete ==> Scan(format, c) == Scanned([], ending)
    ensures ending == Complete ==>
      && c < next <= |format|
      && Scan(format, c) == Scan(format, next).After(item)
      && item != Space && (item.Takes() ==> vals != [])
      && curarg == cur + Text(item, vals) && ap == AfterItem(item, vals)
  {
    hide ReadConversion;
    ending, next, ap, curarg, item := Complete, c + 2, vals, cur, Percent;
    match format[c + 1] {
    case 's' =>
      item := Str;
      curarg, ap := curarg + ap[0].bytes, ap[1..];
    case 'b' =>
      item := Bin;
      curarg, ap := curarg + ap[0].bytes, ap[1..];
    case '%' =>
      curarg := curarg + "%";
    case _ =>
      var conversion := ScanConversion(format, c);
      match conversion {
      case Unknown => ending := Malformed;
      case Ended(p) =>
        if p + 1 - c < FORMAT_LIMIT {
          ending := PastTerminator;
        } else {
          item, ap := TooLong, ap[1..];
        }
      case Letter(p) =>
        var l := p + 1 - c;
        item := TooLong;
        if l < FORMAT_LIMIT {
          item := Num(format[c..p + 1]);
          curarg := curarg + ap[0].bytes;
          next := p + 1;
        }
        ap := ap[1..];
      }
    }
  }

  lemma BuildStep(item: Item, rest: seq<Item>, vals: seq<Value>, cur: string, touched: bool)
    requires Fits([item] + rest, vals)
    ensures item.Takes() ==> vals != []
    ensures Fits(rest, AfterItem(item, vals))
    ensures Takes(rest) <= |AfterItem(item, vals)| && Takes([item] + rest) <= |vals|
    ensures Build([item] + rest, vals, cur, touched) ==
      if item != Space then Build(rest, AfterItem(item, vals), cur + Text(item, vals), true)
      else (if touched then [cur] else []) + Build(rest, vals, if touched then [] else cur, false)
  {
    assert ([item] + rest)[1..] == rest;
    FitsTakes([item] + rest, vals);
  }

  lemma TotalLenAppend(args: seq<string>, arg: string)
    ensures TotalLen(args + [arg]) == TotalLen(args) + BulkLen(|arg|)
  {
    assert (args + [arg])[..|args|] == args;
  }

  /** What a scan position still promises: the arguments built so far and those to come. */
  ghost predicate OnTrack(format: string, c: nat, vals: seq<Value>, argv: seq<string>, curarg: string,
                          touched: bool, ap: seq<Value>)
    requires c <= |format| && Fits(Scan(format, 0).items, vals)
  {
    var all, left := Scan(format, 0), Scan(format, c);
    FitsTakes(all.items, vals);
    && left.ending == all.ending && Fits(left.items, ap)
    && Takes(left.items) <= |ap|
    && argv + Build(left.items, ap, curarg, touched) == Build(all.items, vals, [], false)
  }

  /** The whole formatter. The output is the RESP request whose arguments are the words of the
      template with the values put in. */
  method FormatCommand(format: string, vals: seq<Value>) returns (r: Outcome)
    requires Fits(Scan(format, 0).items, vals)
    ensures TotalTakes(Words(Scan(format, 0).items)) <= |vals|
    ensures match Scan(format, 0).ending
      case Complete => r == Command(Encode(SubstituteAll(Words(Scan(format, 0).items), vals)))
      case Malformed => r == FormatError
      case PastTerminator => r == OutsideModel
  {
    hide Scan, Build, Fits, Words, SubstituteAll, Encode, Takes, TotalTakes, BulkLen, Decimal;
    FitsTakes(Scan(format, 0).items, vals);
    BuildIsSubstitution(Scan(format, 0).items, vals);
    var c, touched, totlen := 0, false, 0;
    var curarg: string := [];
    var argv: seq<string> := [];
    var ap := vals;
    while At(format, c) != NUL
      invariant 0 <= c <= |format|
      invariant OnTrack(format, c, vals, argv, curarg, touched, ap)
      invariant totlen == TotalLen(argv)
      decreases |format| - c
    {
      if format[c] != '%' || At(format, c + 1) == NUL {
        ghost var item := if format[c] == ' ' then Space else Lit(format[c]);
        ghost var rest := Scan(format, c + 1).items;
        ScanPlain(format, c);
        BuildStep(item, rest, ap, curarg, touched);
        if format[c] == ' ' {
          if touched {
            Associates(argv, [curarg], Build(rest, ap, [], false));
            TotalLenAppend(argv, curarg);
            argv := argv + [curarg];
            var len := Bulklen(|curarg|);
            totlen := totlen + len;
            curarg, touched := [], false;
          } else {
            Associates(argv, [], Build(rest, ap, curarg, false));
          }
        } else {
          curarg, touched := curarg + [format[c]], true;
        }
        c := c + 1;
      } else {
        var ending, next, after, arg;
        ghost var item;
        ending, next, after, arg, item := ReadPercent(format, c, ap, curarg);
        match ending {
        case Malformed => return FormatError;
        case PastTerminator => return OutsideModel;
        case Complete =>
          BuildStep(item, Scan(format, next).items, ap, curarg, touched);
          curarg, ap, touched, c := arg, after, true, next;
        }
      }
    }
    ScanEnd(format, c);
    BuildEnd(ap, curarg, touched);
    assert argv + [] == argv;
    if touched {
      TotalLenAppend(argv, curarg);
      argv := argv + [curarg];
      var len := Bulklen(|curarg|);
      totlen := totlen + len;
    }
    assert argv == SubstituteAll(Words(Scan(format, 0).items), vals);
    var digits := Numbers.CountDigits(|argv|);
    totlen := totlen + 1 + digits + 2;
    var cmd := WriteCommand(argv, totlen);
    return Command(cmd[..totlen]);
  }

  lemma BuildEnd(vals: seq<Value>, cur: string, touched: bool)
    ensures Build([], vals, cur, touched) == if touched then [cur] else []
  {
  }

  lemma {:induction false} AsManyArguments(words: seq<seq<Item>>, vals: seq<Value>)
    requires TotalTakes(words) <= |vals|
    ensures |SubstituteAll(words, vals)| == |words|
  {
    if words != [] {
      hide Takes, Substitute;
      AsManyArguments(words[1..], vals[Takes(words[0])..]);
    }
  }

  /** The number of arguments is the number of words of the template: spaces, CRLF or '%' inside
      a value never move an argument boundary, and each argument is its own word filled in. */
  lemma {:induction false} ValuesNeverMoveBoundaries(words: seq<seq<Item>>, vals: seq<Value>, i: nat)
    requires TotalTakes(words) <= |vals|
    ensures |SubstituteAll(words, vals)| == |words|
    ensures i < |words| ==>
      && TotalTakes(words[..i]) + Takes(words[i]) <= |vals|
      && SubstituteAll(words, vals)[i] == Substitute(words[i], vals[TotalTakes(words[..i])..])
  {
    AsManyArguments(words, vals);
    if i == 0 && words != [] {
      FirstArgument(words, vals);
    } else if i < |words| {
      var rest, left := words[1..], vals[Takes(words[0])..];
      ValuesNeverMoveBoundaries(rest, left, i - 1);
      LaterArgument(words, vals, i);
    }
  }

  lemma FirstArgument(words: seq<seq<Item>>, vals: seq<Value>)
    requires words != [] && TotalTakes(words) <= |vals|
    ensures TotalTakes(words[..0]) == 0 && Takes(words[0]) <= |vals| && vals[0..] == vals
    ensures SubstituteAll(words, vals)[0] == Substitute(words[0], vals)
  {
    hide Takes, Substitute;
    assert words[..0] == [];
  }

  /** Argument i of the words is argument i-1 of all words but the first. */
  lemma LaterArgument(words: seq<seq<Item>>, vals: seq<Value>, i: nat)
    requires TotalTakes(words) <= |vals| && 0 < i < |words|
    ensures var rest, left := words[1..], vals[Takes(words[0])..];
      && rest[i - 1] == words[i] && TotalTakes(words[..i]) == Takes(words[0]) + TotalTakes(rest[..i - 1])
      && TotalTakes(rest) <= |left| && |SubstituteAll(rest, left)| == |rest| && |SubstituteAll(words, vals)| == |words|
      && SubstituteAll(words, vals)[i] == SubstituteAll(rest, left)[i - 1]
      && (TotalTakes(words[..i]) <= |vals| ==> left[TotalTakes(rest[..i - 1])..] == vals[TotalTakes(words[..i])..])
  {
    hide Takes, Substitute;
    var rest, left := words[1..], vals[Takes(words[0])..];
    PrefixTakes(words, i);
    AsManyArguments(rest, left);
    AsManyArguments(words, vals);
    if TotalTakes(words[..i]) <= |vals| {
      DropTwice(vals, Takes(words[0]), TotalTakes(rest[..i - 1]));
    }
  }

  lemma DropTwice(vals: seq<Value>, a: nat, b: nat)
    requires a + b <= |vals|
    ensures vals[a..][b..] == vals[a + b..]
  {
  }

  lemma PrefixTakes(words: seq<seq<Item>>, i: nat)
    requires 0 < i <= |words|
    ensures TotalTakes(words[..i]) == Takes(words[0]) + TotalTakes(words[1..][..i - 1])
  {
    assert words[..i][1..] == words[1..][..i - 1];
  }

  /** Every template of literals, spaces, %s, %b, %% and short numeric conversions is formatted
      into a request that decodes to its words with the values put in. */
  lemma FormattedTemplateDecodes(items: seq<Item>, vals: seq<Value>, tail: string)
    requires forall i :: 0 <= i < |items| ==> ValidItem(items[i])
    requires Fits(items, vals)
    ensures Scan(Render(items), 0) == Scanned(items, Complete)
    ensures TotalTakes(Words(items)) <= |vals|
    ensures Decode(Encode(SubstituteAll(Words(items), vals)) + tail)
      == Some((SubstituteAll(Words(items), vals), tail))
  {
    ScanRendered(Render(items), 0, items);
    FitsTakes(items, vals);
    WordsTakes(items);
    DecodeUndoesEncode(SubstituteAll(Words(items), vals), tail);
  }
}
