/** cpptoml's text of local times: the stream printer and read_time. */
module TomlTime {
  import opened Bytes
  import opened Numbers

  datatype Time = Time(hour: int, minute: int, second: int, microsecond: int)

  /** setw(2) with fill '0'. */
  function Pad2(n: int): string { if |Signed(n)| < 2 then "0" + Signed(n) else Signed(n) }

  lemma NegativeMultiple(q: int, b: nat)
    requires q < 0 < b
    ensures q * b <= 0 - b
  {
  }

  lemma QuotientIsNatural(a: nat, b: nat)
    requires b > 0
    ensures a / b >= 0
  {
    assert a == a / b * b + a % b;
    if a / b < 0 {
      NegativeMultiple(a / b, b);
    }
  }

  function Quotient(us: nat, k: nat): nat {
    QuotientIsNatural(us, Pow10(k));
    us / Pow10(k)
  }

  function Rest(us: nat, k: nat): nat { us % Pow10(k) }

  /** The fraction loop: the quotient by 10^k, then the remainder by 10^(k-1), until nothing is
      left. At k == 0 the remainder is 0, so the power never reaches 0 while the loop runs. */
  function Fraction(us: nat, k: nat): string
    decreases k
  {
    if us == 0 then []
    else if k == 0 then Decimal(us)
    else Decimal(Quotient(us, k)) + Fraction(Rest(us, k), k - 1)
  }

  function Print(t: Time): string {
    Pad2(t.hour) + ":" + Pad2(t.minute) + ":" + Pad2(t.second)
    + (if t.microsecond > 0 then "." + Fraction(t.microsecond, 5) else [])
  }

  lemma Remainder(a: nat, b: nat)
    requires b > 0
    ensures 0 <= a - a / b * b == a % b < b
  {
  }

  lemma TenthOfPower(k: nat)
    ensures Pow10(k) / 10 == if k == 0 then 0 else Pow10(k - 1)
  {
  }

  /** What the loop still has to print: nothing once the rest is 0. */
  function ToPrint(curr: nat, k: int): string { if curr == 0 || k < 0 then [] else Fraction(curr, k) }

  lemma OneDigit(curr: nat, k: nat)
    requires curr > 0
    ensures ToPrint(curr, k) == Decimal(Quotient(curr, k)) + ToPrint(Rest(curr, k), k - 1)
    ensures k == 0 ==> Rest(curr, k) == 0
  {
    QuotientAndRest(curr, k, Pow10(k));
    hide Quotient, Rest, Decimal, Pow10;
    if k == 0 {
      assert Decimal(curr) + [] == Decimal(curr);
    }
  }

  /** One division of the loop. */
  method Divide(curr: nat, power: nat, ghost k: nat) returns (num: nat, rest: nat)
    requires power == Pow10(k)
    ensures num == Quotient(curr, k) && rest == Rest(curr, k)
  {
    QuotientAndRest(curr, k, power);
    num := curr / power;
    rest := curr - num * power;
  }

  /** The printing loop, with the divisions it performs. */
  method PrintFraction(us: nat) returns (text: string)
    ensures text == Fraction(us, 5)
  {
    text := "";
    var power, curr := 100000, us;
    ghost var k := 5;
    assert Pow10(5) == 100000;
    assert text + ToPrint(us, 5) == Fraction(us, 5);
    hide Fraction, Quotient, Rest, Pow10, Decimal;
    while curr != 0
      invariant -1 <= k && (curr > 0 ==> k >= 0 && power == Pow10(k))
      invariant text + ToPrint(curr, k) == Fraction(us, 5)
      decreases k + 1
    {
      OneDigit(curr, k);
      TenthOfPower(k);
      var num, rest := Divide(curr, power, k);
      Associates(text, Decimal(num), ToPrint(rest, k - 1));
      text, curr := text + Decimal(num), rest;
      power, k := power / 10, k - 1;
    }
    assert text + [] == text;
  }

  lemma QuotientAndRest(us: nat, k: nat, power: nat)
    requires power == Pow10(k)
    ensures us / power == Quotient(us, k) && us - us / power * power == Rest(us, k) < power
    ensures k == 0 ==> Rest(us, k) == 0 && Quotient(us, k) == us
  {
    Remainder(us, power);
  }

  // ---- Reading ----

  /** find_end_of_time. */
  function TimeEnd(s: string, p: nat): (e: nat)
    requires p <= |s|
    ensures p <= e <= |s|
    ensures forall i :: p <= i < e ==> IsTimeChar(s[i])
    ensures e < |s| ==> !IsTimeChar(s[e])
    decreases |s| - p
  {
    if p < |s| && IsTimeChar(s[p]) then TimeEnd(s, p + 1) else p
  }

  predicate IsTimeChar(c: char) { IsDigit(c) || c == ':' || c == '.' }

  lemma TimeCharsAsWritten(c: char)
    ensures IsTimeChar(c) <==> c in "0123456789:."
  {
    if IsDigit(c) {
      DigitsAreWritten(c as int - '0' as int);
      assert c == Digit(c as int - '0' as int);
    }
  }

  /** Two digits of the text t from p. */
  function TwoDigits(t: string, p: nat): Option<int> {
    if p + 2 <= |t| && IsDigit(t[p]) && IsDigit(t[p + 1]) then
      Some((10 * DigitValue(t[p]) + DigitValue(t[p + 1])) as int)
    else None
  }

  /** The digits after the point: weights 10^k down to 1, then 0. */
  function ReadFraction(t: string, p: nat, k: int, us: nat): (nat, nat)
    requires p <= |t|
    decreases |t| - p
  {
    if p < |t| && IsDigit(t[p]) then
      ReadFraction(t, p + 1, k - 1, us + (if k < 0 then 0 else Pow10(k)) * DigitValue(t[p]))
    else (us, p)
  }

  /** The time written as t, when t is a whole time and nothing else. */
  function Read(t: string): Option<Time> {
    var h, m, s := TwoDigits(t, 0), TwoDigits(t, 3), TwoDigits(t, 6);
    if h == None || At(t, 2) != ':' || m == None || At(t, 5) != ':' || s == None then None
    else if |t| == 8 then Some(Time(h.value, m.value, s.value, 0))
    else if t[8] != '.' then None
    else
      var f := ReadFraction(t, 9, 5, 0);
      if f.1 == |t| then Some(Time(h.value, m.value, s.value, f.0)) else None
  }

  /** eat_digits(2). */
  method EatTwoDigits(s: string, it: nat, end: nat) returns (r: Option<int>)
    requires it <= end <= |s|
    ensures r == if it + 2 <= end && IsDigit(s[it]) && IsDigit(s[it + 1])
      then Some((10 * DigitValue(s[it]) + DigitValue(s[it + 1])) as int) else None
  {
    var val, i := 0, 0;
    while i < 2
      invariant 0 <= i <= 2 && it + i <= end
      invariant forall j :: it <= j < it + i ==> IsDigit(s[j])
      invariant val == if i == 0 then 0 else if i == 1 then DigitValue(s[it])
        else 10 * DigitValue(s[it]) + DigitValue(s[it + 1])
    {
      if it + i == end || !IsDigit(s[it + i]) {
        return None;
      }
      val := 10 * val + DigitValue(s[it + i]);
      i := i + 1;
    }
    return Some(val);
  }

  /** The loop over the digits after the point. */
  method ReadDigits(s: string, start: nat, from: nat, end: nat) returns (it: nat, us: nat)
    requires start + 9 == from <= end <= |s|
    ensures from <= it <= end && ReadFraction(s[start..end], 9, 5, 0) == (us, it - start)
  {
    ghost var t, k := s[start..end], 5;
    var power := 100000;
    it, us := from, 0;
    assert Pow10(5) == 100000;
    assert forall i :: 0 <= i < |t| ==> t[i] == s[start + i];
    hide Pow10, IsDigit, DigitValue;
    while it != end && IsDigit(s[it])
      invariant from <= it <= end
      invariant power == if k < 0 then 0 else Pow10(k)
      invariant ReadFraction(t, 9, 5, 0) == ReadFraction(t, it - start, k, us)
      decreases end - it
    {
      if k >= 0 {
        TenthOfPower(k);
      }
      us := us + power * DigitValue(s[it]);
      it, power, k := it + 1, power / 10, k - 1;
    }
  }

  /** read_time from position `start`; None is the exception. */
  method ReadTime(s: string, start: nat) returns (r: Option<Time>)
    requires start <= |s|
    ensures r == Read(s[start..TimeEnd(s, start)])
  {
    var end := start;
    while end < |s| && IsTimeChar(s[end])
      invariant start <= end <= |s|
      invariant TimeEnd(s, start) == TimeEnd(s, end)
    {
      end := end + 1;
    }
    ghost var t := s[start..end];
    assert forall i :: 0 <= i < |t| ==> t[i] == s[start + i];
    hide ReadFraction, TimeEnd, IsTimeChar;
    var hour := EatTwoDigits(s, start, end);
    if hour == None || start + 2 == end || s[start + 2] != ':' {
      return None;
    }
    var minute := EatTwoDigits(s, start + 3, end);
    if minute == None || start + 5 == end || s[start + 5] != ':' {
      return None;
    }
    var second := EatTwoDigits(s, start + 6, end);
    if second == None {
      return None;
    }
    var it, us := start + 8, 0;
    if it != end && s[it] == '.' {
      it, us := ReadDigits(s, start, it + 1, end);
    }
    if it != end {
      return None;
    }
    return Some(Time(hour.value, minute.value, second.value, us));
  }

  // ---- The reader undoes the printer exactly for two-digit fields and six-digit fractions ----

  predicate InRange(t: Time) {
    && 0 <= t.hour <= 99 && 0 <= t.minute <= 99 && 0 <= t.second <= 99
    && 0 <= t.microsecond <= 999999
  }

  lemma PadOfField(n: int)
    ensures |Pad2(n)| >= 2 && (n < 0 ==> Pad2(n)[0] == '-')
    ensures n > 99 ==> |Pad2(n)| > 2 && IsDigit(Pad2(n)[2])
    ensures 0 <= n <= 99 ==>
      && |Pad2(n)| == 2 && IsDigit(Pad2(n)[0]) && IsDigit(Pad2(n)[1])
      && 10 * DigitValue(Pad2(n)[0]) + DigitValue(Pad2(n)[1]) == n
  {
    DecimalRoundTrip(Magnitude(n));
    if n < 0 {
      assert Signed(n)[0] == '-';
    } else if n > 99 {
      assert |Decimal(n)| == |Decimal(n / 10)| + 1 && |Decimal(n / 10)| == |Decimal(n / 10 / 10)| + 1;
    } else if n >= 10 {
      assert Decimal(n) == [Digit(n / 10)] + [Digit(n % 10)];
    }
  }

  lemma {:induction false} TimeEndSkips(s: string, p: nat, q: nat)
    requires p <= q <= |s| && forall i :: p <= i < q ==> IsTimeChar(s[i])
    ensures TimeEnd(s, p) == TimeEnd(s, q)
    decreases q - p
  {
    if p < q {
      TimeEndSkips(s, p + 1, q);
    }
  }

  /** The fraction of at most k + 1 digits is read back, whatever weight is already there. */
  lemma {:induction false} FractionReadsBack(t: string, p: nat, us: nat, k: nat, base: nat)
    requires us < Pow10(k + 1) && p <= |t| && t[p..] == Fraction(us, k)
    ensures ReadFraction(t, p, k, base) == (base + us, |t|)
    ensures AllDigits(Fraction(us, k))
    decreases k
  {
    if us > 0 {
      var d, rest := Quotient(us, k), Rest(us, k);
      QuotientAndRest(us, k, Pow10(k));
      assert us == d * Pow10(k) + rest;
      assert d < 10 by { if d >= 10 { TimesPower(d, k); } }
      assert Decimal(d) == [Digit(d)];
      hide Quotient, Rest, Decimal, Pow10;
      assert k == 0 ==> Fraction(us, k) == [Digit(d)] + [];
      var tail := if k == 0 then [] else Fraction(rest, k - 1);
      assert t[p..] == [Digit(d)] + tail;
      assert t[p] == t[p..][0] == Digit(d);
      assert t[p + 1..] == t[p..][1..] == tail;
      if k > 0 {
        FractionReadsBack(t, p + 1, rest, k - 1, base + Pow10(k) * d);
      }
    }
  }

  lemma TimesPower(d: nat, k: nat)
    requires d >= 10
    ensures d * Pow10(k) >= Pow10(k + 1)
  {
    assert Pow10(k + 1) == 10 * Pow10(k);
  }

  lemma {:induction false} ReadFractionBound(t: string, p: nat, k: int, us: nat)
    requires p <= |t| && k >= -1
    ensures ReadFraction(t, p, k, us).0 <= us + Pow10(k + 1) - 1
    decreases |t| - p
  {
    if p < |t| && IsDigit(t[p]) {
      if k < 0 {
        ReadFractionBelow(t, p, k, us);
      } else {
        ScaledDigit(t[p], k);
        ReadFractionBound(t, p + 1, k - 1, us + Pow10(k) * DigitValue(t[p]));
      }
    }
  }

  lemma ScaledDigit(c: char, k: nat)
    requires IsDigit(c)
    ensures Pow10(k) * DigitValue(c) + Pow10(k) <= Pow10(k + 1)
  {
    assert Pow10(k) * DigitValue(c) <= Pow10(k) * 9;
  }

  lemma {:induction false} ReadFractionBelow(t: string, p: nat, k: int, us: nat)
    requires p <= |t| && k < 0
    ensures ReadFraction(t, p, k, us).0 == us
    decreases |t| - p
  {
    if p < |t| && IsDigit(t[p]) {
      ReadFractionBelow(t, p + 1, k - 1, us);
    }
  }

  /** A printed time in range is made of time characters and reads back. */
  lemma InRangeReadsBack(t: Time)
    requires InRange(t)
    ensures Read(Print(t)) == Some(t)
    ensures forall i :: 0 <= i < |Print(t)| ==> IsTimeChar(Print(t)[i])
  {
    PadOfField(t.hour);
    PadOfField(t.minute);
    PadOfField(t.second);
    hide Pad2, Fraction, ReadFraction;
    var text := Print(t);
    if t.microsecond > 0 {
      assert Pow10(6) == 1000000;
      assert text[9..] == Fraction(t.microsecond, 5);
      FractionReadsBack(text, 9, t.microsecond, 5, 0);
      assert forall i :: 9 <= i < |text| ==> text[i] == text[9..][i - 9];
    }
  }

  lemma ReadMeansShape(t: string)
    requires Read(t).Some?
    ensures |t| >= 8 && IsDigit(t[0]) && t[2] == ':' && IsDigit(t[3]) && t[5] == ':' && IsDigit(t[6])
    ensures |t| > 8 ==> t[8] == '.'
    ensures 0 <= Read(t).value.microsecond <= 999999
  {
    if |t| > 8 {
      assert Pow10(6) == 1000000;
      ReadFractionBound(t, 9, 5, 0);
    }
  }

  /** Reading what was printed gives the time back exactly when its fields have two digits and its
      fraction at most six, whatever follows that is not part of a time. */
  lemma TimeRoundTripExactly(t: Time, rest: string)
    requires rest != [] ==> !IsTimeChar(rest[0])
    ensures var text := Print(t) + rest;
      Read(text[..TimeEnd(text, 0)]) == Some(t) <==> InRange(t)
  {
    var text := Print(t) + rest;
    var end := TimeEnd(text, 0);
    hide Print, Read;
    if InRange(t) {
      InRangeReadsBack(t);
      TimeEndSkips(text, 0, |Print(t)|);
      assert text[..end] == Print(t);
    } else if Read(text[..end]) == Some(t) {
      ReadMeansShape(text[..end]);
      PrintedShape(t, text, rest);
    }
  }

  lemma PrintedShape(t: Time, text: string, rest: string)
    requires text == Print(t) + rest
    requires |text| >= 8 && IsDigit(text[0]) && text[2] == ':' && IsDigit(text[3]) && text[5] == ':'
    requires IsDigit(text[6]) && (|text| > 8 ==> !IsDigit(text[8]))
    ensures 0 <= t.hour <= 99 && 0 <= t.minute <= 99 && 0 <= t.second <= 99
  {
    var fraction := if t.microsecond > 0 then "." + Fraction(t.microsecond, 5) else [];
    var h, m, s := Pad2(t.hour), Pad2(t.minute), Pad2(t.second);
    hide Fraction, Pad2;
    Nested(h, m, s, fraction, rest);
    var third := s + (fraction + rest);
    var second := m + (":" + third);
    TwoDigitField(t.hour, text, second, true);
    TwoDigitField(t.minute, second, third, true);
    TwoDigitField(t.second, third, fraction + rest, false);
  }

  lemma Nested(h: string, m: string, s: string, fraction: string, rest: string)
    ensures h + ":" + m + ":" + s + fraction + rest == h + (":" + (m + (":" + (s + (fraction + rest)))))
  {
  }

  lemma TwoDigitField(n: int, text: string, tail: string, colon: bool)
    requires text == Pad2(n) + (if colon then ":" + tail else tail)
    requires |text| >= 2 && IsDigit(text[0]) && (|text| > 2 ==> !IsDigit(text[2]))
    ensures 0 <= n <= 99
    ensures colon ==> |text| >= 3 && forall i :: 0 <= i < |tail| ==> tail[i] == text[i + 3]
    ensures colon ==> |text| == |tail| + 3
  {
    PadOfField(n);
    hide Pad2;
    assert forall k :: 0 <= k < |Pad2(n)| ==> text[k] == Pad2(n)[k];
  }

  // ---- Times as they are written ----

  /** What is read as a time: two digits, a colon, two digits, a colon and two digits, and possibly a
      point with any number of digits. */
  predicate IsTime(t: string) {
    && |t| >= 8 && AllDigits(t[0..2]) && t[2] == ':' && AllDigits(t[3..5]) && t[5] == ':' && AllDigits(t[6..8])
    && (|t| > 8 ==> t[8] == '.' && AllDigits(t[9..]))
  }

  function Zeros(n: nat): string { seq(n, _ => '0') }

  /** The first six digits of the fraction, filled up with zeros: millionths of a second. */
  function Millionths(digits: string): string { (digits + Zeros(6))[..6] }

  /** Exactly the times are read, each field as the number it is. */
  lemma ReadsExactly(t: string)
    ensures Read(t).Some? <==> IsTime(t)
    ensures IsTime(t) ==>
      && Read(t).value.hour == ParseNat(t[0..2]) && Read(t).value.minute == ParseNat(t[3..5])
      && Read(t).value.second == ParseNat(t[6..8])
      && AllDigits(Millionths(if |t| > 8 then t[9..] else []))
      && Read(t).value.microsecond == ParseNat(Millionths(if |t| > 8 then t[9..] else []))
  {
    if |t| >= 8 {
      TwoAsNumber(t, 0);
      TwoAsNumber(t, 3);
      TwoAsNumber(t, 6);
      hide TwoDigits, ParseNat, IsDigit, DigitValue;
      if |t| > 8 {
        FractionEnds(t, 9, 5, 0);
        if AllDigits(t[9..]) {
          MillionthsRead(t);
        }
      } else {
        NoFraction();
      }
    }
  }

  lemma TwoAsNumber(t: string, p: nat)
    requires p + 2 <= |t|
    ensures TwoDigits(t, p).Some? <==> AllDigits(t[p..p + 2])
    ensures AllDigits(t[p..p + 2]) ==> TwoDigits(t, p) == Some(ParseNat(t[p..p + 2]))
  {
    var d := t[p..p + 2];
    assert t[p] == d[0] && t[p + 1] == d[1];
    if AllDigits(d) {
      assert d[..1][..0] == [];
      assert ParseNat(d[..1]) == 10 * ParseNat(d[..1][..0]) + DigitValue(d[0]);
    }
  }

  lemma NoFraction()
    ensures AllDigits(Millionths([])) && ParseNat(Millionths([])) == 0
  {
    assert Millionths([]) == Zeros(6);
    ZerosAreNothing(6);
  }

  lemma {:induction false} ZerosAreNothing(n: nat)
    ensures AllDigits(Zeros(n)) && ParseNat(Zeros(n)) == 0
  {
    if n > 0 {
      assert Zeros(n)[..n - 1] == Zeros(n - 1);
      ZerosAreNothing(n - 1);
    }
  }

  /** The loop reads up to the first character that is not a digit. */
  lemma {:induction false} FractionEnds(t: string, p: nat, k: int, us: nat)
    requires p <= |t|
    ensures ReadFraction(t, p, k, us).1 == |t| <==> AllDigits(t[p..])
    ensures ReadFraction(t, p, k, us).1 <= |t|
    decreases |t| - p
  {
    if p < |t| {
      assert t[p..] == [t[p]] + t[p + 1..];
      if IsDigit(t[p]) {
        FractionEnds(t, p + 1, k - 1, us + (if k < 0 then 0 else Pow10(k)) * DigitValue(t[p]));
      } else {
        assert t[p..][0] == t[p];
      }
    }
  }

  lemma {:induction false} ParseFirst(c: char, s: string)
    requires IsDigit(c) && AllDigits(s)
    ensures AllDigits([c] + s) && ParseNat([c] + s) == Pow10(|s|) * DigitValue(c) + ParseNat(s)
    decreases |s|
  {
    var all := [c] + s;
    if s == [] {
      assert all[..0] == [];
    } else {
      assert all[..|all| - 1] == [c] + s[..|s| - 1];
      ParseFirst(c, s[..|s| - 1]);
      TenTimes(Pow10(|s| - 1), DigitValue(c));
    }
  }

  lemma TenTimes(a: nat, d: nat)
    ensures 10 * (a * d) == 10 * a * d
  {
  }

  /** The digits still to be weighted, filled up with zeros. */
  lemma {:induction false} WeightedDigits(t: string, p: nat, k: int, us: nat)
    requires p <= |t| && AllDigits(t[p..]) && k >= -1
    ensures var filled := (t[p..] + Zeros(k + 1))[..k + 1];
      AllDigits(filled) && ReadFraction(t, p, k, us).0 == us + ParseNat(filled)
    decreases |t| - p
  {
    var filled := (t[p..] + Zeros(k + 1))[..k + 1];
    if p == |t| {
      assert filled == Zeros(k + 1);
      ZerosAreNothing(k + 1);
    } else {
      assert t[p..][0] == t[p] && t[p..][1..] == t[p + 1..];
      if k == -1 {
        NoWeight(t, p, k, us);
      } else {
        var next := (t[p + 1..] + Zeros(k))[..k];
        assert filled == [t[p]] + next;
        hide ParseNat;
        WeightedDigits(t, p + 1, k - 1, us + Pow10(k) * DigitValue(t[p]));
        ParseFirst(t[p], next);
      }
    }
  }

  /** Digits after the sixth count for nothing. */
  lemma {:induction false} NoWeight(t: string, p: nat, k: int, us: nat)
    requires p <= |t| && k < 0
    ensures ReadFraction(t, p, k, us).0 == us
    decreases |t| - p
  {
    if p < |t| && IsDigit(t[p]) {
      NoWeight(t, p + 1, k - 1, us);
    }
  }

  lemma MillionthsRead(t: string)
    requires |t| > 8 && AllDigits(t[9..])
    ensures AllDigits(Millionths(t[9..]))
    ensures ReadFraction(t, 9, 5, 0).0 == ParseNat(Millionths(t[9..]))
  {
    WeightedDigits(t, 9, 5, 0);
  }

  /** Times as they are printed. */
  lemma {:induction false} TimesAsPrinted()
    ensures Print(Time(7, 32, 5, 0)) == "07" + ":" + "32" + ":" + "05"
    ensures Print(Time(23, 0, 59, 120000)) == "23" + ":" + "00" + ":" + "59" + ".12"
  {
    FieldsAsPrinted();
    FractionOf12();
    hide Pad2, Fraction;
    assert "05" + [] == "05" && "07" + ":" + "32" + ":" + "05" + [] == "07" + ":" + "32" + ":" + "05";
  }

  lemma {:induction false} FieldsAsPrinted()
    ensures Pad2(7) == "07" && Pad2(5) == "05" && Pad2(32) == "32" && Pad2(23) == "23" && Pad2(0) == "00"
    ensures Pad2(59) == "59"
  {
  }

  lemma {:induction false} FractionOf12()
    ensures "." + Fraction(120000, 5) == ".12"
  {
    assert Pow10(5) == 100000 && Pow10(4) == 10000;
    assert Quotient(120000, 5) == 1 && Rest(120000, 5) == 20000;
    assert Quotient(20000, 4) == 2 && Rest(20000, 4) == 0;
    assert Fraction(20000, 4) == "2" + Fraction(0, 3);
  }
}
