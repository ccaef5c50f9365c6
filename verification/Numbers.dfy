/** Integer printing: countDigits (divide by 10000) and sdsll2str (divide, then reverse in place). */
module Numbers {
  import opened Bytes

  /** The number of decimal digits of v. */
  method CountDigits(v: nat) returns (result: nat)
    ensures result == |Decimal(v)|
  {
    var rest := v;
    result := 1;
    while true
      invariant |Decimal(v)| == |Decimal(rest)| + result - 1
      decreases rest
    {
      UpToFourDigits(rest);
      if rest < 10 { return; }
      if rest < 100 { return result + 1; }
      if rest < 1000 { return result + 2; }
      if rest < 10000 { return result + 3; }
      FourDigits(rest);
      rest := rest / 10000;
      result := result + 4;
    }
  }

  lemma UpToFourDigits(v: nat)
    ensures 10 <= v < 100 ==> |Decimal(v)| == 2
    ensures 100 <= v < 1000 ==> |Decimal(v)| == 3
    ensures 1000 <= v < 10000 ==> |Decimal(v)| == 4
  {
    assert 10 <= v < 100 ==> |Decimal(v / 10)| == 1;
    assert 100 <= v < 1000 ==> |Decimal(v / 10 / 10)| == 1;
    assert 1000 <= v < 10000 ==> |Decimal(v / 10 / 10 / 10)| == 1;
    assert v >= 10 ==> |Decimal(v)| == |Decimal(v / 10)| + 1;
    assert v >= 100 ==> |Decimal(v / 10)| == |Decimal(v / 10 / 10)| + 1;
  }

  lemma FourDigits(v: nat)
    requires v >= 10000
    ensures |Decimal(v)| == |Decimal(v / 10000)| + 4
  {
    assert v / 10 / 10 / 10 / 10 == v / 10000;
    assert |Decimal(v / 10 / 10)| == |Decimal(v / 10 / 10 / 10 / 10)| + 2;
  }

  const LLSTR_SIZE: nat := 21

  function Magnitude(value: int): nat { if value < 0 then -value else value }

  /** The canonical numeral of a signed integer. */
  function Signed(value: int): string {
    if value < 0 then "-" + Decimal(-value) else Decimal(value)
  }

  function ParseSigned(s: string): Option<int> {
    if s != [] && s[0] == '-' && |s| > 1 && AllDigits(s[1..]) then Some(0 - ParseNat(s[1..]))
    else if s != [] && AllDigits(s) then Some(ParseNat(s) as int)
    else None
  }

  lemma SignedRoundTrip(value: int)
    ensures ParseSigned(Signed(value)) == Some(value)
  {
    DecimalRoundTrip(Magnitude(value));
    if value < 0 {
      assert Signed(value)[1..] == Decimal(-value);
    } else {
      assert Signed(value)[0] != '-';
    }
  }

  /** A sign only in front of a negative value, most significant digit first. */
  lemma {:induction false} SignedAsWritten()
    ensures Signed(0) == "0" && Signed(9058) == "9058" && Signed(-120) == "-120"
  {
    assert Decimal(9058) == Decimal(90) + "5" + "8" && Decimal(90) == "90" && Decimal(120) == "12" + "0";
  }

  /** Every 64-bit value prints in at most 20 characters, so 21 bytes hold it and its terminator. */
  lemma SignedFits(value: int)
    requires -0x8000_0000_0000_0000 <= value <= 0x7fff_ffff_ffff_ffff
    ensures 1 <= |Signed(value)| <= 20
  {
    var n := Magnitude(value);
    DecimalLength(n);
    assert Pow10(10) == 10_000_000_000;
    assert Pow10(19) == 10_000_000_000_000_000_000;
    if |Decimal(n)| >= 20 {
      Pow10Grows(19, |Decimal(n)| - 1);
    }
  }

  lemma {:induction false} Pow10Grows(j: nat, k: nat)
    requires j <= k
    ensures Pow10(j) <= Pow10(k)
  {
    if j < k {
      Pow10Grows(j, k - 1);
    }
  }

  function Reversed(s: string): string {
    if s == [] then [] else Reversed(s[1..]) + [s[0]]
  }

  lemma {:induction false} ReversedAt(s: string, k: nat)
    requires k < |s|
    ensures |Reversed(s)| == |s| && Reversed(s)[k] == s[|s| - 1 - k]
  {
    if |s| > 1 {
      ReversedAt(s[1..], if k < |s| - 1 then k else 0);
    }
  }

  lemma {:induction false} ReversedAppend(s: string, c: char)
    ensures Reversed(s + [c]) == [c] + Reversed(s)
  {
    if s != [] {
      assert (s + [c])[1..] == s[1..] + [c];
      ReversedAppend(s[1..], c);
    } else {
      assert ([c])[1..] == [];
    }
  }

  /** Swaps the first and last, then the second and last but one, and so on. */
  method ReverseInPlace(buf: array<char>, l: nat)
    requires l < buf.Length
    modifies buf
    ensures buf[..l] == Reversed(old(buf[..l]))
    ensures forall k :: l <= k < buf.Length ==> buf[k] == old(buf[k])
  {
    ghost var was := buf[..l];
    var s, p := 0, l - 1;
    while s < p
      invariant 0 <= s <= l && s + p == l - 1
      invariant forall k :: 0 <= k < s ==> buf[k] == was[l - 1 - k] && buf[l - 1 - k] == was[k]
      invariant forall k :: s <= k <= p ==> buf[k] == was[k]
      invariant forall k :: l <= k < buf.Length ==> buf[k] == old(buf[k])
    {
      var aux := buf[s];
      buf[s] := buf[p];
      buf[p] := aux;
      s, p := s + 1, p - 1;
    }
    if l > 0 {
      ReversedAt(was, 0);
    }
    forall k | 0 <= k < l
      ensures buf[k] == Reversed(was)[k]
    {
      ReversedAt(was, k);
    }
  }

  /** The do-while loop: least significant digit first. */
  method DigitsBackwards(buf: array<char>, value: nat) returns (p: nat)
    requires |Decimal(value)| <= buf.Length
    modifies buf
    ensures p == |Decimal(value)| && Reversed(buf[..p]) == Decimal(value)
  {
    var v, more := value, true;
    p := 0;
    ghost var written := "";
    while more
      invariant p <= buf.Length && buf[..p] == written
      invariant if more then Decimal(v) + Reversed(written) == Decimal(value) else Reversed(written) == Decimal(value)
      invariant p + (if more then |Decimal(v)| else 0) == |Decimal(value)|
      decreases more, v
    {
      buf[p] := Digit(v % 10);
      ReversedAppend(written, Digit(v % 10));
      written := written + [Digit(v % 10)];
      p := p + 1;
      v := v / 10;
      more := v != 0;
    }
  }

  /** Prints `value` with its terminator and returns the length. The magnitude of -2^63 is taken
      as 2^63, the value the unsigned conversion leaves. */
  method LL2Str(buf: array<char>, value: int) returns (l: nat)
    requires -0x8000_0000_0000_0000 <= value <= 0x7fff_ffff_ffff_ffff && buf.Length >= LLSTR_SIZE
    modifies buf
    ensures 1 <= l <= 20
    ensures buf[..l] == Signed(value) && buf[l] == NUL
  {
    SignedFits(value);
    var p := DigitsBackwards(buf, Magnitude(value));
    ghost var digits := buf[..p];
    if value < 0 {
      buf[p] := '-';
      p := p + 1;
      assert buf[..p] == digits + ['-'];
      ReversedAppend(digits, '-');
    }
    l := p;
    buf[l] := NUL;
    assert buf[..l] == if value < 0 then digits + ['-'] else digits;
    ReverseInPlace(buf, l);
  }
}
