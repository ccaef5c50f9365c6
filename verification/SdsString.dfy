/** The SDS buffer: a heap byte array behind one of five header widths. */
module SdsString {
  import opened Bytes

  const SDS_MAX_PREALLOC: nat := 1024 * 1024

  datatype HdrType = T5 | T8 | T16 | T32 | T64 {
    function Rank(): nat {
      match this case T5 => 0 case T8 => 1 case T16 => 2 case T32 => 3 case T64 => 4
    }

    /** Whether a length field of this width can hold n; the 64-bit field is taken as unbounded. */
    predicate Holds(n: nat) {
      match this
      case T5 => n < 32
      case T8 => n < 0x100
      case T16 => n < 0x1_0000
      case T32 => n < 0x1_0000_0000
      case T64 => true
    }

    /** What storing n in the length field leaves there. */
    function Truncate(n: nat): (r: nat)
      ensures Holds(n) ==> r == n
    {
      match this
      case T5 => n % 32
      case T8 => n % 0x100
      case T16 => n % 0x1_0000
      case T32 => n % 0x1_0000_0000
      case T64 => n
    }
  }

  function ReqType(size: nat): HdrType {
    if size < 32 then T5
    else if size < 0xff then T8
    else if size < 0xffff then T16
    else if size < 0xffff_ffff then T32
    else T64
  }

  /** Width 5 cannot remember free space, so growing never chooses it. */
  function GrowType(size: nat): HdrType {
    if ReqType(size) == T5 then T8 else ReqType(size)
  }

  /** The three header fields. Width 5 has no capacity field: its capacity is its length. */
  datatype Header = Header(typ: HdrType, len: nat, field: nat) {
    function Alloc(): nat { if typ == T5 then len else field }

    function Avail(): nat
      requires len <= Alloc()
    {
      Alloc() - len
    }

    /** Length within capacity, capacity representable, width the one the capacity asks for. */
    predicate Fits() {
      && len <= Alloc()
      && typ.Holds(Alloc())
      && (typ != T5 ==> typ == GrowType(field))
    }
  }

  /** The header after sdsMakeRoomFor. */
  function Grow(h: Header, addlen: nat): Header
    requires h.Fits()
  {
    if h.Avail() >= addlen then h
    else
      var need := h.len + addlen;
      var size := if need < SDS_MAX_PREALLOC then need * 2 else need + SDS_MAX_PREALLOC;
      Header(GrowType(size), h.len, size)
  }

  function Append(h: Header, addlen: nat): Header
    requires h.Fits()
  {
    Grow(h, addlen).(len := h.len + addlen)
  }

  lemma GrowFits(h: Header, addlen: nat)
    requires h.Fits()
    ensures Grow(h, addlen).Fits() && Append(h, addlen).Fits()
    ensures Grow(h, addlen).len == h.len && Grow(h, addlen).Avail() >= addlen
    ensures Grow(h, addlen).typ.Rank() >= h.typ.Rank()
    ensures Grow(h, addlen).Alloc() >= h.Alloc()
  {
    if h.Avail() < addlen {
      var need := h.len + addlen;
      var size := if need < SDS_MAX_PREALLOC then need * 2 else need + SDS_MAX_PREALLOC;
      assert size > h.Alloc();
    }
  }

  /** How much room a reallocation leaves: as much again as the string has below 1 MB, and 1 MB from
      there on; a string that still fits is left alone. */
  lemma GrowLeavesRoom(h: Header, addlen: nat)
    requires h.Fits()
    ensures var after := Append(h, addlen);
      && after.len == h.len + addlen
      && (h.Avail() >= addlen ==> Grow(h, addlen) == h)
      && (h.Avail() < addlen && after.len < 1024 * 1024 ==> after.Avail() == after.len)
      && (h.Avail() < addlen && after.len >= 1024 * 1024 ==> after.Avail() == 1024 * 1024)
  {
  }

  /** The width a size asks for: the narrowest whose field holds one more than the size; only width 5
      is used to its end. */
  lemma ReqTypeIsNarrowest(size: nat)
    ensures ReqType(size).Holds(size) && (size < 32 <==> ReqType(size) == T5)
    ensures size >= 32 ==> ReqType(size).Holds(size + 1)
    ensures size >= 32 ==> forall t: HdrType :: t.Rank() < ReqType(size).Rank() ==> !t.Holds(size + 1)
    ensures T8.Holds(size) <==> size <= 255
    ensures T16.Holds(size) <==> size <= 65535
    ensures T32.Holds(size) <==> size <= 4294967295
  {
  }

  /** The header after a run of appends, and how many of them reallocated. */
  function AppendAll(h: Header, adds: seq<nat>): Header
    requires h.Fits()
    ensures AppendAll(h, adds).Fits()
  {
    if adds == [] then h
    else
      var before := AppendAll(h, adds[..|adds| - 1]);
      GrowFits(before, adds[|adds| - 1]);
      Append(before, adds[|adds| - 1])
  }

  function Reallocations(h: Header, adds: seq<nat>): nat
    requires h.Fits()
  {
    if adds == [] then 0
    else
      var before := AppendAll(h, adds[..|adds| - 1]);
      Reallocations(h, adds[..|adds| - 1]) + if before.Avail() >= adds[|adds| - 1] then 0 else 1
  }

  function Pow2(k: nat): nat { if k == 0 then 1 else 2 * Pow2(k - 1) }

  lemma Doubled(k: nat, c: nat, before: nat, after: nat)
    requires c >= 2 && Pow2(k) * c <= before && 2 * before <= after
    ensures Pow2(k + 1) * c <= after
  {
    assert Pow2(k + 1) * c == 2 * (Pow2(k) * c);
  }

  lemma AtLeastTwice(k: nat, c: nat)
    requires c >= 2
    ensures Pow2(k) * c >= 2 * Pow2(k)
  {
  }

  /** Below the preallocation ceiling, k reallocations need a total length of at least
      2^k - 1 (so 2^k <= 2n as soon as n > 0), whatever the starting string and the run of
      appends; capacity at least doubles each time. */
  lemma {:induction false} GrowthIsLogarithmic(h: Header, adds: seq<nat>)
    requires h.Fits()
    requires AppendAll(h, adds).len < SDS_MAX_PREALLOC
    ensures h.len <= AppendAll(h, adds).len
    ensures Pow2(Reallocations(h, adds)) * (h.Alloc() + 2) <= AppendAll(h, adds).Alloc() + 2
    ensures Pow2(Reallocations(h, adds)) <= AppendAll(h, adds).len + 1
    ensures AppendAll(h, adds).len > 0 ==> Pow2(Reallocations(h, adds)) <= 2 * AppendAll(h, adds).len
  {
    if adds != [] {
      var shorter, last := adds[..|adds| - 1], adds[|adds| - 1];
      AppendDoubles(AppendAll(h, shorter), last);
      GrowthIsLogarithmic(h, shorter);
      OneMoreAppend(h, AppendAll(h, shorter), AppendAll(h, adds), Reallocations(h, shorter), last);
    }
  }

  lemma OneMoreAppend(h: Header, before: Header, after: Header, k: nat, last: nat)
    requires h.Fits() && before.Fits() && after.len == before.len + last && after.Alloc() >= before.Alloc()
    requires before.Avail() < last ==> after.Alloc() == 2 * after.len && after.len > before.Alloc()
    requires Pow2(k) * (h.Alloc() + 2) <= before.Alloc() + 2 && Pow2(k) <= before.len + 1
    requires before.len > 0 ==> Pow2(k) <= 2 * before.len
    ensures var k' := k + if before.Avail() >= last then 0 else 1;
      Pow2(k') * (h.Alloc() + 2) <= after.Alloc() + 2 && Pow2(k') <= after.len + 1
      && (after.len > 0 ==> Pow2(k') <= 2 * after.len)
  {
    hide Pow2;
    if before.Avail() < last {
      Doubled(k, h.Alloc() + 2, before.Alloc() + 2, after.Alloc() + 2);
      AtLeastTwice(k + 1, h.Alloc() + 2);
    }
  }

  /** An append that has to reallocate below the ceiling more than doubles the capacity. */
  lemma AppendDoubles(before: Header, add: nat)
    requires before.Fits() && Append(before, add).len < SDS_MAX_PREALLOC
    ensures var after := Append(before, add);
      && after.Fits() && after.len == before.len + add && after.Alloc() >= before.Alloc()
      && (before.Avail() >= add ==> after.Alloc() == before.Alloc() || before.typ == T5)
      && (before.Avail() < add ==> after.Alloc() == 2 * after.len && after.len > before.Alloc())
  {
    GrowFits(before, add);
  }

  /** sdsrange's reading of a possibly negative index. */
  function ClampIndex(i: int, len: nat): nat {
    if i >= 0 then i else if len + i < 0 then 0 else len + i
  }

  /** The bytes whose position lies between the two clamped indexes. */
  function RangeOf(s: string, start: int, end: int): string {
    var lo, hi := ClampIndex(start, |s|), ClampIndex(end, |s|);
    if lo > hi || lo >= |s| then [] else s[lo..(if hi >= |s| then |s| else hi + 1)]
  }

  /** A byte is kept by Range exactly when its position is between the clamped bounds, in order. */
  lemma RangeKeepsExactly(s: string, start: int, end: int, k: nat)
    requires k < |s|
    ensures var lo, hi := ClampIndex(start, |s|), ClampIndex(end, |s|);
      (lo <= k <= hi <==> lo <= k < lo + |RangeOf(s, start, end)|)
      && (lo <= k <= hi ==> RangeOf(s, start, end)[k - lo] == s[k])
  {
  }

  /** Negative indexes count from the end, and those before the start stand for it. */
  lemma NegativeIndexesCountFromTheEnd(s: string, start: int, end: int)
    ensures RangeOf(s, 0, -1) == s
    ensures -|s| <= start < 0 ==> RangeOf(s, start, end) == RangeOf(s, |s| + start, end)
    ensures -|s| <= end < 0 ==> RangeOf(s, start, end) == RangeOf(s, start, |s| + end)
    ensures start < -|s| ==> RangeOf(s, start, end) == RangeOf(s, 0, end)
    ensures end < -|s| ==> RangeOf(s, start, end) == RangeOf(s, start, 0)
    ensures 0 <= start <= end < |s| ==> RangeOf(s, start, end) == s[start..end + 1]
  {
  }

  /** strchr also finds the terminator, so NUL bytes are always trimmed. */
  predicate Trims(cset: string, c: char) { c in cset || c == NUL }

  lemma TrimsMeans(cset: string)
    ensures forall c :: Trims(cset, c) <==> c in cset || c == NUL
  {
  }

  ghost predicate IsTrimmed(s: string, cset: string, t: string, i: nat) {
    && i + |t| <= |s| && t == s[i..i + |t|]
    && (forall k :: 0 <= k < i || i + |t| <= k < |s| ==> s[k] in cset || s[k] == NUL)
    && (t != [] ==> t[0] !in cset && t[0] != NUL && t[|t| - 1] !in cset && t[|t| - 1] != NUL)
  }

  /** What sdstrim leaves is determined by its specification. */
  lemma TrimIsUnique(s: string, cset: string, t: string, i: nat, t': string, i': nat)
    requires IsTrimmed(s, cset, t, i) && IsTrimmed(s, cset, t', i')
    ensures t == t'
  {
    if t != [] {
      assert !Trims(cset, s[i]) && !Trims(cset, s[i + |t| - 1]);
    }
    if t' != [] {
      assert !Trims(cset, s[i']) && !Trims(cset, s[i' + |t'| - 1]);
    }
    if t != [] && t' != [] {
      assert i == i' && |t| == |t'|;
    }
  }

  class Sds {
    var typ: HdrType
    var len: nat
    var field: nat
    var buf: array<char>

    ghost predicate Valid()
      reads this, buf
    {
      && Hdr().Fits()
      && Hdr().Alloc() < buf.Length
      && buf[len] == NUL
    }

    function Hdr(): Header
      reads this
    {
      Header(typ, len, field)
    }

    ghost function Contents(): string
      reads this, buf
      requires len <= buf.Length
    {
      buf[..len]
    }

    function Alloc(): nat
      reads this
      ensures Alloc() == Hdr().Alloc()
    {
      if typ == T5 then len else field
    }

    function Avail(): nat
      reads this
      requires len <= Alloc()
      ensures Avail() == Hdr().Avail()
    {
      if typ == T5 then 0 else field - len
    }

    method SetLen(newlen: nat)
      modifies this`len
      ensures len == typ.Truncate(newlen)
    {
      len := typ.Truncate(newlen);
    }

    method SetAlloc(newlen: nat)
      modifies this`field
      ensures field == if typ == T5 then old(field) else typ.Truncate(newlen)
    {
      if typ != T5 {
        field := typ.Truncate(newlen);
      }
    }

    /** sdsnewlen: an empty string is given width 8, because it is about to be appended to. */
    constructor (init: string)
      ensures Valid() && fresh(buf) && Contents() == init
      ensures Hdr().Alloc() == |init| && typ == if init == [] then T8 else ReqType(|init|)
    {
      typ := if init == [] then T8 else ReqType(|init|);
      len := |init|;
      field := |init|;
      buf := new char[|init| + 1](i requires 0 <= i => if i < |init| then init[i] else NUL);
      new;
      assert buf[..len] == init;
    }

    /** Moves the bytes and their terminator into a larger or smaller allocation. */
    method Reallocate(newtyp: HdrType, size: nat)
      requires Valid() && len <= size
      requires newtyp.Holds(size)
      requires newtyp == T5 ==> size == len
      modifies this
      ensures fresh(buf) && buf.Length == size + 1
      ensures len == old(len) && buf[len] == NUL && Contents() == old(Contents()) && typ == newtyp
      ensures newtyp != T5 ==> field == size
    {
      var newbuf := new char[size + 1];
      forall i | 0 <= i <= len { newbuf[i] := buf[i]; }
      assert newbuf[..len] == buf[..len];
      buf := newbuf;
      if typ != newtyp {
        typ := newtyp;
        SetLen(len);
      }
      SetAlloc(size);
    }

    method MakeRoomFor(addlen: nat)
      requires Valid()
      modifies this
      ensures Valid() && (buf == old(buf) || fresh(buf))
      ensures Contents() == old(Contents())
      ensures Hdr() == Grow(old(Hdr()), addlen)
      ensures Avail() >= addlen && typ.Rank() >= old(typ.Rank())
    {
      GrowFits(Hdr(), addlen);
      if Avail() >= addlen {
        return;
      }
      var newlen := len + addlen;
      if newlen < SDS_MAX_PREALLOC {
        newlen := newlen * 2;
      } else {
        newlen := newlen + SDS_MAX_PREALLOC;
      }
      var newtyp := ReqType(newlen);
      if newtyp == T5 {
        newtyp := T8;
      }
      Reallocate(newtyp, newlen);
    }

    method RemoveFreeSpace()
      requires Valid()
      modifies this
      ensures Valid() && fresh(buf)
      ensures Contents() == old(Contents())
      ensures Hdr().Alloc() == len && buf.Length == len + 1 && typ == ReqType(len)
    {
      var newtyp := ReqType(len);
      Reallocate(newtyp, len);
    }

    /** memcpy of t at position `at`, new length, new terminator. */
    method Store(at: nat, t: string)
      requires Valid() && at <= len && at + |t| <= Alloc()
      modifies this`len, buf
      ensures Valid() && Hdr() == old(Hdr()).(len := at + |t|)
      ensures Contents() == old(Contents())[..at] + t
    {
      ghost var was := Contents();
      forall i | at <= i < at + |t| { buf[i] := t[i - at]; }
      assert buf[..at] == was[..at];
      SetLen(at + |t|);
      buf[at + |t|] := NUL;
      assert Contents() == was[..at] + t;
    }

    method GrowZero(size: nat)
      requires Valid()
      modifies this, buf
      ensures Valid() && (buf == old(buf) || fresh(buf))
      ensures Contents() == old(Contents()) + seq(if size <= old(len) then 0 else size - old(len), _ => NUL)
      ensures typ.Rank() >= old(typ.Rank())
    {
      var curlen := len;
      if size <= curlen {
        assert Contents() + seq(0, _ => NUL) == Contents();
        return;
      }
      MakeRoomFor(size - curlen);
      Store(curlen, seq(size - curlen, _ => NUL));
    }

    method CatLen(t: string)
      requires Valid()
      modifies this, buf
      ensures Valid() && (buf == old(buf) || fresh(buf))
      ensures Contents() == old(Contents()) + t
      ensures Hdr() == Append(old(Hdr()), |t|) && typ.Rank() >= old(typ.Rank())
    {
      MakeRoomFor(|t|);
      Store(len, t);
    }

    method CpyLen(t: string)
      requires Valid()
      modifies this, buf
      ensures Valid() && (buf == old(buf) || fresh(buf))
      ensures Contents() == t
      ensures typ.Rank() >= old(typ.Rank())
    {
      if Alloc() < |t| {
        MakeRoomFor(|t| - len);
      }
      Store(0, t);
    }

    /** Width and allocation stay; only width 5, whose capacity is its length, loses its room. */
    method Clear()
      requires Valid()
      modifies this`len, buf
      ensures Valid() && Contents() == [] && Hdr() == old(Hdr()).(len := 0)
      ensures Hdr().Alloc() == if typ == T5 then 0 else old(Hdr().Alloc())
    {
      SetLen(0);
      buf[0] := NUL;
    }

    /** memmove of the kept bytes to the front, new terminator, new length. */
    method Keep(lo: nat, newlen: nat)
      requires Valid() && lo + newlen <= len
      modifies this`len, buf
      ensures Valid()
      ensures Contents() == old(Contents())[lo..lo + newlen]
    {
      ghost var was := Contents();
      if lo != 0 && newlen != 0 {
        forall i | 0 <= i < newlen { buf[i] := buf[lo + i]; }
      }
      assert forall i :: 0 <= i < newlen ==> buf[i] == was[lo + i];
      assert buf[..newlen] == was[lo..lo + newlen];
      buf[newlen] := NUL;
      SetLen(newlen);
    }

    /** Trims in place; the ghost result is where the kept bytes stood. */
    method Trim(cset: string) returns (ghost from: nat)
      requires Valid()
      modifies this`len, buf
      ensures Valid() && typ == old(typ) && field == old(field)
      ensures IsTrimmed(old(Contents()), cset, Contents(), from)
    {
      hide Trims;
      ghost var was := Contents();
      var end := len - 1;
      var sp, ep := 0, end;
      while sp <= end && Trims(cset, buf[sp])
        invariant 0 <= sp <= len
        invariant forall k :: 0 <= k < sp ==> Trims(cset, was[k])
        invariant Contents() == was
      {
        sp := sp + 1;
      }
      while ep > sp && Trims(cset, buf[ep])
        invariant ep <= end && (sp <= end ==> sp <= ep) && (sp > end ==> ep == end)
        invariant forall k :: ep < k < len ==> Trims(cset, was[k])
        invariant Contents() == was
      {
        ep := ep - 1;
      }
      var newlen: nat := if sp > ep then 0 else ep - sp + 1;
      assert newlen > 0 ==> !Trims(cset, was[sp]) && (ep == sp || !Trims(cset, was[ep]));
      from := if newlen == 0 then 0 else sp;
      Keep(if newlen == 0 then 0 else sp, newlen);
      TrimsMeans(cset);
    }

    method Range(start: int, end: int)
      requires Valid()
      modifies this`len, buf
      ensures Valid() && typ == old(typ) && field == old(field)
      ensures Contents() == RangeOf(old(Contents()), start, end)
    {
      ghost var was := Contents();
      hide RangeOf;
      var lo, hi, size := start, end, len;
      if size == 0 {
        NothingInRange(was, start, end);
        return;
      }
      if lo < 0 {
        lo := size + lo;
        if lo < 0 { lo := 0; }
      }
      if hi < 0 {
        hi := size + hi;
        if hi < 0 { hi := 0; }
      }
      var newlen := if lo > hi then 0 else hi - lo + 1;
      if newlen != 0 {
        if lo >= size {
          newlen := 0;
        } else if hi >= size {
          hi := size - 1;
          newlen := if lo > hi then 0 else hi - lo + 1;
        }
      } else {
        lo := 0;
      }
      if newlen == 0 {
        lo := 0;
        NothingInRange(was, start, end);
      } else {
        SomethingInRange(was, start, end, newlen);
      }
      Keep(lo, newlen);
    }
  }

  lemma NothingInRange(s: string, start: int, end: int)
    requires ClampIndex(start, |s|) > ClampIndex(end, |s|) || ClampIndex(start, |s|) >= |s|
    ensures RangeOf(s, start, end) == []
  {
  }

  lemma SomethingInRange(s: string, start: int, end: int, newlen: nat)
    requires ClampIndex(start, |s|) <= ClampIndex(end, |s|) && ClampIndex(start, |s|) < |s|
    requires var last := if ClampIndex(end, |s|) >= |s| then |s| - 1 else ClampIndex(end, |s|);
      newlen == last - ClampIndex(start, |s|) + 1
    ensures RangeOf(s, start, end) == s[ClampIndex(start, |s|)..ClampIndex(start, |s|) + newlen]
  {
  }
}
