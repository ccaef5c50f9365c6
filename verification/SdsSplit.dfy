/** sdssplitlen and sdsjoinsds: splitting at a separator and joining with it. */
module SdsSplit {
  import opened Bytes

  /** Whether sep stands in s at position k. */
  predicate Occurs(s: string, sep: string, k: nat) {
    k + |sep| <= |s| && s[k..k + |sep|] == sep
  }

  ghost predicate Contains(s: string, sep: string) { exists k :: 0 <= k <= |s| && Occurs(s, sep, k) }

  /** The first occurrence at or after `start` stands at k. */
  ghost predicate FirstOccurs(s: string, sep: string, start: nat, k: nat) {
    start <= k && Occurs(s, sep, k) && forall i :: start <= i < k ==> !Occurs(s, sep, i)
  }

  /** Position of the first occurrence at or after j, or |s| + 1. */
  function Find(s: string, sep: string, j: nat): (k: nat)
    requires j <= |s| + 1
    ensures j <= k <= |s| + 1
    ensures k <= |s| ==> Occurs(s, sep, k) && k + |sep| <= |s|
    ensures forall i :: j <= i < k ==> !Occurs(s, sep, i)
    decreases |s| + 1 - j
  {
    if j > |s| || Occurs(s, sep, j) then j else Find(s, sep, j + 1)
  }

  /** The tokens of s from position `start` on. */
  function Tokens(s: string, sep: string, start: nat): seq<string>
    requires sep != [] && start <= |s|
    decreases |s| - start
  {
    var k := Find(s, sep, start);
    if k > |s| then [s[start..]] else [s[start..k]] + Tokens(s, sep, k + |sep|)
  }

  /** What sdssplitlen returns for valid lengths: the empty string has no tokens. */
  function SplitOf(s: string, sep: string): seq<string>
    requires sep != []
  {
    if s == [] then [] else Tokens(s, sep, 0)
  }

  function JoinOf(tokens: seq<string>, sep: string): string {
    if tokens == [] then []
    else if |tokens| == 1 then tokens[0]
    else tokens[0] + sep + JoinOf(tokens[1..], sep)
  }

  /** What may be joined and split again: every token but the last meets its separator at its end
      and not earlier, and the last token holds no separator. */
  ghost predicate Splittable(tokens: seq<string>, sep: string) {
    if |tokens| <= 1 then tokens != [] && !Contains(tokens[0], sep)
    else FirstOccurs(tokens[0] + sep, sep, 0, |tokens[0]|) && Splittable(tokens[1..], sep)
  }

  lemma FindIsFirst(s: string, sep: string, start: nat, k: nat)
    requires FirstOccurs(s, sep, start, k)
    ensures Find(s, sep, start) == k
  {
  }

  /** Whether sep occurs inside a part of a string depends only on that part. */
  lemma OccursWithin(s: string, start: nat, mid: string, sep: string, i: nat)
    requires start + |mid| <= |s| && s[start..start + |mid|] == mid
    requires i + |sep| <= |mid|
    ensures Occurs(mid, sep, i) <==> Occurs(s, sep, start + i)
  {
    SliceOfSlice(s, start, start + |mid|, i, i + |sep|);
  }

  lemma SliceOfSlice(s: string, a: nat, b: nat, i: nat, j: nat)
    requires a <= b <= |s| && i <= j <= b - a
    ensures s[a..b][i..j] == s[a + i..a + j]
  {
    var l, r := s[a..b][i..j], s[a + i..a + j];
    assert forall k :: 0 <= k < j - i ==> l[k] == s[a + i + k] && r[k] == s[a + i + k];
    assert l == r;
  }

  lemma FirstWithin(s: string, start: nat, t: string, sep: string)
    requires start + |t| + |sep| <= |s| && s[start..start + |t| + |sep|] == t + sep
    ensures FirstOccurs(t + sep, sep, 0, |t|) <==> FirstOccurs(s, sep, start, start + |t|)
  {
    var mid := t + sep;
    forall i: nat | i <= |t|
      ensures Occurs(mid, sep, i) <==> Occurs(s, sep, start + i)
    {
      OccursWithin(s, start, mid, sep, i);
    }
    forall i: nat | start <= i <= start + |t|
      ensures Occurs(mid, sep, i - start) <==> Occurs(s, sep, i)
    {
      OccursWithin(s, start, mid, sep, i - start);
    }
  }

  /** The tokens in front of position start are those of `head`. */
  ghost predicate Leads(s: string, sep: string, head: seq<string>, start: nat)
    requires sep != [] && start <= |s|
  {
    head + Tokens(s, sep, start) == Tokens(s, sep, 0)
  }

  lemma NextToken(head: seq<string>, s: string, sep: string, start: nat, k: nat)
    requires sep != [] && start <= k <= |s| && Find(s, sep, start) == k
    ensures head + Tokens(s, sep, start) == head + [s[start..k]] + Tokens(s, sep, k + |sep|)
  {
    Associates(head, [s[start..k]], Tokens(s, sep, k + |sep|));
  }

  lemma NothingLeads(s: string, sep: string)
    requires sep != []
    ensures Leads(s, sep, [], 0)
  {
    assert [] + Tokens(s, sep, 0) == Tokens(s, sep, 0);
  }

  lemma NextLeads(head: seq<string>, s: string, sep: string, start: nat, k: nat)
    requires sep != [] && start <= k <= |s| && Find(s, sep, start) == k && Leads(s, sep, head, start)
    ensures k + |sep| <= |s| && Leads(s, sep, head + [s[start..k]], k + |sep|)
  {
    NextToken(head, s, sep, start, k);
  }

  lemma {:induction false} TokensOfJoin(s: string, start: nat, tokens: seq<string>, sep: string)
    requires sep != [] && start <= |s|
    requires tokens != [] && s[start..] == JoinOf(tokens, sep)
    requires Splittable(tokens, sep)
    ensures Tokens(s, sep, start) == tokens
    decreases |tokens|
  {
    hide Occurs;
    if |tokens| == 1 {
      LastToken(s, start, tokens[0], sep);
    } else {
      var t, rest := tokens[0], tokens[1..];
      var next := start + |t| + |sep|;
      CutAt(s, start, t, sep, JoinOf(rest, sep));
      TokensOfJoin(s, next, rest, sep);
      FirstWithin(s, start, t, sep);
      FindIsFirst(s, sep, start, start + |t|);
      NextToken([], s, sep, start, start + |t|);
      assert tokens == [t] + rest;
    }
  }

  lemma CutAt(s: string, start: nat, t: string, sep: string, tail: string)
    requires start <= |s| && s[start..] == t + sep + tail
    ensures start + |t| + |sep| <= |s|
    ensures s[start..start + |t|] == t && s[start..start + |t| + |sep|] == t + sep
    ensures s[start + |t| + |sep|..] == tail
  {
    var rest := s[start..];
    assert s[start..start + |t|] == rest[..|t|];
    assert s[start..start + |t| + |sep|] == rest[..|t| + |sep|];
    assert s[start + |t| + |sep|..] == rest[|t| + |sep|..];
  }

  lemma LastToken(s: string, start: nat, t: string, sep: string)
    requires sep != [] && start <= |s| && s[start..] == t && !Contains(t, sep)
    ensures Tokens(s, sep, start) == [t]
  {
    var k := Find(s, sep, start);
    if k <= |s| {
      OccursWithin(s, start, t, sep, k - start);
    }
  }

  lemma NoneInTail(s: string, sep: string, start: nat)
    requires start <= |s| && Find(s, sep, start) > |s|
    ensures !Contains(s[start..], sep)
  {
    forall i: nat | i + |sep| <= |s| - start
      ensures !Occurs(s[start..], sep, i)
    {
      OccursWithin(s, start, s[start..], sep, i);
    }
  }

  lemma CutOut(s: string, sep: string, start: nat, k: nat)
    requires start <= k && Occurs(s, sep, k)
    ensures s[start..k + |sep|] == s[start..k] + sep
    ensures s[start..] == s[start..k] + sep + s[k + |sep|..]
  {
  }

  lemma FindNone(s: string, sep: string, j: nat)
    requires j <= |s| + 1 && j + |sep| > |s|
    ensures Find(s, sep, j) == |s| + 1
  {
  }

  /** Splitting loses nothing: the tokens, joined, are the string they came from. */
  lemma {:induction false} TokensFacts(s: string, sep: string, start: nat)
    requires sep != [] && start <= |s|
    ensures Tokens(s, sep, start) != [] && JoinOf(Tokens(s, sep, start), sep) == s[start..]
    ensures Splittable(Tokens(s, sep, start), sep)
    decreases |s| - start
  {
    hide Occurs;
    var k := Find(s, sep, start);
    if k > |s| {
      NoneInTail(s, sep, start);
    } else {
      var rest := Tokens(s, sep, k + |sep|);
      TokensFacts(s, sep, k + |sep|);
      FirstTokenFacts(s, sep, start, k);
      Cons(s[start..k], rest, sep);
      hide FirstOccurs, Find, JoinOf, Splittable;
      assert Tokens(s, sep, start) == [s[start..k]] + rest;
    }
  }

  lemma FirstTokenFacts(s: string, sep: string, start: nat, k: nat)
    requires start <= k <= |s| && Find(s, sep, start) == k
    ensures FirstOccurs(s[start..k] + sep, sep, 0, |s[start..k]|)
    ensures s[start..] == s[start..k] + sep + s[k + |sep|..]
  {
    CutOut(s, sep, start, k);
    FirstWithin(s, start, s[start..k], sep);
  }

  lemma Cons(t: string, rest: seq<string>, sep: string)
    requires rest != []
    ensures JoinOf([t] + rest, sep) == t + sep + JoinOf(rest, sep)
    ensures Splittable([t] + rest, sep) <==> FirstOccurs(t + sep, sep, 0, |t|) && Splittable(rest, sep)
  {
    assert ([t] + rest)[1..] == rest;
  }

  lemma {:induction false} SplittableTokensAreClean(tokens: seq<string>, sep: string, i: nat)
    requires sep != [] && Splittable(tokens, sep) && i < |tokens|
    ensures !Contains(tokens[i], sep)
  {
    if i > 0 {
      SplittableTokensAreClean(tokens[1..], sep, i - 1);
    } else if |tokens| > 1 {
      var t := tokens[0];
      forall k: nat | k + |sep| <= |t|
        ensures !Occurs(t, sep, k)
      {
        OccursWithin(t + sep, 0, t, sep, k);
      }
    }
  }

  /** For every non-empty string and separator: joining the split tokens gives the string back. */
  lemma JoinUndoesSplit(s: string, sep: string)
    requires sep != []
    ensures JoinOf(SplitOf(s, sep), sep) == s
    ensures forall i :: 0 <= i < |SplitOf(s, sep)| ==> !Contains(SplitOf(s, sep)[i], sep)
  {
    TokensFacts(s, sep, 0);
    forall i | 0 <= i < |SplitOf(s, sep)|
      ensures !Contains(SplitOf(s, sep)[i], sep)
    {
      SplittableTokensAreClean(Tokens(s, sep, 0), sep, i);
    }
  }

  /** Exactly when splitting undoes joining, for separators of any length. */
  lemma SplitUndoesJoinExactly(tokens: seq<string>, sep: string)
    requires sep != []
    ensures SplitOf(JoinOf(tokens, sep), sep) == tokens
      <==> (tokens == [] || (JoinOf(tokens, sep) != [] && Splittable(tokens, sep)))
  {
    var s := JoinOf(tokens, sep);
    TokensFacts(s, sep, 0);
    if tokens != [] && s != [] && Splittable(tokens, sep) {
      TokensOfJoin(s, 0, tokens, sep);
    }
  }

  lemma OneByteToken(t: string, c: char)
    ensures Contains(t, [c]) <==> c in t
    ensures FirstOccurs(t + [c], [c], 0, |t|) <==> c !in t
  {
    var u := t + [c];
    assert forall k: nat :: k < |t| ==> t[k..k + 1] == [t[k]] && u[k..k + 1] == [t[k]];
    assert u[|t|..|t| + 1] == [c];
    assert forall k: nat :: k < |t| ==> (Occurs(t, [c], k) <==> t[k] == c);
    assert forall k: nat :: k < |t| ==> (Occurs(u, [c], k) <==> t[k] == c);
    assert !Occurs(t, [c], |t|) && Occurs(u, [c], |t|);
  }

  /** With a one-byte separator the condition is that no token contains it. */
  lemma {:induction false} OneByteSeparator(tokens: seq<string>, c: char)
    requires tokens != []
    ensures Splittable(tokens, [c]) <==> forall i :: 0 <= i < |tokens| ==> c !in tokens[i]
  {
    OneByteToken(tokens[0], c);
    if |tokens| > 1 {
      OneByteSeparator(tokens[1..], c);
      assert forall i :: 1 <= i < |tokens| ==> tokens[i] == tokens[1..][i - 1];
    }
  }

  /** A separator of two bytes can be met early: joined with "aa", the tokens "a" and "b" come
      back as "" and "ab". */
  lemma OverlapIsMetEarly()
    ensures JoinOf(["a", "b"], "aa") == "aaab"
    ensures SplitOf(JoinOf(["a", "b"], "aa"), "aa") == ["", "ab"]
  {
    var sep, s := "aa", "aaab";
    assert JoinOf(["a", "b"], sep) == "a" + sep + JoinOf(["b"], sep);
    assert Occurs(s, sep, 0);
    assert s[2..4][1] == 'b' && sep[1] == 'a';
    assert !Occurs(s, sep, 2) && !Occurs(s, sep, 3) && !Occurs(s, sep, 4);
    assert Find(s, sep, 2) == 5;
    assert Tokens(s, sep, 2) == [s[2..]];
  }

  /** realloc of the token array. */
  method Resize(tokens: array<string>, elements: nat, slots: nat) returns (newtokens: array<string>)
    requires elements <= tokens.Length && elements <= slots
    ensures fresh(newtokens) && newtokens.Length == slots
    ensures newtokens[..elements] == tokens[..elements]
  {
    newtokens := new string[slots];
    forall i | 0 <= i < elements { newtokens[i] := tokens[i]; }
  }

  method Put(tokens: array<string>, elements: nat, token: string)
    requires elements < tokens.Length
    modifies tokens
    ensures tokens[..elements + 1] == old(tokens[..elements]) + [token]
  {
    tokens[elements] := token;
  }

  /** The scanning loop over a growing token array; None is the NULL result. */
  method SplitLen(s: string, sep: string) returns (r: Option<seq<string>>)
    ensures r == if sep == [] then None else Some(SplitOf(s, sep))
  {
    if |sep| < 1 {
      return None;
    }
    var slots, elements, start := 5, 0, 0;
    var tokens := new string[slots];
    if |s| == 0 {
      return Some([]);
    }
    var j := 0;
    ghost var head: seq<string> := [];
    NothingLeads(s, sep);
    hide Occurs, Find, Tokens, Leads, SplitOf;
    while j < |s| - (|sep| - 1)
      invariant 0 <= start <= j <= |s| && tokens.Length == slots && elements < slots
      invariant fresh(tokens)
      invariant Find(s, sep, start) == Find(s, sep, j)
      invariant tokens[..elements] == head && Leads(s, sep, head, start)
      decreases |s| - j
    {
      if slots < elements + 2 {
        slots := slots * 2;
        tokens := Resize(tokens, elements, slots);
      }
      FindStep(s, sep, j);
      if Occurs(s, sep, j) {
        var token := s[start..j];
        NextLeads(head, s, sep, start, j);
        Put(tokens, elements, token);
        elements, head := elements + 1, head + [token];
        start := j + |sep|;
        j := j + |sep| - 1;
      }
      j := j + 1;
    }
    FindNone(s, sep, j);
    NoMoreTokens(s, sep, head, start);
    Put(tokens, elements, s[start..]);
    elements := elements + 1;
    return Some(tokens[..elements]);
  }

  lemma FindStep(s: string, sep: string, j: nat)
    requires j <= |s|
    ensures Find(s, sep, j) == if Occurs(s, sep, j) then j else Find(s, sep, j + 1)
    ensures Occurs(s, sep, j) ==> j + |sep| <= |s|
  {
  }

  lemma NoMoreTokens(s: string, sep: string, head: seq<string>, start: nat)
    requires sep != [] && start <= |s| && Find(s, sep, start) > |s| && Leads(s, sep, head, start)
    ensures s != [] ==> head + [s[start..]] == SplitOf(s, sep)
  {
  }

  lemma JoinStep(joined: string, tokens: seq<string>, sep: string, j: nat)
    requires j < |tokens|
    ensures joined + JoinOf(tokens[j..], sep) ==
      joined + tokens[j] + (if j != |tokens| - 1 then sep else []) + JoinOf(tokens[j + 1..], sep)
  {
    var rest := tokens[j..];
    assert rest[0] == tokens[j] && rest[1..] == tokens[j + 1..];
    if j != |tokens| - 1 {
      Cons(tokens[j], rest[1..], sep);
      assert [tokens[j]] + rest[1..] == rest;
      Associates(joined, tokens[j] + sep, JoinOf(rest[1..], sep));
      Associates(joined, tokens[j], sep);
    } else {
      assert rest[1..] == [] && joined + tokens[j] + [] + [] == joined + tokens[j];
    }
  }

  /** sdsjoinsds. */
  method Join(tokens: seq<string>, sep: string) returns (joined: string)
    ensures joined == JoinOf(tokens, sep)
  {
    joined := "";
    var j := 0;
    assert tokens[0..] == tokens && joined + JoinOf(tokens, sep) == JoinOf(tokens, sep);
    assert tokens[|tokens|..] == [];
    while j < |tokens|
      invariant 0 <= j <= |tokens|
      invariant joined + JoinOf(tokens[j..], sep) == JoinOf(tokens, sep)
    {
      JoinStep(joined, tokens, sep, j);
      joined := joined + tokens[j];
      if j != |tokens| - 1 {
        joined := joined + sep;
      }
      j := j + 1;
    }
  }
}
