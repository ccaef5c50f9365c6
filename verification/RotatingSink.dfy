/** spdlog's rotating_file_sink over a file system of named files. */
module RotatingSink {
  import opened Bytes

  /** A file: its bytes, whether this sink began it, and how many messages it wrote there. */
  datatype File = File(data: string, begun: bool, messages: nat)

  type Name = string

  // ---- Numbered names ----

  /** Position of the last occurrence of c, or |s|. */
  function LastIndex(s: string, c: char): (k: nat)
    ensures k <= |s| && (k < |s| ==> s[k] == c)
  {
    if s == [] then 0
    else if s[|s| - 1] == c then |s| - 1
    else
      var k := LastIndex(s[..|s| - 1], c);
      if k == |s| - 1 then |s| else k
  }

  const FOLDER_SEP: char := '/'

  /** Base name and extension; hidden files and dots inside folder names have none. */
  function SplitByExtension(name: Name): (r: (Name, string))
    ensures r.0 + r.1 == name
  {
    var dot := LastIndex(name, '.');
    if dot == |name| || dot == 0 || dot == |name| - 1 then (name, [])
    else
      var folder := LastIndex(name, FOLDER_SEP);
      if folder < |name| && folder >= dot - 1 then (name, [])
      else (name[..dot], name[dot..])
  }

  function CalcFilename(base: Name, index: nat): Name {
    if index == 0 then base
    else
      var split := SplitByExtension(base);
      split.0 + "." + Decimal(index) + split.1
  }

  /** The names of the series are pairwise distinct. */
  lemma NamesAreDistinct(base: Name, i: nat, j: nat)
    requires CalcFilename(base, i) == CalcFilename(base, j)
    ensures i == j
  {
    var split := SplitByExtension(base);
    var a, b := split.0 + "." + Decimal(i) + split.1, split.0 + "." + Decimal(j) + split.1;
    DecimalRoundTrip(i);
    DecimalRoundTrip(j);
    if i > 0 && j > 0 {
      assert |Decimal(i)| == |Decimal(j)|;
      var from := |split.0| + 1;
      assert a[from..from + |Decimal(i)|] == Decimal(i) && b[from..from + |Decimal(j)|] == Decimal(j);
      DecimalInjective(i, j);
    }
  }

  /** A base name with an extension gets the index in front of it. */
  lemma IndexStandsBeforeTheExtension(stem: string, ext: string, index: nat)
    requires stem != [] && stem[|stem| - 1] != '/' && ext != [] && '.' !in ext && '/' !in ext && index > 0
    ensures CalcFilename(stem + "." + ext, index) == stem + "." + Decimal(index) + "." + ext
  {
    var name := stem + "." + ext;
    assert name == (stem + ".") + ext && "." + ext == ['.'] + ext;
    LastIndexAt(name, '.', |stem|);
    LastIndexFront(name, '/', |stem| - 1);
    assert name[..|stem|] == stem && name[|stem|..] == "." + ext;
    assert |stem| > 0 && |stem| < |name| - 1;
    assert CalcFilename(name, index) == stem + "." + Decimal(index) + ("." + ext);
    assert stem + "." + Decimal(index) + ("." + ext) == stem + "." + Decimal(index) + "." + ext;
  }

  lemma {:induction false} LastIndexAt(s: string, c: char, k: nat)
    requires k < |s| && s[k] == c && forall i :: k < i < |s| ==> s[i] != c
    ensures LastIndex(s, c) == k
    decreases |s|
  {
    if k < |s| - 1 {
      LastIndexAt(s[..|s| - 1], c, k);
    }
  }

  /** A file without an extension, hidden or not, gets it at its end, also in a folder with a dot. */
  lemma IndexStandsAtTheEnd(dir: string, file: string, index: nat)
    requires dir == [] || dir[|dir| - 1] == '/'
    requires file != [] && '/' !in file && '.' !in file[1..] && index > 0
    ensures CalcFilename(dir + file, index) == dir + file + "." + Decimal(index)
  {
    var name := dir + file;
    assert forall i :: 1 <= i < |file| ==> file[i] == file[1..][i - 1];
    if dir != [] {
      LastIndexAt(name, '/', |dir| - 1);
    }
    if file[0] == '.' {
      LastIndexAt(name, '.', |dir|);
    } else {
      LastIndexFront(name, '.', |dir|);
    }
    assert SplitByExtension(name) == (name, []);
    assert name + "." + Decimal(index) + [] == name + "." + Decimal(index);
  }

  /** A dot at the very end begins no extension. */
  lemma IndexStandsBehindALastDot(name: Name, index: nat)
    requires name != [] && name[|name| - 1] == '.' && index > 0
    ensures CalcFilename(name, index) == name + "." + Decimal(index)
  {
    assert LastIndex(name, '.') == |name| - 1;
    assert name + "." + Decimal(index) + [] == name + "." + Decimal(index);
  }

  lemma {:induction false} LastIndexFront(s: string, c: char, k: nat)
    requires k <= |s| && forall i :: k <= i < |s| ==> s[i] != c
    ensures LastIndex(s, c) < k || LastIndex(s, c) == |s|
    decreases |s|
  {
    if k < |s| {
      LastIndexFront(s[..|s| - 1], c, k);
    }
  }

  /** The names of a series. */
  lemma {:induction false} NamesAsDocumented()
    ensures CalcFilename("logs/mylog.txt", 0) == "logs/mylog.txt"
    ensures CalcFilename("logs/mylog.txt", 3) == "logs/mylog.3.txt"
  {
    IndexStandsBeforeTheExtension("logs/mylog", "txt", 3);
    assert "logs/mylog" + "." + "txt" == "logs/mylog.txt" && Decimal(3) == "3";
    hide CalcFilename;
    assert "logs/mylog" + "." + "3" + "." + "txt" == "logs/mylog.3.txt";
    NameOfFirst("logs/mylog.txt");
  }

  // ---- The series of files ----

  /** The files of the series by index, newest first; None where there is no file. */
  type Series = seq<Option<File>>

  function Data(f: Option<File>): string { if f == None then [] else f.value.data }

  /** The series read from the oldest file to the newest. */
  function History(s: Series): string {
    if s == [] then [] else History(s[1..]) + Data(s[0])
  }

  ghost predicate IsSuffix(a: string, b: string) { |a| <= |b| && a == b[|b| - |a|..] }

  const NEW_FILE: Option<File> := Some(File([], true, 0))

  /** What a rotation leaves at index i: file i-1 moves up, a last file without a successor stays,
      and a new file is begun at index 0. */
  function RotatedAt(s: Series, i: nat): Option<File>
    requires i < |s|
  {
    if i == 0 then NEW_FILE
    else if s[i - 1].Some? then s[i - 1]
    else if i == |s| - 1 then s[i]
    else None
  }

  function Rotated(s: Series): Series { seq(|s|, i requires 0 <= i < |s| => RotatedAt(s, i)) }

  function AppendTo(f: Option<File>, msg: string): Option<File> {
    match f
    case None => None
    case Some(file) => Some(file.(data := file.data + msg, messages := file.messages + 1))
  }

  /** The series after one message. */
  function Sunk(s: Series, size: nat, maxSize: nat, msg: string): Series
    requires s != []
  {
    var s' := if size + |msg| > maxSize then Rotated(s) else s;
    s'[0 := AppendTo(s'[0], msg)]
  }

  lemma {:induction false} HistoryConcat(a: Series, b: Series)
    ensures History(a + b) == History(b) + History(a)
  {
    if a == [] {
      assert a + b == b;
    } else {
      assert (a + b)[1..] == a[1..] + b;
      HistoryConcat(a[1..], b);
    }
  }

  lemma HistorySnoc(a: Series, f: Option<File>)
    ensures History(a + [f]) == Data(f) + History(a)
  {
    HistoryConcat(a, [f]);
    assert [f][1..] == [] && History([f]) == Data(f);
  }

  lemma SuffixAppend(a: string, b: string, msg: string)
    requires IsSuffix(a, b)
    ensures IsSuffix(a + msg, b + msg)
  {
  }

  lemma RotatedForm(s: Series)
    requires |s| >= 2
    ensures var m := |s| - 1;
      Rotated(s) == [NEW_FILE] + (s[..m - 1] + [RotatedAt(s, m)])
      && s == s[..m - 1] + [s[m - 1]] + [s[m]]
  {
  }

  lemma HistoryOfNewFront(rest: Series)
    ensures History([NEW_FILE] + rest) == History(rest)
  {
    assert ([NEW_FILE] + rest)[1..] == rest;
  }

  /** Exactly what a rotation forgets: the last file, and only when another takes its place. */
  function Dropped(s: Series): string
    requires s != []
  {
    var m := |s| - 1;
    if m == 0 || s[m - 1].Some? then Data(s[m]) else []
  }

  lemma RotationDropsOnlyTheOldest(s: Series)
    requires s != []
    ensures History(s) == Dropped(s) + History(Rotated(s))
  {
    var m := |s| - 1;
    if m == 0 {
      assert Rotated(s) == [NEW_FILE] + [];
      assert s[1..] == [];
    } else {
      var kept, last := s[..m - 1], RotatedAt(s, m);
      RotatedForm(s);
      hide History, Rotated;
      HistoryOfNewFront(kept + [last]);
      HistorySnoc(kept, last);
      HistorySnoc(kept, s[m - 1]);
      HistorySnoc(kept + [s[m - 1]], s[m]);
    }
  }

  lemma RotationKeepsASuffix(s: Series)
    requires s != []
    ensures IsSuffix(History(Rotated(s)), History(s))
  {
    RotationDropsOnlyTheOldest(s);
    hide History, Rotated;
  }

  lemma HistoryOfAppend(s: Series, msg: string)
    requires s != [] && s[0].Some?
    ensures History(s[0 := AppendTo(s[0], msg)]) == History(s) + msg
  {
    assert s[0 := AppendTo(s[0], msg)][1..] == s[1..];
    assert History(s[1..]) + (Data(s[0]) + msg) == History(s[1..]) + Data(s[0]) + msg;
  }

  lemma SinkKeepsASuffix(s: Series, size: nat, maxSize: nat, msg: string)
    requires s != [] && s[0].Some?
    ensures IsSuffix(History(Sunk(s, size, maxSize, msg)), History(s) + msg)
  {
    hide History;
    RotationKeepsASuffix(s);
    HistoryOfAppend(s, msg);
    HistoryOfAppend(Rotated(s), msg);
  }

  /** A file begun by the sink is within the limit, or holds a single message. */
  predicate Bounded(f: Option<File>, maxSize: nat) {
    f.Some? && f.value.begun ==>
      |f.value.data| <= maxSize || f.value.messages == 1
  }

  predicate AllBounded(s: Series, maxSize: nat) { forall i :: 0 <= i < |s| ==> Bounded(s[i], maxSize) }

  lemma SinkKeepsBounds(s: Series, size: nat, maxSize: nat, msg: string)
    requires s != [] && s[0].Some? && |Data(s[0])| <= size && AllBounded(s, maxSize)
    ensures AllBounded(Sunk(s, size, maxSize, msg), maxSize)
  {
  }

  function NextSize(size: nat, maxSize: nat, msg: string): nat {
    if size + |msg| > maxSize then |msg| else size + |msg|
  }

  lemma SunkFront(s: Series, size: nat, maxSize: nat, msg: string)
    requires s != [] && s[0].Some? && |Data(s[0])| <= size
    ensures Sunk(s, size, maxSize, msg)[0].Some?
    ensures |Data(Sunk(s, size, maxSize, msg)[0])| <= NextSize(size, maxSize, msg)
  {
  }

  /** One message keeps everything the sink promises of its series. */
  lemma SunkIsValid(s: Series, size: nat, maxSize: nat, msg: string, total: string)
    requires s != [] && s[0].Some? && |Data(s[0])| <= size && AllBounded(s, maxSize) && IsSuffix(History(s), total)
    ensures var s' := Sunk(s, size, maxSize, msg);
      && |s'| == |s| && s'[0].Some? && |Data(s'[0])| <= NextSize(size, maxSize, msg)
      && AllBounded(s', maxSize) && IsSuffix(History(s'), total + msg)
  {
    hide History, Sunk, AllBounded, NextSize;
    SunkLength(s, size, maxSize, msg);
    SunkFront(s, size, maxSize, msg);
    SinkKeepsBounds(s, size, maxSize, msg);
    SinkKeepsASuffix(s, size, maxSize, msg);
    SuffixAppend(History(s), total, msg);
    hide IsSuffix;
    SuffixTransitive(History(Sunk(s, size, maxSize, msg)), History(s) + msg, total + msg);
  }

  // ---- Every run ----

  /** The series after a run of messages. */
  function SunkAll(s: Series, size: nat, maxSize: nat, msgs: seq<string>): Series
    requires s != []
    decreases msgs
  {
    if msgs == [] then s
    else SunkAll(Sunk(s, size, maxSize, msgs[0]), NextSize(size, maxSize, msgs[0]), maxSize, msgs[1..])
  }

  function Written(msgs: seq<string>): string { if msgs == [] then [] else msgs[0] + Written(msgs[1..]) }

  lemma SuffixTransitive(a: string, b: string, c: string)
    requires IsSuffix(a, b) && IsSuffix(b, c)
    ensures IsSuffix(a, c)
  {
  }

  /** After any run, the files from oldest to newest are a suffix of what they held at first and
      everything written since; files begun by the sink are bounded; the series does not grow. */
  lemma {:induction false} EveryRunKeepsASuffix(s: Series, size: nat, maxSize: nat, msgs: seq<string>)
    requires s != [] && s[0].Some? && |Data(s[0])| <= size && AllBounded(s, maxSize)
    ensures var s' := SunkAll(s, size, maxSize, msgs);
      |s'| == |s| && AllBounded(s', maxSize) && IsSuffix(History(s'), History(s) + Written(msgs))
    decreases msgs
  {
    if msgs == [] {
      assert History(s) + [] == History(s);
    } else {
      hide History, AllBounded, Rotated, Sunk, NextSize, IsSuffix;
      var s1, rest := Sunk(s, size, maxSize, msgs[0]), msgs[1..];
      SunkFront(s, size, maxSize, msgs[0]);
      SinkKeepsBounds(s, size, maxSize, msgs[0]);
      SinkKeepsASuffix(s, size, maxSize, msgs[0]);
      SunkLength(s, size, maxSize, msgs[0]);
      EveryRunKeepsASuffix(s1, NextSize(size, maxSize, msgs[0]), maxSize, rest);
      Chained(History(SunkAll(s, size, maxSize, msgs)), History(s1), Written(rest), History(s), msgs[0]);
    }
  }

  lemma Chained(final: string, mid: string, rest: string, first: string, msg: string)
    requires IsSuffix(final, mid + rest) && IsSuffix(mid, first + msg)
    ensures IsSuffix(final, first + (msg + rest))
  {
    SuffixAppend(mid, first + msg, rest);
    Associates(first, msg, rest);
    hide IsSuffix;
    SuffixTransitive(final, mid + rest, first + msg + rest);
  }

  lemma SunkLength(s: Series, size: nat, maxSize: nat, msg: string)
    requires s != []
    ensures |Sunk(s, size, maxSize, msg)| == |s|
  {
  }

  // ---- When a file is closed ----

  /** As long as everything fits nothing is forgotten or moved: the newest file grows by what is
      written, and every other file is as it was. */
  lemma {:induction false} NothingIsForgottenWhileItFits(s: Series, size: nat, maxSize: nat, msgs: seq<string>)
    requires s != [] && s[0].Some? && size + |Written(msgs)| <= maxSize
    ensures var s' := SunkAll(s, size, maxSize, msgs);
      && |s'| == |s| && s'[0].Some? && Data(s'[0]) == Data(s[0]) + Written(msgs) && s'[1..] == s[1..]
    decreases msgs
  {
    if msgs == [] {
      assert Data(s[0]) + [] == Data(s[0]);
    } else {
      var s1 := Sunk(s, size, maxSize, msgs[0]);
      assert s1 == s[0 := AppendTo(s[0], msgs[0])];
      Associates(Data(s[0]), msgs[0], Written(msgs[1..]));
      hide Sunk, Rotated;
      NothingIsForgottenWhileItFits(s1, size + |msgs[0]|, maxSize, msgs[1..]);
      assert s1[1..] == s[1..];
    }
  }

  /** How messages are packed into files: `open` are those of the file that is open. */
  function Packed(open: seq<string>, maxSize: nat, msgs: seq<string>): (files: seq<seq<string>>)
    ensures files != []
    decreases msgs
  {
    if msgs == [] then [open]
    else if |Written(open)| + |msgs[0]| <= maxSize then Packed(open + [msgs[0]], maxSize, msgs[1..])
    else [open] + Packed([msgs[0]], maxSize, msgs[1..])
  }

  lemma {:induction false} WrittenConcat(a: seq<string>, b: seq<string>)
    ensures Written(a + b) == Written(a) + Written(b)
  {
    if a == [] {
      assert a + b == b;
    } else {
      assert (a + b)[1..] == a[1..] + b;
      WrittenConcat(a[1..], b);
      Associates(a[0], Written(a[1..]), Written(b));
    }
  }

  lemma WrittenOne(open: seq<string>, msg: string)
    ensures Written(open + [msg]) == Written(open) + msg
  {
    WrittenConcat(open, [msg]);
    assert [msg][1..] == [] && Written([msg]) == msg + [];
  }

  /** A file is closed only when the next message would have taken it over the limit. */
  predicate Greedy(files: seq<seq<string>>, maxSize: nat) {
    |files| > 1 ==>
      && files[1] != [] && |Written(files[0])| + |files[1][0]| > maxSize
      && Greedy(files[1..], maxSize)
  }

  function Flat(files: seq<seq<string>>): seq<string> { if files == [] then [] else files[0] + Flat(files[1..]) }

  /** The packing is greedy, and no message is lost or moved. */
  lemma {:induction false} PackedIsGreedy(open: seq<string>, maxSize: nat, msgs: seq<string>)
    ensures var files := Packed(open, maxSize, msgs);
      open <= files[0] && Flat(files) == open + msgs && Greedy(files, maxSize)
    decreases msgs
  {
    hide Written;
    if msgs == [] {
      assert [open][1..] == [];
      assert open + [] == open;
    } else if |Written(open)| + |msgs[0]| <= maxSize {
      assert open + [msgs[0]] + msgs[1..] == open + msgs;
      PackedIsGreedy(open + [msgs[0]], maxSize, msgs[1..]);
    } else {
      PackedIsGreedy([msgs[0]], maxSize, msgs[1..]);
      OneMoreFile(open, Packed([msgs[0]], maxSize, msgs[1..]), maxSize, msgs);
    }
  }

  lemma OneMoreFile(open: seq<string>, rest: seq<seq<string>>, maxSize: nat, msgs: seq<string>)
    requires msgs != [] && rest != [] && [msgs[0]] <= rest[0] && Flat(rest) == [msgs[0]] + msgs[1..]
    requires Greedy(rest, maxSize) && |Written(open)| + |msgs[0]| > maxSize
    ensures Flat([open] + rest) == open + msgs && Greedy([open] + rest, maxSize)
  {
    hide Written;
    assert ([open] + rest)[1..] == rest && [msgs[0]] + msgs[1..] == msgs;
    assert rest[0][0] == msgs[0];
  }

  /** The contents of the files, newest first. */
  function Contents(s: Series): seq<Option<string>> {
    seq(|s|, i requires 0 <= i < |s| => if s[i].Some? then Some(s[i].value.data) else None)
  }

  /** No file is missing between two others. */
  ghost predicate Gapless(s: Series) {
    forall i, j :: 0 <= i < j < |s| && s[j].Some? ==> s[i].Some?
  }

  /** The front of a list, as long as the series. */
  function Front(all: seq<Option<string>>, n: nat): seq<Option<string>> { if n <= |all| then all[..n] else all }

  lemma RotatedContents(s: Series)
    requires s != [] && s[0].Some? && Gapless(s)
    ensures Gapless(Rotated(s)) && Rotated(s)[0] == NEW_FILE
    ensures Contents(Rotated(s)) == Front([Some("")] + Contents(s), |s|)
  {
    var s', all := Rotated(s), Front([Some("")] + Contents(s), |s|);
    assert |all| == |s|;
    forall i | 0 <= i < |s| ensures Contents(s')[i] == all[i] {
      if i > 0 {
        assert all[i] == Contents(s)[i - 1];
        assert s[i - 1] == None ==> s[i] == None;
      }
    }
  }

  /** The files of a run, newest first: those the packing closed, before those that were there. */
  function Filed(files: seq<seq<string>>, older: seq<Option<string>>): seq<Option<string>>
    decreases files
  {
    if files == [] then older else Filed(files[1..], [Some(Written(files[0]))] + older)
  }

  lemma {:induction false} FrontOfFiled(files: seq<seq<string>>, older: seq<Option<string>>, n: nat)
    ensures Front(Filed(files, Front(older, n)), n) == Front(Filed(files, older), n)
    decreases files
  {
    if files != [] {
      var a, b := [Some(Written(files[0]))] + older, [Some(Written(files[0]))] + Front(older, n);
      assert Front(a, n) == Front(b, n);
      FrontOfFiled(files[1..], a, n);
      FrontOfFiled(files[1..], b, n);
    }
  }

  /** Exactly what the files hold after any run of a sink whose size is exact: the packed messages,
      the newest file first, then the files there were, as many as the series has places. */
  lemma {:induction false} FilesArePacked(s: Series, maxSize: nat, open: seq<string>, msgs: seq<string>)
    requires s != [] && s[0].Some? && Gapless(s) && Data(s[0]) == Written(open)
    ensures Contents(SunkAll(s, |Data(s[0])|, maxSize, msgs))
      == Front(Filed(Packed(open, maxSize, msgs), Contents(s)[1..]), |s|)
    decreases msgs
  {
    var size, older := |Data(s[0])|, Contents(s)[1..];
    if msgs == [] {
      assert [open][1..] == [] && Filed([open], older) == Filed([], [Some(Written(open))] + older);
      assert Contents(s) == [Some(Written(open))] + older;
    } else {
      var s1, next := Sunk(s, size, maxSize, msgs[0]), msgs[1..];
      if size + |msgs[0]| <= maxSize {
        WrittenOne(open, msgs[0]);
        StaysOpen(s, msgs[0]);
        hide Rotated, Contents;
        FilesArePacked(s1, maxSize, open + [msgs[0]], next);
      } else {
        WrittenOne([], msgs[0]);
        assert [] + [msgs[0]] == [msgs[0]];
        IsClosed(s, msgs[0]);
        hide Rotated, Contents, Front;
        FilesArePacked(s1, maxSize, [msgs[0]], next);
        ClosedFiled(open, Packed([msgs[0]], maxSize, next), Contents(s), Contents(s1), |s|);
      }
    }
  }

  lemma StaysOpen(s: Series, msg: string)
    requires s != [] && s[0].Some? && Gapless(s)
    ensures var s1 := s[0 := AppendTo(s[0], msg)];
      && s1[0].Some? && Gapless(s1) && Data(s1[0]) == Data(s[0]) + msg && Contents(s1)[1..] == Contents(s)[1..]
  {
  }

  lemma IsClosed(s: Series, msg: string)
    requires s != [] && s[0].Some? && Gapless(s)
    ensures var s1 := Rotated(s)[0 := AppendTo(Rotated(s)[0], msg)];
      && |s1| == |s| && s1[0].Some? && Gapless(s1) && Data(s1[0]) == msg
      && Contents(s1)[1..] == Front([Some("")] + Contents(s), |s|)[1..]
  {
    RotatedContents(s);
    assert [] + msg == msg;
  }

  /** The closed file goes in front of the older ones; what falls off the end does so at once. */
  lemma ClosedFiled(open: seq<string>, rest: seq<seq<string>>,
        was: seq<Option<string>>, now: seq<Option<string>>, n: nat)
    requires n == |was| == |now| > 0 && was[0] == Some(Written(open)) && rest != []
    requires now[1..] == Front([Some("")] + was, n)[1..]
    ensures Front(Filed(rest, now[1..]), n) == Front(Filed([open] + rest, was[1..]), n)
  {
    assert was == [Some(Written(open))] + was[1..];
    assert ([open] + rest)[1..] == rest;
    assert now[1..] == Front(was, n - 1);
    var first := Some(Written(rest[0]));
    assert Front([first] + now[1..], n) == Front([first] + was, n);
    FrontOfFiled(rest[1..], [first] + now[1..], n);
    FrontOfFiled(rest[1..], [first] + was, n);
  }

  // ---- The sink ----

  type FileSystem = map<Name, File>

  function Lookup(fs: FileSystem, name: Name): Option<File> {
    if name in fs then Some(fs[name]) else None
  }

  /** The series as it stands in a file system. */
  function FilesIn(fs: FileSystem, base: Name, maxFiles: nat): (s: Series)
    ensures |s| == maxFiles + 1
  {
    seq(maxFiles + 1, i requires 0 <= i <= maxFiles => Lookup(fs, CalcFilename(base, i)))
  }

  ghost predicate InSeries(name: Name, base: Name, maxFiles: nat) {
    exists i: nat :: i <= maxFiles && name == CalcFilename(base, i)
  }

  /** Outside the series nothing differs. */
  ghost predicate SameElsewhere(a: FileSystem, b: FileSystem, base: Name, maxFiles: nat) {
    forall name :: !InSeries(name, base, maxFiles) ==> Lookup(a, name) == Lookup(b, name)
  }

  /** Opening for appending creates a missing file. */
  function Started(fs: FileSystem, base: Name): FileSystem {
    if base in fs then fs else fs[base := NEW_FILE.value]
  }

  lemma PutInSeries(fs: FileSystem, base: Name, maxFiles: nat, i: nat, file: File)
    requires i <= maxFiles
    ensures FilesIn(fs[CalcFilename(base, i) := file], base, maxFiles)
      == FilesIn(fs, base, maxFiles)[i := Some(file)]
    ensures SameElsewhere(fs[CalcFilename(base, i) := file], fs, base, maxFiles)
  {
    forall j: nat | j <= maxFiles && CalcFilename(base, i) == CalcFilename(base, j)
      ensures i == j
    {
      NamesAreDistinct(base, i, j);
    }
  }

  lemma TakeFromSeries(fs: FileSystem, base: Name, maxFiles: nat, i: nat)
    requires i <= maxFiles
    ensures FilesIn(fs - {CalcFilename(base, i)}, base, maxFiles)
      == FilesIn(fs, base, maxFiles)[i := None]
    ensures SameElsewhere(fs - {CalcFilename(base, i)}, fs, base, maxFiles)
  {
    forall j: nat | j <= maxFiles && CalcFilename(base, i) == CalcFilename(base, j)
      ensures i == j
    {
      NamesAreDistinct(base, i, j);
    }
  }

  lemma StartedHistory(s: Series)
    requires s != []
    ensures s[0] == None ==> History(s[0 := NEW_FILE]) == History(s)
  {
    assert s[0 := NEW_FILE][1..] == s[1..];
  }

  lemma StartedFiles(fs: FileSystem, base: Name, maxFiles: nat)
    ensures var s := FilesIn(fs, base, maxFiles);
      FilesIn(Started(fs, base), base, maxFiles) == if base in fs then s else s[0 := NEW_FILE]
    ensures SameElsewhere(Started(fs, base), fs, base, maxFiles)
    ensures History(FilesIn(Started(fs, base), base, maxFiles)) == History(FilesIn(fs, base, maxFiles))
  {
    PutInSeries(fs, base, maxFiles, 0, NEW_FILE.value);
    StartedHistory(FilesIn(fs, base, maxFiles));
  }

  class Sink {
    const base: Name
    const maxSize: nat
    const maxFiles: nat
    var fs: FileSystem
    var currentSize: nat
    /** Everything the series held at first, and everything written since. */
    ghost var total: string

    function Files(): (s: Series)
      reads this
      ensures |s| == maxFiles + 1
    {
      FilesIn(fs, base, maxFiles)
    }

    /** The newest file exists, currentSize is what it holds (or more, after a rotation on opening),
        every file begun by the sink is bounded, and only an oldest part of the history is gone. */
    ghost predicate Valid()
      reads this
    {
      && Files()[0].Some? && |Data(Files()[0])| <= currentSize
      && AllBounded(Files(), maxSize)
      && IsSuffix(History(Files()), total)
    }

    /** Opens the newest file for appending and rotates at once if asked to. currentSize keeps the
        size of the file that was rotated away. */
    constructor (fs: FileSystem, base: Name, maxSize: nat, maxFiles: nat, rotateOnOpen: bool)
      requires forall name <- fs :: !fs[name].begun
      ensures this.base == base && this.maxSize == maxSize && this.maxFiles == maxFiles
      ensures Valid() && total == History(FilesIn(fs, base, maxFiles))
      ensures SameElsewhere(this.fs, fs, base, maxFiles)
      ensures currentSize == |Data(FilesIn(Started(fs, base), base, maxFiles)[0])|
      ensures var s := FilesIn(Started(fs, base), base, maxFiles);
        Files() == if rotateOnOpen && currentSize > 0 then Rotated(s) else s
    {
      this.base, this.maxSize, this.maxFiles := base, maxSize, maxFiles;
      this.fs := Started(fs, base);
      currentSize := |Started(fs, base)[base].data|;
      total := History(FilesIn(fs, base, maxFiles));
      new;
      OpenedIsValid(fs, base, maxSize, maxFiles);
      hide History, Rotated, AllBounded, IsSuffix, FilesIn, Started, CalcFilename, SameElsewhere;
      ghost var was := this.fs;
      if rotateOnOpen && currentSize > 0 {
        Rotate();
        SameElsewhereTwice(this.fs, was, fs, base, maxFiles);
      }
    }

    /** rename_file: the target is removed first. */
    method RenameFile(from: nat, to: nat)
      requires from < to <= maxFiles && Files()[from].Some?
      modifies this`fs
      ensures Files() == old(Files())[to := old(Files()[from])][from := None]
      ensures SameElsewhere(fs, old(fs), base, maxFiles)
    {
      var src, target := CalcFilename(base, from), CalcFilename(base, to);
      var file := fs[src];
      TakeFromSeries(fs, base, maxFiles, to);
      fs := fs - {target};
      NamesAreDistinctIfDifferent(base, from, to);
      TakeFromSeries(fs, base, maxFiles, from);
      fs := fs - {src};
      PutInSeries(fs, base, maxFiles, to, file);
      fs := fs[target := file];
    }

    /** The loop over the series, oldest first, then a new file at the front. */
    method Rotate()
      modifies this`fs
      ensures Files() == Rotated(old(Files()))
      ensures SameElsewhere(fs, old(fs), base, maxFiles)
    {
      ghost var s := Files();
      var i := maxFiles;
      MidwayEnds(s);
      hide CalcFilename, Midway, Rotated, SameElsewhere;
      SameElsewhereTwice(fs, fs, fs, base, maxFiles);
      while i > 0
        invariant 0 <= i <= maxFiles
        invariant Files() == Midway(s, i)
        invariant SameElsewhere(fs, old(fs), base, maxFiles)
      {
        MidwayStep(s, i);
        ghost var was := fs;
        if CalcFilename(base, i - 1) in fs {
          RenameFile(i - 1, i);
          SameElsewhereTwice(fs, was, old(fs), base, maxFiles);
        }
        i := i - 1;
      }
      ghost var was := fs;
      NameOfFirst(base);
      PutInSeries(fs, base, maxFiles, 0, NEW_FILE.value);
      fs := fs[base := NEW_FILE.value];
      SameElsewhereTwice(fs, was, old(fs), base, maxFiles);
    }

    /** Formats nothing: msg is the formatted text. */
    method SinkIt(msg: string)
      requires Valid()
      modifies this
      ensures Valid() && total == old(total) + msg
      ensures Files() == Sunk(old(Files()), old(currentSize), maxSize, msg)
      ensures currentSize == NextSize(old(currentSize), maxSize, msg)
      ensures SameElsewhere(fs, old(fs), base, maxFiles)
    {
      ghost var s, size := Files(), currentSize;
      SunkIsValid(s, size, maxSize, msg, total);
      hide History, Rotated, AllBounded, IsSuffix, FilesIn;
      currentSize := currentSize + |msg|;
      if currentSize > maxSize {
        Rotate();
        currentSize := |msg|;
      }
      Write(msg);
      total := total + msg;
    }

    /** Appends to the open file. */
    method Write(msg: string)
      requires Files()[0].Some?
      modifies this`fs
      ensures Files() == old(Files())[0 := AppendTo(old(Files()[0]), msg)]
      ensures SameElsewhere(fs, old(fs), base, maxFiles)
    {
      assert Files()[0] == Lookup(fs, base);
      var file := fs[base].(data := fs[base].data + msg, messages := fs[base].messages + 1);
      PutInSeries(fs, base, maxFiles, 0, file);
      fs := fs[base := file];
    }
  }

  lemma NamesAreDistinctIfDifferent(base: Name, i: nat, j: nat)
    requires i != j
    ensures CalcFilename(base, i) != CalcFilename(base, j)
  {
    if CalcFilename(base, i) == CalcFilename(base, j) {
      NamesAreDistinct(base, i, j);
    }
  }

  /** The series when the rotation loop has dealt with the indexes above i. */
  function Midway(s: Series, i: nat): Series
    requires i < |s|
  {
    seq(|s|, j requires 0 <= j < |s| =>
      if j < i || i == |s| - 1 then s[j] else if j == i then None else RotatedAt(s, j))
  }

  /** The loop goes from the series as it was to the rotated one without its new file. */
  lemma MidwayEnds(s: Series)
    requires s != []
    ensures Midway(s, |s| - 1) == s && Midway(s, 0)[0 := NEW_FILE] == Rotated(s)
  {
  }

  /** One round: file i-1, if there is one, moves to index i, which is free or the last. */
  lemma MidwayStep(s: Series, i: nat)
    requires 0 < i < |s|
    ensures Midway(s, i)[i - 1] == s[i - 1]
    ensures Midway(s, i - 1) ==
      if s[i - 1].Some? then Midway(s, i)[i := s[i - 1]][i - 1 := None] else Midway(s, i)
  {
  }

  lemma SameElsewhereTwice(a: FileSystem, b: FileSystem, c: FileSystem, base: Name, maxFiles: nat)
    ensures SameElsewhere(a, a, base, maxFiles)
    ensures SameElsewhere(a, b, base, maxFiles) && SameElsewhere(b, c, base, maxFiles)
      ==> SameElsewhere(a, c, base, maxFiles)
  {
  }

  /** A series just opened, and the same after a rotation. */
  lemma OpenedIsValid(fs: FileSystem, base: Name, maxSize: nat, maxFiles: nat)
    requires forall name <- fs :: !fs[name].begun
    ensures var s := FilesIn(Started(fs, base), base, maxFiles);
      && s[0] == Lookup(Started(fs, base), base) && s[0].Some? && Rotated(s)[0].Some? && Data(Rotated(s)[0]) == []
      && AllBounded(s, maxSize) && AllBounded(Rotated(s), maxSize)
      && History(s) == History(FilesIn(fs, base, maxFiles)) && IsSuffix(History(s), History(s))
      && IsSuffix(History(Rotated(s)), History(s))
    ensures SameElsewhere(Started(fs, base), fs, base, maxFiles)
  {
    StartedFiles(fs, base, maxFiles);
    RotationKeepsASuffix(FilesIn(Started(fs, base), base, maxFiles));
    NameOfFirst(base);
    hide History, CalcFilename;
  }

  lemma NameOfFirst(base: Name)
    ensures CalcFilename(base, 0) == base
  {
  }
}
