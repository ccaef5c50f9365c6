/** cpptoml's table building: headers, array-of-tables headers and key/value statements. */
module TomlTree {
  import opened Bytes

  type Key = string

  /** A node of the tree. `Leaf` is a scalar value or a plain array; `text` stands for it. `inlined`
      marks an array of tables written as a value. */
  datatype Node =
    | Leaf(text: string, scalar: bool)
    | Table(entries: map<Key, Node>)
    | Tables(items: seq<Node>, inlined: bool)

  const EMPTY: Node := Table(map[])

  /** One step down: into a table by key, and on into an element when the entry is an array of
      tables. */
  datatype Hop = Hop(key: Key, index: Option<nat>)

  type Place = seq<Hop>

  /** The node at a place. */
  function Find(t: Node, place: Place): Option<Node> {
    if place == [] then Some(t)
    else if !t.Table? || place[0].key !in t.entries then None
    else
      var b := t.entries[place[0].key];
      match place[0].index
      case None => Find(b, place[1..])
      case Some(i) => if b.Tables? && i < |b.items| then Find(b.items[i], place[1..]) else None
  }

  /** The tree with the table at `place` given the entry key := node. */
  function Insert(t: Node, place: Place, key: Key, node: Node): Node
    decreases place
  {
    if !t.Table? then t
    else if place == [] then Table(t.entries[key := node])
    else if place[0].key !in t.entries then t
    else
      var k, b := place[0].key, t.entries[place[0].key];
      match place[0].index
      case None => Table(t.entries[k := Insert(b, place[1..], key, node)])
      case Some(i) =>
        if b.Tables? && i < |b.items| then
          Table(t.entries[k := Tables(b.items[i := Insert(b.items[i], place[1..], key, node)], b.inlined)])
        else t
  }

  /** Everything in t is still in t', at the same place: leaves are equal, tables may have gained
      entries and arrays of tables may have gained elements at the end. */
  ghost predicate Extends(t: Node, t': Node)
    decreases t
  {
    match t
    case Leaf(_, _) => t' == t
    case Table(entries) =>
      t'.Table? && forall k <- entries :: k in t'.entries && Extends(entries[k], t'.entries[k])
    case Tables(items, inlined) =>
      && t'.Tables? && t'.inlined == inlined && |items| <= |t'.items|
      && forall i :: 0 <= i < |items| ==> Extends(items[i], t'.items[i])
  }

  lemma {:induction false} ExtendsItself(t: Node)
    ensures Extends(t, t)
  {
    match t
    case Leaf(_, _) =>
    case Table(entries) =>
      forall k <- entries ensures Extends(entries[k], entries[k]) { ExtendsItself(entries[k]); }
    case Tables(items, _) =>
      forall i | 0 <= i < |items| ensures Extends(items[i], items[i]) { ExtendsItself(items[i]); }
  }

  lemma {:induction false} ExtendsTransitive(a: Node, b: Node, c: Node)
    requires Extends(a, b) && Extends(b, c)
    ensures Extends(a, c)
    decreases a
  {
    match a
    case Leaf(_, _) =>
    case Table(entries) =>
      forall k <- entries
        ensures k in c.entries && Extends(entries[k], c.entries[k])
      {
        ExtendsTransitive(entries[k], b.entries[k], c.entries[k]);
      }
    case Tables(items, _) =>
      forall i | 0 <= i < |items|
        ensures Extends(items[i], c.items[i])
      {
        ExtendsTransitive(items[i], b.items[i], c.items[i]);
      }
  }

  /** Whatever stood at a place still stands there. */
  lemma {:induction false} FindExtends(t: Node, t': Node, place: Place)
    requires Extends(t, t') && Find(t, place).Some?
    ensures Find(t', place).Some? && Extends(Find(t, place).value, Find(t', place).value)
    decreases place
  {
    if place != [] {
      var b, b' := t.entries[place[0].key], t'.entries[place[0].key];
      match place[0].index
      case None => FindExtends(b, b', place[1..]);
      case Some(i) => FindExtends(b.items[i], b'.items[i], place[1..]);
    }
  }

  lemma {:induction false} InsertExtends(t: Node, place: Place, key: Key, node: Node)
    requires Find(t, place).Some? && Find(t, place).value.Table?
    requires key in Find(t, place).value.entries ==> Extends(Find(t, place).value.entries[key], node)
    ensures Extends(t, Insert(t, place, key, node))
    ensures Find(Insert(t, place, key, node), place) == Some(Table(Find(t, place).value.entries[key := node]))
    decreases place
  {
    ExtendsItself(t);
    if place != [] {
      var b := t.entries[place[0].key];
      ExtendsItself(b);
      match place[0].index
      case None => InsertExtends(b, place[1..], key, node);
      case Some(i) => InsertExtends(b.items[i], place[1..], key, node);
    }
  }

  /** Arrays of tables are never empty and hold tables. */
  ghost predicate WellFormed(t: Node) {
    match t
    case Leaf(_, _) => true
    case Table(entries) => forall k <- entries :: WellFormed(entries[k])
    case Tables(items, _) =>
      items != [] && forall i :: 0 <= i < |items| ==> items[i].Table? && WellFormed(items[i])
  }

  lemma {:induction false} FindWellFormed(t: Node, place: Place)
    requires WellFormed(t) && Find(t, place).Some?
    ensures WellFormed(Find(t, place).value)
    decreases place
  {
    if place != [] {
      var b := t.entries[place[0].key];
      match place[0].index
      case None => FindWellFormed(b, place[1..]);
      case Some(i) => FindWellFormed(b.items[i], place[1..]);
    }
  }

  lemma {:induction false} InsertWellFormed(t: Node, place: Place, key: Key, node: Node)
    requires WellFormed(t) && WellFormed(node)
    ensures WellFormed(Insert(t, place, key, node)) && (t.Table? ==> Insert(t, place, key, node).Table?)
    decreases place
  {
    if t.Table? && place != [] && place[0].key in t.entries {
      var b := t.entries[place[0].key];
      match place[0].index
      case None => InsertWellFormed(b, place[1..], key, node);
      case Some(i) =>
        if b.Tables? && i < |b.items| {
          InsertWellFormed(b.items[i], place[1..], key, node);
        }
    }
  }

  lemma {:induction false} FindConcat(t: Node, a: Place, b: Place)
    ensures Find(t, a + b) == if Find(t, a) == None then None else Find(Find(t, a).value, b)
    decreases a
  {
    if a == [] {
      assert a + b == b;
    } else if t.Table? && a[0].key in t.entries {
      assert (a + b)[1..] == a[1..] + b;
      var n := t.entries[a[0].key];
      match a[0].index
      case None => FindConcat(n, a[1..], b);
      case Some(i) =>
        if n.Tables? && i < |n.items| {
          FindConcat(n.items[i], a[1..], b);
        }
    }
  }

  // ---- Walking down a dotted name ----

  /** The tree so far, the table reached, and whether a table had to be made. */
  datatype Walk = Walk(root: Node, at: Place, inserted: bool)

  ghost predicate Stands(w: Walk) {
    WellFormed(w.root) && w.root.Table? && Find(w.root, w.at).Some? && Find(w.root, w.at).value.Table?
  }

  /** The entries of the table reached. */
  function EntriesAt(root: Node, at: Place): map<Key, Node> {
    match Find(root, at) case Some(Table(entries)) => entries case _ => map[]
  }

  function Into(w: Walk, part: Key, index: Option<nat>): Walk { w.(at := w.at + [Hop(part, index)]) }

  /** One part of a name. Headers refuse empty parts and go into the last element of an array of
      tables; keys of statements allow empty parts and refuse arrays. None is the exception. */
  function Descend(w: Walk, part: Key, header: bool): Option<Walk> {
    var entries := EntriesAt(w.root, w.at);
    if header && part == [] then None
    else if part in entries then
      match entries[part]
      case Table(_) => Some(Into(w, part, None))
      case Tables(items, _) => if header && items != [] then Some(Into(w, part, Some(|items| - 1))) else None
      case Leaf(_, _) => None
    else Some(Into(w.(root := Insert(w.root, w.at, part, EMPTY), inserted := true), part, None))
  }

  function DescendAll(w: Walk, parts: seq<Key>, header: bool): Option<Walk>
    decreases parts
  {
    if parts == [] then Some(w)
    else
      match Descend(w, parts[0], header)
      case None => None
      case Some(w') => DescendAll(w', parts[1..], header)
  }

  lemma DescendKeeps(w: Walk, part: Key, header: bool)
    requires Stands(w) && Descend(w, part, header).Some?
    ensures var w' := Descend(w, part, header).value; Stands(w') && Extends(w.root, w'.root)
  {
    var table := Find(w.root, w.at).value;
    var w' := Descend(w, part, header).value;
    FindWellFormed(w.root, w.at);
    ExtendsItself(w.root);
    if part !in table.entries {
      InsertExtends(w.root, w.at, part, EMPTY);
      InsertWellFormed(w.root, w.at, part, EMPTY);
    }
    var hop := w'.at[|w.at|];
    assert w'.at == w.at + [hop];
    FindConcat(w'.root, w.at, [hop]);
    assert [hop][1..] == [];
  }

  lemma {:induction false} DescendAllKeeps(w: Walk, parts: seq<Key>, header: bool)
    requires Stands(w) && DescendAll(w, parts, header).Some?
    ensures var w' := DescendAll(w, parts, header).value; Stands(w') && Extends(w.root, w'.root)
    decreases parts
  {
    if parts == [] {
      ExtendsItself(w.root);
    } else {
      DescendKeeps(w, parts[0], header);
      var w1 := Descend(w, parts[0], header).value;
      DescendAllKeeps(w1, parts[1..], header);
      ExtendsTransitive(w.root, w1.root, DescendAll(w1, parts[1..], header).value.root);
    }
  }

  // ---- Statements ----

  datatype Statement =
    | Header(parts: seq<Key>)
    | ArrayHeader(parts: seq<Key>)
    | KeyValue(parts: seq<Key>, value: Node)

  /** The root table, and the table the next statements go to. */
  datatype State = State(root: Node, cursor: Place)

  const START: State := State(EMPTY, [])

  predicate HoldsScalar(entries: map<Key, Node>) {
    exists k <- entries :: entries[k].Leaf? && entries[k].scalar
  }

  /** parse_single_table: a table that existed may be reopened only if it was made implicitly,
      which the code takes to be: it is not empty and holds no scalar. */
  function DoHeader(s: State, parts: seq<Key>): Option<State> {
    if parts == [] then None
    else
      match DescendAll(Walk(s.root, [], false), parts, true)
      case None => None
      case Some(w) =>
        var entries := EntriesAt(w.root, w.at);
        if !w.inserted && (entries == map[] || HoldsScalar(entries)) then None
        else Some(State(w.root, w.at))
  }

  /** parse_table_array: the last part names the array that gains an element. */
  function DoArrayHeader(s: State, parts: seq<Key>): Option<State> {
    if parts == [] || parts[|parts| - 1] == [] then None
    else
      match DescendAll(Walk(s.root, [], false), parts[..|parts| - 1], true)
      case None => None
      case Some(w) =>
        var entries, last := EntriesAt(w.root, w.at), parts[|parts| - 1];
        if last !in entries then
          Some(State(Insert(w.root, w.at, last, Tables([EMPTY], false)), w.at + [Hop(last, Some(0))]))
        else if !entries[last].Tables? || entries[last].inlined then None
        else
          var items := entries[last].items;
          Some(State(Insert(w.root, w.at, last, Tables(items + [EMPTY], false)),
                     w.at + [Hop(last, Some(|items|))]))
  }

  /** parse_key_value. */
  function DoKeyValue(s: State, parts: seq<Key>, value: Node): Option<State> {
    if parts == [] then None
    else
      match DescendAll(Walk(s.root, s.cursor, false), parts[..|parts| - 1], false)
      case None => None
      case Some(w) =>
        var last := parts[|parts| - 1];
        if last in EntriesAt(w.root, w.at) then None
        else Some(State(Insert(w.root, w.at, last, value), s.cursor))
  }

  function Do(s: State, st: Statement): Option<State> {
    match st
    case Header(parts) => DoHeader(s, parts)
    case ArrayHeader(parts) => DoArrayHeader(s, parts)
    case KeyValue(parts, value) => DoKeyValue(s, parts, value)
  }

  function Run(s: State, sts: seq<Statement>): Option<State>
    decreases sts
  {
    if sts == [] then Some(s)
    else
      match Do(s, sts[0])
      case None => None
      case Some(s') => Run(s', sts[1..])
  }

  ghost predicate Valid(s: State) { Stands(Walk(s.root, s.cursor, false)) }

  ghost predicate ValuesWellFormed(sts: seq<Statement>) {
    forall i :: 0 <= i < |sts| && sts[i].KeyValue? ==> WellFormed(sts[i].value)
  }

  /** Putting a new or longer entry under the table a walk has reached. */
  lemma PutKeeps(w: Walk, key: Key, node: Node)
    requires Stands(w) && WellFormed(node)
    requires key in EntriesAt(w.root, w.at) ==> Extends(EntriesAt(w.root, w.at)[key], node)
    ensures WellFormed(Insert(w.root, w.at, key, node)) && Insert(w.root, w.at, key, node).Table?
    ensures Extends(w.root, Insert(w.root, w.at, key, node))
    ensures Find(Insert(w.root, w.at, key, node), w.at + [Hop(key, None)]) == Some(node)
    ensures node.Tables? ==>
      var last := |node.items| - 1;
      Find(Insert(w.root, w.at, key, node), w.at + [Hop(key, Some(last))]) == Some(node.items[last])
  {
    var root' := Insert(w.root, w.at, key, node);
    InsertExtends(w.root, w.at, key, node);
    InsertWellFormed(w.root, w.at, key, node);
    var hop, hop' := Hop(key, None), Hop(key, if node.Tables? then Some(|node.items| - 1) else None);
    FindConcat(root', w.at, [hop]);
    FindConcat(root', w.at, [hop']);
    assert [hop][1..] == [] && [hop'][1..] == [];
  }

  lemma StartWalk(s: State)
    requires Valid(s)
    ensures Stands(Walk(s.root, [], false))
  {
  }

  lemma HeaderKeeps(s: State, parts: seq<Key>)
    requires Valid(s) && DoHeader(s, parts).Some?
    ensures Valid(DoHeader(s, parts).value) && Extends(s.root, DoHeader(s, parts).value.root)
  {
    StartWalk(s);
    DescendAllKeeps(Walk(s.root, [], false), parts, true);
  }

  /** The array an array header leaves: one element longer, or new. */
  function Longer(entries: map<Key, Node>, last: Key): Node {
    if last in entries && entries[last].Tables? then Tables(entries[last].items + [EMPTY], false)
    else Tables([EMPTY], false)
  }

  /** What an accepted array header does, at the end of its walk. */
  lemma ArrayHeaderForm(s: State, parts: seq<Key>) returns (w: Walk, last: Key, node: Node)
    requires Valid(s) && DoArrayHeader(s, parts).Some?
    ensures parts != [] && last == parts[|parts| - 1] != []
    ensures DescendAll(Walk(s.root, [], false), parts[..|parts| - 1], true) == Some(w)
    ensures Stands(w) && Extends(s.root, w.root) && node == Longer(EntriesAt(w.root, w.at), last) && WellFormed(node)
    ensures last in EntriesAt(w.root, w.at) ==>
      EntriesAt(w.root, w.at)[last].Tables? && Extends(EntriesAt(w.root, w.at)[last], node)
    ensures DoArrayHeader(s, parts).value
      == State(Insert(w.root, w.at, last, node), w.at + [Hop(last, Some(|node.items| - 1))])
  {
    hide Insert;
    var init := parts[..|parts| - 1];
    last := parts[|parts| - 1];
    StartWalk(s);
    DescendAllKeeps(Walk(s.root, [], false), init, true);
    w := DescendAll(Walk(s.root, [], false), init, true).value;
    var entries := EntriesAt(w.root, w.at);
    node := Longer(entries, last);
    FindWellFormed(w.root, w.at);
    if last in entries {
      ExtendsAppended(entries[last].items);
    }
  }

  lemma ArrayHeaderKeeps(s: State, parts: seq<Key>)
    requires Valid(s) && DoArrayHeader(s, parts).Some?
    ensures Valid(DoArrayHeader(s, parts).value) && Extends(s.root, DoArrayHeader(s, parts).value.root)
  {
    var w, last, node := ArrayHeaderForm(s, parts);
    hide Insert, Extends, Find, WellFormed, DescendAll, DoArrayHeader;
    PutKeeps(w, last, node);
    ExtendsTransitive(s.root, w.root, Insert(w.root, w.at, last, node));
  }

  lemma ExtendsAppended(items: seq<Node>)
    ensures Extends(Tables(items, false), Tables(items + [EMPTY], false))
  {
    forall i | 0 <= i < |items| ensures Extends(items[i], (items + [EMPTY])[i]) { ExtendsItself(items[i]); }
  }

  /** Where a key/value statement puts its value. */
  function Dotted(parts: seq<Key>): Place { seq(|parts|, i requires 0 <= i < |parts| => Hop(parts[i], None)) }

  lemma {:induction false} DescendAllPlace(w: Walk, parts: seq<Key>)
    requires DescendAll(w, parts, false).Some?
    ensures DescendAll(w, parts, false).value.at == w.at + Dotted(parts)
    decreases parts
  {
    if parts == [] {
      assert w.at + Dotted(parts) == w.at;
    } else {
      var w1 := Descend(w, parts[0], false).value;
      DescendAllPlace(w1, parts[1..]);
      assert w.at + Dotted(parts) == w1.at + Dotted(parts[1..]);
    }
  }

  /** An accepted key/value statement keeps everything, and puts its value at its place. */
  lemma KeyValueKeeps(s: State, parts: seq<Key>, value: Node)
    requires Valid(s) && WellFormed(value) && DoKeyValue(s, parts, value).Some?
    ensures var s' := DoKeyValue(s, parts, value).value;
      && Valid(s') && Extends(s.root, s'.root) && s'.cursor == s.cursor
      && Find(s'.root, s.cursor + Dotted(parts)) == Some(value)
  {
    hide Find, Extends, Insert, DescendAll, WellFormed, Dotted;
    var init, last := parts[..|parts| - 1], parts[|parts| - 1];
    var w0 := Walk(s.root, s.cursor, false);
    DescendAllKeeps(w0, init, false);
    DescendAllPlace(w0, init);
    DottedSnoc(s.cursor, parts);
    var w := DescendAll(w0, init, false).value;
    PutKeeps(w, last, value);
    var root' := Insert(w.root, w.at, last, value);
    ExtendsTransitive(s.root, w.root, root');
    CursorStays(s.root, root', s.cursor);
  }

  lemma DottedSnoc(at: Place, parts: seq<Key>)
    requires parts != []
    ensures at + Dotted(parts) == at + Dotted(parts[..|parts| - 1]) + [Hop(parts[|parts| - 1], None)]
  {
  }

  lemma CursorStays(root: Node, root': Node, cursor: Place)
    requires Extends(root, root') && Find(root, cursor).Some? && Find(root, cursor).value.Table?
    ensures Find(root', cursor).Some? && Find(root', cursor).value.Table?
  {
    FindExtends(root, root', cursor);
  }

  lemma DoKeeps(s: State, st: Statement)
    requires Valid(s) && (st.KeyValue? ==> WellFormed(st.value)) && Do(s, st).Some?
    ensures Valid(Do(s, st).value) && Extends(s.root, Do(s, st).value.root)
  {
    match st
    case Header(parts) => HeaderKeeps(s, parts);
    case ArrayHeader(parts) => ArrayHeaderKeeps(s, parts);
    case KeyValue(parts, value) => KeyValueKeeps(s, parts, value);
  }

  lemma {:induction false} RunKeeps(s: State, sts: seq<Statement>)
    requires Valid(s) && ValuesWellFormed(sts) && Run(s, sts).Some?
    ensures Valid(Run(s, sts).value) && Extends(s.root, Run(s, sts).value.root)
    decreases sts
  {
    if sts == [] {
      ExtendsItself(s.root);
    } else {
      var s1, rest := Do(s, sts[0]).value, sts[1..];
      assert ValuesWellFormed(rest) by { assert forall i :: 0 <= i < |rest| ==> rest[i] == sts[i + 1]; }
      DoKeeps(s, sts[0]);
      RunKeeps(s1, rest);
      ExtendsTransitive(s.root, s1.root, Run(s1, rest).value.root);
    }
  }

  lemma {:induction false} RunConcat(s: State, a: seq<Statement>, b: seq<Statement>)
    ensures Run(s, a + b) == if Run(s, a) == None then None else Run(Run(s, a).value, b)
    decreases a
  {
    if a == [] {
      assert a + b == b;
    } else {
      assert (a + b)[1..] == a[1..] + b;
      if Do(s, a[0]).Some? {
        RunConcat(Do(s, a[0]).value, a[1..], b);
      }
    }
  }

  // ---- Where the current table stands ----

  predicate AllNamed(parts: seq<Key>) { forall i :: 0 <= i < |parts| ==> parts[i] != [] }

  /** The place names tables and last elements of arrays only, by keys a header may use. */
  ghost predicate Current(t: Node, place: Place)
    decreases place
  {
    place == [] ||
    (place[0].key != [] && t.Table? && place[0].key in t.entries &&
     var b := t.entries[place[0].key];
     match place[0].index
     case None => b.Table? && Current(b, place[1..])
     case Some(i) => b.Tables? && i == |b.items| - 1 && Current(b.items[i], place[1..]))
  }

  /** An insertion at or below the place leaves it current. */
  lemma {:induction false} InsertKeepsCurrent(t: Node, place: Place, more: Place, key: Key, node: Node)
    requires Current(t, place)
    ensures Current(Insert(t, place + more, key, node), place)
    decreases place
  {
    if place != [] {
      assert (place + more)[1..] == place[1..] + more;
      var b := t.entries[place[0].key];
      match place[0].index
      case None => InsertKeepsCurrent(b, place[1..], more, key, node);
      case Some(i) => InsertKeepsCurrent(b.items[i], place[1..], more, key, node);
    }
  }

  lemma {:induction false} CurrentConcat(t: Node, a: Place, b: Place)
    ensures Current(t, a + b) <==> Current(t, a) && (b == [] || (Find(t, a).Some? && Current(Find(t, a).value, b)))
    decreases a
  {
    if a == [] {
      assert a + b == b;
    } else {
      assert (a + b)[1..] == a[1..] + b;
      if t.Table? && a[0].key in t.entries {
        var n := t.entries[a[0].key];
        match a[0].index
        case None => CurrentConcat(n, a[1..], b);
        case Some(i) =>
          if n.Tables? && i < |n.items| {
            CurrentConcat(n.items[i], a[1..], b);
          }
      }
    }
  }

  lemma OneHop(t: Node, hop: Hop)
    ensures Current(t, [hop]) <==>
      hop.key != [] && t.Table? && hop.key in t.entries &&
      (match hop.index case None => t.entries[hop.key].Table?
       case Some(i) => t.entries[hop.key].Tables? && i == |t.entries[hop.key].items| - 1)
  {
    assert [hop][1..] == [];
  }

  lemma HeaderStepIsCurrent(w: Walk, part: Key)
    requires Stands(w) && Current(w.root, w.at) && Descend(w, part, true).Some?
    ensures Current(Descend(w, part, true).value.root, Descend(w, part, true).value.at)
  {
    hide Insert, Current;
    var entries := EntriesAt(w.root, w.at);
    if part in entries {
      var hop := Descend(w, part, true).value.at[|w.at|];
      assert Descend(w, part, true).value.at == w.at + [hop];
      CurrentConcat(w.root, w.at, [hop]);
      OneHop(Find(w.root, w.at).value, hop);
    } else {
      PutIsCurrent(w, part, EMPTY, Hop(part, None));
    }
  }

  lemma {:induction false} HeaderWalkIsCurrent(w: Walk, parts: seq<Key>)
    requires Stands(w) && Current(w.root, w.at) && DescendAll(w, parts, true).Some?
    ensures Current(DescendAll(w, parts, true).value.root, DescendAll(w, parts, true).value.at)
    decreases parts
  {
    if parts != [] {
      HeaderStepIsCurrent(w, parts[0]);
      DescendKeeps(w, parts[0], true);
      HeaderWalkIsCurrent(Descend(w, parts[0], true).value, parts[1..]);
    }
  }

  lemma {:induction false} KeyWalkKeepsCurrent(w: Walk, cursor: Place, more: Place, parts: seq<Key>)
    requires Stands(w) && Current(w.root, cursor) && w.at == cursor + more && DescendAll(w, parts, false).Some?
    ensures Current(DescendAll(w, parts, false).value.root, cursor)
    decreases parts
  {
    if parts != [] {
      var w' := Descend(w, parts[0], false).value;
      InsertKeepsCurrent(w.root, cursor, more, parts[0], EMPTY);
      DescendKeeps(w, parts[0], false);
      assert w'.at == cursor + (more + [Hop(parts[0], None)]);
      KeyWalkKeepsCurrent(w', cursor, more + [Hop(parts[0], None)], parts[1..]);
    }
  }

  lemma ArrayHeaderIsCurrent(s: State, parts: seq<Key>)
    requires Valid(s) && DoArrayHeader(s, parts).Some?
    ensures Current(DoArrayHeader(s, parts).value.root, DoArrayHeader(s, parts).value.cursor)
  {
    var w, last, node := ArrayHeaderForm(s, parts);
    StartWalk(s);
    HeaderWalkIsCurrent(Walk(s.root, [], false), parts[..|parts| - 1]);
    hide Insert, Extends, WellFormed, DescendAll, DoArrayHeader, Current;
    PutIsCurrent(w, last, node, Hop(last, Some(|node.items| - 1)));
  }

  /** A place just put below a current one is current. */
  lemma PutIsCurrent(w: Walk, key: Key, node: Node, hop: Hop)
    requires Stands(w) && Current(w.root, w.at) && key != [] && hop.key == key
    requires key in EntriesAt(w.root, w.at) ==> Extends(EntriesAt(w.root, w.at)[key], node)
    requires match hop.index case None => node.Table? case Some(i) => node.Tables? && i == |node.items| - 1
    ensures Current(Insert(w.root, w.at, key, node), w.at + [hop])
  {
    var root := Insert(w.root, w.at, key, node);
    InsertExtends(w.root, w.at, key, node);
    assert w.at + [] == w.at;
    InsertKeepsCurrent(w.root, w.at, [], key, node);
    hide Insert, Current, Extends;
    CurrentConcat(root, w.at, [hop]);
    OneHop(Find(root, w.at).value, hop);
  }

  lemma DoKeepsCurrent(s: State, st: Statement)
    requires Valid(s) && Current(s.root, s.cursor) && Do(s, st).Some?
    ensures Current(Do(s, st).value.root, Do(s, st).value.cursor)
  {
    StartWalk(s);
    match st
    case Header(parts) => HeaderWalkIsCurrent(Walk(s.root, [], false), parts);
    case ArrayHeader(parts) => ArrayHeaderIsCurrent(s, parts);
    case KeyValue(parts, value) =>
      var init, w0 := parts[..|parts| - 1], Walk(s.root, s.cursor, false);
      assert s.cursor + [] == s.cursor;
      KeyWalkKeepsCurrent(w0, s.cursor, [], init);
      DescendAllPlace(w0, init);
      var w := DescendAll(w0, init, false).value;
      InsertKeepsCurrent(w.root, s.cursor, Dotted(init), parts[|parts| - 1], value);
  }

  lemma {:induction false} RunKeepsCurrent(s: State, sts: seq<Statement>)
    requires Valid(s) && Current(s.root, s.cursor) && ValuesWellFormed(sts) && Run(s, sts).Some?
    ensures Current(Run(s, sts).value.root, Run(s, sts).value.cursor)
    decreases sts
  {
    if sts != [] {
      var rest := sts[1..];
      assert ValuesWellFormed(rest) by { assert forall i :: 0 <= i < |rest| ==> rest[i] == sts[i + 1]; }
      DoKeeps(s, sts[0]);
      DoKeepsCurrent(s, sts[0]);
      RunKeepsCurrent(Do(s, sts[0]).value, rest);
    }
  }

  // ---- Where headers lead ----

  /** The keys on the way to a place, whatever elements of arrays it goes through. */
  function Keys(place: Place): seq<Key> { seq(|place|, i requires 0 <= i < |place| => place[i].key) }

  lemma KeysConcat(a: Place, b: Place)
    ensures Keys(a + b) == Keys(a) + Keys(b)
  {
  }

  lemma KeysDotted(parts: seq<Key>)
    ensures Keys(Dotted(parts)) == parts
  {
  }

  lemma {:induction false} WalkFollowsKeys(w: Walk, parts: seq<Key>, header: bool)
    requires DescendAll(w, parts, header).Some?
    ensures Keys(DescendAll(w, parts, header).value.at) == Keys(w.at) + parts
    decreases parts
  {
    if parts == [] {
      assert Keys(w.at) + parts == Keys(w.at);
    } else {
      var w' := Descend(w, parts[0], header).value;
      var hop := w'.at[|w.at|];
      assert w'.at == w.at + [hop] && Keys([hop]) == [parts[0]];
      KeysConcat(w.at, [hop]);
      hide Descend;
      WalkFollowsKeys(w', parts[1..], header);
      assert Keys(w.at) + [parts[0]] + parts[1..] == Keys(w.at) + parts;
    }
  }

  /** An accepted header leads to the table of its name: through the tables and the last elements of
      the arrays on its way. */
  lemma HeaderLeadsToItsName(s: State, parts: seq<Key>)
    requires Valid(s) && DoHeader(s, parts).Some?
    ensures var s' := DoHeader(s, parts).value;
      && Keys(s'.cursor) == parts && Current(s'.root, s'.cursor)
      && Find(s'.root, s'.cursor).Some? && Find(s'.root, s'.cursor).value.Table?
  {
    StartWalk(s);
    HeaderKeeps(s, parts);
    WalkFollowsKeys(Walk(s.root, [], false), parts, true);
    HeaderWalkIsCurrent(Walk(s.root, [], false), parts);
    assert Keys([]) + parts == parts;
    hide DescendAll, Current, Find;
  }

  /** The place is determined by its keys. */
  lemma {:induction false} CurrentIsUnique(t: Node, a: Place, b: Place)
    requires Current(t, a) && Current(t, b) && Keys(a) == Keys(b)
    ensures a == b
    decreases a
  {
    assert |a| == |Keys(a)| && |b| == |Keys(b)|;
    if a != [] {
      assert a[0].key == Keys(a)[0] == b[0].key;
      assert Keys(a[1..]) == Keys(a)[1..] && Keys(b[1..]) == Keys(b)[1..];
      var n := t.entries[a[0].key];
      CurrentIsUnique(if a[0].index == None then n else n.items[a[0].index.value], a[1..], b[1..]);
      assert a == [a[0]] + a[1..] && b == [b[0]] + b[1..];
    } else {
      assert a == b;
    }
  }

  /** An accepted array header leads to a new last element, an empty table, of the array of its
      name. */
  lemma ArrayHeaderLeadsToItsElement(s: State, parts: seq<Key>)
    requires Valid(s) && DoArrayHeader(s, parts).Some?
    ensures var s' := DoArrayHeader(s, parts).value;
      && Keys(s'.cursor) == parts && Current(s'.root, s'.cursor) && Find(s'.root, s'.cursor) == Some(EMPTY)
      && s'.cursor[|parts| - 1].index.Some? && Find(s.root, s'.cursor) == None
  {
    var w, last, node := ArrayHeaderForm(s, parts);
    var w0 := Walk(s.root, [], false);
    StartWalk(s);
    WalkFollowsKeys(w0, parts[..|parts| - 1], true);
    var hop := Hop(last, Some(|node.items| - 1));
    KeysConcat(w.at, [hop]);
    assert Keys([hop]) == [last] && Keys([]) + parts[..|parts| - 1] + [last] == parts;
    ArrayHeaderIsCurrent(s, parts);
    PutKeeps(w, last, node);
    hide Insert, DescendAll, Current, Keys;
    ElementIsNew(s.root, w, last, |node.items| - 1);
  }

  /** What is not there after the walk was not there before it. */
  lemma ElementIsNew(root: Node, w: Walk, last: Key, i: nat)
    requires Stands(w) && Extends(root, w.root)
    requires i == |Longer(EntriesAt(w.root, w.at), last).items| - 1
    ensures Find(root, w.at + [Hop(last, Some(i))]) == None
  {
    var place := w.at + [Hop(last, Some(i))];
    FindConcat(w.root, w.at, [Hop(last, Some(i))]);
    assert [Hop(last, Some(i))][1..] == [];
    assert Find(w.root, place) == None;
    if Find(root, place).Some? {
      FindExtends(root, w.root, place);
    }
  }

  // ---- What statements add ----

  lemma {:induction false} InsertAddsOnly(t: Node, at: Place, key: Key, node: Node, p: Place)
    requires Find(t, at).Some? && Find(t, at).value.Table?
    requires Find(Insert(t, at, key, node), p).Some? && Find(t, p) == None
    ensures |at| < |p| && p[..|at|] == at
    ensures Find(Table(map[key := node]), p[|at|..]) == Find(Insert(t, at, key, node), p)
    decreases at
  {
    if at == [] {
      assert p[0..] == p;
    } else {
      var b := t.entries[at[0].key];
      assert p != [] && p[0] == at[0];
      var below := if at[0].index == None then b else b.items[at[0].index.value];
      assert Find(Insert(t, at, key, node), p) == Find(Insert(below, at[1..], key, node), p[1..]);
      assert Find(t, p) == Find(below, p[1..]) && Find(t, at) == Find(below, at[1..]);
      hide Find, Insert;
      InsertAddsOnly(below, at[1..], key, node, p[1..]);
      assert at == [at[0]] + at[1..] && p == [p[0]] + p[1..];
      assert p[|at|..] == p[1..][|at[1..]|..];
    }
  }

  /** Under a new entry: the entry itself, or what its node holds. */
  lemma UnderEntry(key: Key, node: Node, p: Place)
    requires p != [] && Find(Table(map[key := node]), p).Some?
    ensures p[0].key == key
    ensures node == EMPTY ==> p == [Hop(key, None)]
    ensures node.Tables? && |p| > 1 ==> p[0].index.Some?
  {
    if node == EMPTY {
      assert p == [p[0]] + p[1..];
    }
  }

  lemma StepAddsOnly(w: Walk, part: Key, header: bool, p: Place)
    requires Stands(w) && Descend(w, part, header).Some?
    requires Find(Descend(w, part, header).value.root, p).Some? && Find(w.root, p) == None
    ensures Keys(p) == Keys(w.at) + [part] && Find(Descend(w, part, header).value.root, p) == Some(EMPTY)
  {
    InsertAddsOnly(w.root, w.at, part, EMPTY, p);
    UnderEntry(part, EMPTY, p[|w.at|..]);
    assert p == w.at + [Hop(part, None)];
    KeysConcat(w.at, [Hop(part, None)]);
  }

  /** A walk adds the tables of its name and nothing else. */
  lemma {:induction false} WalkAddsOnly(w: Walk, parts: seq<Key>, header: bool, p: Place)
    requires Stands(w) && DescendAll(w, parts, header).Some?
    requires Find(DescendAll(w, parts, header).value.root, p).Some? && Find(w.root, p) == None
    ensures Keys(p) <= Keys(w.at) + parts && Find(DescendAll(w, parts, header).value.root, p).value.Table?
    decreases parts
  {
    assert parts != [];
    var w1 := Descend(w, parts[0], header).value;
    DescendKeeps(w, parts[0], header);
    WalkFollowsKeys(w, [parts[0]], header);
    assert DescendAll(w, [parts[0]], header) == DescendAll(w1, [parts[0]][1..], header) == Some(w1);
    assert Keys(w.at) + [parts[0]] + parts[1..] == Keys(w.at) + parts;
    hide Descend, Insert;
    if Find(w1.root, p) == None {
      WalkAddsOnly(w1, parts[1..], header, p);
    } else {
      StepAddsOnly(w, parts[0], header, p);
      DescendAllKeeps(w1, parts[1..], header);
      FindExtends(w1.root, DescendAll(w1, parts[1..], header).value.root, p);
    }
  }

  /** The entry a key/value statement makes: where its table stands, and what is found there. */
  ghost predicate Wrote(cursor: Place, parts: seq<Key>, value: Node, p: Place, node: Node) {
    parts != [] &&
    var at, last := cursor + Dotted(parts[..|parts| - 1]), parts[|parts| - 1];
    |at| < |p| && p[..|at|] == at && Find(Table(map[last := value]), p[|at|..]) == Some(node)
  }

  lemma KeyValueAddsOnly(s: State, parts: seq<Key>, value: Node, p: Place)
    requires Valid(s) && WellFormed(value) && DoKeyValue(s, parts, value).Some?
    requires Find(DoKeyValue(s, parts, value).value.root, p).Some? && Find(s.root, p) == None
    ensures var node := Find(DoKeyValue(s, parts, value).value.root, p).value;
      (Keys(p) < Keys(s.cursor) + parts && node.Table?) || Wrote(s.cursor, parts, value, p, node)
  {
    var init, last := parts[..|parts| - 1], parts[|parts| - 1];
    var w0 := Walk(s.root, s.cursor, false);
    var w := DescendAll(w0, init, false).value;
    assert DoKeyValue(s, parts, value).value.root == Insert(w.root, w.at, last, value);
    assert last !in EntriesAt(w.root, w.at);
    hide DoKeyValue, Extends, WellFormed, Insert, Find, EntriesAt, Keys, Dotted, DescendAll;
    DescendAllKeeps(w0, init, false);
    DescendAllPlace(w0, init);
    if Find(w.root, p) == None {
      InsertAddsOnly(w.root, w.at, last, value, p);
    } else {
      WalkAddsOnly(w0, init, false, p);
      Shorter(Keys(p), Keys(s.cursor), parts);
      StaysTable(s, parts, value, w, p);
    }
  }

  lemma Shorter(name: seq<Key>, start: seq<Key>, parts: seq<Key>)
    requires parts != [] && name <= start + parts[..|parts| - 1]
    ensures name < start + parts
  {
    assert start + parts == start + parts[..|parts| - 1] + [parts[|parts| - 1]];
  }

  /** A table made on the way is one at the end. */
  lemma StaysTable(s: State, parts: seq<Key>, value: Node, w: Walk, p: Place)
    requires parts != [] && Stands(w) && WellFormed(value) && parts[|parts| - 1] !in EntriesAt(w.root, w.at)
    requires DoKeyValue(s, parts, value).Some?
    requires DoKeyValue(s, parts, value).value.root == Insert(w.root, w.at, parts[|parts| - 1], value)
    requires Find(w.root, p).Some? && Find(w.root, p).value.Table?
    ensures Find(DoKeyValue(s, parts, value).value.root, p).Some?
    ensures Find(DoKeyValue(s, parts, value).value.root, p).value.Table?
  {
    PutKeeps(w, parts[|parts| - 1], value);
    FindExtends(w.root, Insert(w.root, w.at, parts[|parts| - 1], value), p);
  }

  lemma ArrayHeaderAddsOnly(s: State, parts: seq<Key>, p: Place)
    requires Valid(s) && DoArrayHeader(s, parts).Some?
    requires Find(DoArrayHeader(s, parts).value.root, p).Some? && Find(s.root, p) == None
    ensures Keys(p) <= parts && !Find(DoArrayHeader(s, parts).value.root, p).value.Leaf?
  {
    var w, last, node := ArrayHeaderForm(s, parts);
    var w0, init := Walk(s.root, [], false), parts[..|parts| - 1];
    StartWalk(s);
    WalkFollowsKeys(w0, init, true);
    assert Keys([]) + init == init && init + [last] == parts;
    hide DescendAll, DoArrayHeader, Extends, WellFormed;
    if Find(w.root, p) == None {
      InsertAddsOnly(w.root, w.at, last, node, p);
      ElementOnly(w, last, node, p);
    } else {
      WalkAddsOnly(w0, init, true, p);
      PutKeeps(w, last, node);
      hide Insert;
      FindExtends(w.root, Insert(w.root, w.at, last, node), p);
    }
  }

  lemma ElementOnly(w: Walk, last: Key, node: Node, p: Place)
    requires Stands(w) && node == Longer(EntriesAt(w.root, w.at), last) && |w.at| < |p| && p[..|w.at|] == w.at
    requires Find(w.root, p) == None && Find(Table(map[last := node]), p[|w.at|..]).Some?
    ensures Keys(p) == Keys(w.at) + [last] && !Find(Table(map[last := node]), p[|w.at|..]).value.Leaf?
  {
    var rest := p[|w.at|..];
    assert p == w.at + rest;
    FindConcat(w.root, w.at, rest);
    KeysConcat(w.at, rest);
    hide Keys, Stands;
    NewElement(EntriesAt(w.root, w.at), last, rest);
    KeyOfOne(rest);
  }

  lemma KeyOfOne(place: Place)
    requires |place| == 1
    ensures Keys(place) == [place[0].key]
  {
  }

  lemma NewElement(entries: map<Key, Node>, last: Key, rest: Place)
    requires rest != [] && Find(Table(entries), rest) == None
    requires Find(Table(map[last := Longer(entries, last)]), rest).Some?
    ensures rest == [Hop(last, rest[0].index)]
    ensures !Find(Table(map[last := Longer(entries, last)]), rest).value.Leaf?
  {
    assert rest == [rest[0]] + rest[1..];
  }

  /** Whatever an accepted statement adds is named by it: headers add tables and array elements on
      the way of their name, a key/value statement tables on the way of its own and, at its end, what
      its value holds. */
  lemma NothingElseIsAdded(s: State, st: Statement, p: Place)
    requires Valid(s) && (st.KeyValue? ==> WellFormed(st.value)) && Do(s, st).Some?
    requires Find(Do(s, st).value.root, p).Some? && Find(s.root, p) == None
    ensures var node := Find(Do(s, st).value.root, p).value;
      match st
      case KeyValue(parts, value) =>
        (Keys(p) < Keys(s.cursor) + parts && node.Table?) || Wrote(s.cursor, parts, value, p, node)
      case _ => Keys(p) <= st.parts && !node.Leaf?
  {
    match st {
      case Header(parts) =>
        StartWalk(s);
        WalkAddsOnly(Walk(s.root, [], false), parts, true, p);
        assert Keys([]) + parts == parts;
      case ArrayHeader(parts) => ArrayHeaderAddsOnly(s, parts, p);
      case KeyValue(parts, value) => KeyValueAddsOnly(s, parts, value, p);
    }
  }

  ghost predicate WrittenBy(sts: seq<Statement>, i: nat, p: Place, node: Node)
    requires i < |sts|
  {
    && sts[i].KeyValue? && Run(START, sts[..i]).Some?
    && Wrote(Run(START, sts[..i]).value.cursor, sts[i].parts, sts[i].value, p, node)
  }

  /** Every scalar and plain array in the tree of an accepted document was written there by one of
      its key/value statements. */
  lemma {:induction false} LeavesAreWritten(sts: seq<Statement>, p: Place)
    requires ValuesWellFormed(sts) && Run(START, sts).Some?
    requires Find(Run(START, sts).value.root, p).Some? && Find(Run(START, sts).value.root, p).value.Leaf?
    ensures exists i: nat :: i < |sts| && WrittenBy(sts, i, p, Find(Run(START, sts).value.root, p).value)
    decreases |sts|
  {
    var leaf := Find(Run(START, sts).value.root, p).value;
    assert sts != [] by {
      assert p == [] || Find(EMPTY, p) == None;
    }
    var n := |sts| - 1;
    var init, last := sts[..n], sts[n];
    assert sts == init + [last] && [last][1..] == [];
    RunConcat(START, init, [last]);
    assert ValuesWellFormed(init);
    RunKeeps(START, init);
    var s := Run(START, init).value;
    assert Do(s, last) == Run(START, sts);
    hide Run, Extends, Wrote, Do;
    DoKeeps(s, last);
    if Find(s.root, p) == None {
      NothingElseIsAdded(s, last, p);
      assert WrittenBy(sts, n, p, leaf);
    } else {
      LeafWasThere(s.root, Do(s, last).value.root, p);
      LeavesAreWritten(init, p);
      var i: nat :| i < |init| && WrittenBy(init, i, p, leaf);
      assert sts[..i] == init[..i] && sts[i] == init[i];
      assert WrittenBy(sts, i, p, leaf);
    }
  }

  lemma LeafWasThere(root: Node, root': Node, p: Place)
    requires Extends(root, root') && Find(root, p).Some? && Find(root', p).Some? && Find(root', p).value.Leaf?
    ensures Find(root, p) == Find(root', p)
  {
    FindExtends(root, root', p);
  }

  /** The name of the table that statements after these go to. */
  function LastHeader(sts: seq<Statement>): seq<Key> {
    if sts == [] then []
    else
      match sts[|sts| - 1]
      case KeyValue(_, _) => LastHeader(sts[..|sts| - 1])
      case Header(parts) => parts
      case ArrayHeader(parts) => parts
  }

  /** In every accepted run the current table is the one named by the last header: reached through
      tables and the last elements of arrays. */
  lemma {:induction false} CursorFollowsHeaders(sts: seq<Statement>)
    requires ValuesWellFormed(sts) && Run(START, sts).Some?
    ensures var s := Run(START, sts).value; Keys(s.cursor) == LastHeader(sts) && Current(s.root, s.cursor)
    decreases |sts|
  {
    if sts != [] {
      var init, last := sts[..|sts| - 1], sts[|sts| - 1];
      assert sts == init + [last] && [last][1..] == [];
      RunConcat(START, init, [last]);
      assert ValuesWellFormed(init);
      CursorFollowsHeaders(init);
      RunKeeps(START, init);
      var s := Run(START, init).value;
      assert Run(START, sts) == Do(s, last);
      hide Run, Current, Extends, DescendAll, Insert;
      DoKeepsCurrent(s, last);
      match last {
        case Header(parts) => HeaderLeadsToItsName(s, parts);
        case ArrayHeader(parts) => ArrayHeaderLeadsToItsElement(s, parts);
        case KeyValue(_, _) =>
      }
    }
  }

  // ---- What no statement can reach ----

  /** The way to `at` leads into an element of the array at `place`. */
  predicate Through(at: Place, place: Place)
    decreases place
  {
    at != [] && place != [] && at[0].key == place[0].key
    && if |place| == 1 then at[0].index.Some? else at[0] == place[0] && Through(at[1..], place[1..])
  }

  lemma {:induction false} ThroughMeans(at: Place, place: Place)
    requires Through(at, place)
    ensures 1 <= |place| <= |at| && at[|place| - 1].index.Some?
    ensures forall i :: 0 <= i < |place| ==> at[i].key == place[i].key
    decreases place
  {
    if |place| > 1 {
      ThroughMeans(at[1..], place[1..]);
      assert forall i :: 1 <= i < |place| ==> at[i] == at[1..][i - 1] && place[i] == place[1..][i - 1];
    }
  }

  /** The place of a value, with an empty key on its way. */
  ghost predicate Unnamed(place: Place) {
    place != [] && place[|place| - 1].index == None && exists i :: 0 <= i < |place| && place[i].key == []
  }

  /** No array is entered below an empty key. */
  ghost predicate Clear(at: Place) {
    forall i, j :: 0 <= i <= j < |at| && at[j].index.Some? ==> at[i].key != []
  }

  lemma ClearMisses(at: Place, place: Place)
    requires Clear(at) && Unnamed(place)
    ensures !Through(at, place)
  {
    if Through(at, place) {
      ThroughMeans(at, place);
    }
  }

  /** A new entry, or a longer array, at a table that the way to an array does not lead into. */
  lemma {:induction false} InsertMisses(t: Node, at: Place, key: Key, node: Node, place: Place)
    requires Find(t, at).Some? && Find(t, at).value.Table?
    requires place != [] && place[|place| - 1].index == None && !Through(at, place)
    requires Find(t, place).Some? && Find(t, place).value.Tables?
    requires var entries := Find(t, at).value.entries;
      key in entries ==>
        entries[key].Tables? && node.Tables? && entries[key].items <= node.items && place != at + [Hop(key, None)]
    ensures Find(Insert(t, at, key, node), place) == Find(t, place)
    decreases at
  {
    if at == [] {
      assert at + [Hop(key, None)] == [Hop(key, None)];
      assert |place| == 1 ==> place == [place[0]];
    } else if at[0].key == place[0].key {
      var b := t.entries[at[0].key];
      assert at + [Hop(key, None)] == [at[0]] + (at[1..] + [Hop(key, None)]);
      assert place == [place[0]] + place[1..];
      match at[0].index
      case None =>
        if |place| > 1 && place[0].index == None {
          InsertMisses(b, at[1..], key, node, place[1..]);
        }
      case Some(i) =>
        if |place| > 1 && place[0].index == Some(i) {
          InsertMisses(b.items[i], at[1..], key, node, place[1..]);
        }
    }
  }

  ghost predicate Holds(root: Node, place: Place, value: Node) {
    Unnamed(place) && value.Tables? && Find(root, place) == Some(value)
  }

  /** A walk changes no array behind an empty key. */
  lemma {:induction false} WalkMisses(w: Walk, parts: seq<Key>, header: bool, place: Place, value: Node)
    requires Stands(w) && Holds(w.root, place, value) && DescendAll(w, parts, header).Some?
    requires Clear(w.at) && (header ==> Current(w.root, w.at))
    ensures var w' := DescendAll(w, parts, header).value;
      Holds(w'.root, place, value) && Clear(w'.at) && (header ==> Current(w'.root, w'.at))
    decreases parts
  {
    if parts != [] {
      var w' := Descend(w, parts[0], header).value;
      if parts[0] !in EntriesAt(w.root, w.at) {
        ClearMisses(w.at, place);
        InsertMisses(w.root, w.at, parts[0], EMPTY, place);
      }
      DescendKeeps(w, parts[0], header);
      if header {
        HeaderStepIsCurrent(w, parts[0]);
        CurrentIsClear(w'.root, w'.at);
      }
      WalkMisses(w', parts[1..], header, place, value);
    }
  }

  lemma {:induction false} CurrentIsNamed(t: Node, place: Place)
    requires Current(t, place)
    ensures forall i :: 0 <= i < |place| ==> place[i].key != []
    decreases place
  {
    if place != [] {
      var b := t.entries[place[0].key];
      CurrentIsNamed(if place[0].index == None then b else b.items[place[0].index.value], place[1..]);
      assert forall i :: 1 <= i < |place| ==> place[i] == place[1..][i - 1];
    }
  }

  lemma CurrentIsClear(t: Node, place: Place)
    requires Current(t, place)
    ensures Clear(place)
  {
    CurrentIsNamed(t, place);
  }

  lemma NamedIsElsewhere(at: Place, key: Key, place: Place)
    requires key != [] && Unnamed(place) && forall i :: 0 <= i < |at| ==> at[i].key != []
    ensures place != at + [Hop(key, None)]
  {
  }

  lemma ArrayHeaderMisses(s: State, parts: seq<Key>, place: Place, value: Node)
    requires Valid(s) && Holds(s.root, place, value) && DoArrayHeader(s, parts).Some?
    ensures Holds(DoArrayHeader(s, parts).value.root, place, value)
  {
    var w, last, node := ArrayHeaderForm(s, parts);
    StartWalk(s);
    WalkMisses(Walk(s.root, [], false), parts[..|parts| - 1], true, place, value);
    CurrentIsNamed(w.root, w.at);
    hide Insert, Extends, WellFormed, DescendAll, DoArrayHeader, Current, Clear, Through;
    ClearMisses(w.at, place);
    NamedIsElsewhere(w.at, last, place);
    InsertMisses(w.root, w.at, last, node, place);
  }

  lemma KeyValueMisses(s: State, parts: seq<Key>, more: Node, place: Place, value: Node)
    requires Valid(s) && Current(s.root, s.cursor) && Holds(s.root, place, value) && DoKeyValue(s, parts, more).Some?
    ensures Holds(DoKeyValue(s, parts, more).value.root, place, value)
  {
    var init, w0 := parts[..|parts| - 1], Walk(s.root, s.cursor, false);
    CurrentIsClear(s.root, s.cursor);
    DescendAllKeeps(w0, init, false);
    WalkMisses(w0, init, false, place, value);
    var w := DescendAll(w0, init, false).value;
    ClearMisses(w.at, place);
    InsertMisses(w.root, w.at, parts[|parts| - 1], more, place);
  }

  lemma DoMisses(s: State, st: Statement, place: Place, value: Node)
    requires Valid(s) && Current(s.root, s.cursor) && Holds(s.root, place, value) && Do(s, st).Some?
    ensures Holds(Do(s, st).value.root, place, value)
  {
    match st
    case Header(parts) =>
      StartWalk(s);
      WalkMisses(Walk(s.root, [], false), parts, true, place, value);
    case ArrayHeader(parts) => ArrayHeaderMisses(s, parts, place, value);
    case KeyValue(parts, more) => KeyValueMisses(s, parts, more, place, value);
  }

  /** An array of tables behind an empty key stays exactly as it is. */
  lemma {:induction false} RunMisses(s: State, sts: seq<Statement>, place: Place, value: Node)
    requires Valid(s) && Current(s.root, s.cursor) && ValuesWellFormed(sts) && Run(s, sts).Some?
    requires Holds(s.root, place, value)
    ensures Holds(Run(s, sts).value.root, place, value)
    decreases sts
  {
    if sts != [] {
      var rest := sts[1..];
      assert ValuesWellFormed(rest) by { assert forall i :: 0 <= i < |rest| ==> rest[i] == sts[i + 1]; }
      DoKeeps(s, sts[0]);
      DoKeepsCurrent(s, sts[0]);
      DoMisses(s, sts[0], place, value);
      RunMisses(Do(s, sts[0]).value, rest, place, value);
    }
  }

  /** A value that statements can still change: a table, or an array of tables without an empty key
      on its way. */
  ghost predicate Changeable(parts: seq<Key>, value: Node) {
    value.Table? || (value.Tables? && AllNamed(parts))
  }

  lemma UnnamedParts(cursor: Place, parts: seq<Key>)
    requires parts != [] && !AllNamed(parts)
    ensures Unnamed(cursor + Dotted(parts))
  {
    var i :| 0 <= i < |parts| && parts[i] == [];
    assert (cursor + Dotted(parts))[|cursor| + i].key == [];
  }

  /** The state before a key/value statement of an accepted document, and the state after it. */
  lemma StatementStates(before: seq<Statement>, parts: seq<Key>, value: Node) returns (s: State, s1: State)
    requires ValuesWellFormed(before) && WellFormed(value)
    requires Run(START, before + [KeyValue(parts, value)]).Some?
    ensures Run(START, before) == Some(s) && Run(START, before + [KeyValue(parts, value)]) == Some(s1)
    ensures Valid(s) && Current(s.root, s.cursor) && DoKeyValue(s, parts, value) == Some(s1)
    ensures Valid(s1) && Current(s1.root, s1.cursor) && s1.cursor == s.cursor
    ensures Find(s1.root, s.cursor + Dotted(parts)) == Some(value)
  {
    var st := KeyValue(parts, value);
    RunConcat(START, before, [st]);
    assert [st][1..] == [];
    s, s1 := Run(START, before).value, Run(START, before + [st]).value;
    RunKeeps(START, before);
    RunKeepsCurrent(START, before);
    KeyValueKeeps(s, parts, value);
    DoKeepsCurrent(s, st);
  }

  /** In an accepted document, the value of every key/value statement is still in the final tree at
      the place it was written, whatever follows: a scalar or plain array unchanged, an array of
      tables behind an empty key too; another table or array of tables with everything it had. */
  lemma StatementsStay(before: seq<Statement>, parts: seq<Key>, value: Node, after: seq<Statement>)
    requires ValuesWellFormed(before) && WellFormed(value) && ValuesWellFormed(after)
    requires Run(START, before + [KeyValue(parts, value)] + after).Some?
    ensures Run(START, before).Some?
    ensures var place := Run(START, before).value.cursor + Dotted(parts);
      var found := Find(Run(START, before + [KeyValue(parts, value)] + after).value.root, place);
      found.Some? && Extends(value, found.value) && (!Changeable(parts, value) ==> found.value == value)
  {
    RunConcat(START, before + [KeyValue(parts, value)], after);
    var s, s1 := StatementStates(before, parts, value);
    RunKeeps(s1, after);
    FindExtends(s1.root, Run(s1, after).value.root, s.cursor + Dotted(parts));
    if value.Tables? && !AllNamed(parts) {
      UnnamedParts(s.cursor, parts);
      RunMisses(s1, after, s.cursor + Dotted(parts), value);
    }
  }

  /** The place of a key/value statement has the name of the last header before it, followed by the
      statement's own name. */
  lemma StatementsStandUnderTheirHeader(before: seq<Statement>, parts: seq<Key>, value: Node, after: seq<Statement>)
    requires ValuesWellFormed(before) && WellFormed(value) && ValuesWellFormed(after)
    requires Run(START, before + [KeyValue(parts, value)] + after).Some?
    ensures exists place ::
      && Keys(place) == LastHeader(before) + parts
      && Find(Run(START, before + [KeyValue(parts, value)] + after).value.root, place).Some?
      && Extends(value, Find(Run(START, before + [KeyValue(parts, value)] + after).value.root, place).value)
  {
    StatementsStay(before, parts, value, after);
    hide Run, Find, Extends, LastHeader;
    CursorFollowsHeaders(before);
    var place := Run(START, before).value.cursor + Dotted(parts);
    KeysConcat(Run(START, before).value.cursor, Dotted(parts));
    KeysDotted(parts);
  }

  // ---- Which key/value statements are accepted ----

  /** Under table t the name leads through tables, or to nothing, and its end is free. */
  predicate Free(t: Node, parts: seq<Key>)
    requires parts != [] && t.Table?
    decreases parts
  {
    if parts[0] !in t.entries then true
    else |parts| > 1 && t.entries[parts[0]].Table? && Free(t.entries[parts[0]], parts[1..])
  }

  function EndIsFree(w: Walk, parts: seq<Key>): bool
    requires parts != []
  {
    match DescendAll(w, parts[..|parts| - 1], false)
    case None => false
    case Some(w') => parts[|parts| - 1] !in EntriesAt(w'.root, w'.at)
  }

  lemma {:induction false} EndIsFreeExactly(w: Walk, parts: seq<Key>)
    requires Stands(w) && parts != []
    ensures EndIsFree(w, parts) <==> Free(Find(w.root, w.at).value, parts)
    decreases parts
  {
    if |parts| > 1 {
      var t := Find(w.root, w.at).value;
      assert parts[..|parts| - 1][1..] == parts[1..][..|parts| - 2];
      if Descend(w, parts[0], false).Some? {
        var w1 := Descend(w, parts[0], false).value;
        DescendKeeps(w, parts[0], false);
        DescendReaches(w, parts[0], false);
        EndIsFreeExactly(w1, parts[1..]);
      }
    }
  }

  /** One step further down: the entry, the last table of an array, or a new table. */
  function Below(t: Node, part: Key): Node
    requires t.Table?
  {
    if part !in t.entries then EMPTY
    else
      match t.entries[part]
      case Tables(items, _) => if items == [] then EMPTY else items[|items| - 1]
      case _ => t.entries[part]
  }

  lemma DescendReaches(w: Walk, part: Key, header: bool)
    requires Stands(w) && Descend(w, part, header).Some?
    ensures var w', t := Descend(w, part, header).value, Find(w.root, w.at).value;
      Find(w'.root, w'.at) == Some(Below(t, part)) && w'.inserted == (w.inserted || part !in t.entries)
  {
    var w' := Descend(w, part, header).value;
    if part !in Find(w.root, w.at).value.entries {
      InsertExtends(w.root, w.at, part, EMPTY);
    }
    var hop := w'.at[|w.at|];
    assert w'.at == w.at + [hop];
    FindConcat(w'.root, w.at, [hop]);
    assert [hop][1..] == [];
  }

  /** A key/value statement is accepted exactly when its name is free under the current table. */
  lemma AcceptedExactly(s: State, parts: seq<Key>, value: Node)
    requires Valid(s) && parts != []
    ensures DoKeyValue(s, parts, value).Some? <==> Free(Find(s.root, s.cursor).value, parts)
  {
    EndIsFreeExactly(Walk(s.root, s.cursor, false), parts);
  }

  lemma {:induction false} TakenIsNotFree(t: Node, parts: seq<Key>)
    requires parts != [] && t.Table? && Find(t, Dotted(parts)).Some?
    ensures !Free(t, parts)
    decreases parts
  {
    assert Dotted(parts)[1..] == Dotted(parts[1..]);
    if |parts| > 1 && t.entries[parts[0]].Table? {
      TakenIsNotFree(t.entries[parts[0]], parts[1..]);
    }
  }

  /** Once a key/value statement was accepted, any later statement for the same place is rejected,
      whatever headers and statements stand between them. */
  lemma SecondDefinitionRejected(before: seq<Statement>, parts: seq<Key>, value: Node, between: seq<Statement>,
                                 again: seq<Key>, value': Node)
    requires ValuesWellFormed(before) && WellFormed(value) && ValuesWellFormed(between)
    requires Run(START, before + [KeyValue(parts, value)] + between).Some? && Run(START, before).Some?
    requires Run(START, before).value.cursor + Dotted(parts)
      == Run(START, before + [KeyValue(parts, value)] + between).value.cursor + Dotted(again)
    ensures DoKeyValue(Run(START, before + [KeyValue(parts, value)] + between).value, again, value') == None
  {
    if again != [] {
      StatementsStay(before, parts, value, between);
      var all := before + [KeyValue(parts, value)] + between;
      assert ValuesWellFormed(all);
      RunKeeps(START, all);
      var s := Run(START, all).value;
      FindConcat(s.root, s.cursor, Dotted(again));
      TakenIsNotFree(Find(s.root, s.cursor).value, again);
      AcceptedExactly(s, again, value');
    }
  }

  /** A table written as a value is not closed: a dotted key for a new entry of it is accepted and
      changes it. */
  lemma InlineTablesCanGrow(s: State, parts: seq<Key>, value: Node, extra: Key, more: Node)
    requires Valid(s) && value.Table? && WellFormed(value) && WellFormed(more)
    requires DoKeyValue(s, parts, value).Some? && extra !in value.entries
    ensures var s1 := DoKeyValue(s, parts, value).value;
      && DoKeyValue(s1, parts + [extra], more).Some?
      && Find(DoKeyValue(s1, parts + [extra], more).value.root, s.cursor + Dotted(parts)) != Some(value)
  {
    KeyValueKeeps(s, parts, value);
    var s1, name, place := DoKeyValue(s, parts, value).value, parts + [extra], s.cursor + Dotted(parts);
    assert parts != [];
    DottedAppend(s.cursor, parts, extra);
    hide DoKeyValue, WellFormed, Find, Extends, Dotted;
    FindConcat(s1.root, s1.cursor, Dotted(parts));
    FreeBelow(Find(s1.root, s1.cursor).value, parts, value, extra);
    AcceptedExactly(s1, name, more);
    KeyValueKeeps(s1, name, more);
    FindConcat(DoKeyValue(s1, name, more).value.root, place, [Hop(extra, None)]);
    FindOne(value, Hop(extra, None));
  }

  lemma DottedAppend(cursor: Place, parts: seq<Key>, extra: Key)
    ensures cursor + Dotted(parts + [extra]) == cursor + Dotted(parts) + [Hop(extra, None)]
  {
  }

  lemma FindOne(t: Node, hop: Hop)
    requires t.Table? && hop.key !in t.entries
    ensures Find(t, [hop]) == None
  {
  }

  /** A header with the keys of a current place leads back to it. */
  lemma {:induction false} WalkBack(root: Node, at: Place, place: Place, inserted: bool)
    requires Current(root, at + place)
    ensures DescendAll(Walk(root, at, inserted), Keys(place), true) == Some(Walk(root, at + place, inserted))
    decreases place
  {
    if place == [] {
      assert at + place == at;
    } else {
      var hop := place[0];
      assert at + place == at + [hop] + place[1..] && Keys(place)[1..] == Keys(place[1..]);
      CurrentConcat(root, at, place);
      assert Descend(Walk(root, at, inserted), hop.key, true) == Some(Walk(root, at + [hop], inserted));
      WalkBack(root, at + [hop], place[1..], inserted);
    }
  }

  /** Where the last table of an array written as a value stands. */
  function LastOf(cursor: Place, parts: seq<Key>, items: seq<Node>): Place
    requires parts != [] && items != []
  {
    cursor + Dotted(parts[..|parts| - 1]) + [Hop(parts[|parts| - 1], Some(|items| - 1))]
  }

  lemma {:induction false} LastIsCurrent(t: Node, parts: seq<Key>, items: seq<Node>, inlined: bool)
    requires parts != [] && AllNamed(parts) && items != []
    requires Find(t, Dotted(parts)) == Some(Tables(items, inlined))
    ensures Current(t, LastOf([], parts, items))
    ensures Find(t, LastOf([], parts, items)) == Some(items[|items| - 1])
    decreases parts
  {
    var place := LastOf([], parts, items);
    assert Dotted(parts)[1..] == Dotted(parts[1..]);
    if |parts| > 1 {
      assert parts[1..][..|parts| - 2] == parts[..|parts| - 1][1..];
      assert place[1..] == LastOf([], parts[1..], items);
      LastIsCurrent(t.entries[parts[0]], parts[1..], items, inlined);
    } else {
      assert place[1..] == [];
    }
  }

  /** An array of tables whose last table has changed is not the array it was. */
  lemma LastTells(t: Node, cursor: Place, parts: seq<Key>, items: seq<Node>, inlined: bool)
    requires parts != [] && items != []
    ensures Find(t, cursor + Dotted(parts)) == Some(Tables(items, inlined))
      ==> Find(t, LastOf(cursor, parts, items)) == Some(items[|items| - 1])
  {
    var q, hop := cursor + Dotted(parts[..|parts| - 1]), Hop(parts[|parts| - 1], None);
    var hop' := Hop(hop.key, Some(|items| - 1));
    DottedSnoc(cursor, parts);
    FindConcat(t, q, [hop]);
    FindConcat(t, q, [hop']);
    assert [hop][1..] == [] && [hop'][1..] == [];
  }

  /** A header for a new table below a current place is accepted. */
  lemma HeaderAtCurrent(s: State, place: Place, extra: Key)
    requires Valid(s) && Current(s.root, place) && extra != []
    requires Find(s.root, place).Some? && Find(s.root, place).value.Table?
    requires extra !in Find(s.root, place).value.entries
    ensures DoHeader(s, Keys(place) + [extra]).Some?
    ensures DoHeader(s, Keys(place) + [extra]).value.root == Insert(s.root, place, extra, EMPTY)
  {
    var w0 := Walk(s.root, [], false);
    assert [] + place == place;
    WalkBack(s.root, [], place, false);
    DescendAllConcat(w0, Keys(place), [extra]);
    var w := Walk(s.root, place, false);
    assert [extra][1..] == [] && DescendAll(Descend(w, extra, true).value, [], true) == Descend(w, extra, true);
    assert DescendAll(w, [extra], true) == Descend(w, extra, true);
  }

  lemma {:induction false} DescendAllConcat(w: Walk, a: seq<Key>, b: seq<Key>)
    ensures DescendAll(w, a + b, true) ==
      if DescendAll(w, a, true) == None then None else DescendAll(DescendAll(w, a, true).value, b, true)
    decreases a
  {
    if a == [] {
      assert a + b == b;
    } else {
      assert (a + b)[1..] == a[1..] + b;
      if Descend(w, a[0], true).Some? {
        DescendAllConcat(Descend(w, a[0], true).value, a[1..], b);
      }
    }
  }

  /** The last table of an array just written. */
  lemma InlineArrayStands(s: State, parts: seq<Key>, value: Node)
    requires Valid(s) && Current(s.root, s.cursor) && value.Tables? && WellFormed(value)
    requires DoKeyValue(s, parts, value).Some? && AllNamed(parts)
    ensures parts != [] && value.items != []
    ensures var s1, place := DoKeyValue(s, parts, value).value, LastOf(s.cursor, parts, value.items);
      && Valid(s1) && Current(s1.root, place)
      && Find(s1.root, place) == Some(value.items[|value.items| - 1]) && value.items[|value.items| - 1].Table?
  {
    KeyValueKeeps(s, parts, value);
    DoKeepsCurrent(s, KeyValue(parts, value));
    hide Extends, Find, Current, Dotted, LastOf;
    ArrayStands(DoKeyValue(s, parts, value).value, s.cursor, parts, value.items, value.inlined);
  }

  lemma ArrayStands(s: State, cursor: Place, parts: seq<Key>, items: seq<Node>, inlined: bool)
    requires Current(s.root, cursor) && parts != [] && AllNamed(parts) && items != []
    requires Find(s.root, cursor + Dotted(parts)) == Some(Tables(items, inlined))
    ensures Current(s.root, LastOf(cursor, parts, items))
    ensures Find(s.root, LastOf(cursor, parts, items)) == Some(items[|items| - 1])
  {
    LastBelow(cursor, parts, items);
    var below := LastOf([], parts, items);
    hide Find, Current, LastOf, Dotted, AllNamed;
    FindConcat(s.root, cursor, Dotted(parts));
    LastIsCurrent(Find(s.root, cursor).value, parts, items, inlined);
    CurrentConcat(s.root, cursor, below);
    FindConcat(s.root, cursor, below);
  }

  lemma LastBelow(cursor: Place, parts: seq<Key>, items: seq<Node>)
    requires parts != [] && items != []
    ensures LastOf(cursor, parts, items) == cursor + LastOf([], parts, items)
  {
  }

  /** A header into a current table adds to it. */
  lemma HeaderGrows(s: State, place: Place, extra: Key, table: Node)
    requires Valid(s) && Current(s.root, place) && extra != []
    requires Find(s.root, place) == Some(table) && table.Table? && extra !in table.entries
    ensures DoHeader(s, Keys(place) + [extra]).Some?
    ensures Find(DoHeader(s, Keys(place) + [extra]).value.root, place) != Some(table)
  {
    HeaderAtCurrent(s, place, extra);
    hide DoHeader, Find, Extends, Current, Keys;
    InsertExtends(s.root, place, extra, EMPTY);
  }

  /** Nor is an array of inline tables: wherever it was written by named keys, a header leads into
      its last table and adds to it. */
  lemma InlineArraysCanGrow(s: State, parts: seq<Key>, value: Node, extra: Key)
    requires Valid(s) && Current(s.root, s.cursor) && value.Tables? && WellFormed(value)
    requires DoKeyValue(s, parts, value).Some? && AllNamed(parts)
    requires extra != [] && extra !in value.items[|value.items| - 1].entries
    ensures var s1 := DoKeyValue(s, parts, value).value;
      var header := Keys(LastOf(s.cursor, parts, value.items)) + [extra];
      && DoHeader(s1, header).Some?
      && Find(DoHeader(s1, header).value.root, s.cursor + Dotted(parts)) != Some(value)
  {
    InlineArrayStands(s, parts, value);
    var s1, place := DoKeyValue(s, parts, value).value, LastOf(s.cursor, parts, value.items);
    hide DoKeyValue, DoHeader, Find, Extends, Current, LastOf, Keys, WellFormed, Insert, Dotted, AllNamed, Valid;
    HeaderGrows(s1, place, extra, value.items[|value.items| - 1]);
    LastTells(DoHeader(s1, Keys(place) + [extra]).value.root, s.cursor, parts, value.items, value.inlined);
  }

  lemma {:induction false} LongKey(keys: set<Key>) returns (n: nat)
    ensures forall k <- keys :: |k| < n
  {
    n := 0;
    if keys != {} {
      var k :| k in keys;
      var rest := LongKey(keys - {k});
      assert forall j <- keys :: j == k || j in keys - {k};
      n := if |k| < rest then rest else |k| + 1;
    }
  }

  lemma FreshKey(entries: map<Key, Node>) returns (k: Key)
    ensures k != [] && k !in entries
  {
    var n := LongKey(entries.Keys);
    k := seq(n + 1, _ => 'x');
    assert k in entries ==> k in entries.Keys;
  }

  /** Some accepted continuation leaves another value at the place. */
  ghost predicate CanChange(s: State, place: Place, value: Node) {
    exists after: seq<Statement> ::
      ValuesWellFormed(after) && Run(s, after).Some? && Find(Run(s, after).value.root, place) != Some(value)
  }

  lemma {:induction false} OneStatement(s: State, st: Statement)
    ensures Run(s, [st]) == Do(s, st)
  {
    assert [st][1..] == [];
    if Do(s, st).Some? {
      assert Run(Do(s, st).value, []) == Do(s, st);
    }
  }

  lemma ChangeableChanges(s: State, parts: seq<Key>, value: Node)
    requires Valid(s) && Current(s.root, s.cursor) && WellFormed(value) && Changeable(parts, value)
    requires DoKeyValue(s, parts, value).Some?
    ensures CanChange(DoKeyValue(s, parts, value).value, s.cursor + Dotted(parts), value)
  {
    var extra := FreshKey(if value.Table? then value.entries else value.items[|value.items| - 1].entries);
    var st;
    if value.Table? {
      InlineTablesCanGrow(s, parts, value, extra, EMPTY);
      st := KeyValue(parts + [extra], EMPTY);
    } else {
      InlineArraysCanGrow(s, parts, value, extra);
      st := Header(Keys(LastOf(s.cursor, parts, value.items)) + [extra]);
    }
    hide Do, DoKeyValue;
    assert ValuesWellFormed([st]);
    OneStatement(DoKeyValue(s, parts, value).value, st);
  }

  /** Exactly which values can change: after any accepted document ending in a key/value statement,
      some accepted continuation changes its value if and only if the value is a table, or an array
      of tables whose name has no empty part. */
  lemma ValueChangesExactly(before: seq<Statement>, parts: seq<Key>, value: Node)
    requires ValuesWellFormed(before) && WellFormed(value)
    requires Run(START, before + [KeyValue(parts, value)]).Some?
    ensures Run(START, before).Some?
    ensures var place := Run(START, before).value.cursor + Dotted(parts);
      CanChange(Run(START, before + [KeyValue(parts, value)]).value, place, value) <==> Changeable(parts, value)
  {
    var s, s1 := StatementStates(before, parts, value);
    if Changeable(parts, value) {
      ChangeableChanges(s, parts, value);
    } else {
      forall after: seq<Statement> | ValuesWellFormed(after) && Run(s1, after).Some?
        ensures Find(Run(s1, after).value.root, s.cursor + Dotted(parts)) == Some(value)
      {
        RunConcat(START, before + [KeyValue(parts, value)], after);
        StatementsStay(before, parts, value, after);
      }
    }
  }

  lemma {:induction false} FreeBelow(t: Node, parts: seq<Key>, value: Node, extra: Key)
    requires t.Table? && parts != [] && value.Table? && extra !in value.entries
    requires Find(t, Dotted(parts)) == Some(value)
    ensures Free(t, parts + [extra])
    decreases parts
  {
    assert Dotted(parts)[1..] == Dotted(parts[1..]);
    assert (parts + [extra])[1..] == parts[1..] + [extra];
    if |parts| > 1 {
      FreeBelow(t.entries[parts[0]], parts[1..], value, extra);
    } else {
      assert parts[1..] == [] && parts[1..] + [extra] == [extra];
    }
  }

  // ---- Which headers are accepted ----

  /** Under table t the header names a new table, or one that has entries but no scalar. */
  predicate HeaderFree(t: Node, parts: seq<Key>)
    requires t.Table?
    decreases parts
  {
    if parts == [] then t.entries != map[] && !HoldsScalar(t.entries)
    else if parts[0] !in t.entries then AllNamed(parts)
    else parts[0] != [] && Below(t, parts[0]).Table? && HeaderFree(Below(t, parts[0]), parts[1..])
  }

  predicate Opens(w: Option<Walk>) {
    w.Some? &&
    var entries := EntriesAt(w.value.root, w.value.at);
    w.value.inserted || (entries != map[] && !HoldsScalar(entries))
  }

  /** Below a new table everything is new. */
  lemma {:induction false} NewTableOpens(w: Walk, parts: seq<Key>)
    requires Stands(w) && w.inserted && Find(w.root, w.at) == Some(EMPTY)
    ensures Opens(DescendAll(w, parts, true)) <==> AllNamed(parts)
    decreases parts
  {
    if parts != [] && parts[0] != [] {
      DescendKeeps(w, parts[0], true);
      DescendReaches(w, parts[0], true);
      NewTableOpens(Descend(w, parts[0], true).value, parts[1..]);
      assert AllNamed(parts) <==> AllNamed(parts[1..]) by {
        assert forall i :: 1 <= i < |parts| ==> parts[i] == parts[1..][i - 1];
      }
    }
  }

  lemma {:induction false} OpensExactly(w: Walk, parts: seq<Key>)
    requires Stands(w) && !w.inserted
    ensures Opens(DescendAll(w, parts, true)) <==> HeaderFree(Find(w.root, w.at).value, parts)
    decreases parts
  {
    if parts != [] {
      var t := Find(w.root, w.at).value;
      FindWellFormed(w.root, w.at);
      if Descend(w, parts[0], true).Some? {
        var w1 := Descend(w, parts[0], true).value;
        DescendKeeps(w, parts[0], true);
        DescendReaches(w, parts[0], true);
        if w1.inserted {
          NewTableOpens(w1, parts[1..]);
          assert AllNamed(parts) <==> AllNamed(parts[1..]) by {
            assert forall i :: 1 <= i < |parts| ==> parts[i] == parts[1..][i - 1];
          }
        } else {
          OpensExactly(w1, parts[1..]);
        }
      }
    }
  }

  /** A header is accepted exactly when its name leads, through tables and last elements of arrays,
      to nothing yet or to a table that has entries but no scalar. */
  lemma HeaderAcceptedExactly(s: State, parts: seq<Key>)
    requires Valid(s) && parts != []
    ensures DoHeader(s, parts).Some? <==> HeaderFree(s.root, parts)
  {
    StartWalk(s);
    OpensExactly(Walk(s.root, [], false), parts);
  }

  /** Taking "entries but no scalar" for "made implicitly" lets a table be opened twice: a table
      with such entries is opened by its header whenever it is met. */
  lemma {:induction false} TablesCanBeOpenedTwice(s: State, key: Key, entries: map<Key, Node>)
    requires key != [] && s.root.Table? && key in s.root.entries && s.root.entries[key] == Table(entries)
    requires entries != map[] && !HoldsScalar(entries)
    ensures Run(s, [Header([key]), Header([key])]) == Some(State(s.root, [Hop(key, None)]))
  {
    ReopenedAsItIs(s, key, entries);
    var s1, h := State(s.root, [Hop(key, None)]), Header([key]);
    ReopenedAsItIs(s1, key, entries);
    assert [h, h][1..] == [h] && [h][1..] == [];
    assert Run(s1, [h]) == Run(s1, []);
  }

  lemma {:induction false} ReopenedAsItIs(s: State, key: Key, entries: map<Key, Node>)
    requires key != [] && s.root.Table? && key in s.root.entries && s.root.entries[key] == Table(entries)
    requires entries != map[] && !HoldsScalar(entries)
    ensures Do(s, Header([key])) == Some(State(s.root, [Hop(key, None)]))
  {
    var w := Walk(s.root, [Hop(key, None)], false);
    assert [] + [Hop(key, None)] == [Hop(key, None)] && [Hop(key, None)][1..] == [];
    assert Descend(Walk(s.root, [], false), key, true) == Some(w);
    assert [key][1..] == [] && DescendAll(w, [], true) == Some(w);
    assert DescendAll(Walk(s.root, [], false), [key], true) == DescendAll(w, [key][1..], true);
    assert Find(w.root, w.at) == Find(s.root.entries[key], w.at[1..]);
  }

  /** A document that opens a table twice: its header, that of a table below it, and its header again. */
  lemma {:induction false} ReopeningDocument()
    ensures Run(START, [Header(["a"]), Header(["a", "b"]), Header(["a"])])
      == Some(State(Table(map["a" := Table(map["b" := EMPTY])]), [Hop("a", None)]))
  {
    var h, below := Header(["a"]), Header(["a", "b"]);
    var s1 := State(Table(map["a" := EMPTY]), [Hop("a", None)]);
    var s2 := State(Table(map["a" := Table(map["b" := EMPTY])]), [Hop("a", None), Hop("b", None)]);
    FirstHeader();
    HeaderBelow();
    ReopenedAsItIs(s2, "a", map["b" := EMPTY]);
    hide Do;
    assert [h, below, h][1..] == [below, h] && [below, h][1..] == [h] && [h][1..] == [];
    assert Run(s2, [h]) == Run(Do(s2, h).value, []);
    assert Run(s1, [below, h]) == Run(s2, [h]);
  }

  lemma {:induction false} FirstHeader()
    ensures Do(START, Header(["a"])) == Some(State(Table(map["a" := EMPTY]), [Hop("a", None)]))
  {
    var w, w1 := Walk(EMPTY, [], false), Walk(Table(map["a" := EMPTY]), [Hop("a", None)], true);
    assert [] + [Hop("a", None)] == [Hop("a", None)] && ["a"][1..] == [];
    assert Descend(w, "a", true) == Some(w1);
    assert DescendAll(w1, [], true) == Some(w1) && DescendAll(w, ["a"], true) == DescendAll(w1, ["a"][1..], true);
    assert Find(w1.root, w1.at) == Find(EMPTY, w1.at[1..]);
  }

  /** The tree of the document's second statement. */
  lemma {:induction false} TableBelow()
    ensures var a, b, root := Hop("a", None), Hop("b", None), Table(map["a" := EMPTY]);
      var root' := Insert(root, [a], "b", EMPTY);
      && root' == Table(map["a" := Table(map["b" := EMPTY])])
      && Find(root, [a]) == Some(EMPTY) && Find(root', [a, b]) == Some(EMPTY)
  {
    var a, b, root := Hop("a", None), Hop("b", None), Table(map["a" := EMPTY]);
    var below := Table(map["b" := EMPTY]);
    assert [a][1..] == [] && [a, b][1..] == [b] && [b][1..] == [];
    assert Find(root, [a]) == Find(EMPTY, [a][1..]);
    assert Insert(EMPTY, [a][1..], "b", EMPTY) == below;
    assert Find(Table(map["a" := below]), [a, b]) == Find(below, [a, b][1..]);
    assert Find(below, [b]) == Find(EMPTY, [b][1..]);
  }

  lemma {:induction false} HeaderBelow()
    ensures Do(State(Table(map["a" := EMPTY]), [Hop("a", None)]), Header(["a", "b"]))
      == Some(State(Table(map["a" := Table(map["b" := EMPTY])]), [Hop("a", None), Hop("b", None)]))
  {
    TableBelow();
    var a, b := Hop("a", None), Hop("b", None);
    var root, root' := Table(map["a" := EMPTY]), Table(map["a" := Table(map["b" := EMPTY])]);
    var w, w1, w2 := Walk(root, [], false), Walk(root, [a], false), Walk(root', [a, b], true);
    assert [] + [a] == [a] && [a] + [b] == [a, b];
    assert Descend(w, "a", true) == Some(w1);
    hide Insert;
    assert Descend(w1, "b", true) == Some(w2);
    hide Find, Descend;
    assert ["a", "b"][1..] == ["b"] && ["b"][1..] == [];
    assert DescendAll(w2, [], true) == Some(w2) && DescendAll(w1, ["b"], true) == DescendAll(w2, ["b"][1..], true);
    assert DescendAll(w, ["a", "b"], true) == DescendAll(w1, ["a", "b"][1..], true);
  }

  /** Under table t an array header leads to nothing yet, or to an array not written as a value. */
  predicate ArrayFree(t: Node, parts: seq<Key>)
    requires t.Table? && parts != []
    decreases parts
  {
    if parts[0] !in t.entries then AllNamed(parts)
    else if |parts| == 1 then parts[0] != [] && t.entries[parts[0]].Tables? && !t.entries[parts[0]].inlined
    else parts[0] != [] && Below(t, parts[0]).Table? && ArrayFree(Below(t, parts[0]), parts[1..])
  }

  predicate EndTakesElement(w: Walk, parts: seq<Key>)
    requires parts != []
  {
    var last, w' := parts[|parts| - 1], DescendAll(w, parts[..|parts| - 1], true);
    last != [] && w'.Some? && var entries := EntriesAt(w'.value.root, w'.value.at);
    last !in entries || (entries[last].Tables? && !entries[last].inlined)
  }

  lemma {:induction false} EndTakesElementExactly(w: Walk, parts: seq<Key>)
    requires Stands(w) && parts != []
    ensures EndTakesElement(w, parts) <==> ArrayFree(Find(w.root, w.at).value, parts)
    decreases parts
  {
    var t := Find(w.root, w.at).value;
    FindWellFormed(w.root, w.at);
    if |parts| > 1 {
      assert parts[..|parts| - 1][1..] == parts[1..][..|parts| - 2];
      if Descend(w, parts[0], true).Some? {
        DescendKeeps(w, parts[0], true);
        DescendReaches(w, parts[0], true);
        EndTakesElementExactly(Descend(w, parts[0], true).value, parts[1..]);
        assert AllNamed(parts) <==> parts[0] != [] && AllNamed(parts[1..]) by {
          assert forall i :: 1 <= i < |parts| ==> parts[i] == parts[1..][i - 1];
        }
      }
    }
  }

  /** An array header is accepted exactly when its name leads, through tables and last elements, to
      nothing yet or to an array of tables that was not written as a value. */
  lemma ArrayHeaderAcceptedExactly(s: State, parts: seq<Key>)
    requires Valid(s) && parts != []
    ensures DoArrayHeader(s, parts).Some? <==> ArrayFree(s.root, parts)
  {
    StartWalk(s);
    EndTakesElementExactly(Walk(s.root, [], false), parts);
  }

  // ---- An array takes element after element ----

  /** What the array header leaves in the table that holds its array. */
  lemma ArrayStandsIn(s: State, parts: seq<Key>) returns (holder: Place, last: Key, items: seq<Node>)
    requires Valid(s) && DoArrayHeader(s, parts).Some?
    ensures Keys(holder) == parts[..|parts| - 1] && last == parts[|parts| - 1] != [] && items != []
    ensures DoArrayHeader(s, parts).value.cursor == holder + [Hop(last, Some(|items| - 1))]
    ensures Find(DoArrayHeader(s, parts).value.root, holder + [Hop(last, None)]) == Some(Tables(items, false))
  {
    var w, key, node := ArrayHeaderForm(s, parts);
    WalkFollowsKeys(Walk(s.root, [], false), parts[..|parts| - 1], true);
    assert Keys([]) + parts[..|parts| - 1] == parts[..|parts| - 1];
    holder, last, items := w.at, key, node.items;
    hide Insert, DescendAll, DoArrayHeader, Keys, Extends, Find, WellFormed;
    PutKeeps(w, last, node);
  }

  lemma AnotherElement(s: State, holder: Place, last: Key, items: seq<Node>, now: seq<Node>)
    requires Valid(s) && Current(s.root, holder) && last != [] && |items| <= |now|
    requires Find(s.root, holder + [Hop(last, None)]) == Some(Tables(now, false))
    ensures DoArrayHeader(s, Keys(holder) + [last]).Some?
    ensures DoArrayHeader(s, Keys(holder) + [last]).value.cursor == holder + [Hop(last, Some(|now|))]
  {
    assert [] + holder == holder;
    WalkBack(s.root, [], holder, false);
    assert (Keys(holder) + [last])[..|holder|] == Keys(holder);
    FindConcat(s.root, holder, [Hop(last, None)]);
    assert [Hop(last, None)][1..] == [];
  }

  /** As long as the table that holds it is the current one, the array of an array header takes
      another element by the same header, whatever accepted statements stand between; the new one
      comes after all earlier ones. */
  lemma ArrayTakesAnother(s: State, parts: seq<Key>, between: seq<Statement>)
    requires Valid(s) && ValuesWellFormed(between) && DoArrayHeader(s, parts).Some?
    requires Run(DoArrayHeader(s, parts).value, between).Some?
    requires var first := DoArrayHeader(s, parts).value;
      Current(Run(first, between).value.root, first.cursor[..|first.cursor| - 1])
    ensures var first := DoArrayHeader(s, parts).value;
      var again, n := DoArrayHeader(Run(first, between).value, parts), |first.cursor| - 1;
      && again.Some? && |again.value.cursor| == n + 1 && again.value.cursor[..n] == first.cursor[..n]
      && again.value.cursor[n].key == first.cursor[n].key
      && first.cursor[n].index.Some? && again.value.cursor[n].index.Some?
      && first.cursor[n].index.value < again.value.cursor[n].index.value
  {
    var holder, last, items := ArrayStandsIn(s, parts);
    var first := DoArrayHeader(s, parts).value;
    var s' := Run(first, between).value;
    ArrayHeaderKeeps(s, parts);
    hide DoArrayHeader, Run, Keys, Current;
    RunKeeps(first, between);
    FindExtends(first.root, s'.root, holder + [Hop(last, None)]);
    assert first.cursor[..|holder|] == holder && Keys(holder) + [last] == parts;
    AnotherElement(s', holder, last, items, Find(s'.root, holder + [Hop(last, None)]).value.items);
  }

  // ---- The parser ----

  class Parser {
    var root: Node
    var cursor: Place

    function Now(): State
      reads this
    {
      State(root, cursor)
    }

    constructor ()
      ensures Now() == START
    {
      root, cursor := EMPTY, [];
    }

    /** The loop over the parts of a dotted name. */
    method Follow(from: Place, parts: seq<Key>, header: bool) returns (ok: bool, at: Place, inserted: bool)
      modifies this`root
      ensures var r := DescendAll(Walk(old(root), from, false), parts, header);
        if ok then r == Some(Walk(root, at, inserted)) else r == None
    {
      at, inserted := from, false;
      var i := 0;
      assert parts[0..] == parts;
      while i < |parts|
        invariant 0 <= i <= |parts|
        invariant DescendAll(Walk(old(root), from, false), parts, header)
          == DescendAll(Walk(root, at, inserted), parts[i..], header)
      {
        var part, entries := parts[i], EntriesAt(root, at);
        assert parts[i..][1..] == parts[i + 1..];
        if header && part == [] {
          return false, at, inserted;
        }
        if part in entries {
          match entries[part]
          case Table(_) =>
            at := at + [Hop(part, None)];
          case Tables(items, _) =>
            if !header || items == [] {
              return false, at, inserted;
            }
            at := at + [Hop(part, Some(|items| - 1))];
          case Leaf(_, _) =>
            return false, at, inserted;
        } else {
          root, inserted := Insert(root, at, part, EMPTY), true;
          at := at + [Hop(part, None)];
        }
        i := i + 1;
      }
      return true, at, inserted;
    }

    method ParseSingleTable(parts: seq<Key>) returns (ok: bool)
      modifies this
      ensures ok <==> DoHeader(old(Now()), parts).Some?
      ensures ok ==> Now() == DoHeader(old(Now()), parts).value
    {
      if |parts| == 0 {
        return false;
      }
      var at, inserted;
      ok, at, inserted := Follow([], parts, true);
      if !ok {
        return false;
      }
      var entries := EntriesAt(root, at);
      if !inserted && (entries == map[] || HoldsScalar(entries)) {
        return false;
      }
      cursor := at;
    }

    method ParseTableArray(parts: seq<Key>) returns (ok: bool)
      modifies this
      ensures ok <==> DoArrayHeader(old(Now()), parts).Some?
      ensures ok ==> Now() == DoArrayHeader(old(Now()), parts).value
    {
      if |parts| == 0 || parts[|parts| - 1] == [] {
        return false;
      }
      var at, inserted;
      ok, at, inserted := Follow([], parts[..|parts| - 1], true);
      if !ok {
        return false;
      }
      var entries, last := EntriesAt(root, at), parts[|parts| - 1];
      if last !in entries {
        root := Insert(root, at, last, Tables([EMPTY], false));
        cursor := at + [Hop(last, Some(0))];
      } else {
        if !entries[last].Tables? || entries[last].inlined {
          return false;
        }
        var items := entries[last].items;
        root := Insert(root, at, last, Tables(items + [EMPTY], false));
        cursor := at + [Hop(last, Some(|items|))];
      }
    }

    method ParseKeyValue(parts: seq<Key>, value: Node) returns (ok: bool)
      modifies this`root
      ensures ok <==> DoKeyValue(old(Now()), parts, value).Some?
      ensures ok ==> Now() == DoKeyValue(old(Now()), parts, value).value
    {
      if |parts| == 0 {
        return false;
      }
      var at, inserted;
      ok, at, inserted := Follow(cursor, parts[..|parts| - 1], false);
      if !ok {
        return false;
      }
      var last := parts[|parts| - 1];
      if last in EntriesAt(root, at) {
        return false;
      }
      root := Insert(root, at, last, value);
    }

    /** The loop over the lines; a rejected statement ends it with an exception. */
    method Parse(sts: seq<Statement>) returns (ok: bool)
      requires Now() == START
      modifies this
      ensures ok <==> Run(START, sts).Some?
      ensures ok ==> Now() == Run(START, sts).value
    {
      hide DoHeader, DoArrayHeader, DoKeyValue;
      var i := 0;
      assert sts[0..] == sts;
      while i < |sts|
        invariant 0 <= i <= |sts|
        invariant Run(START, sts) == Run(Now(), sts[i..])
      {
        assert sts[i..][1..] == sts[i + 1..];
        match sts[i] {
          case Header(parts) => ok := ParseSingleTable(parts);
          case ArrayHeader(parts) => ok := ParseTableArray(parts);
          case KeyValue(parts, value) => ok := ParseKeyValue(parts, value);
        }
        if !ok {
          return false;
        }
        i := i + 1;
      }
      return true;
    }
  }
}
