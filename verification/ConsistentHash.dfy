/** The consistent-hash ring: an ordered map from negated hash codes to node names. */
module ConsistentHash {
  import opened Bytes

  type Node = string

  /** Keys are negated codes, in the order of std::map. */
  type Ring = map<int, Node>

  /** What std::hash computes is not modelled: any function will do. Its result is cut to an
      unsigned int; the mask kKeySize - 1 is all ones because kKeySize is 0. */
  type Hash = string -> nat

  const REPLACEMENTS: nat := 16

  function Code(hash: Hash, s: string): int { hash(s) % 0x1_0000_0000 }

  function Point(hash: Hash, node: Node, i: nat): int { -Code(hash, node + "_#" + Decimal(i)) }

  function Points(hash: Hash, node: Node, n: nat): set<int> {
    set i | 0 <= i < n :: Point(hash, node, i)
  }

  function NodePoints(hash: Hash, node: Node): set<int> { Points(hash, node, REPLACEMENTS) }

  /** Adding a node overwrites whatever stood at its points. */
  function Added(ring: Ring, points: set<int>, node: Node): Ring { ring + map p | p in points :: node }

  function Removed(ring: Ring, points: set<int>): Ring { ring - points }

  /** lower_bound(-code), or the last key when there is none. */
  predicate IsSlot(ring: Ring, code: int, k: int) {
    && k in ring
    && (forall j <- ring :: j >= -code ==> -code <= k <= j)
    && ((forall j <- ring :: j < -code) ==> forall j <- ring :: j <= k)
  }

  lemma {:induction false} SlotExists(ring: Ring, code: int)
    requires ring != map[]
    ensures exists k :: IsSlot(ring, code, k)
  {
    var above := set j | j in ring && j >= -code;
    if above == {} {
      assert ring.Keys != {};
      var k := Greatest(ring.Keys);
      assert forall j <- ring :: j !in above;
      assert IsSlot(ring, code, k);
    } else {
      var k := LeastOf(above);
      assert forall j <- ring :: j >= -code ==> j in above;
      assert IsSlot(ring, code, k);
    }
  }

  lemma Element<T>(s: set<T>) returns (k: T)
    requires s != {}
    ensures k in s
  {
    k :| k in s;
  }

  lemma {:induction false} LeastOf(s: set<int>) returns (k: int)
    requires s != {}
    ensures k in s
    ensures forall j <- s :: k <= j
  {
    k := Element(s);
    if s == {k} {
    } else {
      var rest := LeastOf(s - {k});
      assert forall j <- s :: j == k || j in s - {k};
      k := if rest < k then rest else k;
    }
  }

  lemma {:induction false} Greatest(s: set<int>) returns (k: int)
    requires s != {}
    ensures k in s
    ensures forall j <- s :: j <= k
  {
    k := Element(s);
    if s == {k} {
    } else {
      var rest := Greatest(s - {k});
      assert forall j <- s :: j == k || j in s - {k};
      k := if rest > k then rest else k;
    }
  }

  lemma SlotIsUnique(ring: Ring, code: int, j: int, k: int)
    requires IsSlot(ring, code, j) && IsSlot(ring, code, k)
    ensures j == k
  {
  }

  /** The node a key with this code belongs to; the code throws on an empty ring. */
  ghost function Owner(ring: Ring, code: int): Option<Node> {
    if ring == map[] then None
    else
      SlotExists(ring, code);
      var k :| IsSlot(ring, code, k);
      Some(ring[k])
  }

  lemma OwnerIsAtSlot(ring: Ring, code: int, k: int)
    requires IsSlot(ring, code, k)
    ensures Owner(ring, code) == Some(ring[k])
  {
    SlotExists(ring, code);
    var j :| IsSlot(ring, code, j) && Owner(ring, code) == Some(ring[j]);
    SlotIsUnique(ring, code, j, k);
  }

  // ---- Which node a key gets, in terms of codes ----

  /** The codes of a node: those of its name with a suffix for each of its 16 places. */
  ghost predicate HasCode(hash: Hash, node: Node, c: int) {
    exists i: nat :: i < 16 && c == hash(node + "_#" + Decimal(i)) % 0x1_0000_0000
  }

  lemma CodesOfNode(hash: Hash, node: Node, c: int)
    ensures HasCode(hash, node, c) <==> -c in NodePoints(hash, node)
  {
    if HasCode(hash, node, c) {
      var i: nat :| i < 16 && c == hash(node + "_#" + Decimal(i)) % 0x1_0000_0000;
      assert Point(hash, node, i) == -c;
    }
    if -c in NodePoints(hash, node) {
      var i :| 0 <= i < 16 && Point(hash, node, i) == -c;
      assert c == hash(node + "_#" + Decimal(i)) % 0x1_0000_0000;
    }
  }

  lemma AddedCodes(ring: Ring, hash: Hash, node: Node)
    ensures var ring' := Added(ring, NodePoints(hash, node), node);
      && (forall c :: Standing(ring', c) <==> Standing(ring, c) || HasCode(hash, node, c))
      && (forall c :: HasCode(hash, node, c) ==> Standing(ring', c) && ring'[-c] == node)
  {
    hide NodePoints, HasCode;
    forall c ensures HasCode(hash, node, c) <==> -c in NodePoints(hash, node) {
      CodesOfNode(hash, node, c);
    }
  }

  lemma RemovedCodes(ring: Ring, hash: Hash, node: Node)
    ensures var ring' := Removed(ring, NodePoints(hash, node));
      forall c :: Standing(ring', c) <==> Standing(ring, c) && !HasCode(hash, node, c)
  {
    hide NodePoints, HasCode;
    forall c ensures HasCode(hash, node, c) <==> -c in NodePoints(hash, node) {
      CodesOfNode(hash, node, c);
    }
  }

  /** A node stands on the ring at code c. */
  predicate Standing(ring: Ring, c: int) { -c in ring }

  /** The code that serves a key's code: the greatest one not above it; when all are above it, the
      least of all. */
  ghost predicate Serves(ring: Ring, code: int, c: int) {
    && Standing(ring, c)
    && (c <= code ==> forall d :: Standing(ring, d) && d <= code ==> d <= c)
    && (c > code ==> forall d :: Standing(ring, d) ==> code < d && c <= d)
  }

  lemma ServesIsUnique(ring: Ring, code: int, c: int, d: int)
    requires Serves(ring, code, c) && Serves(ring, code, d)
    ensures c == d
  {
  }

  lemma SlotServes(ring: Ring, code: int, k: int)
    requires IsSlot(ring, code, k)
    ensures Serves(ring, code, -k)
  {
    assert Standing(ring, -k);
    forall d | Standing(ring, d) ensures k >= -code ==> d <= code ==> d <= -k {
      assert -d in ring;
    }
    if k < -code {
      forall d | Standing(ring, d) ensures code < d && -k <= d {
        assert -d in ring;
      }
    }
  }

  /** A key gets the node at the greatest code not above its own, and the node at the least code of
      all when there is none. */
  lemma OwnerServes(ring: Ring, code: int)
    ensures ring == map[] <==> Owner(ring, code) == None
    ensures ring != map[] ==> exists c :: Serves(ring, code, c) && Owner(ring, code) == Some(ring[-c])
  {
    if ring != map[] {
      SlotExists(ring, code);
      var k :| IsSlot(ring, code, k);
      OwnerIsAtSlot(ring, code, k);
      SlotServes(ring, code, k);
      assert ring[-(-k)] == ring[k];
    }
  }

  /** A key between two codes, and one below all of them, which goes round to the least. */
  lemma WrappedKey()
    ensures var ring := map[-50 := "b", -10 := "a"];
      Owner(ring, 30) == Some("a") && Owner(ring, 50) == Some("b") && Owner(ring, 5) == Some("a")
  {
    var ring := map[-50 := "b", -10 := "a"];
    OwnerIsAtSlot(ring, 30, -10);
    OwnerIsAtSlot(ring, 50, -50);
    OwnerIsAtSlot(ring, 5, -10);
  }

  // ---- Adding and removing ----

  /** Adding a node moves a key only to the new node. */
  lemma AddMovesOnlyToTheNewNode(ring: Ring, points: set<int>, node: Node, code: int)
    requires ring != map[]
    ensures Owner(Added(ring, points, node), code) in {Owner(ring, code), Some(node)}
  {
    var ring' := Added(ring, points, node);
    SlotExists(ring, code);
    var k :| IsSlot(ring, code, k);
    assert k in ring';
    SlotExists(ring', code);
    var k' :| IsSlot(ring', code, k');
    OwnerIsAtSlot(ring, code, k);
    OwnerIsAtSlot(ring', code, k');
    if k' !in points {
      assert IsSlot(ring, code, k') by { assert forall j <- ring :: j in ring'; }
      SlotIsUnique(ring, code, k, k');
    }
  }

  /** Removing a node whose points are nobody else's moves only the keys it held. */
  lemma RemoveMovesOnlyItsKeys(ring: Ring, points: set<int>, node: Node, code: int)
    requires forall p <- points :: p in ring ==> ring[p] == node
    requires Owner(ring, code) != Some(node)
    ensures Owner(Removed(ring, points), code) == Owner(ring, code)
  {
    var ring' := Removed(ring, points);
    if ring != map[] {
      SlotExists(ring, code);
      var k :| IsSlot(ring, code, k);
      OwnerIsAtSlot(ring, code, k);
      assert k !in points && k in ring';
      assert IsSlot(ring', code, k) by { SlotSurvives(ring, ring', code, k); }
      OwnerIsAtSlot(ring', code, k);
    } else {
      assert ring' == map[];
    }
  }

  lemma SlotSurvives(ring: Ring, ring': Ring, code: int, k: int)
    requires IsSlot(ring, code, k) && k in ring' && ring'.Keys <= ring.Keys
    ensures IsSlot(ring', code, k)
  {
    assert forall j <- ring' :: j in ring;
    if forall j <- ring' :: j < -code {
      assert k < -code;
      assert forall j <- ring :: j < -code;
    }
  }

  /** Removing a node undoes adding it exactly when none of its points was taken before. */
  lemma RemoveUndoesAddExactly(ring: Ring, points: set<int>, node: Node)
    ensures Removed(Added(ring, points, node), points) == ring <==> points !! ring.Keys
  {
    var back := Removed(Added(ring, points, node), points);
    assert back.Keys == ring.Keys - points;
    if points !! ring.Keys {
      assert back == ring;
    }
  }

  // ---- Every history of additions ----

  function RingOf(hash: Hash, history: seq<Node>): Ring {
    if history == [] then map[]
    else
      var last := history[|history| - 1];
      Added(RingOf(hash, history[..|history| - 1]), NodePoints(hash, last), last)
  }

  /** No other node of the history has a point in common with this one, which may itself have been
      added any number of times. */
  ghost predicate Clear(hash: Hash, node: Node, history: seq<Node>) {
    forall other <- history :: other != node ==> NodePoints(hash, other) !! NodePoints(hash, node)
  }

  /** The history without the additions of one node. */
  function Without(history: seq<Node>, node: Node): seq<Node> {
    if history == [] then []
    else
      var init, last := Without(history[..|history| - 1], node), history[|history| - 1];
      if last == node then init else init + [last]
  }

  lemma AddedCommutesWithRemoval(ring: Ring, points: set<int>, other: set<int>, node: Node)
    requires points !! other
    ensures Removed(Added(ring, other, node), points) == Added(Removed(ring, points), other, node)
  {
  }

  lemma RingOfAppend(hash: Hash, history: seq<Node>, last: Node)
    ensures RingOf(hash, history + [last]) == Added(RingOf(hash, history), NodePoints(hash, last), last)
  {
    assert (history + [last])[..|history|] == history;
  }

  lemma AddedAgainIsRemoved(ring: Ring, points: set<int>, node: Node)
    ensures Removed(Added(ring, points, node), points) == Removed(ring, points)
  {
  }

  /** After any history, whenever and however often the node was added, removing it leaves the ring
      of the other additions. */
  lemma {:induction false} RemoveErasesFromHistory(hash: Hash, history: seq<Node>, node: Node)
    requires Clear(hash, node, history)
    ensures Removed(RingOf(hash, history), NodePoints(hash, node)) == RingOf(hash, Without(history, node))
    decreases |history|
  {
    hide NodePoints, Added, Removed;
    var points := NodePoints(hash, node);
    if history == [] {
      NothingToRemove(points);
    } else {
      var init, last := history[..|history| - 1], history[|history| - 1];
      assert last in history;
      RemoveErasesFromHistory(hash, init, node);
      if last == node {
        AddedAgainIsRemoved(RingOf(hash, init), points, node);
      } else {
        AddedCommutesWithRemoval(RingOf(hash, init), points, NodePoints(hash, last), last);
        RingOfAppend(hash, Without(init, node), last);
      }
    }
  }

  lemma {:induction false} PointsStand(hash: Hash, history: seq<Node>, node: Node, other: Node)
    requires other in history && other != node
    ensures NodePoints(hash, other) <= RingOf(hash, Without(history, node)).Keys
    decreases |history|
  {
    hide NodePoints;
    var init, last := history[..|history| - 1], history[|history| - 1];
    assert history == init + [last];
    if last != node {
      RingOfAppend(hash, Without(init, node), last);
    }
    if last != other {
      PointsStand(hash, init, node, other);
    }
  }

  lemma NothingInCommon(a: set<int>, b: set<int>)
    requires a * b == {}
    ensures a !! b
  {
    assert forall o :: o in a && o in b ==> o in a * b;
  }

  lemma Common(a: set<int>, b: set<int>) returns (p: int)
    requires !(a !! b)
    ensures p in a && p in b
  {
    if a * b == {} {
      NothingInCommon(a, b);
      assert false;
    }
    p := Element(a * b);
  }

  /** The condition is exact: with a point in common, removal takes another node's point away. */
  lemma RemovalErasesExactly(hash: Hash, history: seq<Node>, node: Node)
    ensures Removed(RingOf(hash, history), NodePoints(hash, node)) == RingOf(hash, Without(history, node))
      <==> Clear(hash, node, history)
  {
    hide NodePoints, RingOf;
    if Clear(hash, node, history) {
      RemoveErasesFromHistory(hash, history, node);
    } else {
      var other :| other in history && other != node && !(NodePoints(hash, other) !! NodePoints(hash, node));
      PointsStand(hash, history, node, other);
      var p := Common(NodePoints(hash, other), NodePoints(hash, node));
      assert p in RingOf(hash, Without(history, node)).Keys;
    }
  }

  lemma NothingToRemove(points: set<int>)
    ensures Removed(map[], points) == map[]
  {
  }

  lemma {:induction false} PointsHoldNode(hash: Hash, history: seq<Node>, node: Node)
    requires Clear(hash, node, history)
    ensures forall p <- NodePoints(hash, node) :: p in RingOf(hash, history) ==> RingOf(hash, history)[p] == node
    decreases |history|
  {
    hide NodePoints;
    if history != [] {
      var last := history[|history| - 1];
      assert last in history;
      PointsHoldNode(hash, history[..|history| - 1], node);
    }
  }

  /** With clear points, removal keeps every key that the node did not hold, after any history. */
  lemma HistoryRemovalMovesOnlyItsKeys(hash: Hash, history: seq<Node>, node: Node, code: int)
    requires Clear(hash, node, history)
    requires Owner(RingOf(hash, history), code) != Some(node)
    ensures Owner(RingOf(hash, Without(history, node)), code) == Owner(RingOf(hash, history), code)
  {
    hide NodePoints, Owner, Removed;
    RemoveErasesFromHistory(hash, history, node);
    PointsHoldNode(hash, history, node);
    RemoveMovesOnlyItsKeys(RingOf(hash, history), NodePoints(hash, node), node, code);
  }

  // ---- Every history of additions and removals ----

  datatype Change = Join(node: Node) | Leave(node: Node)

  function After(hash: Hash, changes: seq<Change>): Ring {
    if changes == [] then map[]
    else
      var before, last := After(hash, changes[..|changes| - 1]), changes[|changes| - 1];
      match last
      case Join(node) => Added(before, NodePoints(hash, node), node)
      case Leave(node) => Removed(before, NodePoints(hash, node))
  }

  /** The additions that were not taken back. */
  function Survivors(changes: seq<Change>): seq<Node> {
    if changes == [] then []
    else
      var before, last := Survivors(changes[..|changes| - 1]), changes[|changes| - 1];
      match last
      case Join(node) => before + [node]
      case Leave(node) => Without(before, node)
  }

  /** Whether the last change of a node was its addition. */
  predicate Present(changes: seq<Change>, node: Node) {
    if changes == [] then false
    else
      var last := changes[|changes| - 1];
      if last.node == node then last.Join? else Present(changes[..|changes| - 1], node)
  }

  /** No two nodes have a point in common. */
  ghost predicate Apart(hash: Hash, changes: seq<Change>) {
    forall a, b :: a in changes && b in changes && a.node != b.node ==>
      NodePoints(hash, a.node) !! NodePoints(hash, b.node)
  }

  lemma {:induction false} WithoutDropsOne(history: seq<Node>, node: Node)
    ensures forall other :: other in Without(history, node) <==> other in history && other != node
  {
    if history != [] {
      var init, last := history[..|history| - 1], history[|history| - 1];
      assert history == init + [last];
      WithoutDropsOne(init, node);
    }
  }

  lemma {:induction false} SurvivorsArePresent(changes: seq<Change>)
    ensures forall node :: node in Survivors(changes) <==> Present(changes, node)
  {
    if changes != [] {
      var init, last := changes[..|changes| - 1], changes[|changes| - 1];
      SurvivorsArePresent(init);
      if last.Leave? {
        WithoutDropsOne(Survivors(init), last.node);
      }
    }
  }

  lemma {:induction false} SurvivorsWereAdded(changes: seq<Change>, node: Node)
    requires node in Survivors(changes)
    ensures Join(node) in changes
    decreases |changes|
  {
    var init, last := changes[..|changes| - 1], changes[|changes| - 1];
    assert changes == init + [last];
    if last.Leave? {
      WithoutDropsOne(Survivors(init), last.node);
    }
    if node in Survivors(init) {
      SurvivorsWereAdded(init, node);
    }
  }

  lemma EarlierAreClear(hash: Hash, init: seq<Change>, last: Change)
    requires Apart(hash, init + [last])
    ensures Clear(hash, last.node, Survivors(init))
  {
    hide NodePoints;
    forall other <- Survivors(init) | other != last.node
      ensures NodePoints(hash, other) !! NodePoints(hash, last.node)
    {
      SurvivorsWereAdded(init, other);
      assert Join(other) in init + [last] && last in init + [last] && Join(other).node == other;
    }
  }

  /** After any history of additions and removals of nodes without common points the ring is that of
      the nodes whose last change was an addition. */
  lemma {:induction false} HistoryLeavesTheSurvivors(hash: Hash, changes: seq<Change>)
    requires Apart(hash, changes)
    ensures After(hash, changes) == RingOf(hash, Survivors(changes))
    ensures forall node :: node in Survivors(changes) <==> Present(changes, node)
    decreases |changes|
  {
    SurvivorsArePresent(changes);
    hide NodePoints, Added, Removed, Present;
    if changes != [] {
      var init, last := changes[..|changes| - 1], changes[|changes| - 1];
      assert changes == init + [last];
      HistoryLeavesTheSurvivors(hash, init);
      match last {
        case Join(node) => RingOfAppend(hash, Survivors(init), node);
        case Leave(node) =>
          EarlierAreClear(hash, init, last);
          RemoveErasesFromHistory(hash, Survivors(init), node);
      }
    }
  }

  lemma PresentWasAdded(changes: seq<Change>, node: Node)
    requires Present(changes, node)
    ensures Join(node) in changes
  {
    SurvivorsArePresent(changes);
    SurvivorsWereAdded(changes, node);
  }

  /** And so the points of the ring are exactly those of the present nodes, each its own node's, in
      whatever order the nodes came and went. */
  lemma {:induction false} EachPointIsItsNodes(hash: Hash, changes: seq<Change>, p: int)
    requires Apart(hash, changes)
    ensures p in After(hash, changes) ==>
      Present(changes, After(hash, changes)[p]) && p in NodePoints(hash, After(hash, changes)[p])
    ensures forall node :: Present(changes, node) && p in NodePoints(hash, node) ==> p in After(hash, changes)
    decreases |changes|
  {
    hide NodePoints;
    if changes != [] {
      var init, last := changes[..|changes| - 1], changes[|changes| - 1];
      assert changes == init + [last];
      EachPointIsItsNodes(hash, init, p);
      forall node | Present(changes, node) && p in NodePoints(hash, node) ensures p in After(hash, changes) {
        if node != last.node {
          PresentWasAdded(init, node);
          assert Join(node) in changes && last in changes && Join(node).node == node;
          assert NodePoints(hash, node) !! NodePoints(hash, last.node);
        }
      }
    }
  }

  lemma AddOnePoint(ring: Ring, points: set<int>, point: int, node: Node)
    ensures Added(ring, points, node)[point := node] == Added(ring, points + {point}, node)
  {
  }

  lemma RemoveOnePoint(ring: Ring, points: set<int>, point: int)
    ensures Removed(ring, points) - {point} == Removed(ring, points + {point})
  {
  }

  lemma NothingAdded(ring: Ring, hash: Hash, node: Node)
    ensures Added(ring, Points(hash, node, 0), node) == ring
  {
    assert Points(hash, node, 0) == {};
  }

  lemma NothingRemoved(ring: Ring, hash: Hash, node: Node)
    ensures Removed(ring, Points(hash, node, 0)) == ring
  {
    assert Points(hash, node, 0) == {};
  }

  lemma OneMorePoint(hash: Hash, node: Node, n: nat)
    ensures Points(hash, node, n + 1) == Points(hash, node, n) + {Point(hash, node, n)}
  {
    assert Point(hash, node, n) in Points(hash, node, n + 1);
  }

  // ---- The class ----

  class HashRing {
    const hash: Hash
    var hashList: Ring

    constructor (hash: Hash)
      ensures this.hash == hash && hashList == map[]
    {
      this.hash := hash;
      hashList := map[];
    }

    method AddNode(node: Node)
      modifies this
      ensures hashList == Added(old(hashList), NodePoints(hash, node), node)
      ensures forall c :: Standing(hashList, c) <==> Standing(old(hashList), c) || HasCode(hash, node, c)
      ensures forall c :: HasCode(hash, node, c) ==> Standing(hashList, c) && hashList[-c] == node
    {
      NothingAdded(hashList, hash, node);
      AddedCodes(hashList, hash, node);
      hide Added, Points, Code;
      var i := 0;
      while i < REPLACEMENTS
        invariant 0 <= i <= REPLACEMENTS
        invariant hashList == Added(old(hashList), Points(hash, node, i), node)
      {
        var code := Code(hash, node + "_#" + Decimal(i));
        OneMorePoint(hash, node, i);
        AddOnePoint(old(hashList), Points(hash, node, i), -code, node);
        hashList := hashList[-code := node];
        i := i + 1;
      }
    }

    method RemoveNode(node: Node)
      modifies this
      ensures hashList == Removed(old(hashList), NodePoints(hash, node))
      ensures forall c :: Standing(hashList, c) <==> Standing(old(hashList), c) && !HasCode(hash, node, c)
    {
      NothingRemoved(hashList, hash, node);
      RemovedCodes(hashList, hash, node);
      hide Removed, Points, Code;
      var i := 0;
      while i < REPLACEMENTS
        invariant 0 <= i <= REPLACEMENTS
        invariant hashList == Removed(old(hashList), Points(hash, node, i))
      {
        var code := Code(hash, node + "_#" + Decimal(i));
        OneMorePoint(hash, node, i);
        RemoveOnePoint(old(hashList), Points(hash, node, i), -code);
        hashList := hashList - {-code};
        i := i + 1;
      }
    }

    /** None stands for the exception on an empty ring. */
    method GetNode(key: nat) returns (r: Option<Node>)
      ensures r == Owner(hashList, Code(hash, Decimal(key)))
      ensures r == None <==> hashList == map[]
      ensures r.Some? ==> exists c ::
        Serves(hashList, hash(Decimal(key)) % 0x1_0000_0000, c) && r == Some(hashList[-c])
    {
      OwnerServes(hashList, Code(hash, Decimal(key)));
      if hashList == map[] {
        return None;
      }
      var code := Code(hash, Decimal(key));
      SlotExists(hashList, code);
      var k :| k in hashList && IsSlot(hashList, code, k);
      OwnerIsAtSlot(hashList, code, k);
      return Some(hashList[k]);
    }
  }
}
