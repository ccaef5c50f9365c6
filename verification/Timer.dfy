/** The timer: an ordered set of due nodes, a lazy cancel list, and batches fired one by one. */
module Timer {
  import opened Bytes

  /** Ids keep the second of arming in 32 bits. */
  const SEQ_LIMIT: nat := 0x1_0000_0000

  datatype TimerId = TimerId(addr: nat, second: nat)

  /** `addr` is the address the allocator gave the record. */
  datatype TimeInfo<T> = TimeInfo(addr: nat, task: T, interval: nat, second: nat, repeating: bool) {
    function Id(): TimerId { TimerId(addr, second) }
  }

  datatype TimerNode<T> = TimerNode(due: int, info: TimeInfo<T>)

  function Second(now: nat): nat { now / 1000 % SEQ_LIMIT }

  /** Two readings of the clock give ids of the same second exactly when they lie a multiple of
      2^32 seconds apart. */
  lemma SecondsRecur(a: nat, b: nat)
    ensures Second(a) == Second(b) <==> (a / 1000 - b / 1000) % 0x1_0000_0000 == 0
  {
    var x, y := a / 1000, b / 1000;
    assert x == x / SEQ_LIMIT * SEQ_LIMIT + Second(a) && y == y / SEQ_LIMIT * SEQ_LIMIT + Second(b);
    var q := x / SEQ_LIMIT - y / SEQ_LIMIT;
    assert x - y == q * SEQ_LIMIT + (Second(a) - Second(b));
    hide Second;
    if (x - y) % SEQ_LIMIT == 0 {
      assert Second(a) - Second(b) == ((x - y) / SEQ_LIMIT - q) * SEQ_LIMIT;
    }
  }

  /** The order of the set: by time, then by address. */
  predicate Before<T>(a: TimerNode<T>, b: TimerNode<T>) {
    a.due < b.due || (a.due == b.due && a.info.addr < b.info.addr)
  }

  ghost predicate Sorted<T>(nodes: seq<TimerNode<T>>) {
    forall i, j :: 0 <= i < j < |nodes| ==> Before(nodes[i], nodes[j])
  }

  /** lower_bound: the first position that is not before the node. */
  function LowerBound<T>(nodes: seq<TimerNode<T>>, due: int, addr: nat): (k: nat)
    ensures k <= |nodes|
  {
    if nodes == [] || !(nodes[0].due < due || (nodes[0].due == due && nodes[0].info.addr < addr)) then 0
    else 1 + LowerBound(nodes[1..], due, addr)
  }

  /** emplace: nothing happens when an equal node is already there. */
  function Insert<T>(nodes: seq<TimerNode<T>>, node: TimerNode<T>): seq<TimerNode<T>> {
    var k := LowerBound(nodes, node.due, node.info.addr);
    if k < |nodes| && nodes[k].due == node.due && nodes[k].info.addr == node.info.addr then nodes
    else nodes[..k] + [node] + nodes[k..]
  }

  lemma {:induction false} LowerBoundSplits<T>(nodes: seq<TimerNode<T>>, due: int, addr: nat)
    requires Sorted(nodes)
    ensures var k := LowerBound(nodes, due, addr);
      && (forall i :: 0 <= i < k ==> nodes[i].due < due || (nodes[i].due == due && nodes[i].info.addr < addr))
      && (forall i :: k <= i < |nodes| ==> !(nodes[i].due < due || (nodes[i].due == due && nodes[i].info.addr < addr)))
  {
    if nodes != [] && (nodes[0].due < due || (nodes[0].due == due && nodes[0].info.addr < addr)) {
      LowerBoundSplits(nodes[1..], due, addr);
      assert forall i :: 1 <= i < |nodes| ==> nodes[i] == nodes[1..][i - 1];
    }
  }

  lemma InsertKeepsSorted<T>(nodes: seq<TimerNode<T>>, node: TimerNode<T>)
    requires Sorted(nodes)
    ensures Sorted(Insert(nodes, node))
  {
    LowerBoundSplits(nodes, node.due, node.info.addr);
  }

  /** The part of the set a tick takes: exactly the nodes due by now. */
  lemma DuePrefix<T>(nodes: seq<TimerNode<T>>, now: nat)
    requires Sorted(nodes)
    ensures var k := LowerBound(nodes, now + 1, 0);
      && (forall i :: 0 <= i < k ==> nodes[i].due <= now)
      && (forall i :: k <= i < |nodes| ==> nodes[i].due > now)
  {
    LowerBoundSplits(nodes, now + 1, 0);
  }

  // ---- The timer in use: steps of the clock, of its clients and of the firing loop ----

  function AddressesOf<T>(nodes: seq<TimerNode<T>>): set<nat> {
    set i | 0 <= i < |nodes| :: nodes[i].info.addr
  }

  /** `batch` is what a tick still has to look at, `firing` the node whose task is running. `start`
      and `clock` are the first and the latest reading of the clock. History: `issued` holds every
      id handed out, `doomed` the ids of living timers that were cancelled since they were armed. */
  datatype World<T> = World(
    timerSet: seq<TimerNode<T>>, cancelList: set<TimerId>,
    batch: seq<TimerNode<T>>, firing: seq<TimerNode<T>>, tick: nat,
    start: nat, clock: nat, issued: set<TimerId>, doomed: set<TimerId>)
  {
    /** The nodes whose records are alive. */
    function Live(): seq<TimerNode<T>> { firing + batch + timerSet }

    /** The nodes still to be looked at. */
    function Pending(): seq<TimerNode<T>> { batch + timerSet }

    function Addresses(): set<nat> { AddressesOf(Live()) }

    predicate Lives(id: TimerId) { exists i :: 0 <= i < |Live()| && Live()[i].info.Id() == id }
  }

  function Initial<T>(start: nat): World<T> { World([], {}, [], [], start, start, start, {}, {}) }

  /** AddTimer at clock reading `now`, with the address the allocator returned. */
  function Arm<T>(w: World<T>, now: nat, interval: int, task: T, repeating: bool, addr: nat): World<T> {
    var info := TimeInfo(addr, task, interval % SEQ_LIMIT, Second(now), repeating);
    w.(timerSet := Insert(w.timerSet, TimerNode(now + interval, info)), clock := now,
       issued := w.issued + {info.Id()})
  }

  lemma ArmFields<T>(w: World<T>, now: nat, interval: int, task: T, repeating: bool, addr: nat)
    ensures var w' := Arm(w, now, interval, task, repeating, addr);
      var info := TimeInfo(addr, task, interval % SEQ_LIMIT, Second(now), repeating);
      && w'.timerSet == Insert(w.timerSet, TimerNode(now + interval, info)) && w'.cancelList == w.cancelList
      && w'.batch == w.batch && w'.firing == w.firing && w'.clock == now
  {
  }

  function ArmedId(now: nat, addr: nat): TimerId { TimerId(addr, Second(now)) }

  function Cancel<T>(w: World<T>, id: TimerId): World<T> {
    w.(cancelList := w.cancelList + {id},
       doomed := if w.Lives(id) then w.doomed + {id} else w.doomed)
  }

  function Tick<T>(w: World<T>, now: nat): World<T> {
    var k := LowerBound(w.timerSet, now + 1, 0);
    w.(timerSet := w.timerSet[k..], batch := w.timerSet[..k], tick := now, clock := now)
  }

  /** Whether the next node of the batch is dropped. */
  predicate Skips<T>(w: World<T>)
    requires w.batch != []
  {
    w.batch[0].info.Id() in w.cancelList
  }

  function Process<T>(w: World<T>): World<T>
    requires w.batch != []
  {
    var id := w.batch[0].info.Id();
    if Skips(w) then w.(batch := w.batch[1..], cancelList := w.cancelList - {id}, doomed := w.doomed - {id})
    else w.(batch := w.batch[1..], firing := [w.batch[0]])
  }

  /** The end of a task: a repeating timer is put back, another one dies. */
  function Done<T>(w: World<T>): World<T>
    requires w.firing != []
  {
    var node := w.firing[0];
    if node.info.repeating then
      w.(firing := [], timerSet := Insert(w.timerSet, node.(due := w.tick + node.info.interval)))
    else w.(firing := [], doomed := w.doomed - {node.info.Id()})
  }

  datatype Event<T> =
    | ArmEvent(now: nat, interval: int, task: T, repeating: bool, addr: nat)
    | CancelEvent(id: TimerId)
    | TickEvent(now: nat)
    | ProcessEvent
    | DoneEvent

  /** Time does not go back, the allocator returns no address in use, clients cancel ids they were
      given, and a tick does not start inside another. */
  predicate Enabled<T>(w: World<T>, e: Event<T>) {
    match e
    case ArmEvent(now, _, _, _, addr) => now >= w.clock && addr !in w.Addresses()
    case CancelEvent(id) => id in w.issued
    case TickEvent(now) => now >= w.clock && w.batch == [] && w.firing == []
    case ProcessEvent => w.batch != [] && w.firing == []
    case DoneEvent => w.firing != []
  }

  function Next<T>(w: World<T>, e: Event<T>): World<T>
    requires Enabled(w, e)
  {
    match e
    case ArmEvent(now, interval, task, repeating, addr) => Arm(w, now, interval, task, repeating, addr)
    case CancelEvent(id) => Cancel(w, id)
    case TickEvent(now) => Tick(w, now)
    case ProcessEvent => Process(w)
    case DoneEvent => Done(w)
  }

  function Run<T>(w: World<T>, events: seq<Event<T>>): Option<World<T>>
    decreases events
  {
    if events == [] then Some(w)
    else if Enabled(w, events[0]) then Run(Next(w, events[0]), events[1..])
    else None
  }

  // ---- The invariant ----

  /** Armed late enough in its second that it is due in a later one. */
  predicate SafeArm(now: nat, interval: int) { now % 1000 + interval >= 1000 }

  /** Less than 2^32 seconds have passed since the start. */
  predicate InWindow<T>(w: World<T>) { w.start <= w.clock && w.clock / 1000 - w.start / 1000 < SEQ_LIMIT }

  /** How many seconds after the start the second of an id was, within the window. */
  function Rank(start: nat, second: nat): int { (second - start / 1000) % SEQ_LIMIT }

  lemma RankOfSecond(start: nat, now: nat)
    requires start <= now && now / 1000 - start / 1000 < SEQ_LIMIT
    ensures Rank(start, Second(now)) == now / 1000 - start / 1000
  {
    var a, b := now / 1000, start / 1000;
    var x, q := a % SEQ_LIMIT - b, a / SEQ_LIMIT;
    assert x == (a - b) - SEQ_LIMIT * q;
    assert x % SEQ_LIMIT == a - b;
  }

  ghost predicate DistinctAddresses<T>(nodes: seq<TimerNode<T>>) {
    forall i, j :: 0 <= i < j < |nodes| ==> nodes[i].info.addr != nodes[j].info.addr
  }

  /** A node due only in a later second than the one its id names. */
  ghost predicate DueLater<T>(start: nat, node: TimerNode<T>) {
    Rank(start, node.info.second) < node.due / 1000 - start / 1000
  }

  /** An id of an earlier second than the clock's, so that no new timer can get it. */
  ghost predicate Stale(start: nat, clock: nat, id: TimerId) {
    Rank(start, id.second) < clock / 1000 - start / 1000
  }

  /** What holds of set and batch whatever is armed, and when. */
  ghost predicate Layout<T>(w: World<T>) {
    && w.tick <= w.clock && |w.firing| <= 1 && Sorted(w.timerSet) && DistinctAddresses(w.Live())
    && (forall n :: n in w.firing + w.batch ==> n.due <= w.tick)
  }

  ghost predicate Shape<T>(w: World<T>) {
    w.start <= w.clock && Layout(w) && forall n :: n in w.Live() ==> DueLater(w.start, n)
  }

  ghost predicate Ids<T>(w: World<T>) {
    && (forall n :: n in w.Live() ==> n.info.Id() in w.issued)
    && w.cancelList <= w.issued
    && (forall id <- w.issued :: w.Lives(id) || Stale(w.start, w.clock, id))
  }

  /** A living timer is on the cancel list exactly when it was cancelled since it was armed. */
  ghost predicate CancelledIffDoomed<T>(w: World<T>) {
    && (forall n :: n in w.Live() ==> (n.info.Id() in w.cancelList <==> n.info.Id() in w.doomed))
    && (forall id <- w.doomed :: w.Lives(id))
  }

  ghost predicate Inv<T>(w: World<T>) { Shape(w) && Ids(w) && CancelledIffDoomed(w) }

  // ---- Arming ----

  lemma InsertForm<T>(nodes: seq<TimerNode<T>>, node: TimerNode<T>)
    requires forall i :: 0 <= i < |nodes| ==> nodes[i].info.addr != node.info.addr
    ensures var k := LowerBound(nodes, node.due, node.info.addr);
      Insert(nodes, node) == nodes[..k] + [node] + nodes[k..]
  {
  }

  lemma InsertedIn<T>(front: seq<TimerNode<T>>, nodes: seq<TimerNode<T>>, node: TimerNode<T>)
    requires forall i :: 0 <= i < |front + nodes| ==> (front + nodes)[i].info.addr != node.info.addr
    requires DistinctAddresses(front + nodes)
    ensures DistinctAddresses(front + Insert(nodes, node))
    ensures forall x :: x in front + Insert(nodes, node) <==> x in front + nodes || x == node
  {
    var k := LowerBound(nodes, node.due, node.info.addr);
    forall i | 0 <= i < |nodes|
      ensures nodes[i].info.addr != node.info.addr
    {
      assert (front + nodes)[|front| + i] == nodes[i];
    }
    InsertForm(nodes, node);
    CutIn(front, nodes, k, node);
    hide Insert, DistinctAddresses, LowerBound;
    Widened(front + nodes, |front| + k, node);
  }

  lemma CutIn<T>(front: seq<TimerNode<T>>, nodes: seq<TimerNode<T>>, k: nat, node: TimerNode<T>)
    requires k <= |nodes|
    ensures var all, m := front + nodes, |front| + k;
      front + (nodes[..k] + [node] + nodes[k..]) == all[..m] + [node] + all[m..]
  {
    var all, m := front + nodes, |front| + k;
    assert nodes == nodes[..k] + nodes[k..];
    assert all[..m] == front + nodes[..k] && all[m..] == nodes[k..];
  }

  lemma Widened<T>(all: seq<TimerNode<T>>, m: nat, node: TimerNode<T>)
    requires m <= |all| && DistinctAddresses(all)
    requires forall i :: 0 <= i < |all| ==> all[i].info.addr != node.info.addr
    ensures DistinctAddresses(all[..m] + [node] + all[m..])
    ensures forall x :: x in all[..m] + [node] + all[m..] <==> x in all || x == node
  {
    var wide := all[..m] + [node] + all[m..];
    assert forall i :: 0 <= i < |wide| ==> wide[i] == if i < m then all[i] else if i == m then node else all[i - 1];
    assert forall x :: x in all ==> x in all[..m] || x in all[m..];
  }

  lemma LivesByMembership<T>(w: World<T>, id: TimerId)
    ensures w.Lives(id) <==> exists n :: n in w.Live() && n.info.Id() == id
  {
    if n :| n in w.Live() && n.info.Id() == id {
      var i :| 0 <= i < |w.Live()| && w.Live()[i] == n;
    }
  }

  /** The id of a new timer was never handed out before, so it cannot be on the cancel list. */
  lemma NewIdIsNew<T>(w: World<T>, now: nat, addr: nat)
    requires Inv(w) && now >= w.clock && addr !in w.Addresses()
    requires now / 1000 - w.start / 1000 < SEQ_LIMIT
    ensures ArmedId(now, addr) !in w.issued && !w.Lives(ArmedId(now, addr))
    ensures ArmedId(now, addr) !in w.cancelList
  {
    RankOfSecond(w.start, now);
    assert forall i :: 0 <= i < |w.Live()| ==> w.Live()[i].info.addr in w.Addresses();
  }

  lemma ArmedElsewhere<T>(w: World<T>, addr: nat)
    requires addr !in w.Addresses()
    ensures forall i :: 0 <= i < |w.Live()| ==> w.Live()[i].info.addr != addr
  {
    forall i | 0 <= i < |w.Live()| ensures w.Live()[i].info.addr != addr {
      assert w.Live()[i].info.addr in w.Addresses();
    }
  }

  lemma ArmLive<T>(w: World<T>, now: nat, interval: int, task: T, repeating: bool, addr: nat)
    requires DistinctAddresses(w.Live()) && addr !in w.Addresses()
    ensures var w' := Arm(w, now, interval, task, repeating, addr);
      var node := TimerNode(now + interval, TimeInfo(addr, task, interval % SEQ_LIMIT, Second(now), repeating));
      DistinctAddresses(w'.Live()) && (forall n :: n in w'.Live() <==> n in w.Live() || n == node)
  {
    var node := TimerNode(now + interval, TimeInfo(addr, task, interval % SEQ_LIMIT, Second(now), repeating));
    ArmedElsewhere(w, addr);
    hide Insert, DistinctAddresses, World.Addresses, Second;
    InsertedIn(w.firing + w.batch, w.timerSet, node);
  }

  lemma ArmedDueLater<T>(start: nat, now: nat, interval: int, node: TimerNode<T>)
    requires start <= now && now / 1000 - start / 1000 < SEQ_LIMIT && SafeArm(now, interval)
    requires node.due == now + interval && node.info.second == Second(now)
    ensures DueLater(start, node)
  {
    RankOfSecond(start, now);
    hide Rank, Second;
    assert (now + interval) / 1000 > now / 1000;
  }

  lemma ArmLayout<T>(w: World<T>, now: nat, interval: int, task: T, repeating: bool, addr: nat)
    requires Layout(w) && now >= w.clock && addr !in w.Addresses()
    ensures var w' := Arm(w, now, interval, task, repeating, addr);
      var node := TimerNode(now + interval, TimeInfo(addr, task, interval % SEQ_LIMIT, Second(now), repeating));
      Layout(w') && (forall n :: n in w'.Live() <==> n in w.Live() || n == node)
  {
    var node := TimerNode(now + interval, TimeInfo(addr, task, interval % SEQ_LIMIT, Second(now), repeating));
    ArmLive(w, now, interval, task, repeating, addr);
    InsertKeepsSorted(w.timerSet, node);
    hide Insert, Sorted, DistinctAddresses, Second, World.Live, World.Addresses;
    ArmFields(w, now, interval, task, repeating, addr);
    assert Arm(w, now, interval, task, repeating, addr).tick == w.tick;
    hide Arm;
  }

  lemma ArmShape<T>(w: World<T>, now: nat, interval: int, task: T, repeating: bool, addr: nat)
    requires Inv(w) && now >= w.clock && addr !in w.Addresses() && SafeArm(now, interval)
    requires now / 1000 - w.start / 1000 < SEQ_LIMIT
    ensures var w' := Arm(w, now, interval, task, repeating, addr);
      var node := TimerNode(now + interval, TimeInfo(addr, task, interval % SEQ_LIMIT, Second(now), repeating));
      Shape(w') && (forall n :: n in w'.Live() <==> n in w.Live() || n == node)
  {
    var node := TimerNode(now + interval, TimeInfo(addr, task, interval % SEQ_LIMIT, Second(now), repeating));
    ArmLayout(w, now, interval, task, repeating, addr);
    ArmedDueLater(w.start, now, interval, node);
    hide Insert, Layout, DueLater, SafeArm, Second, Ids, CancelledIffDoomed, World.Live, World.Addresses;
    ArmFields(w, now, interval, task, repeating, addr);
    assert Arm(w, now, interval, task, repeating, addr).start == w.start;
    hide Arm;
  }

  /** One more living node, whose id is new. */
  lemma NewIds<T>(w: World<T>, w': World<T>, node: TimerNode<T>)
    requires Ids(w) && CancelledIffDoomed(w) && w'.start == w.start && w'.clock >= w.clock
    requires w'.issued == w.issued + {node.info.Id()} && w'.cancelList == w.cancelList && w'.doomed == w.doomed
    requires node.info.Id() !in w.issued && !w.Lives(node.info.Id())
    requires forall n :: n in w'.Live() <==> n in w.Live() || n == node
    ensures Ids(w') && CancelledIffDoomed(w')
  {
    hide Rank;
    forall id ensures w'.Lives(id) <==> w.Lives(id) || id == node.info.Id() {
      LivesByMembership(w, id);
      LivesByMembership(w', id);
      assert node in w'.Live();
    }
  }

  lemma ArmKeeps<T>(w: World<T>, now: nat, interval: int, task: T, repeating: bool, addr: nat)
    requires Inv(w) && now >= w.clock && addr !in w.Addresses() && SafeArm(now, interval)
    requires now / 1000 - w.start / 1000 < SEQ_LIMIT
    ensures Inv(Arm(w, now, interval, task, repeating, addr))
  {
    ArmShape(w, now, interval, task, repeating, addr);
    NewIdIsNew(w, now, addr);
    hide Insert, Shape, Second, Ids, CancelledIffDoomed, World.Live, World.Lives, SafeArm;
    NewIds(w, Arm(w, now, interval, task, repeating, addr),
      TimerNode(now + interval, TimeInfo(addr, task, interval % SEQ_LIMIT, Second(now), repeating)));
  }

  // ---- The other steps ----

  lemma CancelKeeps<T>(w: World<T>, id: TimerId)
    requires Inv(w) && id in w.issued
    ensures Inv(Cancel(w, id))
  {
    var w' := Cancel(w, id);
    assert w'.Live() == w.Live();
    LivesByMembership(w, id);
  }

  lemma CutAt<T>(nodes: seq<TimerNode<T>>, k: nat)
    requires k <= |nodes| && Sorted(nodes)
    ensures Sorted(nodes[k..])
  {
  }

  lemma TickLive<T>(w: World<T>, now: nat)
    requires w.batch == []
    ensures Tick(w, now).Live() == w.Live()
  {
    var k := LowerBound(w.timerSet, now + 1, 0);
    assert w.timerSet == w.timerSet[..k] + w.timerSet[k..];
  }

  lemma TickLayout<T>(w: World<T>, now: nat)
    requires Layout(w) && w.batch == [] && w.firing == []
    ensures Layout(Tick(w, now)) && Tick(w, now).Live() == w.Live()
  {
    CutAt(w.timerSet, LowerBound(w.timerSet, now + 1, 0));
    TickDue(w, now);
    TickLive(w, now);
    hide LowerBound, Sorted, DistinctAddresses, World.Live;
  }

  lemma TickDue<T>(w: World<T>, now: nat)
    requires Sorted(w.timerSet) && w.firing == []
    ensures forall n :: n in Tick(w, now).firing + Tick(w, now).batch ==> n.due <= now
  {
    DuePrefix(w.timerSet, now);
    assert Tick(w, now).firing + Tick(w, now).batch == Tick(w, now).batch;
  }

  lemma TickKeeps<T>(w: World<T>, now: nat)
    requires Inv(w) && now >= w.clock && w.batch == [] && w.firing == []
    ensures Inv(Tick(w, now)) && Tick(w, now).Live() == w.Live()
  {
    TickLayout(w, now);
    hide Layout, LowerBound, DueLater, Ids, CancelledIffDoomed;
    assert forall id :: Tick(w, now).Lives(id) <==> w.Lives(id);
    SameIds(w, Tick(w, now));
  }

  /** A batch is fired in the order in which its timers are due. */
  lemma BatchIsInOrder<T>(w: World<T>, now: nat)
    requires Inv(w)
    ensures Sorted(Tick(w, now).batch)
    ensures forall i, j :: 0 <= i < j < |Tick(w, now).batch| ==> Tick(w, now).batch[i].due <= Tick(w, now).batch[j].due
  {
    assert Sorted(w.timerSet);
    hide Inv;
  }

  /** Taking the first living node away, with its id. */
  lemma DropFirst<T>(w: World<T>, w': World<T>)
    requires Inv(w) && w.Live() != [] && w.Live()[0] in w.firing + w.batch
    requires w'.Live() == w.Live()[1..] && w'.timerSet == w.timerSet
    requires w'.start == w.start && w'.clock == w.clock && w'.tick == w.tick && w'.issued == w.issued
    requires w'.firing == [] && forall n :: n in w'.batch ==> n in w.batch
    requires w'.doomed == w.doomed - {w.Live()[0].info.Id()}
    requires w'.cancelList == w.cancelList || w'.cancelList == w.cancelList - {w.Live()[0].info.Id()}
    ensures Inv(w')
  {
    var first := w.Live()[0];
    assert w.Live() == [first] + w'.Live();
    OthersDiffer(w.Live(), first, w'.Live());
    DroppedIds(w, w', first);
    DroppedLayout(w, w');
    hide Layout, DueLater, Ids, CancelledIffDoomed, World.Live;
  }

  lemma DroppedLayout<T>(w: World<T>, w': World<T>)
    requires Layout(w) && w.Live() != [] && w'.Live() == w.Live()[1..] && w'.timerSet == w.timerSet
    requires w'.clock == w.clock && w'.tick == w.tick
    requires w'.firing == [] && forall n :: n in w'.batch ==> n in w.batch
    ensures Layout(w')
  {
    assert forall i :: 0 <= i < |w'.Live()| ==> w'.Live()[i] == w.Live()[i + 1];
    assert w'.firing + w'.batch == w'.batch;
    assert forall n :: n in w.batch ==> n in w.firing + w.batch;
    hide Sorted, World.Live;
  }

  /** The id of a node that is gone is of an earlier second than the clock's. */
  lemma DroppedIds<T>(w: World<T>, w': World<T>, first: TimerNode<T>)
    requires Shape(w) && Ids(w) && CancelledIffDoomed(w) && first in w.Live() && first in w.firing + w.batch
    requires forall n :: n in w'.Live() <==> n in w.Live() && n.info.Id() != first.info.Id()
    requires w'.start == w.start && w'.clock == w.clock && w'.issued == w.issued
    requires w'.doomed == w.doomed - {first.info.Id()}
    requires w'.cancelList == w.cancelList || w'.cancelList == w.cancelList - {first.info.Id()}
    ensures Ids(w') && CancelledIffDoomed(w')
  {
    assert DueLater(w.start, first) && first.due <= w.clock;
    assert Stale(w.start, w.clock, first.info.Id());
    hide Shape, DueLater, Stale, Rank;
    forall id ensures w'.Lives(id) <==> w.Lives(id) && id != first.info.Id() {
      LivesByMembership(w, id);
      LivesByMembership(w', id);
      hide World.Lives, World.Live;
    }
    hide World.Lives, World.Live;
  }

  lemma ProcessLayout<T>(w: World<T>)
    requires Layout(w) && w.batch != [] && w.firing == []
    ensures Layout(Process(w))
    ensures Process(w).Live() == if Skips(w) then w.Live()[1..] else w.Live()
  {
    var w' := Process(w);
    if Skips(w) {
      assert w'.Live() == w.Live()[1..];
      DroppedLayout(w, w');
    } else {
      assert w.batch == [w.batch[0]] + w.batch[1..];
      assert w'.firing + w'.batch == w.firing + w.batch;
      assert w'.Live() == w.Live();
    }
  }

  lemma ProcessKeeps<T>(w: World<T>)
    requires Inv(w) && w.batch != [] && w.firing == []
    ensures Inv(Process(w))
  {
    ProcessLayout(w);
    assert w.Live()[0] == w.batch[0];
    if Skips(w) {
      DropFirst(w, Process(w));
    }
  }

  lemma DoneLayout<T>(w: World<T>)
    requires Layout(w) && w.firing != [] && !w.firing[0].info.repeating
    ensures Layout(Done(w))
  {
    OnlyFiring(w);
    DoneDrops(w);
    DroppedLayout(w, Done(w));
  }

  lemma DoneKeeps<T>(w: World<T>)
    requires Inv(w) && w.firing != []
    ensures Inv(Done(w))
  {
    if w.firing[0].info.repeating {
      RearmKeeps(w);
    } else {
      OnlyFiring(w);
      DoneDrops(w);
      hide Inv, Done, World.Live;
      DropFirst(w, Done(w));
    }
  }

  lemma DoneDrops<T>(w: World<T>)
    requires w.firing != [] && !w.firing[0].info.repeating
    requires w.Live() == [w.firing[0]] + (w.batch + w.timerSet)
    ensures Done(w) == w.(firing := [], doomed := w.doomed - {w.Live()[0].info.Id()})
    ensures Done(w).Live() == w.Live()[1..]
  {
    assert Done(w).Live() == w.batch + w.timerSet;
  }

  lemma OnlyFiring<T>(w: World<T>)
    requires Layout(w) && w.firing != []
    ensures w.firing == [w.firing[0]] && w.Live() == [w.firing[0]] + (w.batch + w.timerSet)
    ensures w.Live()[0] in w.firing + w.batch
  {
    assert w.firing == [w.firing[0]];
  }

  /** A repeating timer that is put back: the same record, due later. */
  function Again<T>(w: World<T>): TimerNode<T>
    requires w.firing != []
  {
    w.firing[0].(due := w.tick + w.firing[0].info.interval)
  }

  lemma RearmShape<T>(w: World<T>)
    requires Shape(w) && w.firing != [] && w.firing[0].info.repeating
    ensures Shape(Done(w))
    ensures forall n :: n in Done(w).Live() <==> n == Again(w) || (n in w.Live() && n != w.firing[0])
  {
    var w', node, rest := Done(w), w.firing[0], w.batch + w.timerSet;
    RestOfLive(w);
    InsertedIn(w.batch, w.timerSet, Again(w));
    InsertKeepsSorted(w.timerSet, Again(w));
    hide Insert, Sorted, DistinctAddresses;
    assert node in w.firing + w.batch && node in w.Live();
    assert DueLater(w.start, node) && node.due <= Again(w).due;
    assert w'.Live() == w.batch + w'.timerSet;
    assert w'.firing + w'.batch == w.batch;
    assert forall n :: n in w.batch ==> n in w.firing + w.batch;
  }

  /** A new timer is due after its interval, and holds it, with the second in which it was armed. */
  lemma ArmsForItsInterval<T>(w: World<T>, now: nat, interval: nat, task: T, repeating: bool, addr: nat)
    requires addr !in w.Addresses() && interval < 0x1_0000_0000
    ensures var info := TimeInfo(addr, task, interval, now / 1000 % 0x1_0000_0000, repeating);
      && TimerNode(now + interval, info) in Arm(w, now, interval, task, repeating, addr).timerSet
      && ArmedId(now, addr) == info.Id()
  {
    assert interval % SEQ_LIMIT == interval;
    ArmedElsewhere(w, addr);
    var node := TimerNode(now + interval, TimeInfo(addr, task, interval, Second(now), repeating));
    assert forall i :: 0 <= i < |w.timerSet| ==> w.timerSet[i] == w.Live()[|w.firing + w.batch| + i];
    hide World.Live, World.Addresses, Insert, LowerBound;
    InsertAddsOne(w.timerSet, node);
  }

  /** A repeating timer that has fired is due again one interval after the tick that fired it; any
      other is gone. */
  lemma RepeatsAfterTheTick<T>(w: World<T>)
    requires Layout(w) && w.firing != []
    ensures var node, again := w.firing[0], w.firing[0].(due := w.tick + w.firing[0].info.interval);
      && Done(w).firing == [] && Done(w).batch == w.batch
      && (forall n :: n in Done(w).timerSet <==> n in w.timerSet || (node.info.repeating && n == again))
  {
    RestOfLive(w);
    assert forall i :: 0 <= i < |w.timerSet| ==> w.timerSet[i] == (w.batch + w.timerSet)[|w.batch| + i];
    hide World.Live, DistinctAddresses, Sorted, LowerBound, Insert, Layout;
    InsertAddsOne(w.timerSet, Again(w));
  }

  lemma InsertAddsOne<T>(nodes: seq<TimerNode<T>>, node: TimerNode<T>)
    requires forall i :: 0 <= i < |nodes| ==> nodes[i].info.addr != node.info.addr
    ensures forall n :: n in Insert(nodes, node) <==> n in nodes || n == node
  {
    var k := LowerBound(nodes, node.due, node.info.addr);
    InsertForm(nodes, node);
    hide Insert, LowerBound;
    assert nodes == nodes[..k] + nodes[k..];
  }

  /** What lives besides the node being fired. */
  lemma RestOfLive<T>(w: World<T>)
    requires |w.firing| == 1 && DistinctAddresses(w.Live())
    ensures w.Live() == w.firing + (w.batch + w.timerSet)
    ensures DistinctAddresses(w.batch + w.timerSet)
    ensures forall i :: 0 <= i < |w.batch + w.timerSet| ==> (w.batch + w.timerSet)[i].info.addr != w.firing[0].info.addr
    ensures forall n :: n in w.batch + w.timerSet <==> n in w.Live() && n != w.firing[0]
  {
    var rest := w.batch + w.timerSet;
    assert w.Live() == w.firing + rest;
    assert forall i :: 0 <= i < |rest| ==> rest[i] == w.Live()[i + 1];
    assert w.Live()[0] == w.firing[0];
  }

  /** The same ids alive, with the same fate. */
  lemma SameIds<T>(w: World<T>, w': World<T>)
    requires Ids(w) && CancelledIffDoomed(w) && w'.start == w.start && w'.clock >= w.clock
    requires w'.issued == w.issued && w'.cancelList == w.cancelList && w'.doomed == w.doomed
    requires forall id :: w'.Lives(id) <==> w.Lives(id)
    ensures Ids(w') && CancelledIffDoomed(w')
  {
    forall n | n in w'.Live()
      ensures n.info.Id() in w'.issued && (n.info.Id() in w'.cancelList <==> n.info.Id() in w'.doomed)
    {
      LivesByMembership(w', n.info.Id());
      LivesByMembership(w, n.info.Id());
    }
  }

  lemma RearmLives<T>(w: World<T>, id: TimerId)
    requires Shape(w) && w.firing != [] && w.firing[0].info.repeating
    ensures Done(w).Lives(id) <==> w.Lives(id)
  {
    RearmShape(w);
    var w', node := Done(w), w.firing[0];
    assert w.Live()[0] == node && node in w.Live();
    LivesByMembership(w, id);
    LivesByMembership(w', id);
    hide Shape, Insert, Done;
    if n :| n in w.Live() && n.info.Id() == id {
      assert (if n == node then Again(w) else n) in w'.Live();
    }
    if n :| n in w'.Live() && n.info.Id() == id {
      assert (if n == Again(w) then node else n) in w.Live();
    }
  }

  lemma RearmKeeps<T>(w: World<T>)
    requires Inv(w) && w.firing != [] && w.firing[0].info.repeating
    ensures Inv(Done(w))
  {
    RearmShape(w);
    hide Shape, Insert, Ids, CancelledIffDoomed;
    forall id ensures Done(w).Lives(id) <==> w.Lives(id) {
      RearmLives(w, id);
    }
    SameIds(w, Done(w));
  }

  // ---- What is pending after each step ----

  lemma PendingIndex<T>(w: World<T>, i: nat)
    requires i < |w.Pending()|
    ensures |w.firing| + i < |w.Live()| && w.Live()[|w.firing| + i] == w.Pending()[i]
  {
    assert w.Live() == w.firing + w.Pending();
  }

  lemma PendingIsUnique<T>(w: World<T>)
    requires Inv(w)
    ensures forall a, b :: a in w.Pending() && b in w.Pending() && a.info.Id() == b.info.Id() ==> a == b
    ensures forall n :: n in w.Pending() ==> n in w.Live() && n.info.Id() in w.issued
  {
    forall a, b | a in w.Pending() && b in w.Pending() && a.info.Id() == b.info.Id() ensures a == b {
      PendingSame(w, a, b);
    }
    forall n | n in w.Pending() ensures n in w.Live() && n.info.Id() in w.issued {
      var i :| 0 <= i < |w.Pending()| && w.Pending()[i] == n;
      PendingIndex(w, i);
    }
  }

  lemma PendingSame<T>(w: World<T>, a: TimerNode<T>, b: TimerNode<T>)
    requires DistinctAddresses(w.Live()) && a in w.Pending() && b in w.Pending() && a.info.Id() == b.info.Id()
    ensures a == b
  {
    var i :| 0 <= i < |w.Pending()| && w.Pending()[i] == a;
    var j :| 0 <= j < |w.Pending()| && w.Pending()[j] == b;
    PendingIndex(w, i);
    PendingIndex(w, j);
  }

  lemma PendingOnce<T>(w: World<T>, i: nat, j: nat)
    requires DistinctAddresses(w.Live()) && i < |w.Pending()| && j < |w.Pending()|
    requires w.Pending()[i].info.Id() == w.Pending()[j].info.Id()
    ensures i == j
  {
    assert w.Live() == w.firing + w.Pending();
    assert w.Live()[|w.firing| + i] == w.Pending()[i] && w.Live()[|w.firing| + j] == w.Pending()[j];
  }

  lemma PendingAddresses<T>(w: World<T>, addr: nat)
    requires DistinctAddresses(w.Live()) && addr !in w.Addresses()
    ensures DistinctAddresses(w.batch + w.timerSet)
    ensures forall i :: 0 <= i < |w.batch + w.timerSet| ==> (w.batch + w.timerSet)[i].info.addr != addr
  {
    var pending := w.batch + w.timerSet;
    assert w.Live() == w.firing + pending;
    assert forall i :: 0 <= i < |pending| ==> pending[i] == w.Live()[|w.firing| + i];
    forall i | 0 <= i < |pending| ensures pending[i].info.addr != addr {
      assert w.Live()[|w.firing| + i].info.addr in w.Addresses();
    }
  }

  lemma PendingAfterArm<T>(w: World<T>, now: nat, interval: int, task: T, repeating: bool, addr: nat)
    requires DistinctAddresses(w.Live()) && addr !in w.Addresses()
    ensures var node := TimerNode(now + interval, TimeInfo(addr, task, interval % SEQ_LIMIT, Second(now), repeating));
      forall n :: n in Arm(w, now, interval, task, repeating, addr).Pending() <==> n in w.Pending() || n == node
  {
    var node := TimerNode(now + interval, TimeInfo(addr, task, interval % SEQ_LIMIT, Second(now), repeating));
    PendingAddresses(w, addr);
    hide Insert, DistinctAddresses, World.Addresses;
    InsertedIn(w.batch, w.timerSet, node);
  }

  /** A new one-shot timer is one more node, living and pending. */
  lemma ArmAdds<T>(w: World<T>, w': World<T>, node: TimerNode<T>, now: nat, interval: int, task: T, addr: nat)
    requires Layout(w) && now >= w.clock && addr !in w.Addresses() && w' == Arm(w, now, interval, task, false, addr)
    requires node == TimerNode(now + interval, TimeInfo(addr, task, interval % SEQ_LIMIT, Second(now), false))
    ensures Layout(w') && w'.cancelList == w.cancelList
    ensures forall n :: n in w'.Live() <==> n in w.Live() || n == node
    ensures forall n :: n in w'.Pending() <==> n in w.Pending() || n == node
  {
    assert DistinctAddresses(w.Live());
    hide Arm, Layout, DistinctAddresses, Second, World.Live, World.Pending, World.Addresses;
    ArmLayout(w, now, interval, task, false, addr);
    PendingAfterArm(w, now, interval, task, false, addr);
    ArmFields(w, now, interval, task, false, addr);
  }

  lemma PendingAfterProcess<T>(w: World<T>)
    requires DistinctAddresses(w.Live()) && w.batch != [] && w.firing == []
    ensures w.Pending() == [w.batch[0]] + Process(w).Pending()
    ensures forall n :: n in Process(w).Pending() <==> n in w.Pending() && n.info.Id() != w.batch[0].info.Id()
  {
    ProcessTakesFirst(w);
    hide Process, World.Live, World.Pending;
    OthersDiffer(w.Live(), w.batch[0], Process(w).Pending());
  }

  lemma ProcessTakesFirst<T>(w: World<T>)
    requires w.batch != [] && w.firing == []
    ensures w.Pending() == [w.batch[0]] + Process(w).Pending() && w.Live() == w.Pending()
  {
    assert w.batch == [w.batch[0]] + w.batch[1..];
    assert w.Pending() == [w.batch[0]] + (w.batch[1..] + w.timerSet);
  }

  lemma OthersDiffer<T>(nodes: seq<TimerNode<T>>, first: TimerNode<T>, rest: seq<TimerNode<T>>)
    requires DistinctAddresses(nodes) && nodes == [first] + rest
    ensures forall n :: n in rest <==> n in nodes && n.info.Id() != first.info.Id()
  {
    assert forall i :: 0 <= i < |rest| ==> rest[i] == nodes[i + 1] && rest[i].info.addr != nodes[0].info.addr;
  }

  lemma PendingAfterTick<T>(w: World<T>, now: nat)
    requires w.batch == []
    ensures Tick(w, now).Pending() == w.Pending()
  {
    var k := LowerBound(w.timerSet, now + 1, 0);
    assert w.timerSet == w.timerSet[..k] + w.timerSet[k..];
  }

  /** A pending node that will not be dropped. */
  ghost predicate WillFire<T>(w: World<T>, n: TimerNode<T>) {
    n in w.Pending() && n.info.Id() !in w.cancelList
  }

  lemma WillFireAfterArm<T>(w: World<T>, now: nat, interval: int, task: T, repeating: bool, addr: nat)
    requires Inv(w) && now >= w.clock && addr !in w.Addresses() && now / 1000 - w.start / 1000 < SEQ_LIMIT
    ensures var node := TimerNode(now + interval, TimeInfo(addr, task, interval % SEQ_LIMIT, Second(now), repeating));
      forall n :: WillFire(Arm(w, now, interval, task, repeating, addr), n) <==> WillFire(w, n) || n == node
  {
    PendingAfterArm(w, now, interval, task, repeating, addr);
    NewIdIsNew(w, now, addr);
    assert Arm(w, now, interval, task, repeating, addr).cancelList == w.cancelList;
    hide Inv, Arm, World.Pending, World.Addresses, Second;
  }

  /** A new one-shot timer due in a later second keeps the invariant and is one more that will fire. */
  lemma ArmFires<T>(w: World<T>, w': World<T>, node: TimerNode<T>, now: nat, interval: int, task: T, addr: nat)
    requires Inv(w) && now >= w.clock && addr !in w.Addresses() && SafeArm(now, interval)
    requires now / 1000 - w.start / 1000 < SEQ_LIMIT && w' == Arm(w, now, interval, task, false, addr)
    requires node == TimerNode(now + interval, TimeInfo(addr, task, interval % SEQ_LIMIT, Second(now), false))
    ensures Inv(w') && forall n :: WillFire(w', n) <==> WillFire(w, n) || n == node
  {
    hide Inv, Arm, Second, SafeArm, WillFire, World.Addresses;
    ArmKeeps(w, now, interval, task, false, addr);
    WillFireAfterArm(w, now, interval, task, false, addr);
  }

  lemma WillFireAfterCancel<T>(w: World<T>, id: TimerId)
    ensures Cancel(w, id).Live() == w.Live()
    ensures forall n :: WillFire(Cancel(w, id), n) <==> WillFire(w, n) && n.info.Id() != id
  {
    assert Cancel(w, id).Pending() == w.Pending();
  }

  /** Dropping a node changes nothing for the others. */
  lemma WillFireAfterSkip<T>(w: World<T>)
    requires DistinctAddresses(w.Live()) && w.batch != [] && w.firing == [] && Skips(w)
    ensures forall n :: WillFire(Process(w), n) <==> WillFire(w, n)
  {
    PendingAfterProcess(w);
    assert Process(w).cancelList == w.cancelList - {w.batch[0].info.Id()};
    hide Process, World.Pending, DistinctAddresses;
  }

  /** Taking a node to fire it takes just that one. */
  lemma WillFireAfterProcess<T>(w: World<T>)
    requires DistinctAddresses(w.Live()) && w.batch != [] && w.firing == [] && !Skips(w)
    ensures WillFire(w, w.batch[0])
    ensures forall n :: WillFire(Process(w), n) <==> WillFire(w, n) && n.info.Id() != w.batch[0].info.Id()
  {
    PendingAfterProcess(w);
    assert Process(w).cancelList == w.cancelList && w.batch[0] in w.Pending();
    hide Process, World.Pending, DistinctAddresses;
  }

  lemma ProcessLives<T>(w: World<T>)
    requires w.batch != [] && w.firing == []
    ensures forall n :: n in Process(w).Live() ==> n in w.Live()
  {
    assert w.batch == [w.batch[0]] + w.batch[1..];
    assert w.Live() == [w.batch[0]] + (w.batch[1..] + w.timerSet);
    assert Process(w).Live() == Process(w).firing + (w.batch[1..] + w.timerSet);
  }

  lemma WillFireAfterTick<T>(w: World<T>, now: nat)
    requires w.batch == [] && w.firing == []
    ensures forall n :: WillFire(Tick(w, now), n) <==> WillFire(w, n)
  {
    PendingAfterTick(w, now);
    hide LowerBound, World.Pending;
  }

  lemma WillFireAfterDone<T>(w: World<T>)
    requires |w.firing| == 1 && !w.firing[0].info.repeating
    ensures forall n :: WillFire(Done(w), n) <==> WillFire(w, n)
    ensures forall n :: n in Done(w).Live() ==> n in w.Live()
  {
    assert Done(w).Pending() == w.Pending();
    assert w.Live() == w.firing + w.Pending() && Done(w).Live() == w.Pending();
  }

  // ---- Every run ----

  predicate Safe<T>(e: Event<T>) { e.ArmEvent? ==> SafeArm(e.now, e.interval) }

  lemma NextKeeps<T>(w: World<T>, e: Event<T>)
    requires Inv(w) && Enabled(w, e) && Safe(e) && InWindow(Next(w, e))
    ensures Inv(Next(w, e))
  {
    hide Inv;
    match e
    case ArmEvent(now, interval, task, repeating, addr) => ArmKeeps(w, now, interval, task, repeating, addr);
    case CancelEvent(id) => CancelKeeps(w, id);
    case TickEvent(now) => TickKeeps(w, now);
    case ProcessEvent => ProcessKeeps(w);
    case DoneEvent => DoneKeeps(w);
  }

  lemma {:induction false} RunMovesClock<T>(w: World<T>, events: seq<Event<T>>)
    requires Run(w, events).Some?
    ensures Run(w, events).value.start == w.start && Run(w, events).value.clock >= w.clock
    decreases events
  {
    if events != [] {
      RunMovesClock(Next(w, events[0]), events[1..]);
    }
  }

  lemma {:induction false} RunKeeps<T>(w: World<T>, events: seq<Event<T>>)
    requires Inv(w) && Run(w, events).Some? && InWindow(Run(w, events).value)
    requires forall i :: 0 <= i < |events| ==> Safe(events[i])
    ensures Inv(Run(w, events).value)
    decreases events
  {
    hide Inv;
    if events != [] {
      var w1 := Next(w, events[0]);
      RunMovesClock(w, [events[0]]);
      RunMovesClock(w1, events[1..]);
      StartBeforeClock(w);
      assert Safe(events[0]);
      NextKeeps(w, events[0]);
      RunKeeps(w1, events[1..]);
    }
  }

  lemma StartBeforeClock<T>(w: World<T>)
    requires Inv(w)
    ensures w.start <= w.clock
  {
  }

  /** In every run whose timers are armed late enough in their second, whatever addresses the
      allocator reuses and whatever the clients cancel and when: a living timer is on the cancel
      list, and so will be dropped, exactly when it was cancelled since it was armed. */
  lemma NoLiveTimerIsSwallowed<T>(start: nat, events: seq<Event<T>>)
    requires Run(Initial(start), events).Some? && InWindow(Run(Initial(start), events).value)
    requires forall i :: 0 <= i < |events| ==> Safe(events[i])
    ensures CancelledIffDoomed(Run(Initial(start), events).value)
  {
    RunKeeps(Initial(start), events);
  }

  /** A living timer that nobody cancelled stands on the cancel list. */
  ghost predicate Swallows<T>(w: World<T>) {
    exists n :: n in w.Live() && n.info.Id() in w.cancelList && n.info.Id() !in w.doomed
  }

  /** The run that goes wrong: a timer fires in the second it was armed in, its task cancels it as
      CoTask does, and a timer armed in that second gets the freed address. */
  function ShortRun<T>(task: T, now: nat, interval: int): seq<Event<T>> {
    var late := if interval < 0 then now else now + interval;
    [ArmEvent(now, interval, task, false, 0), TickEvent(late), ProcessEvent,
     CancelEvent(ArmedId(now, 0)), DoneEvent, ArmEvent(late, 1000, task, false, 0)]
  }

  /** Up to the death of the first timer: its id stays on the cancel list. */
  lemma {:induction false} ShortRunLeavesId<T>(task: T, now: nat, interval: int)
    requires !SafeArm(now, interval)
    ensures var late := if interval < 0 then now else now + interval;
      Run(Initial(now), ShortRun(task, now, interval)[..5]) ==
        Some(World([], {ArmedId(now, 0)}, [], [], late, now, late, {ArmedId(now, 0)}, {}))
  {
    var e, late := ShortRun(task, now, interval), if interval < 0 then now else now + interval;
    var w0: World<T> := Initial(now);
    var w1 := Next(w0, e[0]);
    assert w1.timerSet == [TimerNode(now + interval, TimeInfo(0, task, interval % SEQ_LIMIT, Second(now), false))];
    var w2 := Next(w1, e[1]);
    assert w2.batch == w1.timerSet && w2.timerSet == [];
    var w3 := Next(w2, e[2]);
    assert w3.firing == w1.timerSet && w3.batch == [];
    var w4 := Next(w3, e[3]);
    assert w4.Live() == w1.timerSet && w4.cancelList == {ArmedId(now, 0)};
    assert Next(w4, e[4]) == World([], {ArmedId(now, 0)}, [], [], late, now, late, {ArmedId(now, 0)}, {});
    RunFive(w0, e[0], e[1], e[2], e[3], e[4]);
    assert e[..5] == [e[0], e[1], e[2], e[3], e[4]];
  }

  lemma {:induction false} RunFive<T>(w: World<T>, a: Event<T>, b: Event<T>, c: Event<T>, d: Event<T>, e: Event<T>)
    requires Enabled(w, a) && Enabled(Next(w, a), b) && Enabled(Next(Next(w, a), b), c)
    requires Enabled(Next(Next(Next(w, a), b), c), d) && Enabled(Next(Next(Next(Next(w, a), b), c), d), e)
    ensures Run(w, [a, b, c, d, e]) == Some(Next(Next(Next(Next(Next(w, a), b), c), d), e))
  {
    hide Next, Enabled;
    assert [a, b, c, d, e][1..] == [b, c, d, e] && [b, c, d, e][1..] == [c, d, e];
    assert [c, d, e][1..] == [d, e] && [d, e][1..] == [e] && [e][1..] == [];
    var w4 := Next(Next(Next(Next(w, a), b), c), d);
    assert Run(w4, [e]) == Run(Next(w4, e), []);
    assert Run(Next(Next(w, a), b), [c, d, e]) == Run(w4, [e]);
  }

  lemma {:induction false} RunSplits<T>(w: World<T>, first: seq<Event<T>>, second: seq<Event<T>>)
    requires Run(w, first).Some?
    ensures Run(w, first + second) == Run(Run(w, first).value, second)
    decreases first
  {
    if first == [] {
      assert first + second == second;
    } else {
      assert (first + second)[1..] == first[1..] + second;
      RunSplits(Next(w, first[0]), first[1..], second);
    }
  }

  /** The last step: the new timer gets the id on the cancel list. */
  lemma ReusedIdIsSwallowed<T>(task: T, now: nat, late: nat)
    requires late / 1000 == now / 1000 && now <= late
    ensures var w := World([], {ArmedId(now, 0)}, [], [], late, now, late, {ArmedId(now, 0)}, {});
      var e := ArmEvent(late, 1000, task, false, 0);
      Enabled(w, e) && InWindow(Next(w, e)) && Swallows(Next(w, e))
  {
    var w: World<T> := World([], {ArmedId(now, 0)}, [], [], late, now, late, {ArmedId(now, 0)}, {});
    var w' := Next(w, ArmEvent(late, 1000, task, false, 0));
    assert w'.timerSet == [TimerNode(late + 1000, TimeInfo(0, task, 1000, Second(late), false))];
    assert w'.Live()[0].info.Id() == ArmedId(now, 0);
  }

  lemma {:induction false} ShortRunSwallows<T>(task: T, now: nat, interval: int)
    requires !SafeArm(now, interval)
    ensures Run(Initial(now), ShortRun(task, now, interval)).Some?
    ensures var w := Run(Initial(now), ShortRun(task, now, interval)).value; InWindow(w) && Swallows(w)
  {
    var e, late := ShortRun(task, now, interval), if interval < 0 then now else now + interval;
    assert late / 1000 == now / 1000;
    ShortRunLeavesId(task, now, interval);
    RunSplits(Initial(now), e[..5], [e[5]]);
    assert e == e[..5] + [e[5]];
    ReusedIdIsSwallowed(task, now, late);
    hide Next, Enabled, InWindow, Swallows;
    var w5 := Run(Initial(now), e[..5]).value;
    assert Run(w5, [e[5]]) == Run(Next(w5, e[5]), [e[5]][1..]);
  }

  ghost predicate SafeOr<T>(events: seq<Event<T>>, now: nat, interval: int) {
    forall i :: 0 <= i < |events| && events[i].ArmEvent? ==>
      SafeArm(events[i].now, events[i].interval) || (events[i].now == now && events[i].interval == interval)
  }

  /** Arming at `now` for `interval` milliseconds can never get a timer swallowed, in any run
      together with safe timers, exactly when it is due in a later second. */
  lemma SafeExactlyWhenDueLater<T(!new)>(task: T, now: nat, interval: int)
    ensures SafeArm(now, interval) <==>
      forall start: nat, events: seq<Event<T>> ::
        SafeOr(events, now, interval)
        && Run(Initial(start), events).Some? && InWindow(Run(Initial(start), events).value)
        ==> !Swallows(Run(Initial(start), events).value)
  {
    if SafeArm(now, interval) {
      forall start: nat, events: seq<Event<T>> | SafeOr(events, now, interval)
        && Run(Initial(start), events).Some? && InWindow(Run(Initial(start), events).value)
        ensures !Swallows(Run(Initial(start), events).value)
      {
        NoLiveTimerIsSwallowed(start, events);
      }
    } else {
      ShortRunSwallows(task, now, interval);
      assert SafeOr(ShortRun(task, now, interval), now, interval);
    }
  }

  /** A timeout of a second or more is safe whenever it is armed. */
  lemma OneSecondIsSafe(now: nat, interval: int)
    requires interval >= 1000
    ensures SafeArm(now, interval)
  {
  }

  // ---- The class ----

  class Timer<T> {
    var timerSet: seq<TimerNode<T>>
    var cancelList: set<TimerId>

    constructor ()
      ensures timerSet == [] && cancelList == {}
    {
      timerSet, cancelList := [], {};
    }

    method AddTimer(now: nat, interval: int, task: T, repeating: bool, addr: nat) returns (id: TimerId)
      modifies this`timerSet
      ensures id == ArmedId(now, addr)
      ensures var info := TimeInfo(addr, task, interval % SEQ_LIMIT, id.second, repeating);
        timerSet == Insert(old(timerSet), TimerNode(now + interval, info))
    {
      var t := TimeInfo(addr, task, interval % SEQ_LIMIT, Second(now), repeating);
      timerSet := Insert(timerSet, TimerNode(now + interval, t));
      return t.Id();
    }

    method CancelTimer(id: TimerId)
      modifies this`cancelList
      ensures cancelList == old(cancelList) + {id}
    {
      cancelList := cancelList + {id};
    }

    /** The nodes due by now leave the set as one batch, in firing order. */
    method TakeDue(now: nat) returns (batch: seq<TimerNode<T>>)
      modifies this`timerSet
      ensures batch + timerSet == old(timerSet) && |batch| == LowerBound(old(timerSet), now + 1, 0)
      ensures Sorted(old(timerSet)) ==> forall n :: n in old(timerSet) ==> (n in batch <==> n.due <= now)
    {
      ghost var was := timerSet;
      var end := LowerBound(timerSet, now + 1, 0);
      batch := timerSet[..end];
      timerSet := timerSet[end..];
      assert batch + timerSet == was;
      if Sorted(was) {
        DuePrefix(was, now);
        assert forall n :: n in was ==> n in batch || n in timerSet;
      }
    }

    /** The look-up in the cancel list; a match is used up. */
    method ConsumeCancel(node: TimerNode<T>) returns (cancelled: bool)
      modifies this`cancelList
      ensures cancelled <==> node.info.Id() in old(cancelList)
      ensures cancelList == old(cancelList) - {node.info.Id()}
    {
      cancelled := node.info.Id() in cancelList;
      if cancelled {
        cancelList := cancelList - {node.info.Id()};
      }
    }

    method Rearm(now: nat, node: TimerNode<T>)
      modifies this`timerSet
      ensures timerSet == if node.info.repeating
        then Insert(old(timerSet), node.(due := now + node.info.interval)) else old(timerSet)
    {
      if node.info.repeating {
        timerSet := Insert(timerSet, node.(due := now + node.info.interval));
      }
    }
  }
}
