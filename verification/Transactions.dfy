/** TransMgr: pools of transaction objects, one for each command, and the messages that start a
    transaction in a coroutine of its own or wake one that waits. */
module Transactions {
  import opened Bytes
  import opened Coroutines
  import T = Timer

  // ---- Operations ----

  /** The objects of a pool, the next to be taken last. */
  function IdleOf(s: Rt, cmd: nat): seq<nat> { if cmd in s.idle then s.idle[cmd] else [] }

  /** RegisterCmd: refused if the map has a pool for the command, even an empty one; no pool is
      made when the count is not positive. */
  function Register(s: Rt, cmd: nat, count: int): (Rt, bool) {
    if cmd in s.idle then (s, false)
    else if count <= 0 then (s, true)
    else (s.(idle := s.idle[cmd := seq(count, i => i)]), true)
  }

  /** The last object of a pool, handed to a new coroutine. */
  function Take(s: Rt, cmd: nat): Rt
    requires IdleOf(s, cmd) != []
  {
    var all := s.idle[cmd];
    NewCoroutine(s.(idle := s.idle[cmd := all[..|all| - 1]]), Transaction(cmd, all[|all| - 1]))
  }

  /** OnMsg. Looking for the pool of an unknown command makes an empty one. */
  function OnMsg(s: Rt, env: Env, cmd: nat, coId: nat, msg: nat): (Rt, int) {
    if coId == 0 then
      var s0 := s.(idle := s.idle[cmd := IdleOf(s, cmd)]);
      if IdleOf(s0, cmd) == [] then (s0, -1)
      else (ResumeOne(Take(s0, cmd), env, NextCoId(s0), ByMessage(msg)), 0)
    else if coId !in s.active then (s, -1)
    else (ResumeOne(s, env, coId, ByMessage(msg)), 0)
  }

  // ---- Every transaction has one place ----

  predicate Owns(s: Rt, k: nat, cmd: nat, id: nat) {
    k in s.active && s.active[k].task == Some(Transaction(cmd, id))
  }

  /** The coroutines that hold a transaction of the command. */
  function Owners(s: Rt, cmd: nat): set<nat> {
    set k <- s.active |
      s.active[k].task.Some? && s.active[k].task.value.Transaction? && s.active[k].task.value.cmd == cmd
  }

  ghost predicate Distinct(ids: seq<nat>) { forall i, j :: 0 <= i < j < |ids| ==> ids[i] != ids[j] }

  /** Of the n objects registered for a command each is idle once, or owned by one coroutine. */
  ghost predicate Placed(s: Rt, cmd: nat, n: nat) {
    && Distinct(IdleOf(s, cmd))
    && (forall id <- IdleOf(s, cmd) :: id < n)
    && (forall k: nat, id: nat :: Owns(s, k, cmd, id) ==> id < n && id !in IdleOf(s, cmd))
    && (forall j: nat, k: nat, id: nat :: Owns(s, j, cmd, id) && Owns(s, k, cmd, id) ==> j == k)
    && (forall id: nat :: id < n ==> id in IdleOf(s, cmd) || exists k :: Owns(s, k, cmd, id))
    && |IdleOf(s, cmd)| + |Owners(s, cmd)| == n
  }

  lemma OwnersOwn(s: Rt, cmd: nat, k: nat)
    ensures k in Owners(s, cmd) <==> exists id :: Owns(s, k, cmd, id)
  {
    if k in Owners(s, cmd) {
      assert Owns(s, k, cmd, s.active[k].task.value.id);
    }
  }

  // ---- What a step does to one pool ----

  /** Nothing that concerns the pool of the command has changed. */
  ghost predicate SamePool(s: Rt, s': Rt, cmd: nat) {
    && IdleOf(s', cmd) == IdleOf(s, cmd)
    && (forall k: nat, id: nat :: Owns(s', k, cmd, id) <==> Owns(s, k, cmd, id))
  }

  lemma SamePoolPlaced(s: Rt, s': Rt, cmd: nat, n: nat)
    requires SamePool(s, s', cmd) && Placed(s, cmd, n)
    ensures Placed(s', cmd, n)
  {
    forall k ensures k in Owners(s', cmd) <==> k in Owners(s, cmd) {
      OwnersOwn(s, cmd, k);
      OwnersOwn(s', cmd, k);
    }
    assert Owners(s', cmd) == Owners(s, cmd);
    forall id: nat | id < n ensures id in IdleOf(s', cmd) || exists k :: Owns(s', k, cmd, id) {
      if id !in IdleOf(s, cmd) {
        var k :| Owns(s, k, cmd, id);
        assert Owns(s', k, cmd, id);
      }
    }
  }

  /** Coroutine c takes the last idle object. */
  lemma TakenPlaced(s: Rt, s': Rt, cmd: nat, n: nat, c: nat)
    requires Placed(s, cmd, n) && IdleOf(s, cmd) != []
    requires IdleOf(s', cmd) == IdleOf(s, cmd)[..|IdleOf(s, cmd)| - 1]
    requires forall id :: !Owns(s, c, cmd, id)
    requires var last := IdleOf(s, cmd)[|IdleOf(s, cmd)| - 1];
      forall k, id :: Owns(s', k, cmd, id) <==> Owns(s, k, cmd, id) || (k == c && id == last)
    ensures Placed(s', cmd, n)
  {
    var all, idle := IdleOf(s, cmd), IdleOf(s', cmd);
    var last := all[|all| - 1];
    AllButLast(all);
    TakenOwners(s, s', cmd, c, last);
    hide IdleOf, Owners;
    forall id: nat | id < n ensures id in idle || exists k :: Owns(s', k, cmd, id) {
      if id == last {
        assert Owns(s', c, cmd, id);
      } else if id !in all {
        var k :| Owns(s, k, cmd, id);
        assert Owns(s', k, cmd, id);
      }
    }
  }

  lemma AllButLast(all: seq<nat>)
    requires all != [] && Distinct(all)
    ensures var last, idle := all[|all| - 1], all[..|all| - 1];
      Distinct(idle) && last in all && forall id :: id in idle <==> id in all && id != last
  {
    var last, idle := all[|all| - 1], all[..|all| - 1];
    assert all == idle + [last];
    assert forall i :: 0 <= i < |idle| ==> idle[i] == all[i] && idle[i] != last;
  }

  lemma TakenOwners(s: Rt, s': Rt, cmd: nat, c: nat, last: nat)
    requires forall id :: !Owns(s, c, cmd, id)
    requires forall k, id :: Owns(s', k, cmd, id) <==> Owns(s, k, cmd, id) || (k == c && id == last)
    ensures |Owners(s', cmd)| == |Owners(s, cmd)| + 1
  {
    assert Owns(s', c, cmd, last);
    forall k ensures k in Owners(s', cmd) <==> k in Owners(s, cmd) || k == c {
      OwnersOwn(s, cmd, k);
      OwnersOwn(s', cmd, k);
    }
    OwnersOwn(s, cmd, c);
    assert Owners(s', cmd) == Owners(s, cmd) + {c};
  }

  /** Coroutine c gives its object back. */
  lemma ReturnedPlaced(s: Rt, s': Rt, cmd: nat, n: nat, c: nat, given: nat)
    requires Placed(s, cmd, n) && Owns(s, c, cmd, given)
    requires IdleOf(s', cmd) == IdleOf(s, cmd) + [given]
    requires forall k, id :: Owns(s', k, cmd, id) <==> Owns(s, k, cmd, id) && k != c
    ensures Placed(s', cmd, n)
  {
    forall k ensures k in Owners(s', cmd) <==> k in Owners(s, cmd) && k != c {
      OwnersOwn(s, cmd, k);
      OwnersOwn(s', cmd, k);
      if k in Owners(s, cmd) && k != c {
        var id :| Owns(s, k, cmd, id);
        assert Owns(s', k, cmd, id);
      }
    }
    OwnersOwn(s, cmd, c);
    assert Owners(s', cmd) == Owners(s, cmd) - {c};
    forall k: nat, id: nat | Owns(s', k, cmd, id) ensures id < n && id !in IdleOf(s', cmd) {
      assert Owns(s, k, cmd, id);
    }
    forall id: nat | id < n ensures id in IdleOf(s', cmd) || exists k :: Owns(s', k, cmd, id) {
      if id != given && id !in IdleOf(s, cmd) {
        var k :| Owns(s, k, cmd, id);
        assert Owns(s', k, cmd, id);
      }
    }
  }

  // ---- Turns of coroutines ----

  lemma FreePlaced(s: Rt, c: nat, cmd: nat, n: nat)
    requires Placed(s, cmd, n)
    ensures Placed(FreeCoroutine(s, c), cmd, n)
  {
    var s' := FreeCoroutine(s, c);
    hide Placed;
    if c in s.active && s.active[c].task.Some? && s.active[c].task.value.Transaction? {
      assert Owns(s, c, s.active[c].task.value.cmd, s.active[c].task.value.id);
    }
    if c !in s.active {
    } else if given :| Owns(s, c, cmd, given) {
      ReturnedPlaced(s, s', cmd, n, c, given);
    } else {
      assert forall k, id :: Owns(s', k, cmd, id) <==> Owns(s, k, cmd, id);
      SamePoolPlaced(s, s', cmd, n);
    }
  }

  /** The object given back last is the next one taken. */
  lemma LastReturnedIsNextTaken(s: Rt, c: nat, cmd: nat, id: nat)
    requires Owns(s, c, cmd, id)
    ensures var freed := FreeCoroutine(s, c);
      && IdleOf(freed, cmd) != [] && Owns(Take(freed, cmd), NextCoId(freed), cmd, id)
      && IdleOf(Take(freed, cmd), cmd) == IdleOf(s, cmd)
  {
    var freed, was := FreeCoroutine(s, c), IdleOf(s, cmd);
    assert freed.idle == s.idle[cmd := was + [id]];
    hide FreeCoroutine, NewCoroutine, NextCoId;
    assert (was + [id])[..|was|] == was && (was + [id])[|was|] == id;
    TakesTheLast(freed, cmd, was, id);
  }

  lemma TakesTheLast(s: Rt, cmd: nat, was: seq<nat>, id: nat)
    requires cmd in s.idle && s.idle[cmd] == was + [id]
    ensures Owns(Take(s, cmd), NextCoId(s), cmd, id) && IdleOf(Take(s, cmd), cmd) == was
  {
    var s' := s.(idle := s.idle[cmd := was]);
    assert s.idle[cmd][..|was|] == was && s.idle[cmd][|was|] == id;
    assert Take(s, cmd) == NewCoroutine(s', Transaction(cmd, id)) && NextCoId(s') == NextCoId(s);
    NewTaskIsActive(s', Transaction(cmd, id));
    assert NewCoroutine(s', Transaction(cmd, id)).idle == s'.idle;
    hide NewCoroutine, NextCoId;
  }

  /** Same idle objects, and every coroutine keeps its task. */
  predicate SameOwners(s: Rt, s': Rt) {
    && s'.idle == s.idle && s'.active.Keys == s.active.Keys
    && forall k <- s.active :: s'.active[k].task == s.active[k].task
  }

  lemma SameOwnersPlaced(s: Rt, s': Rt, cmd: nat, n: nat)
    requires SameOwners(s, s') && Placed(s, cmd, n)
    ensures Placed(s', cmd, n)
  {
    hide Placed;
    assert forall k :: k in s'.active <==> k in s.active by {
      assert forall k :: k in s'.active <==> k in s'.active.Keys;
    }
    SamePoolPlaced(s, s', cmd, n);
  }

  lemma EntersWithItsTask(s: Rt, c: nat, how: How)
    ensures SameOwners(s, CancelTimer(s, c))
    ensures c in s.active ==> SameOwners(s, Enter(CancelTimer(s, c), c, how))
  {
    hide T.Cancel;
  }

  lemma ResumeOnePlaced(s: Rt, env: Env, c: nat, how: How, cmd: nat, n: nat)
    requires Placed(s, cmd, n)
    ensures Placed(ResumeOne(s, env, c, how), cmd, n)
  {
    EntersWithItsTask(s, c, how);
    assert CancelTimer(s, c).active == s.active;
    hide Placed, CancelTimer, Leave, Enter, SameOwners;
    if c in s.active {
      SameOwnersPlaced(s, Enter(CancelTimer(s, c), c, how), cmd, n);
      LeavePlaced(Enter(CancelTimer(s, c), c, how), env, c, cmd, n);
    } else {
      SameOwnersPlaced(s, CancelTimer(s, c), cmd, n);
    }
  }

  lemma LeavePlaced(s: Rt, env: Env, c: nat, cmd: nat, n: nat)
    requires Placed(s, cmd, n) && c in s.active
    ensures Placed(Leave(s, env, c), cmd, n)
  {
    hide Placed, FreeCoroutine, T.Arm;
    match env.behave(s.turns) {
      case YieldFor(timeout) => SameOwnersPlaced(s, Yield(s, env, c, timeout), cmd, n);
      case Finish => FreePlaced(s, c, cmd, n);
    }
  }

  lemma {:induction false} FireAllPlaced(s: Rt, env: Env, cmd: nat, n: nat)
    requires Placed(s, cmd, n) && s.timers.firing == []
    ensures Placed(FireAll(s, env), cmd, n)
    decreases |s.timers.batch|
  {
    hide Placed, ResumeOne, T.Skips;
    if s.timers.batch != [] {
      var p := s.(timers := T.Process(s.timers));
      SameOwnersPlaced(s, p, cmd, n);
      if T.Skips(s.timers) {
        FireAllPlaced(p, env, cmd, n);
      } else {
        var wake := s.timers.batch[0].info.task;
        var q := ResumeOne(p, env, wake.coId, ByTimer(wake));
        ResumeOnePlaced(p, env, wake.coId, ByTimer(wake), cmd, n);
        var d := q.(timers := T.Done(q.timers));
        SameOwnersPlaced(q, d, cmd, n);
        FireAllPlaced(d, env, cmd, n);
      }
    }
  }

  // ---- Registering and messages ----

  /** The number of objects registered for each command is history. */
  datatype Server = Server(rt: Rt, registered: map<nat, nat>)

  function Count(reg: map<nat, nat>, cmd: nat): nat { if cmd in reg then reg[cmd] else 0 }

  ghost predicate Conserved(s: Rt, reg: map<nat, nat>) {
    (forall cmd <- reg :: cmd in s.idle) && forall cmd :: Placed(s, cmd, Count(reg, cmd))
  }

  function RegisterCmd(v: Server, cmd: nat, count: int): Server {
    var (rt, _) := Register(v.rt, cmd, count);
    Server(rt, if cmd in v.rt.idle || count <= 0 then v.registered else v.registered[cmd := count])
  }

  lemma RegisterPlaced(s: Rt, cmd: nat, count: nat)
    requires Placed(s, cmd, 0) && cmd !in s.idle && count > 0
    ensures Placed(Register(s, cmd, count).0, cmd, count)
  {
    var s' := Register(s, cmd, count).0;
    forall k: nat, id: nat ensures !Owns(s', k, cmd, id) {
      assert !Owns(s, k, cmd, id);
    }
    forall k ensures k !in Owners(s', cmd) {
      OwnersOwn(s', cmd, k);
    }
    assert Owners(s', cmd) == {};
    forall id: nat | id < count ensures id in IdleOf(s', cmd) {
      assert IdleOf(s', cmd)[id] == id;
    }
  }

  lemma RegisterConserves(v: Server, cmd: nat, count: int)
    requires Conserved(v.rt, v.registered)
    ensures Conserved(RegisterCmd(v, cmd, count).rt, RegisterCmd(v, cmd, count).registered)
  {
    var v' := RegisterCmd(v, cmd, count);
    hide Placed;
    forall other ensures Placed(v'.rt, other, Count(v'.registered, other)) {
      assert Placed(v.rt, other, Count(v.registered, other));
      if other == cmd && cmd !in v.rt.idle && count > 0 {
        RegisterPlaced(v.rt, cmd, count);
      } else {
        assert forall k: nat, id: nat :: Owns(v'.rt, k, other, id) <==> Owns(v.rt, k, other, id);
        SamePoolPlaced(v.rt, v'.rt, other, Count(v.registered, other));
      }
    }
  }

  /** A new coroutine takes an object out of its pool; the other pools see nothing of it. */
  lemma TakePlaced(s: Rt, cmd: nat, other: nat, n: nat)
    requires IdleOf(s, cmd) != [] && Placed(s, other, n) && NextCoId(s) !in s.active
    ensures Placed(Take(s, cmd), other, n)
  {
    var s' := Take(s, cmd);
    var c, all := NextCoId(s), s.idle[cmd];
    hide Placed;
    if other == cmd {
      forall k: nat, id: nat
        ensures Owns(s', k, cmd, id) <==> Owns(s, k, cmd, id) || (k == c && id == all[|all| - 1])
      {
      }
      TakenPlaced(s, s', cmd, n, c);
    } else {
      forall k: nat, id: nat ensures Owns(s', k, other, id) <==> Owns(s, k, other, id) {
      }
      SamePoolPlaced(s, s', other, n);
    }
  }

  lemma EmptyPoolPlaced(s: Rt, cmd: nat, other: nat, n: nat)
    requires Placed(s, other, n)
    ensures Placed(s.(idle := s.idle[cmd := IdleOf(s, cmd)]), other, n)
  {
    hide Placed;
    var s' := s.(idle := s.idle[cmd := IdleOf(s, cmd)]);
    assert forall k: nat, id: nat :: Owns(s', k, other, id) <==> Owns(s, k, other, id);
    SamePoolPlaced(s, s', other, n);
  }

  lemma OnMsgPlaced(s: Rt, env: Env, cmd: nat, coId: nat, msg: nat, other: nat, n: nat)
    requires Placed(s, other, n) && NextCoId(s) !in s.active
    ensures Placed(OnMsg(s, env, cmd, coId, msg).0, other, n)
  {
    hide Placed, ResumeOne, Take;
    if coId == 0 {
      var s0 := s.(idle := s.idle[cmd := IdleOf(s, cmd)]);
      EmptyPoolPlaced(s, cmd, other, n);
      if IdleOf(s0, cmd) != [] {
        TakePlaced(s0, cmd, other, n);
        ResumeOnePlaced(Take(s0, cmd), env, NextCoId(s0), ByMessage(msg), other, n);
      }
    } else {
      ResumeOnePlaced(s, env, coId, ByMessage(msg), other, n);
    }
  }

  // ---- Runs ----

  /** What the main loop does: the calls of CoTask with tasks that own no transaction, ticks at
      clock readings, registrations and messages. */
  datatype Call =
    | AddTask(name: nat)
    | DoTask(name: nat)
    | Resume(coId: nat)
    | Message(coId: nat, msg: nat)
    | Tick(elapsed: nat)
    | RegisterCall(cmd: nat, count: int)
    | Arrival(cmd: nat, coId: nat, msg: nat)

  function Next(v: Server, env: Env, c: Call): (v': Server)
    requires v.rt.timers.firing == []
    ensures v'.rt.timers.firing == []
  {
    match c
    case AddTask(name) => v.(rt := NewCoroutine(v.rt, Plain(name)))
    case DoTask(name) => v.(rt := ResumeOne(NewCoroutine(v.rt, Plain(name)), env, NextCoId(v.rt), ByCall))
    case Resume(coId) => v.(rt := ResumeOne(v.rt, env, coId, ByCall))
    case Message(coId, msg) => v.(rt := ResumeOne(v.rt, env, coId, ByMessage(msg)))
    case Tick(elapsed) => v.(rt := DoTimeOutTask(v.rt, env, v.rt.timers.clock + elapsed))
    case RegisterCall(cmd, count) => RegisterCmd(v, cmd, count)
    case Arrival(cmd, coId, msg) => v.(rt := OnMsg(v.rt, env, cmd, coId, msg).0)
  }

  function Run(v: Server, env: Env, calls: seq<Call>): Server
    requires v.rt.timers.firing == []
    decreases calls
  {
    if calls == [] then v else Run(Next(v, env, calls[0]), env, calls[1..])
  }

  function Start(now: nat): Server {
    Server(Rt([], map[], 0, T.Initial(now), map[], map[], 0, [], true), map[])
  }

  /** At no call of the run are all 2^32 - 1 ids in use. */
  predicate Roomy(v: Server, env: Env, calls: seq<Call>)
    requires v.rt.timers.firing == []
    decreases calls
  {
    calls != [] ==> HasRoom(v.rt) && Roomy(Next(v, env, calls[0]), env, calls[1..])
  }

  ghost predicate ServerInv(v: Server) {
    Orderly(v.rt) && AtMain(v.rt) && Conserved(v.rt, v.registered)
  }

  // ---- Every call keeps the invariant ----

  lemma NewTaskFields(s: Rt, task: Task)
    ensures var s' := NewCoroutine(s, task);
      && s'.incCoId <= s.incCoId + 1 && s'.timers == s.timers
      && NextCoId(s) in s'.active && s'.active == s.active[NextCoId(s) := s'.active[NextCoId(s)]]
  {
  }

  lemma NewTaskKeepsMain(s: Rt, task: Task)
    requires Orderly(s) && AtMain(s) && HasRoom(s)
    ensures Orderly(NewCoroutine(s, task)) && AtMain(NewCoroutine(s, task)) && NextCoId(s) !in s.active
    ensures NextCoId(s) in NewCoroutine(s, task).active
  {
    hide Orderly, NewCoroutine, NextCoId;
    NewCoroutineStaysOrderly(s, task);
    NewTaskFields(s, task);
  }

  lemma ResumeKeepsMain(s: Rt, env: Env, c: nat, how: How)
    requires Orderly(s) && AtMain(s)
    ensures Orderly(ResumeOne(s, env, c, how)) && AtMain(ResumeOne(s, env, c, how))
  {
    hide Orderly, ResumeOne, NoneRuns;
    ResumeOneStaysOrderly(s, env, c, how);
    ResumeOneReturns(s, env, c, how);
  }

  lemma PoolsDoNotMatter(s: Rt, idle: map<nat, seq<nat>>)
    requires Orderly(s) && AtMain(s)
    ensures Orderly(s.(idle := idle)) && AtMain(s.(idle := idle))
  {
    hide Records;
    SameRecords(s, s.(idle := idle));
  }

  /** From call to call the clock moves forward, what was unsafe stays unsafe, no pool is lost and
      at most one id is made. */
  predicate LaterOrNew(s: Rt, s': Rt) {
    && s'.timers.start == s.timers.start && s'.timers.clock >= s.timers.clock && (s'.safe ==> s.safe)
    && s'.incCoId <= s.incCoId + 1 && s.idle.Keys <= s'.idle.Keys
  }

  lemma NextIsLater(v: Server, env: Env, c: Call)
    requires v.rt.timers.firing == []
    ensures var v' := Next(v, env, c); LaterOrNew(v.rt, v'.rt)
  {
    hide ResumeOne, FireAll;
    match c {
      case AddTask(name) =>
      case DoTask(name) => ResumeOneIsLater(NewCoroutine(v.rt, Plain(name)), env, NextCoId(v.rt), ByCall);
      case Resume(coId) => ResumeOneIsLater(v.rt, env, coId, ByCall);
      case Message(coId, msg) => ResumeOneIsLater(v.rt, env, coId, ByMessage(msg));
      case Tick(elapsed) =>
        FireAllIsLater(v.rt.(timers := T.Tick(v.rt.timers, v.rt.timers.clock + elapsed)), env);
      case RegisterCall(cmd, count) =>
      case Arrival(cmd, coId, msg) => ArrivalIsLater(v.rt, env, cmd, coId, msg);
    }
  }

  lemma ArrivalIsLater(s: Rt, env: Env, cmd: nat, coId: nat, msg: nat)
    ensures LaterOrNew(s, OnMsg(s, env, cmd, coId, msg).0)
    ensures coId == 0 ==> cmd in OnMsg(s, env, cmd, coId, msg).0.idle
  {
    hide ResumeOne;
    var s0 := s.(idle := s.idle[cmd := IdleOf(s, cmd)]);
    assert s.idle.Keys <= s0.idle.Keys && cmd in s0.idle.Keys;
    if coId == 0 && IdleOf(s0, cmd) != [] {
      assert Take(s0, cmd).idle.Keys == s0.idle.Keys;
      ResumeOneIsLater(Take(s0, cmd), env, NextCoId(s0), ByMessage(msg));
    } else if coId != 0 && coId in s.active {
      ResumeOneIsLater(s, env, coId, ByMessage(msg));
    }
  }

  lemma OnMsgKeepsMain(s: Rt, env: Env, cmd: nat, coId: nat, msg: nat)
    requires Orderly(s) && AtMain(s) && HasRoom(s)
    ensures Orderly(OnMsg(s, env, cmd, coId, msg).0) && AtMain(OnMsg(s, env, cmd, coId, msg).0)
  {
    hide Orderly, AtMain, ResumeOne, NewCoroutine;
    if coId == 0 {
      var s0 := s.(idle := s.idle[cmd := IdleOf(s, cmd)]);
      PoolsDoNotMatter(s, s0.idle);
      if IdleOf(s0, cmd) != [] {
        var all := s0.idle[cmd];
        var s1 := s0.(idle := s0.idle[cmd := all[..|all| - 1]]);
        PoolsDoNotMatter(s0, s1.idle);
        NewTaskKeepsMain(s1, Transaction(cmd, all[|all| - 1]));
        ResumeKeepsMain(Take(s0, cmd), env, NextCoId(s0), ByMessage(msg));
      }
    } else if coId in s.active {
      ResumeKeepsMain(s, env, coId, ByMessage(msg));
    }
  }

  lemma NextKeepsMain(v: Server, env: Env, c: Call)
    requires Orderly(v.rt) && AtMain(v.rt) && HasRoom(v.rt)
    ensures Orderly(Next(v, env, c).rt) && AtMain(Next(v, env, c).rt)
  {
    hide Orderly, NoneRuns, ResumeOne, NewCoroutine, FireAll;
    match c {
      case AddTask(name) => NewTaskKeepsMain(v.rt, Plain(name));
      case DoTask(name) =>
        NewTaskKeepsMain(v.rt, Plain(name));
        ResumeKeepsMain(NewCoroutine(v.rt, Plain(name)), env, NextCoId(v.rt), ByCall);
      case Resume(coId) => ResumeKeepsMain(v.rt, env, coId, ByCall);
      case Message(coId, msg) => ResumeKeepsMain(v.rt, env, coId, ByMessage(msg));
      case Tick(elapsed) =>
        DoTimeOutTaskStaysOrderly(v.rt, env, v.rt.timers.clock + elapsed);
        TickReturns(v.rt, env, v.rt.timers.clock + elapsed);
      case RegisterCall(cmd, count) => PoolsDoNotMatter(v.rt, Next(v, env, c).rt.idle);
      case Arrival(cmd, coId, msg) => OnMsgKeepsMain(v.rt, env, cmd, coId, msg);
    }
  }

  lemma TickReturns(s: Rt, env: Env, now: nat)
    requires AtMain(s)
    ensures NoneRuns(DoTimeOutTask(s, env, now))
  {
    hide FireAll;
    FireAllReturns(s.(timers := T.Tick(s.timers, now)), env);
  }

  lemma NewTaskPlaced(s: Rt, name: nat, cmd: nat, n: nat)
    requires Placed(s, cmd, n) && NextCoId(s) !in s.active
    ensures Placed(NewCoroutine(s, Plain(name)), cmd, n)
  {
    hide Placed;
    var s' := NewCoroutine(s, Plain(name));
    forall k: nat, id: nat ensures Owns(s', k, cmd, id) <==> Owns(s, k, cmd, id) {
    }
    SamePoolPlaced(s, s', cmd, n);
  }

  lemma TickPlaced(s: Rt, env: Env, now: nat, cmd: nat, n: nat)
    requires s.timers.firing == [] && Placed(s, cmd, n)
    ensures Placed(DoTimeOutTask(s, env, now), cmd, n)
  {
    hide Placed, FireAll;
    var t := s.(timers := T.Tick(s.timers, now));
    SameOwnersPlaced(s, t, cmd, n);
    FireAllPlaced(t, env, cmd, n);
  }

  lemma DoTaskPlaced(s: Rt, env: Env, name: nat, cmd: nat, n: nat)
    requires Placed(s, cmd, n) && NextCoId(s) !in s.active
    ensures Placed(ResumeOne(NewCoroutine(s, Plain(name)), env, NextCoId(s), ByCall), cmd, n)
  {
    hide Placed, ResumeOne, NewCoroutine;
    NewTaskPlaced(s, name, cmd, n);
    ResumeOnePlaced(NewCoroutine(s, Plain(name)), env, NextCoId(s), ByCall, cmd, n);
  }

  lemma NewTaskNextPlaced(v: Server, env: Env, c: Call, cmd: nat, n: nat)
    requires v.rt.timers.firing == [] && NextCoId(v.rt) !in v.rt.active && Placed(v.rt, cmd, n)
    requires c.AddTask? || c.DoTask?
    ensures Placed(Next(v, env, c).rt, cmd, n)
  {
    hide Placed, ResumeOne, NewCoroutine, NextCoId, OnMsg, DoTimeOutTask, RegisterCmd;
    NewTaskPlaced(v.rt, c.name, cmd, n);
    DoTaskPlaced(v.rt, env, c.name, cmd, n);
  }

  lemma ArrivalNextPlaced(v: Server, env: Env, c: Call, cmd: nat, n: nat)
    requires v.rt.timers.firing == [] && NextCoId(v.rt) !in v.rt.active && Placed(v.rt, cmd, n)
    requires c.Arrival?
    ensures Placed(Next(v, env, c).rt, cmd, n)
  {
    hide Placed, ResumeOne, NewCoroutine, NextCoId, OnMsg, DoTimeOutTask, RegisterCmd;
    OnMsgPlaced(v.rt, env, c.cmd, c.coId, c.msg, cmd, n);
  }

  lemma ResumeNextPlaced(v: Server, env: Env, c: Call, cmd: nat, n: nat)
    requires v.rt.timers.firing == [] && Placed(v.rt, cmd, n)
    requires c.Resume? || c.Message? || c.Tick?
    ensures Placed(Next(v, env, c).rt, cmd, n)
  {
    hide Placed, ResumeOne, NewCoroutine, NextCoId, OnMsg, DoTimeOutTask, RegisterCmd;
    match c {
      case Resume(coId) => ResumeOnePlaced(v.rt, env, coId, ByCall, cmd, n);
      case Message(coId, msg) => ResumeOnePlaced(v.rt, env, coId, ByMessage(msg), cmd, n);
      case Tick(elapsed) => TickPlaced(v.rt, env, v.rt.timers.clock + elapsed, cmd, n);
    }
  }

  lemma NextPlaced(v: Server, env: Env, c: Call, cmd: nat, n: nat)
    requires Orderly(v.rt) && v.rt.timers.firing == [] && HasRoom(v.rt)
    requires !c.RegisterCall? && Placed(v.rt, cmd, n)
    ensures Placed(Next(v, env, c).rt, cmd, n)
  {
    hide Orderly, Placed, Next, NextCoId, NewCoroutine;
    NewCoroutineStaysOrderly(v.rt, Plain(0));
    if c.AddTask? || c.DoTask? {
      NewTaskNextPlaced(v, env, c, cmd, n);
    } else if c.Arrival? {
      ArrivalNextPlaced(v, env, c, cmd, n);
    } else {
      ResumeNextPlaced(v, env, c, cmd, n);
    }
  }

  lemma NextConserves(v: Server, env: Env, c: Call)
    requires ServerInv(v) && HasRoom(v.rt)
    ensures Conserved(Next(v, env, c).rt, Next(v, env, c).registered)
  {
    assert v.rt.timers.firing == [];
    hide AtMain, Orderly, Placed;
    if c.RegisterCall? {
      hide Conserved;
      RegisterConserves(v, c.cmd, c.count);
    } else {
      var v' := Next(v, env, c);
      assert v'.registered == v.registered by { hide ResumeOne, NewCoroutine, DoTimeOutTask, OnMsg, RegisterCmd; }
      NextIsLater(v, env, c);
      hide Next;
      assert forall cmd <- v'.registered :: cmd in v.rt.idle.Keys && cmd in v'.rt.idle.Keys;
      forall cmd ensures Placed(v'.rt, cmd, Count(v'.registered, cmd)) {
        NextPlaced(v, env, c, cmd, Count(v.registered, cmd));
      }
    }
  }

  // ---- Every run ----

  lemma NextKeeps(v: Server, env: Env, c: Call)
    requires ServerInv(v) && HasRoom(v.rt)
    ensures ServerInv(Next(v, env, c))
  {
    NextKeepsMain(v, env, c);
    NextConserves(v, env, c);
    hide Next, Orderly, AtMain, Conserved;
  }

  lemma {:induction false} RunKeeps(v: Server, env: Env, calls: seq<Call>)
    requires ServerInv(v) && Roomy(v, env, calls)
    ensures ServerInv(Run(v, env, calls))
    decreases calls
  {
    if calls != [] {
      NextKeeps(v, env, calls[0]);
      hide ServerInv, Next;
      RunKeeps(Next(v, env, calls[0]), env, calls[1..]);
    }
  }

  lemma StartHolds(now: nat)
    ensures ServerInv(Start(now)) && Faithful(Start(now).rt)
  {
    var s := Start(now).rt;
    assert s.timers.Live() == [] && s.timers.Pending() == [];
    forall cmd ensures Placed(s, cmd, 0) {
      assert Owners(s, cmd) == {};
    }
  }

  /** A run of less than 2^32 calls, for one, never uses all ids at once. */
  lemma {:induction false} ShortRunsAreRoomy(v: Server, env: Env, calls: seq<Call>)
    requires ServerInv(v) && v.rt.incCoId + |calls| < 0x1_0000_0000
    ensures Roomy(v, env, calls)
    decreases calls
  {
    if calls != [] {
      assert |v.rt.active| <= v.rt.incCoId;
      NextKeeps(v, env, calls[0]);
      NextIsLater(v, env, calls[0]);
      hide ServerInv, Next;
      ShortRunsAreRoomy(Next(v, env, calls[0]), env, calls[1..]);
    }
  }

  /** Conservation: in every run, after every call, the idle objects of a command and those its
      coroutines own add up to what was registered; each object has exactly one place. */
  lemma TransactionsAreConserved(now: nat, env: Env, calls: seq<Call>, cmd: nat)
    requires Roomy(Start(now), env, calls)
    ensures var v := Run(Start(now), env, calls);
      && |IdleOf(v.rt, cmd)| + |Owners(v.rt, cmd)| == Count(v.registered, cmd)
      && Distinct(IdleOf(v.rt, cmd))
      && (forall id: nat :: id < Count(v.registered, cmd) <==>
           id in IdleOf(v.rt, cmd) || exists k :: Owns(v.rt, k, cmd, id))
      && (forall k: nat, id: nat :: Owns(v.rt, k, cmd, id) ==> id !in IdleOf(v.rt, cmd))
      && (forall j: nat, k: nat, id: nat :: Owns(v.rt, j, cmd, id) && Owns(v.rt, k, cmd, id) ==> j == k)
  {
    StartHolds(now);
    RunKeeps(Start(now), env, calls);
    assert Placed(Run(Start(now), env, calls).rt, cmd, Count(Run(Start(now), env, calls).registered, cmd));
    hide Run, Orderly, AtMain;
  }

  /** The map of timers: in every run, after every call, it covers exactly the suspended
      coroutines. */
  lemma MapCoversSleepers(now: nat, env: Env, calls: seq<Call>, k: nat)
    requires Roomy(Start(now), env, calls)
    ensures var s := Run(Start(now), env, calls).rt; k in s.timerOf <==> Sleeps(s, k)
  {
    StartHolds(now);
    RunKeeps(Start(now), env, calls);
    hide Run, Records, Conserved, AtMain;
  }

  lemma OnMsgKeepsMessages(s: Rt, env: Env, cmd: nat, coId: nat, msg: nat)
    requires Orderly(s) && AtMain(s) && MessagesKept(s) && HasRoom(s)
    ensures MessagesKept(OnMsg(s, env, cmd, coId, msg).0)
  {
    hide Orderly, AtMain, MessagesKept, ResumeOne, NewCoroutine;
    if coId == 0 {
      var s0 := s.(idle := s.idle[cmd := IdleOf(s, cmd)]);
      PoolsDoNotMatter(s, s0.idle);
      OthersKeepMessages(s, s0);
      if IdleOf(s0, cmd) != [] {
        var all := s0.idle[cmd];
        var s1 := s0.(idle := s0.idle[cmd := all[..|all| - 1]]);
        PoolsDoNotMatter(s0, s1.idle);
        OthersKeepMessages(s0, s1);
        NewTaskKeepsMessages(s1, Transaction(cmd, all[|all| - 1]));
        ResumeOneKeepsMessages(Take(s0, cmd), env, NextCoId(s0), ByMessage(msg));
      }
    } else if coId in s.active {
      ResumeOneKeepsMessages(s, env, coId, ByMessage(msg));
    }
  }

  lemma NewTaskKeepsMessages(s: Rt, task: Task)
    requires Orderly(s) && AtMain(s) && MessagesKept(s) && HasRoom(s)
    ensures Orderly(NewCoroutine(s, task)) && MessagesKept(NewCoroutine(s, task))
  {
    NewCoroutineKeepsMessages(s, task);
    hide Records, MessagesKept, NewCoroutine;
    NewTaskKeepsMain(s, task);
  }

  lemma NextKeepsMessages(v: Server, env: Env, c: Call)
    requires Orderly(v.rt) && AtMain(v.rt) && MessagesKept(v.rt) && HasRoom(v.rt)
    ensures MessagesKept(Next(v, env, c).rt)
  {
    hide Orderly, NoneRuns, MessagesKept, ResumeOne, NewCoroutine, FireAll, OnMsg;
    match c {
      case AddTask(name) => NewTaskKeepsMessages(v.rt, Plain(name));
      case DoTask(name) =>
        NewTaskKeepsMessages(v.rt, Plain(name));
        ResumeOneKeepsMessages(NewCoroutine(v.rt, Plain(name)), env, NextCoId(v.rt), ByCall);
      case Resume(coId) => ResumeOneKeepsMessages(v.rt, env, coId, ByCall);
      case Message(coId, msg) => ResumeOneKeepsMessages(v.rt, env, coId, ByMessage(msg));
      case Tick(elapsed) => TickKeepsMessages(v.rt, env, v.rt.timers.clock + elapsed);
      case RegisterCall(cmd, count) => OthersKeepMessages(v.rt, Next(v, env, c).rt);
      case Arrival(cmd, coId, msg) => OnMsgKeepsMessages(v.rt, env, cmd, coId, msg);
    }
  }

  lemma TickKeepsMessages(s: Rt, env: Env, now: nat)
    requires Orderly(s) && MessagesKept(s) && s.timers.firing == []
    ensures MessagesKept(DoTimeOutTask(s, env, now))
  {
    hide Orderly, MessagesKept, FireAll;
    var t := s.(timers := T.Tick(s.timers, now));
    TimersStayOrderly(s, t.timers);
    OthersKeepMessages(s, t);
    FireAllKeepsMessages(t, env);
  }

  lemma {:induction false} RunKeepsMessages(v: Server, env: Env, calls: seq<Call>)
    requires ServerInv(v) && MessagesKept(v.rt) && Roomy(v, env, calls)
    ensures MessagesKept(Run(v, env, calls).rt)
    decreases calls
  {
    if calls != [] {
      NextKeeps(v, env, calls[0]);
      NextKeepsMessages(v, env, calls[0]);
      hide ServerInv, MessagesKept, Next;
      RunKeepsMessages(Next(v, env, calls[0]), env, calls[1..]);
    }
  }

  /** Messages: in every run each resumption, whatever brought it, finds the last message that was
      sent to its id, even one sent to an earlier life. */
  lemma LastMessageIsFound(now: nat, env: Env, calls: seq<Call>, i: nat)
    requires Roomy(Start(now), env, calls) && i < |Run(Start(now), env, calls).rt.log|
    ensures var log := Run(Start(now), env, calls).rt.log; log[i].msg == LastMessage(log[..i + 1], log[i].coId)
  {
    StartHolds(now);
    RunKeepsMessages(Start(now), env, calls);
    hide Run, LastMessage, ServerInv;
  }

  // ---- Every run with a sound allocator ----

  lemma PoolsDoNotWake(s: Rt, idle: map<nat, seq<nat>>)
    requires Faithful(s)
    ensures Faithful(s.(idle := idle))
  {
    hide T.Layout, GoodResumption;
    assert forall n :: Armed(s.(idle := idle), n) <==> Armed(s, n);
  }

  lemma OnMsgStaysFaithful(s: Rt, env: Env, cmd: nat, coId: nat, msg: nat)
    requires Faithful(s) && Sound(env) && NextCoId(s) !in s.active
    ensures Faithful(OnMsg(s, env, cmd, coId, msg).0)
  {
    hide Faithful, ResumeOne, NewCoroutine;
    if coId == 0 {
      var s0 := s.(idle := s.idle[cmd := IdleOf(s, cmd)]);
      PoolsDoNotWake(s, s0.idle);
      if IdleOf(s0, cmd) != [] {
        var all := s0.idle[cmd];
        var s1 := s0.(idle := s0.idle[cmd := all[..|all| - 1]]);
        PoolsDoNotWake(s0, s1.idle);
        NewCoroutineStaysFaithful(s1, Transaction(cmd, all[|all| - 1]));
        ResumeOneStaysFaithful(Take(s0, cmd), env, NextCoId(s0), ByMessage(msg));
      }
    } else if coId in s.active {
      ResumeOneStaysFaithful(s, env, coId, ByMessage(msg));
    }
  }

  lemma NextStaysFaithful(v: Server, env: Env, c: Call)
    requires Orderly(v.rt) && AtMain(v.rt) && Faithful(v.rt) && Sound(env) && HasRoom(v.rt)
    ensures Faithful(Next(v, env, c).rt)
  {
    hide Orderly, Faithful, NoneRuns, Sound, ResumeOne, NewCoroutine, DoTimeOutTask, OnMsg, NextCoId;
    NewCoroutineStaysOrderly(v.rt, Plain(0));
    NewTaskIsActive(v.rt, Plain(0));
    if c.RegisterCall? {
      PoolsDoNotWake(v.rt, Next(v, env, c).rt.idle);
      return;
    }
    hide AtMain, RegisterCmd;
    match c {
      case AddTask(name) => NewCoroutineStaysFaithful(v.rt, Plain(name));
      case DoTask(name) =>
        NewCoroutineStaysFaithful(v.rt, Plain(name));
        ResumeOneStaysFaithful(NewCoroutine(v.rt, Plain(name)), env, NextCoId(v.rt), ByCall);
      case Resume(coId) => ResumeOneStaysFaithful(v.rt, env, coId, ByCall);
      case Message(coId, msg) => ResumeOneStaysFaithful(v.rt, env, coId, ByMessage(msg));
      case Tick(elapsed) => DoTimeOutTaskStaysFaithful(v.rt, env, v.rt.timers.clock + elapsed);
      case Arrival(cmd, coId, msg) => OnMsgStaysFaithful(v.rt, env, cmd, coId, msg);
    }
  }

  lemma {:induction false} RunStaysFaithful(v: Server, env: Env, calls: seq<Call>)
    requires ServerInv(v) && Faithful(v.rt) && Sound(env) && Roomy(v, env, calls)
    ensures ServerInv(Run(v, env, calls)) && Faithful(Run(v, env, calls).rt)
    decreases calls
  {
    if calls != [] {
      NextKeeps(v, env, calls[0]);
      NextStaysFaithful(v, env, calls[0]);
      hide ServerInv, Faithful, Next, Sound;
      RunStaysFaithful(Next(v, env, calls[0]), env, calls[1..]);
    }
  }

  /** Lives: in every run, each resumption by a timer resumed the life the timer was armed in, inside
      a Yield that returned -1, and not before its timeout had passed; a Yield returned -1 only then;
      and a coroutine resumed by a message found it. */
  lemma TimersNeverReachALaterLife(now: nat, env: Env, calls: seq<Call>, i: nat)
    requires Sound(env) && Roomy(Start(now), env, calls) && i < |Run(Start(now), env, calls).rt.log|
    ensures var r := Run(Start(now), env, calls).rt.log[i];
      && (r.how.ByTimer? ==> r.how.wake == Wake(r.coId, r.life))
      && (r.how.ByTimer? <==> r.result == Some(-1)) && (r.how.ByTimer? ==> r.until <= r.at)
      && (r.how.ByMessage? ==> r.msg == r.how.msg)
  {
    StartHolds(now);
    RunStaysFaithful(Start(now), env, calls);
    assert GoodResumption(Run(Start(now), env, calls).rt.log[i]);
    hide Run, ServerInv, Faithful;
  }

  /** Pending timers: in every run, after every call, a suspended coroutine has at most one timer that
      will fire, for its present life, and any other id has none. */
  lemma NoTimerForOthers(now: nat, env: Env, calls: seq<Call>, k: nat)
    requires Sound(env) && Roomy(Start(now), env, calls)
    ensures var s := Run(Start(now), env, calls).rt;
      && |TimersOf(s, k)| <= (if Sleeps(s, k) then 1 else 0)
      && (forall i <- TimersOf(s, k) :: Sleeps(s, k) && s.timers.Pending()[i].info.task == Wake(k, s.active[k].life))
  {
    StartHolds(now);
    RunStaysFaithful(Start(now), env, calls);
    hide Run, Conserved, AtMain, Orderly, Faithful, TimersOf, Sleeps;
    AtMostOneTimer(Run(Start(now), env, calls).rt, k);
  }

  // ---- When a message starts a transaction ----

  /** A message without a coroutine id is refused exactly when all objects registered for its
      command are owned by coroutines. */
  lemma RefusedExactlyWhenAllAreOwned(v: Server, env: Env, cmd: nat, msg: nat)
    requires Conserved(v.rt, v.registered)
    ensures OnMsg(v.rt, env, cmd, 0, msg).1 == -1 <==> |Owners(v.rt, cmd)| == Count(v.registered, cmd)
  {
    assert Placed(v.rt, cmd, Count(v.registered, cmd));
    hide ResumeOne, Take, Owners;
    assert |IdleOf(v.rt, cmd)| + |Owners(v.rt, cmd)| == Count(v.registered, cmd);
    hide Placed;
  }

  /** One more resumption: that of coroutine c, which finds the message. */
  predicate Delivered(log: seq<Resumption>, log': seq<Resumption>, c: nat, msg: nat) {
    && |log'| == |log| + 1 && log'[..|log|] == log
    && var r := log'[|log|]; r.coId == c && r.how == ByMessage(msg) && r.msg == msg
  }

  /** A message is delivered once, to the coroutine it names or to a new one, or not at all; and not
      at all only if no object is idle for the new one, or the id it names is not in use. */
  lemma MessageIsDeliveredOnce(s: Rt, env: Env, cmd: nat, coId: nat, msg: nat)
    ensures var (s', ret) := OnMsg(s, env, cmd, coId, msg);
      && (ret == -1 ==> s'.log == s.log && s'.active == s.active)
      && (ret != -1 ==> ret == 0 && Delivered(s.log, s'.log, if coId == 0 then NextCoId(s) else coId, msg))
      && (ret != -1 <==> if coId == 0 then IdleOf(s, cmd) != [] else coId in s.active)
  {
    hide ResumeOne, NewCoroutine;
    var s0 := s.(idle := s.idle[cmd := IdleOf(s, cmd)]);
    if coId == 0 && IdleOf(s0, cmd) != [] {
      var all := s0.idle[cmd];
      NewTaskIsActive(s0.(idle := s0.idle[cmd := all[..|all| - 1]]), Transaction(cmd, all[|all| - 1]));
      ResumeLogsOnce(Take(s0, cmd), env, NextCoId(s0), msg);
    } else if coId != 0 && coId in s.active {
      ResumeLogsOnce(s, env, coId, msg);
    }
  }

  lemma NewTaskIsActive(s: Rt, task: Task)
    ensures var s' := NewCoroutine(s, task);
      && s'.log == s.log && NextCoId(s) in s'.active && s'.active == s.active[NextCoId(s) := s'.active[NextCoId(s)]]
      && s'.active[NextCoId(s)].task == Some(task) && s'.active[NextCoId(s)].phase == Fresh
  {
  }

  /** An added task waits to be resumed; resumed, it starts, as a task that is done at once does. */
  lemma AddedTaskStartsWhenResumed(v: Server, env: Env, name: nat)
    requires v.rt.timers.firing == []
    ensures var v', c := Next(v, env, AddTask(name)), NextCoId(v.rt);
      && v'.rt.log == v.rt.log && c in v'.rt.active
      && v'.rt.active[c].task == Some(Plain(name)) && v'.rt.active[c].phase == Fresh
      && Next(v, env, DoTask(name)) == Next(v', env, Resume(c)) && StartedByCall(v', Next(v', env, Resume(c)), c)
  {
    var v' := Next(v, env, AddTask(name));
    NewTaskIsActive(v.rt, Plain(name));
    ResumesExactlyOnce(v'.rt, env, NextCoId(v.rt), ByCall);
    hide ResumeOne, NewCoroutine;
  }

  /** One more resumption: the first of its coroutine, by a call. */
  ghost predicate StartedByCall(v: Server, v': Server, c: nat) {
    && |v'.rt.log| == |v.rt.log| + 1 && v'.rt.log[..|v.rt.log|] == v.rt.log
    && var r := v'.rt.log[|v.rt.log|]; r.coId == c && r.how == ByCall && r.result == None
  }

  lemma ResumeLogsOnce(s: Rt, env: Env, c: nat, msg: nat)
    requires c in s.active
    ensures Delivered(s.log, ResumeOne(s, env, c, ByMessage(msg)).log, c, msg)
  {
    hide ResumeOne;
    ResumesExactlyOnce(s, env, c, ByMessage(msg));
  }

  ghost predicate SameRegistration(v: Server, v': Server, cmd: nat) {
    (cmd in v'.registered <==> cmd in v.registered) && (cmd in v.registered ==> v'.registered[cmd] == v.registered[cmd])
  }

  /** Once a command has a pool, empty or not, nothing changes what is registered for it. */
  lemma {:induction false} StaysSettled(v: Server, env: Env, calls: seq<Call>, cmd: nat)
    requires v.rt.timers.firing == [] && cmd in v.rt.idle
    ensures SameRegistration(v, Run(v, env, calls), cmd)
    decreases calls
  {
    if calls != [] {
      var v' := Next(v, env, calls[0]);
      assert SameRegistration(v, v', cmd) by { hide ResumeOne, NewCoroutine, DoTimeOutTask, OnMsg; }
      NextIsLater(v, env, calls[0]);
      hide Next;
      assert cmd in v'.rt.idle.Keys;
      StaysSettled(v', env, calls[1..], cmd);
    }
  }

  lemma EarlyMessageMakesPool(v: Server, env: Env, cmd: nat, msg: nat)
    requires ServerInv(v) && cmd !in v.rt.idle
    ensures var v' := Next(v, env, Arrival(cmd, 0, msg));
      v' == v.(rt := v.rt.(idle := v.rt.idle[cmd := []])) && ServerInv(v') && cmd !in v'.registered
  {
    var v' := Next(v, env, Arrival(cmd, 0, msg));
    NeverRegistered(v, cmd);
    PoolsDoNotMatter(v.rt, v'.rt.idle);
    hide AtMain, Orderly, Placed;
    forall other ensures Placed(v'.rt, other, Count(v.registered, other)) {
      EmptyPoolPlaced(v.rt, cmd, other, Count(v.registered, other));
    }
  }

  /** A message that comes before the registration of its command makes an empty pool; the
      registration is then refused, and so is every later message that would start a transaction. */
  lemma EarlyMessageBlocksTheCommand(v: Server, env: Env, cmd: nat, msg: nat, calls: seq<Call>, later: nat)
    requires ServerInv(v) && cmd !in v.rt.idle && Roomy(Next(v, env, Arrival(cmd, 0, msg)), env, calls)
    ensures OnMsg(Run(Next(v, env, Arrival(cmd, 0, msg)), env, calls).rt, env, cmd, 0, later).1 == -1
  {
    EarlyMessageMakesPool(v, env, cmd, msg);
    hide Orderly, AtMain, Placed, Next, OnMsg, Owners;
    var v1 := Next(v, env, Arrival(cmd, 0, msg));
    StaysSettled(v1, env, calls, cmd);
    RunKeeps(v1, env, calls);
    RefusedExactlyWhenAllAreOwned(Run(v1, env, calls), env, cmd, later);
    NobodyOwns(Run(v1, env, calls), cmd);
  }

  lemma NeverRegistered(v: Server, cmd: nat)
    requires ServerInv(v) && cmd !in v.rt.idle
    ensures cmd !in v.registered
  {
  }

  lemma NobodyOwns(v: Server, cmd: nat)
    requires ServerInv(v) && cmd !in v.registered
    ensures |Owners(v.rt, cmd)| == 0
  {
    hide AtMain, Orderly;
    assert Placed(v.rt, cmd, Count(v.registered, cmd));
  }

  // ---- When a registration takes effect ----

  /** A call that settles what becomes of a command: a registration with objects, or a message that
      would start a transaction. */
  predicate Settles(c: Call, cmd: nat) {
    (c.RegisterCall? && c.cmd == cmd && c.count > 0) || (c.Arrival? && c.cmd == cmd && c.coId == 0)
  }

  function FirstToSettle(calls: seq<Call>, cmd: nat): Option<Call> {
    if calls == [] then None
    else if Settles(calls[0], cmd) then Some(calls[0])
    else FirstToSettle(calls[1..], cmd)
  }

  /** A turn makes no pool for a command without objects. */
  lemma ResumeMakesNoPool(s: Rt, env: Env, c: nat, how: How, cmd: nat)
    requires cmd !in s.idle && Placed(s, cmd, 0)
    ensures cmd !in ResumeOne(s, env, c, how).idle
  {
    EntersWithItsTask(s, c, how);
    assert CancelTimer(s, c).active == s.active;
    hide Placed, CancelTimer, Leave, Enter;
    if c in s.active {
      SameOwnersPlaced(s, Enter(CancelTimer(s, c), c, how), cmd, 0);
      LeaveMakesNoPool(Enter(CancelTimer(s, c), c, how), env, c, cmd);
    }
  }

  lemma LeaveMakesNoPool(s: Rt, env: Env, c: nat, cmd: nat)
    requires cmd !in s.idle && Placed(s, cmd, 0) && c in s.active
    ensures cmd !in Leave(s, env, c).idle
  {
    hide FreeCoroutine, T.Arm;
    if env.behave(s.turns).Finish? {
      FreeMakesNoPool(s, c, cmd);
    }
  }

  lemma FreeMakesNoPool(s: Rt, c: nat, cmd: nat)
    requires cmd !in s.idle && Placed(s, cmd, 0)
    ensures cmd !in FreeCoroutine(s, c).idle
  {
    if c in s.active && s.active[c].task.Some? && s.active[c].task.value.Transaction? {
      assert Owns(s, c, s.active[c].task.value.cmd, s.active[c].task.value.id);
    }
  }

  lemma {:induction false} FireAllMakesNoPool(s: Rt, env: Env, cmd: nat)
    requires cmd !in s.idle && Placed(s, cmd, 0) && s.timers.firing == []
    ensures cmd !in FireAll(s, env).idle
    decreases |s.timers.batch|
  {
    hide Placed, ResumeOne, T.Skips;
    if s.timers.batch != [] {
      var p := s.(timers := T.Process(s.timers));
      SameOwnersPlaced(s, p, cmd, 0);
      if T.Skips(s.timers) {
        FireAllMakesNoPool(p, env, cmd);
      } else {
        var wake := s.timers.batch[0].info.task;
        var q := ResumeOne(p, env, wake.coId, ByTimer(wake));
        ResumeMakesNoPool(p, env, wake.coId, ByTimer(wake), cmd);
        ResumeOnePlaced(p, env, wake.coId, ByTimer(wake), cmd, 0);
        var d := q.(timers := T.Done(q.timers));
        SameOwnersPlaced(q, d, cmd, 0);
        FireAllMakesNoPool(d, env, cmd);
      }
    }
  }

  lemma OnMsgMakesNoPool(s: Rt, env: Env, other: nat, coId: nat, msg: nat, cmd: nat)
    requires cmd !in s.idle && Placed(s, cmd, 0) && NextCoId(s) !in s.active && (coId == 0 ==> other != cmd)
    ensures cmd !in OnMsg(s, env, other, coId, msg).0.idle
  {
    hide Placed, ResumeOne;
    if coId == 0 {
      var s0 := s.(idle := s.idle[other := IdleOf(s, other)]);
      EmptyPoolPlaced(s, other, cmd, 0);
      if IdleOf(s0, other) != [] {
        TakePlaced(s0, other, cmd, 0);
        ResumeMakesNoPool(Take(s0, other), env, NextCoId(s0), ByMessage(msg), cmd);
      }
    } else {
      ResumeMakesNoPool(s, env, coId, ByMessage(msg), cmd);
    }
  }

  lemma NewTaskMakesNoPool(s: Rt, env: Env, name: nat, cmd: nat)
    requires cmd !in s.idle && Placed(s, cmd, 0) && NextCoId(s) !in s.active
    ensures cmd !in NewCoroutine(s, Plain(name)).idle
    ensures cmd !in ResumeOne(NewCoroutine(s, Plain(name)), env, NextCoId(s), ByCall).idle
  {
    hide Placed, ResumeOne;
    NewTaskPlaced(s, name, cmd, 0);
    ResumeMakesNoPool(NewCoroutine(s, Plain(name)), env, NextCoId(s), ByCall, cmd);
  }

  lemma TickMakesNoPool(s: Rt, env: Env, now: nat, cmd: nat)
    requires cmd !in s.idle && Placed(s, cmd, 0) && s.timers.firing == []
    ensures cmd !in DoTimeOutTask(s, env, now).idle
  {
    hide Placed, FireAll;
    var t := s.(timers := T.Tick(s.timers, now));
    SameOwnersPlaced(s, t, cmd, 0);
    FireAllMakesNoPool(t, env, cmd);
  }

  lemma RegisterMakesNoPool(v: Server, other: nat, count: int, cmd: nat)
    requires cmd !in v.rt.idle && cmd !in v.registered && (other != cmd || count <= 0)
    ensures cmd !in RegisterCmd(v, other, count).rt.idle && cmd !in RegisterCmd(v, other, count).registered
  {
  }

  /** Only the calls that settle a command make its pool. */
  lemma OthersMakeNoPool(v: Server, env: Env, c: Call, cmd: nat)
    requires ServerInv(v) && HasRoom(v.rt) && cmd !in v.rt.idle && !Settles(c, cmd)
    ensures cmd !in Next(v, env, c).rt.idle && cmd !in Next(v, env, c).registered
  {
    assert Placed(v.rt, cmd, Count(v.registered, cmd)) && v.rt.timers.firing == [] && cmd !in v.registered;
    hide AtMain, Orderly, Placed, ResumeOne, NewCoroutine, NextCoId, OnMsg, DoTimeOutTask, Conserved, RegisterCmd;
    if c.RegisterCall? {
      RegisterMakesNoPool(v, c.cmd, c.count, cmd);
      return;
    }
    NewCoroutineStaysOrderly(v.rt, Plain(0));
    match c {
      case AddTask(name) => NewTaskMakesNoPool(v.rt, env, name, cmd);
      case DoTask(name) => NewTaskMakesNoPool(v.rt, env, name, cmd);
      case Arrival(other, coId, msg) => OnMsgMakesNoPool(v.rt, env, other, coId, msg, cmd);
      case _ => TurnsMakeNoPool(v, env, c, cmd);
    }
  }

  lemma TurnsMakeNoPool(v: Server, env: Env, c: Call, cmd: nat)
    requires v.rt.timers.firing == [] && cmd !in v.rt.idle && Placed(v.rt, cmd, 0) && cmd !in v.registered
    requires c.Resume? || c.Message? || c.Tick?
    ensures cmd !in Next(v, env, c).rt.idle && cmd !in Next(v, env, c).registered
  {
    hide Placed, ResumeOne, DoTimeOutTask;
    match c {
      case Resume(coId) => ResumeMakesNoPool(v.rt, env, coId, ByCall, cmd);
      case Message(coId, msg) => ResumeMakesNoPool(v.rt, env, coId, ByMessage(msg), cmd);
      case Tick(elapsed) => TickMakesNoPool(v.rt, env, v.rt.timers.clock + elapsed, cmd);
    }
  }

  /** What is registered for a command is what the first call to settle it says. */
  ghost predicate RegisteredAs(v: Server, first: Option<Call>, cmd: nat) {
    if first.Some? && first.value.RegisterCall? then cmd in v.registered && v.registered[cmd] == first.value.count
    else cmd !in v.registered
  }

  lemma SettlingCall(v: Server, env: Env, c: Call, cmd: nat)
    requires ServerInv(v) && cmd !in v.rt.idle && Settles(c, cmd)
    ensures RegisteredAs(Next(v, env, c), Some(c), cmd) && cmd in Next(v, env, c).rt.idle
  {
    NeverRegistered(v, cmd);
    if c.Arrival? {
      ArrivalIsLater(v.rt, env, cmd, 0, c.msg);
    }
    hide AtMain, Orderly, Placed, OnMsg;
  }

  lemma {:induction false} RegisteredByTheFirst(v: Server, env: Env, calls: seq<Call>, cmd: nat)
    requires ServerInv(v) && Roomy(v, env, calls) && cmd !in v.rt.idle
    ensures RegisteredAs(Run(v, env, calls), FirstToSettle(calls, cmd), cmd)
    decreases calls
  {
    NeverRegistered(v, cmd);
    if calls != [] {
      var v', c := Next(v, env, calls[0]), calls[0];
      NextKeeps(v, env, c);
      hide ServerInv, Next, Settles;
      if Settles(c, cmd) {
        SettlingCall(v, env, c, cmd);
        StaysSettled(v', env, calls[1..], cmd);
      } else {
        OthersMakeNoPool(v, env, c, cmd);
        RegisteredByTheFirst(v', env, calls[1..], cmd);
      }
    }
  }

  /** Exactly when a registration takes effect: in every run, n objects are registered for a command
      if and only if, of all registrations of it with objects and messages that would start it, the
      first is its registration with n objects. */
  lemma RegistrationTakesEffectExactly(now: nat, env: Env, calls: seq<Call>, cmd: nat, n: nat)
    requires Roomy(Start(now), env, calls) && n > 0
    ensures Count(Run(Start(now), env, calls).registered, cmd) == n
      <==> FirstToSettle(calls, cmd) == Some(RegisterCall(cmd, n))
  {
    StartHolds(now);
    RegisteredByTheFirst(Start(now), env, calls, cmd);
    FirstSettles(calls, cmd);
    hide Run, ServerInv;
  }

  lemma {:induction false} PoolsStay(v: Server, env: Env, calls: seq<Call>, cmd: nat)
    requires v.rt.timers.firing == [] && cmd in v.rt.idle
    ensures cmd in Run(v, env, calls).rt.idle
    decreases calls
  {
    if calls != [] {
      NextIsLater(v, env, calls[0]);
      hide Next;
      assert cmd in v.rt.idle.Keys;
      PoolsStay(Next(v, env, calls[0]), env, calls[1..], cmd);
    }
  }

  lemma {:induction false} PoolExactlyWhenSettled(v: Server, env: Env, calls: seq<Call>, cmd: nat)
    requires ServerInv(v) && Roomy(v, env, calls) && cmd !in v.rt.idle
    ensures cmd in Run(v, env, calls).rt.idle <==> FirstToSettle(calls, cmd).Some?
    decreases calls
  {
    if calls != [] {
      var v', c := Next(v, env, calls[0]), calls[0];
      NextKeeps(v, env, c);
      hide ServerInv, Next, Settles;
      if Settles(c, cmd) {
        SettlingCall(v, env, c, cmd);
        PoolsStay(v', env, calls[1..], cmd);
      } else {
        OthersMakeNoPool(v, env, c, cmd);
        PoolExactlyWhenSettled(v', env, calls[1..], cmd);
      }
    }
  }

  /** What RegisterCmd answers: in every run, true exactly when no call before has settled the
      command. Answered true, the command then has as many objects as asked for, all of them idle;
      answered false, nothing has changed. */
  lemma RegistrationAnswersExactly(now: nat, env: Env, calls: seq<Call>, cmd: nat, count: int)
    requires Roomy(Start(now), env, calls)
    ensures var v := Run(Start(now), env, calls);
      var v', answer := RegisterCmd(v, cmd, count), Register(v.rt, cmd, count).1;
      && (answer <==> FirstToSettle(calls, cmd) == None)
      && (answer && count > 0 ==>
           |IdleOf(v'.rt, cmd)| == count == Count(v'.registered, cmd) && Owners(v'.rt, cmd) == {})
      && (!answer ==> v' == v)
  {
    StartHolds(now);
    RunKeeps(Start(now), env, calls);
    PoolExactlyWhenSettled(Start(now), env, calls, cmd);
    var v := Run(Start(now), env, calls);
    hide Run, FirstToSettle, Start, Roomy;
    if cmd !in v.rt.idle {
      NeverRegistered(v, cmd);
      NobodyOwns(v, cmd);
      hide ServerInv;
      assert Owners(RegisterCmd(v, cmd, count).rt, cmd) == Owners(v.rt, cmd);
    }
  }

  /** The first registration of a fresh server. */
  lemma FreshRegistration(now: nat)
    ensures Register(Start(now).rt, 1, 3) == (Start(now).rt.(idle := map[1 := [0, 1, 2]]), true)
  {
    assert seq(3, i => i) == [0, 1, 2];
  }

  lemma {:induction false} FirstSettles(calls: seq<Call>, cmd: nat)
    ensures FirstToSettle(calls, cmd).Some? ==> Settles(FirstToSettle(calls, cmd).value, cmd)
  {
    if calls != [] && !Settles(calls[0], cmd) {
      FirstSettles(calls[1..], cmd);
    }
  }

  /** The run that goes wrong: a message, then the registration, which is refused. */
  lemma {:induction false} EarlyMessageRun(now: nat, env: Env, cmd: nat, msg: nat, n: nat, later: nat)
    requires n > 0
    ensures var v1 := Run(Start(now), env, [Arrival(cmd, 0, msg)]);
      var v2 := Run(Start(now), env, [Arrival(cmd, 0, msg), RegisterCall(cmd, n)]);
      && !Register(v1.rt, cmd, n).1 && cmd !in v2.registered && OnMsg(v2.rt, env, cmd, 0, later).1 == -1
  {
    var v0 := Start(now);
    var v1 := v0.(rt := v0.rt.(idle := map[cmd := []]));
    assert Next(v0, env, Arrival(cmd, 0, msg)) == v1 && Next(v1, env, RegisterCall(cmd, n)) == v1;
    var calls := [Arrival(cmd, 0, msg), RegisterCall(cmd, n)];
    assert calls[1..] == [RegisterCall(cmd, n)] && calls[1..][1..] == [] && [calls[0]][1..] == [];
    assert Run(v1, env, calls[1..]) == Run(v1, env, []);
  }
}
