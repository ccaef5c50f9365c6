/** The objects themselves: CoTask with its coroutine pool and its timer, the transaction pools and
    TransMgr, updated in place. Every method is proved to do what the functions of Coroutines and
    Transactions say, so their theorems hold of these objects. */
module Runtime {
  import opened Bytes
  import opened Coroutines
  import M = Transactions
  import T = Timer

  /** trans_map_: a pool of objects for each command. */
  class Pools {
    var idle: map<nat, seq<nat>>

    constructor ()
      ensures idle == map[]
    {
      idle := map[];
    }

    /** The subscript operator of the map: an unknown command gets an empty pool. */
    method Touch(cmd: nat)
      modifies this
      ensures idle == old(idle)[cmd := if cmd in old(idle) then old(idle)[cmd] else []]
    {
      if cmd !in idle {
        idle := idle[cmd := []];
      } else {
        assert idle == idle[cmd := idle[cmd]];
      }
    }

    /** A new object, and the deleter of a shared one. */
    method Add(cmd: nat, id: nat)
      modifies this
      ensures idle == old(idle)[cmd := (if cmd in old(idle) then old(idle)[cmd] else []) + [id]]
    {
      Touch(cmd);
      idle := idle[cmd := idle[cmd] + [id]];
    }

    /** None stands for the exception on an empty pool. */
    method GetShared(cmd: nat) returns (id: Option<nat>)
      requires cmd in idle
      modifies this
      ensures old(idle)[cmd] == [] ==> id == None && idle == old(idle)
      ensures old(idle)[cmd] != [] ==> id.Some? && cmd in idle && old(idle)[cmd] == idle[cmd] + [id.value]
      ensures idle == old(idle)[cmd := idle[cmd]]
    {
      var all := idle[cmd];
      if |all| == 0 {
        return None;
      }
      idle := idle[cmd := all[..|all| - 1]];
      return Some(all[|all| - 1]);
    }
  }

  /** CoTask, the fields of its CoPool included. `batch` and `firing` are the nodes that a running
      DoTimeOutTask still holds alive; `clock` is the last reading of the clock, `turns` counts what
      the coroutines did. History: `world`, `log` and `safe`. */
  class CoTask {
    var freeCoroutine: seq<Coroutine>
    var actionCoroutine: map<nat, Coroutine>
    var incCoId: nat
    var coIdTimerId: map<nat, T.TimerId>
    const timer: T.Timer<Wake>
    const pools: Pools
    var batch: seq<T.TimerNode<Wake>>
    var firing: seq<T.TimerNode<Wake>>
    var clock: nat
    var turns: nat
    ghost var world: T.World<Wake>
    ghost var log: seq<Resumption>
    ghost var safe: bool

    ghost predicate Valid()
      reads this, timer
    {
      && world.timerSet == timer.timerSet && world.cancelList == timer.cancelList
      && world.batch == batch && world.firing == firing && world.clock == clock
    }

    ghost function State(): Rt
      reads this, timer, pools
    {
      Rt(freeCoroutine, actionCoroutine, incCoId, world, coIdTimerId, pools.idle, turns, log, safe)
    }

    constructor (now: nat)
      ensures Valid() && State() == M.Start(now).rt && fresh(timer) && fresh(pools)
    {
      freeCoroutine, actionCoroutine, incCoId, coIdTimerId := [], map[], 0, map[];
      timer := new T.Timer();
      pools := new Pools();
      batch, firing, clock, turns := [], [], now, 0;
      world, log, safe := T.Initial(now), [], true;
    }

    method NextId() returns (id: nat)
      modifies this`incCoId
      ensures id == incCoId == GetCoId(old(incCoId))
    {
      incCoId := (incCoId + 1) % CO_ID_LIMIT;
      if incCoId == 0 {
        incCoId := incCoId + 1;
      }
      return incCoId;
    }

    method NewCoroutine(task: Task) returns (coId: nat)
      requires Valid()
      modifies this`freeCoroutine, this`actionCoroutine, this`incCoId
      ensures Valid() && State() == Coroutines.NewCoroutine(old(State()), task)
      ensures coId == NextCoId(old(State()))
    {
      if |freeCoroutine| == 0 {
        var id := NextId();
        freeCoroutine := freeCoroutine + [Coroutine(id, None, 0, false, Fresh, 0, 0)];
      }
      var co := freeCoroutine[0];
      freeCoroutine := freeCoroutine[1..];
      co := co.(task := Some(task), phase := Fresh, life := co.life + 1);
      actionCoroutine := actionCoroutine[co.coId := co];
      return co.coId;
    }

    method FreeCoroutine(coId: nat)
      requires Valid()
      modifies this`freeCoroutine, this`actionCoroutine, pools
      ensures Valid() && State() == Coroutines.FreeCoroutine(old(State()), coId)
    {
      if coId !in actionCoroutine {
        return;
      }
      var co := actionCoroutine[coId];
      freeCoroutine := freeCoroutine + [co.(task := None, phase := Fresh)];
      match co.task {
        case Some(Transaction(cmd, id)) => pools.Add(cmd, id);
        case _ =>
      }
      actionCoroutine := actionCoroutine - {coId};
    }

    method CancelTimer(coId: nat)
      requires Valid()
      modifies this`coIdTimerId, this`world, timer
      ensures Valid() && State() == Coroutines.CancelTimer(old(State()), coId)
    {
      if coId in coIdTimerId {
        timer.CancelTimer(coIdTimerId[coId]);
        world := T.Cancel(world, coIdTimerId[coId]);
        coIdTimerId := coIdTimerId - {coId};
      }
    }

    /** A one-shot timer for a coroutine, at a new reading of the clock. */
    method AddWake(env: Env, wake: Wake, timeout: int) returns (id: T.TimerId)
      requires Valid()
      modifies this`clock, this`world, timer
      ensures Valid() && clock == old(clock) + env.pause(turns)
      ensures var addr := env.alloc(turns, old(world).Addresses());
        id == T.ArmedId(clock, addr) && world == T.Arm(old(world), clock, timeout, wake, false, addr)
    {
      hide T.Insert, T.Second;
      var addr := env.alloc(turns, T.AddressesOf(firing + batch + timer.timerSet));
      clock := clock + env.pause(turns);
      T.ArmFields(world, clock, timeout, wake, false, addr);
      hide T.Arm;
      world := T.Arm(world, clock, timeout, wake, false, addr);
      id := timer.AddTimer(clock, timeout, wake, false, addr);
    }

    /** The coroutine gives control back for at most `timeout` milliseconds. */
    method Yield(env: Env, coId: nat, timeout: int)
      requires Valid() && coId in actionCoroutine
      modifies this`coIdTimerId, this`actionCoroutine, this`clock, this`world, this`safe, timer
      ensures Valid() && State() == Coroutines.Yield(old(State()), env, coId, timeout)
    {
      hide T.SafeArm, T.Second, T.Arm;
      var co := actionCoroutine[coId];
      var id := AddWake(env, Wake(coId, co.life), timeout);
      safe := safe && T.SafeArm(clock, timeout);
      coIdTimerId := coIdTimerId[coId := id];
      actionCoroutine := actionCoroutine[coId := co.(phase := Suspended, until := clock + timeout)];
    }

    /** Resume and ResumeWithMsg: the record is made ready and control moves to the coroutine; if it
        waits in Yield, that reads and clears the flag. */
    method Enter(coId: nat, how: How)
      requires Valid() && coId in actionCoroutine
      modifies this`actionCoroutine, this`turns, this`log
      ensures Valid() && State() == Coroutines.Enter(old(State()), coId, how)
    {
      var co := actionCoroutine[coId];
      ghost var result: Option<int> := None;
      var ready := co;
      match how {
        case ByCall => ready := co.(byTimeOut := false);
        case ByMessage(m) => ready := co.(msg := m);
        case ByTimer(_) => ready := co.(byTimeOut := true);
      }
      if co.phase == Suspended {
        result := if ready.byTimeOut then Some(-1) else Some(0);
        ready := ready.(byTimeOut := false);
      }
      actionCoroutine := actionCoroutine[coId := ready.(phase := Running)];
      turns := turns + 1;
      log := log + [Resumption(coId, co.life, how, ready.msg, result, clock, co.until)];
    }

    /** ResumeOne and ResumeOneWithMsg, up to the return of control to the main loop. */
    method ResumeOne(env: Env, coId: nat, how: How) returns (ret: int)
      requires Valid()
      modifies this, timer, pools
      ensures Valid() && State() == Coroutines.ResumeOne(old(State()), env, coId, how)
      ensures ret == if coId in old(actionCoroutine) then 0 else -1
    {
      CancelTimer(coId);
      if coId !in actionCoroutine {
        return -1;
      }
      Enter(coId, how);
      match env.behave(turns) {
        case YieldFor(timeout) => Yield(env, coId, timeout);
        case Finish => FreeCoroutine(coId);
      }
      return 0;
    }

    /** The timer's DoTimeOutTask, whose tasks are those of this object. */
    method DoTimeOutTask(env: Env, now: nat)
      requires Valid() && batch == [] && firing == []
      modifies this, timer, pools
      ensures Valid() && State() == Coroutines.DoTimeOutTask(old(State()), env, now)
      ensures batch == [] && firing == []
    {
      clock := now;
      world := T.Tick(world, now);
      batch := timer.TakeDue(now);
      ghost var ticked := State();
      hide FireAll;
      while |batch| > 0
        invariant Valid() && firing == [] && world.tick == now
        invariant FireAll(State(), env) == FireAll(ticked, env)
        decreases |batch|
      {
        FireNext(env, now);
      }
      FireAllOfNothing(State(), env);
    }

    /** The look at the next node of the batch: dropped if it was cancelled, else about to fire. */
    method FetchNext() returns (item: T.TimerNode<Wake>, cancelled: bool)
      requires Valid() && batch != [] && firing == []
      modifies this`batch, this`firing, this`world, timer
      ensures Valid() && item == old(batch)[0] && (cancelled <==> T.Skips(old(State()).timers))
      ensures State() == old(State()).(timers := T.Process(old(State()).timers))
      ensures batch == old(batch)[1..] && firing == if cancelled then [] else [item]
    {
      item := batch[0];
      cancelled := timer.ConsumeCancel(item);
      batch := batch[1..];
      world := T.Process(world);
      if !cancelled {
        firing := [item];
      }
    }

    /** The end of a task. */
    method FinishTask(item: T.TimerNode<Wake>, now: nat)
      requires Valid() && firing == [item] && world.tick == now
      modifies this`firing, this`world, timer
      ensures Valid() && State() == old(State()).(timers := T.Done(old(State()).timers))
      ensures firing == []
    {
      hide T.Insert;
      timer.Rearm(now, item);
      world := T.Done(world);
      firing := [];
    }

    /** One round of the loop over the batch. */
    method FireNext(env: Env, now: nat)
      requires Valid() && batch != [] && firing == [] && world.tick == now
      modifies this, timer, pools
      ensures Valid() && firing == [] && world.tick == now && batch == old(batch)[1..]
      ensures FireAll(State(), env) == FireAll(old(State()), env)
    {
      FireAllUnfolds(State(), env);
      assert T.Process(world).tick == world.tick;
      assert forall w: T.World<Wake> :: w.firing != [] ==> T.Done(w).tick == w.tick;
      hide Coroutines.ResumeOne, T.Insert, FireAll, T.Process, T.Done, T.Skips;
      var item, cancelled := FetchNext();
      if !cancelled {
        ResumeOneIsLater(State(), env, item.info.task.coId, ByTimer(item.info.task));
        var _ := ResumeOne(env, item.info.task.coId, ByTimer(item.info.task));
        FinishTask(item, now);
      }
    }
  }

  class TransMgr {
    const coTask: CoTask

    constructor (coTask: CoTask)
      ensures this.coTask == coTask
    {
      this.coTask := coTask;
    }

    method RegisterCmd(cmd: nat, count: int) returns (ok: bool)
      requires coTask.Valid()
      modifies coTask.pools
      ensures coTask.Valid() && (coTask.State(), ok) == M.Register(old(coTask.State()), cmd, count)
      ensures ok <==> cmd !in old(coTask.pools.idle)
    {
      if cmd in coTask.pools.idle {
        return false;
      }
      ghost var was := coTask.pools.idle;
      var i := 0;
      while i < count
        invariant 0 <= i && (count > 0 ==> i <= count) && (count <= 0 ==> i == 0)
        invariant coTask.pools.idle == if i == 0 then was else was[cmd := seq(i, k => k)]
      {
        coTask.pools.Add(cmd, i);
        assert seq(i, k => k) + [i] == seq(i + 1, k => k);
        i := i + 1;
      }
      return true;
    }

    method OnMsg(env: Env, cmd: nat, coId: nat, msg: nat) returns (ret: int)
      requires coTask.Valid()
      modifies coTask, coTask.timer, coTask.pools
      ensures coTask.Valid() && (coTask.State(), ret) == M.OnMsg(old(coTask.State()), env, cmd, coId, msg)
    {
      if coId == 0 {
        coTask.pools.Touch(cmd);
        if |coTask.pools.idle[cmd]| == 0 {
          return -1;
        }
        var id := coTask.pools.GetShared(cmd);
        var co := coTask.NewCoroutine(Transaction(cmd, id.value));
        ret := coTask.ResumeOne(env, co, ByMessage(msg));
        return;
      }
      if coId !in coTask.actionCoroutine {
        return -1;
      }
      ret := coTask.ResumeOne(env, coId, ByMessage(msg));
    }

    method TickTimeOutCo(env: Env, now: nat)
      requires coTask.Valid() && coTask.batch == [] && coTask.firing == []
      modifies coTask, coTask.timer, coTask.pools
      ensures coTask.Valid() && coTask.State() == Coroutines.DoTimeOutTask(old(coTask.State()), env, now)
      ensures coTask.batch == [] && coTask.firing == []
    {
      coTask.DoTimeOutTask(env, now);
    }
  }
}
