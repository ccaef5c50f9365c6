/** Timeouts that arrive: in runs whose timers are all due in a later second than the one they were
    armed in, every suspended coroutine has its timer and none oversleeps. */
module Timeouts {
  import opened Bytes
  import opened Coroutines
  import opened Transactions
  import T = Timer

  /** What is asked of a run, judged by where it ends: no timeout so short that it was due in the
      second it began in, and less than 2^32 seconds from the start. */
  predicate Tame(s: Rt) { s.safe && T.InWindow(s.timers) }

  /** Every entry of the map has a timer that will fire. */
  ghost predicate Backed(s: Rt) {
    forall k <- s.timerOf :: exists n :: Armed(s, n) && n.info.task.coId == k
  }

  ghost predicate Punctual(s: Rt) { T.Inv(s.timers) && Backed(s) }

  ghost predicate Inv(s: Rt) { Orderly(s) && Faithful(s) && Punctual(s) }

  // ---- Steps ----

  /** The same map, and each timer that will fire still does. */
  lemma SameArmed(s: Rt, s': Rt)
    requires Backed(s) && s'.timerOf == s.timerOf
    requires forall n :: Armed(s, n) ==> Armed(s', n)
    ensures Backed(s')
  {
    forall k <- s'.timerOf ensures exists n :: Armed(s', n) && n.info.task.coId == k {
      var n :| Armed(s, n) && n.info.task.coId == k;
      assert Armed(s', n);
    }
  }

  lemma SameTimers(s: Rt, s': Rt)
    requires Punctual(s) && s'.timers == s.timers && s'.timerOf == s.timerOf
    ensures Punctual(s')
  {
    hide T.Inv;
    assert forall n :: Armed(s', n) <==> Armed(s, n);
    SameArmed(s, s');
  }

  /** A timer of the map is pending, and its id names it alone. */
  lemma MapNames(s: Rt, c: nat) returns (node: T.TimerNode<Wake>)
    requires Faithful(s) && Punctual(s) && c in s.timerOf
    ensures Armed(s, node) && node.info.task.coId == c && node.info.Id() == s.timerOf[c]
    ensures s.timerOf[c] in s.timers.issued
    ensures forall n :: Armed(s, n) ==> (n.info.Id() == s.timerOf[c] <==> n.info.task.coId == c)
  {
    node :| Armed(s, node) && node.info.task.coId == c;
    T.PendingIsUnique(s.timers);
    hide T.Inv, T.Layout, OneShot, FlagsDown, GoodLog;
  }

  /** One timer fewer that will fire: that of coroutine c, which leaves the map. */
  lemma RemovedBacks(s: Rt, s': Rt, c: nat)
    requires Backed(s) && s'.timerOf == s.timerOf - {c}
    requires forall n :: Armed(s, n) && n.info.task.coId != c ==> Armed(s', n)
    ensures Backed(s')
  {
    forall k <- s'.timerOf ensures exists n :: Armed(s', n) && n.info.task.coId == k {
      var n :| Armed(s, n) && n.info.task.coId == k;
      assert Armed(s', n);
    }
  }

  /** Cancelling before a resume takes exactly this coroutine's timer from those that will fire. */
  lemma CancelTakesItsTimer(s: Rt, c: nat)
    requires Faithful(s) && Punctual(s)
    ensures Punctual(CancelTimer(s, c))
    ensures forall n :: Armed(CancelTimer(s, c), n) <==> Armed(s, n) && n.info.task.coId != c
  {
    if c in s.timerOf {
      var node := MapNames(s, c);
      T.CancelKeeps(s.timers, s.timerOf[c]);
      T.WillFireAfterCancel(s.timers, s.timerOf[c]);
      hide T.Inv, T.WillFire, T.Cancel, Faithful;
      forall n ensures Armed(CancelTimer(s, c), n) <==> Armed(s, n) && n.info.task.coId != c {
        assert Armed(CancelTimer(s, c), n) <==> Armed(s, n) && n.info.Id() != s.timerOf[c];
      }
      RemovedBacks(s, CancelTimer(s, c), c);
    } else {
      hide T.Inv, T.WillFire, T.Layout, OneShot, FlagsDown, GoodLog;
    }
  }

  lemma YieldArms(s: Rt, env: Env, c: nat, timeout: int)
    requires T.Inv(s.timers) && Sound(env) && c in s.active && Tame(Yield(s, env, c, timeout))
    ensures var w, w', node := s.timers, Yield(s, env, c, timeout).timers, YieldNode(s, env, c, timeout);
      T.Inv(w') && forall n :: T.WillFire(w', n) <==> T.WillFire(w, n) || n == node
  {
    var addr, now := env.alloc(s.turns, s.timers.Addresses()), s.timers.clock + env.pause(s.turns);
    var w', node := Yield(s, env, c, timeout).timers, YieldNode(s, env, c, timeout);
    assert now / 1000 - s.timers.start / 1000 < T.SEQ_LIMIT && T.SafeArm(now, timeout);
    assert addr !in s.timers.Addresses();
    hide T.Arm, T.Inv, T.Second, T.SafeArm, T.WillFire, Tame, Sound, T.World.Addresses;
    T.ArmFires(s.timers, w', node, now, timeout, Wake(c, s.active[c].life), addr);
  }

  /** Going to sleep adds one timer, for this life. */
  lemma YieldStaysPunctual(s: Rt, env: Env, c: nat, timeout: int)
    requires Punctual(s) && Sound(env) && c in s.active && Tame(Yield(s, env, c, timeout))
    ensures Punctual(Yield(s, env, c, timeout))
    ensures forall n :: Armed(Yield(s, env, c, timeout), n) <==> Armed(s, n) || n == YieldNode(s, env, c, timeout)
  {
    var s', node := Yield(s, env, c, timeout), YieldNode(s, env, c, timeout);
    YieldArms(s, env, c, timeout);
    assert node.info.task.coId == c && s'.timerOf == s.timerOf[c := node.info.Id()];
    hide T.Inv, T.WillFire, Sound, Tame, Yield, YieldNode;
    forall n ensures Armed(s', n) <==> Armed(s, n) || n == node {
    }
    forall k <- s'.timerOf ensures exists n :: Armed(s', n) && n.info.task.coId == k {
      if k == c {
        assert Armed(s', node);
      } else {
        var n :| Armed(s, n) && n.info.task.coId == k;
        assert Armed(s', n);
      }
    }
  }

  lemma LeaveStaysPunctual(s: Rt, env: Env, c: nat)
    requires Punctual(s) && Sound(env) && c in s.active && Tame(Leave(s, env, c))
    ensures Punctual(Leave(s, env, c))
  {
    hide Punctual, Tame;
    match env.behave(s.turns) {
      case YieldFor(timeout) => YieldStaysPunctual(s, env, c, timeout);
      case Finish =>
        FreedFields(s, c);
        SameTimers(s, FreeCoroutine(s, c));
    }
  }

  lemma ResumeOneStaysPunctual(s: Rt, env: Env, c: nat, how: How)
    requires Punctual(CancelTimer(s, c)) && Sound(env) && Tame(ResumeOne(s, env, c, how))
    ensures Punctual(ResumeOne(s, env, c, how))
  {
    assert CancelTimer(s, c).active == s.active;
    hide Punctual, Tame, Leave, CancelTimer;
    if c in s.active {
      SameTimers(CancelTimer(s, c), Enter(CancelTimer(s, c), c, how));
      LeaveStaysPunctual(Enter(CancelTimer(s, c), c, how), env, c);
    }
  }

  lemma NewCoroutineKeeps(s: Rt, task: Task)
    requires Inv(s) && HasRoom(s)
    ensures Inv(NewCoroutine(s, task))
  {
    hide Orderly, Faithful, Punctual;
    NewCoroutineStaysOrderly(s, task);
    NewCoroutineStaysFaithful(s, task);
    SameTimers(s, NewCoroutine(s, task));
  }

  lemma ResumeOneKeeps(s: Rt, env: Env, c: nat, how: How)
    requires Inv(s) && Sound(env) && !how.ByTimer? && Tame(ResumeOne(s, env, c, how))
    ensures Inv(ResumeOne(s, env, c, how))
  {
    hide Orderly, Faithful, Punctual, Tame, ResumeOne;
    ResumeOneStaysOrderly(s, env, c, how);
    ResumeOneStaysFaithful(s, env, c, how);
    CancelTakesItsTimer(s, c);
    ResumeOneStaysPunctual(s, env, c, how);
  }

  // ---- Batches ----

  /** The node about to fire is taken; with the cancelling that follows its coroutine leaves the map. */
  lemma FireStaysPunctual(s: Rt)
    requires Orderly(s) && Faithful(s) && Punctual(s) && s.timers.firing == []
    requires s.timers.batch != [] && !T.Skips(s.timers)
    ensures Punctual(CancelTimer(s.(timers := T.Process(s.timers)), s.timers.batch[0].info.task.coId))
  {
    var w, w1, c := s.timers, T.Process(s.timers), s.timers.batch[0].info.task.coId;
    FiredIsWaiting(s);
    var node := MapNames(s, c);
    assert w1.issued == w.issued;
    T.ProcessKeeps(w);
    T.WillFireAfterProcess(w);
    hide T.Inv, T.WillFire, T.Cancel, T.Process, T.Skips, Orderly, Faithful;
    T.CancelKeeps(w1, s.timerOf[c]);
    T.WillFireAfterCancel(w1, s.timerOf[c]);
    var s' := CancelTimer(s.(timers := w1), c);
    forall n | Armed(s, n) && n.info.task.coId != c ensures Armed(s', n) {
      assert n.info.Id() != s.timerOf[c];
    }
    RemovedBacks(s, s', c);
  }

  /** A step of the timer after which the same nodes will fire. */
  lemma TimersKeep(s: Rt, w: T.World<Wake>)
    requires Inv(s) && T.Inv(w) && Faithful(s.(timers := w))
    requires forall n :: T.WillFire(s.timers, n) ==> T.WillFire(w, n)
    ensures Inv(s.(timers := w))
  {
    hide T.Inv, T.WillFire, Orderly, Faithful;
    TimersStayOrderly(s, w);
    forall n | Armed(s, n) ensures Armed(s.(timers := w), n) {
    }
    SameArmed(s, s.(timers := w));
  }

  lemma SkipKeeps(s: Rt)
    requires Inv(s) && s.timers.firing == [] && s.timers.batch != [] && T.Skips(s.timers)
    ensures Inv(s.(timers := T.Process(s.timers)))
  {
    T.ProcessKeeps(s.timers);
    T.WillFireAfterSkip(s.timers);
    ProcessStaysFaithful(s);
    hide T.Inv, Orderly, Faithful, Backed, T.WillFire, T.Process, T.Skips;
    TimersKeep(s, T.Process(s.timers));
  }

  lemma DoneKeeps(s: Rt)
    requires Inv(s) && |s.timers.firing| == 1
    ensures Inv(s.(timers := T.Done(s.timers)))
  {
    FiringDies(s);
    T.DoneKeeps(s.timers);
    T.WillFireAfterDone(s.timers);
    DoneStaysFaithful(s);
    hide T.Inv, Orderly, Faithful, Backed, T.WillFire, T.Done;
    TimersKeep(s, T.Done(s.timers));
  }

  lemma TickKeeps(s: Rt, now: nat)
    requires Inv(s) && s.timers.batch == [] && s.timers.firing == [] && now >= s.timers.clock
    ensures Inv(s.(timers := T.Tick(s.timers, now)))
  {
    T.TickKeeps(s.timers, now);
    T.WillFireAfterTick(s.timers, now);
    TickStaysFaithful(s, now);
    hide T.Inv, Orderly, Faithful, Backed, T.WillFire, T.Tick;
    TimersKeep(s, T.Tick(s.timers, now));
  }

  /** When a whole batch ends tame, so does the turn of its first task. */
  lemma TurnIsTame(s: Rt, env: Env)
    requires T.Inv(s.timers) && s.timers.firing == [] && Tame(FireAll(s, env))
    requires s.timers.batch != [] && !T.Skips(s.timers)
    ensures var wake := s.timers.batch[0].info.task;
      Tame(ResumeOne(s.(timers := T.Process(s.timers)), env, wake.coId, ByTimer(wake)))
  {
    var p, wake := s.(timers := T.Process(s.timers)), s.timers.batch[0].info.task;
    var q := ResumeOne(p, env, wake.coId, ByTimer(wake));
    assert s.timers.start <= s.timers.clock;
    ResumeOneIsLater(p, env, wake.coId, ByTimer(wake));
    FireAllIsLater(q.(timers := T.Done(q.timers)), env);
    FireAllUnfolds(s, env);
    hide T.Inv, ResumeOne, FireAll, T.Skips;
  }

  /** One task of the batch, from the look at its node to the end of the coroutine's turn. */
  lemma FireOnceKeeps(s: Rt, env: Env)
    requires Inv(s) && Sound(env) && s.timers.firing == [] && Tame(FireAll(s, env))
    requires s.timers.batch != [] && !T.Skips(s.timers)
    ensures var wake := s.timers.batch[0].info.task;
      var q := ResumeOne(s.(timers := T.Process(s.timers)), env, wake.coId, ByTimer(wake));
      Inv(q.(timers := T.Done(q.timers)))
  {
    var p, wake := s.(timers := T.Process(s.timers)), s.timers.batch[0].info.task;
    var q := ResumeOne(p, env, wake.coId, ByTimer(wake));
    assert |p.timers.firing| == 1 && q.timers.firing == p.timers.firing;
    TurnIsTame(s, env);
    hide Orderly, Faithful, Punctual, Tame, ResumeOne, FireAll, T.Process, T.Skips;
    FireStaysPunctual(s);
    TimersStayOrderly(s, T.Process(s.timers));
    ResumeOneStaysOrderly(p, env, wake.coId, ByTimer(wake));
    FireOnceStaysFaithful(s, env);
    ResumeOneStaysPunctual(p, env, wake.coId, ByTimer(wake));
    DoneKeeps(q);
  }

  lemma {:induction false} FireAllKeeps(s: Rt, env: Env)
    requires Inv(s) && Sound(env) && s.timers.firing == [] && Tame(FireAll(s, env))
    ensures Inv(FireAll(s, env))
    decreases |s.timers.batch|
  {
    if s.timers.batch != [] {
      var w := s.timers;
      var p := s.(timers := T.Process(w));
      if T.Skips(w) {
        SkipKeeps(s);
        hide Inv, Tame;
        FireAllKeeps(p, env);
      } else {
        FireOnceKeeps(s, env);
        var wake := w.batch[0].info.task;
        var q := ResumeOne(p, env, wake.coId, ByTimer(wake));
        hide Inv, Tame, ResumeOne;
        FireAllKeeps(q.(timers := T.Done(q.timers)), env);
      }
    }
  }

  lemma DoTimeOutTaskKeeps(s: Rt, env: Env, now: nat)
    requires Inv(s) && Sound(env) && s.timers.batch == [] && s.timers.firing == [] && now >= s.timers.clock
    requires Tame(DoTimeOutTask(s, env, now))
    ensures Inv(DoTimeOutTask(s, env, now))
  {
    TickKeeps(s, now);
    hide Inv, Tame, FireAll;
    FireAllKeeps(s.(timers := T.Tick(s.timers, now)), env);
  }

  // ---- Nobody oversleeps ----

  /** All that is due by the tick is in the batch. */
  ghost predicate Swept(w: T.World<Wake>) {
    forall n :: n in w.Pending() ==> n in w.batch || n.due > w.tick
  }

  lemma YieldStaysSwept(s: Rt, env: Env, c: nat, timeout: int)
    requires T.Layout(s.timers) && Sound(env) && c in s.active
    requires Tame(Yield(s, env, c, timeout)) && Swept(s.timers)
    ensures Swept(Yield(s, env, c, timeout).timers)
  {
    YieldAdds(s, env, c, timeout);
    assert s.timers.tick <= s.timers.clock;
    hide T.Insert, T.Layout;
  }

  lemma ResumeOneStaysSwept(s: Rt, env: Env, c: nat, how: How)
    requires T.Layout(s.timers) && Sound(env) && Swept(s.timers) && Tame(ResumeOne(s, env, c, how))
    ensures Swept(ResumeOne(s, env, c, how).timers)
  {
    var cancelled := CancelTimer(s, c);
    assert Swept(cancelled.timers);
    assert cancelled.timers.Live() == s.timers.Live();
    if c in s.active {
      var e := Enter(cancelled, c, how);
      assert Swept(e.timers) && T.Layout(e.timers);
      hide T.Layout, Swept, Tame, CancelTimer, Enter, Yield;
      match env.behave(e.turns) {
        case YieldFor(timeout) => YieldStaysSwept(e, env, c, timeout);
        case Finish =>
      }
    }
  }

  lemma ProcessStaysSwept(w: T.World<Wake>)
    requires T.Layout(w) && Swept(w) && w.batch != [] && w.firing == []
    ensures Swept(T.Process(w))
  {
    T.PendingAfterProcess(w);
    hide T.Layout;
    var w' := T.Process(w);
    assert w.batch == [w.batch[0]] + w'.batch;
    forall n | n in w'.Pending() ensures n in w'.batch || n.due > w'.tick {
      assert n in w.Pending() && n != w.batch[0];
    }
  }

  lemma DoneStaysSwept(w: T.World<Wake>)
    requires Swept(w) && |w.firing| == 1 && !w.firing[0].info.repeating
    ensures Swept(T.Done(w))
  {
    assert T.Done(w).Pending() == w.Pending();
  }

  /** One task of the batch leaves nothing due behind. */
  lemma FireStaysSwept(s: Rt, env: Env)
    requires Inv(s) && Sound(env) && s.timers.firing == [] && Tame(FireAll(s, env))
    requires s.timers.batch != [] && !T.Skips(s.timers) && Swept(s.timers)
    ensures var wake := s.timers.batch[0].info.task;
      var q := ResumeOne(s.(timers := T.Process(s.timers)), env, wake.coId, ByTimer(wake));
      Swept(T.Done(q.timers))
  {
    var p, wake := s.(timers := T.Process(s.timers)), s.timers.batch[0].info.task;
    var q := ResumeOne(p, env, wake.coId, ByTimer(wake));
    assert |p.timers.firing| == 1 && q.timers.firing == p.timers.firing;
    TurnIsTame(s, env);
    T.ProcessLayout(s.timers);
    ProcessStaysSwept(s.timers);
    FireOnceStaysFaithful(s, env);
    FiringDies(q);
    hide Inv, Faithful, T.Layout, Swept, ResumeOne, FireAll, Tame, T.Process;
    ResumeOneStaysSwept(p, env, wake.coId, ByTimer(wake));
    DoneStaysSwept(q.timers);
  }

  lemma {:induction false} FireAllStaysSwept(s: Rt, env: Env)
    requires Inv(s) && Sound(env) && s.timers.firing == [] && Tame(FireAll(s, env))
    requires Swept(s.timers)
    ensures Swept(FireAll(s, env).timers)
    decreases |s.timers.batch|
  {
    if s.timers.batch != [] {
      var p, wake := s.(timers := T.Process(s.timers)), s.timers.batch[0].info.task;
      if T.Skips(s.timers) {
        SkipKeeps(s);
        ProcessStaysSwept(s.timers);
        hide Inv, Tame, Swept;
        FireAllStaysSwept(p, env);
      } else {
        FireOnceKeeps(s, env);
        FireStaysSwept(s, env);
        hide Inv, Tame, ResumeOne, Swept;
        var q := ResumeOne(p, env, wake.coId, ByTimer(wake));
        FireAllStaysSwept(q.(timers := T.Done(q.timers)), env);
      }
    }
  }

  lemma TickSweeps(w: T.World<Wake>, now: nat)
    requires T.Layout(w) && w.batch == []
    ensures Swept(T.Tick(w, now))
  {
    T.DuePrefix(w.timerSet, now);
  }

  /** Where nothing is due, each sleeper has a timer due later. */
  lemma SleepersAreLater(s: Rt)
    requires Inv(s) && Swept(s.timers) && s.timers.batch == []
    ensures forall k :: Sleeps(s, k) ==>
      exists n :: Armed(s, n) && n.info.task == Wake(k, s.active[k].life) && n.due > s.timers.tick
  {
    hide T.Inv, T.Layout, Records, OneShot, FlagsDown, GoodLog;
    forall k | Sleeps(s, k)
      ensures exists n :: Armed(s, n) && n.info.task == Wake(k, s.active[k].life) && n.due > s.timers.tick
    {
      var n :| Armed(s, n) && n.info.task.coId == k;
      assert n in s.timers.Pending();
    }
  }

  /** After a tick at `now` every coroutine still waiting waits for a timer due after `now`: all
      whose time was up have been resumed, those that slept again during the tick included. */
  lemma NobodyOversleeps(s: Rt, env: Env, now: nat)
    requires Inv(s) && AtMain(s) && Sound(env) && now >= s.timers.clock
    requires Tame(DoTimeOutTask(s, env, now))
    ensures var s' := DoTimeOutTask(s, env, now);
      forall k :: Sleeps(s', k) ==>
        exists n :: Armed(s', n) && n.info.task == Wake(k, s'.active[k].life) && n.due > now
  {
    var t := s.(timers := T.Tick(s.timers, now));
    TickKeeps(s, now);
    TickSweeps(s.timers, now);
    hide Inv, Swept, FireAll, Tame;
    FireAllIsLater(t, env);
    FireAllStaysSwept(t, env);
    FireAllKeeps(t, env);
    SleepersAreLater(DoTimeOutTask(s, env, now));
  }

  /** At a tick at `now` every coroutine whose timeout has passed is resumed by its timer, whatever the
      others do during the tick. */
  lemma DueSleepersAreWoken(s: Rt, env: Env, now: nat, k: nat)
    requires Inv(s) && AtMain(s) && Sound(env)
    requires Sleeps(s, k) && s.active[k].until <= now
    ensures Woken(DoTimeOutTask(s, env, now).log, |s.log|, k)
  {
    var node := MapNames(s, k);
    assert node.due == s.active[k].until;
    hide Orderly, Faithful, Punctual, DoTimeOutTask;
    DueTimersWake(s, env, now, node);
  }

  // ---- One timer for each sleeper ----

  /** A suspended coroutine has exactly one timer that will fire, in the present life; any other
      coroutine, and any free id, has none. */
  lemma OneTimerEach(s: Rt, k: nat)
    requires Inv(s)
    ensures |TimersOf(s, k)| == if Sleeps(s, k) then 1 else 0
    ensures forall i <- TimersOf(s, k) :: s.timers.Pending()[i].info.task == Wake(k, s.active[k].life)
  {
    AtMostOneTimer(s, k);
    if k in s.timerOf {
      var n := MapNames(s, k);
      var i :| 0 <= i < |s.timers.Pending()| && s.timers.Pending()[i] == n;
      assert i in TimersOf(s, k);
    }
  }

  // ---- Every tame run ----

  lemma PoolsDoNotTick(s: Rt, idle: map<nat, seq<nat>>)
    requires Inv(s) && AtMain(s)
    ensures Inv(s.(idle := idle)) && AtMain(s.(idle := idle))
  {
    hide Orderly, Faithful, Punctual;
    PoolsDoNotMatter(s, idle);
    PoolsDoNotWake(s, idle);
    SameTimers(s, s.(idle := idle));
  }

  lemma OnMsgKeeps(s: Rt, env: Env, cmd: nat, coId: nat, msg: nat)
    requires Inv(s) && AtMain(s) && Sound(env) && HasRoom(s)
    requires Tame(OnMsg(s, env, cmd, coId, msg).0)
    ensures Inv(OnMsg(s, env, cmd, coId, msg).0)
  {
    hide Inv, AtMain, Tame, Sound, ResumeOne, NewCoroutine;
    if coId == 0 {
      var s0 := s.(idle := s.idle[cmd := IdleOf(s, cmd)]);
      PoolsDoNotTick(s, s0.idle);
      if IdleOf(s0, cmd) != [] {
        var all := s0.idle[cmd];
        var s1 := s0.(idle := s0.idle[cmd := all[..|all| - 1]]);
        PoolsDoNotTick(s0, s1.idle);
        NewCoroutineKeeps(s1, Transaction(cmd, all[|all| - 1]));
        ResumeOneKeeps(Take(s0, cmd), env, NextCoId(s0), ByMessage(msg));
      }
    } else if coId in s.active {
      ResumeOneKeeps(s, env, coId, ByMessage(msg));
    }
  }

  lemma NextKeepsInv(v: Server, env: Env, c: Call)
    requires Inv(v.rt) && AtMain(v.rt) && Sound(env) && HasRoom(v.rt)
    requires Tame(Next(v, env, c).rt)
    ensures Inv(Next(v, env, c).rt)
  {
    hide Inv, NoneRuns, Tame, Sound, ResumeOne, NewCoroutine, DoTimeOutTask, OnMsg;
    match c {
      case AddTask(name) => NewCoroutineKeeps(v.rt, Plain(name));
      case DoTask(name) =>
        NewCoroutineKeeps(v.rt, Plain(name));
        ResumeOneKeeps(NewCoroutine(v.rt, Plain(name)), env, NextCoId(v.rt), ByCall);
      case Resume(coId) => ResumeOneKeeps(v.rt, env, coId, ByCall);
      case Message(coId, msg) => ResumeOneKeeps(v.rt, env, coId, ByMessage(msg));
      case Tick(elapsed) => DoTimeOutTaskKeeps(v.rt, env, v.rt.timers.clock + elapsed);
      case RegisterCall(cmd, count) => PoolsDoNotTick(v.rt, Next(v, env, c).rt.idle);
      case Arrival(cmd, coId, msg) => OnMsgKeeps(v.rt, env, cmd, coId, msg);
    }
  }

  lemma {:induction false} RunIsLater(v: Server, env: Env, calls: seq<Call>)
    requires v.rt.timers.firing == []
    ensures Run(v, env, calls).rt.timers.start == v.rt.timers.start
    ensures Run(v, env, calls).rt.timers.clock >= v.rt.timers.clock
    ensures Run(v, env, calls).rt.safe ==> v.rt.safe
    decreases calls
  {
    hide Next;
    if calls != [] {
      NextIsLater(v, env, calls[0]);
      RunIsLater(Next(v, env, calls[0]), env, calls[1..]);
    }
  }

  /** The first call of a tame run keeps the invariant, and the rest of the run is as tame. */
  lemma StepOfRun(v: Server, env: Env, calls: seq<Call>)
    requires ServerInv(v) && Inv(v.rt) && Sound(env) && Roomy(v, env, calls)
    requires Tame(Run(v, env, calls).rt) && calls != []
    ensures ServerInv(Next(v, env, calls[0])) && Inv(Next(v, env, calls[0]).rt)
    ensures Roomy(Next(v, env, calls[0]), env, calls[1..])
    ensures Tame(Run(Next(v, env, calls[0]), env, calls[1..]).rt)
  {
    var v' := Next(v, env, calls[0]);
    assert v.rt.timers.start <= v.rt.timers.clock;
    hide Inv, Next, Conserved, Orderly, Sound, NoneRuns;
    NextKeeps(v, env, calls[0]);
    NextIsLater(v, env, calls[0]);
    RunIsLater(v', env, calls[1..]);
    assert Tame(v'.rt);
    NextKeepsInv(v, env, calls[0]);
  }

  lemma {:induction false} RunKeepsInv(v: Server, env: Env, calls: seq<Call>)
    requires ServerInv(v) && Inv(v.rt) && Sound(env) && Roomy(v, env, calls)
    requires Tame(Run(v, env, calls).rt)
    ensures ServerInv(Run(v, env, calls)) && Inv(Run(v, env, calls).rt)
    decreases calls
  {
    if calls != [] {
      StepOfRun(v, env, calls);
      hide ServerInv, Inv, Next, Tame, Sound;
      RunKeepsInv(Next(v, env, calls[0]), env, calls[1..]);
    }
  }

  lemma StartKeepsInv(now: nat)
    ensures ServerInv(Start(now)) && Inv(Start(now).rt) && Start(now).rt.timers.firing == []
  {
    StartHolds(now);
    hide Orderly, Faithful, ServerInv;
    assert Start(now).rt.timers.Live() == [];
  }

  /** Timeouts: in every tame run, after every call, a suspended coroutine has exactly one timer that
      will fire, for its present life, any other id has none, and the map of timers covers exactly
      the suspended coroutines. */
  lemma SleepersHaveOneTimer(now: nat, env: Env, calls: seq<Call>, k: nat)
    requires Sound(env) && Roomy(Start(now), env, calls) && Tame(Run(Start(now), env, calls).rt)
    ensures var s := Run(Start(now), env, calls).rt;
      && (k in s.timerOf <==> Sleeps(s, k)) && |TimersOf(s, k)| == (if Sleeps(s, k) then 1 else 0)
      && (forall i <- TimersOf(s, k) :: s.timers.Pending()[i].info.task == Wake(k, s.active[k].life))
  {
    StartKeepsInv(now);
    hide Orderly, Faithful, ServerInv, Inv, Run, Start, Tame, TimersOf, Sleeps;
    MapCoversSleepers(now, env, calls, k);
    RunKeepsInv(Start(now), env, calls);
    OneTimerEach(Run(Start(now), env, calls).rt, k);
  }

  // ---- Waits of a second or more ----

  ghost predicate Patient(env: Env) {
    forall k :: env.behave(k).YieldFor? ==> env.behave(k).timeout >= 1000
  }

  lemma ResumeStaysSafe(s: Rt, env: Env, c: nat, how: How)
    requires Patient(env) && s.safe
    ensures ResumeOne(s, env, c, how).safe
  {
    hide T.Arm, T.Cancel;
  }

  lemma {:induction false} FireAllStaysSafe(s: Rt, env: Env)
    requires Patient(env) && s.safe && s.timers.firing == []
    ensures FireAll(s, env).safe
    decreases |s.timers.batch|
  {
    hide ResumeOne, T.Skips;
    if s.timers.batch != [] {
      var p := s.(timers := T.Process(s.timers));
      if T.Skips(s.timers) {
        FireAllStaysSafe(p, env);
      } else {
        var wake := s.timers.batch[0].info.task;
        var q := ResumeOne(p, env, wake.coId, ByTimer(wake));
        ResumeStaysSafe(p, env, wake.coId, ByTimer(wake));
        FireAllStaysSafe(q.(timers := T.Done(q.timers)), env);
      }
    }
  }

  lemma NextStaysSafe(v: Server, env: Env, c: Call)
    requires Patient(env) && v.rt.safe && v.rt.timers.firing == []
    ensures Next(v, env, c).rt.safe
  {
    hide ResumeOne, FireAll, Patient;
    match c {
      case AddTask(name) =>
      case DoTask(name) => ResumeStaysSafe(NewCoroutine(v.rt, Plain(name)), env, NextCoId(v.rt), ByCall);
      case Resume(coId) => ResumeStaysSafe(v.rt, env, coId, ByCall);
      case Message(coId, msg) => ResumeStaysSafe(v.rt, env, coId, ByMessage(msg));
      case Tick(elapsed) => FireAllStaysSafe(v.rt.(timers := T.Tick(v.rt.timers, v.rt.timers.clock + elapsed)), env);
      case RegisterCall(cmd, count) =>
      case Arrival(cmd, coId, msg) => ArrivalStaysSafe(v.rt, env, cmd, coId, msg);
    }
  }

  lemma ArrivalStaysSafe(s: Rt, env: Env, cmd: nat, coId: nat, msg: nat)
    requires Patient(env) && s.safe
    ensures OnMsg(s, env, cmd, coId, msg).0.safe
  {
    hide ResumeOne, Patient;
    var s0 := s.(idle := s.idle[cmd := IdleOf(s, cmd)]);
    if coId == 0 && IdleOf(s0, cmd) != [] {
      ResumeStaysSafe(Take(s0, cmd), env, NextCoId(s0), ByMessage(msg));
    } else if coId != 0 {
      ResumeStaysSafe(s, env, coId, ByMessage(msg));
    }
  }

  /** Coroutines that always wait for a second or more make every run safe. */
  lemma {:induction false} LongTimeoutsAreSafe(v: Server, env: Env, calls: seq<Call>)
    requires Patient(env) && v.rt.safe && v.rt.timers.firing == []
    ensures Run(v, env, calls).rt.safe
    decreases calls
  {
    hide Next, Patient;
    if calls != [] {
      NextStaysSafe(v, env, calls[0]);
      LongTimeoutsAreSafe(Next(v, env, calls[0]), env, calls[1..]);
    }
  }

  // ---- The wake-up that gets lost ----

  /** The least address from `a` on that is not in use. */
  ghost function Least(used: set<nat>, a: nat): (r: nat)
    ensures r >= a && r !in used
    decreases |used|
  {
    if a !in used then a else Least(used - {a}, a + 1)
  }

  /** An allocator that takes the least address, and turns that take no time: first a sleep of
      `short` milliseconds, then longer ones. */
  ghost function ShortEnv(short: int): Env {
    Env((k, used) => Least(used, 0),
        k => YieldFor(if k == 1 then short else if k == 2 then 5000 else 1000),
        k => 0)
  }

  /** The run: two coroutines are started in one second, with a tick between them, and a second later
      comes another tick. */
  function LosingCalls(short: int): seq<Call> {
    [DoTask(0), Tick(if short < 0 then 0 else short), DoTask(0), Tick(1000)]
  }

  /** Asleep, with no timer left. */
  ghost predicate PassedOver(s: Rt, k: nat) {
    Sleeps(s, k) && forall n :: n in s.timers.Live() ==> n.info.task.coId != k
  }

  predicate SameSecond(now: nat, late: nat) { now <= late && late / 1000 == now / 1000 }

  function Sleeper(k: nat, until: int): Coroutine { Coroutine(k, Some(Plain(0)), 0, false, Suspended, 1, until) }

  function NodeAt(now: nat, interval: int, k: nat, addr: nat): T.TimerNode<Wake> {
    T.TimerNode(now + interval, T.TimeInfo(addr, Wake(k, 1), interval % T.SEQ_LIMIT, T.Second(now), false))
  }

  /** One coroutine sleeps. */
  ghost function OneSleeps(now: nat, short: int): Rt {
    var id := T.ArmedId(now, 0);
    Rt([], map[1 := Sleeper(1, now + short)], 1,
       T.World([NodeAt(now, short, 1, 0)], {}, [], [], now, now, now, {id}, {}), map[1 := id],
       map[], 1, [Resumption(1, 1, ByCall, 0, None, now, 0)], T.SafeArm(now, short))
  }

  lemma FirstSleep(now: nat, short: int)
    ensures Next(Start(now), ShortEnv(short), DoTask(0)).rt == OneSleeps(now, short)
  {
    var env := ShortEnv(short);
    var s := NewCoroutine(Start(now).rt, Plain(0));
    assert s.active == map[1 := Coroutine(1, Some(Plain(0)), 0, false, Fresh, 1, 0)];
    assert CancelTimer(s, 1) == s;
    var e := Enter(s, 1, ByCall);
    assert e.timers.Live() == [] && env.alloc(1, e.timers.Addresses()) == 0;
    assert Leave(e, env, 1) == OneSleeps(now, short);
  }

  /** Fired in the second it was armed in: its id stays on the cancel list. */
  ghost function IdLeft(now: nat, short: int, late: nat): Rt {
    var id, next := T.ArmedId(now, 0), T.ArmedId(late, 1);
    Rt([], map[1 := Sleeper(1, late + 5000)], 1,
       T.World([NodeAt(late, 5000, 1, 1)], {id}, [], [], late, now, late, {id, next}, {}), map[1 := next],
       map[], 2, [Resumption(1, 1, ByCall, 0, None, now, 0),
                  Resumption(1, 1, ByTimer(Wake(1, 1)), 0, Some(-1), late, now + short)], false)
  }

  /** The only timer is due and its task is at work. */
  ghost function AtWork(now: nat, short: int, late: nat): Rt {
    var s := OneSleeps(now, short);
    s.(timers := s.timers.(timerSet := [], firing := [NodeAt(now, short, 1, 0)], tick := late, clock := late))
  }

  lemma ShortTick(now: nat, short: int, late: nat)
    requires !T.SafeArm(now, short) && SameSecond(now, late) && now + short <= late
    ensures DoTimeOutTask(OneSleeps(now, short), ShortEnv(short), late) == IdLeft(now, short, late)
  {
    var env, s := ShortEnv(short), OneSleeps(now, short);
    ShortBatch(now, short, late);
    var t := s.(timers := T.Tick(s.timers, late));
    var p := t.(timers := T.Process(t.timers));
    assert p == AtWork(now, short, late);
    assert t.timers.firing == [] && t.timers.batch == [NodeAt(now, short, 1, 0)] && !T.Skips(t.timers);
    assert p.timers.firing != [];
    hide OneSleeps, AtWork, T.Tick, T.Process, ShortEnv, IdLeft, T.Second;
    ShortFire(p, now, short, late);
    hide ResumeOne, T.Skips, T.Done;
    FireAllUnfolds(t, env);
    var q := ResumeOne(p, env, 1, ByTimer(Wake(1, 1)));
    FireAllOfNothing(q.(timers := T.Done(q.timers)), env);
  }

  /** The only task of the batch. */
  lemma ShortFire(p: Rt, now: nat, short: int, late: nat)
    requires !T.SafeArm(now, short) && SameSecond(now, late)
    requires p == AtWork(now, short, late)
    ensures var q := ResumeOne(p, ShortEnv(short), 1, ByTimer(Wake(1, 1)));
      && q.timers.firing != [] && q.(timers := T.Done(q.timers)) == IdLeft(now, short, late)
      && T.Done(q.timers).firing == [] && T.Done(q.timers).batch == []
  {
    var id := T.ArmedId(now, 0);
    ShortCancel(p.timers, NodeAt(now, short, 1, 0), id);
    var c := CancelTimer(p, 1);
    assert c.timerOf == map[] && c.timers == T.Cancel(p.timers, id);
    ShortTurn(c, now, short, late);
    hide T.Insert, T.Cancel, T.Second, ShortEnv;
  }

  lemma ShortBatch(now: nat, short: int, late: nat)
    requires now + short <= late
    ensures var was, w := OneSleeps(now, short).timers, T.Tick(OneSleeps(now, short).timers, late);
      && w == was.(timerSet := [], batch := [NodeAt(now, short, 1, 0)], tick := late, clock := late)
      && T.Process(w) == w.(batch := [], firing := w.batch)
  {
    var w := T.Tick(OneSleeps(now, short).timers, late);
    assert w.batch == [NodeAt(now, short, 1, 0)] && w.batch[1..] == [];
  }

  lemma ShortCancel(w: T.World<Wake>, node: T.TimerNode<Wake>, id: T.TimerId)
    requires w.firing == [node] && node.info.Id() == id && w.batch == [] && w.timerSet == []
    requires w.cancelList == {} && w.doomed == {}
    ensures T.Cancel(w, id) == w.(cancelList := {id}, doomed := {id}) && T.Cancel(w, id).Live() == [node]
  {
    assert w.Live()[0].info.Id() == id && w.Lives(id);
  }

  /** The turn of the first coroutine inside the tick: it sleeps again, with the next address. */
  lemma ShortTurn(c: Rt, now: nat, short: int, late: nat)
    requires c == OneSleeps(now, short).(timers := c.timers, timerOf := map[])
    requires c.timers.Live() == [NodeAt(now, short, 1, 0)] && c.timers.timerSet == [] && c.timers.clock == late
    ensures var e, id := Enter(c, 1, ByTimer(Wake(1, 1))), T.ArmedId(late, 1);
      Leave(e, ShortEnv(short), 1) == e.(
        timers := T.Arm(c.timers, late, 5000, Wake(1, 1), false, 1), timerOf := map[1 := id],
        active := map[1 := Sleeper(1, late + 5000)], safe := c.safe && T.SafeArm(late, 5000))
    ensures T.Arm(c.timers, late, 5000, Wake(1, 1), false, 1).timerSet == [NodeAt(late, 5000, 1, 1)]
  {
    var env := ShortEnv(short);
    var e := Enter(c, 1, ByTimer(Wake(1, 1)));
    assert e.timers.Live()[0].info.addr == 0;
    assert e.timers.Addresses() == {0};
    assert Least({0}, 0) == Least({0} - {0}, 1) && {0} - {0} == {};
    assert env.alloc(2, e.timers.Addresses()) == 1;
  }

  /** The second coroutine goes to sleep in that second: its timer gets the id on the cancel list. */
  ghost function BothSleep(now: nat, short: int, late: nat): Rt {
    var s, id := IdLeft(now, short, late), T.ArmedId(late, 0);
    s.(active := map[1 := Sleeper(1, late + 5000), 2 := Sleeper(2, late + 1000)], incCoId := 2, turns := 3,
       timers := s.timers.(timerSet := [NodeAt(late, 1000, 2, 0), NodeAt(late, 5000, 1, 1)]),
       timerOf := s.timerOf[2 := id], log := s.log + [Resumption(2, 1, ByCall, 0, None, late, 0)])
  }

  lemma SecondSleep(now: nat, short: int, late: nat)
    requires SameSecond(now, late)
    ensures var s := IdLeft(now, short, late);
      ResumeOne(NewCoroutine(s, Plain(0)), ShortEnv(short), NextCoId(s), ByCall) == BothSleep(now, short, late)
  {
    var env, s := ShortEnv(short), IdLeft(now, short, late);
    var s1 := NewCoroutine(s, Plain(0));
    assert NextCoId(s) == 2 && CancelTimer(s1, 2) == s1;
    var e := Enter(s1, 2, ByCall);
    assert e.timers.Live()[0].info.addr == 1;
    assert e.timers.Addresses() == {1} && env.alloc(3, e.timers.Addresses()) == 0;
    var w := T.Arm(e.timers, late, 1000, Wake(2, 1), false, 0);
    assert w.timerSet == [NodeAt(late, 1000, 2, 0), NodeAt(late, 5000, 1, 1)];
    assert w.issued == e.timers.issued;
    assert Leave(e, env, 2).active == BothSleep(now, short, late).active;
  }

  /** The tick at which the second coroutine should wake drops its timer. */
  lemma DroppedTick(now: nat, short: int, late: nat)
    requires SameSecond(now, late)
    ensures var s := DoTimeOutTask(BothSleep(now, short, late), ShortEnv(short), late + 1000);
      T.InWindow(s.timers) && Sleeps(s, 2) && s.timers.Live() == [NodeAt(late, 5000, 1, 1)]
  {
    var env, s := ShortEnv(short), BothSleep(now, short, late);
    var t := s.(timers := T.Tick(s.timers, late + 1000));
    assert s.timers.timerSet[1..] == [NodeAt(late, 5000, 1, 1)];
    assert T.LowerBound(s.timers.timerSet, late + 1001, 0) == 1 + T.LowerBound(s.timers.timerSet[1..], late + 1001, 0);
    assert t.timers.batch == [NodeAt(late, 1000, 2, 0)] && t.timers.timerSet == [NodeAt(late, 5000, 1, 1)];
    assert T.Skips(t.timers);
    var p := t.(timers := T.Process(t.timers));
    assert p.timers.batch == [];
    FireAllUnfolds(t, env);
    FireAllOfNothing(p, env);
  }

  lemma {:induction false} LeastIsSound(short: int)
    ensures Sound(ShortEnv(short))
  {
  }

  lemma StillTheSameSecond(now: nat, short: int, wait: nat)
    requires !T.SafeArm(now, short) && wait == if short < 0 then 0 else short
    ensures SameSecond(now, now + wait)
  {
  }

  lemma FirstCall(now: nat, short: int)
    ensures Next(Start(now), ShortEnv(short), DoTask(0)) == Server(OneSleeps(now, short), map[])
  {
    FirstSleep(now, short);
    hide ResumeOne, NewCoroutine, ShortEnv;
  }

  lemma OneSleepsAtNow(now: nat, short: int)
    ensures OneSleeps(now, short).timers.clock == now && OneSleeps(now, short).timers.firing == []
  {
  }

  lemma TickCall(v: Server, env: Env, elapsed: nat)
    requires v.rt.timers.firing == []
    ensures Next(v, env, Tick(elapsed)) == v.(rt := DoTimeOutTask(v.rt, env, v.rt.timers.clock + elapsed))
  {
    hide DoTimeOutTask;
  }

  lemma SecondCall(now: nat, short: int, wait: nat)
    requires !T.SafeArm(now, short) && short <= wait && SameSecond(now, now + wait)
    ensures Next(Server(OneSleeps(now, short), map[]), ShortEnv(short), Tick(wait))
      == Server(IdLeft(now, short, now + wait), map[])
  {
    OneSleepsAtNow(now, short);
    hide *;
    ShortTick(now, short, now + wait);
    TickCall(Server(OneSleeps(now, short), map[]), ShortEnv(short), wait);
  }

  lemma ThirdCall(now: nat, short: int, late: nat)
    requires SameSecond(now, late)
    ensures Next(Server(IdLeft(now, short, late), map[]), ShortEnv(short), DoTask(0))
      == Server(BothSleep(now, short, late), map[])
  {
    SecondSleep(now, short, late);
    hide ResumeOne, NewCoroutine, ShortEnv;
  }

  lemma FourthCall(now: nat, short: int, late: nat)
    requires SameSecond(now, late)
    ensures var s := Next(Server(BothSleep(now, short, late), map[]), ShortEnv(short), Tick(1000)).rt;
      T.InWindow(s.timers) && PassedOver(s, 2)
  {
    var was := BothSleep(now, short, late);
    assert was.timers.clock == late && was.timers.firing == [];
    hide DoTimeOutTask, ShortEnv, BothSleep, T.InWindow, SameSecond;
    DroppedTick(now, short, late);
  }

  lemma {:induction false} RunOfFour(now: nat, v1: Server, v2: Server, v3: Server, env: Env, short: int)
    requires Next(Start(now), env, DoTask(0)) == v1
    requires Next(v1, env, Tick(if short < 0 then 0 else short)) == v2 && Next(v2, env, DoTask(0)) == v3
    ensures Run(Start(now), env, LosingCalls(short)) == Next(v3, env, Tick(1000))
  {
    hide Next;
    var calls := LosingCalls(short);
    var a, b, c, d := calls[0], calls[1], calls[2], calls[3];
    assert calls[1..] == [b, c, d] && [b, c, d][1..] == [c, d] && [c, d][1..] == [d] && [d][1..] == [];
    assert Run(v3, env, [d]) == Run(Next(v3, env, d), env, []);
    assert Run(v2, env, [c, d]) == Run(v3, env, [d]);
  }

  lemma LosingRun(now: nat, short: int, wait: nat, late: nat)
    requires !T.SafeArm(now, short) && wait == (if short < 0 then 0 else short) && late == now + wait
    requires SameSecond(now, late)
    ensures Run(Start(now), ShortEnv(short), LosingCalls(short))
      == Next(Server(BothSleep(now, short, late), map[]), ShortEnv(short), Tick(1000))
  {
    hide *;
    FirstCall(now, short);
    SecondCall(now, short, wait);
    ThirdCall(now, short, late);
    RunOfFour(now, Server(OneSleeps(now, short), map[]), Server(IdLeft(now, short, late), map[]),
              Server(BothSleep(now, short, late), map[]), ShortEnv(short), short);
  }

  lemma LosingRunEnds(now: nat, short: int, wait: nat)
    requires !T.SafeArm(now, short) && wait == (if short < 0 then 0 else short) && SameSecond(now, now + wait)
    ensures var s := Run(Start(now), ShortEnv(short), LosingCalls(short)).rt; T.InWindow(s.timers) && PassedOver(s, 2)
  {
    hide *;
    LosingRun(now, short, wait, now + wait);
    FourthCall(now, short, now + wait);
  }

  /** What is asked of timeouts is needed: whenever a sleep begins that is due in its own second, a
      run exists, with a sound allocator, in which another coroutine, asleep for a whole second, is
      passed over by the tick at which it is due, and has no timer left. */
  lemma ShortSleepLosesAWakeUp(now: nat, short: int)
    requires !T.SafeArm(now, short)
    ensures Sound(ShortEnv(short))
    ensures var s := Run(Start(now), ShortEnv(short), LosingCalls(short)).rt; T.InWindow(s.timers) && PassedOver(s, 2)
  {
    hide *;
    var wait := if short < 0 then 0 else short;
    LeastIsSound(short);
    StillTheSameSecond(now, short, wait);
    LosingRunEnds(now, short, wait);
  }
}
