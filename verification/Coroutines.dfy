/** Coroutines and their timeouts: CoPool, CoTask and CoYield. A swap of contexts is a change of
    phase. A turn of a coroutine lets time pass and ends in Yield or with the end of its task; which
    of the two, for how long and with what timeout is up to the environment. */
module Coroutines {
  import opened Bytes
  import T = Timer

  // ---- The state ----

  /** A task closure; that of a transaction owns the transaction object. */
  datatype Task = Plain(name: nat) | Transaction(cmd: nat, id: nat)

  datatype Phase = Fresh | Running | Suspended

  /** History, read by nobody: `life` counts how often the record was taken into use, `until` is when
      the timeout of its last Yield was to end. */
  datatype Coroutine = Coroutine(
    coId: nat, task: Option<Task>, msg: nat, byTimeOut: bool, phase: Phase, life: nat, until: int)

  /** The task of a timeout: resume coId. The life it was armed in is history. */
  datatype Wake = Wake(coId: nat, life: nat)

  datatype Behaviour = YieldFor(timeout: int) | Finish

  /** The world outside: the allocator, and for each turn of a coroutine what it does at the end
      and how many milliseconds pass until then. */
  datatype Env = Env(alloc: (nat, set<nat>) -> nat, behave: nat -> Behaviour, pause: nat -> nat)

  /** The allocator returns no address in use. */
  ghost predicate Sound(env: Env) {
    forall k, used :: env.alloc(k, used) !in used
  }

  datatype How = ByCall | ByMessage(msg: nat) | ByTimer(wake: Wake)

  /** One resumption: how, which coroutine in which life, the message it then finds, and what its
      Yield returned if it was waiting in one; and when, and until when it was to sleep. */
  datatype Resumption = Resumption(
    coId: nat, life: nat, how: How, msg: nat, result: Option<int>, at: nat, until: int)

  /** History: `log`, and `safe`, whether every timeout so far was due in a later second than the
      one it began in. */
  datatype Rt = Rt(
    free: seq<Coroutine>, active: map<nat, Coroutine>, incCoId: nat,
    timers: T.World<Wake>, timerOf: map<nat, T.TimerId>,
    idle: map<nat, seq<nat>>, turns: nat, log: seq<Resumption>, safe: bool)

  const CO_ID_LIMIT: nat := 0x1_0000_0000

  // ---- The pool ----

  function GetCoId(inc: nat): nat {
    var next := (inc + 1) % CO_ID_LIMIT;
    if next == 0 then 1 else next
  }

  /** The id the next task gets. */
  function NextCoId(s: Rt): nat { if s.free == [] then GetCoId(s.incCoId) else s.free[0].coId }

  /** A new record only if none is free; the record at the front of the free list is used. */
  function NewCoroutine(s: Rt, task: Task): Rt {
    var free := if s.free == [] then [Coroutine(GetCoId(s.incCoId), None, 0, false, Fresh, 0, 0)] else s.free;
    var co := free[0].(task := Some(task), phase := Fresh, life := free[0].life + 1);
    s.(incCoId := if s.free == [] then GetCoId(s.incCoId) else s.incCoId,
       free := free[1..], active := s.active[co.coId := co])
  }

  /** The record goes to the back of the free list, and the destroyed closure gives a transaction
      back to its pool. */
  function FreeCoroutine(s: Rt, coId: nat): Rt {
    if coId !in s.active then s
    else
      var co := s.active[coId];
      var s' := s.(free := s.free + [co.(task := None, phase := Fresh)], active := s.active - {coId});
      match co.task
      case Some(Transaction(cmd, id)) =>
        s'.(idle := s.idle[cmd := (if cmd in s.idle then s.idle[cmd] else []) + [id]])
      case _ => s'
  }

  // ---- Resuming and yielding ----

  function CancelTimer(s: Rt, coId: nat): Rt {
    if coId in s.timerOf then
      s.(timers := T.Cancel(s.timers, s.timerOf[coId]), timerOf := s.timerOf - {coId})
    else s
  }

  /** Resume and ResumeWithMsg up to the swap, and the rest of Yield if the coroutine waits there. */
  function Enter(s: Rt, coId: nat, how: How): Rt
    requires coId in s.active
  {
    var co := s.active[coId];
    var ready := match how
      case ByCall => co.(byTimeOut := false)
      case ByMessage(m) => co.(msg := m)
      case ByTimer(_) => co.(byTimeOut := true);
    var waiting := co.phase == Suspended;
    var result := if !waiting then None else if ready.byTimeOut then Some(-1) else Some(0);
    var running := ready.(byTimeOut := ready.byTimeOut && !waiting, phase := Running);
    s.(active := s.active[coId := running], turns := s.turns + 1,
       log := s.log + [Resumption(coId, co.life, how, running.msg, result, s.timers.clock, co.until)])
  }

  /** CoTask::Yield: a timer for this life, then control goes back. */
  function Yield(s: Rt, env: Env, coId: nat, timeout: int): Rt
    requires coId in s.active
  {
    var co := s.active[coId];
    var addr := env.alloc(s.turns, s.timers.Addresses());
    var now := s.timers.clock + env.pause(s.turns);
    s.(timers := T.Arm(s.timers, now, timeout, Wake(coId, co.life), false, addr),
       timerOf := s.timerOf[coId := T.ArmedId(now, addr)],
       active := s.active[coId := co.(phase := Suspended, until := now + timeout)],
       safe := s.safe && T.SafeArm(now, timeout))
  }

  /** The end of a turn. */
  function Leave(s: Rt, env: Env, coId: nat): Rt
    requires coId in s.active
  {
    match env.behave(s.turns)
    case YieldFor(timeout) => Yield(s, env, coId, timeout)
    case Finish => FreeCoroutine(s, coId)
  }

  /** ResumeOne and ResumeOneWithMsg. */
  function ResumeOne(s: Rt, env: Env, coId: nat, how: How): (r: Rt)
    ensures r.timers.batch == s.timers.batch && r.timers.firing == s.timers.firing
  {
    var s' := CancelTimer(s, coId);
    if coId in s'.active then Leave(Enter(s', coId, how), env, coId) else s'
  }

  /** The loop of DoTimeOutTask over the batch. */
  function FireAll(s: Rt, env: Env): (r: Rt)
    requires s.timers.firing == []
    ensures r.timers.firing == [] && r.timers.batch == []
    decreases |s.timers.batch|
  {
    if s.timers.batch == [] then s
    else
      var p := s.(timers := T.Process(s.timers));
      if T.Skips(s.timers) then FireAll(p, env)
      else
        var wake := s.timers.batch[0].info.task;
        var q := ResumeOne(p, env, wake.coId, ByTimer(wake));
        FireAll(q.(timers := T.Done(q.timers)), env)
  }

  function DoTimeOutTask(s: Rt, env: Env, now: nat): (r: Rt)
    requires s.timers.firing == []
    ensures r.timers.firing == [] && r.timers.batch == []
  {
    FireAll(s.(timers := T.Tick(s.timers, now)), env)
  }

  // ---- What only grows ----

  /** What only grows within a tick: the clock moves forward, what was unsafe stays unsafe, no id is
      made and no pool is lost. */
  predicate Later(s: Rt, s': Rt) {
    && s'.timers.start == s.timers.start && s'.timers.tick == s.timers.tick && s'.timers.clock >= s.timers.clock
    && (s'.safe ==> s.safe) && s'.incCoId == s.incCoId && s.idle.Keys <= s'.idle.Keys
  }

  lemma YieldIsLater(s: Rt, env: Env, c: nat, timeout: int)
    requires c in s.active
    ensures Later(s, Yield(s, env, c, timeout)) && Yield(s, env, c, timeout).log == s.log
    ensures Yield(s, env, c, timeout).idle == s.idle
  {
    hide T.Insert, T.SafeArm, T.Second;
  }

  lemma FreeIsLater(s: Rt, c: nat)
    ensures Later(s, FreeCoroutine(s, c)) && FreeCoroutine(s, c).log == s.log
    ensures FreeCoroutine(s, c).safe == s.safe
  {
  }

  lemma LeaveIsLater(s: Rt, env: Env, c: nat)
    requires c in s.active
    ensures Later(s, Leave(s, env, c)) && Leave(s, env, c).log == s.log
  {
    hide Yield, FreeCoroutine, Later;
    match env.behave(s.turns) {
      case YieldFor(timeout) => YieldIsLater(s, env, c, timeout);
      case Finish => FreeIsLater(s, c);
    }
  }

  lemma ResumeOneIsLater(s: Rt, env: Env, c: nat, how: How)
    ensures Later(s, ResumeOne(s, env, c, how))
  {
    hide Leave;
    if c in s.active {
      LeaveIsLater(Enter(CancelTimer(s, c), c, how), env, c);
    }
  }

  lemma {:induction false} FireAllIsLater(s: Rt, env: Env)
    requires s.timers.firing == []
    ensures Later(s, FireAll(s, env))
    decreases |s.timers.batch|
  {
    hide ResumeOne, T.Skips, T.Insert;
    if s.timers.batch != [] {
      var p := s.(timers := T.Process(s.timers));
      if T.Skips(s.timers) {
        FireAllIsLater(p, env);
      } else {
        var wake := s.timers.batch[0].info.task;
        var q := ResumeOne(p, env, wake.coId, ByTimer(wake));
        ResumeOneIsLater(p, env, wake.coId, ByTimer(wake));
        FireAllIsLater(q.(timers := T.Done(q.timers)), env);
      }
    }
  }

  // ---- One resume ----

  /** What is logged when coroutine c goes on. */
  ghost predicate Logged(s: Rt, c: nat, how: How, r: Resumption)
    requires c in s.active
  {
    var co := s.active[c];
    && r.coId == c && r.life == co.life && r.how == how && r.at == s.timers.clock && r.until == co.until
    && r.msg == (if how.ByMessage? then how.msg else co.msg)
    && (r.result.Some? <==> co.phase == Suspended)
  }

  lemma EnterAfterCancel(s: Rt, c: nat, how: How) returns (r: Resumption)
    requires c in s.active
    ensures var e := Enter(CancelTimer(s, c), c, how);
      && e.log == s.log + [r] && Logged(s, c, how, r)
      && c in e.active && e.active == s.active[c := e.active[c]] && e.free == s.free && e.incCoId == s.incCoId
      && e.active[c].msg == r.msg && e.active[c].task == s.active[c].task
      && e.turns == s.turns + 1 && e.timers.clock == s.timers.clock
  {
    r := Enter(CancelTimer(s, c), c, how).log[|s.log|];
  }

  lemma TurnEnds(s: Rt, env: Env, c: nat)
    requires c in s.active
    ensures var s' := Leave(s, env, c);
      && s'.log == s.log
      && (forall k <- s.active :: k != c ==> k in s'.active && s'.active[k] == s.active[k])
      && (match env.behave(s.turns)
          case Finish => c !in s'.active
          case YieldFor(timeout) =>
            && c in s'.active && s'.active[c].phase == Suspended && s'.active[c].task == s.active[c].task
            && s'.active[c].until == s.timers.clock + env.pause(s.turns) + timeout)
  {
    hide T.Arm, T.SafeArm;
    LeaveIsLater(s, env, c);
  }

  /** A resume of an id in use is one resumption of its coroutine in its present life, which finds the
      message it came with or the one it had; then its turn ends as the environment says. Any other
      id changes nothing but a timer it may still have. */
  lemma ResumesExactlyOnce(s: Rt, env: Env, c: nat, how: How)
    ensures var s' := ResumeOne(s, env, c, how);
      if c in s.active then
        && |s'.log| == |s.log| + 1 && s'.log[..|s.log|] == s.log && Logged(s, c, how, s'.log[|s.log|])
        && (match env.behave(s.turns + 1)
            case Finish => c !in s'.active
            case YieldFor(timeout) =>
              && c in s'.active && s'.active[c].phase == Suspended && s'.active[c].task == s.active[c].task
              && s'.active[c].until == s.timers.clock + env.pause(s.turns + 1) + timeout)
      else s'.log == s.log && s'.active == s.active && s'.free == s.free && s'.idle == s.idle
    ensures forall k <- s.active :: k != c ==>
      k in ResumeOne(s, env, c, how).active && ResumeOne(s, env, c, how).active[k] == s.active[k]
  {
    hide T.Cancel, Logged;
    if c in s.active {
      var r := EnterAfterCancel(s, c, how);
      assert CancelTimer(s, c).active == s.active;
      hide CancelTimer, Enter, Leave;
      TurnEnds(Enter(CancelTimer(s, c), c, how), env, c);
    }
  }

  // ---- One round of the loop ----

  lemma FireAllOfNothing(s: Rt, env: Env)
    requires s.timers.firing == [] && s.timers.batch == []
    ensures FireAll(s, env) == s
  {
  }

  lemma FireAllUnfolds(s: Rt, env: Env)
    requires s.timers.firing == [] && s.timers.batch != []
    ensures T.Skips(s.timers) ==> FireAll(s, env) == FireAll(s.(timers := T.Process(s.timers)), env)
    ensures !T.Skips(s.timers) ==>
      var wake := s.timers.batch[0].info.task;
      var q := ResumeOne(s.(timers := T.Process(s.timers)), env, wake.coId, ByTimer(wake));
      FireAll(s, env) == FireAll(q.(timers := T.Done(q.timers)), env)
  {
    hide ResumeOne;
  }

  // ---- Back in the main loop ----

  ghost predicate NoneRuns(s: Rt) { forall k <- s.active :: s.active[k].phase != Running }

  /** The main loop has control: no coroutine runs and no tick is under way. */
  ghost predicate AtMain(s: Rt) {
    NoneRuns(s) && s.timers.batch == [] && s.timers.firing == []
  }

  lemma ResumeOneReturns(s: Rt, env: Env, c: nat, how: How)
    requires NoneRuns(s)
    ensures NoneRuns(ResumeOne(s, env, c, how))
  {
    hide T.Arm, T.Cancel;
    var cancelled := CancelTimer(s, c);
    if c in cancelled.active {
      LeaveReturns(Enter(cancelled, c, how), env, c);
    }
  }

  lemma LeaveReturns(s: Rt, env: Env, c: nat)
    requires c in s.active && forall k <- s.active :: k != c ==> s.active[k].phase != Running
    ensures NoneRuns(Leave(s, env, c))
  {
    hide T.Arm;
    var s' := Leave(s, env, c);
    forall k <- s'.active ensures s'.active[k].phase != Running {
      assert k != c ==> k in s.active && s'.active[k] == s.active[k];
    }
  }

  lemma {:induction false} FireAllReturns(s: Rt, env: Env)
    requires NoneRuns(s) && s.timers.firing == []
    ensures NoneRuns(FireAll(s, env))
    decreases |s.timers.batch|
  {
    hide T.Skips, ResumeOne;
    if s.timers.batch != [] {
      var p := s.(timers := T.Process(s.timers));
      if T.Skips(s.timers) {
        FireAllReturns(p, env);
      } else {
        var wake := s.timers.batch[0].info.task;
        var q := ResumeOne(p, env, wake.coId, ByTimer(wake));
        ResumeOneReturns(p, env, wake.coId, ByTimer(wake));
        FireAllReturns(q.(timers := T.Done(q.timers)), env);
      }
    }
  }

  // ---- Records and the map of timers, in every run ----

  predicate InUse(s: Rt, k: nat, co: Coroutine) { co.coId == k && 1 <= k <= s.incCoId && co.task.Some? }

  predicate AtRest(s: Rt, co: Coroutine) {
    1 <= co.coId <= s.incCoId && co.coId !in s.active && co.task == None
  }

  /** Records are either in use, under their own id, or free; ids are distinct, and each was made for
      a record. */
  ghost predicate Records(s: Rt) {
    && s.incCoId < CO_ID_LIMIT && s.incCoId == |s.free| + |s.active|
    && (forall k <- s.active :: InUse(s, k, s.active[k]))
    && (forall i :: 0 <= i < |s.free| ==> AtRest(s, s.free[i]))
    && (forall i, j :: 0 <= i < j < |s.free| ==> s.free[i].coId != s.free[j].coId)
  }

  /** The map of timers covers exactly the suspended coroutines. */
  ghost predicate Covered(s: Rt) {
    forall k :: k in s.timerOf <==> k in s.active && s.active[k].phase == Suspended
  }

  ghost predicate Orderly(s: Rt) { Records(s) && Covered(s) }

  /** Not all ids are in use. */
  predicate HasRoom(s: Rt) { |s.active| + 1 < CO_ID_LIMIT }

  lemma NewRecords(s: Rt, task: Task)
    requires Records(s) && HasRoom(s)
    ensures Records(NewCoroutine(s, task)) && NextCoId(s) !in s.active && NextCoId(s) != 0
  {
    var s', id := NewCoroutine(s, task), NextCoId(s);
    assert s.free != [] ==> AtRest(s, s.free[0]);
    assert s.free == [] ==> id == s.incCoId + 1;
    assert forall i :: 0 <= i < |s'.free| ==> s'.free[i] == s.free[i + 1];
    assert forall k <- s'.active :: k != id ==> InUse(s, k, s.active[k]);
    assert forall i :: 0 <= i < |s'.free| ==> AtRest(s, s'.free[i]);
  }

  /** A new coroutine gets an id that is not in use. */
  lemma NewCoroutineStaysOrderly(s: Rt, task: Task)
    requires Orderly(s) && HasRoom(s)
    ensures Orderly(NewCoroutine(s, task)) && NextCoId(s) !in s.active && NextCoId(s) != 0
    ensures NextCoId(s) in NewCoroutine(s, task).active && NewCoroutine(s, task).active[NextCoId(s)].phase == Fresh
  {
    hide Records;
    NewRecords(s, task);
  }

  lemma {:induction false} AtMost(ids: set<nat>, n: nat)
    requires forall k <- ids :: 1 <= k <= n
    ensures |ids| <= n
    decreases n
  {
    if n == 0 {
      assert ids == {};
    } else {
      AtMost(ids - {n}, n - 1);
    }
  }

  lemma AllOfThem(ids: set<nat>, n: nat, k: nat)
    requires |ids| == n && 1 <= k <= n && forall i <- ids :: 1 <= i <= n
    ensures k in ids
  {
    if k !in ids {
      AtMost(ids + {k}, n);
    }
  }

  /** The next id is unused exactly when not all ids are in use. */
  lemma NextIdIsUnusedExactly(s: Rt)
    requires Records(s)
    ensures NextCoId(s) !in s.active <==> |s.active| < 0xffff_ffff
    ensures |s.active| >= 0xffff_ffff ==> NextCoId(s) == 1
  {
    if HasRoom(s) {
      NewRecords(s, Plain(0));
    } else {
      assert s.free == [] && GetCoId(s.incCoId) == 1;
      assert forall k <- s.active.Keys :: InUse(s, k, s.active[k]);
      AllOfThem(s.active.Keys, s.incCoId, 1);
    }
  }

  lemma SameRecords(s: Rt, s': Rt)
    requires Records(s) && s'.active == s.active && s'.free == s.free && s'.incCoId == s.incCoId
    ensures Records(s')
  {
    assert forall k <- s.active :: InUse(s, k, s.active[k]);
    assert forall i :: 0 <= i < |s.free| ==> AtRest(s, s.free[i]);
  }

  /** A record changed in place, its id and task kept. */
  lemma ChangedRecord(s: Rt, s': Rt, c: nat)
    requires Records(s) && c in s.active && s'.free == s.free && s'.incCoId == s.incCoId
    requires c in s'.active && s'.active == s.active[c := s'.active[c]]
    requires s'.active[c].coId == s.active[c].coId && s'.active[c].task == s.active[c].task
    ensures Records(s')
  {
    assert InUse(s, c, s.active[c]);
    assert forall k <- s'.active :: k != c ==> InUse(s, k, s.active[k]);
    assert forall i :: 0 <= i < |s'.free| ==> AtRest(s, s'.free[i]);
  }

  lemma RunningCovers(s: Rt, s': Rt, c: nat)
    requires Covered(s) && c in s'.active && s'.active == s.active[c := s'.active[c]] && s'.active[c].phase == Running
    requires forall k :: k in s'.timerOf <==> k in s.timerOf && k != c
    ensures Covered(s')
  {
  }

  lemma EnterFields(s: Rt, c: nat, how: How)
    requires c in s.active
    ensures var e := Enter(CancelTimer(s, c), c, how);
      && c in e.active && e.active == s.active[c := e.active[c]] && e.active[c].phase == Running
      && e.active[c].coId == s.active[c].coId && e.active[c].task == s.active[c].task
      && e.free == s.free && e.incCoId == s.incCoId
      && forall k :: k in e.timerOf <==> k in s.timerOf && k != c
  {
    hide T.Cancel;
  }

  /** What a resume does before the turn: the timer leaves the map, the coroutine runs. */
  lemma EnterStaysOrderly(s: Rt, c: nat, how: How)
    requires Orderly(s) && c in s.active
    ensures var e := Enter(CancelTimer(s, c), c, how);
      Orderly(e) && c in e.active && e.active[c].phase == Running
  {
    EnterFields(s, c, how);
    assert CancelTimer(s, c).active == s.active;
    hide Records, Covered, Enter, CancelTimer;
    ChangedRecord(s, Enter(CancelTimer(s, c), c, how), c);
    RunningCovers(s, Enter(CancelTimer(s, c), c, how), c);
  }

  lemma FreedFields(s: Rt, c: nat)
    requires c in s.active
    ensures var s' := FreeCoroutine(s, c);
      && s'.active == s.active - {c} && s'.timers == s.timers && s'.timerOf == s.timerOf && s'.log == s.log
      && s'.free == s.free + [s.active[c].(task := None, phase := Fresh)] && s'.incCoId == s.incCoId
  {
  }

  lemma OneLess(active: map<nat, Coroutine>, c: nat)
    requires c in active
    ensures |active - {c}| == |active| - 1
  {
    assert active == (active - {c})[c := active[c]];
  }

  lemma FreedRecords(s: Rt, c: nat)
    requires Records(s) && c in s.active
    ensures Records(FreeCoroutine(s, c))
  {
    var s' := FreeCoroutine(s, c);
    FreedFields(s, c);
    OneLess(s.active, c);
    hide FreeCoroutine;
    assert forall i :: 0 <= i < |s.free| ==> s'.free[i] == s.free[i] && AtRest(s, s.free[i]);
    assert InUse(s, c, s.active[c]);
    assert forall k <- s'.active :: InUse(s, k, s.active[k]);
  }

  lemma LeaveStaysOrderly(s: Rt, env: Env, c: nat)
    requires Orderly(s) && c in s.active && s.active[c].phase == Running
    ensures Orderly(Leave(s, env, c))
  {
    hide T.Arm, FreeCoroutine, Records;
    match env.behave(s.turns) {
      case YieldFor(timeout) => ChangedRecord(s, Yield(s, env, c, timeout), c);
      case Finish =>
        FreedRecords(s, c);
        FreedFields(s, c);
    }
  }

  lemma ResumeOneStaysOrderly(s: Rt, env: Env, c: nat, how: How)
    requires Orderly(s)
    ensures Orderly(ResumeOne(s, env, c, how))
  {
    if c in s.active {
      EnterStaysOrderly(s, c, how);
      assert CancelTimer(s, c).active == s.active;
      hide Orderly, Leave, Enter, CancelTimer;
      LeaveStaysOrderly(Enter(CancelTimer(s, c), c, how), env, c);
    }
  }

  /** Steps of the timer alone. */
  lemma TimersStayOrderly(s: Rt, w: T.World<Wake>)
    requires Orderly(s)
    ensures Orderly(s.(timers := w))
  {
    hide Records;
    SameRecords(s, s.(timers := w));
  }

  lemma {:induction false} FireAllStaysOrderly(s: Rt, env: Env)
    requires Orderly(s) && s.timers.firing == []
    ensures Orderly(FireAll(s, env))
    decreases |s.timers.batch|
  {
    hide Orderly, ResumeOne, T.Skips;
    if s.timers.batch != [] {
      var p := s.(timers := T.Process(s.timers));
      TimersStayOrderly(s, T.Process(s.timers));
      if T.Skips(s.timers) {
        FireAllStaysOrderly(p, env);
      } else {
        var wake := s.timers.batch[0].info.task;
        var q := ResumeOne(p, env, wake.coId, ByTimer(wake));
        ResumeOneStaysOrderly(p, env, wake.coId, ByTimer(wake));
        TimersStayOrderly(q, T.Done(q.timers));
        FireAllStaysOrderly(q.(timers := T.Done(q.timers)), env);
      }
    }
  }

  /** A whole tick keeps records and map, whatever its coroutines do and whatever addresses their
      timers get. */
  lemma DoTimeOutTaskStaysOrderly(s: Rt, env: Env, now: nat)
    requires Orderly(s) && s.timers.firing == []
    ensures Orderly(DoTimeOutTask(s, env, now))
  {
    hide Orderly, FireAll;
    TimersStayOrderly(s, T.Tick(s.timers, now));
    FireAllStaysOrderly(s.(timers := T.Tick(s.timers, now)), env);
  }

  // ---- The order in which ids are used again ----

  function NewAll(s: Rt, tasks: seq<Task>): Rt
    decreases tasks
  {
    if tasks == [] then s else NewAll(NewCoroutine(s, tasks[0]), tasks[1..])
  }

  /** Free ids are used before new ones are made, the one that was freed first before the others. */
  lemma {:induction false} FreeIdsAreUsedInOrder(s: Rt, tasks: seq<Task>)
    requires |tasks| <= |s.free|
    ensures NewAll(s, tasks).free == s.free[|tasks|..] && NewAll(s, tasks).incCoId == s.incCoId
    ensures |tasks| < |s.free| ==> NextCoId(NewAll(s, tasks)) == s.free[|tasks|].coId
    decreases tasks
  {
    if tasks != [] {
      FreeIdsAreUsedInOrder(NewCoroutine(s, tasks[0]), tasks[1..]);
    }
  }

  /** A freed id comes round when as many coroutines have been made as ids were free before it. */
  lemma FreedIdComesRound(s: Rt, c: nat, tasks: seq<Task>)
    requires Records(s) && c in s.active && |tasks| == |s.free|
    ensures NextCoId(NewAll(FreeCoroutine(s, c), tasks)) == c
  {
    FreedFields(s, c);
    hide FreeCoroutine;
    assert InUse(s, c, s.active[c]);
    FreeIdsAreUsedInOrder(FreeCoroutine(s, c), tasks);
  }

  // ---- The message a coroutine finds, in every run ----

  /** The last message sent to an id, and 0 before there was one. */
  function LastMessage(log: seq<Resumption>, c: nat): nat {
    if log == [] then 0
    else
      var r := log[|log| - 1];
      if r.coId == c && r.how.ByMessage? then r.how.msg else LastMessage(log[..|log| - 1], c)
  }

  /** Each resumption found the last message sent to its id, that included. */
  ghost predicate MessagesFound(log: seq<Resumption>) {
    forall i :: 0 <= i < |log| ==> log[i].msg == LastMessage(log[..i + 1], log[i].coId)
  }

  /** A record keeps the last message of its id, from life to life. */
  ghost predicate MessagesKept(s: Rt) {
    && (forall k <- s.active :: s.active[k].msg == LastMessage(s.log, k))
    && (forall i :: 0 <= i < |s.free| ==> s.free[i].msg == LastMessage(s.log, s.free[i].coId))
    && (forall i :: 0 <= i < |s.log| ==> s.log[i].coId <= s.incCoId)
    && MessagesFound(s.log)
  }

  lemma {:induction false} NoMessageYet(log: seq<Resumption>, c: nat)
    requires forall i :: 0 <= i < |log| ==> log[i].coId != c
    ensures LastMessage(log, c) == 0
  {
    if log != [] {
      NoMessageYet(log[..|log| - 1], c);
    }
  }

  lemma NewCoroutineKeepsMessages(s: Rt, task: Task)
    requires Records(s) && MessagesKept(s) && HasRoom(s)
    ensures MessagesKept(NewCoroutine(s, task))
  {
    var s', id := NewCoroutine(s, task), NextCoId(s);
    hide LastMessage, MessagesFound;
    if s.free == [] {
      NoMessageYet(s.log, id);
    }
    assert forall i :: 0 <= i < |s'.free| ==> s'.free[i] == s.free[i + 1];
    assert forall k <- s'.active :: k != id ==> k in s.active && s'.active[k] == s.active[k];
  }

  /** The log grows by one resumption. */
  lemma LoggedMessages(log: seq<Resumption>, r: Resumption)
    requires MessagesFound(log) && r.msg == (if r.how.ByMessage? then r.how.msg else LastMessage(log, r.coId))
    ensures MessagesFound(log + [r]) && LastMessage(log + [r], r.coId) == r.msg
    ensures forall k :: k != r.coId ==> LastMessage(log + [r], k) == LastMessage(log, k)
  {
    var log' := log + [r];
    assert log'[..|log|] == log && log'[..|log'|] == log';
    assert forall i :: 0 <= i < |log| ==> log'[..i + 1] == log[..i + 1] && log'[i] == log[i];
  }

  lemma EnterKeepsMessages(s: Rt, c: nat, how: How)
    requires Records(s) && MessagesKept(s) && c in s.active
    ensures MessagesKept(Enter(CancelTimer(s, c), c, how))
  {
    var r := EnterAfterCancel(s, c, how);
    hide LastMessage, MessagesFound, Enter, CancelTimer;
    LoggedMessages(s.log, r);
    MessageLogged(s, Enter(CancelTimer(s, c), c, how), c, r);
  }

  lemma MessageLogged(s: Rt, s': Rt, c: nat, r: Resumption)
    requires Records(s) && MessagesKept(s) && c in s.active && r.coId == c && s'.log == s.log + [r]
    requires c in s'.active && s'.active == s.active[c := s'.active[c]] && s'.free == s.free && s'.incCoId == s.incCoId
    requires s'.active[c].msg == r.msg == LastMessage(s'.log, c) && MessagesFound(s'.log)
    requires forall k :: k != c ==> LastMessage(s'.log, k) == LastMessage(s.log, k)
    ensures MessagesKept(s')
  {
    hide LastMessage, MessagesFound;
    assert InUse(s, c, s.active[c]);
    assert forall i :: 0 <= i < |s.free| ==> AtRest(s, s.free[i]);
    hide Records;
  }

  lemma LeaveKeepsMessages(s: Rt, env: Env, c: nat)
    requires Records(s) && MessagesKept(s) && c in s.active
    ensures MessagesKept(Leave(s, env, c))
  {
    hide T.Arm, LastMessage, MessagesFound, FreeCoroutine;
    assert InUse(s, c, s.active[c]);
    match env.behave(s.turns) {
      case YieldFor(timeout) => assert Yield(s, env, c, timeout).log == s.log;
      case Finish => FreedFields(s, c);
    }
  }

  lemma ResumeOneKeepsMessages(s: Rt, env: Env, c: nat, how: How)
    requires Orderly(s) && MessagesKept(s)
    ensures MessagesKept(ResumeOne(s, env, c, how))
  {
    if c in s.active {
      EnterKeepsMessages(s, c, how);
      EnterStaysOrderly(s, c, how);
      assert CancelTimer(s, c).active == s.active;
      hide MessagesKept, Leave, Enter, CancelTimer;
      LeaveKeepsMessages(Enter(CancelTimer(s, c), c, how), env, c);
    } else {
      hide T.Cancel, LastMessage, MessagesFound;
    }
  }

  /** Steps that touch neither records nor log. */
  lemma OthersKeepMessages(s: Rt, s': Rt)
    requires MessagesKept(s) && s'.active == s.active && s'.free == s.free && s'.log == s.log && s'.incCoId == s.incCoId
    ensures MessagesKept(s')
  {
    hide LastMessage, MessagesFound;
  }

  lemma {:induction false} FireAllKeepsMessages(s: Rt, env: Env)
    requires Orderly(s) && MessagesKept(s) && s.timers.firing == []
    ensures MessagesKept(FireAll(s, env))
    decreases |s.timers.batch|
  {
    hide Orderly, MessagesKept, ResumeOne, T.Skips;
    if s.timers.batch != [] {
      var p := s.(timers := T.Process(s.timers));
      TimersStayOrderly(s, T.Process(s.timers));
      OthersKeepMessages(s, p);
      if T.Skips(s.timers) {
        FireAllKeepsMessages(p, env);
      } else {
        var wake := s.timers.batch[0].info.task;
        var q := ResumeOne(p, env, wake.coId, ByTimer(wake));
        ResumeOneStaysOrderly(p, env, wake.coId, ByTimer(wake));
        ResumeOneKeepsMessages(p, env, wake.coId, ByTimer(wake));
        TimersStayOrderly(q, T.Done(q.timers));
        OthersKeepMessages(q, q.(timers := T.Done(q.timers)));
        FireAllKeepsMessages(q.(timers := T.Done(q.timers)), env);
      }
    }
  }

  // ---- Timers and lives, under any sound allocator ----

  /** A pending timer that will not be dropped. */
  ghost predicate Armed(s: Rt, n: T.TimerNode<Wake>) { T.WillFire(s.timers, n) }

  /** A pending timer that will fire is the one the map has for its coroutine, which is still in the
      life the timer was armed in. */
  ghost predicate Owned(s: Rt) {
    forall n :: Armed(s, n) ==>
      var w := n.info.task;
      && w.coId in s.timerOf && s.timerOf[w.coId] == n.info.Id()
      && w.coId in s.active && s.active[w.coId].life == w.life && s.active[w.coId].until == n.due
  }

  ghost predicate OneShot(s: Rt) { forall n :: n in s.timers.Live() ==> !n.info.repeating }

  ghost predicate FlagsDown(s: Rt) {
    && (forall k <- s.active :: !s.active[k].byTimeOut)
    && (forall i :: 0 <= i < |s.free| ==> !s.free[i].byTimeOut)
  }

  /** A resumption by a timer resumes the life the timer was armed in, inside a Yield that returns
      -1, and not before its timeout has passed; a Yield ended otherwise returns 0, and a message is
      found by the coroutine it was for. */
  ghost predicate GoodResumption(r: Resumption) {
    match r.how
    case ByTimer(wake) => wake == Wake(r.coId, r.life) && r.result == Some(-1) && r.until <= r.at
    case ByMessage(m) => r.msg == m && (r.result == None || r.result == Some(0))
    case ByCall => r.result == None || r.result == Some(0)
  }

  ghost predicate GoodLog(s: Rt) { forall i :: 0 <= i < |s.log| ==> GoodResumption(s.log[i]) }

  ghost predicate Faithful(s: Rt) {
    T.Layout(s.timers) && Owned(s) && OneShot(s) && FlagsDown(s) && GoodLog(s)
  }

  lemma NewCoroutineStaysFaithful(s: Rt, task: Task)
    requires Faithful(s) && NextCoId(s) !in s.active
    ensures Faithful(NewCoroutine(s, task))
  {
    hide T.Layout, GoodResumption;
    var s' := NewCoroutine(s, task);
    assert forall n :: Armed(s', n) <==> Armed(s, n);
    assert forall k <- s'.active :: k != NextCoId(s) ==> k in s.active && s'.active[k] == s.active[k];
    assert forall i :: 0 <= i < |s'.free| ==> s'.free[i] == s.free[i + 1];
  }

  /** A timer that is cancelled before a resume does not fire; the others stay true to their lives. */
  lemma CancelStaysFaithful(s: Rt, c: nat)
    requires Faithful(s)
    ensures Faithful(CancelTimer(s, c)) && c !in CancelTimer(s, c).timerOf
    ensures CancelTimer(s, c).active == s.active
    ensures forall n :: Armed(CancelTimer(s, c), n) ==> Armed(s, n) && n.info.task.coId != c
  {
    hide T.WillFire, T.World.Lives, GoodResumption;
    if c in s.timerOf {
      T.WillFireAfterCancel(s.timers, s.timerOf[c]);
      forall n | Armed(CancelTimer(s, c), n) ensures Armed(s, n) && n.info.task.coId != c {
        assert Armed(s, n) && n.info.Id() != s.timerOf[c];
      }
    }
  }

  /** The coroutine waits in Yield, in the life the timer was armed in, and its time is up. */
  predicate TimeIsUp(s: Rt, c: nat, wake: Wake)
    requires c in s.active
  {
    s.active[c].phase == Suspended && wake == Wake(c, s.active[c].life) && s.active[c].until <= s.timers.clock
  }

  lemma EnterLogs(s: Rt, c: nat, how: How)
    requires GoodLog(s) && c in s.active && !s.active[c].byTimeOut
    requires how.ByTimer? ==> TimeIsUp(s, c, how.wake)
    ensures GoodLog(Enter(s, c, how))
  {
    var s' := Enter(s, c, how);
    assert |s'.log| == |s.log| + 1 && s'.log[..|s.log|] == s.log;
    assert GoodResumption(s'.log[|s.log|]);
    assert forall i :: 0 <= i < |s.log| ==> s'.log[i] == s.log[i];
  }

  lemma EnterStaysFaithful(s: Rt, c: nat, how: How)
    requires Faithful(s) && c in s.active
    requires how.ByTimer? ==> TimeIsUp(s, c, how.wake)
    ensures Faithful(Enter(s, c, how))
  {
    hide T.Layout, GoodLog;
    EnterLogs(s, c, how);
    var s' := Enter(s, c, how);
    assert forall n :: Armed(s', n) <==> Armed(s, n);
  }

  /** The node a Yield adds. */
  function YieldNode(s: Rt, env: Env, c: nat, timeout: int): T.TimerNode<Wake>
    requires c in s.active
  {
    var addr, now := env.alloc(s.turns, s.timers.Addresses()), s.timers.clock + env.pause(s.turns);
    T.TimerNode(now + timeout, T.TimeInfo(addr, Wake(c, s.active[c].life), timeout % T.SEQ_LIMIT, T.Second(now), false))
  }

  lemma YieldAdds(s: Rt, env: Env, c: nat, timeout: int)
    requires T.Layout(s.timers) && Sound(env) && c in s.active
    ensures var w, w', node := s.timers, Yield(s, env, c, timeout).timers, YieldNode(s, env, c, timeout);
      && T.Layout(w') && w'.cancelList == w.cancelList
      && (forall n :: n in w'.Live() <==> n in w.Live() || n == node)
      && (forall n :: n in w'.Pending() <==> n in w.Pending() || n == node)
  {
    var addr, now := env.alloc(s.turns, s.timers.Addresses()), s.timers.clock + env.pause(s.turns);
    var w', node := Yield(s, env, c, timeout).timers, YieldNode(s, env, c, timeout);
    assert addr !in s.timers.Addresses();
    hide T.Layout, T.Second, T.SafeArm, T.Arm, Sound, T.World.Live, T.World.Pending, T.World.Addresses;
    T.ArmAdds(s.timers, w', node, now, timeout, Wake(c, s.active[c].life), addr);
  }

  lemma YieldStaysFaithful(s: Rt, env: Env, c: nat, timeout: int)
    requires Faithful(s) && Sound(env) && c in s.active && c !in s.timerOf
    ensures Faithful(Yield(s, env, c, timeout))
  {
    var s', node := Yield(s, env, c, timeout), YieldNode(s, env, c, timeout);
    YieldAdds(s, env, c, timeout);
    hide T.Layout, T.Arm, T.Second, T.World.Live, T.World.Pending, GoodResumption, Sound;
    forall n | Armed(s', n) ensures n == node || Armed(s, n) {
    }
    assert node.info.task == Wake(c, s.active[c].life) && s'.timerOf == s.timerOf[c := node.info.Id()];
  }

  lemma FreeStaysFaithful(s: Rt, c: nat)
    requires Faithful(s) && c in s.active && c !in s.timerOf
    ensures Faithful(FreeCoroutine(s, c))
  {
    FreedFields(s, c);
    hide T.Layout, FreeCoroutine, GoodResumption;
    assert forall n :: Armed(FreeCoroutine(s, c), n) <==> Armed(s, n);
  }

  lemma LeaveStaysFaithful(s: Rt, env: Env, c: nat)
    requires Faithful(s) && Sound(env) && c in s.active && c !in s.timerOf
    ensures Faithful(Leave(s, env, c))
  {
    hide Faithful;
    match env.behave(s.turns)
    case YieldFor(timeout) => YieldStaysFaithful(s, env, c, timeout);
    case Finish => FreeStaysFaithful(s, c);
  }

  lemma CancelKeepsClock(s: Rt, c: nat)
    ensures CancelTimer(s, c).timers.clock == s.timers.clock
  {
  }

  /** A whole resume, to the return of control. */
  lemma ResumeOneStaysFaithful(s: Rt, env: Env, c: nat, how: How)
    requires Faithful(s) && Sound(env)
    requires how.ByTimer? && c in s.active ==> TimeIsUp(s, c, how.wake)
    ensures Faithful(ResumeOne(s, env, c, how))
  {
    hide Faithful, Leave, CancelTimer;
    CancelStaysFaithful(s, c);
    CancelKeepsClock(s, c);
    if c in s.active {
      EnterStaysFaithful(CancelTimer(s, c), c, how);
      LeaveStaysFaithful(Enter(CancelTimer(s, c), c, how), env, c);
    }
  }

  /** A timer that is not dropped is due, is the one the map has, and belongs to the present life of
      a coroutine that is waiting. */
  lemma FiredIsWaiting(s: Rt)
    requires Orderly(s) && Faithful(s) && s.timers.batch != [] && !T.Skips(s.timers)
    ensures var node, wake, c := s.timers.batch[0], s.timers.batch[0].info.task, s.timers.batch[0].info.task.coId;
      && c in s.timerOf && s.timerOf[c] == node.info.Id()
      && c in s.active && s.active[c].phase == Suspended && wake == Wake(c, s.active[c].life)
      && s.active[c].until == node.due <= s.timers.tick <= s.timers.clock
  {
    var node := s.timers.batch[0];
    assert node in s.timers.firing + s.timers.batch && node in s.timers.Pending();
    assert node.due <= s.timers.tick <= s.timers.clock;
    hide T.Layout, Records;
    assert Armed(s, node);
  }

  /** A step of the timer alone that lets no other node fire. */
  lemma TimersStayFaithful(s: Rt, w: T.World<Wake>)
    requires Faithful(s) && T.Layout(w)
    requires forall n :: n in w.Live() ==> n in s.timers.Live()
    requires forall n :: T.WillFire(w, n) ==> T.WillFire(s.timers, n)
    ensures Faithful(s.(timers := w))
  {
    hide T.Layout, T.WillFire, GoodResumption;
    forall n | Armed(s.(timers := w), n) ensures Armed(s, n) {
    }
  }

  lemma ProcessStaysFaithful(s: Rt)
    requires Faithful(s) && s.timers.firing == [] && s.timers.batch != []
    ensures Faithful(s.(timers := T.Process(s.timers)))
  {
    T.ProcessLayout(s.timers);
    T.ProcessLives(s.timers);
    if T.Skips(s.timers) {
      T.WillFireAfterSkip(s.timers);
    } else {
      T.WillFireAfterProcess(s.timers);
    }
    hide Faithful, T.Layout, T.WillFire, T.Process;
    TimersStayFaithful(s, T.Process(s.timers));
  }

  lemma DoneStaysFaithful(s: Rt)
    requires Faithful(s) && |s.timers.firing| == 1
    ensures Faithful(s.(timers := T.Done(s.timers)))
  {
    FiringDies(s);
    T.DoneLayout(s.timers);
    T.WillFireAfterDone(s.timers);
    hide Faithful, T.Layout, T.WillFire, T.Done;
    TimersStayFaithful(s, T.Done(s.timers));
  }

  lemma FiringDies(s: Rt)
    requires OneShot(s) && s.timers.firing != []
    ensures !s.timers.firing[0].info.repeating
  {
    assert s.timers.Live()[0] == s.timers.firing[0];
    assert s.timers.firing[0] in s.timers.Live();
  }

  lemma TickStaysFaithful(s: Rt, now: nat)
    requires Faithful(s) && s.timers.batch == [] && s.timers.firing == []
    ensures Faithful(s.(timers := T.Tick(s.timers, now)))
  {
    T.TickLayout(s.timers, now);
    T.WillFireAfterTick(s.timers, now);
    hide Faithful, T.Layout, T.WillFire, T.Tick;
    TimersStayFaithful(s, T.Tick(s.timers, now));
  }

  /** One task of the batch, from the look at its node to the end of the coroutine's turn. */
  lemma FireOnceStaysFaithful(s: Rt, env: Env)
    requires Orderly(s) && Faithful(s) && Sound(env) && s.timers.firing == []
    requires s.timers.batch != [] && !T.Skips(s.timers)
    ensures var wake := s.timers.batch[0].info.task;
      var q := ResumeOne(s.(timers := T.Process(s.timers)), env, wake.coId, ByTimer(wake));
      Faithful(q) && Faithful(q.(timers := T.Done(q.timers)))
  {
    var p, wake := s.(timers := T.Process(s.timers)), s.timers.batch[0].info.task;
    FiredIsWaiting(s);
    ProcessStaysFaithful(s);
    assert p.timers.clock == s.timers.clock;
    hide Orderly, Faithful, ResumeOne;
    ResumeOneStaysFaithful(p, env, wake.coId, ByTimer(wake));
    DoneStaysFaithful(ResumeOne(p, env, wake.coId, ByTimer(wake)));
  }

  lemma {:induction false} FireAllStaysFaithful(s: Rt, env: Env)
    requires Orderly(s) && Faithful(s) && Sound(env) && s.timers.firing == []
    ensures Faithful(FireAll(s, env))
    decreases |s.timers.batch|
  {
    hide Orderly, Faithful, ResumeOne;
    if s.timers.batch != [] {
      var w := s.timers;
      var p := s.(timers := T.Process(w));
      TimersStayOrderly(s, T.Process(w));
      if T.Skips(w) {
        ProcessStaysFaithful(s);
        FireAllStaysFaithful(p, env);
      } else {
        FireOnceStaysFaithful(s, env);
        var wake := w.batch[0].info.task;
        var q := ResumeOne(p, env, wake.coId, ByTimer(wake));
        ResumeOneStaysOrderly(p, env, wake.coId, ByTimer(wake));
        TimersStayOrderly(q, T.Done(q.timers));
        FireAllStaysFaithful(q.(timers := T.Done(q.timers)), env);
      }
    }
  }

  lemma DoTimeOutTaskStaysFaithful(s: Rt, env: Env, now: nat)
    requires Orderly(s) && Faithful(s) && Sound(env) && s.timers.batch == [] && s.timers.firing == []
    ensures Faithful(DoTimeOutTask(s, env, now))
  {
    hide Orderly, Faithful, FireAll;
    TickStaysFaithful(s, now);
    TimersStayOrderly(s, T.Tick(s.timers, now));
    FireAllStaysFaithful(s.(timers := T.Tick(s.timers, now)), env);
  }

  /** Where in the timer the nodes stand that will wake coroutine k. */
  ghost function TimersOf(s: Rt, k: nat): set<nat> {
    var nodes := s.timers.Pending();
    set i | 0 <= i < |nodes| && Armed(s, nodes[i]) && nodes[i].info.task.coId == k
  }

  predicate Sleeps(s: Rt, k: nat) { k in s.active && s.active[k].phase == Suspended }

  /** A suspended coroutine has at most one timer that will fire, for its present life; any other
      coroutine, and any free id, has none. */
  lemma AtMostOneTimer(s: Rt, k: nat)
    requires Orderly(s) && Faithful(s)
    ensures |TimersOf(s, k)| <= if Sleeps(s, k) then 1 else 0
    ensures forall i <- TimersOf(s, k) :: Sleeps(s, k) && s.timers.Pending()[i].info.task == Wake(k, s.active[k].life)
  {
    hide Records;
    if i :| i in TimersOf(s, k) {
      forall j <- TimersOf(s, k) ensures j == i {
        T.PendingOnce(s.timers, i, j);
      }
      assert TimersOf(s, k) == {i};
    } else {
      assert TimersOf(s, k) == {};
    }
  }

  // ---- Whose time is up is woken ----

  /** Since the log had length `from`, the coroutine was resumed by its timer, inside a Yield that
      returned -1. */
  ghost predicate Woken(log: seq<Resumption>, from: nat, k: nat) {
    exists i :: from <= i < |log| && log[i].coId == k && log[i].how.ByTimer? && log[i].result == Some(-1)
  }

  lemma {:induction false} FireAllLogs(s: Rt, env: Env)
    requires s.timers.firing == []
    ensures s.log <= FireAll(s, env).log
    decreases |s.timers.batch|
  {
    hide ResumeOne, T.Skips, T.Insert;
    if s.timers.batch != [] {
      var p := s.(timers := T.Process(s.timers));
      if T.Skips(s.timers) {
        FireAllLogs(p, env);
      } else {
        var wake := s.timers.batch[0].info.task;
        var q := ResumeOne(p, env, wake.coId, ByTimer(wake));
        ResumesExactlyOnce(p, env, wake.coId, ByTimer(wake));
        FireAllLogs(q.(timers := T.Done(q.timers)), env);
      }
    }
  }

  /** A resume of one coroutine lets no timer of another go. */
  lemma ResumeSparesOthers(s: Rt, env: Env, c: nat, how: How, n: T.TimerNode<Wake>)
    requires T.Layout(s.timers) && Sound(env) && Armed(s, n) && (c in s.timerOf ==> n.info.Id() != s.timerOf[c])
    ensures Armed(ResumeOne(s, env, c, how), n)
  {
    var p := CancelTimer(s, c);
    if c in s.timerOf {
      T.WillFireAfterCancel(s.timers, s.timerOf[c]);
    }
    assert Armed(p, n);
    assert p.timers.Live() == s.timers.Live() && T.Layout(p.timers);
    if c in p.active {
      var e := Enter(p, c, how);
      assert e.timers == p.timers;
      hide CancelTimer, T.Layout, T.Arm;
      match env.behave(e.turns) {
        case YieldFor(timeout) => YieldAdds(e, env, c, timeout);
        case Finish => FreedFields(e, c);
      }
    }
  }

  /** The other nodes of a batch stay in it and keep their timers while the first is dealt with. */
  lemma FireOnceSparesOthers(s: Rt, env: Env, n: T.TimerNode<Wake>)
    requires Orderly(s) && Faithful(s) && Sound(env) && s.timers.firing == []
    requires s.timers.batch != [] && !T.Skips(s.timers) && Armed(s, n) && n in s.timers.batch
    requires n.info.task.coId != s.timers.batch[0].info.task.coId
    ensures var wake := s.timers.batch[0].info.task;
      var q := ResumeOne(s.(timers := T.Process(s.timers)), env, wake.coId, ByTimer(wake));
      var d := q.(timers := T.Done(q.timers)); Armed(d, n) && n in d.timers.batch
  {
    var first := s.timers.batch[0];
    var p, c := s.(timers := T.Process(s.timers)), first.info.task.coId;
    var q := ResumeOne(p, env, c, ByTimer(first.info.task));
    FiredIsWaiting(s);
    assert first != n && s.timers.batch == [first] + p.timers.batch;
    DistinctNodes(s, first, n);
    T.ProcessLayout(s.timers);
    T.WillFireAfterProcess(s.timers);
    assert |q.timers.firing| == 1 && q.timers.batch == p.timers.batch;
    FireOnceStaysFaithful(s, env);
    FiringDies(q);
    hide Orderly, Faithful, T.Layout, T.Process, T.Skips, ResumeOne, Sound;
    ResumeSparesOthers(p, env, c, ByTimer(first.info.task), n);
    T.WillFireAfterDone(q.timers);
    BatchAfterDone(q.timers);
  }

  lemma BatchAfterDone(w: T.World<Wake>)
    requires w.firing != []
    ensures T.Done(w).batch == w.batch
  {
    hide T.Insert;
  }

  /** Two nodes that will fire have different ids. */
  lemma DistinctNodes(s: Rt, a: T.TimerNode<Wake>, b: T.TimerNode<Wake>)
    requires T.Layout(s.timers) && a in s.timers.Pending() && b in s.timers.Pending() && a != b
    ensures a.info.Id() != b.info.Id()
  {
    if a.info.Id() == b.info.Id() {
      T.PendingSame(s.timers, a, b);
    }
  }

  lemma {:induction false} FireAllWakes(s: Rt, env: Env, n: T.TimerNode<Wake>)
    requires Orderly(s) && Faithful(s) && Sound(env) && s.timers.firing == []
    requires Armed(s, n) && n in s.timers.batch
    ensures Woken(FireAll(s, env).log, |s.log|, n.info.task.coId)
    decreases |s.timers.batch|
  {
    var w, k := s.timers, n.info.task.coId;
    var p := s.(timers := T.Process(w));
    assert w.batch == [w.batch[0]] + p.timers.batch;
    TimersStayOrderly(s, T.Process(w));
    FireAllUnfolds(s, env);
    if T.Skips(w) {
      ProcessStaysFaithful(s);
      T.WillFireAfterSkip(w);
      hide Orderly, Faithful, T.Process, FireAll;
      FireAllWakes(p, env, n);
    } else {
      var first := w.batch[0];
      var q := ResumeOne(p, env, first.info.task.coId, ByTimer(first.info.task));
      var d := q.(timers := T.Done(q.timers));
      ResumesExactlyOnce(p, env, first.info.task.coId, ByTimer(first.info.task));
      FiredIsWaiting(s);
      FireOnceStaysFaithful(s, env);
      ResumeOneStaysOrderly(p, env, first.info.task.coId, ByTimer(first.info.task));
      TimersStayOrderly(q, T.Done(q.timers));
      hide Orderly, Faithful, T.Process, FireAll, ResumeOne, T.Skips;
      if first.info.task.coId == k {
        FireAllLogs(d, env);
        FirstIsWoken(s, env);
        assert FireAll(d, env).log[|s.log|] == d.log[|s.log|];
      } else {
        FireOnceSparesOthers(s, env, n);
        FireAllWakes(d, env, n);
      }
    }
  }

  /** The first task of the batch is resumed by its timer. */
  lemma FirstIsWoken(s: Rt, env: Env)
    requires Orderly(s) && Faithful(s) && Sound(env) && s.timers.firing == []
    requires s.timers.batch != [] && !T.Skips(s.timers)
    ensures var wake := s.timers.batch[0].info.task;
      var q := ResumeOne(s.(timers := T.Process(s.timers)), env, wake.coId, ByTimer(wake));
      && |q.log| == |s.log| + 1 && q.log[|s.log|].coId == wake.coId && q.log[|s.log|].how == ByTimer(wake)
      && q.log[|s.log|].result == Some(-1)
  {
    var p, wake := s.(timers := T.Process(s.timers)), s.timers.batch[0].info.task;
    FiredIsWaiting(s);
    ResumesExactlyOnce(p, env, wake.coId, ByTimer(wake));
    FireOnceStaysFaithful(s, env);
    var q := ResumeOne(p, env, wake.coId, ByTimer(wake));
    hide ResumeOne, T.Process, T.Layout, Records;
    assert GoodResumption(q.log[|s.log|]);
  }

  /** At a tick, whatever else its coroutines do, every coroutine with a timer that is due and was not
      cancelled is resumed by it. */
  lemma DueTimersWake(s: Rt, env: Env, now: nat, n: T.TimerNode<Wake>)
    requires Orderly(s) && Faithful(s) && Sound(env) && s.timers.batch == [] && s.timers.firing == []
    requires Armed(s, n) && n.due <= now
    ensures Woken(DoTimeOutTask(s, env, now).log, |s.log|, n.info.task.coId)
  {
    TickStaysFaithful(s, now);
    T.WillFireAfterTick(s.timers, now);
    TimersStayOrderly(s, T.Tick(s.timers, now));
    T.DuePrefix(s.timers.timerSet, now);
    var t := s.(timers := T.Tick(s.timers, now));
    assert s.timers.timerSet == t.timers.batch + t.timers.timerSet;
    assert n in t.timers.batch;
    hide Orderly, Faithful, FireAll, T.Tick;
    FireAllWakes(t, env, n);
  }
}
