/** spdlog's thread_pool under the block policy: clients post, workers take, and the destructor
    posts one terminate per worker and joins them. */
module ThreadPool {
  import opened Bytes
  import opened CircularQueue
  import opened BlockingQueue

  datatype Msg = Log(id: nat) | Flush | Terminate

  /** `inHand` holds the message a worker has taken and not processed yet. `handled` is what the
      sinks received, in order. After `closing` only the destructor's own thread posts. */
  datatype Pool = Pool(
    queue: Queue<Msg>, workers: set<Tid>, destructor: Tid,
    inHand: map<Tid, Msg>, handled: seq<nat>, exited: set<Tid>, closing: bool, terminates: nat)

  datatype Step =
    | Post(t: Tid, msg: Msg)
    | Close
    | PostTerminate
    | Take(t: Tid)
    | Process(t: Tid)
    | Inside(e: Event<Msg>)

  /** A step inside the queue that starts no new call: a retry, a notification or a wake-up. */
  predicate Continues(e: Event<Msg>) { !e.Enqueue? && !e.EnqueueNow? && !e.Dequeue? }

  function WithQueue(p: Pool, e: Event<Msg>): Option<Pool> {
    match Next(p.queue, e)
    case None => None
    case Some(queue) =>
      if |queue.taken| == |p.queue.taken| then Some(p.(queue := queue))
      else
        var last := queue.taken[|queue.taken| - 1];
        Some(p.(queue := queue, inHand := p.inHand[last.0 := last.1]))
  }

  /** A worker that holds no message and has not left its loop. */
  predicate Free(p: Pool, t: Tid) { t in p.workers && t !in p.exited && t !in p.inHand }

  function Do(p: Pool, step: Step): Option<Pool> {
    match step
    case Post(t, msg) =>
      // destroying an object while its methods run is outside the object's lifetime
      if p.closing || t in p.workers || msg == Terminate then None else WithQueue(p, Enqueue(t, msg))
    case Close =>
      if !p.closing && forall t <- p.queue.at :: t in p.workers then Some(p.(closing := true)) else None
    case PostTerminate =>
      if p.closing && p.terminates < |p.workers| then
        match WithQueue(p, Enqueue(p.destructor, Terminate))
        case None => None
        case Some(p') => Some(p'.(terminates := p.terminates + 1))
      else None
    case Take(t) => if Free(p, t) then WithQueue(p, Dequeue(t)) else None
    case Process(t) =>
      if t in p.inHand && t !in p.queue.at then
        var rest := p.(inHand := p.inHand - {t});
        match p.inHand[t]
        case Log(id) => Some(rest.(handled := p.handled + [id]))
        case Flush => Some(rest)
        case Terminate => Some(rest.(exited := p.exited + {t}))
      else None
    case Inside(e) => if Continues(e) then WithQueue(p, e) else None
  }

  function Exec(p: Pool, steps: seq<Step>): Option<Pool>
    decreases steps
  {
    if steps == [] then Some(p)
    else
      match Do(p, steps[0])
      case None => None
      case Some(p') => Exec(p', steps[1..])
  }

  function Initial(capacity: nat, workers: set<Tid>, destructor: Tid): Pool {
    Pool(BlockingQueue.Initial(capacity), workers, destructor, map[], [], {}, false, 0)
  }

  // ---- The invariant ----

  ghost function Holders(inHand: map<Tid, Msg>, m: Msg): set<Tid> { set t | t in inHand && inHand[t] == m }

  /** Every message taken was processed by the worker that took it, or is in that worker's hand. */
  ghost predicate Accounted(taken: seq<(Tid, Msg)>, inHand: map<Tid, Msg>, handled: seq<nat>, exited: set<Tid>) {
    && (forall id :: LogAccounted(taken, inHand, handled, id))
    && multiset(Items(taken))[Terminate] == |exited| + |Holders(inHand, Terminate)|
    && (forall t :: ExitAccounted(taken, inHand, exited, t))
  }

  ghost predicate LogAccounted(taken: seq<(Tid, Msg)>, inHand: map<Tid, Msg>, handled: seq<nat>, id: nat) {
    multiset(Items(taken))[Log(id)] == multiset(handled)[id] + |Holders(inHand, Log(id))|
  }

  ghost predicate ExitAccounted(taken: seq<(Tid, Msg)>, inHand: map<Tid, Msg>, exited: set<Tid>, t: Tid) {
    multiset(taken)[(t, Terminate)] == One(t in exited) + One(t in inHand && inHand[t] == Terminate)
  }

  function Logs(msgs: seq<Msg>): seq<nat> {
    if msgs == [] then []
    else Logs(msgs[..|msgs| - 1]) + LogOf(Some(msgs[|msgs| - 1]))
  }

  function LogOf(m: Option<Msg>): seq<nat> {
    match m case Some(Log(id)) => [id] case _ => []
  }

  function InHandOf(inHand: map<Tid, Msg>, t: Tid): Option<Msg> {
    if t in inHand then Some(inHand[t]) else None
  }

  /** With a single worker the sinks see the logs in the order they were taken. */
  ghost predicate HandledInOrder(p: Pool) {
    forall w :: p.workers == {w} ==>
      Logs(Items(p.queue.taken)) == p.handled + LogOf(InHandOf(p.inHand, w))
  }

  predicate Producing(kind: Kind) { kind == WaitPop || kind == WokenPop || kind == OwesPush }

  /** Workers are consumers, with empty hands until they pop; producers are clients, or the
      destructor once it has begun. */
  ghost predicate Roles(p: Pool) {
    && p.destructor !in p.workers
    && p.inHand.Keys <= p.workers - p.exited && p.exited <= p.workers
    && (forall t <- p.queue.at :: var kind := p.queue.at[t].kind;
         && (Producing(kind) ==> t !in p.workers && (p.closing ==> t == p.destructor))
         && (!Producing(kind) ==> t in p.workers && t !in p.exited && (t in p.inHand <==> kind == OwesPop)))
  }

  ghost predicate Waiting(p: Pool, t: Tid) {
    t in p.queue.at && (p.queue.at[t].kind == WaitPop || p.queue.at[t].kind == WokenPop)
  }

  /** Terminates are posted by the destructor only, after everything else, one per worker. */
  ghost predicate Posting(p: Pool) {
    && (forall t <- p.queue.at :: Waiting(p, t) ==> (p.queue.at[t].item == Some(Terminate) <==> p.closing))
    && (forall i, j :: 0 <= i < j < |p.queue.posted| && p.queue.posted[i] == Terminate ==>
         p.queue.posted[j] == Terminate)
    && p.terminates <= |p.workers|
    && (!p.closing ==> p.terminates == 0)
    && multiset(p.queue.posted)[Terminate] + One(Waiting(p, p.destructor) && p.closing) == p.terminates
  }

  ghost predicate PoolInv(p: Pool) {
    && Inv(p.queue) && p.queue.q.overruns == 0
    && Roles(p) && Posting(p)
    && Accounted(p.queue.taken, p.inHand, p.handled, p.exited)
    && HandledInOrder(p)
  }

  // ---- Steps that post ----

  /** The pool after thread t ran the critical section of enqueue. */
  function Posted(p: Pool, t: Tid, msg: Msg): Pool {
    p.(queue := p.queue.TryEnqueue(t, msg), terminates := p.terminates + if p.closing && t !in p.queue.at then 1 else 0)
  }

  ghost predicate MayPost(p: Pool, t: Tid, msg: Msg) {
    && (t !in p.queue.at || p.queue.Is(t, WokenPop))
    && t !in p.workers && (p.closing ==> t == p.destructor)
    && (msg == Terminate <==> p.closing)
    && (p.closing && t !in p.queue.at ==> p.terminates < |p.workers|)
  }

  lemma RolesAfterPost(p: Pool, t: Tid, msg: Msg)
    requires Roles(p) && MayPost(p, t, msg)
    ensures Roles(Posted(p, t, msg))
  {
  }

  lemma PostingAfterSleep(p: Pool, t: Tid, msg: Msg)
    requires Posting(p) && MayPost(p, t, msg) && p.queue.q.Full()
    ensures Posting(Posted(p, t, msg))
  {
  }

  lemma PostingAfterPush(p: Pool, t: Tid, msg: Msg)
    requires Posting(p) && MayPost(p, t, msg) && !p.queue.q.Full()
    ensures Posting(Posted(p, t, msg))
  {
    var posted := p.queue.posted;
    assert multiset(posted + [msg]) == multiset(posted) + multiset{msg};
    if !p.closing {
      assert Terminate !in posted;
    }
  }

  lemma PostKeeps(p: Pool, t: Tid, msg: Msg)
    requires PoolInv(p) && MayPost(p, t, msg)
    ensures PoolInv(Posted(p, t, msg))
  {
    TryEnqueueKeeps(p.queue, t, msg);
    RolesAfterPost(p, t, msg);
    if p.queue.q.Full() {
      PostingAfterSleep(p, t, msg);
    } else {
      PostingAfterPush(p, t, msg);
    }
    hide Inv, Roles, Posting, Accounted, Logs;
  }

  // ---- Steps that take or process ----

  lemma HoldersAfterTake(inHand: map<Tid, Msg>, t: Tid, msg: Msg, m: Msg)
    requires t !in inHand
    ensures |Holders(inHand[t := msg], m)| == |Holders(inHand, m)| + One(m == msg)
  {
    assert Holders(inHand[t := msg], m) == Holders(inHand, m) + if m == msg then {t} else {};
  }

  lemma HoldersAfterProcess(inHand: map<Tid, Msg>, t: Tid, m: Msg)
    requires t in inHand
    ensures |Holders(inHand - {t}, m)| == |Holders(inHand, m)| - One(m == inHand[t])
  {
    assert Holders(inHand - {t}, m) == Holders(inHand, m) - {t};
  }

  lemma AccountedAfterTake(taken: seq<(Tid, Msg)>, inHand: map<Tid, Msg>, handled: seq<nat>,
                           exited: set<Tid>, t: Tid, msg: Msg)
    requires Accounted(taken, inHand, handled, exited) && t !in inHand && t !in exited
    ensures Accounted(taken + [(t, msg)], inHand[t := msg], handled, exited)
  {
    var taken', inHand' := taken + [(t, msg)], inHand[t := msg];
    TakenCounts(taken, t, msg);
    hide Items, Holders;
    forall id ensures LogAccounted(taken', inHand', handled, id) {
      assert LogAccounted(taken, inHand, handled, id);
      HoldersAfterTake(inHand, t, msg, Log(id));
    }
    HoldersAfterTake(inHand, t, msg, Terminate);
    forall u ensures ExitAccounted(taken', inHand', exited, u) {
      assert ExitAccounted(taken, inHand, exited, u);
    }
  }

  lemma TakenCounts(taken: seq<(Tid, Msg)>, t: Tid, msg: Msg)
    ensures multiset(Items(taken + [(t, msg)])) == multiset(Items(taken)) + multiset{msg}
    ensures multiset(taken + [(t, msg)]) == multiset(taken) + multiset{(t, msg)}
  {
    assert Items(taken + [(t, msg)]) == Items(taken) + [msg];
  }

  lemma AccountedAfterProcess(taken: seq<(Tid, Msg)>, inHand: map<Tid, Msg>, handled: seq<nat>,
                              exited: set<Tid>, t: Tid)
    requires Accounted(taken, inHand, handled, exited) && t in inHand && t !in exited
    ensures Accounted(taken, inHand - {t}, handled + LogOf(Some(inHand[t])),
                      if inHand[t] == Terminate then exited + {t} else exited)
  {
    var handled', exited' := handled + LogOf(Some(inHand[t])), if inHand[t] == Terminate then exited + {t} else exited;
    HandledCounts(handled, inHand[t]);
    hide Items, Holders, LogOf;
    forall id ensures LogAccounted(taken, inHand - {t}, handled', id) {
      assert LogAccounted(taken, inHand, handled, id);
      HoldersAfterProcess(inHand, t, Log(id));
    }
    HoldersAfterProcess(inHand, t, Terminate);
    forall u ensures ExitAccounted(taken, inHand - {t}, exited', u) {
      assert ExitAccounted(taken, inHand, exited, u);
    }
  }

  lemma HandledCounts(handled: seq<nat>, msg: Msg)
    ensures forall id :: multiset(handled + LogOf(Some(msg)))[id] == multiset(handled)[id] + One(msg == Log(id))
  {
    assert handled + [] == handled;
  }

  lemma LogsAppend(msgs: seq<Msg>, m: Msg)
    ensures Logs(msgs + [m]) == Logs(msgs) + LogOf(Some(m))
  {
    assert (msgs + [m])[..|msgs|] == msgs;
  }

  /** The pool after worker t ran the critical section of dequeue_for. */
  function AfterDequeue(p: Pool, t: Tid): Pool {
    var p' := p.(queue := p.queue.TryDequeue(t));
    if p.queue.q.Empty() then p' else p'.(inHand := p.inHand[t := p.queue.q.items[0]])
  }

  ghost predicate MayTake(p: Pool, t: Tid) { (Free(p, t) && t !in p.queue.at) || p.queue.Is(t, WokenPush) }

  lemma RolesAfterDequeue(p: Pool, t: Tid)
    requires Roles(p) && MayTake(p, t)
    ensures Roles(AfterDequeue(p, t)) && Free(p, t)
  {
  }

  lemma PostingAfterDequeue(p: Pool, t: Tid)
    requires Roles(p) && Posting(p) && MayTake(p, t)
    ensures Posting(AfterDequeue(p, t))
  {
    WaitingAfterDequeue(p, t);
    hide Roles, MayTake;
    SameWaiting(p, AfterDequeue(p, t));
  }

  lemma WaitingAfterDequeue(p: Pool, t: Tid)
    requires MayTake(p, t)
    ensures var p' := AfterDequeue(p, t);
      forall u :: Waiting(p', u) <==> Waiting(p, u) && p'.queue.at[u] == p.queue.at[u]
  {
  }

  /** The same producers wait, with the same items. */
  lemma SameWaiting(p: Pool, p': Pool)
    requires Posting(p) && p'.queue.posted == p.queue.posted && p'.terminates == p.terminates
    requires p'.closing == p.closing && p'.workers == p.workers && p'.destructor == p.destructor
    requires forall u :: Waiting(p', u) <==> Waiting(p, u) && u in p'.queue.at && p'.queue.at[u] == p.queue.at[u]
    requires forall u :: Waiting(p, u) ==> Waiting(p', u)
    ensures Posting(p')
  {
  }

  lemma OrderAfterDequeue(p: Pool, t: Tid)
    requires HandledInOrder(p) && Free(p, t)
    ensures HandledInOrder(AfterDequeue(p, t))
  {
    if !p.queue.q.Empty() {
      var msg := p.queue.q.items[0];
      assert Items(p.queue.taken + [(t, msg)]) == Items(p.queue.taken) + [msg];
      LogsAppend(Items(p.queue.taken), msg);
      assert LogOf(None) == [] && p.handled + [] == p.handled;
    }
  }

  lemma DequeueKeeps(p: Pool, t: Tid)
    requires PoolInv(p) && MayTake(p, t)
    ensures PoolInv(AfterDequeue(p, t))
  {
    TryDequeueKeeps(p.queue, t);
    RolesAfterDequeue(p, t);
    PostingAfterDequeue(p, t);
    OrderAfterDequeue(p, t);
    if !p.queue.q.Empty() {
      AccountedAfterTake(p.queue.taken, p.inHand, p.handled, p.exited, t, p.queue.q.items[0]);
    }
    hide Inv, Roles, Posting, Accounted, HandledInOrder;
  }

  function Processed(p: Pool, t: Tid): Pool
    requires t in p.inHand
  {
    p.(inHand := p.inHand - {t}, handled := p.handled + LogOf(Some(p.inHand[t])),
       exited := if p.inHand[t] == Terminate then p.exited + {t} else p.exited)
  }

  lemma DoProcess(p: Pool, t: Tid)
    requires t in p.inHand && t !in p.queue.at
    ensures Do(p, Process(t)) == Some(Processed(p, t))
  {
    assert p.handled + [] == p.handled;
  }

  lemma OrderAfterProcess(p: Pool, t: Tid)
    requires HandledInOrder(p) && t in p.inHand && t in p.workers
    ensures HandledInOrder(Processed(p, t))
  {
    hide Logs;
    var p' := Processed(p, t);
    assert p'.handled + [] == p'.handled;
  }

  lemma RolesAfterProcess(p: Pool, t: Tid)
    requires Roles(p) && t in p.inHand && t !in p.queue.at
    ensures Roles(Processed(p, t)) && t in p.workers && t !in p.exited
  {
  }

  lemma ProcessKeeps(p: Pool, t: Tid)
    requires PoolInv(p) && t in p.inHand && t !in p.queue.at
    ensures PoolInv(Processed(p, t))
  {
    RolesAfterProcess(p, t);
    OrderAfterProcess(p, t);
    AccountedAfterProcess(p.queue.taken, p.inHand, p.handled, p.exited, t);
    hide Inv, Roles, Accounted, HandledInOrder;
  }

  /** Threads keep their side and their items: only wake-ups, or a debt paid. */
  ghost predicate SameSides(a: map<Tid, Place<Msg>>, b: map<Tid, Place<Msg>>) {
    && b.Keys <= a.Keys
    && (forall t <- b :: var k, k' := a[t].kind, b[t].kind;
         && (k' == OwesPush <==> k == OwesPush) && (k' == OwesPop <==> k == OwesPop)
         && (Producing(k') <==> Producing(k))
         && (Producing(k) ==> b[t].item == a[t].item))
    && (forall t <- a :: t !in b ==> a[t].kind == OwesPush || a[t].kind == OwesPop)
  }

  lemma SidesAfterNotify(q: Queue<Msg>, e: Event<Msg>)
    requires (e.Notify? || e.Spurious? || e.Expire?) && Next(q, e).Some?
    ensures SameSides(q.at, Next(q, e).value.at)
    ensures Next(q, e).value == q.(at := Next(q, e).value.at)
  {
    if e.Notify? {
      hide Notified, SameSides;
      if q.Is(e.t, OwesPush) {
        SidesAfterNotified(q, e.t, e.wakes, WaitPush, WokenPush);
      } else {
        SidesAfterNotified(q, e.t, e.wakes, WaitPop, WokenPop);
      }
    } else {
      SidesAfterWake(q, e);
      hide Notified, SameSides;
    }
  }

  lemma SidesAfterWake(q: Queue<Msg>, e: Event<Msg>)
    requires (e.Spurious? || e.Expire?) && Next(q, e).Some?
    ensures SameSides(q.at, Next(q, e).value.at)
    ensures Next(q, e).value == q.(at := Next(q, e).value.at)
  {
  }

  lemma SidesAfterNotified(q: Queue<Msg>, t: Tid, wakes: Option<Tid>, waiting: Kind, woken: Kind)
    requires q.Is(t, OwesPush) || q.Is(t, OwesPop)
    requires (waiting == WaitPush && woken == WokenPush) || (waiting == WaitPop && woken == WokenPop)
    requires Notified(q, t, wakes, waiting, woken).Some?
    ensures var q' := Notified(q, t, wakes, waiting, woken).value; SameSides(q.at, q'.at) && q' == q.(at := q'.at)
  {
  }

  lemma WakeKeepsPool(p: Pool, e: Event<Msg>)
    requires PoolInv(p) && (e.Notify? || e.Spurious? || e.Expire?) && Next(p.queue, e).Some?
    ensures PoolInv(p.(queue := Next(p.queue, e).value))
  {
    NextKeepsInv(p.queue, e);
    SidesAfterNotify(p.queue, e);
    hide Inv, Next, Accounted, Logs, Roles, Posting;
    RolesKeepSides(p, Next(p.queue, e).value.at);
    PostingKeepsSides(p, Next(p.queue, e).value.at);
  }

  lemma RolesKeepSides(p: Pool, at: map<Tid, Place<Msg>>)
    requires Roles(p) && SameSides(p.queue.at, at)
    ensures Roles(p.(queue := p.queue.(at := at)))
  {
    forall t <- at ensures t in p.queue.at {
      assert t in at.Keys;
    }
  }

  lemma PostingKeepsSides(p: Pool, at: map<Tid, Place<Msg>>)
    requires Roles(p) && Posting(p) && SameSides(p.queue.at, at)
    ensures Posting(p.(queue := p.queue.(at := at)))
  {
    var p' := p.(queue := p.queue.(at := at));
    hide Roles;
    forall t ensures Waiting(p', t) <==> Waiting(p, t) {
      assert t in at ==> t in at.Keys;
    }
  }

  lemma EnqueueInPool(p: Pool, t: Tid, msg: Msg, e: Event<Msg>)
    requires Next(p.queue, e) == Some(p.queue.TryEnqueue(t, msg))
    ensures WithQueue(p, e) == Some(p.(queue := p.queue.TryEnqueue(t, msg)))
  {
  }

  lemma DequeueInPool(p: Pool, t: Tid, e: Event<Msg>)
    requires Next(p.queue, e) == Some(p.queue.TryDequeue(t))
    ensures WithQueue(p, e) == Some(AfterDequeue(p, t))
  {
  }

  lemma PostStepKeeps(p: Pool, t: Tid, msg: Msg)
    requires PoolInv(p) && Do(p, Post(t, msg)).Some?
    ensures PoolInv(Do(p, Post(t, msg)).value)
  {
    hide PoolInv;
    EnqueueInPool(p, t, msg, Enqueue(t, msg));
    PostKeeps(p, t, msg);
  }

  lemma DestructorIsNoWorker(p: Pool)
    requires PoolInv(p)
    ensures p.destructor !in p.workers
  {
  }

  lemma DoPostTerminate(p: Pool)
    requires Do(p, PostTerminate).Some? && p.destructor !in p.workers
    ensures MayPost(p, p.destructor, Terminate)
    ensures Do(p, PostTerminate) == Some(Posted(p, p.destructor, Terminate))
  {
    EnqueueInPool(p, p.destructor, Terminate, Enqueue(p.destructor, Terminate));
  }

  lemma PostTerminateKeeps(p: Pool)
    requires PoolInv(p) && Do(p, PostTerminate).Some?
    ensures PoolInv(Do(p, PostTerminate).value)
  {
    DestructorIsNoWorker(p);
    hide PoolInv, Do;
    DoPostTerminate(p);
    PostKeeps(p, p.destructor, Terminate);
  }

  lemma RetryEnqueueKeeps(p: Pool, t: Tid)
    requires PoolInv(p) && Next(p.queue, RetryEnqueue(t)).Some?
    ensures PoolInv(WithQueue(p, RetryEnqueue(t)).value)
  {
    assert Waiting(p, t) && Producing(p.queue.at[t].kind);
    var msg := p.queue.at[t].item.value;
    assert MayPost(p, t, msg);
    RetryPosts(p, t);
    hide PoolInv, Next, WithQueue, Posted;
    PostKeeps(p, t, msg);
  }

  lemma RetryPosts(p: Pool, t: Tid)
    requires Next(p.queue, RetryEnqueue(t)).Some?
    ensures WithQueue(p, RetryEnqueue(t)) == Some(Posted(p, t, p.queue.at[t].item.value))
  {
    EnqueueInPool(p, t, p.queue.at[t].item.value, RetryEnqueue(t));
  }

  lemma DequeueStepKeeps(p: Pool, t: Tid, e: Event<Msg>)
    requires PoolInv(p) && Next(p.queue, e).Some?
    requires (e == Dequeue(t) && Free(p, t)) || e == RetryDequeue(t)
    ensures PoolInv(WithQueue(p, e).value)
  {
    hide PoolInv;
    DequeueInPool(p, t, e);
    DequeueKeeps(p, t);
  }

  lemma WakeStepKeeps(p: Pool, e: Event<Msg>)
    requires PoolInv(p) && (e.Notify? || e.Spurious? || e.Expire?) && Next(p.queue, e).Some?
    ensures PoolInv(WithQueue(p, e).value)
  {
    hide PoolInv;
    SidesAfterNotify(p.queue, e);
    WakeKeepsPool(p, e);
  }

  lemma DoKeepsInv(p: Pool, step: Step)
    requires PoolInv(p) && Do(p, step).Some?
    ensures PoolInv(Do(p, step).value)
  {
    hide PoolInv, Next;
    match step
    case Post(t, msg) => PostStepKeeps(p, t, msg);
    case Close => CloseKeeps(p);
    case PostTerminate => PostTerminateKeeps(p);
    case Take(t) => DequeueStepKeeps(p, t, Dequeue(t));
    case Process(t) =>
      DoProcess(p, t);
      ProcessKeeps(p, t);
    case Inside(e) =>
      match e
      case RetryEnqueue(t) => RetryEnqueueKeeps(p, t);
      case RetryDequeue(t) => DequeueStepKeeps(p, t, e);
      case _ => WakeStepKeeps(p, e);
  }

  lemma CloseKeeps(p: Pool)
    requires PoolInv(p) && Do(p, Close).Some?
    ensures PoolInv(Do(p, Close).value)
  {
    hide Inv, Accounted, Logs;
    assert forall t <- p.queue.at :: !Producing(p.queue.at[t].kind);
  }

  lemma NextKeepsCapacity(q: Queue<Msg>, e: Event<Msg>)
    requires Next(q, e).Some?
    ensures Next(q, e).value.q.capacity == q.q.capacity
  {
  }

  lemma DoKeepsShape(p: Pool, step: Step)
    requires Do(p, step).Some?
    ensures Do(p, step).value.workers == p.workers
    ensures Do(p, step).value.queue.q.capacity == p.queue.q.capacity
  {
    hide Next;
    forall e | Next(p.queue, e).Some?
      ensures Next(p.queue, e).value.q.capacity == p.queue.q.capacity
    {
      NextKeepsCapacity(p.queue, e);
    }
  }

  lemma {:induction false} ExecKeepsInv(p: Pool, steps: seq<Step>)
    requires PoolInv(p) && Exec(p, steps).Some?
    ensures PoolInv(Exec(p, steps).value)
    ensures Exec(p, steps).value.workers == p.workers
    ensures Exec(p, steps).value.queue.q.capacity == p.queue.q.capacity
    decreases steps
  {
    hide PoolInv, Do;
    if steps != [] {
      DoKeepsInv(p, steps[0]);
      DoKeepsShape(p, steps[0]);
      ExecKeepsInv(Do(p, steps[0]).value, steps[1..]);
    }
  }

  lemma InitialPoolInv(capacity: nat, workers: set<Tid>, destructor: Tid)
    requires destructor !in workers
    ensures PoolInv(Initial(capacity, workers, destructor))
  {
    InitialInv<Msg>(capacity);
    assert forall m :: Holders(map[], m) == {};
    assert Items<Msg>([]) == [];
  }

  // ---- Every message posted arrives ----

  /** A thread outside the pool may post as long as the pool is not being destroyed. */
  lemma PostsAreAcceptedExactly(p: Pool, t: Tid, id: nat)
    requires t !in p.queue.at
    ensures Do(p, Post(t, Log(id))).Some? <==> !p.closing && t !in p.workers
    ensures Do(p, Post(t, Flush)).Some? <==> !p.closing && t !in p.workers
  {
  }

  /** The messages of the calls of a run, in the order of the calls. */
  function Posts(steps: seq<Step>): seq<Msg> {
    if steps == [] then [] else (if steps[0].Post? then [steps[0].msg] else []) + Posts(steps[1..])
  }

  lemma DoArrives(p: Pool, step: Step, id: nat)
    requires Do(p, step).Some?
    ensures Arrived(Do(p, step).value.queue, Log(id))
      == Arrived(p.queue, Log(id)) + One(step.Post? && step.msg == Log(id))
  {
    hide Arrived, Next;
    match step
    case Post(t, msg) => NextArrives(p.queue, Enqueue(t, msg), Log(id));
    case Close =>
    case PostTerminate => NextArrives(p.queue, Enqueue(p.destructor, Terminate), Log(id));
    case Take(t) => NextArrives(p.queue, Dequeue(t), Log(id));
    case Process(t) =>
    case Inside(e) => NextArrives(p.queue, e, Log(id));
  }

  lemma {:induction false} ExecArrives(p: Pool, steps: seq<Step>, id: nat)
    requires Exec(p, steps).Some?
    ensures Arrived(Exec(p, steps).value.queue, Log(id))
      == Arrived(p.queue, Log(id)) + multiset(Posts(steps))[Log(id)]
    decreases steps
  {
    hide Arrived, Do;
    if steps != [] {
      DoArrives(p, steps[0], id);
      ExecArrives(Do(p, steps[0]).value, steps[1..], id);
      var first := if steps[0].Post? then [steps[0].msg] else [];
      assert multiset(Posts(steps)) == multiset(first) + multiset(Posts(steps[1..]));
    }
  }

  /** Nobody is on its way in with a log any more. */
  lemma NobodyCarriesAtTheEnd(p: Pool, id: nat)
    requires PoolInv(p) && p.workers != {} && p.exited == p.workers
    requires p.queue.posted == Items(p.queue.taken) && p.inHand == map[]
    ensures Carriers(p.queue.at, Log(id)) == {}
  {
    assert multiset(Items(p.queue.taken))[Terminate] == |p.exited| + |Holders(p.inHand, Terminate)| > 0;
    assert p.closing;
    hide Inv, Roles, Accounted, HandledInOrder, Items;
    assert forall t :: IsCarrier(p.queue.at, t, Log(id)) ==> Waiting(p, t);
  }

  lemma NothingQueuedAtTheEnd(p: Pool)
    requires PoolInv(p) && p.workers != {} && p.exited == p.workers
    ensures p.queue.q.items == [] && p.inHand == map[]
    ensures p.queue.posted == Items(p.queue.taken)
  {
    var taken, items, posted := Items(p.queue.taken), p.queue.q.items, p.queue.posted;
    assert p.inHand.Keys == {};
    assert Holders(p.inHand, Terminate) == {};
    assert posted == taken + items;
    assert multiset(posted) == multiset(taken) + multiset(items);
    assert Terminate in taken;
    var i :| 0 <= i < |taken| && taken[i] == Terminate;
    assert posted[i] == Terminate;
    if items != [] {
      LastIsTerminate(posted, items, i);
    }
    assert taken + [] == taken;
  }

  lemma LastIsTerminate(posted: seq<Msg>, items: seq<Msg>, i: nat)
    requires items != [] && |items| < |posted| && items == posted[|posted| - |items|..]
    requires i < |posted| - |items| && posted[i] == Terminate
    requires forall i, j :: 0 <= i < j < |posted| && posted[i] == Terminate ==> posted[j] == Terminate
    ensures multiset(items)[Terminate] > 0
  {
    assert items[|items| - 1] == posted[|posted| - 1];
    assert Terminate in items;
  }

  /** Once all workers have left after the destructor posted its terminates: nothing is left in
      the queue, each worker took exactly one terminate, every log was handled exactly as often as
      calls posted it, and a single worker handled them in the order in which they got into the
      queue. */
  lemma ShutdownHandlesEverything(capacity: nat, workers: set<Tid>, destructor: Tid, steps: seq<Step>)
    requires destructor !in workers && workers != {}
    requires Exec(Initial(capacity, workers, destructor), steps).Some?
    requires Exec(Initial(capacity, workers, destructor), steps).value.exited == workers
    ensures var p := Exec(Initial(capacity, workers, destructor), steps).value;
      && p.queue.q.items == []
      && (forall t <- workers :: multiset(p.queue.taken)[(t, Terminate)] == 1)
      && (forall id :: multiset(p.handled)[id] == multiset(Posts(steps))[Log(id)])
      && (|workers| == 1 ==> p.handled == Logs(p.queue.posted))
  {
    InitialPoolInv(capacity, workers, destructor);
    ExecKeepsInv(Initial(capacity, workers, destructor), steps);
    var p := Exec(Initial(capacity, workers, destructor), steps).value;
    hide Exec, PoolInv;
    NothingQueuedAtTheEnd(p);
    AllAccountedAtTheEnd(p);
    forall id ensures multiset(p.handled)[id] == multiset(Posts(steps))[Log(id)] {
      EveryPostArrived(capacity, workers, destructor, steps, id);
    }
    if |workers| == 1 {
      InOrderAtTheEnd(p);
    }
  }

  lemma EveryPostArrived(capacity: nat, workers: set<Tid>, destructor: Tid, steps: seq<Step>, id: nat)
    requires Exec(Initial(capacity, workers, destructor), steps).Some?
    requires var p := Exec(Initial(capacity, workers, destructor), steps).value;
      && PoolInv(p) && p.workers != {} && p.exited == p.workers
      && p.queue.posted == Items(p.queue.taken) && p.inHand == map[]
    ensures var p := Exec(Initial(capacity, workers, destructor), steps).value;
      multiset(p.queue.posted)[Log(id)] == multiset(Posts(steps))[Log(id)]
  {
    var p0 := Initial(capacity, workers, destructor);
    assert Carriers(p0.queue.at, Log(id)) == {};
    hide Exec, PoolInv, Posts, Carriers, Items;
    ExecArrives(p0, steps, id);
    NobodyCarriesAtTheEnd(Exec(p0, steps).value, id);
  }

  lemma AllAccountedAtTheEnd(p: Pool)
    requires PoolInv(p) && p.inHand == map[] && p.queue.posted == Items(p.queue.taken)
    ensures forall t <- p.exited :: multiset(p.queue.taken)[(t, Terminate)] == 1
    ensures forall id :: multiset(p.handled)[id] == multiset(p.queue.posted)[Log(id)]
  {
    hide Inv, Roles, Posting, HandledInOrder;
    assert forall m :: Holders(p.inHand, m) == {};
    forall id ensures multiset(p.handled)[id] == multiset(p.queue.posted)[Log(id)] {
      assert LogAccounted(p.queue.taken, p.inHand, p.handled, id);
    }
    hide Holders, LogAccounted, Items;
    forall t <- p.exited ensures multiset(p.queue.taken)[(t, Terminate)] == 1 {
      assert ExitAccounted(p.queue.taken, p.inHand, p.exited, t);
    }
  }

  lemma InOrderAtTheEnd(p: Pool)
    requires PoolInv(p) && p.inHand == map[] && p.queue.posted == Items(p.queue.taken) && |p.workers| == 1
    ensures p.handled == Logs(p.queue.posted)
  {
    hide Inv, Roles, Posting, Accounted, Logs;
    var w :| w in p.workers;
    assert p.workers == {w} by { assert |p.workers - {w}| == 0; }
    assert p.handled + [] == p.handled;
  }

  /** Steps that bring the shutdown forward; spurious wake-ups and expiries are not needed. */
  predicate IsProgress(step: Step) {
    step.Process? || step.Take? || step.PostTerminate?
    || (step.Inside? && (step.e.RetryEnqueue? || step.e.RetryDequeue? || step.e.Notify?))
  }

  ghost predicate CanProgress(p: Pool) { exists step :: IsProgress(step) && Do(p, step).Some? }

  lemma NotifyIsPossible(q: Queue<Msg>, t: Tid) returns (e: Event<Msg>)
    requires q.Is(t, OwesPush) || q.Is(t, OwesPop)
    ensures e.Notify? && Next(q, e).Some?
  {
    var waiting := if q.Is(t, OwesPush) then WaitPush else WaitPop;
    if w :| w in q.at && q.at[w].kind == waiting {
      e := Notify(t, Some(w));
    } else {
      e := Notify(t, None);
    }
  }

  lemma InsideProgresses(p: Pool, e: Event<Msg>)
    requires (e.RetryEnqueue? || e.RetryDequeue? || e.Notify?) && Next(p.queue, e).Some?
    ensures CanProgress(p)
  {
    hide Next;
    assert IsProgress(Inside(e)) && Do(p, Inside(e)).Some?;
  }

  lemma HandProgresses(p: Pool, t: Tid)
    requires t in p.inHand && t !in p.queue.at
    ensures CanProgress(p)
  {
    hide Next;
    assert IsProgress(Process(t)) && Do(p, Process(t)).Some?;
  }

  lemma UnrestProgresses(p: Pool)
    requires PoolInv(p) && (p.inHand != map[] || !Quiet(p.queue))
    ensures CanProgress(p)
  {
    assert Inv(p.queue);
    hide PoolInv, Inv, Next, CanProgress;
    if t :| t in p.inHand && t !in p.queue.at {
      HandProgresses(p, t);
    } else {
      if p.inHand != map[] {
        FullHandsMeanUnrest(p);
      }
      AwakeCanMove(p.queue);
      var e: Event<Msg> :| (e.RetryEnqueue? || e.RetryDequeue? || e.Notify?) && Next(p.queue, e).Some?;
      InsideProgresses(p, e);
    }
  }

  lemma AwakeCanMove(q: Queue<Msg>)
    requires Inv(q) && !Quiet(q)
    ensures exists e: Event<Msg> :: (e.RetryEnqueue? || e.RetryDequeue? || e.Notify?) && Next(q, e).Some?
  {
    hide NoLostWakeup, InOrder;
    var t :| t in q.at && q.at[t].kind != WaitPop && q.at[t].kind != WaitPush;
    var e;
    match q.at[t].kind {
      case WokenPop => e := RetryEnqueue(t);
      case WokenPush => e := RetryDequeue(t);
      case _ => e := NotifyIsPossible(q, t);
    }
    assert Next(q, e).Some?;
  }

  lemma FullHandsMeanUnrest(p: Pool)
    requires PoolInv(p) && p.inHand != map[] && forall t <- p.inHand :: t in p.queue.at
    ensures !Quiet(p.queue)
  {
    var t :| t in p.inHand;
    assert p.queue.at[t].kind == OwesPop;
  }

  /** With room for one message, a started shutdown in which a worker is left always has a step that
      brings it forward. */
  lemma ShutdownNeverStuck(p: Pool)
    requires PoolInv(p) && p.closing && p.queue.q.capacity > 0 && p.exited != p.workers
    ensures CanProgress(p)
  {
    if p.inHand != map[] || !Quiet(p.queue) {
      UnrestProgresses(p);
    } else if p.destructor !in p.queue.at && p.terminates < |p.workers| {
      assert Do(p, PostTerminate).Some?;
    } else {
      SleepersAreDone(p);
      assert p.workers - p.exited != {};
      var w :| w in p.workers - p.exited;
      assert w in p.queue.at ==> p.queue.Is(w, WaitPush);
      assert Do(p, Take(w)).Some?;
    }
  }

  lemma AllTerminatesTaken(p: Pool)
    requires PoolInv(p) && p.inHand == map[] && p.queue.q.items == []
    requires p.destructor !in p.queue.at && p.terminates == |p.workers|
    ensures p.exited == p.workers
  {
    assert Items(p.queue.taken) + [] == Items(p.queue.taken);
    assert Holders(p.inHand, Terminate) == {};
    assert |p.workers| == |p.exited| + |p.workers - p.exited|;
  }

  /** At rest no worker sleeps while the shutdown is incomplete. */
  lemma SleepersAreDone(p: Pool)
    requires PoolInv(p) && p.closing && p.queue.q.capacity > 0 && p.exited != p.workers
    requires p.inHand == map[] && Quiet(p.queue)
    requires p.destructor in p.queue.at || p.terminates >= |p.workers|
    ensures forall w :: !p.queue.Is(w, WaitPush)
  {
    RestIsJustified(p.queue);
    if p.destructor in p.queue.at {
      assert p.queue.Is(p.destructor, WaitPop);
    } else if p.queue.q.items == [] {
      AllTerminatesTaken(p);
    }
  }

  // ---- The shutdown comes to its end ----

  /** The workers about to ask for a message. */
  ghost function Asking(p: Pool): set<Tid> {
    set t | t in p.workers && t !in p.exited && t !in p.inHand && t !in p.queue.at
  }

  /** What the threads inside the queue may still do. */
  ghost function Pending(at: map<Tid, Place<Msg>>): nat {
    7 * Count(at, WaitPop) + 8 * Count(at, WokenPop) + 3 * Count(at, OwesPush)
    + 2 * Count(at, WokenPush) + 2 * Count(at, OwesPop)
  }

  ghost function Work(p: Pool): int {
    8 * (|p.workers| - p.terminates) + 4 * |p.queue.q.items| + Pending(p.queue.at) + 2 * |p.inHand| + |Asking(p)|
  }

  function Weight(kind: Kind): nat {
    match kind
    case WaitPop => 7
    case WokenPop => 8
    case OwesPush => 3
    case WaitPush => 0
    case WokenPush => 2
    case OwesPop => 2
  }

  function WeightAt(at: map<Tid, Place<Msg>>, t: Tid): nat { if t in at then Weight(at[t].kind) else 0 }

  lemma PendingAfterUpdate(at: map<Tid, Place<Msg>>, t: Tid, q: Place<Msg>)
    ensures Pending(at[t := q]) == Pending(at) - WeightAt(at, t) + Weight(q.kind)
  {
    CountsAfterUpdate(at, t, q);
    hide Count;
  }

  lemma PendingAfterRemoval(at: map<Tid, Place<Msg>>, t: Tid)
    ensures Pending(at - {t}) == Pending(at) - WeightAt(at, t)
  {
    CountsAfterRemoval(at, t);
    hide Count;
  }

  /** A thread that comes to stand in the queue, or leaves it, may stop or start asking. */
  lemma AskingAfter(p: Pool, p': Pool, t: Tid)
    requires p'.workers == p.workers
    requires forall u :: u != t ==> (u in Asking(p') <==> u in Asking(p))
    ensures |Asking(p')| == |Asking(p)| - One(t in Asking(p)) + One(t in Asking(p'))
  {
    var rest := Asking(p) - {t};
    assert Asking(p) == if t in Asking(p) then rest + {t} else rest;
    assert Asking(p') == if t in Asking(p') then rest + {t} else rest;
  }

  lemma PostLowersWork(p: Pool, t: Tid, msg: Msg)
    requires MayPost(p, t, msg) && (t in p.queue.at || p.closing)
    ensures Work(Posted(p, t, msg)) < Work(p)
  {
    AskingAfterPost(p, t, msg);
    PendingAfterUpdate(p.queue.at, t, Place(WaitPop, Some(msg), false));
    PendingAfterUpdate(p.queue.at, t, Place(OwesPush, None, false));
    hide Pending, Asking;
  }

  lemma AskingAfterPost(p: Pool, t: Tid, msg: Msg)
    requires t !in p.workers
    ensures Asking(Posted(p, t, msg)) == Asking(p)
  {
  }

  lemma TakeLowersWork(p: Pool, t: Tid)
    requires Roles(p) && MayTake(p, t)
    ensures Work(AfterDequeue(p, t)) < Work(p)
  {
    RolesAfterDequeue(p, t);
    AskingAfterDequeue(p, t);
    PendingAfterDequeue(p, t);
    hide Pending, Roles, Asking;
    if !p.queue.q.Empty() {
      OneMoreInHand(p.inHand, t, p.queue.q.items[0]);
    }
  }

  lemma AskingAfterDequeue(p: Pool, t: Tid)
    requires Free(p, t)
    ensures var givesUp := p.queue.q.Empty() && t in p.queue.at && p.queue.at[t].expired;
      |Asking(AfterDequeue(p, t))| == |Asking(p)| - One(t !in p.queue.at) + One(givesUp)
  {
    AskingAfter(p, AfterDequeue(p, t), t);
  }

  lemma PendingAfterDequeue(p: Pool, t: Tid)
    requires MayTake(p, t)
    ensures Pending(AfterDequeue(p, t).queue.at)
      == Pending(p.queue.at) - (if t in p.queue.at then 2 else 0) + if p.queue.q.Empty() then 0 else 2
  {
    PendingAfterUpdate(p.queue.at, t, Place(OwesPop, None, false));
    PendingAfterUpdate(p.queue.at, t, Place(WaitPush, None, false));
    PendingAfterRemoval(p.queue.at, t);
    hide Pending;
  }

  lemma OneMoreInHand(inHand: map<Tid, Msg>, t: Tid, msg: Msg)
    requires t !in inHand
    ensures |inHand[t := msg]| == |inHand| + 1
  {
  }

  lemma OneLessInHand(inHand: map<Tid, Msg>, t: Tid)
    requires t in inHand
    ensures |inHand - {t}| == |inHand| - 1
  {
    var rest := inHand - {t};
    assert inHand == rest[t := inHand[t]];
  }

  lemma ProcessLowersWork(p: Pool, t: Tid)
    requires Roles(p) && t in p.inHand && t !in p.queue.at
    ensures Work(Processed(p, t)) < Work(p)
  {
    var p' := Processed(p, t);
    OneLessInHand(p.inHand, t);
    AskingAfter(p, p', t);
    hide Pending;
  }

  lemma NotifyLowersWork(p: Pool, t: Tid, wakes: Option<Tid>)
    requires Roles(p) && Next(p.queue, Notify(t, wakes)).Some?
    ensures Work(p.(queue := Next(p.queue, Notify(t, wakes)).value)) < Work(p)
  {
    NotifyLowersPending(p.queue, t, wakes);
    NobodyAsks(p, t, wakes);
    hide Pending, Asking, Next, Roles;
  }

  lemma NotifyLowersPending(q: Queue<Msg>, t: Tid, wakes: Option<Tid>)
    requires Next(q, Notify(t, wakes)).Some?
    ensures var q' := Next(q, Notify(t, wakes)).value;
      Pending(q'.at) < Pending(q.at) && q' == q.(at := q'.at)
  {
    if q.Is(t, OwesPush) {
      NotifiedLowersPending(q, t, wakes, WaitPush, WokenPush);
    } else {
      NotifiedLowersPending(q, t, wakes, WaitPop, WokenPop);
    }
    hide Pending, Notified;
  }

  lemma NotifiedLowersPending(q: Queue<Msg>, t: Tid, wakes: Option<Tid>, waiting: Kind, woken: Kind)
    requires q.Is(t, OwesPush) || q.Is(t, OwesPop)
    requires if q.Is(t, OwesPush) then waiting == WaitPush && woken == WokenPush
      else waiting == WaitPop && woken == WokenPop
    requires Notified(q, t, wakes, waiting, woken).Some?
    ensures var q' := Notified(q, t, wakes, waiting, woken).value;
      Pending(q'.at) < Pending(q.at) && q' == q.(at := q'.at)
  {
    PendingAfterRemoval(q.at, t);
    var q' := Notified(q, t, wakes, waiting, woken).value;
    if wakes.Some? {
      PendingAfterUpdate(q.at - {t}, wakes.value, q'.at[wakes.value]);
    }
    hide Pending;
  }

  /** The sender of a notification is a client, or a worker with its message in hand. */
  lemma NobodyAsks(p: Pool, t: Tid, wakes: Option<Tid>)
    requires Roles(p) && Next(p.queue, Notify(t, wakes)).Some?
    ensures Asking(p.(queue := Next(p.queue, Notify(t, wakes)).value)) == Asking(p)
  {
    SidesAfterNotify(p.queue, Notify(t, wakes));
    var at := Next(p.queue, Notify(t, wakes)).value.at;
    hide Next;
    forall u | u in p.workers && u !in p.exited && u !in p.inHand ensures u in at <==> u in p.queue.at {
      assert u in at ==> u in at.Keys;
    }
  }

  /** Every step that brings the shutdown forward leaves less to do. */
  lemma ProgressLowersWork(p: Pool, step: Step)
    requires PoolInv(p) && IsProgress(step) && Do(p, step).Some?
    ensures Work(Do(p, step).value) < Work(p)
  {
    assert Roles(p);
    hide PoolInv, Next, Work;
    match step {
      case PostTerminate =>
        DestructorIsNoWorker(p);
        DoPostTerminate(p);
        PostLowersWork(p, p.destructor, Terminate);
      case Take(t) =>
        TakeIsDequeue(p, t);
        TakeLowersWork(p, t);
      case Process(t) =>
        DoProcess(p, t);
        ProcessLowersWork(p, t);
      case Inside(e) => InsideLowersWork(p, e);
    }
  }

  lemma TakeIsDequeue(p: Pool, t: Tid)
    requires Do(p, Take(t)).Some?
    ensures MayTake(p, t) && Do(p, Take(t)) == Some(AfterDequeue(p, t))
  {
    DequeueInPool(p, t, Dequeue(t));
  }

  lemma InsideLowersWork(p: Pool, e: Event<Msg>)
    requires PoolInv(p) && (e.RetryEnqueue? || e.RetryDequeue? || e.Notify?) && Next(p.queue, e).Some?
    ensures WithQueue(p, e).Some? && Work(WithQueue(p, e).value) < Work(p)
  {
    match e {
      case RetryEnqueue(t) => RetryEnqueueLowersWork(p, t);
      case RetryDequeue(t) =>
        DequeueInPool(p, t, e);
        TakeLowersWork(p, t);
      case Notify(t, wakes) =>
        SidesAfterNotify(p.queue, e);
        NotifyLowersWork(p, t, wakes);
    }
  }

  lemma RetryEnqueueLowersWork(p: Pool, t: Tid)
    requires PoolInv(p) && Next(p.queue, RetryEnqueue(t)).Some?
    ensures WithQueue(p, RetryEnqueue(t)).Some? && Work(WithQueue(p, RetryEnqueue(t)).value) < Work(p)
  {
    assert Waiting(p, t) && Producing(p.queue.at[t].kind);
    var msg := p.queue.at[t].item.value;
    assert MayPost(p, t, msg);
    hide PoolInv, Work;
    EnqueueInPool(p, t, msg, RetryEnqueue(t));
    PostLowersWork(p, t, msg);
  }

  lemma WorkIsNatural(p: Pool)
    requires PoolInv(p)
    ensures Work(p) >= 0
  {
    hide Pending, Asking;
  }

  ghost predicate AllProgress(steps: seq<Step>) { forall i :: 0 <= i < |steps| ==> IsProgress(steps[i]) }

  lemma DoKeepsClosing(p: Pool, step: Step)
    requires p.closing && Do(p, step).Some?
    ensures Do(p, step).value.closing
  {
    hide Next;
  }

  /** How many steps of a schedule bring the shutdown forward; the others of a started shutdown are
      spurious wake-ups and expired waits. */
  function Progress(steps: seq<Step>): nat {
    if steps == [] then 0 else Progress(steps[1..]) + if IsProgress(steps[0]) then 1 else 0
  }

  /** A wake-up nobody asked for makes a thread test its predicate once more. */
  lemma WakeUpAddsLittle(p: Pool, e: Event<Msg>)
    requires (e.Spurious? || e.Expire?) && Next(p.queue, e).Some?
    ensures WithQueue(p, e).Some? && Work(WithQueue(p, e).value) <= Work(p) + 2
  {
    var at := Next(p.queue, e).value.at;
    assert at == p.queue.at[e.t := at[e.t]];
    PendingAfterUpdate(p.queue.at, e.t, at[e.t]);
    var p' := WithQueue(p, e).value;
    assert p' == p.(queue := p.queue.(at := at));
    assert Asking(p') == Asking(p);
    hide Pending, Asking;
  }

  /** Once the shutdown has begun there are no other steps. */
  lemma StepOfShutdown(p: Pool, step: Step)
    requires PoolInv(p) && p.closing && Do(p, step).Some?
    ensures Work(Do(p, step).value) <= Work(p) + if IsProgress(step) then -1 else 2
  {
    hide PoolInv, Work, Next;
    if IsProgress(step) {
      ProgressLowersWork(p, step);
    } else {
      assert step.Inside? && (step.e.Spurious? || step.e.Expire?);
      WakeUpAddsLittle(p, step.e);
    }
  }

  lemma {:induction false} OnlyProgress(steps: seq<Step>)
    requires AllProgress(steps)
    ensures Progress(steps) == |steps|
    decreases steps
  {
    if steps != [] {
      assert IsProgress(steps[0]);
      assert AllProgress(steps[1..]) by { assert forall i :: 0 <= i < |steps| - 1 ==> steps[1..][i] == steps[i + 1]; }
      OnlyProgress(steps[1..]);
    }
  }

  /** However a started shutdown is scheduled, with whatever spurious wake-ups and expired waits
      between its steps, it comes to its end: the steps that bring it forward are no more than the
      work that was left and two for each of the others, and it stops only where every worker has
      left. */
  lemma {:induction false} ShutdownEnds(p: Pool, steps: seq<Step>)
    requires PoolInv(p) && p.closing && p.queue.q.capacity > 0 && Exec(p, steps).Some?
    ensures Progress(steps) <= Work(p) + 2 * (|steps| - Progress(steps))
    ensures AllProgress(steps) ==> |steps| <= Work(p)
    ensures Exec(p, steps).value.exited == p.workers || CanProgress(Exec(p, steps).value)
    decreases steps
  {
    hide PoolInv, Do, Work, CanProgress, IsProgress, AllProgress;
    if AllProgress(steps) {
      OnlyProgress(steps);
    }
    if steps == [] {
      WorkIsNatural(p);
      if p.exited != p.workers {
        ShutdownNeverStuck(p);
      }
    } else {
      DoKeepsInv(p, steps[0]);
      DoKeepsShape(p, steps[0]);
      DoKeepsClosing(p, steps[0]);
      StepOfShutdown(p, steps[0]);
      ShutdownEnds(Do(p, steps[0]).value, steps[1..]);
    }
  }

  lemma Prepend(p: Pool, step: Step, rest: seq<Step>)
    requires IsProgress(step) && AllProgress(rest) && Do(p, step).Some?
    ensures AllProgress([step] + rest) && Exec(p, [step] + rest) == Exec(Do(p, step).value, rest)
  {
    hide IsProgress, Do;
    assert ([step] + rest)[1..] == rest;
  }

  /** A step that brings the shutdown forward, with what it keeps. */
  lemma ProgressStep(p: Pool) returns (step: Step)
    requires PoolInv(p) && p.closing && p.queue.q.capacity > 0 && p.exited != p.workers
    ensures IsProgress(step) && Do(p, step).Some?
    ensures var p' := Do(p, step).value;
      && PoolInv(p') && p'.closing && p'.queue.q.capacity == p.queue.q.capacity && p'.workers == p.workers
      && 0 <= Work(p') < Work(p)
  {
    hide PoolInv, Do, Work, IsProgress;
    ShutdownNeverStuck(p);
    step :| IsProgress(step) && Do(p, step).Some?;
    DoKeepsInv(p, step);
    DoKeepsShape(p, step);
    DoKeepsClosing(p, step);
    ProgressLowersWork(p, step);
    WorkIsNatural(Do(p, step).value);
  }

  /** And such a schedule exists. */
  lemma {:induction false} ShutdownCompletes(p: Pool) returns (steps: seq<Step>)
    requires PoolInv(p) && p.closing && p.queue.q.capacity > 0
    ensures AllProgress(steps) && Exec(p, steps).Some? && Exec(p, steps).value.exited == p.workers
    decreases Work(p)
  {
    if p.exited == p.workers {
      steps := [];
    } else {
      hide PoolInv, Do, Work, IsProgress, AllProgress, Exec;
      var step := ProgressStep(p);
      var rest := ShutdownCompletes(Do(p, step).value);
      Prepend(p, step, rest);
      steps := [step] + rest;
    }
  }

  // ---- A queue of size 0 ----

  ghost predicate AllLeft(p: Pool, steps: seq<Step>) {
    Exec(p, steps).Some? && Exec(p, steps).value.exited == p.workers
  }

  lemma NothingFits(p: Pool, step: Step)
    requires PoolInv(p) && p.queue.q.capacity == 0 && p.queue.posted == [] && Do(p, step).Some?
    ensures Do(p, step).value.queue.posted == []
  {
    assert p.queue.q.items == [] by { hide Accounted, Roles, Posting, NoLostWakeup, HandledInOrder; }
    hide PoolInv;
    if step.Inside? {
      NothingFitsInside(p.queue, step.e);
    }
  }

  lemma NothingFitsInside(q: Queue<Msg>, e: Event<Msg>)
    requires q.q.capacity == 0 && q.q.items == [] && q.posted == [] && Next(q, e).Some? && !e.EnqueueNow?
    ensures Next(q, e).value.posted == []
  {
  }

  lemma {:induction false} NothingIsPosted(p: Pool, steps: seq<Step>)
    requires PoolInv(p) && p.queue.q.capacity == 0 && p.queue.posted == [] && Exec(p, steps).Some?
    ensures Exec(p, steps).value.queue.posted == []
    decreases steps
  {
    hide PoolInv, Do;
    if steps != [] {
      NothingFits(p, steps[0]);
      DoKeepsInv(p, steps[0]);
      DoKeepsShape(p, steps[0]);
      NothingIsPosted(Do(p, steps[0]).value, steps[1..]);
    }
  }

  lemma NobodyLeaves(p: Pool)
    requires PoolInv(p) && p.queue.posted == []
    ensures p.exited == {}
  {
    assert Items(p.queue.taken) == [];
    assert multiset(Items(p.queue.taken))[Terminate] == |p.exited| + |Holders(p.inHand, Terminate)|;
  }

  // ---- Every pool can be shut down, with whatever it has begun ----

  /** While the pool is open nobody was told to leave. */
  lemma NobodyLeavesAnOpenPool(p: Pool)
    requires PoolInv(p) && !p.closing
    ensures p.exited == {}
  {
    assert multiset(p.queue.posted) == multiset(Items(p.queue.taken)) + multiset(p.queue.q.items);
    assert multiset(Items(p.queue.taken))[Terminate] == |p.exited| + |Holders(p.inHand, Terminate)|;
  }

  /** A thread that is posting gets through: some step brings the pool forward. */
  lemma PostersGetThrough(p: Pool, t: Tid)
    requires PoolInv(p) && !p.closing && p.queue.q.capacity > 0 && p.workers != {}
    requires t in p.queue.at && t !in p.workers
    ensures CanProgress(p)
  {
    if p.inHand != map[] || !Quiet(p.queue) {
      UnrestProgresses(p);
    } else {
      NobodyLeavesAnOpenPool(p);
      RestIsJustified(p.queue);
      assert p.queue.Is(t, WaitPop) && p.queue.q.items != [];
      var w :| w in p.workers;
      assert w in p.queue.at ==> p.queue.Is(w, WaitPush);
      assert Do(p, Take(w)).Some?;
    }
  }

  lemma ProgressKeepsOpen(p: Pool, step: Step)
    requires IsProgress(step) && Do(p, step).Some?
    ensures Do(p, step).value.closing == p.closing
  {
    hide Next;
  }

  /** What a step of an open pool keeps that brings it forward. */
  lemma OpenStep(p: Pool, t: Tid) returns (step: Step)
    requires PoolInv(p) && !p.closing && p.queue.q.capacity > 0 && p.workers != {}
    requires t in p.queue.at && t !in p.workers
    ensures !step.Post? && Do(p, step).Some?
    ensures var p' := Do(p, step).value;
      && PoolInv(p') && !p'.closing && p'.queue.q.capacity == p.queue.q.capacity && p'.workers == p.workers
      && 0 <= Work(p') < Work(p)
  {
    PostersGetThrough(p, t);
    hide PoolInv, Do, Work;
    step :| IsProgress(step) && Do(p, step).Some?;
    DoKeepsInv(p, step);
    DoKeepsShape(p, step);
    ProgressKeepsOpen(p, step);
    ProgressLowersWork(p, step);
    WorkIsNatural(Do(p, step).value);
  }

  lemma {:induction false} PostsOfMore(step: Step, rest: seq<Step>)
    requires !step.Post?
    ensures Posts([step] + rest) == Posts(rest)
  {
    assert ([step] + rest)[1..] == rest;
  }

  lemma ExecMore(p: Pool, step: Step, rest: seq<Step>)
    requires Do(p, step).Some?
    ensures Exec(p, [step] + rest) == Exec(Do(p, step).value, rest)
  {
    hide Do;
    assert ([step] + rest)[1..] == rest;
  }

  lemma {:induction false} ProgressPostsNothing(steps: seq<Step>)
    requires AllProgress(steps)
    ensures Posts(steps) == []
    decreases steps
  {
    if steps != [] {
      assert IsProgress(steps[0]);
      assert AllProgress(steps[1..]) by { assert forall i :: 0 <= i < |steps| - 1 ==> steps[1..][i] == steps[i + 1]; }
      ProgressPostsNothing(steps[1..]);
    }
  }

  /** With room for one message and a worker, whatever a pool has begun, it can be shut down without
      another message: those posting get through, the pool is closed, and every worker leaves. */
  lemma {:induction false} EveryPoolCanBeShutDown(p: Pool) returns (steps: seq<Step>)
    requires PoolInv(p) && p.queue.q.capacity > 0 && p.workers != {}
    ensures AllLeft(p, steps) && Posts(steps) == []
    decreases Work(p)
  {
    if p.closing {
      steps := ShutdownCompletes(p);
      ProgressPostsNothing(steps);
    } else if t :| t in p.queue.at && t !in p.workers {
      hide PoolInv, Do, Work, Exec, Posts;
      var step := OpenStep(p, t);
      var rest := EveryPoolCanBeShutDown(Do(p, step).value);
      ExecMore(p, step, rest);
      PostsOfMore(step, rest);
      steps := [step] + rest;
    } else {
      var closed := Do(p, Close).value;
      hide PoolInv, Work, IsProgress, Exec, Posts, Do;
      DoKeepsInv(p, Close);
      var rest := ShutdownCompletes(closed);
      ProgressPostsNothing(rest);
      ExecMore(p, Close, rest);
      PostsOfMore(Close, rest);
      steps := [Close] + rest;
    }
  }

  /** A pool can be shut down exactly when its queue has room for a message: at any time of any run,
      without another message; with a queue of size 0, which the constructor takes, every terminate
      waits for ever. */
  lemma ShutdownPossibleExactly(capacity: nat, workers: set<Tid>, destructor: Tid, before: seq<Step>)
    requires destructor !in workers && workers != {}
    requires Exec(Initial(capacity, workers, destructor), before).Some?
    ensures var p := Exec(Initial(capacity, workers, destructor), before).value;
      capacity > 0 <==> exists after :: AllLeft(p, after) && Posts(after) == []
  {
    var p0 := Initial(capacity, workers, destructor);
    InitialPoolInv(capacity, workers, destructor);
    ExecKeepsInv(p0, before);
    var p := Exec(p0, before).value;
    assert p0.queue.posted == [] && p0.queue.q.capacity == capacity && p0.workers == workers;
    hide PoolInv, Exec, Posts;
    if capacity > 0 {
      var after := EveryPoolCanBeShutDown(p);
      assert AllLeft(p, after);
    } else {
      NothingIsPosted(p0, before);
      forall steps | Exec(p, steps).Some? ensures !AllLeft(p, steps) {
        NothingIsPosted(p, steps);
        ExecKeepsInv(p, steps);
        NobodyLeaves(Exec(p, steps).value);
      }
    }
  }
}
