/** spdlog's mpmc_blocking_queue as a protocol: threads, one mutex, two condition variables.
    A step is one critical section, one notification sent after unlocking, or one wake-up. */
module BlockingQueue {
  import opened Bytes
  import opened CircularQueue

  type Tid = nat

  /** What a thread inside the queue is doing:
      - WaitPop, WaitPush: asleep in pop_cv (producers) or push_cv (consumers)
      - WokenPop, WokenPush: awake again, about to retake the lock and test the predicate
      - OwesPush, OwesPop: out of the critical section, its notification not sent yet */
  datatype Kind = WaitPop | WokenPop | OwesPush | WaitPush | WokenPush | OwesPop

  /** A producer that waits carries its item; a consumer's wait may have expired. */
  datatype Place<T> = Place(kind: Kind, item: Option<T>, expired: bool)

  /** Threads not in `at` are outside the queue. `posted` and `taken` record the history. */
  datatype Queue<T> = Queue(q: Fifo<T>, at: map<Tid, Place<T>>, posted: seq<T>, taken: seq<(Tid, T)>) {

    function Move(t: Tid, kind: Kind): Queue<T>
      requires t in at
    {
      this.(at := at[t := at[t].(kind := kind)])
    }

    predicate Is(t: Tid, kind: Kind) { t in at && at[t].kind == kind }

    /** The critical section of enqueue: push when there is room, otherwise sleep. */
    function TryEnqueue(t: Tid, item: T): Queue<T> {
      if q.Full() then this.(at := at[t := Place(WaitPop, Some(item), false)])
      else PushNow(t, item)
    }

    /** The critical section of enqueue_nowait. */
    function PushNow(t: Tid, item: T): Queue<T> {
      this.(q := q.Push(item), posted := posted + [item], at := at[t := Place(OwesPush, None, false)])
    }

    /** The critical section of dequeue_for: pop when there is an item; otherwise sleep, or give up
        if the wait has expired. */
    function TryDequeue(t: Tid): Queue<T> {
      if !q.Empty() then
        this.(q := q.Pop(), taken := taken + [(t, q.items[0])], at := at[t := Place(OwesPop, None, false)])
      else if t in at && at[t].expired then this.(at := at - {t})
      else this.(at := at[t := Place(WaitPush, None, false)])
    }
  }

  datatype Event<T> =
    | Enqueue(t: Tid, item: T)
    | EnqueueNow(t: Tid, item: T)
    | Dequeue(t: Tid)
    | RetryEnqueue(t: Tid)
    | RetryDequeue(t: Tid)
    | Notify(t: Tid, wakes: Option<Tid>)
    | Spurious(t: Tid)
    | Expire(t: Tid)

  /** notify_one wakes some waiter if there is one, and is lost otherwise. */
  predicate WakesOne<T>(s: Queue<T>, wakes: Option<Tid>, waiting: Kind) {
    match wakes
    case Some(w) => s.Is(w, waiting)
    case None => forall w <- s.at :: s.at[w].kind != waiting
  }

  /** The notification t owes, sent: t leaves the queue and at most one waiter wakes. */
  function Notified<T>(s: Queue<T>, t: Tid, wakes: Option<Tid>, waiting: Kind, woken: Kind): Option<Queue<T>> {
    if !WakesOne(s, wakes, waiting) || wakes == Some(t) then None
    else
      var rest := s.(at := s.at - {t});
      Some(if wakes == None then rest else rest.Move(wakes.value, woken))
  }

  /** The state after a step, or None when the step is not possible. */
  function Next<T>(s: Queue<T>, e: Event<T>): Option<Queue<T>> {
    match e
    case Enqueue(t, item) => if t !in s.at then Some(s.TryEnqueue(t, item)) else None
    case EnqueueNow(t, item) => if t !in s.at then Some(s.PushNow(t, item)) else None
    case Dequeue(t) => if t !in s.at then Some(s.TryDequeue(t)) else None
    case RetryEnqueue(t) =>
      if s.Is(t, WokenPop) && s.at[t].item.Some? then Some(s.TryEnqueue(t, s.at[t].item.value)) else None
    case RetryDequeue(t) => if s.Is(t, WokenPush) then Some(s.TryDequeue(t)) else None
    case Notify(t, wakes) =>
      if s.Is(t, OwesPush) then Notified(s, t, wakes, WaitPush, WokenPush)
      else if s.Is(t, OwesPop) then Notified(s, t, wakes, WaitPop, WokenPop)
      else None
    case Spurious(t) =>
      if s.Is(t, WaitPop) then Some(s.Move(t, WokenPop))
      else if s.Is(t, WaitPush) then Some(s.Move(t, WokenPush))
      else None
    case Expire(t) =>
      if s.Is(t, WaitPush) then Some(s.(at := s.at[t := Place(WokenPush, None, true)])) else None
  }

  function Exec<T>(s: Queue<T>, events: seq<Event<T>>): Option<Queue<T>>
    decreases events
  {
    if events == [] then Some(s)
    else
      match Next(s, events[0])
      case None => None
      case Some(s') => Exec(s', events[1..])
  }

  function Initial<T>(capacity: nat): Queue<T> { Queue(Fifo(capacity, [], 0), map[], [], []) }

  // ---- Counting threads ----

  ghost function Threads<T>(at: map<Tid, Place<T>>, kind: Kind): set<Tid> {
    set t | t in at && at[t].kind == kind
  }

  ghost function Count<T>(at: map<Tid, Place<T>>, kind: Kind): nat { |Threads(at, kind)| }

  ghost function One(b: bool): nat { if b then 1 else 0 }

  lemma CountAfterRemoval<T>(at: map<Tid, Place<T>>, t: Tid, kind: Kind)
    ensures Count(at - {t}, kind) == Count(at, kind) - One(t in at && at[t].kind == kind)
  {
    assert Threads(at - {t}, kind) == Threads(at, kind) - {t};
  }

  lemma ThreadsAfterUpdate<T>(at: map<Tid, Place<T>>, t: Tid, p: Place<T>, kind: Kind)
    ensures Threads(at[t := p], kind) == Threads(at - {t}, kind) + if p.kind == kind then {t} else {}
  {
  }

  lemma CountAfterUpdate<T>(at: map<Tid, Place<T>>, t: Tid, p: Place<T>, kind: Kind)
    ensures Count(at[t := p], kind)
      == Count(at, kind) - One(t in at && at[t].kind == kind) + One(p.kind == kind)
  {
    CountAfterRemoval(at, t, kind);
    ThreadsAfterUpdate(at, t, p, kind);
    assert t !in Threads(at - {t}, kind);
    hide Threads;
  }

  lemma CountPositive<T>(at: map<Tid, Place<T>>, kind: Kind)
    ensures Count(at, kind) > 0 <==> exists t :: t in at && at[t].kind == kind
  {
    if t :| t in at && at[t].kind == kind {
      assert t in Threads(at, kind);
    }
    if Count(at, kind) > 0 {
      var t :| t in Threads(at, kind);
    }
  }

  // ---- The invariant ----

  /** While a consumer sleeps, every queued item is covered by a notification still to be sent or
      by a consumer already on its way; while a producer sleeps, so is every free slot. */
  ghost predicate NoLostWakeup<T>(s: Queue<T>) {
    && (Count(s.at, WaitPush) > 0 ==> |s.q.items| <= Count(s.at, OwesPush) + Count(s.at, WokenPush))
    && (Count(s.at, WaitPop) > 0 ==>
         s.q.capacity - |s.q.items| <= Count(s.at, OwesPop) + Count(s.at, WokenPop))
  }

  function Items<T>(taken: seq<(Tid, T)>): seq<T> {
    seq(|taken|, i requires 0 <= i < |taken| => taken[i].1)
  }

  /** Until something overruns, what was posted is what was taken followed by what is queued. */
  ghost predicate InOrder<T>(s: Queue<T>) {
    s.q.overruns == 0 ==> s.posted == Items(s.taken) + s.q.items
  }

  /** Waiting producers hold on to their items. */
  ghost predicate ItemsHeld<T>(s: Queue<T>) {
    forall t <- s.at :: s.at[t].kind == WaitPop || s.at[t].kind == WokenPop ==> s.at[t].item.Some?
  }

  ghost predicate Inv<T>(s: Queue<T>) {
    |s.q.items| <= s.q.capacity && NoLostWakeup(s) && InOrder(s) && ItemsHeld(s)
  }

  lemma OrderAfterPush<T>(s: Queue<T>, t: Tid, item: T)
    requires InOrder(s)
    ensures InOrder(s.PushNow(t, item))
  {
    assert Items(s.taken) + (s.q.items + [item]) == Items(s.taken) + s.q.items + [item];
  }

  lemma OrderAfterPop<T>(s: Queue<T>, t: Tid)
    requires InOrder(s) && !s.q.Empty()
    ensures InOrder(s.TryDequeue(t))
  {
    var item := s.q.items[0];
    assert Items(s.taken + [(t, item)]) == Items(s.taken) + [item];
    assert Items(s.taken) + [item] + s.q.items[1..] == Items(s.taken) + s.q.items;
  }

  /** All the counts after thread t is put at p. */
  lemma CountsAfterUpdate<T>(at: map<Tid, Place<T>>, t: Tid, p: Place<T>)
    ensures forall kind ::
      Count(at[t := p], kind) == Count(at, kind) - One(t in at && at[t].kind == kind) + One(p.kind == kind)
  {
    forall kind
      ensures Count(at[t := p], kind)
        == Count(at, kind) - One(t in at && at[t].kind == kind) + One(p.kind == kind)
    {
      CountAfterUpdate(at, t, p, kind);
    }
  }

  lemma CountsAfterRemoval<T>(at: map<Tid, Place<T>>, t: Tid)
    ensures forall kind :: Count(at - {t}, kind) == Count(at, kind) - One(t in at && at[t].kind == kind)
  {
    forall kind
      ensures Count(at - {t}, kind) == Count(at, kind) - One(t in at && at[t].kind == kind)
    {
      CountAfterRemoval(at, t, kind);
    }
  }

  lemma PushNowKeeps<T>(s: Queue<T>, t: Tid, item: T)
    requires Inv(s) && (t !in s.at || (s.Is(t, WokenPop) && !s.q.Full()))
    ensures Inv(s.PushNow(t, item))
  {
    hide Count;
    OrderAfterPush(s, t, item);
    CountsAfterUpdate(s.at, t, Place(OwesPush, None, false));
  }

  lemma TryEnqueueKeeps<T>(s: Queue<T>, t: Tid, item: T)
    requires Inv(s) && (t !in s.at || s.Is(t, WokenPop))
    ensures Inv(s.TryEnqueue(t, item))
  {
    hide Count;
    if s.q.Full() {
      CountsAfterUpdate(s.at, t, Place(WaitPop, Some(item), false));
    } else {
      PushNowKeeps(s, t, item);
    }
  }

  lemma TryDequeueKeeps<T>(s: Queue<T>, t: Tid)
    requires Inv(s) && (t !in s.at || s.Is(t, WokenPush))
    ensures Inv(s.TryDequeue(t))
  {
    hide Count;
    CountsAfterRemoval(s.at, t);
    CountsAfterUpdate(s.at, t, Place(WaitPush, None, false));
    CountsAfterUpdate(s.at, t, Place(OwesPop, None, false));
    if !s.q.Empty() {
      OrderAfterPop(s, t);
    }
  }

  /** Waking a waiter, spuriously, by expiry or by a notification, adds one thread on its way. */
  lemma WakeKeeps<T>(s: Queue<T>, w: Tid, p: Place<T>)
    requires Inv(s) && w in s.at
    requires (s.at[w].kind == WaitPush && p.kind == WokenPush)
      || (s.at[w].kind == WaitPop && p == s.at[w].(kind := WokenPop))
    ensures Inv(s.(at := s.at[w := p]))
  {
    hide Count;
    CountsAfterUpdate(s.at, w, p);
  }

  lemma NotifiedKeeps<T>(s: Queue<T>, t: Tid, wakes: Option<Tid>, waiting: Kind, woken: Kind)
    requires Inv(s)
    requires (s.Is(t, OwesPush) && waiting == WaitPush && woken == WokenPush)
      || (s.Is(t, OwesPop) && waiting == WaitPop && woken == WokenPop)
    requires Notified(s, t, wakes, waiting, woken).Some?
    ensures Inv(Notified(s, t, wakes, waiting, woken).value)
  {
    hide Count;
    CountsAfterRemoval(s.at, t);
    CountPositive(s.at, waiting);
    if wakes.Some? {
      CountsAfterUpdate(s.at - {t}, wakes.value, s.at[wakes.value].(kind := woken));
    }
  }

  lemma NextKeepsInv<T>(s: Queue<T>, e: Event<T>)
    requires Inv(s) && Next(s, e).Some?
    ensures Inv(Next(s, e).value)
  {
    hide Inv;
    match e
    case Enqueue(t, item) => TryEnqueueKeeps(s, t, item);
    case EnqueueNow(t, item) => PushNowKeeps(s, t, item);
    case Dequeue(t) => TryDequeueKeeps(s, t);
    case RetryEnqueue(t) => TryEnqueueKeeps(s, t, s.at[t].item.value);
    case RetryDequeue(t) => TryDequeueKeeps(s, t);
    case Notify(t, wakes) =>
      if s.Is(t, OwesPush) {
        NotifiedKeeps(s, t, wakes, WaitPush, WokenPush);
      } else {
        NotifiedKeeps(s, t, wakes, WaitPop, WokenPop);
      }
    case Spurious(t) =>
      WakeKeeps(s, t, s.at[t].(kind := if s.Is(t, WaitPop) then WokenPop else WokenPush));
    case Expire(t) => WakeKeeps(s, t, Place(WokenPush, None, true));
  }

  lemma {:induction false} ExecKeepsInv<T>(s: Queue<T>, events: seq<Event<T>>)
    requires Inv(s) && Exec(s, events).Some?
    ensures Inv(Exec(s, events).value)
    ensures Exec(s, events).value.q.capacity == s.q.capacity
    decreases events
  {
    hide Inv;
    if events != [] {
      NextKeepsInv(s, events[0]);
      ExecKeepsInv(Next(s, events[0]).value, events[1..]);
    }
  }

  lemma InitialInv<T>(capacity: nat)
    ensures Inv(Initial<T>(capacity))
  {
    assert Threads(Initial<T>(capacity).at, WaitPush) == {};
    assert Threads(Initial<T>(capacity).at, WaitPop) == {};
  }

  /** No interleaving of any number of producers and consumers loses a wake-up. */
  lemma NoInterleavingLosesAWakeup<T>(capacity: nat, events: seq<Event<T>>)
    requires Exec(Initial(capacity), events).Some?
    ensures NoLostWakeup(Exec(Initial(capacity), events).value)
    ensures InOrder(Exec(Initial(capacity), events).value)
  {
    InitialInv<T>(capacity);
    ExecKeepsInv(Initial(capacity), events);
  }

  // ---- No item is dropped on its way into the queue, and none appears ----

  /** A producer on its way in, with this item. */
  ghost predicate Carries<T>(p: Place<T>, item: T) {
    (p.kind == WaitPop || p.kind == WokenPop) && p.item == Some(item)
  }

  ghost function Carriers<T>(at: map<Tid, Place<T>>, item: T): set<Tid> { set t | t in at && Carries(at[t], item) }

  ghost predicate IsCarrier<T>(at: map<Tid, Place<T>>, t: Tid, item: T) { t in at && Carries(at[t], item) }

  lemma CarriersAfterRemoval<T>(at: map<Tid, Place<T>>, t: Tid, item: T)
    ensures |Carriers(at - {t}, item)| == |Carriers(at, item)| - One(IsCarrier(at, t, item))
  {
    assert Carriers(at - {t}, item) == Carriers(at, item) - {t};
  }

  lemma CarriersWithUpdate<T>(at: map<Tid, Place<T>>, t: Tid, p: Place<T>, item: T)
    ensures Carriers(at[t := p], item) == Carriers(at - {t}, item) + if Carries(p, item) then {t} else {}
    ensures t !in Carriers(at - {t}, item)
  {
    hide Carries;
  }

  lemma CarriersAfterUpdate<T>(at: map<Tid, Place<T>>, t: Tid, p: Place<T>, item: T)
    ensures |Carriers(at[t := p], item)|
      == |Carriers(at, item)| - One(IsCarrier(at, t, item)) + One(Carries(p, item))
  {
    hide Carriers, Carries, IsCarrier;
    CarriersAfterRemoval(at, t, item);
    CarriersWithUpdate(at, t, p, item);
  }

  /** How often the item was posted or is on its way. */
  ghost function Arrived<T>(s: Queue<T>, item: T): nat { multiset(s.posted)[item] + |Carriers(s.at, item)| }

  ghost predicate Brings<T>(e: Event<T>, item: T) { (e.Enqueue? || e.EnqueueNow?) && e.item == item }

  lemma PostedOneMore<T>(posted: seq<T>, last: T, item: T)
    ensures multiset(posted + [last])[item] == multiset(posted)[item] + One(last == item)
  {
    assert multiset(posted + [last]) == multiset(posted) + multiset{last};
  }

  lemma TryEnqueueArrives<T>(s: Queue<T>, t: Tid, added: T, item: T)
    ensures Arrived(s.TryEnqueue(t, added), item)
      == Arrived(s, item) - One(IsCarrier(s.at, t, item)) + One(added == item)
    ensures Arrived(s.PushNow(t, added), item)
      == Arrived(s, item) - One(IsCarrier(s.at, t, item)) + One(added == item)
  {
    PostedOneMore(s.posted, added, item);
    CarriersAfterUpdate(s.at, t, Place(WaitPop, Some(added), false), item);
    CarriersAfterUpdate(s.at, t, Place(OwesPush, None, false), item);
    hide Carriers, IsCarrier;
  }

  lemma TryDequeueArrives<T>(s: Queue<T>, t: Tid, item: T)
    requires !IsCarrier(s.at, t, item)
    ensures Arrived(s.TryDequeue(t), item) == Arrived(s, item)
  {
    CarriersAfterRemoval(s.at, t, item);
    CarriersAfterUpdate(s.at, t, Place(WaitPush, None, false), item);
    CarriersAfterUpdate(s.at, t, Place(OwesPop, None, false), item);
    hide Carriers;
  }

  lemma NotifyArrives<T>(s: Queue<T>, t: Tid, wakes: Option<Tid>, item: T)
    requires Next(s, Notify(t, wakes)).Some?
    ensures Arrived(Next(s, Notify(t, wakes)).value, item) == Arrived(s, item)
  {
    CarriersAfterRemoval(s.at, t, item);
    var rest := s.at - {t};
    if wakes.Some? {
      var w := wakes.value;
      CarriersAfterUpdate(rest, w, s.at[w].(kind := if s.Is(t, OwesPush) then WokenPush else WokenPop), item);
    }
    hide Carriers;
  }

  lemma NextArrives<T>(s: Queue<T>, e: Event<T>, item: T)
    requires Next(s, e).Some?
    ensures Arrived(Next(s, e).value, item) == Arrived(s, item) + One(Brings(e, item))
  {
    match e
    case Enqueue(t, added) => TryEnqueueArrives(s, t, added, item);
    case EnqueueNow(t, added) => TryEnqueueArrives(s, t, added, item);
    case Dequeue(t) => TryDequeueArrives(s, t, item);
    case RetryEnqueue(t) => TryEnqueueArrives(s, t, s.at[t].item.value, item);
    case RetryDequeue(t) => TryDequeueArrives(s, t, item);
    case Notify(t, wakes) => NotifyArrives(s, t, wakes, item);
    case Spurious(t) =>
      CarriersAfterUpdate(s.at, t, s.at[t].(kind := if s.Is(t, WaitPop) then WokenPop else WokenPush), item);
    case Expire(t) => CarriersAfterUpdate(s.at, t, Place(WokenPush, None, true), item);
  }

  /** The items brought in a run, in the order of the calls. */
  function Brought<T>(events: seq<Event<T>>): seq<T> {
    if events == [] then []
    else (if events[0].Enqueue? || events[0].EnqueueNow? then [events[0].item] else []) + Brought(events[1..])
  }

  lemma {:induction false} ExecArrives<T>(s: Queue<T>, events: seq<Event<T>>, item: T)
    requires Exec(s, events).Some?
    ensures Arrived(Exec(s, events).value, item) == Arrived(s, item) + multiset(Brought(events))[item]
    decreases events
  {
    hide Arrived, Next;
    if events != [] {
      NextArrives(s, events[0], item);
      ExecArrives(Next(s, events[0]).value, events[1..], item);
      var first := if events[0].Enqueue? || events[0].EnqueueNow? then [events[0].item] else [];
      assert multiset(Brought(events)) == multiset(first) + multiset(Brought(events[1..]));
    }
  }

  /** In every interleaving each item was posted as often as calls brought it, but for the producers
      that are still on their way in with it. */
  lemma EveryItemArrives<T>(capacity: nat, events: seq<Event<T>>, item: T)
    requires Exec(Initial(capacity), events).Some?
    ensures var s := Exec(Initial(capacity), events).value;
      multiset(s.posted)[item] + |Carriers(s.at, item)| == multiset(Brought(events))[item]
  {
    assert Carriers(Initial<T>(capacity).at, item) == {};
    ExecArrives(Initial(capacity), events, item);
  }

  // ---- Waits ----

  /** A wake-up without a reason changes nothing: the thread looks again and sleeps on. */
  lemma SpuriousWakeUpsChangeNothing<T>(s: Queue<T>, t: Tid, item: T)
    requires t !in s.at
    ensures s.q.Empty() ==>
      Exec(s, [Dequeue(t), Spurious(t), RetryDequeue(t)]) == Exec(s, [Dequeue(t)]) == Some(s.TryDequeue(t))
    ensures s.q.Full() ==>
      Exec(s, [Enqueue(t, item), Spurious(t), RetryEnqueue(t)]) == Exec(s, [Enqueue(t, item)])
  {
    ThreeEvents(s, Dequeue(t), Spurious(t), RetryDequeue(t));
    ThreeEvents(s, Enqueue(t, item), Spurious(t), RetryEnqueue(t));
    OneEvent(s, Dequeue(t));
    OneEvent(s, Enqueue(t, item));
    hide Exec;
    if s.q.Empty() {
      var asleep := s.TryDequeue(t);
      assert asleep.Move(t, WokenPush).TryDequeue(t) == asleep by {
        LastPlaceCounts(s.at, t, Place(WaitPush, None, false), Place(WokenPush, None, false), asleep.at[t]);
      }
    }
    if s.q.Full() {
      var asleep := s.TryEnqueue(t, item);
      assert asleep.Move(t, WokenPop).TryEnqueue(t, item) == asleep by {
        LastPlaceCounts(s.at, t, Place(WaitPop, Some(item), false), Place(WokenPop, Some(item), false), asleep.at[t]);
      }
    }
  }

  lemma LastPlaceCounts<T>(at: map<Tid, Place<T>>, t: Tid, a: Place<T>, b: Place<T>, c: Place<T>)
    ensures at[t := a][t := b][t := c] == at[t := c] && at[t := a][t := b] == at[t := b]
    ensures t !in at ==> at[t := a][t := b] - {t} == at
  {
  }

  /** A wait whose time runs out on an empty queue leaves everything as it was. */
  lemma TimedOutWaitsChangeNothing<T>(s: Queue<T>, t: Tid)
    requires t !in s.at && s.q.Empty()
    ensures Exec(s, [Dequeue(t), Expire(t), RetryDequeue(t)]) == Some(s)
  {
    ThreeEvents(s, Dequeue(t), Expire(t), RetryDequeue(t));
    LastPlaceCounts(s.at, t, Place(WaitPush, None, false), Place(WokenPush, None, true), Place(WaitPush, None, false));
    hide Exec;
  }

  lemma OneEvent<T>(s: Queue<T>, e: Event<T>)
    ensures Exec(s, [e]) == Next(s, e)
  {
    assert [e][1..] == [];
    hide Next;
  }

  lemma ThreeEvents<T>(s: Queue<T>, a: Event<T>, b: Event<T>, c: Event<T>)
    ensures Exec(s, [a, b, c]) ==
      if Next(s, a) == None || Next(Next(s, a).value, b) == None then None else Next(Next(Next(s, a).value, b).value, c)
  {
    assert [a, b, c][1..] == [b, c] && [b, c][1..] == [c];
    hide Next;
    if Next(s, a).Some? && Next(Next(s, a).value, b).Some? {
      OneEvent(Next(Next(s, a).value, b).value, c);
    }
  }

  /** Nothing is under way: no notification owed, nobody awake. */
  ghost predicate Quiet<T>(s: Queue<T>) {
    forall t <- s.at :: s.at[t].kind == WaitPop || s.at[t].kind == WaitPush
  }

  /** At rest, consumers sleep only on an empty queue and producers only on a full one, so with
      room for one item they never both sleep. */
  lemma RestIsJustified<T>(s: Queue<T>)
    requires Inv(s) && Quiet(s)
    ensures (exists t :: s.Is(t, WaitPush)) ==> s.q.items == []
    ensures (exists t :: s.Is(t, WaitPop)) ==> s.q.Full()
    ensures s.q.capacity > 0 ==> !((exists t :: s.Is(t, WaitPush)) && (exists t :: s.Is(t, WaitPop)))
  {
    CountPositive(s.at, WaitPush);
    CountPositive(s.at, WaitPop);
    CountPositive(s.at, OwesPush);
    CountPositive(s.at, OwesPop);
    CountPositive(s.at, WokenPush);
    CountPositive(s.at, WokenPop);
  }
}
