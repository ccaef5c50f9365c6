/** spdlog's circular_q: a ring over a vector with one slot kept free, dropping its oldest
    element when it overruns. */
module CircularQueue {
  import opened Bytes

  /** The bounded first-in first-out queue the ring implements. */
  datatype Fifo<T> = Fifo(capacity: nat, items: seq<T>, overruns: nat) {
    predicate Full() { |items| == capacity }

    predicate Empty() { items == [] }

    function Push(item: T): Fifo<T> {
      if |items| < capacity then this.(items := items + [item])
      else this.(items := (items + [item])[1..], overruns := overruns + 1)
    }

    function Pop(): Fifo<T>
      requires items != []
    {
      this.(items := items[1..])
    }
  }

  datatype Op<T> = PushOp(item: T) | PopOp

  /** A run of pushes and pops on an enabled queue; popping an empty queue is not allowed. */
  function Run<T>(q: Fifo<T>, ops: seq<Op<T>>): (bool, Fifo<T>)
    decreases ops
  {
    if ops == [] then (true, q)
    else
      match ops[0]
      case PushOp(x) => Run(q.Push(x), ops[1..])
      case PopOp => if q.Empty() then (false, q) else Run(q.Pop(), ops[1..])
  }

  function Pushed<T>(ops: seq<Op<T>>): seq<T> {
    if ops == [] then [] else (if ops[0].PushOp? then [ops[0].item] else []) + Pushed(ops[1..])
  }

  function Pops<T>(ops: seq<Op<T>>): nat {
    if ops == [] then 0 else (if ops[0].PopOp? then 1 else 0) + Pops(ops[1..])
  }

  /** Every push is accounted for: popped, still queued, or counted as an overrun. */
  lemma {:induction false} PushesAreAccountedFor<T>(q: Fifo<T>, ops: seq<Op<T>>)
    requires |q.items| <= q.capacity && Run(q, ops).0
    ensures var r := Run(q, ops).1;
      && |r.items| <= r.capacity == q.capacity
      && q.overruns <= r.overruns
      && |q.items| + |Pushed(ops)| == Pops(ops) + |r.items| + (r.overruns - q.overruns)
    decreases ops
  {
    if ops != [] {
      match ops[0]
      case PushOp(x) => PushesAreAccountedFor(q.Push(x), ops[1..]);
      case PopOp => PushesAreAccountedFor(q.Pop(), ops[1..]);
    }
  }

  function Last<T>(s: seq<T>, n: nat): seq<T>
    requires n <= |s|
  {
    s[|s| - n..]
  }

  lemma LastOfDropped<T>(s: seq<T>, n: nat)
    requires s != [] && n <= |s[1..]|
    ensures Last(s[1..], n) == Last(s, n)
  {
  }

  lemma DropFirst<T>(a: seq<T>, b: seq<T>)
    requires a != []
    ensures a[1..] + b == (a + b)[1..]
  {
  }

  /** What is queued is always the newest part of everything that was pushed, in push order. */
  lemma {:induction false} QueuedIsTheNewest<T>(q: Fifo<T>, ops: seq<Op<T>>)
    requires |q.items| <= q.capacity && Run(q, ops).0
    ensures var r := Run(q, ops).1;
      |r.items| <= |q.items + Pushed(ops)| && r.items == Last(q.items + Pushed(ops), |r.items|)
    decreases ops
  {
    PushesAreAccountedFor(q, ops);
    var r, all := Run(q, ops).1, q.items + Pushed(ops);
    if ops == [] {
      assert all == q.items;
    } else {
      var rest := ops[1..];
      var later := Pushed(rest);
      match ops[0]
      case PushOp(x) =>
        QueuedIsTheNewest(q.Push(x), rest);
        Associates(q.items, [x], later);
        if |q.items| == q.capacity {
          DropFirst(q.items + [x], later);
          LastOfDropped(all, |r.items|);
        }
      case PopOp =>
        QueuedIsTheNewest(q.Pop(), rest);
        DropFirst(q.items, later);
        LastOfDropped(all, |r.items|);
    }
  }

  /** At no point of the run does the queue have to hold more than its capacity. */
  predicate Holds<T>(load: nat, capacity: nat, ops: seq<Op<T>>)
    decreases ops
  {
    ops != [] ==>
      match ops[0]
      case PushOp(_) => load < capacity && Holds(load + 1, capacity, ops[1..])
      case PopOp => load > 0 && Holds(load - 1, capacity, ops[1..])
  }

  lemma {:induction false} OverrunsOnlyGrow<T>(q: Fifo<T>, ops: seq<Op<T>>)
    requires Run(q, ops).0
    ensures Run(q, ops).1.overruns >= q.overruns
    decreases ops
  {
    if ops != [] {
      match ops[0]
      case PushOp(x) => OverrunsOnlyGrow(q.Push(x), ops[1..]);
      case PopOp => OverrunsOnlyGrow(q.Pop(), ops[1..]);
    }
  }

  /** An element is dropped exactly when the queue is pushed beyond its capacity: a run without an
      overrun is one that never has to hold more, and then what is queued is everything pushed but
      not popped, in order. */
  lemma {:induction false} DropsOnlyWhenFull<T>(q: Fifo<T>, ops: seq<Op<T>>)
    requires |q.items| <= q.capacity && Run(q, ops).0
    ensures Run(q, ops).1.overruns == q.overruns <==> Holds(|q.items|, q.capacity, ops)
    ensures Run(q, ops).1.overruns == q.overruns ==>
      Pops(ops) <= |q.items + Pushed(ops)| && Run(q, ops).1.items == (q.items + Pushed(ops))[Pops(ops)..]
    decreases ops
  {
    if ops == [] {
      assert (q.items + [])[0..] == q.items;
    } else {
      var rest := ops[1..];
      match ops[0]
      case PushOp(x) =>
        OverrunsOnlyGrow(q.Push(x), rest);
        DropsOnlyWhenFull(q.Push(x), rest);
        Associates(q.items, [x], Pushed(rest));
      case PopOp =>
        DropsOnlyWhenFull(q.Pop(), rest);
        DropFirst(q.items, Pushed(rest));
    }
  }

  lemma NextIndex(i: nat, n: nat)
    requires i < n
    ensures (i + 1) % n == if i + 1 == n then 0 else i + 1
  {
    if i + 1 < n {
      assert (i + 1) / n == 0 && (i + 1) % n == i + 1;
    }
  }

  /** The slots from head up to tail, around the end if need be. */
  function Between<T>(slots: seq<T>, head: nat, tail: nat): seq<T>
    requires head <= |slots| && tail <= |slots|
  {
    if head <= tail then slots[head..tail] else slots[head..] + slots[..tail]
  }

  lemma PushIntoSlots<T>(slots: seq<T>, head: nat, tail: nat, item: T)
    requires head < |slots| && tail < |slots|
    ensures var n, all := |slots|, Between(slots, head, tail) + [item];
      var tail', head' := (tail + 1) % n, (head + 1) % n;
      if tail' == head then |all| == n && Between(slots[tail := item], head', tail') == all[1..]
      else |all| < n && Between(slots[tail := item], head, tail') == all
  {
    NextIndex(tail, |slots|);
    NextIndex(head, |slots|);
    if head > tail {
      PushBehindHead(slots, head, tail, item);
    } else if tail + 1 < |slots| {
      PushInLine(slots, head, tail, item);
    } else {
      PushAtEnd(slots, head, item);
    }
    hide Between;
  }

  lemma PushInLine<T>(slots: seq<T>, head: nat, tail: nat, item: T)
    requires head <= tail < |slots| - 1
    ensures Between(slots[tail := item], head, tail + 1) == Between(slots, head, tail) + [item]
    ensures |Between(slots, head, tail)| + 1 < |slots|
  {
  }

  /** The last slot is written: the ring goes on at slot 0. */
  lemma PushAtEnd<T>(slots: seq<T>, head: nat, item: T)
    requires head < |slots|
    ensures var tail, all := |slots| - 1, Between(slots, head, |slots| - 1) + [item];
      if head == 0 then |all| == |slots| && Between(slots[tail := item], if tail == 0 then 0 else 1, 0) == all[1..]
      else |all| < |slots| && Between(slots[tail := item], head, 0) == all
  {
    var tail := |slots| - 1;
    var written := slots[tail := item];
    assert written[..0] == [];
    assert written[head..] == slots[head..tail] + [item];
    assert tail == 0 ==> written[0..0] == [];
  }

  lemma PushBehindHead<T>(slots: seq<T>, head: nat, tail: nat, item: T)
    requires tail < head < |slots|
    ensures var all := Between(slots, head, tail) + [item];
      var head' := if head + 1 == |slots| then 0 else head + 1;
      if tail + 1 < head then |all| < |slots| && Between(slots[tail := item], head, tail + 1) == all
      else |all| == |slots| && Between(slots[tail := item], head', tail + 1) == all[1..]
  {
    var written := slots[tail := item];
    assert written[head..] == slots[head..];
    assert written[..tail + 1] == slots[..tail] + [item];
    Associates(slots[head..], slots[..tail], [item]);
    if tail + 1 == head {
      assert (slots[head..] + (slots[..tail] + [item]))[1..] == slots[head + 1..] + (slots[..tail] + [item]);
      assert written[head + 1..] == slots[head + 1..];
      assert written[0..tail + 1] == written[..tail + 1];
    }
  }

  /** The queue a ring of slots holds. */
  function QueueIn<T>(slots: seq<T>, head: nat, tail: nat, overruns: nat): Fifo<T>
    requires head < |slots| && tail < |slots|
  {
    Fifo(|slots| - 1, Between(slots, head, tail), overruns)
  }

  lemma PushIntoRing<T>(slots: seq<T>, head: nat, tail: nat, overruns: nat, item: T)
    requires head < |slots| && tail < |slots|
    ensures 0 <= (tail + 1) % |slots| < |slots| && 0 <= (head + 1) % |slots| < |slots|
    ensures QueueIn(slots, head, tail, overruns).Push(item) ==
      if (tail + 1) % |slots| == head then
        QueueIn(slots[tail := item], (head + 1) % |slots|, (tail + 1) % |slots|, overruns + 1)
      else QueueIn(slots[tail := item], head, (tail + 1) % |slots|, overruns)
  {
    PushIntoSlots(slots, head, tail, item);
    hide Between;
  }

  class Ring<T(0)> {
    var maxItems: nat
    var head: nat
    var tail: nat
    var overrunCounter: nat
    var v: array<T>

    /** A disabled queue has maxItems == 0 and no slots. */
    ghost predicate Valid()
      reads this
    {
      && v.Length == maxItems
      && if maxItems == 0 then head == 0 && tail == 0 else head < maxItems && tail < maxItems
    }

    ghost function Items(): seq<T>
      reads this, v
      requires Valid()
    {
      if maxItems == 0 then [] else Between(v[..], head, tail)
    }

    ghost function Queue(): Fifo<T>
      reads this, v
      requires Valid() && maxItems > 0
    {
      QueueIn(v[..], head, tail, overrunCounter)
    }

    constructor Disabled()
      ensures Valid() && maxItems == 0
    {
      maxItems, head, tail, overrunCounter := 0, 0, 0, 0;
      v := new T[0];
    }

    constructor (size: nat)
      ensures Valid() && maxItems > 0 && fresh(v)
      ensures Queue() == Fifo(size, [], 0)
    {
      maxItems, head, tail, overrunCounter := size + 1, 0, 0, 0;
      v := new T[size + 1];
    }

    method Write(i: nat, item: T)
      requires i < v.Length
      modifies v
      ensures v[..] == old(v[..])[i := item]
    {
      v[i] := item;
    }

    /** Appends, dropping the oldest item when there is no room; does nothing when disabled. */
    method PushBack(item: T)
      requires Valid()
      modifies this`head, this`tail, this`overrunCounter, v
      ensures Valid()
      ensures maxItems > 0 ==> Queue() == old(Queue()).Push(item)
      ensures maxItems == 0 ==> overrunCounter == old(overrunCounter)
    {
      if maxItems > 0 {
        PushIntoRing(v[..], head, tail, overrunCounter, item);
        hide QueueIn, Fifo.Push, Between;
        Write(tail, item);
        tail := (tail + 1) % maxItems;
        if tail == head {
          head := (head + 1) % maxItems;
          overrunCounter := overrunCounter + 1;
        }
      }
    }

    method Front() returns (item: T)
      requires Valid() && maxItems > 0 && Items() != []
      ensures item == Items()[0]
    {
      item := v[head];
    }

    method PopFront()
      requires Valid() && maxItems > 0 && Items() != []
      modifies this`head
      ensures Valid() && Queue() == old(Queue()).Pop()
    {
      ghost var was := Items();
      NextIndex(head, maxItems);
      head := (head + 1) % maxItems;
      assert Items() == was[1..];
    }

    method Empty() returns (r: bool)
      requires Valid()
      ensures r <==> Items() == []
    {
      r := tail == head;
    }

    /** A disabled queue is never full. */
    method Full() returns (r: bool)
      requires Valid()
      ensures r <==> maxItems > 0 && Queue().Full()
    {
      if maxItems > 0 {
        NextIndex(tail, maxItems);
        return (tail + 1) % maxItems == head;
      }
      return false;
    }
  }
}
