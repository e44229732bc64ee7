/** The event ring of the driver: 32 slots, one kept free, the oldest event dropped on overflow. */
module EventRing {
  import opened ConveyorTypes

  const EVENT_Q_SIZE := 32
  const CAPACITY := 31

  /** What the ring refines: a queue that forgets its head when a 32nd element arrives. */
  function DropOldest<T>(queue: seq<T>, x: T): seq<T> {
    (if |queue| == CAPACITY then queue[1..] else queue) + [x]
  }

  /** The newest events of a log, as many as the ring holds. */
  function Newest<T>(log: seq<T>): seq<T> {
    if |log| <= CAPACITY then log else log[|log| - CAPACITY..]
  }

  lemma NewestGrows<T>(log: seq<T>, more: seq<T>)
    ensures |more| == |log| + 1 && more[..|log|] == log ==> Newest(more) == DropOldest(Newest(log), more[|log|])
  {
    if |more| == |log| + 1 && more[..|log|] == log {
      assert more == log + [more[|log|]];
    }
  }

  class EventQueue {
    const q: array<Event>
    var head: nat
    var tail: nat

    ghost predicate Valid()
      reads this
    {
      q.Length == EVENT_Q_SIZE && head < EVENT_Q_SIZE && tail < EVENT_Q_SIZE
    }

    /** The queued events, oldest first. */
    ghost function Contents(): (c: seq<Event>)
      requires Valid()
      reads this, q
      ensures |c| <= CAPACITY
    {
      if tail <= head then q[tail..head] else q[tail..] + q[..head]
    }

    constructor (zero: Event)
      ensures Valid() && fresh(q) && Contents() == []
    {
      q := new Event[EVENT_Q_SIZE](_ => zero);
      head, tail := 0, 0;
    }

    predicate Empty()
      requires Valid()
      reads this, q
      ensures Empty() <==> Contents() == []
    {
      head == tail
    }

    predicate Full()
      requires Valid()
      reads this, q
      ensures Full() <==> |Contents()| == 31
    {
      (head + 1) % EVENT_Q_SIZE == tail
    }

    method DropHead()
      requires Valid() && Contents() != []
      modifies this`tail
      ensures Valid() && Contents() == old(Contents())[1..]
    {
      if tail + 1 < EVENT_Q_SIZE {
        assert (tail + 1) % EVENT_Q_SIZE == tail + 1;
        assert tail > head ==> q[tail..] + q[..head] == [q[tail]] + (q[tail + 1..] + q[..head]);
      }
      tail := (tail + 1) % EVENT_Q_SIZE;
    }

    method Append(ev: Event)
      requires Valid() && |Contents()| < CAPACITY
      modifies this`head, q
      ensures Valid() && Contents() == old(Contents()) + [ev]
    {
      if head + 1 < EVENT_Q_SIZE {
        assert (head + 1) % EVENT_Q_SIZE == head + 1;
      }
      q[head] := ev;
      head := (head + 1) % EVENT_Q_SIZE;
    }

    method Push(ev: Event)
      requires Valid()
      modifies this, q
      ensures Valid()
      ensures Contents() == DropOldest(old(Contents()), ev)
    {
      if Full() {
        DropHead();
      }
      Append(ev);
    }

    method Pop() returns (ev: Option<Event>)
      requires Valid()
      modifies this`tail
      ensures Valid()
      ensures old(Contents()) == [] ==> ev == None && Contents() == []
      ensures old(Contents()) != [] ==> ev == Some(old(Contents()[0])) && Contents() == old(Contents())[1..]
    {
      if Empty() {
        ev := None;
      } else {
        ev := Some(q[tail]);
        DropHead();
      }
    }
  }
}
