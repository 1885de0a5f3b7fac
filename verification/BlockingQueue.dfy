/** src/parallel/queue/bounded_blocking_queue.h: each operation is one critical section. */
module BlockingQueue {
  import opened Wrappers

  datatype PushOutcome = Waits | Refused | Accepted

  /** What the mutex protects. */
  datatype QueueState<T, E> = QueueState(
    capacity: nat,
    items: seq<T>,
    closed: bool,
    aborted: bool,
    cancelled: bool,
    error: Option<E>)
  {
    predicate Terminated() {
      closed || aborted || cancelled
    }

    predicate Valid() {
      1 <= capacity && |items| <= capacity
    }

    /** The outcome of a push that finds the lock free. */
    function PushOutcome(): PushOutcome {
      if Terminated() then Refused
      else if |items| < capacity then Accepted
      else Waits
    }

    function AfterPush(value: T): QueueState<T, E> {
      if PushOutcome() == Accepted then this.(items := items + [value]) else this
    }

    predicate PopWaits() {
      items == [] && !Terminated()
    }

    function AfterPop(): QueueState<T, E> {
      if items == [] then this else this.(items := items[1..])
    }

    function AfterAbort(e: Option<E>): QueueState<T, E> {
      this.(aborted := true, error := if e.Some? then e else error)
    }
  }

  function Fresh<T, E>(capacity: nat): (q: QueueState<T, E>)
    ensures q.Valid()
  {
    QueueState(if capacity == 0 then 1 else capacity, [], false, false, false, None)
  }

  /** The queue object. A wait is reported as an outcome that changes nothing: the
      caller is blocked and the operation is tried again when it is woken. */
  class BoundedBlockingQueue<T, E> {
    var capacity: nat
    var queue: seq<T>
    var closed: bool
    var aborted: bool
    var cancelled: bool
    var error: Option<E>

    function State(): QueueState<T, E>
      reads this
    {
      QueueState(capacity, queue, closed, aborted, cancelled, error)
    }

    constructor (capacity: nat)
      ensures State() == Fresh(capacity)
    {
      this.capacity := if capacity == 0 then 1 else capacity;
      queue := [];
      closed, aborted, cancelled := false, false, false;
      error := None;
    }

    method Push(value: T) returns (outcome: PushOutcome)
      requires State().Valid()
      modifies this
      ensures outcome == old(State()).PushOutcome()
      ensures State() == old(State()).AfterPush(value)
      ensures State().Valid()
    {
      if !closed && !aborted && !cancelled && |queue| >= capacity {
        return Waits;
      }
      if closed || aborted || cancelled {
        return Refused;
      }
      queue := queue + [value];
      outcome := Accepted;
    }

    /** `waits`: nothing happened. Otherwise `got` is the C++ return value. */
    method Pop() returns (waits: bool, got: bool, value: Option<T>)
      requires State().Valid()
      modifies this
      ensures waits == old(State()).PopWaits()
      ensures got == (old(queue) != [])
      ensures got ==> value == Some(old(queue)[0])
      ensures State() == old(State()).AfterPop()
      ensures State().Valid()
    {
      waits, got, value := false, false, None;
      if queue == [] && !closed && !aborted && !cancelled {
        waits := true;
        return;
      }
      if queue == [] {
        return;
      }
      value := Some(queue[0]);
      queue := queue[1..];
      got := true;
    }

    method Close()
      modifies this
      ensures State() == old(State()).(closed := true)
    {
      closed := true;
    }

    method Abort(e: Option<E>)
      modifies this
      ensures State() == old(State()).AfterAbort(e)
    {
      aborted := true;
      if e.Some? {
        error := e;
      }
    }

    method Cancel()
      modifies this
      ensures State() == old(State()).(cancelled := true)
    {
      cancelled := true;
    }
  }
}
