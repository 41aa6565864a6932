/** The bounded closable queue of include/mc/bounded_queue.hpp. A wait on a condition variable is the
    guard of the operation: push and pop are atomic once their wait predicate holds. */
module Queues {
  import opened Types

  datatype Queue<T> = Queue(capacity: nat, items: seq<T>, closed: bool) {
    predicate Valid() { 1 <= capacity && |items| <= capacity }

    /** The predicate that push waits for. */
    predicate CanPush() { closed || |items| < capacity }

    /** The predicate that pop waits for. */
    predicate CanPop() { closed || items != [] }

    function Push(item: T): Queue<T> {
      if closed then this else this.(items := items + [item])
    }

    function Popped(): Option<T> {
      if items == [] then None else Some(items[0])
    }

    function Pop(): Queue<T> {
      if items == [] then this else this.(items := items[1..])
    }

    function Close(): Queue<T> { this.(closed := true) }
  }

  /** The queue object. The ghost histories record what was accepted and delivered over its whole life;
      Valid makes it first-in first-out and loss-free. */
  class BoundedQueue<T> {
    const capacity: nat
    var items: seq<T>
    var closed: bool
    ghost var accepted: seq<T>
    ghost var delivered: seq<T>

    ghost function View(): Queue<T>
      reads this
    {
      Queue(capacity, items, closed)
    }

    ghost predicate Valid()
      reads this
    {
      View().Valid() && accepted == delivered + items
    }

    constructor (capacity: nat)
      requires capacity >= 1
      ensures Valid() && View() == Queue(capacity, [], false)
      ensures accepted == [] && delivered == []
    {
      this.capacity := capacity;
      items, closed, accepted, delivered := [], false, [], [];
    }

    method Push(item: T) returns (pushed: bool)
      requires Valid() && View().CanPush()
      modifies this
      ensures Valid() && View() == old(View()).Push(item)
      ensures pushed == !old(closed)
      ensures accepted == (if pushed then old(accepted) + [item] else old(accepted))
      ensures delivered == old(delivered)
    {
      if closed {
        return false;
      }
      items := items + [item];
      accepted := accepted + [item];
      return true;
    }

    method Pop() returns (output: Option<T>)
      requires Valid() && View().CanPop()
      modifies this
      ensures Valid() && View() == old(View()).Pop()
      ensures output == old(View()).Popped()
      ensures output.None? ==> closed && delivered == accepted
      ensures delivered == (if output.Some? then old(delivered) + [output.value] else old(delivered))
      ensures accepted == old(accepted)
    {
      if items == [] {
        return None;
      }
      output := Some(items[0]);
      items := items[1..];
      delivered := delivered + [output.value];
    }

    method Close()
      requires Valid()
      modifies this`closed
      ensures Valid() && View() == old(View()).Close()
    {
      closed := true;
    }
  }
}
