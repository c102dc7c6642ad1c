/** The lock-protected deque both directions use; each method is one critical section. */
module TSQueue {

  class Queue<T> {
    var deq: seq<T>

    // History: what has been taken off the front.
    ghost var popped: seq<T>

    /** Everything ever put in, in order. */
    ghost function Pushed(): seq<T>
      reads this
    {
      popped + deq
    }

    constructor ()
      ensures deq == [] && popped == []
    {
      deq, popped := [], [];
    }

    method Front() returns (item: T)
      requires deq != []
      ensures item == deq[0]
    {
      item := deq[0];
    }

    method PopFront() returns (item: T)
      requires deq != []
      modifies this
      ensures [item] + deq == old(deq) && popped == old(popped) + [item] && Pushed() == old(Pushed())
    {
      item := deq[0];
      deq := deq[1..];
      popped := popped + [item];
    }

    method PushBack(item: T)
      modifies this
      ensures deq == old(deq) + [item] && popped == old(popped) && Pushed() == old(Pushed()) + [item]
    {
      deq := deq + [item];
    }

    method Empty() returns (r: bool)
      ensures r <==> deq == []
    {
      r := |deq| == 0;
    }

    method Size() returns (n: nat)
      ensures n == |deq|
    {
      n := |deq|;
    }
  }
}
