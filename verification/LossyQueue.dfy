/** A bounded channel whose sender never waits: when it is full, what is offered is dropped. */
module LossyQueues {
  import opened Sequences

  /** What the channel holds after an offer. */
  function Offer<T>(queue: seq<T>, capacity: nat, item: T): (queue': seq<T>)
    ensures |queue| <= capacity ==> |queue'| <= capacity
    ensures queue <= queue'
  {
    if |queue| < capacity then queue + [item] else queue
  }

  /**
   * One channel shared by a producer and a consumer. Whatever the order of their operations, what the
   * consumer has received is an order-preserving part of what the producer offered.
   */
  class LossyQueue<T> {
    const capacity: nat
    var items: seq<T>
    /** Everything offered, dropped or not. */
    ghost var offered: seq<T>
    /** Everything received. */
    ghost var received: seq<T>

    ghost predicate Valid()
      reads this
    {
      |items| <= capacity && Subsequence(received + items, offered)
    }

    constructor (capacity: nat)
      ensures Valid() && this.capacity == capacity
      ensures items == [] && offered == [] && received == []
    {
      this.capacity := capacity;
      items, offered, received := [], [], [];
      EmptySubsequence<T>([] + [], []);
    }

    /** `giveUp` says that the select takes its cancellation arm, where it has one that is ready. */
    method Send(item: T, giveUp: bool) returns (kept: bool)
      requires Valid()
      modifies this`items, this`offered
      ensures Valid()
      ensures kept <==> |old(items)| < capacity && !giveUp
      ensures items == if giveUp then old(items) else Offer(old(items), capacity, item)
      ensures items == if kept then old(items) + [item] else old(items)
      ensures offered == old(offered) + [item]
    {
      kept := |items| < capacity && !giveUp;
      SubsequenceAppend(received + items, offered, item);
      if kept {
        assert received + (items + [item]) == received + items + [item];
        items := items + [item];
      }
      offered := offered + [item];
    }

    method Receive() returns (item: T)
      requires Valid() && items != []
      modifies this`items, this`received
      ensures Valid()
      ensures item == old(items)[0] && items == old(items)[1..]
      ensures received == old(received) + [item]
      ensures received + items == old(received + items)
    {
      item := items[0];
      assert received + [items[0]] + items[1..] == received + items;
      received, items := received + [item], items[1..];
    }

    /** What arrives is an order-preserving part of what was offered, and all of it unless something was dropped. */
    lemma ReceivedInOrder()
      requires Valid()
      ensures Subsequence(received, offered)
      ensures |received| + |items| == |offered| ==> received + items == offered
    {
      SubsequenceCut(received, items, offered);
      if |received| + |items| == |offered| {
        SubsequenceLength(received + items, offered);
      }
    }
  }
}
