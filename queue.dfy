/**
 * A first-in, first-out bounded collection that keeps the N most recently
 * inserted elements: when full, `offer` evicts the head before appending at
 * the tail. A fail-fast iterator walks the elements from head to tail.
 */
module MostRecentlyInserted {
  import opened Outcomes
  import opened JavaInt
  import opened Eviction

  class MostRecentlyInsertedQueue<E> {
    /** The backing list, head first. */
    var elements: seq<E>
    /** Bumped by every structural change made by `offer` and `poll` (not by `clear`). */
    var modcount: int32
    const capacity: int32

    /** How many times `modcount` has been bumped, without wrap-around. */
    ghost var mutations: nat

    /** The size stays within the capacity, and `modcount` is the wrapped count of bumps. */
    ghost predicate Valid()
      reads this
    {
      (elements == [] || |elements| <= capacity as int) &&
      modcount == Wrap(mutations)
    }

    /** Any capacity is accepted; with one that is not positive, every `offer` throws. */
    constructor (capacity: int32)
      ensures Valid()
      ensures this.capacity == capacity
      ensures elements == [] && modcount == 0 && mutations == 0
    {
      elements := [];
      this.capacity := capacity;
      modcount := 0;
      mutations := 0;
    }

    method Offer(newElement: E) returns (r: Result<bool>)
      requires Valid()
      modifies this
      ensures Valid()
      ensures Offered(old(elements), capacity as int, newElement) == if r.Ok? then Ok(elements) else Err(r.error)
      ensures capacity <= 0 ==>
        r == Err(NoSuchElement) && elements == old(elements) && modcount == old(modcount) && mutations == old(mutations)
      ensures capacity > 0 ==>
        r == Ok(true) && modcount == Increment(old(modcount)) && mutations == old(mutations) + 1
      ensures capacity > 0 && old(|elements|) < capacity as int ==>
        elements == old(elements) + [newElement] && |elements| == old(|elements|) + 1
      ensures capacity > 0 && old(|elements|) == capacity as int ==>
        elements == old(elements)[1..] + [newElement] && |elements| == capacity as int
    {
      if |elements| < capacity as int {
        elements := elements + [newElement];
      } else {
        if |elements| == 0 {
          return Err(NoSuchElement);
        }
        elements := elements[1..];
        elements := elements + [newElement];
      }
      IncrementWrap(mutations);
      modcount := Increment(modcount);
      mutations := mutations + 1;
      r := Ok(true);
    }

    method Poll() returns (r: Option<E>)
      requires Valid()
      modifies this
      ensures Valid()
      ensures old(elements) == [] ==>
        r == None && elements == [] && modcount == old(modcount) && mutations == old(mutations)
      ensures old(elements) != [] ==>
        r == Some(old(elements)[0]) && elements == old(elements)[1..] &&
        modcount == Increment(old(modcount)) && mutations == old(mutations) + 1
    {
      if |elements| == 0 {
        return None;
      }
      r := Some(elements[0]);
      elements := elements[1..];
      IncrementWrap(mutations);
      modcount := Increment(modcount);
      mutations := mutations + 1;
    }

    method Peek() returns (r: Option<E>)
      ensures r.None? <==> elements == []
      ensures r.Some? ==> r.value == elements[0]
    {
      if |elements| == 0 {
        return None;
      }
      r := Some(elements[0]);
    }

    method Size() returns (n: int32)
      requires Valid()
      ensures n as int == |elements|
      ensures 0 <= n && (n == 0 || n <= capacity)
    {
      n := |elements| as int32;
    }

    method Iterator() returns (it: QueueIterator<E>)
      requires Valid()
      ensures fresh(it) && it.Valid()
      ensures it.queue == this && it.offset == 0
      ensures it.modcountAtConstruction == modcount && it.mutationsAtConstruction == mutations
    {
      it := new QueueIterator(this);
    }

    method Clear()
      requires Valid()
      modifies this
      ensures Valid()
      ensures elements == []
      ensures modcount == old(modcount) && mutations == old(mutations)
    {
      elements := [];
    }
  }

  /**
   * The run of the demonstration driver with capacity 6. It returns every
   * value the driver prints: the contents at each printed state (the printed
   * size is their length) and the two polled elements. Offering 1 to 6 evicts
   * nothing, the polls return 1 and 2, and `clear` leaves the queue empty.
   */
  method DemoRun() returns (initial: seq<int>, afterOne: seq<int>, afterFive: seq<int>, afterSix: seq<int>,
                            poll1: Option<int>, afterPoll1: seq<int>, poll2: Option<int>, afterPoll2: seq<int>,
                            cleared: seq<int>)
    ensures initial == []
    ensures afterOne == [1]
    ensures afterFive == [1, 2, 3, 4, 5]
    ensures afterSix == [1, 2, 3, 4, 5, 6]
    ensures poll1 == Some(1) && afterPoll1 == [2, 3, 4, 5, 6]
    ensures poll2 == Some(2) && afterPoll2 == [3, 4, 5, 6]
    ensures cleared == []
  {
    var queue := new MostRecentlyInsertedQueue<int>(6);
    initial := queue.elements;
    var ok := queue.Offer(1);
    afterOne := queue.elements;
    ok := queue.Offer(2);
    ok := queue.Offer(3);
    ok := queue.Offer(4);
    ok := queue.Offer(5);
    afterFive := queue.elements;
    ok := queue.Offer(6);
    afterSix := queue.elements;
    poll1 := queue.Poll();
    afterPoll1 := queue.elements;
    poll2 := queue.Poll();
    afterPoll2 := queue.elements;
    queue.Clear();
    cleared := queue.elements;
  }

  /**
   * The fail-fast iterator: it remembers `modcount` as it was when created and
   * throws `ConcurrentModificationException` once the two differ.
   */
  class QueueIterator<E> {
    const queue: MostRecentlyInsertedQueue<E>
    const modcountAtConstruction: int32
    /** The queue's count of bumps when this iterator was created. */
    ghost const mutationsAtConstruction: nat
    /** How many elements this iterator has returned. */
    var offset: nat

    ghost predicate Valid() {
      modcountAtConstruction == Wrap(mutationsAtConstruction)
    }

    constructor (q: MostRecentlyInsertedQueue<E>)
      requires q.Valid()
      ensures Valid()
      ensures queue == q && offset == 0
      ensures modcountAtConstruction == q.modcount && mutationsAtConstruction == q.mutations
    {
      queue := q;
      modcountAtConstruction := q.modcount;
      mutationsAtConstruction := q.mutations;
      offset := 0;
    }

    /**
     * Throws exactly when the queue's `modcount` has moved, that is, when the
     * number of bumps since creation is not a multiple of 2^32; otherwise says
     * whether elements remain.
     */
    method HasNext() returns (r: Result<bool>)
      requires Valid() && queue.Valid()
      ensures r.Err? <==> queue.modcount != modcountAtConstruction
      ensures r.Err? <==> (queue.mutations - mutationsAtConstruction) % Modulus != 0
      ensures r.Err? ==> r.error == ConcurrentModification
      ensures r.Ok? ==> r.value == (offset < |queue.elements|)
    {
      WrapSameIff(queue.mutations, mutationsAtConstruction);
      if queue.modcount != modcountAtConstruction {
        return Err(ConcurrentModification);
      }
      r := Ok(offset < |queue.elements|);
    }

    method Next() returns (r: Result<E>)
      requires Valid() && queue.Valid()
      modifies this
      ensures Valid()
      ensures queue.modcount != modcountAtConstruction ==>
        r == Err(ConcurrentModification) && offset == old(offset)
      ensures queue.modcount == modcountAtConstruction && old(offset) >= |queue.elements| ==>
        r == Err(NoSuchElement) && offset == old(offset)
      ensures queue.modcount == modcountAtConstruction && old(offset) < |queue.elements| ==>
        r == Ok(queue.elements[old(offset)]) && offset == old(offset) + 1
    {
      var more := HasNext();
      if more.Err? {
        return Err(more.error);
      }
      if !more.value {
        return Err(NoSuchElement);
      }
      r := Ok(queue.elements[offset]);
      offset := offset + 1;
    }

    method Remove() returns (r: Outcome)
      ensures r == Fail(UnsupportedOperation)
    {
      r := Fail(UnsupportedOperation);
    }
  }
}
