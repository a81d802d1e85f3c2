/**
 * The eviction rule of the most-recently-inserted queue, stated on sequences
 * (head first, tail last). No element value is ever compared: eviction is
 * purely positional.
 */
module Eviction {
  import opened Outcomes

  function Min(a: int, b: int): (r: int) { if a <= b then a else b }

  /**
   * The contents after one `offer(e)` on contents `s`: append at the tail while
   * there is room, otherwise remove the head first. Removing the head of an
   * empty list throws, which happens exactly when the capacity is not positive.
   */
  function Offered<E>(s: seq<E>, capacity: int, e: E): (r: Result<seq<E>>)
    ensures r.Err? <==> s == [] && capacity <= 0
    ensures r.Err? ==> r.error == NoSuchElement
    ensures r.Ok? ==> |r.value| == (if |s| < capacity then |s| + 1 else |s|)
    ensures r.Ok? ==> r.value == (s + [e])[|s| + 1 - |r.value|..]
  {
    if |s| < capacity then Ok(s + [e])
    else if |s| == 0 then Err(NoSuchElement)
    else Ok(s[1..] + [e])
  }

  /** The contents after offering every element of `xs`, in order, to an empty queue. */
  function OfferAll<E>(capacity: int, xs: seq<E>): (r: Result<seq<E>>)
    decreases |xs|
  {
    if xs == [] then Ok([])
    else
      match OfferAll(capacity, xs[..|xs| - 1])
      case Err(f) => Err(f)
      case Ok(s) => Offered(s, capacity, xs[|xs| - 1])
  }

  /** With room left, `offer` appends at the tail and the size grows by one. */
  lemma OfferAppendsWhenRoom<E>(s: seq<E>, capacity: int, e: E)
    requires |s| < capacity
    ensures Offered(s, capacity, e) == Ok(s + [e])
    ensures |Offered(s, capacity, e).value| == |s| + 1
  {
  }

  /** When full, `offer` drops the head, appends at the tail, and the size stays the capacity. */
  lemma OfferEvictsHeadWhenFull<E>(s: seq<E>, capacity: int, e: E)
    requires 0 < capacity == |s|
    ensures Offered(s, capacity, e) == Ok(s[1..] + [e])
    ensures |Offered(s, capacity, e).value| == capacity
  {
  }

  /** With a positive capacity, `offer` keeps the size within the capacity. */
  lemma OfferedWithinCapacity<E>(s: seq<E>, capacity: int, e: E)
    requires 0 < capacity && |s| <= capacity
    ensures Offered(s, capacity, e).Ok?
    ensures |Offered(s, capacity, e).value| <= capacity
  {
  }

  /** Dropping the head of the last `n` elements of `init` and appending `last` leaves the last `n` of `init + [last]`. */
  lemma DropHeadOfSuffix<E>(init: seq<E>, last: E, n: nat)
    requires 0 < n <= |init|
    ensures init[|init| - n..][1..] + [last] == (init + [last])[|init| + 1 - n..]
  {
    assert init[|init| - n..][1..] == init[|init| - n + 1..];
  }

  /**
   * After any run of offers to an empty queue of positive capacity, the contents
   * are exactly the last min(k, capacity) elements offered, in insertion order.
   */
  lemma {:induction false} OfferAllKeepsMostRecent<E>(capacity: int, xs: seq<E>)
    requires capacity > 0
    ensures OfferAll(capacity, xs) == Ok(xs[|xs| - Min(|xs|, capacity)..])
    decreases |xs|
  {
    if xs != [] {
      var init, last := xs[..|xs| - 1], xs[|xs| - 1];
      OfferAllKeepsMostRecent(capacity, init);
      var s := init[|init| - Min(|init|, capacity)..];
      assert OfferAll(capacity, xs) == Offered(s, capacity, last);
      if |init| < capacity {
        assert s == init;
        assert init + [last] == xs;
      } else {
        DropHeadOfSuffix(init, last, capacity);
        assert init + [last] == xs;
      }
    }
  }

  /** With a capacity that is not positive, the first offer already throws. */
  lemma {:induction false} OfferAllFailsWithoutCapacity<E>(capacity: int, xs: seq<E>)
    requires capacity <= 0 && xs != []
    ensures OfferAll(capacity, xs) == Err(NoSuchElement)
    decreases |xs|
  {
    var init := xs[..|xs| - 1];
    if init != [] {
      OfferAllFailsWithoutCapacity(capacity, init);
    }
  }
}
