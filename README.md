# MostRecentlyInsertedQueue in Dafny

A model of `MostRecentlyInsertedQueue<E>`, a bounded first-in, first-out
queue that keeps only the N most recently inserted elements: once the queue
holds `capacity` elements, `offer` evicts the head before appending the new
element at the tail. Its inner `QueueIterator` is fail-fast: it remembers the
queue's `modcount` when it is created and throws
`ConcurrentModificationException` once the two differ.

Files:

- `outcomes.dfy` (module `Outcomes`): `null` returns become `Option`, thrown
  exceptions become `Result`/`Outcome` values carrying a `Failure`
  (`NoSuchElement`, `ConcurrentModification`, `UnsupportedOperation`).
- `java_int.dfy` (module `JavaInt`): Java's 32-bit `int` and the wrap-around
  of `modcount++`.
- `eviction.dfy` (module `Eviction`): the eviction rule on sequences (head
  first). `Offered` is one `offer`, `OfferAll` a run of offers from empty.
- `queue.dfy` (module `MostRecentlyInserted`): the two classes. The queue has
  the source's three fields: `elements` (a `seq<E>` standing for the
  `LinkedList`), `modcount` and `capacity`. It also has a ghost count
  `mutations` of the `modcount` bumps without wrap-around. `Valid()` ties
  `modcount` to `mutations` and keeps the size within the capacity. The
  iterator holds the queue, the captured `modcount` and its `offset`.

Points where the code behaves differently from what one might assume:

- The constructor accepts any capacity. With a capacity that is not positive,
  `offer` takes its else branch, and `remove()` on the empty list throws
  `NoSuchElementException`. The model returns `Err(NoSuchElement)` and
  changes nothing.
- `clear` does not touch `modcount`. An iterator created before `clear`
  therefore does not throw afterwards: `hasNext` returns `false`.
- `poll` on an empty queue returns `null` (`None`) and does not bump
  `modcount`.
- `modcount` is a Java `int`, so `modcount++` wraps at 2^31. `hasNext`
  throws exactly when the number of `offer`/`poll` bumps since the iterator
  was created is not a multiple of 2^32. A single mutation is always
  detected. Exactly 2^32 mutations are not.

The comments in `main` at lines 27, 30, 31, 34 and 35 do not match the code. With
capacity 6, offering 1..6 leaves size 6 and `[1, 2, 3, 4, 5, 6]`, and the
two polls return 1 and 2, leaving `[2, 3, 4, 5, 6]` (size 5) and then
`[3, 4, 5, 6]` (size 4). `DemoRun` derives this
from the contracts of `Offer`, `Poll` and `Clear`.

## Model

| member | source | states |
|---|---|---|
| JavaInt.Wrap | MostRecentlyInsertedQueueTest.java:49 | the `int` value of an unbounded count is the one congruent to it modulo 2^32 |
| JavaInt.Increment | MostRecentlyInsertedQueueTest.java:73 | `modcount++` is the 32-bit wrap of `modcount + 1` and always yields a different value |
| JavaInt.IncrementWrap | MostRecentlyInsertedQueueTest.java:83 | bumping the wrapped count is wrapping the bumped count, so `modcount` tracks the number of bumps |
| JavaInt.WrapSameIff | MostRecentlyInsertedQueueTest.java:140 | two bump counts give the same `modcount` exactly when they differ by a multiple of 2^32 |
| Eviction.Offered | MostRecentlyInsertedQueueTest.java:66-71 | one offer fails exactly when the list is empty and the capacity is not positive; otherwise the size grows by one while below capacity and stays put otherwise, and the result is the newest elements of `s + [e]` |
| Eviction.OfferAppendsWhenRoom | MostRecentlyInsertedQueueTest.java:66-67 | below capacity the new contents are `old + [e]` and the size grows by one |
| Eviction.OfferEvictsHeadWhenFull | MostRecentlyInsertedQueueTest.java:68-70 | at capacity the new contents are `old[1..] + [e]` and the size stays the capacity |
| Eviction.OfferedWithinCapacity | MostRecentlyInsertedQueueTest.java:63-71 | with a positive capacity an offer succeeds and keeps the size within the capacity |
| Eviction.OfferAllKeepsMostRecent | MostRecentlyInsertedQueueTest.java:63-76 | after k offers from empty with a positive capacity the contents are exactly the last min(k, capacity) elements offered, in insertion order |
| Eviction.OfferAllFailsWithoutCapacity | MostRecentlyInsertedQueueTest.java:57-71 | with a capacity that is not positive, any non-empty run of offers throws `NoSuchElementException` |
| MostRecentlyInserted.MostRecentlyInsertedQueue.constructor | MostRecentlyInsertedQueueTest.java:57-60 | any capacity is accepted; the queue starts empty with `modcount` 0 |
| MostRecentlyInserted.MostRecentlyInsertedQueue.Offer | MostRecentlyInsertedQueueTest.java:62-76 | returns `true`, bumps `modcount` once, appends below capacity and evicts the head at capacity (as `Offered`); throws and changes nothing when the capacity is not positive; keeps the size within the capacity |
| MostRecentlyInserted.MostRecentlyInsertedQueue.Poll | MostRecentlyInsertedQueueTest.java:78-86 | on an empty queue returns `null` and changes neither contents nor `modcount`; otherwise returns the old head, leaves `old[1..]` and bumps `modcount` once |
| MostRecentlyInserted.MostRecentlyInsertedQueue.Peek | MostRecentlyInsertedQueueTest.java:88-93 | returns `null` exactly when empty and the head otherwise; changes nothing |
| MostRecentlyInserted.MostRecentlyInsertedQueue.Size | MostRecentlyInsertedQueueTest.java:95-98 | returns the element count as a Java `int`, which is at most the capacity when non-zero |
| MostRecentlyInserted.MostRecentlyInsertedQueue.Iterator | MostRecentlyInsertedQueueTest.java:100-103 | returns a fresh iterator over this queue at offset 0 that has captured the current `modcount` |
| MostRecentlyInserted.MostRecentlyInsertedQueue.Clear | MostRecentlyInsertedQueueTest.java:105-108 | empties the queue and leaves `modcount` unchanged; the result does not depend on the old contents, so clearing twice is clearing once |
| MostRecentlyInserted.QueueIterator.constructor | MostRecentlyInsertedQueueTest.java:122-125 | captures the queue's `modcount` and starts at offset 0 |
| MostRecentlyInserted.QueueIterator.HasNext | MostRecentlyInsertedQueueTest.java:138-144 | throws `ConcurrentModificationException` exactly when `modcount` differs from the captured value, i.e. when the bumps since creation are not a multiple of 2^32; otherwise returns `offset < size` |
| MostRecentlyInserted.QueueIterator.Next | MostRecentlyInsertedQueueTest.java:127-136 | throws on a changed `modcount`; throws `NoSuchElementException` once `offset` reaches the size; otherwise returns the element at `offset`, head first, and advances `offset` by one |
| MostRecentlyInserted.DemoRun | MostRecentlyInsertedQueueTest.java:17-38 | every value the driver prints, with capacity 6: `[]`, `[1]`, `[1, 2, 3, 4, 5]`, then `[1, 2, 3, 4, 5, 6]` (no eviction at six); the polls return 1 and 2, leaving `[2, 3, 4, 5, 6]` and `[3, 4, 5, 6]`; `clear` leaves `[]` |
| MostRecentlyInserted.QueueIterator.Remove | MostRecentlyInsertedQueueTest.java:146-149 | always throws `UnsupportedOperationException` |

## Left out

- `main` (lines 16-40) is a demonstration driver that prints to the console; printing is not modelled (`DemoRun` returns every value it prints instead: the contents at each printed state and the two polled elements).
- `toString` (lines 110-114) depends on `LinkedList.toString` and the element type's `toString`, which are library code outside this model.
- The methods `MostRecentlyInsertedQueue` inherits from `AbstractQueue` (`add`, `remove()`, `element`, `addAll`, `contains`, ...) are library code that only wraps the modelled operations.
- `LinkedList` internals: the list is an abstract `seq<E>`.
- QueueIterator.Next: returns the element at `offset` of the live list. The wrapped `LinkedList` iterator also has its own fail-fast check, which is not modelled. The two agree whenever the queue's own check passes, except after a multiple of 2^32 bumps.
- The `assert newElement != null` (line 64): null elements are not modelled. Instantiating `E` with a nullable type gives `Some(null)` where Java returns `null`, and with `-ea` Java throws `AssertionError` at line 64.
- Concurrency: `modcount` is a single-threaded fail-fast guard; the model is sequential.
