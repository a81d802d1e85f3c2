/** Results of the queue's operations: Java's `null` returns and thrown exceptions become values. */
module Outcomes {

  /** The exceptions the queue and its iterator can throw. */
  datatype Failure =
    | NoSuchElement           // java.util.NoSuchElementException
    | ConcurrentModification  // java.util.ConcurrentModificationException
    | UnsupportedOperation    // java.lang.UnsupportedOperationException

  /** A value or `null`. */
  datatype Option<+T> = None | Some(value: T)

  /** A returned value or a thrown exception. */
  datatype Result<+T> = Ok(value: T) | Err(error: Failure)

  /** Normal completion of a `void` method, or a thrown exception. */
  datatype Outcome = Pass | Fail(error: Failure)
}
