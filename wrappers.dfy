/** Optional values, results and the exceptions the indexing layer raises. */
module Wrappers {

  /** A value that may be absent: the `null` of a reference, or a `ConditionalValue` without a value. */
  datatype Option<+T> = None | Some(value: T)

  /** The exception types the modelled code throws or lets through. */
  datatype Error =
    | ArgumentNull        // ArgumentNullException
    | ArgumentError       // ArgumentException (duplicate key)
    | KeyNotFound         // KeyNotFoundException
    | InvalidCast         // InvalidCastException
    | InvalidOperation    // InvalidOperationException
    | NullReference       // NullReferenceException

  /** The outcome of an operation that either returns a value or throws. */
  datatype Result<+T> = Ok(value: T) | Err(error: Error)
}
