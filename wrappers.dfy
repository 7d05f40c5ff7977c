/** Values that carry either an answer or the reason there is none. They stand in
    for `null` results and for the exceptions the C# code throws and catches. */
module Wrappers {

  /** A value that may be absent (`FirstOrDefault` returning `null`). */
  datatype Option<+T> = None | Some(value: T)

  /** A call that either returns a value or throws an exception. */
  datatype Result<+T, +E> = Success(value: T) | Failure(error: E)

  /** A call that returns nothing, or throws an exception. */
  datatype Outcome<+E> = Pass | Fail(error: E)
}
