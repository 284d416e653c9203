/** Optional values, and the exceptions the core throws, as values. */
module Outcomes {

  datatype Option<+T> = None | Some(value: T)

  /** The exception kinds the modelled code raises. */
  datatype Error =
    | InvalidOperation   // InvalidOperationException: wrong thread or no window
    | Win32Error         // Win32Exception: a native call reported failure
    | ArgumentError      // Exception / ArgumentException / ArgumentNullException on bad arguments
    | NullReference      // NullReferenceException: a member used through a null reference

  datatype Result<+T> = Success(value: T) | Failure(error: Error)
}
