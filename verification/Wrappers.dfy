/** Optional values, results with an error, and the ways in which the code can fail. */
module Wrappers {
  datatype Option<+T> = None | Some(value: T)

  datatype Result<+T> = Ok(value: T) | Err(error: Failure)

  /** The C++ failures the model distinguishes.  `OutOfRange` stands for an unchecked
      `operator[]` beyond the end of a vector, which C++ leaves undefined. */
  datatype Failure =
    | ParseError
    | TypeError
    | BadAnyCast
    | AssertFailed
    | OutOfRange
    | BadFunctionCall
    | InvalidArgument
    | RangeError
    | OtherException
}
