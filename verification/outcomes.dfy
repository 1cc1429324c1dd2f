/** Results standing in for the `std::runtime_error`s the program throws. */
module Outcomes {

  datatype Option<+T> = None | Some(value: T)

  /** The two exceptions of the program, one per search. */
  datatype Error =
    | UnableToFindWeakInput
    | UnableToFindWeakSum

  datatype Result<+T> = Success(value: T) | Failure(error: Error)
}
