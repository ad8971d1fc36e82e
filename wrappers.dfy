/** Option and Result, used for values the source may lack (a missing field,
    a failed request). */
module Wrappers {

  datatype Option<+T> = None | Some(value: T)

  /** The outcome of one call to a remote service: `Failure` stands for a
      rejected promise, a thrown error or a non-success status alike, since
      every caller in the client catches them the same way. */
  datatype Result<+T> = Success(value: T) | Failure
}
