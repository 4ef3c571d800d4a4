/**
 * Failure-compatible wrappers shared by every module of the model:
 * `Option` stands for PHP's "value or null", `Result` for "value or thrown exception".
 */
module Wrappers {

  datatype Option<+T> = None | Some(value: T)

  datatype Result<+T, +E> = Success(value: T) | Failure(error: E)
}
