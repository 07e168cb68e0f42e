/** What the other modules share: two types that carry failures, and a default of the shell. */
module Wrappers {

  datatype Option<+T> = None | Some(value: T)

  datatype Result<+T, +E> = Success(value: T) | Failure(error: E)

  /** `${name:-default}`: an unset variable is "". */
  function OrElse(value: string, default: string): string { if value == "" then default else value }
}
