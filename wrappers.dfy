/** Failure-carrying values used wherever the scripts catch or raise an exception. */
module Wrappers {

  /** `None` stands for "the call raised"; `Some(v)` for a normal return of `v`. */
  datatype Option<+T> = None | Some(value: T)
}
