/** The two result types shared by every module. */
module Wrappers {

  datatype Option<+T> = None | Some(value: T)

  /** A computation that either returns a value or stops with a Go panic
      (an out-of-range index, a nil dereference, or log.Panic). */
  datatype Result<+T> = Ok(value: T) | Panic
}
