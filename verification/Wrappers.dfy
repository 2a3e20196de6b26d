/** What several modules share. */
module Wrappers {
  /** The optional value used wherever the Go code has a nil pointer, a nil error or a zero time. */
  datatype Option<+T> = None | Some(value: T)

  type Time = nat // nanoseconds on a monotone clock

  type ClientId = nat // clients in the order they were made

  function Count(b: bool): nat { if b then 1 else 0 }
}
