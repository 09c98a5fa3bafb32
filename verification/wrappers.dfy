/** An optional value and the outcome of a step that may end the process,
    shared by the header codec and the keeper adapter. */
module Wrappers {

  /** A value that may be absent. */
  datatype Option<+T> = None | Some(value: T)

  /** The outcome of a step that may hit a fatal `CHECK` (or `LOG(FATAL)`),
      which aborts the process instead of returning. */
  datatype Exec<+T> = Proceed(value: T) | Abort
}
