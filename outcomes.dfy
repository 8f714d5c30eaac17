/** Error and result types shared by the cancellation classes. */
module Outcomes {

  /** The two errors the cancellation classes throw. */
  datatype Error = DisposedError | IntervalError

  /** The outcome of a throwing Swift call that returns nothing: it returns normally or throws. */
  datatype Outcome = Ok | Fail(error: Error)

  /** Swift's `Optional`. */
  datatype Option<+T> = None | Some(value: T)
}
