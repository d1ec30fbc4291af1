/** Results of kernel operations that may stop the machine. */
module Outcomes {
  /** `Panic` is a call of panic(): the machine stops and nothing is returned. */
  datatype Outcome<+T> = Done(value: T) | Panic
}
