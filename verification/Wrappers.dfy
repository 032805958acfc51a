/** Result types shared by the whole model. */
module Wrappers {
  datatype Option<+T> = None | Some(value: T)

  /** Fatal stands for a failed kernel assertion, a kernel_fatal_error or a jump through a null
      operation: the kernel halts. */
  datatype Outcome<+T> = Done(value: T) | Fatal {
    predicate IsFailure() { Fatal? }
    function PropagateFailure<U>(): Outcome<U> requires Fatal? { Fatal }
    function Extract(): T requires Done? { value }
  }
}
