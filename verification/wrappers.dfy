/**
 * Java's nullable references, as a value: `None` stands for `null`. The
 * type is failure-compatible, so `:-` gives an early exit on `None`, the
 * way a thrown exception leaves a block in the original code.
 */
module Wrappers {

  datatype Option<+T> = None | Some(value: T) {

    predicate IsFailure() {
      None?
    }

    function PropagateFailure<U>(): Option<U>
      requires None?
    {
      None
    }

    function Extract(): T
      requires Some?
    {
      value
    }
  }
}
