/**
 Results of C++ code: a value, a thrown exception, or undefined behaviour
 (an out-of-range read through a span, a vector or an iterator).
 */
module Outcomes {
  datatype Option<+T> = None | Some(value: T)

  datatype Outcome<+T> = Ok(value: T) | Throws | Undefined {
    predicate IsFailure() {
      !Ok?
    }

    function PropagateFailure<U>(): Outcome<U>
      requires !Ok?
    {
      if Throws? then Outcome<U>.Throws else Outcome<U>.Undefined
    }

    function Extract(): T
      requires Ok?
    {
      value
    }
  }
}
