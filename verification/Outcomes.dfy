/** Results of operations that may raise an exception nobody catches. */
module Outcomes {
  datatype Option<+T> = Some(value: T) | None

  datatype Outcome<+T> = Ok(value: T) | Raised {
    predicate IsFailure() {
      Raised?
    }

    function PropagateFailure<U>(): Outcome<U>
      requires Raised?
    {
      Raised
    }

    function Extract(): T
      requires Ok?
    {
      value
    }
  }
}
