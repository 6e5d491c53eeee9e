/** Results that may be absent, and calls that may throw. */
module Wrappers {

  datatype Option<+T> = None | Some(value: T) {
    predicate IsFailure() { None? }
    function PropagateFailure<U>(): Option<U>
      requires None?
    {
      None
    }
    function Extract(): T
      requires Some?
    {
      value
    }
  }

  /** The outcome of a call that returns a value or throws `std::domain_error`. */
  datatype Outcome<+T> = Returned(value: T) | DomainError
}
