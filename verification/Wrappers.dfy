/** Optional values and computations that may throw. */
module Wrappers {

  /** A value that JSON may leave out. */
  datatype Option<+T> = None | Some(value: T)

  /** JavaScript's `option ?? fallback`. */
  function GetOr<T>(o: Option<T>, fallback: T): T {
    if o.Some? then o.value else fallback
  }

  /** JavaScript's truth value of an optional string: present and not empty. */
  predicate Truthy(o: Option<string>) {
    o.Some? && o.value != ""
  }

  /** A timestamp in milliseconds, or a text that `Date.parse` rejects. */
  datatype Instant = Ms(t: int) | Unparseable

  /** Equality of texts and records, as a name that proofs can keep folded. */
  predicate Same<T(==)>(a: T, b: T) {
    a == b
  }

  /** The result of code that may throw; a throw is never mistaken for a value. */
  datatype Checked<+T> = Threw | Returned(value: T) {
    predicate IsFailure() {
      Threw?
    }

    function PropagateFailure<U>(): Checked<U>
      requires Threw?
    {
      Threw
    }

    function Extract(): T
      requires Returned?
    {
      value
    }
  }
}
