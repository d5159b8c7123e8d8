/** Small types shared by every module. */
module Basics {

  /** Python's `T | None`; failure-compatible, so parsers can use `:-`. */
  datatype Option<+T> = None | Some(value: T) {
    predicate IsFailure() {
      None?
    }

    function PropagateFailure<U>(): Option<U>
      requires None?
    {
      None
    }

    function Extract(): T
      requires Some?
    {
      value
    }

    function GetOr(default: T): T {
      if Some? then value else default
    }
  }

  /** An inductive list, used where a value nests lists of itself. */
  datatype List<+T> = Nil | Cons(head: T, tail: List<T>)
}
