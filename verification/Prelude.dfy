/** The usual option type, usable with `:-`, and bounds. */
module Prelude {
  datatype Option<+T> = None | Some(value: T) {
    predicate IsFailure() {
      None?
    }

    function PropagateFailure<U>(): Option<U>
      requires None?
    {
      None
    }

    function Extract(): T
      requires Some?
    {
      value
    }
  }

  function Min(a: int, b: int): int {
    if a < b then a else b
  }

  function Max(a: int, b: int): int {
    if a < b then b else a
  }

  /** x moved into the range lo to hi. */
  function Bound(lo: int, x: int, hi: int): int {
    if x < lo then lo else if x > hi then hi else x
  }
}
