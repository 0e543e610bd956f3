/** Failure-compatible results, shared by every module. */
module Wrappers {

  datatype Option<+T> = None | Some(value: T)

  datatype Result<+T, +E> = Ok(value: T) | Err(error: E) {
    predicate IsFailure() {
      Err?
    }

    function PropagateFailure<U>(): Result<U, E>
      requires Err?
    {
      Err(error)
    }

    function Extract(): T
      requires Ok?
    {
      value
    }
  }

  /** A result behind the elements that precede it. */
  function Prefixed<T, E>(xs: seq<T>, r: Result<seq<T>, E>): Result<seq<T>, E> {
    match r
    case Ok(rest) => Ok(xs + rest)
    case Err(e) => Err(e)
  }

  /** The result of a sequence from that of its first element and of the others. */
  function Joined<T, E>(first: Result<T, E>, rest: Result<seq<T>, E>): Result<seq<T>, E> {
    match first
    case Ok(x) => Prefixed([x], rest)
    case Err(e) => Err(e)
  }
}
