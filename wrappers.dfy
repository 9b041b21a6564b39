/**
  Optional values (JavaScript's `undefined` and `null` versus a present value), and the
  outcome of a loop that may stop early by throwing.
 */
module Wrappers {

  datatype Option<+T> = None | Some(value: T) {

    /** The value, or `default` when absent (JavaScript's `x ?? default`). */
    function GetOr(default: T): T
    {
      match this
      case Some(v) => v
      case None => default
    }
  }

  /** What a loop produced, in order, and whether it ran to its end (false: it threw). */
  datatype Run<T> = Run(out: seq<T>, completed: bool) {

    /** This run, followed by `next` when this one ran to its end. */
    function AndThen(next: Run<T>): (r: Run<T>)
      ensures completed ==> r.out == out + next.out && r.completed == next.completed
      ensures !completed ==> r == this
    {
      if completed then Run(out + next.out, next.completed) else this
    }
  }
}
