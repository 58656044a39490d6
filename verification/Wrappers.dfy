/** The two result shapes the rest of the project shares. */
module Wrappers {

  datatype Option<+T> = None | Some(value: T) {
    predicate IsFailure() {
      None?
    }

    function PropagateFailure<U>(): Option<U>
      requires None?
    {
      None
    }

    function Extract(): T
      requires Some?
    {
      value
    }
  }

  /** What a reader step returns: a value and the bytes it did not consume. */
  datatype Parsed<+T> = Fail | Ok(value: T, rest: string) {
    predicate IsFailure() {
      Fail?
    }

    function PropagateFailure<U>(): Parsed<U>
      requires Fail?
    {
      Fail
    }

    function Extract(): (T, string)
      requires Ok?
    {
      (value, rest)
    }

    /** Forgets what was left unread. */
    function Value(): Option<T> {
      if Ok? then Some(value) else None
    }
  }
}
