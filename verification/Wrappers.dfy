/** The failure-compatible types shared by every component. */
module Wrappers {

  datatype Option<+T> = None | Some(value: T)

  /** Every exception, `Err` or panic of the program; `reason` keeps the kind of failure only. */
  datatype Result<+T> = Ok(value: T) | Err(reason: string) {
    predicate IsFailure() {
      Err?
    }

    function PropagateFailure<U>(): Result<U>
      requires Err?
    {
      Err(reason)
    }

    function Extract(): T
      requires Ok?
    {
      value
    }
  }

  function Need(condition: bool, reason: string): Result<()> {
    if condition then Ok(()) else Err(reason)
  }
}
