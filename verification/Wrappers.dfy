/** The two outcome types the models share. */
module Wrappers {

  datatype Option<+T> = None | Some(value: T)

  /** A call of the original that returns, or raises: which exception it raises is not modelled. */
  datatype Result<+T> = Ok(value: T) | Failed {
    predicate IsFailure() {
      Failed?
    }

    function PropagateFailure<U>(): Result<U>
      requires Failed?
    {
      Failed
    }

    function Extract(): T
      requires Ok?
    {
      value
    }
  }

  /** A check that raises unless it holds. */
  function Need(holds: bool): Result<()> {
    if holds then Ok(()) else Failed
  }
}
