/** Failure-compatible result types. Every `panic!`/`expect` of the original
    program is modelled as a `Fatal` (or `Fail`) value that the callers pass on
    unchanged, so a fatal condition aborts the whole operation as it does there. */
module Outcomes {

  datatype Option<+T> = None | Some(value: T)

  /** The result of an operation that either yields a value or stops with a fatal error. */
  datatype Result<+T> = Ok(value: T) | Fatal(msg: string) {
    predicate IsFailure() { Fatal? }

    function PropagateFailure<U>(): Result<U>
      requires Fatal?
    {
      Fatal(msg)
    }

    function Extract(): T
      requires Ok?
    {
      value
    }
  }

  /** The result of an operation that yields nothing but may stop with a fatal error. */
  datatype Outcome = Pass | Fail(msg: string) {
    predicate IsFailure() { Fail? }

    function PropagateFailure<U>(): Result<U>
      requires Fail?
    {
      Fatal(msg)
    }
  }

  /** The status part of a state-carrying result, as a method that changed the
      state in place reports it. */
  function StatusOf<T>(r: Result<T>): (o: Outcome)
    ensures o.Pass? <==> r.Ok?
  {
    match r
    case Ok(_) => Pass
    case Fatal(m) => Fail(m)
  }
}
