/** The two exception kinds of the evaluator, and a result type that carries
    them back up the call tree instead of throwing. */
module Errors {

  /** `FileError(name)`: the table file `name` could not be opened.
      `DomainError`: no square-root discriminant was positive. */
  datatype Err = FileError(name: string) | DomainError

  /** Either a value or the error that stopped the computation.
      Failure-compatible, so `var v :- e; ...` propagates an error like a throw. */
  datatype Result<+T> = Ok(value: T) | Fail(err: Err) {

    predicate IsFailure() {
      Fail?
    }

    function PropagateFailure<U>(): Result<U>
      requires Fail?
    {
      Fail(err)
    }

    function Extract(): T
      requires Ok?
    {
      value
    }
  }

  /** `k * v` for the value `v` of `src`, or the error of `src`. */
  function Times(k: real, src: Result<real>): (r: Result<real>)
    ensures PassesThrough(r, src)
    ensures r.Ok? ==> r.value == k * src.value
  {
    match src
    case Ok(v) => Ok(k * v)
    case Fail(e) => Fail(e)
  }

  /** `v + c` for the value `v` of `src`, or the error of `src`. */
  function Plus(src: Result<real>, c: real): (r: Result<real>)
    ensures PassesThrough(r, src)
    ensures r.Ok? ==> r.value == src.value + c
  {
    match src
    case Ok(v) => Ok(v + c)
    case Fail(e) => Fail(e)
  }

  /** `r` succeeds exactly when `src` does, and when `src` failed `r` is that
      same error: what a computation that uses `src` without catching does. */
  predicate PassesThrough<T, U>(r: Result<T>, src: Result<U>) {
    (r.Ok? <==> src.Ok?) && (src.Fail? ==> r.err == src.err)
  }
}
