/** Failure-compatible result type and the failures the pipeline can report. */
module Results {

  /** A value that may be absent; `None` stands for JavaScript's `undefined`. */
  datatype Option<+T> = None | Some(value: T)

  /** Every way a stage of the pipeline can stop. */
  datatype Failure =
    /** `query` is falsy after the defaults merge. */
    | QueryRequired
    /** `cb` is missing or is not a function. */
    | CallbackRequired
    /** A record's `term_id` is undefined, so calling `.match` on it throws a TypeError. */
    | UndefinedTermId
    /** A GO record's `term_name` is undefined, so `.split` or `.length` on it throws a TypeError. */
    | UndefinedTermName
    /** The retained scores sum to zero, so every normalised score would be a 0/0 division. */
    | ZeroTotalScore

  datatype Result<+T> = Ok(value: T) | Err(error: Failure) {

    predicate IsFailure() {
      Err?
    }

    function PropagateFailure<U>(): Result<U>
      requires Err?
    {
      Err(error)
    }

    function Extract(): T
      requires Ok?
    {
      value
    }
  }
}
