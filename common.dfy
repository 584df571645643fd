/** Failure-carrying wrappers shared by the whole model. */
module Common {

  datatype Option<+T> = None | Some(value: T)

  /** The fatal errors the program raises (Python exceptions that abort a run). */
  datatype Error =
    | MissingAttribute(attr: string)       // KeyError on item[attr]
    | NotIterable(attr: string)            // TypeError: a linkable attribute that is not a list or string
    | NotTimestamp(attr: string)           // AttributeError: strftime on a value that is not a datetime
    | Unorderable(attr: string)            // TypeError while sorting by order_by
    | ZeroPageSize                         // ValueError: range() arg 3 must not be zero

  datatype Result<+T> = Ok(value: T) | Err(error: Error) {
    predicate IsFailure() { Err? }
    function PropagateFailure<U>(): Result<U>
      requires Err?
    {
      Err(error)
    }
    function Extract(): T
      requires Ok?
    {
      value
    }
  }

  /** Success or failure of a step that yields nothing but side effects. */
  datatype Outcome = Pass | Fail(error: Error) {
    predicate IsFailure() { Fail? }
    function PropagateFailure(): Outcome
      requires Fail?
    {
      this
    }
  }
}
