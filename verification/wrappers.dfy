/** Outcome types for the Python code being modelled: a call either returns a
    value or raises one of the exception kinds below. */
module Wrappers {

  /** The Python exception classes the modelled code can raise. */
  datatype Error =
    | ValueError
    | TypeError
    | KeyError
    | IllegalValue      // OgcAbstract.IllegalValue
    | NameError         // an unbound local or an undefined global name
    | OverflowError     // int() of an infinite float
    | AttributeError    // a missing attribute, e.g. `.simulate` on a plain value
    | RuntimeError      // an OrderedDict changed size while being iterated
    | Unmodelled        // behaviour of Python's regex engine the model does not cover

  datatype Option<+T> = None | Some(value: T) {
    predicate IsFailure() { None? }
    function PropagateFailure<U>(): Option<U>
      requires None?
    {
      None
    }
    function Extract(): T
      requires Some?
    {
      value
    }
  }

  datatype Result<+T> = Ok(value: T) | Err(error: Error) {
    predicate IsFailure() { Err? }
    function PropagateFailure<U>(): Result<U>
      requires Err?
    {
      Err(error)
    }
    function Extract(): T
      requires Ok?
    {
      value
    }
  }
}
