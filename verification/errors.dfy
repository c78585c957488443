/**
 * The exceptions the terminal driver, the pages and the workers raise
 * (av2000_terminator/misc/exceptions.py, the Field exceptions of the form engine,
 * and the Python built-in exceptions the code raises or runs into).
 */
module Errors {
  datatype Exc =
    // av2000_terminator/misc/exceptions.py
    | DriverClosed
    | LoadingTimeout(message: string)
    | TaskError
    | NoPreviousPage
    | NoNextPage
    // Field exceptions of the form engine
    | ReadOnlyField(field: string)
    | FieldValueError(message: string)
    | LineNotReachable(target: int, reached: int)
    | ColNotReachable(target: int, reached: int)
    // DettagliFornitore.commit_changes
    | FormError(message: string)
    // Python built-ins
    | TypeError
    | ValueError
    | KeyError
    | IndexError
    | AttributeError(name: string)
    | RuntimeError(message: string)
    | UnicodeDecodeError
    | AssertionFailed
    // Not raised by the program: the model stops following a cursor seek that has
    // used up its keystroke budget without reaching its target (Form.MoveLoop)
    | SeekUnsettled

  /** The exceptions a page's wait may raise and a worker retries on. */
  predicate IsTimeout(e: Exc) {
    e.LoadingTimeout?
  }
}
