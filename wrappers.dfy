/**
 * The failure kinds of the Bash expansion engine, and the Result and Outcome
 * types through which the model reports them in place of Python exceptions.
 */
module Wrappers {

  /** Why an operation of the engine stopped. */
  datatype Error =
    /** `NotImplementedError("Unknown node: ...")` raised by the node dispatcher. */
    | UnknownNode(nodeName: string)
    /** `NotImplementedError("Unknown redirection type: ...")`. */
    | UnknownRedirection(redirType: string)
    /** An `assert self.is_open` of the session failed. */
    | NotOpen
    /** A character code that cannot be turned into text sent to the
        interpreter (`chr` refuses it, or it cannot be UTF-8 encoded). */
    | InvalidCode(code: int)
    /** The interpreter's output ended without a prompt (pexpect's EOF or TIMEOUT). */
    | NoPrompt
    /** An attribute that is not there was used (`AttributeError`). */
    | MissingAttribute
    /** `os.remove` of a file that no longer exists (`FileNotFoundError`). */
    | FileMissing

  /** A value or the error that stopped its computation. */
  datatype Result<+T> = Ok(value: T) | Err(error: Error) {
    predicate IsFailure() { Err? }

    function PropagateFailure<U>(): Result<U>
      requires Err?
    {
      Err(error)
    }

    function Extract(): T
      requires Ok?
    {
      value
    }
  }

  /** The result of an operation that returns nothing (`None` in Python). */
  datatype Outcome = Pass | Fail(error: Error) {
    predicate IsFailure() { Fail? }

    function PropagateFailure(): Outcome
      requires Fail?
    {
      this
    }
  }

  datatype Option<+T> = None | Some(value: T)
}
