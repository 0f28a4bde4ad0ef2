/** Outcome types shared by every module. A Python exception raised by the
    spec engine becomes an `Err` carrying one of the `Error` kinds below. */
module Wrappers {

  datatype Option<+T> = None | Some(value: T)

  /** The exception classes the spec engine raises or lets escape. */
  datatype Error =
    | TypeError(reason: string)
    | ValueError(reason: string)
      /** `hinted` is set when the error was re-raised with an added hint. */
    | KeyError(key: string, hinted: bool)
    | IndexError(reason: string)
    | AttributeError(name: string)
      /** `suggestsPaths` is set when the message was extended with the
          suggestion to use the multi-match `Paths` node. */
    | AmbiguityError(subject: string, suggestsPaths: bool)
    | NameError(name: string)
    | FileNotFoundError(path: string)
    | IsADirectoryError(path: string)
    | ImportError(moduleName: string, className: string)
    | RecursionError

  datatype Result<+T> = Ok(value: T) | Err(error: Error) {

    predicate IsFailure() {
      Err?
    }

    function PropagateFailure<U>(): Result<U>
      requires Err?
    {
      Err(error)
    }

    function Extract(): T
      requires Ok?
    {
      value
    }
  }
}
