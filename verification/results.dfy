/** Failure-compatible Option and Result datatypes used by the whole model.
    `Result` carries the exception a Python call would raise. */
module Results {

  datatype Option<+T> = None | Some(value: T)

  datatype Result<+R, +E> = Ok(value: R) | Err(error: E) {

    predicate IsFailure() {
      Err?
    }

    function PropagateFailure<U>(): Result<U, E>
      requires Err?
    {
      Err(error)
    }

    function Extract(): R
      requires Ok?
    {
      value
    }
  }
}

/** The Python exceptions the modelled code can raise, one constructor per
    exception class that reaches a caller or is caught. */
module Exceptions {

  datatype Error =
    | ReadError              // TarFile.open on a stream that is not a tar archive
    | KeyError(key: string)  // a dict or tar member lookup of a missing name
    | AttributeError         // `.read()` on the None that extractfile returns
    | RecursionError         // following a cycle of symbolic links
    | UnicodeDecodeError     // METADATA bytes that are not UTF-8
    | JsonDecodeError        // METADATA text that is not JSON
    | ImportError(message: string)
    | NameError(name: string)
}
