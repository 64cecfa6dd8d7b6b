/** Failure-compatible wrappers shared by every module of the model.

    The library reports failure with Python exceptions; the model returns a
    `Result` whose error names the exception class the library raises, with
    the part of the message that identifies what went wrong.
 */
module Wrappers {

  datatype Option<+T> = None | Some(value: T) {
    predicate IsFailure() { None? }

    function PropagateFailure<U>(): Option<U>
      requires None?
    {
      None
    }

    function Extract(): T
      requires Some?
    {
      value
    }

    function GetOr(default: T): T {
      match this
      case Some(v) => v
      case None => default
    }
  }

  /** The exceptions the library raises, by class. */
  datatype Error =
    | ValueError(msg: string)
    | KeyError(key: string)
    | IndexError(msg: string)
    | TypeError(msg: string)
    | AttributeError(msg: string)
    | AssertionError(msg: string)
    | FileNotFound(path: string)
    | ImportError(moduleName: string)
    | YamlError(path: string)
    | DownloadFailed(urls: seq<string>)
    | UnknownDataset(id: string)
    | Corruption(path: string)
    | UpgradeRequired(id: string, required: string, current: string)
    | ValidationError(field: string, msg: string)
    | ZeroDivisionError(msg: string)
    | StopIteration
    | FileExists(path: string)

  datatype Result<+T> = Ok(value: T) | Err(error: Error) {
    predicate IsFailure() { Err? }

    function PropagateFailure<U>(): Result<U>
      requires Err?
    {
      Err(error)
    }

    function Extract(): T
      requires Ok?
    {
      value
    }
  }
}
