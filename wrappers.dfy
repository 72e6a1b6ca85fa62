/**
  Failure-carrying values shared by the whole model.

  `Option` stands for the library's try-pattern result (`{success: false}` or
  `{success: true, value}`) and for JavaScript's `undefined`; `Result` stands
  for a call that either returns a value or throws; `Exception` names the
  errors the library throws.
 */
module Wrappers {

  datatype Option<+T> = None | Some(value: T)

  datatype Result<+R> = Success(value: R) | Failure(error: Exception)

  /** The exceptions thrown by the modelled code. */
  datatype Exception =
    | InvalidOperation      // `new Error('InvalidOperationException')`
    | ServiceNotFound       // `new Error('service not found')`
    | NonAcyclicGraph       // `new Error('Non Acyclic Graph')`
    | NotImplemented        // `new Error("Method not implemented.")`
    | NullDereference       // the TypeError of reading a member of `undefined` after a `!` assertion
    | InvalidArrayLength    // the RangeError of `new Array(n)` for a number `n` that is not a valid length
  {
    /** The message the source attaches to the error. */
    function Message(): string {
      match this
      case InvalidOperation => "InvalidOperationException"
      case ServiceNotFound => "service not found"
      case NonAcyclicGraph => "Non Acyclic Graph"
      case NotImplemented => "Method not implemented."
      case NullDereference => "TypeError"
      case InvalidArrayLength => "Invalid array length"
    }
  }
}
