/** Failure-compatible wrappers: `Option` for a library call that may throw inside a
    try block, `Result` for a computation whose exception escapes to its caller. */
module Wrappers {

  datatype Option<+T> = None | Some(value: T) {
    predicate IsFailure() { None? }

    function PropagateFailure<U>(): Option<U>
      requires None?
    {
      None
    }

    function Extract(): T
      requires Some?
    {
      value
    }
  }

  /** A JavaScript exception, identified by the `name` property the catch blocks test. */
  datatype Fault =
    | TypeError                     // property read on undefined, call of a non-function
    | CodecError                    // the ASN.1 codec rejected its input
    | SystemError(errName: string)  // a file-system error; its name is e.g. "ENOENT"
  {
    function Name(): string {
      match this
      case TypeError => "TypeError"
      case CodecError => "CodecError"  // a placeholder: any name but "ENOENT" behaves alike
      case SystemError(n) => n
    }
  }

  datatype Result<+T> = Ok(value: T) | Err(error: Fault) {
    predicate IsFailure() { Err? }

    function PropagateFailure<U>(): Result<U>
      requires Err?
    {
      Err(error)
    }

    function Extract(): T
      requires Ok?
    {
      value
    }
  }

  /** Turns a codec call that may fail into a Result, as an uncaught throw does. */
  function OrThrow<T>(o: Option<T>, f: Fault): (r: Result<T>)
    ensures r.Ok? <==> o.Some?
    ensures o.Some? ==> r.value == o.value
    ensures o.None? ==> r.error == f
  {
    match o
    case Some(v) => Ok(v)
    case None => Err(f)
  }
}
