/** Option and Result, the two ways a decoder in this model reports failure.

    Option is used where the source swallows every exception and yields
    `None`; Result is used where an exception escapes to the caller, and its
    Error names the kind of exception that escaped. */
module Wrappers {

  datatype Option<+T> = None | Some(value: T) {
    predicate IsFailure() { None? }

    function PropagateFailure<U>(): Option<U>
      requires None?
    {
      None
    }

    function Extract(): T
      requires Some?
    {
      value
    }
  }

  /** The exceptions that can escape the container parser and the account
      methods: a `struct.unpack` on a short slice, a failed `assert`, a bad
      hexadecimal string, and a failed UTF-16 decode. */
  datatype Error = StructError | AssertionError | HexError | UnicodeError

  datatype Result<+T> = Ok(value: T) | Err(error: Error) {
    predicate IsFailure() { Err? }

    function PropagateFailure<U>(): Result<U>
      requires Err?
    {
      Err(error)
    }

    function Extract(): T
      requires Ok?
    {
      value
    }
  }

  /** Converts an Option into a Result, naming the error for `None`. */
  function Need<T>(o: Option<T>, e: Error): (r: Result<T>)
    ensures r.Ok? <==> o.Some?
    ensures r.Ok? ==> r.value == o.value
    ensures r.Err? ==> r.error == e
  {
    match o
    case Some(v) => Ok(v)
    case None => Err(e)
  }
}
