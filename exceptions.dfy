/** The Java exceptions the core can raise, and Guava's checkNotNull. */
module Exceptions {
  import opened Wrappers

  datatype Exception =
    | NullPointer(message: Option<string>)
    | ClassCast
    | IndexOutOfBounds
    | UnsupportedOperation(reason: string)

  /** Guava's `checkNotNull(reference[, message])`: the reference itself, or a
      NullPointerException carrying the message when the reference is null. */
  function CheckNotNull<T>(reference: Option<T>, message: Option<string>): (r: Result<T, Exception>)
    ensures r.Success? <==> reference.Some?
    ensures r.Success? ==> r.value == reference.value
    ensures r.Failure? ==> r.error == NullPointer(message)
  {
    match reference
    case Some(x) => Success(x)
    case None => Failure(NullPointer(message))
  }
}
