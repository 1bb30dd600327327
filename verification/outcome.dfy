/** Optional values, results and the error kinds that abort a bridge invocation. */
module Outcome {

  datatype Option<+T> = None | Some(value: T)

  datatype Result<+T, +E> = Ok(value: T) | Err(error: E) {
    predicate IsFailure() {
      Err?
    }

    function PropagateFailure<U>(): Result<U, E>
      requires Err?
    {
      Err(error)
    }

    function Extract(): T
      requires Ok?
    {
      value
    }
  }

  /** Why `Serve` (or the JSON decoding before it) returns an error instead of a response. */
  datatype BridgeError =
    | MalformedHeader   // a header value is neither a string nor a list of strings
    | BadBodyEncoding   // `encoding` is "base64" but the body is not valid base64
    | InvalidMethod     // `http.NewRequest` rejects the method
    | InvalidUrl        // `http.NewRequest` cannot parse the path
}
