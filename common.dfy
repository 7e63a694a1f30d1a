/** Small value types shared by every module of the model. */
module Common {

  /** Python's `None` / a present value. */
  datatype Option<+T> = None | Some(value: T)

  /**
   * What a handler sees of one `requests.get` call: a 200 response with its
   * decoded body, any other status code, or an exception (network error,
   * timeout, undecodable JSON) that the handler's own `try` catches.
   */
  datatype Fetch<+T> = Ok(body: T) | BadStatus | Raised

  function Min(a: int, b: int): int
  {
    if a <= b then a else b
  }
}
