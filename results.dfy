/** Values shared by the note service: optional values and the two failures
    a note handler can answer with (HTTP 401 and HTTP 404). */
module Results {

  datatype Option<+T> = None | Some(value: T)

  /** Unauthorized stands for the 401 answer, NotFound for the 404 answer. */
  datatype Error = Unauthorized | NotFound

  /** What a handler answers: its response body, or one of the two failures. */
  datatype Result<+T> = Ok(value: T) | Err(error: Error)

  /** The outcome of a check that returns nothing when it passes. */
  datatype Outcome = Pass | Fail(error: Error)
}
