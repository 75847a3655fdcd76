/** Failure-carrying datatypes shared by every module of the model. */
module Wrappers {

  datatype Option<+T> = None | Some(value: T)

  datatype Result<+R, +E> = Success(value: R) | Failure(error: E)
}

/** The shape of an HTTP handler's answer: a 200 with a payload, or a status and an error text. */
module Http {

  datatype Reply<+T> = Ok(data: T) | Fail(status: int, error: string)

  const BAD_REQUEST := 400
  const UNAUTHORIZED := 401
  const FORBIDDEN := 403
  const SERVER_ERROR := 500
}
