/** Status codes and the shape of a handler's answer. */
module Http {
  import opened Js

  const OK := 200
  const CREATED := 201
  const BAD_REQUEST := 400
  const UNAUTHORIZED := 401
  const FORBIDDEN := 403
  const NOT_FOUND := 404
  const CONFLICT := 409
  const SERVER_ERROR := 500

  /** What a handler answers: a status, the store after the request, and the
      payload of a successful answer. */
  datatype Answer<S, D> = Answer(status: int, state: S, data: Option<D>)
}
