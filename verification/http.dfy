/** What an HTTP handler answers: a status with a JSON value, a status with
    the error that produced it, or a bare status. */
module Http {

  const StatusOK: int := 200
  const StatusCreated: int := 201
  const StatusNoContent: int := 204
  const StatusBadRequest: int := 400
  const StatusUnauthorized: int := 401
  const StatusNotFound: int := 404
  const StatusInternalServerError: int := 500
  const StatusBadGateway: int := 502

  datatype Reply<+T, +E> =
    | Json(status: int, value: T)
    | Error(status: int, error: E)
    | Empty(status: int)
}
