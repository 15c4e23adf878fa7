/**
 * The outcome of an HTTP handler: a status with a body, or a status with the
 * `{ message }` error body.
 */
module Http {
  datatype Reply<T> = Success(status: nat, body: T) | Failure(status: nat, message: string)

  const NotFound: nat := 404
  const Forbidden: nat := 403
  const BadRequest: nat := 400
  const Unauthorized: nat := 401
  const ServerError: nat := 500
  const Created: nat := 201
  const Ok: nat := 200
}
