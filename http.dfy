/** The `net/http` status codes that the handlers and the middleware write. */
module Http {
  const StatusOK := 200
  const StatusCreated := 201
  const StatusNoContent := 204
  const StatusBadRequest := 400
  const StatusNotFound := 404
}
