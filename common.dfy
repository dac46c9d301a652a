/** Values shared by every part of the model: an optional value and the HTTP
    status codes the handlers answer with (Go's net/http constants). */
module Common {

  datatype Option<+T> = None | Some(value: T)

  const StatusOK := 200
  const StatusCreated := 201
  const StatusBadRequest := 400
  const StatusUnauthorized := 401
  const StatusForbidden := 403
  const StatusNotFound := 404
  const StatusConflict := 409
  const StatusInternalServerError := 500
}
