/** Failure-carrying results shared by every module of the model. */
module Wrappers {

  datatype Option<+T> = None | Some(value: T)

  /** The exceptions a request can meet, with the HTTP status the
      framework's exception filter answers with: those the services,
      controllers and guards raise, and the 401 with which passport's JWT
      strategy refuses a request that the guards pass through. */
  datatype Exception =
    | BadRequest(message: string)     // BadRequestException, 400
    | Unauthorized(message: string)   // UnauthorizedException, 401
    | Forbidden(message: string)      // ForbiddenException, 403
    | NotFound(message: string)       // NotFoundException, 404
    | InternalServerError             // any other error escaping a handler (a TypeError, a database constraint), 500

  /** A value, or the exception raised instead of returning it. */
  datatype Outcome<+T> = Ok(value: T) | Err(error: Exception)
}
