/** The error replies of the administrative servers, one tag per distinct
    `res.status(...).json({ error })` the handlers send. */
module ApiErrors {

  datatype ApiError =
    | ValidationError          // a zod schema rejected the body
    | UserNotFound             // no user has the given id
    | RoleNotFound             // no role has the given name
    | RoleAlreadyExists        // the duplicate check on the raw name matched
    | RoleInUse                // some user still has the role
    | InvalidRole              // the role to assign does not exist
    | InsufficientPermissions  // the caller's role lacks the needed permission
    | NoToken                  // no bearer token in the Authorization header
    | InvalidToken             // the token did not verify
    | AdminRoleRequired        // the token's role is not ADMIN
    | RegistrationDisabled     // users exist and the requested role is not ADMIN
    | StorageError             // the database refused the write (a 500 reply)
  {
    /** The HTTP status code sent with the error. */
    function Status(): nat {
      match this
      case ValidationError | RoleAlreadyExists | RoleInUse | InvalidRole => 400
      case NoToken => 401
      case InsufficientPermissions | InvalidToken | AdminRoleRequired | RegistrationDisabled => 403
      case UserNotFound | RoleNotFound => 404
      case StorageError => 500
    }
  }
}
