/** The error values the batch code returns, and the result and option types
    that stand for Go's (value, error) pairs and nil results. */
module Errors {
  import opened Directory

  datatype Option<T> = None | Some(value: T)

  datatype Error =
    /** The directory refused the call (any non-success answer). */
    | CallFailed(call: Call)
    /** importer.go: "case of the user name mismatched". */
    | UserCaseMismatch(got: string, expected: string)
    /** importer.go: "case of the role name mismatched". */
    | RoleCaseMismatch(got: string, expected: string)
    /** importer.go: "No such role". */
    | NoSuchRole(role: string)
    /** importer.go: "Can not remove 'Administrator' role from 'admin'." */
    | AdministratorProtected
    /** importer.go: "failed to delete some home directory". */
    | HomeDirectoryFailures
    /** batch.go: "Errors occured while importing users". */
    | ImportErrors
    /** errors.Wrap(cause, message). */
    | Wrapped(message: string, cause: Error)
    /** roles.go: "unknown permission". */
    | UnknownPermission(name: string)
    /** roles.go: the permission listing could not be fetched. */
    | PermissionListingFailed
    /** roles.go: the permission assignment was not accepted. */
    | PermissionAssignmentFailed
    /** roles.go: "no such role". */
    | RoleNotFound(role: string)
    /** roles.go: "immutable role". */
    | ImmutableRole(role: string)
    /** roles.go: "'role' already have the permission 'p'". */
    | AlreadyHasPermission(role: string, permission: string)
    /** roles.go: "'role' doesn't have the permission 'p'". */
    | LacksPermission(role: string, permission: string)

  datatype Result<T> = Ok(value: T) | Err(error: Error)

  /** Whether an error reports a refused write call, directly or inside any
      number of wrappings. */
  predicate WriteFailure(e: Error) {
    match e
    case CallFailed(call) => !call.IsRead()
    case Wrapped(_, cause) => WriteFailure(cause)
    case _ => false
  }
}
