/** Outcomes of the core's operations: a value, or the error the source throws. */
module Results {
  import Text

  datatype Option<T> = None | Some(value: T)

  /** One constructor per distinct failure the core raises. The engine-specific texts of
      constraint errors (Postgres and SQLite word them differently) are folded into
      DuplicateKey and ForeignKeyViolation. */
  datatype Error =
    | DuplicateKey                          // a unique or primary-key constraint rejected a write
    | ForeignKeyViolation                   // a write referenced a row that does not exist
    | ValidationError(fields: seq<string>)  // the input schema rejected these fields
    | RoleNotFound(roleName: string)        // registry lookups by role name
    | RoleNotSeeded(roleName: string)       // membership-engine lookups by role name
    | PermissionNotFound(permissionId: int)
    | MembershipNotFound(membershipId: int)
    | MembershipAlreadyExists               // a pending or active row for (organization, email)
    | OrganizationNotFound
    | InvitationNotFound                    // no such id, or already accepted
    | UserNotFound
    | UndefinedRole                         // `.id` read off a role lookup that found nothing

  datatype Result<T> = Ok(value: T) | Err(error: Error)

  /** The message the source attaches to each error. */
  function Message(e: Error): string
  {
    match e
    case DuplicateKey => "duplicate key value violates unique constraint"
    case ForeignKeyViolation => "insert or update violates foreign key constraint"
    case ValidationError(_) => "validation failed"
    case RoleNotFound(name) => "Role \"" + name + "\" not found"
    case RoleNotSeeded(name) => name + " role not found. Please ensure the database is properly seeded."
    case PermissionNotFound(id) => "Permission with id " + Text.IntToString(id) + " not found"
    case MembershipNotFound(id) => "Membership with id " + Text.IntToString(id) + " not found"
    case MembershipAlreadyExists => "A membership already exists for this email in this organization"
    case OrganizationNotFound => "Organization not found"
    case InvitationNotFound => "Invitation not found or already accepted"
    case UserNotFound => "User not found"
    case UndefinedRole => "Cannot read properties of undefined (reading 'id')"
  }
}
