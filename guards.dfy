/** The route guards: they let a request through with the user's id when the user holds a
    permission (or a role) through any membership, and otherwise answer 403. The id comes
    from the session; here it is an input. */
module Guards {
  import opened Results
  import opened Schema
  import Permissions
  import UserChecks

  /** What the 403 body names as missing. */
  datatype Requirement =
    | RequiredPermission(action: string, entity: Option<string>, access: Option<seq<string>>)
    | RequiredRole(roleName: string)

  /** The thrown response: status, `error`, the requirement and `message`. */
  datatype Denial = Denial(status: int, error: string, required: Requirement, message: string)

  datatype GuardResult = Allowed(userId: Id) | Forbidden(denial: Denial)

  /** The ids the permission query selects: one per joined row of the user that has the
      parsed action and entity and, when an access was given, that access. */
  function PermissionQuery(s: DbState, userId: Id, q: Permissions.ParsedPermission): set<Id>
  {
    set mr, rp | mr in s.membershipRoles && rp in s.rolePermissions && userId in s.users &&
                 UserChecks.UnscopedPath(s, userId, mr, rp) &&
                 Permissions.Satisfies(s.permissions[rp.permissionId], q, true)
      :: userId
  }

  /** `requireUserWithPermission`: the user's id when the row test of `userHasPermission`
      succeeds, and otherwise a 403 naming the parsed requirement and the string asked for. */
  function RequireUserWithPermission(s: DbState, userId: Id, permissionString: string): (r: GuardResult)
    ensures r.Allowed? <==> UserChecks.UserHasPermission(s, userId, permissionString)
    ensures r.Allowed? ==> r.userId == userId
    ensures r.Forbidden? ==>
      var q := UserChecks.ParsePermissionString(permissionString);
      r.denial == Denial(403, "Unauthorized", RequiredPermission(q.action, q.entity, q.access),
                         "Unauthorized: required permissions: " + permissionString)
  {
    var q := UserChecks.ParsePermissionString(permissionString);
    var ids := PermissionQuery(s, userId, q);
    UserChecks.RowTestIsJoin(s, userId, permissionString);
    assert ids != {} <==> UserChecks.UnscopedGranted(s, userId, q) by {
      if UserChecks.UnscopedGranted(s, userId, q) {
        var mr, rp :| mr in s.membershipRoles && rp in s.rolePermissions &&
          UserChecks.UnscopedPath(s, userId, mr, rp) &&
          Permissions.Satisfies(s.permissions[rp.permissionId], q, true);
        assert userId in ids;
      }
    }
    if ids != {} then Allowed(userId)
    else Forbidden(Denial(403, "Unauthorized", RequiredPermission(q.action, q.entity, q.access),
                          "Unauthorized: required permissions: " + permissionString))
  }

  /** The guard is not organization-scoped: it lets the user through exactly when the
      organization-scoped check (without an access filter when none is given) holds in
      some organization. */
  lemma {:induction false} PermissionGuardIsSomeOrganization(s: DbState, userId: Id, permissionString: string)
    requires Valid(s)
    ensures RequireUserWithPermission(s, userId, permissionString).Allowed? <==>
      exists o :: Permissions.Granted(s, userId, o, UserChecks.ParsePermissionString(permissionString), true)
  {
    UserChecks.RowTestIsJoin(s, userId, permissionString);
    UserChecks.UnscopedIsSomeOrganization(s, userId, UserChecks.ParsePermissionString(permissionString));
  }

  /** The ids the role query selects: one per joined row of the user whose role has that
      name. */
  function RoleQuery(s: DbState, userId: Id, roleName: string): set<Id>
  {
    set mr | mr in s.membershipRoles && userId in s.users && mr.membershipId in s.memberships &&
             s.memberships[mr.membershipId].userId == Some(userId) &&
             mr.roleId in s.roles && s.roles[mr.roleId].name == roleName
      :: userId
  }

  /** `requireUserWithRole`: the user's id when `userHasRole` holds, and otherwise a 403
      naming the role. */
  function RequireUserWithRole(s: DbState, userId: Id, roleName: string): (r: GuardResult)
    ensures r.Allowed? <==> UserChecks.UserHasRole(s, userId, roleName)
    ensures r.Allowed? ==> r.userId == userId
    ensures r.Forbidden? ==>
      r.denial == Denial(403, "Unauthorized", RequiredRole(roleName), "Unauthorized: required role: " + roleName)
  {
    var ids := RoleQuery(s, userId, roleName);
    UserChecks.UserHasRoleIff(s, userId, roleName);
    assert ids != {} <==> UserChecks.UnscopedRole(s, userId, roleName) by {
      if UserChecks.UnscopedRole(s, userId, roleName) {
        var mr :| mr in s.membershipRoles && mr.membershipId in s.memberships &&
          s.memberships[mr.membershipId].userId == Some(userId) &&
          mr.roleId in s.roles && s.roles[mr.roleId].name == roleName;
        assert userId in ids;
      }
    }
    if ids != {} then Allowed(userId)
    else Forbidden(Denial(403, "Unauthorized", RequiredRole(roleName), "Unauthorized: required role: " + roleName))
  }

  /** The role guard is not organization-scoped either. */
  lemma {:induction false} RoleGuardIsSomeOrganization(s: DbState, userId: Id, roleName: string)
    requires Valid(s)
    ensures RequireUserWithRole(s, userId, roleName).Allowed? <==>
      exists o :: Permissions.UserHasRole(s, userId, o, roleName)
  {
    UserChecks.UserHasRoleIff(s, userId, roleName);
  }
}
