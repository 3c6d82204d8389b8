/** The un-scoped checks: whether a user holds a permission or a role through any of its
    memberships, in any organization. They read the rows of a chain of LEFT JOINs from the
    user over memberships, membership roles, roles, role permissions and permissions, and
    test them one by one. */
module UserChecks {
  import opened Results
  import opened Schema
  import Text
  import Permissions

  // ---------------------------------------------------------------------------------
  // The single-access grammar `action:entity[:access]`
  // ---------------------------------------------------------------------------------

  /** The third segment, when present and not empty, becomes a one-element list as it is,
      commas included. */
  function ParsePermissionString(permissionString: string): (q: Permissions.ParsedPermission)
    ensures q.access.Some? ==> |q.access.value| == 1 && q.access.value[0] != ""
  {
    var parts := Text.Split(permissionString, ':');
    Permissions.ParsedPermission(
      parts[0],
      if |parts| > 1 then Some(parts[1]) else None,
      if |parts| > 2 && parts[2] != "" then Some([parts[2]]) else None)
  }

  /** Without a comma in the third segment, this parse and the list parse agree. */
  lemma {:induction false} ParsersAgree(permissionString: string)
    requires var parts := Text.Split(permissionString, ':'); |parts| > 2 ==> ',' !in parts[2]
    ensures ParsePermissionString(permissionString) == Permissions.ParsePermissionString(permissionString)
  {
    var parts := Text.Split(permissionString, ':');
    if |parts| > 2 && parts[2] != "" {
      Text.SplitWithoutSeparator(parts[2], ',');
    }
  }

  // ---------------------------------------------------------------------------------
  // The joined rows
  // ---------------------------------------------------------------------------------

  /** The permission columns of one joined row; all absent when some join found nothing. */
  datatype PermissionRow = PermissionRow(action: Option<Action>, entity: Option<string>,
                                         access: Option<Access>)

  const NullRow := PermissionRow(None, None, None)

  function PermissionColumns(p: Permission): PermissionRow
  {
    PermissionRow(Some(p.action), Some(p.entity), Some(p.access))
  }

  /** `… LEFT JOIN permissions ON permissions.id = rolePermissions.permissionId`. */
  function RowOfPermission(s: DbState, permissionId: Id): PermissionRow
  {
    if permissionId in s.permissions then PermissionColumns(s.permissions[permissionId]) else NullRow
  }

  /** The rows one role contributes: one per linked permission, or a null row when the role
      is missing or has no links. */
  function RowsOfRole(s: DbState, roleId: Id): set<PermissionRow>
  {
    var links := set rp | rp in s.rolePermissions && rp.roleId == roleId;
    if roleId !in s.roles || links == {} then {NullRow}
    else set rp | rp in links :: RowOfPermission(s, rp.permissionId)
  }

  /** The rows one membership contributes, or a null row when it holds no role. */
  function RowsOfMembership(s: DbState, membershipId: Id): set<PermissionRow>
  {
    var links := set mr | mr in s.membershipRoles && mr.membershipId == membershipId;
    if links == {} then {NullRow}
    else set mr, row | mr in links && row in RowsOfRole(s, mr.roleId) :: row
  }

  /** `FROM users LEFT JOIN … WHERE users.id = userId`: no row for an unknown user, a null
      row for a user without memberships. */
  function RowsOfUser(s: DbState, userId: Id): set<PermissionRow>
  {
    var ms := set id | id in s.memberships && s.memberships[id].userId == Some(userId);
    if userId !in s.users then {}
    else if ms == {} then {NullRow}
    else set id, row | id in ms && row in RowsOfMembership(s, id) :: row
  }

  /** The test `.some` applies to each row: same entity, same action, and the access in
      the list when a list was given. */
  predicate RowMatches(row: PermissionRow, q: Permissions.ParsedPermission)
  {
    && row.entity.Some? && q.entity == row.entity
    && row.action.Some? && ActionName(row.action.value) == q.action
    && (q.access.None? || (row.access.Some? && AccessName(row.access.value) in q.access.value))
  }

  /** `userHasPermission(userId, permissionString)`. */
  predicate UserHasPermission(s: DbState, userId: Id, permissionString: string)
  {
    exists row :: row in RowsOfUser(s, userId) && RowMatches(row, ParsePermissionString(permissionString))
  }

  /** A null row never matches, whatever was asked for. */
  lemma NullRowNeverMatches(q: Permissions.ParsedPermission)
    ensures !RowMatches(NullRow, q)
  {
  }

  // ---------------------------------------------------------------------------------
  // The same question as a join with a where clause
  // ---------------------------------------------------------------------------------

  /** A complete path from the user, through one of its memberships in any organization,
      to a permission. */
  predicate UnscopedPath(s: DbState, userId: Id, mr: MembershipRole, rp: RolePermission)
  {
    && mr in s.membershipRoles && mr.membershipId in s.memberships
    && s.memberships[mr.membershipId].userId == Some(userId)
    && mr.roleId in s.roles
    && rp in s.rolePermissions && rp.roleId == mr.roleId && rp.permissionId in s.permissions
  }

  /** The user exists and some complete path leads to a permission passing the where clause
      (the access condition applies only when a list is given). */
  predicate UnscopedGranted(s: DbState, userId: Id, q: Permissions.ParsedPermission)
  {
    userId in s.users &&
    exists mr, rp :: mr in s.membershipRoles && rp in s.rolePermissions &&
      UnscopedPath(s, userId, mr, rp) &&
      Permissions.Satisfies(s.permissions[rp.permissionId], q, true)
  }

  /** A row matches exactly when its permission passes the where clause. */
  lemma RowMatchesIffSatisfies(p: Permission, q: Permissions.ParsedPermission)
    ensures RowMatches(PermissionColumns(p), q) <==> Permissions.Satisfies(p, q, true)
  {
  }

  /** Every row that is not null carries a permission reached by a complete path. */
  lemma {:induction false} RowsComeFromPaths(s: DbState, userId: Id, row: PermissionRow)
    requires row in RowsOfUser(s, userId) && row != NullRow
    ensures userId in s.users
    ensures exists mr, rp ::
      && mr in s.membershipRoles && rp in s.rolePermissions
      && UnscopedPath(s, userId, mr, rp) && row == PermissionColumns(s.permissions[rp.permissionId])
  {
    var ms := set id | id in s.memberships && s.memberships[id].userId == Some(userId);
    var id :| id in ms && row in RowsOfMembership(s, id);
    var mlinks := set mr | mr in s.membershipRoles && mr.membershipId == id;
    var mr :| mr in mlinks && row in RowsOfRole(s, mr.roleId);
    var rlinks := set rp | rp in s.rolePermissions && rp.roleId == mr.roleId;
    var rp :| rp in rlinks && row == RowOfPermission(s, rp.permissionId);
    assert UnscopedPath(s, userId, mr, rp);
  }

  /** Every complete path of an existing user yields a row for its permission. */
  lemma {:induction false} PathsGiveRows(s: DbState, userId: Id, mr: MembershipRole, rp: RolePermission)
    requires userId in s.users && UnscopedPath(s, userId, mr, rp)
    ensures PermissionColumns(s.permissions[rp.permissionId]) in RowsOfUser(s, userId)
  {
    var row := PermissionColumns(s.permissions[rp.permissionId]);
    var rlinks := set x | x in s.rolePermissions && x.roleId == mr.roleId;
    assert rp in rlinks;
    assert row in RowsOfRole(s, mr.roleId);
    var mlinks := set x | x in s.membershipRoles && x.membershipId == mr.membershipId;
    assert mr in mlinks;
    assert row in RowsOfMembership(s, mr.membershipId);
    var ms := set id | id in s.memberships && s.memberships[id].userId == Some(userId);
    assert mr.membershipId in ms;
  }

  /** Testing the joined rows one by one answers the same question as the where clause. */
  lemma {:induction false} RowTestIsJoin(s: DbState, userId: Id, permissionString: string)
    ensures UserHasPermission(s, userId, permissionString) <==>
      UnscopedGranted(s, userId, ParsePermissionString(permissionString))
  {
    var q := ParsePermissionString(permissionString);
    if UserHasPermission(s, userId, permissionString) {
      var row :| row in RowsOfUser(s, userId) && RowMatches(row, q);
      RowsComeFromPaths(s, userId, row);
      var mr, rp :| mr in s.membershipRoles && rp in s.rolePermissions &&
        UnscopedPath(s, userId, mr, rp) && row == PermissionColumns(s.permissions[rp.permissionId]);
      RowMatchesIffSatisfies(s.permissions[rp.permissionId], q);
    }
    if UnscopedGranted(s, userId, q) {
      var mr, rp :| mr in s.membershipRoles && rp in s.rolePermissions &&
        UnscopedPath(s, userId, mr, rp) && Permissions.Satisfies(s.permissions[rp.permissionId], q, true);
      PathsGiveRows(s, userId, mr, rp);
      RowMatchesIffSatisfies(s.permissions[rp.permissionId], q);
    }
  }

  /** The un-scoped check holds exactly when the organization-scoped check (as documented,
      without an access filter when none is given) holds in some organization. */
  lemma {:induction false} UnscopedIsSomeOrganization(s: DbState, userId: Id, q: Permissions.ParsedPermission)
    requires Valid(s)
    ensures UnscopedGranted(s, userId, q) <==> exists o :: Permissions.Granted(s, userId, o, q, true)
  {
    if UnscopedGranted(s, userId, q) {
      var mr, rp :| mr in s.membershipRoles && rp in s.rolePermissions &&
        UnscopedPath(s, userId, mr, rp) && Permissions.Satisfies(s.permissions[rp.permissionId], q, true);
      var o := s.memberships[mr.membershipId].organizationId;
      assert Permissions.GrantPath(s, userId, o, mr, rp);
      assert Permissions.Granted(s, userId, o, q, true);
    }
    if exists o :: Permissions.Granted(s, userId, o, q, true) {
      var o :| Permissions.Granted(s, userId, o, q, true);
      var mr, rp :| mr in s.membershipRoles && rp in s.rolePermissions &&
        Permissions.GrantPath(s, userId, o, mr, rp) &&
        Permissions.Satisfies(s.permissions[rp.permissionId], q, true);
      assert UnscopedPath(s, userId, mr, rp);
    }
  }

  /** A comma-separated third segment is kept whole: `action:entity:own,any` is granted
      exactly when a path of the user leads to a permission stored with the composite
      access `own,any`, and holding the `own` and the `any` permission does not suffice. */
  lemma {:induction false} AccessListNotSplit(s: DbState, userId: Id, action: string, entity: string)
    requires ':' !in action && ':' !in entity
    ensures UserHasPermission(s, userId, action + ":" + entity + ":own,any") <==>
      userId in s.users &&
      exists mr, rp :: mr in s.membershipRoles && rp in s.rolePermissions &&
        UnscopedPath(s, userId, mr, rp) &&
        ActionName(s.permissions[rp.permissionId].action) == action &&
        s.permissions[rp.permissionId].entity == entity &&
        s.permissions[rp.permissionId].access == OwnAny
  {
    var str := action + ":" + entity + ":own,any";
    Text.JoinSmall(action, entity, "own,any", ':');
    assert str == Text.Join([action, entity, "own,any"], ':');
    Text.SplitJoin([action, entity, "own,any"], ':');
    var q := ParsePermissionString(str);
    assert q == Permissions.ParsedPermission(action, Some(entity), Some(["own,any"]));
    RowTestIsJoin(s, userId, str);
    forall p: Permission ensures Permissions.Satisfies(p, q, true) <==>
      ActionName(p.action) == action && p.entity == entity && p.access == OwnAny
    {
      assert AccessName(p.access) in ["own,any"] <==> p.access == OwnAny;
    }
  }

  // ---------------------------------------------------------------------------------
  // userHasRole
  // ---------------------------------------------------------------------------------

  /** The role names the join yields for one membership; `None` for a null row. */
  function RoleNamesOfMembership(s: DbState, membershipId: Id): set<Option<string>>
  {
    var links := set mr | mr in s.membershipRoles && mr.membershipId == membershipId;
    if links == {} then {None}
    else set mr | mr in links :: if mr.roleId in s.roles then Some(s.roles[mr.roleId].name) else None
  }

  function RoleNamesOfUser(s: DbState, userId: Id): set<Option<string>>
  {
    var ms := set id | id in s.memberships && s.memberships[id].userId == Some(userId);
    if userId !in s.users then {}
    else if ms == {} then {None}
    else set id, name | id in ms && name in RoleNamesOfMembership(s, id) :: name
  }

  /** `userHasRole(userId, roleName)`: some row's role name is that name. */
  predicate UserHasRole(s: DbState, userId: Id, roleName: string)
  {
    Some(roleName) in RoleNamesOfUser(s, userId)
  }

  /** The user exists and one of its memberships, in any organization, holds a role with
      that name. */
  predicate UnscopedRole(s: DbState, userId: Id, roleName: string)
  {
    userId in s.users &&
    exists mr :: mr in s.membershipRoles && mr.membershipId in s.memberships &&
      s.memberships[mr.membershipId].userId == Some(userId) &&
      mr.roleId in s.roles && s.roles[mr.roleId].name == roleName
  }

  /** The row test and the join agree, an unknown user has no role, and under the schema's
      constraints the check holds exactly when the organization-scoped role check holds in
      some organization. */
  lemma {:induction false} UserHasRoleIff(s: DbState, userId: Id, roleName: string)
    ensures UserHasRole(s, userId, roleName) <==> UnscopedRole(s, userId, roleName)
    ensures userId !in s.users ==> !UserHasRole(s, userId, roleName)
    ensures Valid(s) ==>
      (UserHasRole(s, userId, roleName) <==> exists o :: Permissions.UserHasRole(s, userId, o, roleName))
  {
    var ms := set id | id in s.memberships && s.memberships[id].userId == Some(userId);
    if UserHasRole(s, userId, roleName) {
      var id :| id in ms && Some(roleName) in RoleNamesOfMembership(s, id);
      var mr :| mr in s.membershipRoles && mr.membershipId == id && mr.roleId in s.roles &&
        s.roles[mr.roleId].name == roleName;
      assert UnscopedRole(s, userId, roleName);
      assert Permissions.UserHasRole(s, userId, s.memberships[id].organizationId, roleName);
    }
    if UnscopedRole(s, userId, roleName) {
      var mr :| mr in s.membershipRoles && mr.membershipId in s.memberships &&
        s.memberships[mr.membershipId].userId == Some(userId) &&
        mr.roleId in s.roles && s.roles[mr.roleId].name == roleName;
      assert mr.membershipId in ms;
      var links := set x | x in s.membershipRoles && x.membershipId == mr.membershipId;
      assert mr in links;
      assert Some(roleName) in RoleNamesOfMembership(s, mr.membershipId);
    }
    if Valid(s) && exists o :: Permissions.UserHasRole(s, userId, o, roleName) {
      var o :| Permissions.UserHasRole(s, userId, o, roleName);
      var mr :| mr in s.membershipRoles && mr.membershipId in s.memberships &&
        s.memberships[mr.membershipId].userId == Some(userId) &&
        s.memberships[mr.membershipId].organizationId == o &&
        mr.roleId in s.roles && s.roles[mr.roleId].name == roleName;
      assert UnscopedRole(s, userId, roleName);
    }
  }
}
