/** The relational state of the multitenancy subsystem: seven tables, the constraints the
    schema declares on them, and the effect of inserts and deletes on the whole state.

    The three schema files (a dialect-neutral one and its Postgres and SQLite versions)
    declare the same tables and uniqueness constraints. The Postgres and SQLite versions add
    cascading deletes; the neutral one declares none, so a delete of a referenced row is
    refused there. Both behaviours are modelled: the cascading one by the `Remove…`
    functions, the refusing one by `RestrictClear`. */
module Schema {
  import opened Results

  type Id = int
  /** Creation and update times are opaque values supplied by the caller. */
  type Timestamp = int

  datatype GlobalRole = SUPERADMIN | CUSTOMER
  datatype Action = Create | Read | Update | Delete
  /** The access levels a permission row can carry. The insert schemas name `own` and
      `any`; `createPermission` also accepts the composite spellings `own,any` and
      `any,own`, and the Postgres column, plain text, stores them as given. */
  datatype Access = Own | Any | OwnAny | AnyOwn

  /** The text stored in the `action` column. */
  function ActionName(a: Action): string
  {
    match a
    case Create => "create"
    case Read => "read"
    case Update => "update"
    case Delete => "delete"
  }

  /** The text stored in the `access` column. */
  function AccessName(a: Access): string
  {
    match a
    case Own => "own"
    case Any => "any"
    case OwnAny => "own,any"
    case AnyOwn => "any,own"
  }

  datatype Organization = Organization(id: Id, name: string)

  datatype User = User(
    id: Id,
    name: Option<string>,
    email: string,
    activeOrganizationId: Id,
    globalRole: GlobalRole)

  /** A pending invitation has no `userId` and carries the invitee's email; an accepted or
      direct membership has a `userId`. */
  datatype Membership = Membership(
    id: Id,
    organizationId: Id,
    userId: Option<Id>,
    invitedName: Option<string>,
    invitedEmail: Option<string>,
    createdAt: Timestamp,
    updatedAt: Timestamp)

  datatype Permission = Permission(
    id: Id, action: Action, entity: string, access: Access, description: string)

  datatype Role = Role(id: Id, name: string, description: string)

  /** Rows of the two join tables. Their composite primary keys are the whole row, so a
      set of rows holds no duplicate key. */
  datatype RolePermission = RolePermission(roleId: Id, permissionId: Id)
  datatype MembershipRole = MembershipRole(membershipId: Id, roleId: Id)

  /** The next value of each table's auto-increment id. */
  datatype Counters = Counters(
    organization: Id, user: Id, membership: Id, permission: Id, role: Id)

  datatype DbState = DbState(
    organizations: map<Id, Organization>,
    users: map<Id, User>,
    memberships: map<Id, Membership>,
    permissions: map<Id, Permission>,
    roles: map<Id, Role>,
    rolePermissions: set<RolePermission>,
    membershipRoles: set<MembershipRole>,
    next: Counters)

  /** A freshly created database: every table empty, every id sequence at 1. */
  const Empty := DbState(map[], map[], map[], map[], map[], {}, {}, Counters(1, 1, 1, 1, 1))

  // ---------------------------------------------------------------------------------
  // Constraints
  // ---------------------------------------------------------------------------------

  /** Each row is stored under its own primary key. */
  ghost predicate RowIdsMatch(s: DbState)
  {
    && (forall id :: id in s.organizations ==> s.organizations[id].id == id)
    && (forall id :: id in s.users ==> s.users[id].id == id)
    && (forall id :: id in s.memberships ==> s.memberships[id].id == id)
    && (forall id :: id in s.permissions ==> s.permissions[id].id == id)
    && (forall id :: id in s.roles ==> s.roles[id].id == id)
  }

  /** Ids are positive and below their sequence's next value, so the next value is fresh. */
  ghost predicate IdsBelowCounters(s: DbState)
  {
    && 0 < s.next.organization && 0 < s.next.user && 0 < s.next.membership
    && 0 < s.next.permission && 0 < s.next.role
    && (forall id :: id in s.organizations ==> 0 < id < s.next.organization)
    && (forall id :: id in s.users ==> 0 < id < s.next.user)
    && (forall id :: id in s.memberships ==> 0 < id < s.next.membership)
    && (forall id :: id in s.permissions ==> 0 < id < s.next.permission)
    && (forall id :: id in s.roles ==> 0 < id < s.next.role)
  }

  /** `users.email` is unique. */
  ghost predicate UniqueEmail(s: DbState)
  {
    forall a, b :: a in s.users && b in s.users && s.users[a].email == s.users[b].email ==> a == b
  }

  /** unique(userId, organizationId): binds only rows whose `userId` is not NULL. */
  ghost predicate UniqueUserOrg(s: DbState)
  {
    forall a, b ::
      (a in s.memberships && b in s.memberships &&
       s.memberships[a].userId.Some? && s.memberships[a].userId == s.memberships[b].userId &&
       s.memberships[a].organizationId == s.memberships[b].organizationId) ==> a == b
  }

  /** unique(organizationId, invitedEmail): binds only rows whose `invitedEmail` is not NULL. */
  ghost predicate UniqueOrgEmail(s: DbState)
  {
    forall a, b ::
      (a in s.memberships && b in s.memberships &&
       s.memberships[a].invitedEmail.Some? &&
       s.memberships[a].invitedEmail == s.memberships[b].invitedEmail &&
       s.memberships[a].organizationId == s.memberships[b].organizationId) ==> a == b
  }

  /** unique(action, entity, access) on permissions. */
  ghost predicate UniquePermission(s: DbState)
  {
    forall a, b ::
      (a in s.permissions && b in s.permissions &&
       s.permissions[a].action == s.permissions[b].action &&
       s.permissions[a].entity == s.permissions[b].entity &&
       s.permissions[a].access == s.permissions[b].access) ==> a == b
  }

  /** `roles.name` is unique. */
  ghost predicate UniqueRoleName(s: DbState)
  {
    forall a, b :: a in s.roles && b in s.roles && s.roles[a].name == s.roles[b].name ==> a == b
  }

  /** Every foreign key refers to an existing row. */
  ghost predicate ReferencesIntact(s: DbState)
  {
    && (forall id :: id in s.users ==> s.users[id].activeOrganizationId in s.organizations)
    && (forall id :: id in s.memberships ==> s.memberships[id].organizationId in s.organizations)
    && (forall id :: id in s.memberships && s.memberships[id].userId.Some? ==>
          s.memberships[id].userId.value in s.users)
    && (forall rp :: rp in s.rolePermissions ==> rp.roleId in s.roles && rp.permissionId in s.permissions)
    && (forall mr :: mr in s.membershipRoles ==> mr.membershipId in s.memberships && mr.roleId in s.roles)
  }

  ghost predicate Valid(s: DbState)
  {
    && RowIdsMatch(s)
    && IdsBelowCounters(s)
    && UniqueEmail(s)
    && UniqueUserOrg(s)
    && UniqueOrgEmail(s)
    && UniquePermission(s)
    && UniqueRoleName(s)
    && ReferencesIntact(s)
  }

  lemma EmptyValid()
    ensures Valid(Empty)
  {
  }

  // ---------------------------------------------------------------------------------
  // Constraint checks performed on insert and update
  // ---------------------------------------------------------------------------------

  predicate EmailTaken(s: DbState, email: string)
  {
    exists id :: id in s.users && s.users[id].email == email
  }

  /** An existing row already holds this (userId, organizationId); never for a NULL userId. */
  predicate UserOrgTaken(s: DbState, userId: Option<Id>, organizationId: Id)
  {
    userId.Some? &&
    exists id :: id in s.memberships && s.memberships[id].userId == userId &&
      s.memberships[id].organizationId == organizationId
  }

  /** An existing row already holds this (organizationId, invitedEmail); never for a NULL email. */
  predicate OrgEmailTaken(s: DbState, organizationId: Id, invitedEmail: Option<string>)
  {
    invitedEmail.Some? &&
    exists id :: id in s.memberships && s.memberships[id].invitedEmail == invitedEmail &&
      s.memberships[id].organizationId == organizationId
  }

  predicate PermissionTaken(s: DbState, action: Action, entity: string, access: Access)
  {
    exists id :: id in s.permissions && s.permissions[id].action == action &&
      s.permissions[id].entity == entity && s.permissions[id].access == access
  }

  predicate RoleNameTaken(s: DbState, name: string)
  {
    exists id :: id in s.roles && s.roles[id].name == name
  }

  /** The ids of the roles with this name: some when the name is taken, and never two
      while the name constraint holds. */
  function RolesNamed(s: DbState, name: string): (ids: set<Id>)
    ensures RoleNameTaken(s, name) ==> ids != {}
    ensures Valid(s) ==> forall a, b :: a in ids && b in ids ==> a == b
  {
    var ids := set id | id in s.roles && s.roles[id].name == name;
    assert RoleNameTaken(s, name) ==> var id :| id in s.roles && s.roles[id].name == name; id in ids;
    ids
  }

  /** The id of the role with this name (the one `findFirst` on the name returns). */
  ghost function RoleIdNamed(s: DbState, name: string): (id: Id)
    requires RoleNameTaken(s, name)
    ensures id in s.roles && s.roles[id].name == name
  {
    var id :| id in s.roles && s.roles[id].name == name; id
  }

  /** What the engine raises for an insert into `users`: the unique email first, then the
      active organization's foreign key. */
  function UserInsertError(s: DbState, email: string, activeOrganizationId: Id): Option<Error>
  {
    if EmailTaken(s, email) then Some(DuplicateKey)
    else if activeOrganizationId !in s.organizations then Some(ForeignKeyViolation)
    else None
  }

  /** What the engine raises for an insert into `memberships`: the two unique constraints
      first, then the foreign keys to the organization and the (non-NULL) user. */
  function MembershipInsertError(s: DbState, organizationId: Id, userId: Option<Id>,
                                 invitedEmail: Option<string>): Option<Error>
  {
    if UserOrgTaken(s, userId, organizationId) || OrgEmailTaken(s, organizationId, invitedEmail)
    then Some(DuplicateKey)
    else if organizationId !in s.organizations || (userId.Some? && userId.value !in s.users)
    then Some(ForeignKeyViolation)
    else None
  }

  /** What the engine raises for an insert into `rolePermissions`. */
  function RolePermissionInsertError(s: DbState, link: RolePermission): Option<Error>
  {
    if link in s.rolePermissions then Some(DuplicateKey)
    else if link.roleId !in s.roles || link.permissionId !in s.permissions
    then Some(ForeignKeyViolation)
    else None
  }

  /** What the engine raises for an insert into `membershipRoles`. */
  function MembershipRoleInsertError(s: DbState, link: MembershipRole): Option<Error>
  {
    if link in s.membershipRoles then Some(DuplicateKey)
    else if link.membershipId !in s.memberships || link.roleId !in s.roles
    then Some(ForeignKeyViolation)
    else None
  }

  /** What the engine raises when membership `id` is given `userId`: another row of the
      same organization already held by that user breaks unique(userId, organizationId),
      and the user must exist. */
  function MembershipUserUpdateError(s: DbState, id: Id, userId: Id): Option<Error>
    requires id in s.memberships
  {
    if exists other :: other in s.memberships && other != id &&
         s.memberships[other].userId == Some(userId) &&
         s.memberships[other].organizationId == s.memberships[id].organizationId
    then Some(DuplicateKey)
    else if userId !in s.users then Some(ForeignKeyViolation)
    else None
  }

  // ---------------------------------------------------------------------------------
  // Inserts: the row gets the table's next id and the sequence advances
  // ---------------------------------------------------------------------------------

  function AddOrganization(s: DbState, name: string): DbState
  {
    var id := s.next.organization;
    s.(organizations := s.organizations[id := Organization(id, name)],
       next := s.next.(organization := id + 1))
  }

  function AddUser(s: DbState, name: Option<string>, email: string, activeOrganizationId: Id,
                   globalRole: GlobalRole): DbState
  {
    var id := s.next.user;
    s.(users := s.users[id := User(id, name, email, activeOrganizationId, globalRole)],
       next := s.next.(user := id + 1))
  }

  function AddMembership(s: DbState, organizationId: Id, userId: Option<Id>,
                         invitedName: Option<string>, invitedEmail: Option<string>,
                         now: Timestamp): DbState
  {
    var id := s.next.membership;
    s.(memberships := s.memberships[id := Membership(id, organizationId, userId, invitedName,
                                                     invitedEmail, now, now)],
       next := s.next.(membership := id + 1))
  }

  function AddPermission(s: DbState, action: Action, entity: string, access: Access,
                         description: string): DbState
  {
    var id := s.next.permission;
    s.(permissions := s.permissions[id := Permission(id, action, entity, access, description)],
       next := s.next.(permission := id + 1))
  }

  function AddRole(s: DbState, name: string, description: string): DbState
  {
    var id := s.next.role;
    s.(roles := s.roles[id := Role(id, name, description)], next := s.next.(role := id + 1))
  }

  /** An insert that passes the table's checks keeps every constraint. */
  lemma AddOrganizationValid(s: DbState, name: string)
    requires Valid(s)
    ensures Valid(AddOrganization(s, name))
  {
  }

  lemma AddUserValid(s: DbState, name: Option<string>, email: string, activeOrganizationId: Id,
                     globalRole: GlobalRole)
    requires Valid(s) && UserInsertError(s, email, activeOrganizationId).None?
    ensures Valid(AddUser(s, name, email, activeOrganizationId, globalRole))
  {
  }

  lemma AddMembershipValid(s: DbState, organizationId: Id, userId: Option<Id>,
                           invitedName: Option<string>, invitedEmail: Option<string>,
                           now: Timestamp)
    requires Valid(s) && MembershipInsertError(s, organizationId, userId, invitedEmail).None?
    ensures Valid(AddMembership(s, organizationId, userId, invitedName, invitedEmail, now))
  {
    var t := AddMembership(s, organizationId, userId, invitedName, invitedEmail, now);
    AddMembershipUnique(s, organizationId, userId, invitedName, invitedEmail, now);
    AddMembershipReferences(s, organizationId, userId, invitedName, invitedEmail, now);
    assert RowIdsMatch(t) && IdsBelowCounters(t);
  }

  /** The fresh membership row meets both composite unique keys. */
  lemma AddMembershipUnique(s: DbState, organizationId: Id, userId: Option<Id>,
                            invitedName: Option<string>, invitedEmail: Option<string>,
                            now: Timestamp)
    requires IdsBelowCounters(s) && UniqueUserOrg(s) && UniqueOrgEmail(s)
    requires !UserOrgTaken(s, userId, organizationId) && !OrgEmailTaken(s, organizationId, invitedEmail)
    ensures var t := AddMembership(s, organizationId, userId, invitedName, invitedEmail, now);
      UniqueUserOrg(t) && UniqueOrgEmail(t)
  {
  }

  /** The fresh membership row refers to existing rows, and no link refers to it yet. */
  lemma AddMembershipReferences(s: DbState, organizationId: Id, userId: Option<Id>,
                                invitedName: Option<string>, invitedEmail: Option<string>,
                                now: Timestamp)
    requires IdsBelowCounters(s) && ReferencesIntact(s)
    requires organizationId in s.organizations && (userId.Some? ==> userId.value in s.users)
    ensures ReferencesIntact(AddMembership(s, organizationId, userId, invitedName, invitedEmail, now))
  {
  }

  /** A fresh membership and a link from it to an existing role, inserted one after the
      other, pass their checks and keep every constraint. */
  lemma AddMembershipLinkValid(s: DbState, organizationId: Id, userId: Option<Id>,
                               invitedName: Option<string>, invitedEmail: Option<string>,
                               now: Timestamp, roleId: Id)
    requires Valid(s) && MembershipInsertError(s, organizationId, userId, invitedEmail).None?
    requires roleId in s.roles
    ensures var t := AddMembership(s, organizationId, userId, invitedName, invitedEmail, now);
      var link := MembershipRole(s.next.membership, roleId);
      && Valid(t) && MembershipRoleInsertError(t, link).None?
      && Valid(t.(membershipRoles := t.membershipRoles + {link}))
  {
    AddMembershipValid(s, organizationId, userId, invitedName, invitedEmail, now);
    var t := AddMembership(s, organizationId, userId, invitedName, invitedEmail, now);
    var link := MembershipRole(s.next.membership, roleId);
    assert link !in s.membershipRoles;
    AddMembershipRoleValid(t, link);
  }

  /** A link that passes its insert checks keeps every constraint. */
  lemma AddMembershipRoleValid(s: DbState, link: MembershipRole)
    requires Valid(s) && MembershipRoleInsertError(s, link).None?
    ensures Valid(s.(membershipRoles := s.membershipRoles + {link}))
  {
  }

  lemma AddPermissionValid(s: DbState, action: Action, entity: string, access: Access,
                           description: string)
    requires Valid(s) && !PermissionTaken(s, action, entity, access)
    ensures Valid(AddPermission(s, action, entity, access, description))
  {
  }

  lemma AddRoleValid(s: DbState, name: string, description: string)
    requires Valid(s) && !RoleNameTaken(s, name)
    ensures Valid(AddRole(s, name, description))
  {
    var t := AddRole(s, name, description);
    AddRoleUnique(s, name, description);
    assert ReferencesIntact(t);
    assert RowIdsMatch(t) && IdsBelowCounters(t);
  }

  /** The fresh role's name is not taken by another row. */
  lemma AddRoleUnique(s: DbState, name: string, description: string)
    requires IdsBelowCounters(s) && UniqueRoleName(s) && !RoleNameTaken(s, name)
    ensures UniqueRoleName(AddRole(s, name, description))
  {
  }

  // ---------------------------------------------------------------------------------
  // Updates
  // ---------------------------------------------------------------------------------

  /** Membership `id` now belongs to `userId` and no longer carries invitation details. */
  function SetMembershipUser(s: DbState, id: Id, userId: Id, now: Timestamp): DbState
    requires id in s.memberships
  {
    var m := s.memberships[id];
    s.(memberships := s.memberships[id := m.(userId := Some(userId), invitedName := None,
                                             invitedEmail := None, updatedAt := now)])
  }

  /** User `userId` (if present) now has `organizationId` as its active organization. */
  function SetActiveOrganization(s: DbState, userId: Id, organizationId: Id): DbState
  {
    if userId in s.users then
      s.(users := s.users[userId := s.users[userId].(activeOrganizationId := organizationId)])
    else s
  }

  lemma SetMembershipUserValid(s: DbState, id: Id, userId: Id, now: Timestamp)
    requires Valid(s) && id in s.memberships && MembershipUserUpdateError(s, id, userId).None?
    ensures Valid(SetMembershipUser(s, id, userId, now))
  {
  }

  lemma SetActiveOrganizationValid(s: DbState, userId: Id, organizationId: Id)
    requires Valid(s) && organizationId in s.organizations
    ensures Valid(SetActiveOrganization(s, userId, organizationId))
  {
  }

  // ---------------------------------------------------------------------------------
  // Cascading deletes (Postgres and SQLite schemas)
  // ---------------------------------------------------------------------------------

  /** Deleting memberships takes their role links with them. */
  function RemoveMemberships(s: DbState, ids: set<Id>): (t: DbState)
    ensures Valid(s) ==> Valid(t)
  {
    s.(memberships := s.memberships - ids,
       membershipRoles := (set mr | mr in s.membershipRoles && mr.membershipId !in ids))
  }

  /** Deleting roles takes their permission links and their membership links with them. */
  function RemoveRoles(s: DbState, ids: set<Id>): (t: DbState)
    ensures Valid(s) ==> Valid(t)
  {
    s.(roles := s.roles - ids,
       rolePermissions := (set rp | rp in s.rolePermissions && rp.roleId !in ids),
       membershipRoles := (set mr | mr in s.membershipRoles && mr.roleId !in ids))
  }

  /** Deleting permissions takes their role links with them. */
  function RemovePermissions(s: DbState, ids: set<Id>): (t: DbState)
    ensures Valid(s) ==> Valid(t)
  {
    s.(permissions := s.permissions - ids,
       rolePermissions := (set rp | rp in s.rolePermissions && rp.permissionId !in ids))
  }

  /** The memberships held by the given users. */
  function MembershipsOfUsers(s: DbState, ids: set<Id>): set<Id>
  {
    set m | m in s.memberships && s.memberships[m].userId.Some? &&
      s.memberships[m].userId.value in ids
  }

  /** The memberships in the given organizations. */
  function MembershipsOfOrganizations(s: DbState, ids: set<Id>): set<Id>
  {
    set m | m in s.memberships && s.memberships[m].organizationId in ids
  }

  /** Deleting users takes their memberships (and those memberships' role links) with them. */
  function RemoveUsers(s: DbState, ids: set<Id>): (t: DbState)
    ensures Valid(s) ==> Valid(t)
  {
    var u := RemoveMemberships(s, MembershipsOfUsers(s, ids));
    u.(users := u.users - ids)
  }

  /** Some user has one of these organizations as its active organization. That foreign key
      cascades on update only, so such an organization cannot be deleted. */
  predicate ActiveOrganizationInUse(s: DbState, ids: set<Id>)
  {
    exists u :: u in s.users && s.users[u].activeOrganizationId in ids
  }

  /** Deleting organizations that no user has active takes their memberships with them;
      users are never deleted by it. */
  function RemoveOrganizations(s: DbState, ids: set<Id>): (t: DbState)
    requires !ActiveOrganizationInUse(s, ids)
    ensures Valid(s) ==> Valid(t)
    ensures t.users == s.users
  {
    var u := RemoveMemberships(s, MembershipsOfOrganizations(s, ids));
    u.(organizations := u.organizations - ids)
  }

  // ---------------------------------------------------------------------------------
  // Refused deletes (the dialect-neutral schema declares no onDelete rule)
  // ---------------------------------------------------------------------------------

  datatype Table =
    | MembershipRolesTable | RolePermissionsTable | MembershipsTable | UsersTable
    | OrganizationsTable | RolesTable | PermissionsTable

  /** Some row of another table still refers to a row of `t`. */
  predicate Referenced(s: DbState, t: Table)
  {
    match t
    case MembershipRolesTable => false
    case RolePermissionsTable => false
    case MembershipsTable => exists mr :: mr in s.membershipRoles && mr.membershipId in s.memberships
    case UsersTable =>
      exists m :: m in s.memberships && s.memberships[m].userId.Some? &&
        s.memberships[m].userId.value in s.users
    case OrganizationsTable =>
      (exists u :: u in s.users && s.users[u].activeOrganizationId in s.organizations) ||
      (exists m :: m in s.memberships && s.memberships[m].organizationId in s.organizations)
    case RolesTable =>
      (exists rp :: rp in s.rolePermissions && rp.roleId in s.roles) ||
      (exists mr :: mr in s.membershipRoles && mr.roleId in s.roles)
    case PermissionsTable => exists rp :: rp in s.rolePermissions && rp.permissionId in s.permissions
  }

  /** Empties one table and nothing else. */
  function ClearTable(s: DbState, t: Table): DbState
  {
    match t
    case MembershipRolesTable => s.(membershipRoles := {})
    case RolePermissionsTable => s.(rolePermissions := {})
    case MembershipsTable => s.(memberships := map[])
    case UsersTable => s.(users := map[])
    case OrganizationsTable => s.(organizations := map[])
    case RolesTable => s.(roles := map[])
    case PermissionsTable => s.(permissions := map[])
  }

  /** `DELETE FROM t` without cascades: refused while another row refers into `t`. */
  function RestrictClear(s: DbState, t: Table): (r: Result<DbState>)
    ensures r.Err? <==> Referenced(s, t)
  {
    if Referenced(s, t) then Err(ForeignKeyViolation) else Ok(ClearTable(s, t))
  }

  /** Deleting the tables in order without cascades, stopping at the first refusal. */
  function RestrictClearAll(s: DbState, order: seq<Table>): Result<DbState>
    decreases |order|
  {
    if |order| == 0 then Ok(s)
    else
      match RestrictClear(s, order[0])
      case Err(e) => Err(e)
      case Ok(t) => RestrictClearAll(t, order[1..])
  }

  /** The order in which the seed teardown empties the tables. */
  const TeardownOrder := [MembershipRolesTable, RolePermissionsTable, MembershipsTable,
                          UsersTable, OrganizationsTable, RolesTable, PermissionsTable]

  /** The state with every table empty and the id sequences where they were. */
  function Cleared(s: DbState): DbState
  {
    Empty.(next := s.next)
  }

  /** The teardown order never refers into a table it has already emptied, so even without
      cascades every delete succeeds, whatever the state, and all seven tables end empty. */
  lemma {:induction false} TeardownOrderSucceeds(s: DbState)
    ensures RestrictClearAll(s, TeardownOrder) == Ok(Cleared(s))
  {
    var s1 := ClearTable(s, MembershipRolesTable);
    var s2 := ClearTable(s1, RolePermissionsTable);
    var s3 := ClearTable(s2, MembershipsTable);
    ClearFirst(s, MembershipRolesTable, TeardownOrder[1..]);
    ClearFirst(s1, RolePermissionsTable, TeardownOrder[2..]);
    ClearFirst(s2, MembershipsTable, TeardownOrder[3..]);
    EntityTablesSucceed(s3);
    assert s3.(users := map[], organizations := map[], roles := map[], permissions := map[]) == Cleared(s);
  }

  /** The second half of the teardown: once no membership and no link is left, the users,
      organizations, roles and permissions empty one after the other. */
  lemma {:induction false} EntityTablesSucceed(s: DbState)
    requires s.membershipRoles == {} && s.rolePermissions == {} && s.memberships == map[]
    ensures RestrictClearAll(s, TeardownOrder[3..]) ==
      Ok(s.(users := map[], organizations := map[], roles := map[], permissions := map[]))
  {
    var s4 := ClearTable(s, UsersTable);
    var s5 := ClearTable(s4, OrganizationsTable);
    var s6 := ClearTable(s5, RolesTable);
    var s7 := ClearTable(s6, PermissionsTable);
    ClearFirst(s, UsersTable, TeardownOrder[4..]);
    ClearFirst(s4, OrganizationsTable, TeardownOrder[5..]);
    ClearFirst(s5, RolesTable, TeardownOrder[6..]);
    ClearFirst(s6, PermissionsTable, []);
    assert s7 == s.(users := map[], organizations := map[], roles := map[], permissions := map[]);
  }

  /** A first table nothing refers into is emptied and the rest of the order continues. */
  lemma ClearFirst(s: DbState, t: Table, rest: seq<Table>)
    requires !Referenced(s, t)
    ensures RestrictClearAll(s, [t] + rest) == RestrictClearAll(ClearTable(s, t), rest)
  {
    assert ([t] + rest)[0] == t;
    assert ([t] + rest)[1..] == rest;
  }

  /** Emptying memberships before their role links is refused once some link exists. */
  lemma MembershipsBeforeLinksRefused(s: DbState, mr: MembershipRole)
    requires Valid(s) && mr in s.membershipRoles
    ensures RestrictClear(s, MembershipsTable).Err?
  {
  }

  /** The links of one membership. */
  function LinksOf(s: DbState, membershipId: Id): set<MembershipRole>
  {
    set mr | mr in s.membershipRoles && mr.membershipId == membershipId
  }

  /** Removing a membership's links first, then the row, needs no cascade and ends in the
      same state as the cascading delete; deleting the row while it has links is refused by
      the dialect-neutral schema. */
  lemma {:induction false} LinksFirstMatchesCascade(s: DbState, id: Id)
    ensures var unlinked := s.(membershipRoles := s.membershipRoles - LinksOf(s, id));
      && (forall mr :: mr in unlinked.membershipRoles ==> mr.membershipId != id)
      && unlinked.(memberships := unlinked.memberships - {id}) == RemoveMemberships(s, {id})
  {
    var unlinked := s.(membershipRoles := s.membershipRoles - LinksOf(s, id));
    assert unlinked.membershipRoles == set mr | mr in s.membershipRoles && mr.membershipId !in {id};
  }
}
