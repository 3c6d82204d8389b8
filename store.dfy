/** The database handle the operations write through (`db`, or the transaction `tx` handed
    to them). Its fields are the seven tables and the id sequences; each method is one SQL
    statement and enforces the constraints the schema declares, leaving the tables as they
    were when it refuses the statement. */
module Store {
  import opened Results
  import opened Schema

  class Database {
    var organizations: map<Id, Organization>
    var users: map<Id, User>
    var memberships: map<Id, Membership>
    var permissions: map<Id, Permission>
    var roles: map<Id, Role>
    var rolePermissions: set<RolePermission>
    var membershipRoles: set<MembershipRole>
    var next: Counters

    /** The tables as one value. */
    function State(): DbState
      reads this
    {
      DbState(organizations, users, memberships, permissions, roles, rolePermissions,
              membershipRoles, next)
    }

    ghost predicate Valid()
      reads this
    {
      Schema.Valid(State())
    }

    /** A freshly migrated, empty database. */
    constructor ()
      ensures State() == Empty && Valid()
    {
      organizations, users, memberships, permissions, roles := map[], map[], map[], map[], map[];
      rolePermissions, membershipRoles := {}, {};
      next := Counters(1, 1, 1, 1, 1);
    }

    /** Rolling a transaction back: every table returns to the snapshot taken at its start. */
    method Restore(snapshot: DbState)
      requires Schema.Valid(snapshot)
      modifies this
      ensures State() == snapshot && Valid()
    {
      organizations, users, memberships := snapshot.organizations, snapshot.users, snapshot.memberships;
      permissions, roles := snapshot.permissions, snapshot.roles;
      rolePermissions, membershipRoles := snapshot.rolePermissions, snapshot.membershipRoles;
      next := snapshot.next;
    }

    // -------------------------------------------------------------------------------
    // INSERT … RETURNING
    // -------------------------------------------------------------------------------

    /** Organization names carry no constraint, so this insert always succeeds. */
    method InsertOrganization(name: string) returns (org: Organization)
      requires Valid()
      modifies this
      ensures Valid()
      ensures org == Organization(old(next.organization), name) && org.id !in old(organizations)
      ensures State() == AddOrganization(old(State()), name)
    {
      AddOrganizationValid(State(), name);
      ghost var t := AddOrganization(State(), name);
      org := Organization(next.organization, name);
      organizations, next := organizations[org.id := org], next.(organization := org.id + 1);
      assert State() == t;
    }

    method InsertUser(name: Option<string>, email: string, activeOrganizationId: Id,
                      globalRole: GlobalRole) returns (r: Result<User>)
      requires Valid()
      modifies this
      ensures Valid()
      ensures var e := UserInsertError(old(State()), email, activeOrganizationId);
        if e.Some? then r == Err(e.value) && State() == old(State())
        else
          && r == Ok(User(old(next.user), name, email, activeOrganizationId, globalRole))
          && r.value.id !in old(users)
          && State() == AddUser(old(State()), name, email, activeOrganizationId, globalRole)
    {
      var e := UserInsertError(State(), email, activeOrganizationId);
      if e.Some? {
        return Err(e.value);
      }
      AddUserValid(State(), name, email, activeOrganizationId, globalRole);
      ghost var t := AddUser(State(), name, email, activeOrganizationId, globalRole);
      var u := User(next.user, name, email, activeOrganizationId, globalRole);
      users, next := users[u.id := u], next.(user := u.id + 1);
      assert State() == t;
      r := Ok(u);
    }

    method InsertMembership(organizationId: Id, userId: Option<Id>, invitedName: Option<string>,
                            invitedEmail: Option<string>, now: Timestamp)
      returns (r: Result<Membership>)
      requires Valid()
      modifies this
      ensures Valid()
      ensures var e := MembershipInsertError(old(State()), organizationId, userId, invitedEmail);
        if e.Some? then r == Err(e.value) && State() == old(State())
        else
          && r == Ok(Membership(old(next.membership), organizationId, userId, invitedName,
                                invitedEmail, now, now))
          && r.value.id !in old(memberships)
          && State() == AddMembership(old(State()), organizationId, userId, invitedName,
                                      invitedEmail, now)
    {
      var e := MembershipInsertError(State(), organizationId, userId, invitedEmail);
      if e.Some? {
        return Err(e.value);
      }
      AddMembershipValid(State(), organizationId, userId, invitedName, invitedEmail, now);
      ghost var t := AddMembership(State(), organizationId, userId, invitedName, invitedEmail, now);
      var m := Membership(next.membership, organizationId, userId, invitedName, invitedEmail, now, now);
      memberships, next := memberships[m.id := m], next.(membership := m.id + 1);
      assert State() == t;
      r := Ok(m);
    }

    method InsertPermission(action: Action, entity: string, access: Access, description: string)
      returns (r: Result<Permission>)
      requires Valid()
      modifies this
      ensures Valid()
      ensures if PermissionTaken(old(State()), action, entity, access)
        then r == Err(DuplicateKey) && State() == old(State())
        else
          && r == Ok(Permission(old(next.permission), action, entity, access, description))
          && r.value.id !in old(permissions)
          && State() == AddPermission(old(State()), action, entity, access, description)
    {
      if PermissionTaken(State(), action, entity, access) {
        return Err(DuplicateKey);
      }
      AddPermissionValid(State(), action, entity, access, description);
      ghost var t := AddPermission(State(), action, entity, access, description);
      var p := Permission(next.permission, action, entity, access, description);
      permissions, next := permissions[p.id := p], next.(permission := p.id + 1);
      assert State() == t;
      r := Ok(p);
    }

    method InsertRole(name: string, description: string) returns (r: Result<Role>)
      requires Valid()
      modifies this
      ensures Valid()
      ensures if RoleNameTaken(old(State()), name)
        then r == Err(DuplicateKey) && State() == old(State())
        else
          && r == Ok(Role(old(next.role), name, description))
          && r.value.id !in old(roles)
          && State() == AddRole(old(State()), name, description)
    {
      if RoleNameTaken(State(), name) {
        return Err(DuplicateKey);
      }
      AddRoleValid(State(), name, description);
      ghost var t := AddRole(State(), name, description);
      var role := Role(next.role, name, description);
      roles, next := roles[role.id := role], next.(role := role.id + 1);
      assert State() == t;
      r := Ok(role);
    }

    method InsertRolePermission(link: RolePermission) returns (r: Result<RolePermission>)
      requires Valid()
      modifies this
      ensures Valid()
      ensures var e := RolePermissionInsertError(old(State()), link);
        if e.Some? then r == Err(e.value) && State() == old(State())
        else r == Ok(link) && State() == old(State()).(rolePermissions := old(rolePermissions) + {link})
    {
      var e := RolePermissionInsertError(State(), link);
      if e.Some? {
        return Err(e.value);
      }
      rolePermissions := rolePermissions + {link};
      r := Ok(link);
    }

    method InsertMembershipRole(link: MembershipRole) returns (r: Result<MembershipRole>)
      requires Valid()
      modifies this
      ensures Valid()
      ensures var e := MembershipRoleInsertError(old(State()), link);
        if e.Some? then r == Err(e.value) && State() == old(State())
        else r == Ok(link) && State() == old(State()).(membershipRoles := old(membershipRoles) + {link})
    {
      var e := MembershipRoleInsertError(State(), link);
      if e.Some? {
        return Err(e.value);
      }
      membershipRoles := membershipRoles + {link};
      r := Ok(link);
    }

    // -------------------------------------------------------------------------------
    // UPDATE … WHERE id = …
    // -------------------------------------------------------------------------------

    /** Sets `userId` on an existing membership and clears its invitation columns. */
    method UpdateMembershipUser(id: Id, userId: Id, now: Timestamp) returns (r: Result<Membership>)
      requires Valid() && id in memberships
      modifies this
      ensures Valid()
      ensures var e := MembershipUserUpdateError(old(State()), id, userId);
        if e.Some? then r == Err(e.value) && State() == old(State())
        else
          && State() == SetMembershipUser(old(State()), id, userId, now)
          && r == Ok(memberships[id])
    {
      var e := MembershipUserUpdateError(State(), id, userId);
      if e.Some? {
        return Err(e.value);
      }
      SetMembershipUserValid(State(), id, userId, now);
      ghost var t := SetMembershipUser(State(), id, userId, now);
      var m := memberships[id].(userId := Some(userId), invitedName := None, invitedEmail := None,
                                updatedAt := now);
      memberships := memberships[id := m];
      assert State() == t;
      r := Ok(m);
    }

    /** Sets the active organization of user `userId`; no row changes when there is none. */
    method UpdateActiveOrganization(userId: Id, organizationId: Id) returns (r: Result<()>)
      requires Valid()
      modifies this
      ensures Valid()
      ensures if userId in old(users) && organizationId !in old(organizations)
        then r == Err(ForeignKeyViolation) && State() == old(State())
        else r == Ok(()) && State() == SetActiveOrganization(old(State()), userId, organizationId)
    {
      if userId in users && organizationId !in organizations {
        return Err(ForeignKeyViolation);
      }
      if userId in users {
        SetActiveOrganizationValid(State(), userId, organizationId);
        ghost var t := SetActiveOrganization(State(), userId, organizationId);
        users := users[userId := users[userId].(activeOrganizationId := organizationId)];
        assert State() == t;
      }
      r := Ok(());
    }

    // -------------------------------------------------------------------------------
    // DELETE … WHERE …, with the Postgres and SQLite cascades
    // -------------------------------------------------------------------------------

    method DeleteMembershipRoles(links: set<MembershipRole>)
      requires Valid()
      modifies this
      ensures Valid()
      ensures State() == old(State()).(membershipRoles := old(membershipRoles) - links)
    {
      membershipRoles := membershipRoles - links;
    }

    method DeleteRolePermissions(links: set<RolePermission>)
      requires Valid()
      modifies this
      ensures Valid()
      ensures State() == old(State()).(rolePermissions := old(rolePermissions) - links)
    {
      rolePermissions := rolePermissions - links;
    }

    method DeleteMemberships(ids: set<Id>)
      requires Valid()
      modifies this
      ensures Valid()
      ensures State() == RemoveMemberships(old(State()), ids)
    {
      var t := RemoveMemberships(State(), ids);
      memberships, membershipRoles := t.memberships, t.membershipRoles;
      assert State() == t;
    }

    method DeleteRoles(ids: set<Id>)
      requires Valid()
      modifies this
      ensures Valid()
      ensures State() == RemoveRoles(old(State()), ids)
    {
      var t := RemoveRoles(State(), ids);
      roles, rolePermissions, membershipRoles := t.roles, t.rolePermissions, t.membershipRoles;
      assert State() == t;
    }

    method DeletePermissions(ids: set<Id>)
      requires Valid()
      modifies this
      ensures Valid()
      ensures State() == RemovePermissions(old(State()), ids)
    {
      var t := RemovePermissions(State(), ids);
      permissions, rolePermissions := t.permissions, t.rolePermissions;
      assert State() == t;
    }

    method DeleteUsers(ids: set<Id>)
      requires Valid()
      modifies this
      ensures Valid()
      ensures State() == RemoveUsers(old(State()), ids)
    {
      var t := RemoveUsers(State(), ids);
      users, memberships, membershipRoles := t.users, t.memberships, t.membershipRoles;
      assert State() == t;
    }

    /** Refused while a user still has one of these organizations active. */
    method DeleteOrganizations(ids: set<Id>) returns (r: Result<()>)
      requires Valid()
      modifies this
      ensures Valid()
      ensures if ActiveOrganizationInUse(old(State()), ids)
        then r == Err(ForeignKeyViolation) && State() == old(State())
        else r == Ok(()) && State() == RemoveOrganizations(old(State()), ids)
    {
      if ActiveOrganizationInUse(State(), ids) {
        return Err(ForeignKeyViolation);
      }
      var t := RemoveOrganizations(State(), ids);
      organizations, memberships, membershipRoles := t.organizations, t.memberships, t.membershipRoles;
      assert State() == t;
      r := Ok(());
    }
  }
}
