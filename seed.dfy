/** The seed script's steps as they run against the database: loops that look each row
    up, reuse it when it exists and insert it otherwise, each proved to leave the state the
    matching function of `SeedPlan` describes. */
module Seed {
  import opened Results
  import opened Schema
  import opened Store
  import Permissions
  import opened SeedPlan

  /** One pass of `createDefaultRoles`' loop: the role found by name, or inserted. */
  method FindOrCreateRole(db: Database, role: RoleSpec) returns (row: Option<Role>)
    requires db.Valid()
    modifies db
    ensures db.Valid()
    ensures row == Some(EnsureRole(old(db.State()), role).1)
    ensures db.State() == EnsureRole(old(db.State()), role).0
  {
    if RoleNameTaken(db.State(), role.name) {
      var id :| id in db.roles && db.roles[id].name == role.name;
      assert id == RoleIdNamed(db.State(), role.name);
      row := Some(db.roles[id]);
    } else {
      var inserted := db.InsertRole(role.name, role.description);
      row := if inserted.Ok? then Some(inserted.value) else None;
    }
  }

  /** `createDefaultRoles`: OWNER, ADMIN and MEMBER, each found by name or inserted. */
  method CreateDefaultRoles(db: Database) returns (createdRoles: seq<Role>)
    requires db.Valid()
    modifies db
    ensures db.Valid()
    ensures (db.State(), createdRoles) == EnsureRoles(old(db.State()), DefaultRoles)
  {
    ghost var s0 := db.State();
    createdRoles := [];
    for i := 0 to |DefaultRoles|
      invariant db.Valid()
      invariant (db.State(), createdRoles) == EnsureRoles(s0, DefaultRoles[..i])
    {
      assert DefaultRoles[..i + 1][..i] == DefaultRoles[..i];
      var row := FindOrCreateRole(db, DefaultRoles[i]);
      if row.Some? {
        createdRoles := createdRoles + [row.value];
      }
    }
    assert DefaultRoles[..|DefaultRoles|] == DefaultRoles;
  }

  /** One pass of `createEntityPermissions`' inner loop that is not skipped: the
      permission found by (action, entity, access), or inserted with the description
      `<action> <access> <entity>`. */
  method FindOrCreatePermission(db: Database, spec: PermissionSpec) returns (row: Option<Permission>)
    requires db.Valid()
    modifies db
    ensures db.Valid()
    ensures row == Some(EnsurePermission(old(db.State()), spec).1)
    ensures db.State() == EnsurePermission(old(db.State()), spec).0
  {
    if PermissionTaken(db.State(), spec.action, spec.entity, spec.access) {
      var id :| id in db.permissions && db.permissions[id].action == spec.action &&
        db.permissions[id].entity == spec.entity && db.permissions[id].access == spec.access;
      assert id == PermissionIdFor(db.State(), spec);
      row := Some(db.permissions[id]);
    } else {
      var inserted := db.InsertPermission(spec.action, spec.entity, spec.access,
                                          Permissions.PermissionDescription(spec.action, spec.access, spec.entity));
      row := if inserted.Ok? then Some(inserted.value) else None;
    }
  }

  /** One pass of `createEntityPermissions`' inner loop: create-own and delete-own are
      skipped, any other pair is found or created. */
  method CreateAccessPermission(db: Database, entity: string, action: Action, access: Access)
    returns (created: seq<Permission>)
    requires db.Valid()
    modifies db
    ensures db.Valid()
    ensures db.State() == EnsurePermissions(old(db.State()), SpecsForAction(entity, action, [access])).0
    ensures created == EnsurePermissions(old(db.State()), SpecsForAction(entity, action, [access])).1
  {
    SpecsForOneAccess(entity, action, access);
    created := [];
    if (action == Create || action == Delete) && access == Own {
      return;
    }
    var spec := PermissionSpec(action, entity, access);
    EnsureOnePermission(db.State(), spec);
    var row := FindOrCreatePermission(db, spec);
    if row.Some? {
      created := [row.value];
    }
  }

  lemma SpecsForOneAccess(entity: string, action: Action, access: Access)
    ensures SpecsForAction(entity, action, [access]) ==
      if Skipped(action, access) then [] else [PermissionSpec(action, entity, access)]
  {
    assert [access][..0] == [];
  }

  lemma EnsureOnePermission(s: DbState, spec: PermissionSpec)
    ensures EnsurePermissions(s, [spec]) == (EnsurePermission(s, spec).0, [EnsurePermission(s, spec).1])
  {
    assert [spec][..0] == [];
    assert EnsurePermissions(s, []) == (s, []);
    assert [] + [EnsurePermission(s, spec).1] == [EnsurePermission(s, spec).1];
  }

  /** The inner loop of `createEntityPermissions` for one action, over its access levels
      in order. */
  method CreateActionPermissions(db: Database, entity: string, action: Action, levels: seq<Access>)
    returns (createdPermissions: seq<Permission>)
    requires db.Valid()
    modifies db
    ensures db.Valid()
    ensures db.State() == EnsurePermissions(old(db.State()), SpecsForAction(entity, action, levels)).0
    ensures createdPermissions == EnsurePermissions(old(db.State()), SpecsForAction(entity, action, levels)).1
  {
    ghost var s0 := db.State();
    createdPermissions := [];
    for j := 0 to |levels|
      invariant db.Valid()
      invariant db.State() == EnsurePermissions(s0, SpecsForAction(entity, action, levels[..j])).0
      invariant createdPermissions == EnsurePermissions(s0, SpecsForAction(entity, action, levels[..j])).1
    {
      ghost var before := SpecsForAction(entity, action, levels[..j]);
      ghost var more := SpecsForAction(entity, action, [levels[j]]);
      ghost var mid := db.State();
      var forAccess := CreateAccessPermission(db, entity, action, levels[j]);
      EnsurePermissionsThen(s0, before, more, mid, createdPermissions, db.State(), forAccess);
      SpecsForActionSnoc(entity, action, levels, j);
      createdPermissions := createdPermissions + forAccess;
    }
    assert levels[..|levels|] == levels;
  }

  /** Running `before` and then `more` from where it stopped is running `before + more`. */
  lemma EnsurePermissionsThen(s0: DbState, before: seq<PermissionSpec>, more: seq<PermissionSpec>,
                              mid: DbState, rows: seq<Permission>, last: DbState, moreRows: seq<Permission>)
    requires (mid, rows) == EnsurePermissions(s0, before)
    requires (last, moreRows) == EnsurePermissions(mid, more)
    ensures (last, rows + moreRows) == EnsurePermissions(s0, before + more)
  {
    EnsurePermissionsAppend(s0, before, more);
  }

  /** `createEntityPermissions(entity)`: every action in order, each over own and any. */
  method CreateEntityPermissions(db: Database, entity: string) returns (createdPermissions: seq<Permission>)
    requires db.Valid()
    modifies db
    ensures db.Valid()
    ensures db.State() == EnsurePermissions(old(db.State()), EntitySpecs(entity)).0
    ensures createdPermissions == EnsurePermissions(old(db.State()), EntitySpecs(entity)).1
  {
    ghost var s0 := db.State();
    createdPermissions := [];
    for i := 0 to |Actions|
      invariant db.Valid()
      invariant db.State() == EnsurePermissions(s0, SpecsForActions(entity, Actions[..i], AccessLevels)).0
      invariant createdPermissions == EnsurePermissions(s0, SpecsForActions(entity, Actions[..i], AccessLevels)).1
    {
      ghost var before := SpecsForActions(entity, Actions[..i], AccessLevels);
      ghost var more := SpecsForAction(entity, Actions[i], AccessLevels);
      ghost var mid := db.State();
      var forAction := CreateActionPermissions(db, entity, Actions[i], AccessLevels);
      EnsurePermissionsThen(s0, before, more, mid, createdPermissions, db.State(), forAction);
      SpecsForActionsSnoc(entity, Actions, AccessLevels, i);
      createdPermissions := createdPermissions + forAction;
    }
    assert Actions[..|Actions|] == Actions;
  }

  /** `createDefaultPermissions`: the permissions of user, organization, membership and role,
      concatenated in that order. */
  method CreateDefaultPermissions(db: Database) returns (allPermissions: seq<Permission>)
    requires db.Valid()
    modifies db
    ensures db.Valid()
    ensures db.State() == EnsurePermissions(old(db.State()), DefaultPermissionPlan).0
    ensures allPermissions == EnsurePermissions(old(db.State()), DefaultPermissionPlan).1
  {
    ghost var s0 := db.State();
    allPermissions := [];
    for i := 0 to |Entities|
      invariant db.Valid()
      invariant db.State() == EnsurePermissions(s0, SpecsForEntities(Entities[..i])).0
      invariant allPermissions == EnsurePermissions(s0, SpecsForEntities(Entities[..i])).1
    {
      ghost var before := SpecsForEntities(Entities[..i]);
      ghost var more := EntitySpecs(Entities[i]);
      ghost var mid := db.State();
      var entityPermissions := CreateEntityPermissions(db, Entities[i]);
      EnsurePermissionsThen(s0, before, more, mid, allPermissions, db.State(), entityPermissions);
      SpecsForEntitiesSnoc(Entities, i);
      allPermissions := allPermissions + entityPermissions;
    }
    DefaultPermissionsAsPlanned(s0, Entities[..|Entities|]);
  }

  /** The loop over every entity runs the default plan. */
  lemma DefaultPermissionsAsPlanned(s0: DbState, entities: seq<string>)
    requires entities == Entities
    ensures EnsurePermissions(s0, SpecsForEntities(entities)) == EnsurePermissions(s0, DefaultPermissionPlan)
  {
    DefaultPermissionSpecsExact();
  }

  /** The innermost loop of `createRolePermissions` for one role and action: every access
      level whose permission is found gives one value, the others are logged and skipped. */
  method PlanAccessLinks(role: Role, action: Action, levels: seq<Access>, permissions: seq<Permission>)
    returns (values: seq<RolePermission>)
    ensures values == LinksForAccess(role, action, levels, permissions)
  {
    values := [];
    for c := 0 to |levels|
      invariant values == LinksForAccess(role, action, levels[..c], permissions)
    {
      LinksForAccessSnoc(role, action, levels, permissions, c);
      var permission := FindPermission(permissions, action, levels[c]);
      if permission.None? {
        continue;
      }
      values := values + [RolePermission(role.id, permission.value.id)];
    }
    assert levels[..|levels|] == levels;
  }

  /** The loop over a found grant's actions. */
  method PlanGrantLinks(role: Role, grant: Grant, permissions: seq<Permission>)
    returns (values: seq<RolePermission>)
    ensures values == LinksForActions(role, grant.actions, grant.access, permissions)
  {
    values := [];
    for a := 0 to |grant.actions|
      invariant values == LinksForActions(role, grant.actions[..a], grant.access, permissions)
    {
      LinksForActionsSnoc(role, grant.actions, grant.access, permissions, a);
      var links := PlanAccessLinks(role, grant.actions[a], grant.access, permissions);
      values := values + links;
    }
    assert grant.actions[..|grant.actions|] == grant.actions;
  }

  /** The loops of `createRolePermissions` that build `rolePermissionValues`: a grant whose
      role is missing, or an (action, access) pair whose permission is missing, is logged
      and skipped. */
  method PlanRolePermissions(roles: seq<Role>, permissions: seq<Permission>)
    returns (values: seq<RolePermission>)
    ensures values == LinksForGrants(roles, permissions, DefaultGrants)
  {
    values := [];
    for g := 0 to |DefaultGrants|
      invariant values == LinksForGrants(roles, permissions, DefaultGrants[..g])
    {
      var grant := DefaultGrants[g];
      assert DefaultGrants[..g + 1][..g] == DefaultGrants[..g];
      var role := FindRole(roles, grant.roleName);
      if role.None? {
        continue;
      }
      var links := PlanGrantLinks(role.value, grant, permissions);
      values := values + links;
    }
    assert DefaultGrants[..|DefaultGrants|] == DefaultGrants;
  }

  /** An error at some value is the error of the whole run. */
  lemma {:induction false} InsertLinksErrorSticks(s: DbState, vs: seq<RolePermission>, k: nat)
    requires k <= |vs| && InsertLinks(s, vs[..k]).Err?
    ensures InsertLinks(s, vs) == InsertLinks(s, vs[..k])
    decreases |vs| - k
  {
    if k < |vs| {
      assert vs[..k + 1][..k] == vs[..k];
      InsertLinksErrorSticks(s, vs, k + 1);
    } else {
      assert vs[..k] == vs;
    }
  }

  /** The body of the link transaction: each value is looked up and inserted when missing;
      the first failing insert ends the body with its error. */
  method InsertRolePermissionsInTransaction(tx: Database, values: seq<RolePermission>) returns (r: Result<()>)
    requires tx.Valid()
    modifies tx
    ensures tx.Valid()
    ensures match InsertLinks(old(tx.State()), values)
      case Ok(t) => r == Ok(()) && tx.State() == t
      case Err(e) => r == Err(e)
  {
    ghost var s0 := tx.State();
    for i := 0 to |values|
      invariant tx.Valid()
      invariant InsertLinks(s0, values[..i]) == Ok(tx.State())
    {
      assert values[..i + 1][..i] == values[..i];
      var value := values[i];
      if value !in tx.rolePermissions {
        var inserted := tx.InsertRolePermission(value);
        if inserted.Err? {
          InsertLinksErrorSticks(s0, values, i + 1);
          return Err(inserted.error);
        }
      }
    }
    assert values[..|values|] == values;
    return Ok(());
  }

  /** `createRolePermissions`: plan the values, then insert them in one transaction that
      rolls back on error; the error is logged and not rethrown. */
  method CreateRolePermissions(db: Database, roles: seq<Role>, permissions: seq<Permission>)
    requires db.Valid()
    modifies db
    ensures db.Valid()
    ensures db.State() == CreateLinksState(old(db.State()), LinksForGrants(roles, permissions, DefaultGrants))
  {
    var values := PlanRolePermissions(roles, permissions);
    if |values| > 0 {
      var snapshot := db.State();
      var r := InsertRolePermissionsInTransaction(db, values);
      if r.Err? {
        db.Restore(snapshot);
      }
    }
  }

  /** `seed()`: roles, permissions, then the links between them. */
  method Seed(db: Database)
    requires db.Valid()
    modifies db
    ensures db.Valid()
    ensures db.State() == SeedState(old(db.State()))
  {
    var roles := CreateDefaultRoles(db);
    var permissions := CreateDefaultPermissions(db);
    CreateRolePermissions(db, roles, permissions);
  }

  /** The first four deletes of `teardown()`: the two link tables, memberships, users. */
  method DeleteLinksAndMembers(db: Database)
    requires db.Valid()
    modifies db
    ensures db.Valid()
    ensures db.State() ==
      old(db.State()).(membershipRoles := {}, rolePermissions := {}, memberships := map[], users := map[])
  {
    db.DeleteMembershipRoles(db.membershipRoles);
    db.DeleteRolePermissions(db.rolePermissions);
    db.DeleteMemberships(db.memberships.Keys);
    db.DeleteUsers(db.users.Keys);
    assert db.memberships == map[] && db.users == map[];
  }

  /** The last three deletes of `teardown()`: organizations, roles, permissions. With no
      user left, no organization is anyone's active one, so none is refused. */
  method DeleteOrganizationsAndCatalog(db: Database) returns (r: Result<()>)
    requires db.Valid() && db.users == map[] && db.memberships == map[]
    requires db.membershipRoles == {} && db.rolePermissions == {}
    modifies db
    ensures db.Valid()
    ensures r == Ok(())
    ensures db.State() == old(db.State()).(organizations := map[], roles := map[], permissions := map[])
  {
    ghost var s0 := db.State();
    RemoveAllOrganizations(s0);
    var deleted := db.DeleteOrganizations(db.organizations.Keys);
    if deleted.Err? {
      assert false;
    }
    ghost var s1 := db.State();
    RemoveAllRoles(s1);
    db.DeleteRoles(db.roles.Keys);
    ghost var s2 := db.State();
    RemoveAllPermissions(s2);
    db.DeletePermissions(db.permissions.Keys);
    r := Ok(());
  }

  /** With no user, membership or link left, deleting every organization empties that table
      and nothing else. */
  lemma RemoveAllOrganizations(s: DbState)
    requires s.users == map[] && s.memberships == map[] && s.membershipRoles == {}
    ensures !ActiveOrganizationInUse(s, s.organizations.Keys)
    ensures RemoveOrganizations(s, s.organizations.Keys) == s.(organizations := map[])
  {
    assert MembershipsOfOrganizations(s, s.organizations.Keys) == {};
    assert (set mr | mr in s.membershipRoles && mr.membershipId !in {}) == {};
    assert s.organizations - s.organizations.Keys == map[];
  }

  /** With no link left, deleting every role empties that table and nothing else. */
  lemma RemoveAllRoles(s: DbState)
    requires s.membershipRoles == {} && s.rolePermissions == {}
    ensures RemoveRoles(s, s.roles.Keys) == s.(roles := map[])
  {
    assert (set rp | rp in s.rolePermissions && rp.roleId !in s.roles.Keys) == {};
    assert (set mr | mr in s.membershipRoles && mr.roleId !in s.roles.Keys) == {};
    assert s.roles - s.roles.Keys == map[];
  }

  /** With no link left, deleting every permission empties that table and nothing else. */
  lemma RemoveAllPermissions(s: DbState)
    requires s.rolePermissions == {}
    ensures RemovePermissions(s, s.permissions.Keys) == s.(permissions := map[])
  {
    assert (set rp | rp in s.rolePermissions && rp.permissionId !in s.permissions.Keys) == {};
    assert s.permissions - s.permissions.Keys == map[];
  }

  /** `teardown()`: the seven tables emptied in dependency order inside one transaction. No
      delete in this order is refused, so the transaction always commits; the same order
      also succeeds where deletes do not cascade. */
  method Teardown(db: Database) returns (r: Result<()>)
    requires db.Valid()
    modifies db
    ensures db.Valid()
    ensures r == Ok(())
    ensures db.State() == Cleared(old(db.State()))
    ensures RestrictClearAll(old(db.State()), TeardownOrder) == Ok(db.State())
  {
    ghost var s0 := db.State();
    DeleteLinksAndMembers(db);
    r := DeleteOrganizationsAndCatalog(db);
    TeardownOrderSucceeds(s0);
  }
}
