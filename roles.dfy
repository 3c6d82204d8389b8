/** The role registry: creating a role and deleting one by name. */
module Roles {
  import opened Results
  import opened Schema
  import opened Store

  /** The stored description: the given one, or `Role for <name>` when it is omitted or
      empty (JavaScript's `||` treats "" as absent). */
  function RoleDescription(name: string, description: Option<string>): (d: string)
    ensures d != ""
    ensures description.Some? && description.value != "" ==> d == description.value
    ensures description.None? || description.value == "" ==> d == "Role for " + name
  {
    if description.Some? && description.value != "" then description.value else "Role for " + name
  }

  /** Inserts one role with a fresh id and returns that id; a taken name is refused by the
      unique constraint and nothing is inserted. */
  method CreateRole(db: Database, name: string, description: Option<string>) returns (r: Result<Id>)
    requires db.Valid()
    modifies db
    ensures db.Valid()
    ensures r.Err? <==> RoleNameTaken(old(db.State()), name)
    ensures r.Err? ==> r.error == DuplicateKey && db.State() == old(db.State())
    ensures r.Ok? ==>
      && r.value !in old(db.roles)
      && db.roles == old(db.roles)[r.value := Role(r.value, name, RoleDescription(name, description))]
      && db.State() == AddRole(old(db.State()), name, RoleDescription(name, description))
  {
    var inserted := db.InsertRole(name, RoleDescription(name, description));
    match inserted
    case Err(e) => r := Err(e);
    case Ok(role) => r := Ok(role.id);
  }

  /** Deletes the role with this name; its permission links and its membership links go
      with it (the cascades of the Postgres schema). An unknown name fails and changes
      nothing. */
  method DeleteRole(db: Database, roleName: string) returns (r: Result<()>)
    requires db.Valid()
    modifies db
    ensures db.Valid()
    ensures r.Err? <==> !RoleNameTaken(old(db.State()), roleName)
    ensures r.Err? ==> r.error == RoleNotFound(roleName) && db.State() == old(db.State())
    ensures r.Ok? ==> db.State() == RemoveRoles(old(db.State()), RolesNamed(old(db.State()), roleName))
  {
    var named := RolesNamed(db.State(), roleName);
    if !RoleNameTaken(db.State(), roleName) {
      return Err(RoleNotFound(roleName));
    }
    var id :| id in db.roles && db.roles[id].name == roleName;
    assert id in named;
    assert named == {id};
    db.DeleteRoles({id});
    r := Ok(());
  }

  /** Deleting a role by name removes that role only: every other role, every permission
      and every membership stays, the name becomes free, and no link refers to a deleted
      role. */
  lemma DeleteRoleRemovesOnlyThatRole(s: DbState, roleName: string)
    requires Valid(s)
    ensures var t := RemoveRoles(s, RolesNamed(s, roleName));
      && !RoleNameTaken(t, roleName)
      && (forall id :: id in s.roles && s.roles[id].name != roleName ==> id in t.roles && t.roles[id] == s.roles[id])
      && t.permissions == s.permissions && t.memberships == s.memberships && t.users == s.users
      && (forall mr :: mr in t.membershipRoles ==> mr in s.membershipRoles && s.roles[mr.roleId].name != roleName)
      && (forall rp :: rp in t.rolePermissions ==> rp in s.rolePermissions && s.roles[rp.roleId].name != roleName)
  {
  }
}
