/** Organization-scoped authorisation: the permission-string grammar
    `action:entity[:access[,access…]]`, the permission and role checks of a user within one
    organization, and the permission registry. */
module Permissions {
  import opened Results
  import opened Schema
  import opened Store
  import Text

  // ---------------------------------------------------------------------------------
  // The permission-string grammar
  // ---------------------------------------------------------------------------------

  /** `entity` is absent when the string has no colon; `access` is absent when the third
      segment is missing or empty, and otherwise is that segment split on commas. */
  datatype ParsedPermission = ParsedPermission(
    action: string, entity: Option<string>, access: Option<seq<string>>)

  function ParsePermissionString(permissionString: string): ParsedPermission
  {
    var parts := Text.Split(permissionString, ':');
    ParsedPermission(
      parts[0],
      if |parts| > 1 then Some(parts[1]) else None,
      if |parts| > 2 && parts[2] != "" then Some(Text.Split(parts[2], ',')) else None)
  }

  /** `action:entity`, followed by `:a1,a2,…` when the access list is not empty. */
  function FormatPermission(action: string, entity: string, access: seq<string>): string
  {
    action + ":" + entity + (if access == [] then "" else ":" + Text.Join(access, ','))
  }

  /** An access value that can appear in a list: non-empty, without ':' or ','. */
  predicate AccessValues(access: seq<string>)
  {
    forall i :: 0 <= i < |access| ==> access[i] != "" && ':' !in access[i] && ',' !in access[i]
  }

  /** Whatever the segments between the colons, the parse reads the first three of them and
      ignores the rest; the third is split on commas unless it is empty. */
  lemma {:induction false} ParseSegments(parts: seq<string>)
    requires |parts| >= 1
    requires forall i :: 0 <= i < |parts| ==> ':' !in parts[i]
    ensures ParsePermissionString(Text.Join(parts, ':')) == ParsedPermission(
      parts[0],
      if |parts| > 1 then Some(parts[1]) else None,
      if |parts| > 2 && parts[2] != "" then Some(Text.Split(parts[2], ',')) else None)
  {
    Text.SplitJoin(parts, ':');
  }

  /** Parsing a formatted permission string gives back its parts. */
  lemma {:induction false} ParseFormat(action: string, entity: string, access: seq<string>)
    requires ':' !in action && ':' !in entity && AccessValues(access)
    ensures ParsePermissionString(FormatPermission(action, entity, access))
      == ParsedPermission(action, Some(entity), if access == [] then None else Some(access))
  {
    if access == [] {
      Text.JoinSmall(action, entity, "", ':');
      assert FormatPermission(action, entity, access) == Text.Join([action, entity], ':');
      ParseSegments([action, entity]);
    } else {
      var joined := Text.Join(access, ',');
      Text.JoinAvoids(access, ',', ':');
      assert joined != "" by {
        if |access| > 1 {
          assert joined == access[0] + [','] + Text.Join(access[1..], ',');
        }
      }
      Text.JoinSmall(action, entity, joined, ':');
      assert FormatPermission(action, entity, access) == Text.Join([action, entity, joined], ':');
      ParseSegments([action, entity, joined]);
      Text.SplitJoin(access, ',');
    }
  }

  /** Segments after the third colon do not change the parse. */
  lemma {:induction false} ExtraSegmentsIgnored(action: string, entity: string, access: string,
                                                 rest: seq<string>)
    requires ':' !in action && ':' !in entity && ':' !in access
    requires forall i :: 0 <= i < |rest| ==> ':' !in rest[i]
    ensures ParsePermissionString(Text.Join([action, entity, access] + rest, ':'))
      == ParsePermissionString(action + ":" + entity + ":" + access)
  {
    var parts := [action, entity, access] + rest;
    ParseSegments(parts);
    Text.JoinSmall(action, entity, access, ':');
    assert action + ":" + entity + ":" + access == Text.Join([action, entity, access], ':');
    ParseSegments([action, entity, access]);
  }

  /** An empty third segment leaves the access list absent, as if there were none. */
  lemma {:induction false} EmptyAccessSegment(action: string, entity: string)
    requires ':' !in action && ':' !in entity
    ensures ParsePermissionString(action + ":" + entity + ":")
      == ParsedPermission(action, Some(entity), None)
  {
    Text.JoinSmall(action, entity, "", ':');
    assert action + ":" + entity + ":" == Text.Join([action, entity, ""], ':');
    ParseSegments([action, entity, ""]);
  }

  // ---------------------------------------------------------------------------------
  // Queries
  // ---------------------------------------------------------------------------------

  /** The memberships of `userId` in `organizationId` (at most one while the schema holds). */
  function MembershipsOf(s: DbState, userId: Id, organizationId: Id): set<Id>
  {
    set id | id in s.memberships && s.memberships[id].userId == Some(userId) &&
      s.memberships[id].organizationId == organizationId
  }

  /** The existing roles linked to any of these memberships. */
  function RolesOf(s: DbState, membershipIds: set<Id>): set<Id>
  {
    set mr | mr in s.membershipRoles && mr.membershipId in membershipIds && mr.roleId in s.roles
      :: mr.roleId
  }

  /** The existing permissions linked to any of these roles. */
  function PermissionsOfRoles(s: DbState, roleIds: set<Id>): set<Permission>
  {
    set rp | rp in s.rolePermissions && rp.roleId in roleIds && rp.permissionId in s.permissions
      :: s.permissions[rp.permissionId]
  }

  /** Every permission a user holds in one organization, through any role of its membership
      there. */
  function HeldPermissions(s: DbState, userId: Id, organizationId: Id): set<Permission>
  {
    PermissionsOfRoles(s, RolesOf(s, MembershipsOf(s, userId, organizationId)))
  }

  /** One row of memberships ⋈ membershipRoles ⋈ roles ⋈ rolePermissions ⋈ permissions
      restricted to `userId` and `organizationId`. */
  predicate GrantPath(s: DbState, userId: Id, organizationId: Id, mr: MembershipRole,
                      rp: RolePermission)
  {
    && mr in s.membershipRoles && mr.membershipId in s.memberships
    && s.memberships[mr.membershipId].userId == Some(userId)
    && s.memberships[mr.membershipId].organizationId == organizationId
    && mr.roleId in s.roles
    && rp in s.rolePermissions && rp.roleId == mr.roleId && rp.permissionId in s.permissions
  }

  /** The access condition of the query. With a list, the stored access must be one of
      its values. Without one, the query as written tests `access IS NULL`, which no row of
      a NOT NULL column passes (`nullMatches` false); with `nullMatches` true there is no
      access condition at all. */
  predicate AccessFilter(access: Option<seq<string>>, stored: Access, nullMatches: bool)
  {
    if access.None? then nullMatches else AccessName(stored) in access.value
  }

  /** The where clause on the permission row: same entity, same action, access filter. */
  predicate Satisfies(p: Permission, q: ParsedPermission, nullMatches: bool)
  {
    q.entity == Some(p.entity) && ActionName(p.action) == q.action &&
    AccessFilter(q.access, p.access, nullMatches)
  }

  /** Some row of the join passes the where clause. */
  predicate Granted(s: DbState, userId: Id, organizationId: Id, q: ParsedPermission,
                    nullMatches: bool)
  {
    exists mr, rp :: mr in s.membershipRoles && rp in s.rolePermissions &&
      GrantPath(s, userId, organizationId, mr, rp) &&
      Satisfies(s.permissions[rp.permissionId], q, nullMatches)
  }

  /** `userHasPermission` as written: a string without an access part never matches. */
  predicate UserHasPermissionAsWritten(s: DbState, userId: Id, organizationId: Id,
                                       permissionString: string)
  {
    Granted(s, userId, organizationId, ParsePermissionString(permissionString), false)
  }

  /** `userHasPermission` as its documentation describes it: the access level is checked
      only when one is specified. */
  predicate UserHasPermission(s: DbState, userId: Id, organizationId: Id,
                              permissionString: string)
  {
    Granted(s, userId, organizationId, ParsePermissionString(permissionString), true)
  }

  /** The check finds a grant exactly when some permission the user holds in that
      organization passes the where clause. */
  lemma {:induction false} GrantedIffHeld(s: DbState, userId: Id, organizationId: Id,
                                          q: ParsedPermission, nullMatches: bool)
    ensures Granted(s, userId, organizationId, q, nullMatches) <==>
      exists p :: p in HeldPermissions(s, userId, organizationId) && Satisfies(p, q, nullMatches)
  {
    var held := HeldPermissions(s, userId, organizationId);
    if Granted(s, userId, organizationId, q, nullMatches) {
      var mr, rp :| mr in s.membershipRoles && rp in s.rolePermissions &&
        GrantPath(s, userId, organizationId, mr, rp) &&
        Satisfies(s.permissions[rp.permissionId], q, nullMatches);
      assert mr.membershipId in MembershipsOf(s, userId, organizationId);
      assert rp.roleId in RolesOf(s, MembershipsOf(s, userId, organizationId));
      assert s.permissions[rp.permissionId] in held;
    }
    if exists p :: p in held && Satisfies(p, q, nullMatches) {
      var p :| p in held && Satisfies(p, q, nullMatches);
      var roleIds := RolesOf(s, MembershipsOf(s, userId, organizationId));
      var rp :| rp in s.rolePermissions && rp.roleId in roleIds && rp.permissionId in s.permissions
        && s.permissions[rp.permissionId] == p;
      var mr :| mr in s.membershipRoles && mr.membershipId in MembershipsOf(s, userId, organizationId)
        && mr.roleId in s.roles && mr.roleId == rp.roleId;
      assert GrantPath(s, userId, organizationId, mr, rp);
    }
  }

  /** With an access list, a user has `action:entity:a1,…,an` in an organization exactly
      when one of its roles there carries a permission with that action and entity and one
      of the listed access values. */
  lemma {:induction false} UserHasPermissionWithAccess(s: DbState, userId: Id,
      organizationId: Id, action: Action, entity: string, access: seq<string>)
    requires ':' !in entity && access != [] && AccessValues(access)
    ensures var str := FormatPermission(ActionName(action), entity, access);
      && (UserHasPermission(s, userId, organizationId, str) <==>
            exists p :: p in HeldPermissions(s, userId, organizationId) &&
              p.action == action && p.entity == entity && AccessName(p.access) in access)
      && (UserHasPermissionAsWritten(s, userId, organizationId, str) <==>
            UserHasPermission(s, userId, organizationId, str))
  {
    ParseFormat(ActionName(action), entity, access);
    GrantedIffHeld(s, userId, organizationId, ParsedPermission(ActionName(action), Some(entity), Some(access)), true);
    ActionNameInjective();
  }

  /** Distinct actions have distinct names. */
  lemma ActionNameInjective()
    ensures forall a, b :: ActionName(a) == ActionName(b) ==> a == b
  {
    forall a, b | ActionName(a) == ActionName(b) ensures a == b {
      assert |ActionName(a)| == |ActionName(b)| && ActionName(a)[0] == ActionName(b)[0];
    }
  }

  /** A list of access values is an OR: `a:e:x,y` holds exactly when `a:e:x` or `a:e:y`
      does, and more generally for any split of the list. */
  lemma {:induction false} AccessListIsDisjunction(s: DbState, userId: Id, organizationId: Id,
      action: string, entity: string, left: seq<string>, right: seq<string>)
    requires ':' !in action && ':' !in entity
    requires left != [] && right != [] && AccessValues(left) && AccessValues(right)
    ensures UserHasPermission(s, userId, organizationId, FormatPermission(action, entity, left + right))
      <==> (UserHasPermission(s, userId, organizationId, FormatPermission(action, entity, left)) ||
            UserHasPermission(s, userId, organizationId, FormatPermission(action, entity, right)))
  {
    assert AccessValues(left + right) by {
      forall i | 0 <= i < |left + right| ensures (left + right)[i] != "" && ':' !in (left + right)[i] && ',' !in (left + right)[i] {
        if i < |left| { assert (left + right)[i] == left[i]; } else { assert (left + right)[i] == right[i - |left|]; }
      }
    }
    ParseFormat(action, entity, left + right);
    ParseFormat(action, entity, left);
    ParseFormat(action, entity, right);
    var q := ParsedPermission(action, Some(entity), Some(left + right));
    var ql := ParsedPermission(action, Some(entity), Some(left));
    var qr := ParsedPermission(action, Some(entity), Some(right));
    forall p: Permission ensures Satisfies(p, q, true) <==> Satisfies(p, ql, true) || Satisfies(p, qr, true) {
      assert AccessName(p.access) in left + right <==> AccessName(p.access) in left || AccessName(p.access) in right;
    }
    GrantedIffHeld(s, userId, organizationId, q, true);
    GrantedIffHeld(s, userId, organizationId, ql, true);
    GrantedIffHeld(s, userId, organizationId, qr, true);
  }

  /** As written, a string with no access part is never granted, whatever the state; the
      documented check grants it as soon as some role of the user in that organization
      carries the action on the entity, at any access level. */
  lemma {:induction false} AccessLessStrings(s: DbState, userId: Id, organizationId: Id,
                                             action: Action, entity: string)
    requires ':' !in entity
    ensures !UserHasPermissionAsWritten(s, userId, organizationId, FormatPermission(ActionName(action), entity, []))
    ensures UserHasPermission(s, userId, organizationId, FormatPermission(ActionName(action), entity, []))
      <==> exists p :: p in HeldPermissions(s, userId, organizationId) && p.action == action && p.entity == entity
  {
    ParseFormat(ActionName(action), entity, []);
    GrantedIffHeld(s, userId, organizationId, ParsedPermission(ActionName(action), Some(entity), None), true);
    ActionNameInjective();
  }

  /** The state of the example below: one user, owner of one organization, whose role
      carries the permission to read any user. */
  function ExampleState(): DbState
  {
    DbState(
      map[1 := Organization(1, "Acme")],
      map[1 := User(1, None, "a@example.com", 1, CUSTOMER)],
      map[1 := Membership(1, 1, Some(1), None, None, 0, 0)],
      map[1 := Permission(1, Read, "user", Any, "read any user")],
      map[1 := Role(1, "OWNER", "Full access to organization resources")],
      {RolePermission(1, 1)}, {MembershipRole(1, 1)}, Counters(2, 2, 2, 2, 2))
  }

  /** A concrete state that shows the difference: the user holds `read:user:any` through
      its role, yet the check as written denies `read:user`. */
  lemma ReadUserDeniedAsWritten()
    ensures !UserHasPermissionAsWritten(ExampleState(), 1, 1, "read:user")
    ensures UserHasPermission(ExampleState(), 1, 1, "read:user")
  {
    var s := ExampleState();
    var str := FormatPermission("read", "user", []);
    assert str == "read:user";
    AccessLessStrings(s, 1, 1, Read, "user");
    var p := s.permissions[1];
    assert p in HeldPermissions(s, 1, 1) by {
      assert 1 in MembershipsOf(s, 1, 1);
      assert MembershipRole(1, 1) in s.membershipRoles;
      assert 1 in RolesOf(s, MembershipsOf(s, 1, 1));
      assert RolePermission(1, 1) in s.rolePermissions;
    }
  }

  /** Grants held through memberships in other organizations never count: deleting every
      membership outside `organizationId` leaves the answer unchanged. */
  lemma {:induction false} OtherOrganizationsIgnored(s: DbState, userId: Id, organizationId: Id,
                                                     q: ParsedPermission, nullMatches: bool)
    ensures var others := set id | id in s.memberships && s.memberships[id].organizationId != organizationId;
      Granted(RemoveMemberships(s, others), userId, organizationId, q, nullMatches)
        == Granted(s, userId, organizationId, q, nullMatches)
  {
    var others := set id | id in s.memberships && s.memberships[id].organizationId != organizationId;
    var t := RemoveMemberships(s, others);
    if Granted(s, userId, organizationId, q, nullMatches) {
      var mr, rp :| mr in s.membershipRoles && rp in s.rolePermissions &&
        GrantPath(s, userId, organizationId, mr, rp) &&
        Satisfies(s.permissions[rp.permissionId], q, nullMatches);
      assert mr in t.membershipRoles;
      assert GrantPath(t, userId, organizationId, mr, rp);
    }
    if Granted(t, userId, organizationId, q, nullMatches) {
      var mr, rp :| mr in t.membershipRoles && rp in t.rolePermissions &&
        GrantPath(t, userId, organizationId, mr, rp) &&
        Satisfies(t.permissions[rp.permissionId], q, nullMatches);
      assert GrantPath(s, userId, organizationId, mr, rp);
    }
  }

  /** `userHasRole`: some membership of the user in the organization holds a role with that
      name. */
  predicate UserHasRole(s: DbState, userId: Id, organizationId: Id, roleName: string)
  {
    exists mr :: mr in s.membershipRoles && mr.membershipId in s.memberships &&
      s.memberships[mr.membershipId].userId == Some(userId) &&
      s.memberships[mr.membershipId].organizationId == organizationId &&
      mr.roleId in s.roles && s.roles[mr.roleId].name == roleName
  }

  /** The role check agrees with the roles the user holds in the organization, and an
      unknown user, organization or role name gives false rather than an error. */
  lemma {:induction false} UserHasRoleIff(s: DbState, userId: Id, organizationId: Id, roleName: string)
    requires Valid(s)
    ensures UserHasRole(s, userId, organizationId, roleName) <==>
      exists id :: id in RolesOf(s, MembershipsOf(s, userId, organizationId)) && s.roles[id].name == roleName
    ensures userId !in s.users || organizationId !in s.organizations || !RoleNameTaken(s, roleName)
      ==> !UserHasRole(s, userId, organizationId, roleName)
  {
    var roleIds := RolesOf(s, MembershipsOf(s, userId, organizationId));
    if UserHasRole(s, userId, organizationId, roleName) {
      var mr :| mr in s.membershipRoles && mr.membershipId in s.memberships &&
        s.memberships[mr.membershipId].userId == Some(userId) &&
        s.memberships[mr.membershipId].organizationId == organizationId &&
        mr.roleId in s.roles && s.roles[mr.roleId].name == roleName;
      assert mr.membershipId in MembershipsOf(s, userId, organizationId);
      assert mr.roleId in roleIds;
    }
    if exists id :: id in roleIds && s.roles[id].name == roleName {
      var id :| id in roleIds && s.roles[id].name == roleName;
      var mr :| mr in s.membershipRoles && mr.membershipId in MembershipsOf(s, userId, organizationId)
        && mr.roleId in s.roles && mr.roleId == id;
    }
  }

  /** `getPermissionsByRoleName`: the permissions linked to the role with that name (the
      rows come back in no particular order). */
  function GetPermissionsByRoleName(s: DbState, roleName: string): (ps: set<Permission>)
    ensures !RoleNameTaken(s, roleName) ==> ps == {}
    ensures Valid(s) ==> forall p :: p in ps ==> p.id in s.permissions && s.permissions[p.id] == p
  {
    PermissionsOfRoles(s, RolesNamed(s, roleName))
  }

  /** Exactly the permissions linked to the named role are listed. */
  lemma {:induction false} GetPermissionsByRoleNameExact(s: DbState, roleName: string, p: Permission)
    requires Valid(s) && RoleNameTaken(s, roleName)
    ensures p in GetPermissionsByRoleName(s, roleName) <==>
      p.id in s.permissions && s.permissions[p.id] == p &&
      RolePermission(RoleIdNamed(s, roleName), p.id) in s.rolePermissions
  {
    var rid := RoleIdNamed(s, roleName);
    assert rid in RolesNamed(s, roleName);
    if p in GetPermissionsByRoleName(s, roleName) {
      var rp :| rp in s.rolePermissions && rp.roleId in RolesNamed(s, roleName) &&
        rp.permissionId in s.permissions && s.permissions[rp.permissionId] == p;
      assert rp == RolePermission(rid, p.id);
    }
    if p.id in s.permissions && s.permissions[p.id] == p && RolePermission(rid, p.id) in s.rolePermissions {
      var rp := RolePermission(rid, p.id);
      assert s.permissions[rp.permissionId] in PermissionsOfRoles(s, RolesNamed(s, roleName));
    }
  }

  // ---------------------------------------------------------------------------------
  // The permission registry
  // ---------------------------------------------------------------------------------

  /** `<action> <access> <entity>`, the description every created permission carries. */
  function PermissionDescription(action: Action, access: Access, entity: string): string
  {
    ActionName(action) + " " + AccessName(access) + " " + entity
  }

  /** The description names its permission: split at the spaces it gives the action, the
      access level and an entity without spaces back. */
  lemma PermissionDescriptionSplits(action: Action, access: Access, entity: string)
    requires ' ' !in entity
    ensures Text.Split(PermissionDescription(action, access, entity), ' ') ==
      [ActionName(action), AccessName(access), entity]
  {
    Text.JoinSmall(ActionName(action), AccessName(access), entity, ' ');
    assert ' ' !in ActionName(action) && ' ' !in AccessName(access);
    Text.SplitJoin([ActionName(action), AccessName(access), entity], ' ');
  }

  /** Inserts one permission with a fresh id and returns it; an existing
      (action, entity, access) triple is refused by the unique constraint. */
  method CreatePermission(db: Database, entity: string, action: Action, access: Access)
    returns (r: Result<Id>)
    requires db.Valid()
    modifies db
    ensures db.Valid()
    ensures r.Err? <==> PermissionTaken(old(db.State()), action, entity, access)
    ensures r.Err? ==> r.error == DuplicateKey && db.State() == old(db.State())
    ensures r.Ok? ==>
      && r.value == old(db.next.permission) && r.value !in old(db.permissions)
      && r.value in db.permissions && db.permissions[r.value] ==
           Permission(r.value, action, entity, access, PermissionDescription(action, access, entity))
      && db.State() == AddPermission(old(db.State()), action, entity, access,
                                     PermissionDescription(action, access, entity))
  {
    var inserted := db.InsertPermission(action, entity, access, PermissionDescription(action, access, entity));
    match inserted
    case Err(e) => r := Err(e);
    case Ok(p) => r := Ok(p.id);
  }

  /** A new permission is granted to nobody until it is linked to a role. */
  lemma {:induction false} NewPermissionGrantsNothing(s: DbState, action: Action, entity: string,
      access: Access, description: string, userId: Id, organizationId: Id, q: ParsedPermission,
      nullMatches: bool)
    requires Valid(s)
    ensures Granted(AddPermission(s, action, entity, access, description), userId, organizationId, q, nullMatches)
      == Granted(s, userId, organizationId, q, nullMatches)
  {
    var t := AddPermission(s, action, entity, access, description);
    if Granted(t, userId, organizationId, q, nullMatches) {
      var mr, rp :| mr in t.membershipRoles && rp in t.rolePermissions &&
        GrantPath(t, userId, organizationId, mr, rp) &&
        Satisfies(t.permissions[rp.permissionId], q, nullMatches);
      assert rp.permissionId in s.permissions;
      assert GrantPath(s, userId, organizationId, mr, rp);
    }
    if Granted(s, userId, organizationId, q, nullMatches) {
      var mr, rp :| mr in s.membershipRoles && rp in s.rolePermissions &&
        GrantPath(s, userId, organizationId, mr, rp) &&
        Satisfies(s.permissions[rp.permissionId], q, nullMatches);
      assert GrantPath(t, userId, organizationId, mr, rp);
    }
  }

  /** Links the named role to a permission. An unknown role fails with `Role "<name>" not
      found`; an existing link or an unknown permission is refused by the join table. */
  method AddPermissionToRole(db: Database, roleName: string, permissionId: Id) returns (r: Result<()>)
    requires db.Valid()
    modifies db
    ensures db.Valid()
    ensures !RoleNameTaken(old(db.State()), roleName) ==>
      r == Err(RoleNotFound(roleName)) && db.State() == old(db.State())
    ensures RoleNameTaken(old(db.State()), roleName) ==>
      var link := RolePermission(RoleIdNamed(old(db.State()), roleName), permissionId);
      var e := RolePermissionInsertError(old(db.State()), link);
      if e.Some? then r == Err(e.value) && db.State() == old(db.State())
      else r == Ok(()) && db.State() == old(db.State()).(rolePermissions := old(db.rolePermissions) + {link})
  {
    if !RoleNameTaken(db.State(), roleName) {
      return Err(RoleNotFound(roleName));
    }
    var roleId :| roleId in db.roles && db.roles[roleId].name == roleName;
    assert roleId == RoleIdNamed(db.State(), roleName);
    var inserted := db.InsertRolePermission(RolePermission(roleId, permissionId));
    match inserted
    case Err(e) => r := Err(e);
    case Ok(_) => r := Ok(());
  }

  /** Unlinks the named role from a permission; only that pair goes, and a pair that was
      not linked just leaves the table as it was. An unknown role fails. */
  method RemovePermissionFromRole(db: Database, roleName: string, permissionId: Id) returns (r: Result<()>)
    requires db.Valid()
    modifies db
    ensures db.Valid()
    ensures r.Err? <==> !RoleNameTaken(old(db.State()), roleName)
    ensures r.Err? ==> r.error == RoleNotFound(roleName) && db.State() == old(db.State())
    ensures r.Ok? ==> db.State() == old(db.State()).(rolePermissions :=
      old(db.rolePermissions) - {RolePermission(RoleIdNamed(old(db.State()), roleName), permissionId)})
  {
    if !RoleNameTaken(db.State(), roleName) {
      return Err(RoleNotFound(roleName));
    }
    var roleId :| roleId in db.roles && db.roles[roleId].name == roleName;
    assert roleId == RoleIdNamed(db.State(), roleName);
    db.DeleteRolePermissions({RolePermission(roleId, permissionId)});
    r := Ok(());
  }

  /** Linking a permission to a role adds exactly that permission to the role's list, and
      unlinking removes exactly it. */
  lemma {:induction false} LinkChangesRolePermissions(s: DbState, roleName: string, permissionId: Id)
    requires Valid(s) && RoleNameTaken(s, roleName) && permissionId in s.permissions
    ensures var link := RolePermission(RoleIdNamed(s, roleName), permissionId);
      && GetPermissionsByRoleName(s.(rolePermissions := s.rolePermissions + {link}), roleName)
           == GetPermissionsByRoleName(s, roleName) + {s.permissions[permissionId]}
      && GetPermissionsByRoleName(s.(rolePermissions := s.rolePermissions - {link}), roleName)
           == GetPermissionsByRoleName(s, roleName) - {s.permissions[permissionId]}
  {
    var rid := RoleIdNamed(s, roleName);
    var link := RolePermission(rid, permissionId);
    var added := s.(rolePermissions := s.rolePermissions + {link});
    var removed := s.(rolePermissions := s.rolePermissions - {link});
    assert RolesNamed(added, roleName) == RolesNamed(s, roleName) == RolesNamed(removed, roleName) == {rid};
    assert Valid(removed);
    forall p ensures p in GetPermissionsByRoleName(removed, roleName) <==>
                     p in GetPermissionsByRoleName(s, roleName) - {s.permissions[permissionId]} {
      GetPermissionsByRoleNameExact(s, roleName, p);
      GetPermissionsByRoleNameExact(removed, roleName, p);
    }
    assert link in s.rolePermissions ==> s.permissions[link.permissionId] in GetPermissionsByRoleName(s, roleName);
    assert s.permissions[link.permissionId] in GetPermissionsByRoleName(added, roleName);
  }

  /** Deletes a permission; its role links go with it (the Postgres cascade). An unknown id
      fails with `Permission with id <id> not found` and changes nothing. */
  method DeletePermission(db: Database, permissionId: Id) returns (r: Result<()>)
    requires db.Valid()
    modifies db
    ensures db.Valid()
    ensures r.Err? <==> permissionId !in old(db.permissions)
    ensures r.Err? ==> r.error == PermissionNotFound(permissionId) && db.State() == old(db.State())
    ensures r.Ok? ==> db.State() == RemovePermissions(old(db.State()), {permissionId})
  {
    if permissionId !in db.permissions {
      return Err(PermissionNotFound(permissionId));
    }
    db.DeletePermissions({permissionId});
    r := Ok(());
  }
}
