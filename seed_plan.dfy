/** What seeding produces, as functions of the state it starts from: the default roles,
    the per-entity permissions and the role-permission links, each created only when
    missing. */
module SeedPlan {
  import opened Results
  import opened Schema
  import Permissions

  // ---------------------------------------------------------------------------------
  // Roles
  // ---------------------------------------------------------------------------------

  datatype RoleSpec = RoleSpec(name: string, description: string)

  const DefaultRoles: seq<RoleSpec> := [
    RoleSpec("OWNER", "Full access to organization resources"),
    RoleSpec("ADMIN", "Manage organization resources and users"),
    RoleSpec("MEMBER", "Basic access to organization resources")]

  /** One role: the stored row when the name is taken, otherwise a new row. */
  ghost function EnsureRole(s: DbState, spec: RoleSpec): (DbState, Role)
  {
    if RoleNameTaken(s, spec.name) then (s, s.roles[RoleIdNamed(s, spec.name)])
    else (AddRole(s, spec.name, spec.description), Role(s.next.role, spec.name, spec.description))
  }

  /** The roles in order, each seeing the state the previous ones left, with the rows
      collected as they come. */
  ghost function EnsureRoles(s: DbState, specs: seq<RoleSpec>): (DbState, seq<Role>)
    decreases |specs|
  {
    if |specs| == 0 then (s, [])
    else
      var prev := EnsureRoles(s, specs[..|specs| - 1]);
      var step := EnsureRole(prev.0, specs[|specs| - 1]);
      (step.0, prev.1 + [step.1])
  }

  /** Rows that are stored, under their ids, with the names asked for. */
  ghost predicate RolesStored(t: DbState, specs: seq<RoleSpec>, rows: seq<Role>)
  {
    |rows| == |specs| &&
    forall i :: 0 <= i < |specs| ==>
      rows[i].name == specs[i].name && rows[i].id in t.roles && t.roles[rows[i].id] == rows[i]
  }

  /** One role: every constraint kept, the row stored under its id with the name asked
      for, every earlier role kept, no other table written. */
  lemma EnsureRoleFacts(s: DbState, spec: RoleSpec)
    requires Valid(s)
    ensures var r := EnsureRole(s, spec);
      && Valid(r.0) && r.1.name == spec.name && r.1.id in r.0.roles && r.0.roles[r.1.id] == r.1
      && (forall id :: id in s.roles ==> id in r.0.roles && r.0.roles[id] == s.roles[id])
      && r.0 == s.(roles := r.0.roles, next := s.next.(role := r.0.next.role))
  {
    if !RoleNameTaken(s, spec.name) {
      AddRoleValid(s, spec.name, spec.description);
    }
  }

  /** Ensuring roles keeps every constraint, keeps every role that was there, and writes
      to no other table. */
  lemma {:induction false} EnsureRolesKeep(s: DbState, specs: seq<RoleSpec>)
    requires Valid(s)
    ensures var r := EnsureRoles(s, specs);
      && Valid(r.0)
      && (forall id :: id in s.roles ==> id in r.0.roles && r.0.roles[id] == s.roles[id])
      && r.0 == s.(roles := r.0.roles, next := s.next.(role := r.0.next.role))
    decreases |specs|
  {
    if |specs| > 0 {
      var n := |specs| - 1;
      EnsureRolesKeep(s, specs[..n]);
      EnsureRoleFacts(EnsureRoles(s, specs[..n]).0, specs[n]);
    }
  }

  /** Every role row sits under its own id, below the next id to be handed out. */
  ghost predicate RoleRowsKeyed(s: DbState)
  {
    forall id :: id in s.roles ==> s.roles[id].id == id && id < s.next.role
  }

  lemma ValidRoleRowsKeyed(s: DbState)
    requires Valid(s)
    ensures RoleRowsKeyed(s)
  {
  }

  /** One role, as far as the rows are concerned: the row is stored under its id with the
      name asked for and every earlier row is kept. */
  lemma EnsureRoleStores(s: DbState, spec: RoleSpec)
    requires RoleRowsKeyed(s)
    ensures var r := EnsureRole(s, spec);
      && RoleRowsKeyed(r.0)
      && r.1.name == spec.name && r.1.id in r.0.roles && r.0.roles[r.1.id] == r.1
      && (forall id :: id in s.roles ==> id in r.0.roles && r.0.roles[id] == s.roles[id])
  {
  }

  /** A row stored after the rows of `specs`, in a state that kept them, extends them. */
  lemma RolesStoredSnoc(t0: DbState, t: DbState, specs: seq<RoleSpec>, rows: seq<Role>,
                        spec: RoleSpec, row: Role)
    requires RolesStored(t0, specs, rows)
    requires forall id :: id in t0.roles ==> id in t.roles && t.roles[id] == t0.roles[id]
    requires row.name == spec.name && row.id in t.roles && t.roles[row.id] == row
    ensures RolesStored(t, specs + [spec], rows + [row])
  {
    forall i | 0 <= i < |specs| + 1
      ensures (rows + [row])[i].name == (specs + [spec])[i].name
      ensures (rows + [row])[i].id in t.roles && t.roles[(rows + [row])[i].id] == (rows + [row])[i]
    {
      if i < |specs| {
        assert (rows + [row])[i] == rows[i] && (specs + [spec])[i] == specs[i];
      }
    }
  }

  /** Ensuring roles returns one stored row per name asked for. */
  lemma {:induction false} EnsureRolesFacts(s: DbState, specs: seq<RoleSpec>)
    requires RoleRowsKeyed(s)
    ensures var r := EnsureRoles(s, specs); RoleRowsKeyed(r.0) && RolesStored(r.0, specs, r.1)
    decreases |specs|
  {
    if |specs| > 0 {
      var n := |specs| - 1;
      EnsureRolesFacts(s, specs[..n]);
      var prev := EnsureRoles(s, specs[..n]);
      EnsureRoleStores(prev.0, specs[n]);
      var step := EnsureRole(prev.0, specs[n]);
      RolesStoredSnoc(prev.0, step.0, specs[..n], prev.1, specs[n], step.1);
      assert specs[..n] + [specs[n]] == specs;
    }
  }

  /** When every row asked for is already stored, ensuring the roles changes nothing and
      returns those rows. */
  lemma {:induction false} EnsureRolesStable(u: DbState, specs: seq<RoleSpec>, rows: seq<Role>)
    requires Valid(u) && RolesStored(u, specs, rows)
    ensures EnsureRoles(u, specs) == (u, rows)
    decreases |specs|
  {
    if |specs| > 0 {
      var n := |specs| - 1;
      EnsureRolesStable(u, specs[..n], rows[..n]);
      assert RoleIdNamed(u, specs[n].name) == rows[n].id;
      assert rows[..n] + [rows[n]] == rows;
    }
  }

  /** Creating the roles a second time adds nothing and returns the same rows. */
  lemma {:induction false} EnsureRolesIdempotent(s: DbState, specs: seq<RoleSpec>)
    requires Valid(s)
    ensures EnsureRoles(EnsureRoles(s, specs).0, specs) == EnsureRoles(s, specs)
  {
    EnsureRolesKeep(s, specs);
    ValidRoleRowsKeyed(s);
    EnsureRolesFacts(s, specs);
    var r := EnsureRoles(s, specs);
    EnsureRolesStable(r.0, specs, r.1);
  }

  // ---------------------------------------------------------------------------------
  // Permissions
  // ---------------------------------------------------------------------------------

  datatype PermissionSpec = PermissionSpec(action: Action, entity: string, access: Access)

  const Actions: seq<Action> := [Create, Read, Update, Delete]
  const AccessLevels: seq<Access> := [Own, Any]
  const Entities: seq<string> := ["user", "organization", "membership", "role"]

  /** Creating or deleting one's own record is not a permission the seed creates. */
  predicate Skipped(action: Action, access: Access)
  {
    (action == Create || action == Delete) && access == Own
  }

  /** The access levels the seed iterates over: `own` and `any`. */
  predicate SeedLevel(access: Access)
  {
    access == Own || access == Any
  }

  /** An action and access level the seed creates a permission for. */
  predicate Seedable(action: Action, access: Access)
  {
    SeedLevel(access) && !Skipped(action, access)
  }

  /** The permissions the inner loop visits for one action. */
  function SpecsForAction(entity: string, action: Action, levels: seq<Access>): seq<PermissionSpec>
    decreases |levels|
  {
    if |levels| == 0 then []
    else
      var access := levels[|levels| - 1];
      SpecsForAction(entity, action, levels[..|levels| - 1]) +
      (if Skipped(action, access) then [] else [PermissionSpec(action, entity, access)])
  }

  /** The permissions the two loops visit for the given actions. */
  function SpecsForActions(entity: string, actions: seq<Action>, levels: seq<Access>): seq<PermissionSpec>
    decreases |actions|
  {
    if |actions| == 0 then []
    else SpecsForActions(entity, actions[..|actions| - 1], levels) +
         SpecsForAction(entity, actions[|actions| - 1], levels)
  }

  /** `createEntityPermissions(entity)`'s plan. */
  function EntitySpecs(entity: string): seq<PermissionSpec>
  {
    SpecsForActions(entity, Actions, AccessLevels)
  }

  /** The plan for every entity, entity after entity. */
  function SpecsForEntities(entities: seq<string>): seq<PermissionSpec>
    decreases |entities|
  {
    if |entities| == 0 then []
    else SpecsForEntities(entities[..|entities| - 1]) + EntitySpecs(entities[|entities| - 1])
  }

  /** One more access level extends an action's plan by its permission, unless skipped. */
  lemma SpecsForActionSnoc(entity: string, action: Action, levels: seq<Access>, j: nat)
    requires j < |levels|
    ensures SpecsForAction(entity, action, levels[..j + 1]) ==
            SpecsForAction(entity, action, levels[..j]) + SpecsForAction(entity, action, [levels[j]])
  {
    assert levels[..j + 1][..j] == levels[..j];
    assert [levels[j]][..0] == [];
  }

  /** One more action extends the plan by that action's permissions. */
  lemma SpecsForActionsSnoc(entity: string, actions: seq<Action>, levels: seq<Access>, i: nat)
    requires i < |actions|
    ensures SpecsForActions(entity, actions[..i + 1], levels) ==
            SpecsForActions(entity, actions[..i], levels) + SpecsForAction(entity, actions[i], levels)
  {
    assert actions[..i + 1][..i] == actions[..i];
  }

  /** One more entity extends the plan by that entity's permissions. */
  lemma SpecsForEntitiesSnoc(entities: seq<string>, i: nat)
    requires i < |entities|
    ensures SpecsForEntities(entities[..i + 1]) == SpecsForEntities(entities[..i]) + EntitySpecs(entities[i])
  {
    assert entities[..i + 1][..i] == entities[..i];
  }

  /** The six permissions of an entity, in loop order: every action with `any`, and only
      read and update with `own`. */
  function SixFor(entity: string): seq<PermissionSpec>
  {
    [PermissionSpec(Create, entity, Any), PermissionSpec(Read, entity, Own),
     PermissionSpec(Read, entity, Any), PermissionSpec(Update, entity, Own),
     PermissionSpec(Update, entity, Any), PermissionSpec(Delete, entity, Any)]
  }

  lemma {:induction false} EntitySpecsExact(entity: string)
    ensures EntitySpecs(entity) == SixFor(entity)
  {
    var lv := AccessLevels;
    assert lv[..|lv| - 1] == [Own] && [Own][..0] == [];
    assert SpecsForAction(entity, Create, [Own]) == [];
    assert SpecsForAction(entity, Delete, [Own]) == [];
    assert SpecsForAction(entity, Read, [Own]) == [PermissionSpec(Read, entity, Own)];
    assert SpecsForAction(entity, Update, [Own]) == [PermissionSpec(Update, entity, Own)];
    assert SpecsForAction(entity, Create, lv) == [PermissionSpec(Create, entity, Any)];
    assert SpecsForAction(entity, Read, lv) == [PermissionSpec(Read, entity, Own), PermissionSpec(Read, entity, Any)];
    assert SpecsForAction(entity, Update, lv) == [PermissionSpec(Update, entity, Own), PermissionSpec(Update, entity, Any)];
    assert SpecsForAction(entity, Delete, lv) == [PermissionSpec(Delete, entity, Any)];
    assert [Create][..0] == [] && [Create, Read][..1] == [Create];
    assert [Create, Read, Update][..2] == [Create, Read] && Actions[..3] == [Create, Read, Update];
    assert SpecsForActions(entity, [Create], lv) == SpecsForAction(entity, Create, lv);
    assert SpecsForActions(entity, [Create, Read], lv) ==
      SpecsForActions(entity, [Create], lv) + SpecsForAction(entity, Read, lv);
    assert SpecsForActions(entity, [Create, Read, Update], lv) ==
      SpecsForActions(entity, [Create, Read], lv) + SpecsForAction(entity, Update, lv);
    assert SpecsForActions(entity, Actions, lv) ==
      SpecsForActions(entity, [Create, Read, Update], lv) + SpecsForAction(entity, Delete, lv);
  }

  /** Each entity gets six permissions, none of them a skipped pair. */
  lemma EntitySpecsShape(entity: string)
    ensures |EntitySpecs(entity)| == 6
    ensures forall i :: 0 <= i < 6 ==>
      EntitySpecs(entity)[i].entity == entity && !Skipped(EntitySpecs(entity)[i].action, EntitySpecs(entity)[i].access)
  {
    EntitySpecsExact(entity);
  }

  /** What `createDefaultPermissions` asks for: the plan of every entity, in order. */
  function DefaultPermissionSpecs(): seq<PermissionSpec>
  {
    SpecsForEntities(Entities)
  }

  /** The default plan written out: 24 permissions, the six of `user` first, then those of
      `organization`, `membership` and `role`. */
  const DefaultPermissionPlan: seq<PermissionSpec> :=
    SixFor("user") + SixFor("organization") + SixFor("membership") + SixFor("role")

  lemma {:induction false} DefaultPermissionSpecsExact()
    ensures DefaultPermissionSpecs() == DefaultPermissionPlan
  {
    var e := Entities;
    assert e[..3] == ["user", "organization", "membership"];
    assert ["user", "organization", "membership"][..2] == ["user", "organization"];
    assert ["user", "organization"][..1] == ["user"] && ["user"][..0] == [];
    EntitySpecsExact("user");
    EntitySpecsExact("organization");
    EntitySpecsExact("membership");
    EntitySpecsExact("role");
    assert SpecsForEntities(["user"]) == SixFor("user");
    assert SpecsForEntities(["user", "organization"]) == SixFor("user") + SixFor("organization");
    assert SpecsForEntities(["user", "organization", "membership"]) ==
      SixFor("user") + SixFor("organization") + SixFor("membership");
  }

  /** 24 permissions, the six of `user` first; every one names a seeded entity and none
      is a skipped pair. */
  lemma DefaultPermissionPlanShape()
    ensures |DefaultPermissionPlan| == 24
    ensures DefaultPermissionPlan[..6] == SixFor("user")
    ensures forall p :: p in DefaultPermissionPlan ==> p.entity in Entities && !Skipped(p.action, p.access)
  {
    var d := DefaultPermissionPlan;
    assert d[..6] == SixFor("user");
    forall p | p in d
      ensures p.entity in Entities && !Skipped(p.action, p.access)
    {
      assert p in SixFor("user") || p in SixFor("organization") || p in SixFor("membership") ||
             p in SixFor("role");
    }
  }

  ghost function PermissionIdFor(s: DbState, spec: PermissionSpec): (id: Id)
    requires PermissionTaken(s, spec.action, spec.entity, spec.access)
    ensures id in s.permissions
  {
    var id :| id in s.permissions && s.permissions[id].action == spec.action &&
      s.permissions[id].entity == spec.entity && s.permissions[id].access == spec.access;
    id
  }

  /** One permission: the stored row when (action, entity, access) is taken, otherwise a
      new row described as `<action> <access> <entity>`. */
  ghost function EnsurePermission(s: DbState, spec: PermissionSpec): (DbState, Permission)
  {
    if PermissionTaken(s, spec.action, spec.entity, spec.access)
    then (s, s.permissions[PermissionIdFor(s, spec)])
    else
      var description := Permissions.PermissionDescription(spec.action, spec.access, spec.entity);
      (AddPermission(s, spec.action, spec.entity, spec.access, description),
       Permission(s.next.permission, spec.action, spec.entity, spec.access, description))
  }

  ghost function EnsurePermissions(s: DbState, specs: seq<PermissionSpec>): (DbState, seq<Permission>)
    decreases |specs|
  {
    if |specs| == 0 then (s, [])
    else
      var prev := EnsurePermissions(s, specs[..|specs| - 1]);
      var step := EnsurePermission(prev.0, specs[|specs| - 1]);
      (step.0, prev.1 + [step.1])
  }

  /** Rows that are stored, under their ids, with the action, entity and access asked for. */
  ghost predicate PermissionsStored(t: DbState, specs: seq<PermissionSpec>, rows: seq<Permission>)
  {
    |rows| == |specs| &&
    forall i :: 0 <= i < |specs| ==>
      && rows[i].action == specs[i].action && rows[i].entity == specs[i].entity
      && rows[i].access == specs[i].access
      && rows[i].id in t.permissions && t.permissions[rows[i].id] == rows[i]
  }

  /** One permission: every constraint kept, the row stored under its id with the fields
      asked for, every earlier permission kept, no other table written. */
  lemma EnsurePermissionFacts(s: DbState, spec: PermissionSpec)
    requires Valid(s)
    ensures var r := EnsurePermission(s, spec);
      && Valid(r.0)
      && r.1.action == spec.action && r.1.entity == spec.entity && r.1.access == spec.access
      && r.1.id in r.0.permissions && r.0.permissions[r.1.id] == r.1
      && (forall id :: id in s.permissions ==> id in r.0.permissions && r.0.permissions[id] == s.permissions[id])
      && r.0 == s.(permissions := r.0.permissions, next := s.next.(permission := r.0.next.permission))
  {
    if !PermissionTaken(s, spec.action, spec.entity, spec.access) {
      AddPermissionValid(s, spec.action, spec.entity, spec.access,
                         Permissions.PermissionDescription(spec.action, spec.access, spec.entity));
    }
  }

  /** Ensuring permissions keeps every constraint, keeps every permission that was there,
      and writes to no other table. */
  lemma {:induction false} EnsurePermissionsKeep(s: DbState, specs: seq<PermissionSpec>)
    requires Valid(s)
    ensures var r := EnsurePermissions(s, specs);
      && Valid(r.0)
      && (forall id :: id in s.permissions ==> id in r.0.permissions && r.0.permissions[id] == s.permissions[id])
      && r.0 == s.(permissions := r.0.permissions, next := s.next.(permission := r.0.next.permission))
    decreases |specs|
  {
    if |specs| > 0 {
      var n := |specs| - 1;
      EnsurePermissionsKeep(s, specs[..n]);
      EnsurePermissionFacts(EnsurePermissions(s, specs[..n]).0, specs[n]);
    }
  }

  /** Every permission row sits under its own id, below the next id to be handed out. */
  ghost predicate PermissionRowsKeyed(s: DbState)
  {
    forall id :: id in s.permissions ==> s.permissions[id].id == id && id < s.next.permission
  }

  lemma ValidPermissionRowsKeyed(s: DbState)
    requires Valid(s)
    ensures PermissionRowsKeyed(s)
  {
  }

  /** One permission, as far as the rows are concerned: the row is stored under its id with
      the fields asked for and every earlier row is kept. */
  lemma EnsurePermissionStores(s: DbState, spec: PermissionSpec)
    requires PermissionRowsKeyed(s)
    ensures var r := EnsurePermission(s, spec);
      && PermissionRowsKeyed(r.0)
      && r.1.action == spec.action && r.1.entity == spec.entity && r.1.access == spec.access
      && r.1.id in r.0.permissions && r.0.permissions[r.1.id] == r.1
      && (forall id :: id in s.permissions ==> id in r.0.permissions && r.0.permissions[id] == s.permissions[id])
  {
  }

  /** A row stored after the rows of `specs`, in a state that kept them, extends them. */
  lemma PermissionsStoredSnoc(t0: DbState, t: DbState, specs: seq<PermissionSpec>, rows: seq<Permission>,
                              spec: PermissionSpec, row: Permission)
    requires PermissionsStored(t0, specs, rows)
    requires forall id :: id in t0.permissions ==> id in t.permissions && t.permissions[id] == t0.permissions[id]
    requires row.action == spec.action && row.entity == spec.entity && row.access == spec.access
    requires row.id in t.permissions && t.permissions[row.id] == row
    ensures PermissionsStored(t, specs + [spec], rows + [row])
  {
    forall i | 0 <= i < |specs| + 1
      ensures && (rows + [row])[i].action == (specs + [spec])[i].action
              && (rows + [row])[i].entity == (specs + [spec])[i].entity
              && (rows + [row])[i].access == (specs + [spec])[i].access
      ensures (rows + [row])[i].id in t.permissions && t.permissions[(rows + [row])[i].id] == (rows + [row])[i]
    {
      if i < |specs| {
        assert (rows + [row])[i] == rows[i] && (specs + [spec])[i] == specs[i];
      }
    }
  }

  /** Ensuring permissions returns one stored row per entry asked for. */
  lemma {:induction false} EnsurePermissionsFacts(s: DbState, specs: seq<PermissionSpec>)
    requires PermissionRowsKeyed(s)
    ensures var r := EnsurePermissions(s, specs); PermissionRowsKeyed(r.0) && PermissionsStored(r.0, specs, r.1)
    decreases |specs|
  {
    if |specs| > 0 {
      var n := |specs| - 1;
      EnsurePermissionsFacts(s, specs[..n]);
      var prev := EnsurePermissions(s, specs[..n]);
      EnsurePermissionStores(prev.0, specs[n]);
      var step := EnsurePermission(prev.0, specs[n]);
      PermissionsStoredSnoc(prev.0, step.0, specs[..n], prev.1, specs[n], step.1);
      assert specs[..n] + [specs[n]] == specs;
    }
  }

  /** When every row asked for is already stored, ensuring the permissions changes nothing
      and returns those rows. */
  lemma {:induction false} EnsurePermissionsStable(u: DbState, specs: seq<PermissionSpec>, rows: seq<Permission>)
    requires Valid(u) && PermissionsStored(u, specs, rows)
    ensures EnsurePermissions(u, specs) == (u, rows)
    decreases |specs|
  {
    if |specs| > 0 {
      var n := |specs| - 1;
      EnsurePermissionsStable(u, specs[..n], rows[..n]);
      assert PermissionTaken(u, specs[n].action, specs[n].entity, specs[n].access);
      assert PermissionIdFor(u, specs[n]) == rows[n].id;
      assert rows[..n] + [rows[n]] == rows;
    }
  }

  /** Ensuring `a + b` is ensuring `a`, then `b` from there. */
  lemma {:induction false} EnsurePermissionsAppend(s: DbState, a: seq<PermissionSpec>, b: seq<PermissionSpec>)
    ensures var ra := EnsurePermissions(s, a);
      var rb := EnsurePermissions(ra.0, b);
      EnsurePermissions(s, a + b) == (rb.0, ra.1 + rb.1)
    decreases |b|
  {
    if |b| == 0 {
      assert a + b == a;
      assert EnsurePermissions(s, a).1 + [] == EnsurePermissions(s, a).1;
    } else {
      var n := |b| - 1;
      EnsurePermissionsAppend(s, a, b[..n]);
      assert (a + b)[..|a + b| - 1] == a + b[..n];
      assert (a + b)[|a + b| - 1] == b[n];
      var ra := EnsurePermissions(s, a);
      var rb := EnsurePermissions(ra.0, b[..n]);
      var step := EnsurePermission(rb.0, b[n]);
      assert EnsurePermissions(ra.0, b) == (step.0, rb.1 + [step.1]);
      assert EnsurePermissions(s, a + b) == (step.0, (ra.1 + rb.1) + [step.1]);
      assert (ra.1 + rb.1) + [step.1] == ra.1 + (rb.1 + [step.1]);
    }
  }

  // ---------------------------------------------------------------------------------
  // Role-permission links
  // ---------------------------------------------------------------------------------

  /** One entry of the link plan: a role name and the actions and access levels it gets. */
  datatype Grant = Grant(roleName: string, actions: seq<Action>, access: seq<Access>)

  const DefaultGrants: seq<Grant> := [
    Grant("OWNER", Actions, [Own, Any]),
    Grant("ADMIN", Actions, [Own, Any]),
    Grant("MEMBER", Actions, [Own])]

  /** Where `roles.find(r => r.name === name)` stops: the first role with that name, or
      `|roles|` when there is none. */
  function FirstRoleIndex(roles: seq<Role>, name: string): (i: nat)
    ensures i <= |roles|
    ensures i < |roles| ==> roles[i].name == name
    ensures forall j :: 0 <= j < i ==> roles[j].name != name
    decreases |roles|
  {
    if |roles| == 0 then 0
    else if roles[0].name == name then 0
    else 1 + FirstRoleIndex(roles[1..], name)
  }

  function FindRole(roles: seq<Role>, name: string): (r: Option<Role>)
    ensures r.None? <==> forall j :: 0 <= j < |roles| ==> roles[j].name != name
  {
    var i := FirstRoleIndex(roles, name);
    if i < |roles| then Some(roles[i]) else None
  }

  /** Where `permissions.find(p => p.action === action && p.access === access)` stops; the
      entity takes no part in the test. */
  function FirstPermissionIndex(ps: seq<Permission>, action: Action, access: Access): (i: nat)
    ensures i <= |ps|
    ensures i < |ps| ==> ps[i].action == action && ps[i].access == access
    ensures forall j :: 0 <= j < i ==> !(ps[j].action == action && ps[j].access == access)
    decreases |ps|
  {
    if |ps| == 0 then 0
    else if ps[0].action == action && ps[0].access == access then 0
    else 1 + FirstPermissionIndex(ps[1..], action, access)
  }

  function FindPermission(ps: seq<Permission>, action: Action, access: Access): (r: Option<Permission>)
    ensures r.None? <==> forall j :: 0 <= j < |ps| ==> !(ps[j].action == action && ps[j].access == access)
  {
    var i := FirstPermissionIndex(ps, action, access);
    if i < |ps| then Some(ps[i]) else None
  }

  /** The links the innermost loop pushes for one action: one per access level whose
      permission is found. */
  function LinksForAccess(role: Role, action: Action, levels: seq<Access>, ps: seq<Permission>)
    : seq<RolePermission>
    decreases |levels|
  {
    if |levels| == 0 then []
    else
      LinksForAccess(role, action, levels[..|levels| - 1], ps) +
      match FindPermission(ps, action, levels[|levels| - 1])
      case None => []
      case Some(p) => [RolePermission(role.id, p.id)]
  }

  function LinksForActions(role: Role, actions: seq<Action>, levels: seq<Access>, ps: seq<Permission>)
    : seq<RolePermission>
    decreases |actions|
  {
    if |actions| == 0 then []
    else LinksForActions(role, actions[..|actions| - 1], levels, ps) +
         LinksForAccess(role, actions[|actions| - 1], levels, ps)
  }

  /** One more access level adds at most the link to that level's permission. */
  lemma LinksForAccessSnoc(role: Role, action: Action, levels: seq<Access>, ps: seq<Permission>, i: nat)
    requires i < |levels|
    ensures LinksForAccess(role, action, levels[..i + 1], ps) ==
            LinksForAccess(role, action, levels[..i], ps) +
            match FindPermission(ps, action, levels[i])
            case None => []
            case Some(p) => [RolePermission(role.id, p.id)]
  {
    assert levels[..i + 1][..i] == levels[..i];
  }

  /** One more action adds that action's links. */
  lemma LinksForActionsSnoc(role: Role, actions: seq<Action>, levels: seq<Access>, ps: seq<Permission>, i: nat)
    requires i < |actions|
    ensures LinksForActions(role, actions[..i + 1], levels, ps) ==
            LinksForActions(role, actions[..i], levels, ps) + LinksForAccess(role, actions[i], levels, ps)
  {
    assert actions[..i + 1][..i] == actions[..i];
  }

  /** One grant's links; none when its role is not among `roles`. */
  function LinksForGrant(roles: seq<Role>, ps: seq<Permission>, g: Grant): seq<RolePermission>
  {
    match FindRole(roles, g.roleName)
    case None => []
    case Some(role) => LinksForActions(role, g.actions, g.access, ps)
  }

  /** `rolePermissionValues` after the three nested loops. */
  function LinksForGrants(roles: seq<Role>, ps: seq<Permission>, grants: seq<Grant>): seq<RolePermission>
    decreases |grants|
  {
    if |grants| == 0 then []
    else LinksForGrants(roles, ps, grants[..|grants| - 1]) + LinksForGrant(roles, ps, grants[|grants| - 1])
  }

  /** Rows in the order of the default permission plan, as far as the lookup sees them. */
  predicate LikeDefaultPermissions(ps: seq<Permission>)
  {
    |ps| == |DefaultPermissionPlan| &&
    forall i :: 0 <= i < |ps| ==>
      ps[i].action == DefaultPermissionPlan[i].action && ps[i].access == DefaultPermissionPlan[i].access
  }

  /** What the lookup by action and access sees of the default rows: the six `user`
      permissions first, in loop order, and no row for creating or deleting one's own
      record. */
  predicate UserSixFirst(ps: seq<Permission>)
  {
    && |ps| >= 6
    && ps[0].action == Create && ps[0].access == Any
    && ps[1].action == Read && ps[1].access == Own
    && ps[2].action == Read && ps[2].access == Any
    && ps[3].action == Update && ps[3].access == Own
    && ps[4].action == Update && ps[4].access == Any
    && ps[5].action == Delete && ps[5].access == Any
    && forall j :: 0 <= j < |ps| ==> !Skipped(ps[j].action, ps[j].access)
  }

  lemma DefaultRowsUserSixFirst(ps: seq<Permission>)
    requires LikeDefaultPermissions(ps)
    ensures UserSixFirst(ps)
  {
    DefaultPermissionPlanShape();
    var d := DefaultPermissionPlan;
    assert d[0] == d[..6][0] && d[1] == d[..6][1] && d[2] == d[..6][2];
    assert d[3] == d[..6][3] && d[4] == d[..6][4] && d[5] == d[..6][5];
    forall j | 0 <= j < |ps|
      ensures !Skipped(ps[j].action, ps[j].access)
    {
      assert d[j] in d;
    }
  }

  /** The lookup stops at the first row that matches. */
  lemma FindPermissionAt(ps: seq<Permission>, action: Action, access: Access, k: nat)
    requires k < |ps| && ps[k].action == action && ps[k].access == access
    requires forall j :: 0 <= j < k ==> !(ps[j].action == action && ps[j].access == access)
    ensures FindPermission(ps, action, access) == Some(ps[k])
  {
  }

  /** The lookup by action and access finds the six `user` permissions, and nothing for
      creating or deleting one's own record. */
  lemma DefaultLookups(ps: seq<Permission>)
    requires UserSixFirst(ps)
    ensures FindPermission(ps, Create, Any) == Some(ps[0])
    ensures FindPermission(ps, Read, Own) == Some(ps[1])
    ensures FindPermission(ps, Read, Any) == Some(ps[2])
    ensures FindPermission(ps, Update, Own) == Some(ps[3])
    ensures FindPermission(ps, Update, Any) == Some(ps[4])
    ensures FindPermission(ps, Delete, Any) == Some(ps[5])
    ensures FindPermission(ps, Create, Own) == None
    ensures FindPermission(ps, Delete, Own) == None
  {
    FindPermissionAt(ps, Create, Any, 0);
    FindPermissionAt(ps, Read, Own, 1);
    FindPermissionAt(ps, Read, Any, 2);
    FindPermissionAt(ps, Update, Own, 3);
    FindPermissionAt(ps, Update, Any, 4);
    FindPermissionAt(ps, Delete, Any, 5);
  }

  /** One role's links for each action, over own alone and over own and any. */
  lemma LinksForEachAction(role: Role, ps: seq<Permission>)
    requires UserSixFirst(ps)
    ensures LinksForAccess(role, Create, [Own], ps) == []
    ensures LinksForAccess(role, Read, [Own], ps) == [RolePermission(role.id, ps[1].id)]
    ensures LinksForAccess(role, Update, [Own], ps) == [RolePermission(role.id, ps[3].id)]
    ensures LinksForAccess(role, Delete, [Own], ps) == []
    ensures LinksForAccess(role, Create, [Own, Any], ps) == [RolePermission(role.id, ps[0].id)]
    ensures LinksForAccess(role, Read, [Own, Any], ps) == [RolePermission(role.id, ps[1].id), RolePermission(role.id, ps[2].id)]
    ensures LinksForAccess(role, Update, [Own, Any], ps) == [RolePermission(role.id, ps[3].id), RolePermission(role.id, ps[4].id)]
    ensures LinksForAccess(role, Delete, [Own, Any], ps) == [RolePermission(role.id, ps[5].id)]
  {
    DefaultLookups(ps);
    assert [Own, Any][..1] == [Own] && [Own][..0] == [];
  }

  /** The prefixes of the action list. */
  lemma ActionPrefixes()
    ensures Actions[..3] == [Create, Read, Update] && [Create, Read, Update][..2] == [Create, Read]
    ensures [Create, Read][..1] == [Create] && [Create][..0] == []
  {
  }

  /** One role's links for every action over own and any, written out. */
  lemma LinksForAllActions(role: Role, ps: seq<Permission>)
    requires UserSixFirst(ps)
    ensures LinksForActions(role, Actions, [Own, Any], ps) == FullLinks(role.id, ps)
  {
    LinksForEachAction(role, ps);
    ActionPrefixes();
    var lv := [Own, Any];
    var r := role.id;
    assert LinksForActions(role, [Create], lv, ps) == [RolePermission(r, ps[0].id)];
    assert LinksForActions(role, [Create, Read], lv, ps) ==
      [RolePermission(r, ps[0].id)] + [RolePermission(r, ps[1].id), RolePermission(r, ps[2].id)];
    assert LinksForActions(role, [Create, Read, Update], lv, ps) ==
      [RolePermission(r, ps[0].id), RolePermission(r, ps[1].id), RolePermission(r, ps[2].id)] +
      [RolePermission(r, ps[3].id), RolePermission(r, ps[4].id)];
  }

  /** One role's links for every action over own alone, written out. */
  lemma LinksForAllActionsOwn(role: Role, ps: seq<Permission>)
    requires UserSixFirst(ps)
    ensures LinksForActions(role, Actions, [Own], ps) == OwnLinks(role.id, ps)
  {
    LinksForEachAction(role, ps);
    ActionPrefixes();
    var r := role.id;
    assert LinksForActions(role, [Create], [Own], ps) == [];
    assert LinksForActions(role, [Create, Read], [Own], ps) == [RolePermission(r, ps[1].id)];
    assert LinksForActions(role, [Create, Read, Update], [Own], ps) ==
      [RolePermission(r, ps[1].id), RolePermission(r, ps[3].id)];
  }

  /** A role's links to the six permissions found for every action over own and any. */
  function FullLinks(roleId: Id, ps: seq<Permission>): seq<RolePermission>
    requires |ps| >= 6
  {
    [RolePermission(roleId, ps[0].id), RolePermission(roleId, ps[1].id),
     RolePermission(roleId, ps[2].id), RolePermission(roleId, ps[3].id),
     RolePermission(roleId, ps[4].id), RolePermission(roleId, ps[5].id)]
  }

  /** A role's links to the two permissions found over own alone. */
  function OwnLinks(roleId: Id, ps: seq<Permission>): seq<RolePermission>
    requires |ps| >= 6
  {
    [RolePermission(roleId, ps[1].id), RolePermission(roleId, ps[3].id)]
  }

  /** The 14 default links: OWNER and ADMIN each to the six permissions found, MEMBER to
      read-own and update-own. All of them are permissions of the first entity, `user`. */
  function DefaultLinks(roles: seq<Role>, ps: seq<Permission>): seq<RolePermission>
    requires |roles| == 3 && |ps| >= 6
  {
    FullLinks(roles[0].id, ps) + FullLinks(roles[1].id, ps) + OwnLinks(roles[2].id, ps)
  }

  /** The lookup by name stops at the first role with that name. */
  lemma FindRoleAt(roles: seq<Role>, name: string, k: nat)
    requires k < |roles| && roles[k].name == name
    requires forall j :: 0 <= j < k ==> roles[j].name != name
    ensures FindRole(roles, name) == Some(roles[k])
  {
  }

  /** The lookup by name finds each default role at its place in the list. */
  lemma DefaultRoleLookups(roles: seq<Role>)
    requires |roles| == 3 && roles[0].name == "OWNER" && roles[1].name == "ADMIN" && roles[2].name == "MEMBER"
    ensures FindRole(roles, "OWNER") == Some(roles[0])
    ensures FindRole(roles, "ADMIN") == Some(roles[1])
    ensures FindRole(roles, "MEMBER") == Some(roles[2])
  {
    assert "OWNER"[0] != "ADMIN"[0] && "OWNER"[0] != "MEMBER"[0] && "ADMIN"[0] != "MEMBER"[0];
    FindRoleAt(roles, "OWNER", 0);
    FindRoleAt(roles, "ADMIN", 1);
    FindRoleAt(roles, "MEMBER", 2);
  }

  lemma {:induction false} DefaultLinksExact(roles: seq<Role>, ps: seq<Permission>)
    requires |roles| == 3 && roles[0].name == "OWNER" && roles[1].name == "ADMIN" && roles[2].name == "MEMBER"
    requires UserSixFirst(ps)
    ensures LinksForGrants(roles, ps, DefaultGrants) == DefaultLinks(roles, ps)
  {
    var six0 := LinksForActions(roles[0], Actions, [Own, Any], ps);
    var six1 := LinksForActions(roles[1], Actions, [Own, Any], ps);
    var two2 := LinksForActions(roles[2], Actions, [Own], ps);
    LinksForAllActions(roles[0], ps);
    LinksForAllActions(roles[1], ps);
    LinksForAllActionsOwn(roles[2], ps);
    DefaultRoleLookups(roles);
    var g := DefaultGrants;
    assert LinksForGrant(roles, ps, g[0]) == six0;
    assert LinksForGrant(roles, ps, g[1]) == six1;
    assert LinksForGrant(roles, ps, g[2]) == two2;
    assert g[..2][..1] == [g[0]] && g[..2] == [g[0], g[1]] && [g[0]][..0] == [];
    assert LinksForGrants(roles, ps, [g[0]]) == six0;
    assert LinksForGrants(roles, ps, g[..2]) == six0 + six1;
    assert LinksForGrants(roles, ps, g) == six0 + six1 + two2;
  }

  /** The set of links in a plan. */
  function LinkSet(vs: seq<RolePermission>): set<RolePermission>
  {
    set l | l in vs
  }

  /** One value of the link transaction: skipped when the link exists, inserted otherwise. */
  function InsertLink(s: DbState, link: RolePermission): Result<DbState>
  {
    if link in s.rolePermissions then Ok(s)
    else
      match RolePermissionInsertError(s, link)
      case Some(e) => Err(e)
      case None => Ok(s.(rolePermissions := s.rolePermissions + {link}))
  }

  /** The link transaction's body over all values, stopping at the first error. */
  function InsertLinks(s: DbState, vs: seq<RolePermission>): Result<DbState>
    decreases |vs|
  {
    if |vs| == 0 then Ok(s)
    else
      match InsertLinks(s, vs[..|vs| - 1])
      case Err(e) => Err(e)
      case Ok(t) => InsertLink(t, vs[|vs| - 1])
  }

  /** `createRolePermissions`: the transaction commits when its body succeeds; on an error
      it rolls back, and the error is logged and dropped. */
  function CreateLinksState(s: DbState, vs: seq<RolePermission>): DbState
  {
    if |vs| == 0 then s
    else
      match InsertLinks(s, vs)
      case Ok(t) => t
      case Err(_) => s
  }

  /** Every link refers to a stored role and a stored permission. */
  predicate LinksInsertable(s: DbState, vs: seq<RolePermission>)
  {
    forall l :: l in vs ==> l.roleId in s.roles && l.permissionId in s.permissions
  }

  /** The default links refer only to the three roles and the first six permissions. */
  lemma DefaultLinksInsertable(t: DbState, roles: seq<Role>, ps: seq<Permission>)
    requires |roles| == 3 && |ps| >= 6
    requires roles[0].id in t.roles && roles[1].id in t.roles && roles[2].id in t.roles
    requires ps[0].id in t.permissions && ps[1].id in t.permissions && ps[2].id in t.permissions
    requires ps[3].id in t.permissions && ps[4].id in t.permissions && ps[5].id in t.permissions
    ensures LinksInsertable(t, DefaultLinks(roles, ps))
  {
    var o, a, m := FullLinks(roles[0].id, ps), FullLinks(roles[1].id, ps), OwnLinks(roles[2].id, ps);
    forall l | l in DefaultLinks(roles, ps)
      ensures l.roleId in t.roles && l.permissionId in t.permissions
    {
      assert l in o || l in a || l in m;
    }
  }

  /** With every reference present the transaction succeeds and adds exactly the links not
      there yet. */
  lemma {:induction false} InsertLinksAdds(s: DbState, vs: seq<RolePermission>)
    requires LinksInsertable(s, vs)
    ensures InsertLinks(s, vs) == Ok(s.(rolePermissions := s.rolePermissions + LinkSet(vs)))
    decreases |vs|
  {
    if |vs| > 0 {
      var n := |vs| - 1;
      assert LinksInsertable(s, vs[..n]) by {
        forall l | l in vs[..n] ensures l in vs { }
      }
      InsertLinksAdds(s, vs[..n]);
      var t := s.(rolePermissions := s.rolePermissions + LinkSet(vs[..n]));
      assert InsertLinks(s, vs) == InsertLink(t, vs[n]);
      assert vs == vs[..n] + [vs[n]];
      assert LinkSet(vs) == LinkSet(vs[..n]) + {vs[n]};
      assert vs[n] in vs;
      var u := s.(rolePermissions := s.rolePermissions + LinkSet(vs));
      assert u.rolePermissions == t.rolePermissions + {vs[n]};
      if vs[n] in t.rolePermissions {
        assert u.rolePermissions == t.rolePermissions;
        assert u == t;
      } else {
        assert RolePermissionInsertError(t, vs[n]).None?;
        assert u == t.(rolePermissions := t.rolePermissions + {vs[n]});
      }
    } else {
      assert LinkSet(vs) == {};
      assert s.rolePermissions + LinkSet(vs) == s.rolePermissions;
    }
  }

  /** Adding links between stored roles and stored permissions keeps every constraint. */
  lemma AddLinksValid(s: DbState, vs: seq<RolePermission>)
    requires Valid(s) && LinksInsertable(s, vs)
    ensures Valid(s.(rolePermissions := s.rolePermissions + LinkSet(vs)))
  {
  }

  /** Links that are all there already: the transaction changes nothing. */
  lemma {:induction false} InsertLinksPresent(s: DbState, vs: seq<RolePermission>)
    requires LinkSet(vs) <= s.rolePermissions
    ensures InsertLinks(s, vs) == Ok(s)
    decreases |vs|
  {
    if |vs| > 0 {
      var n := |vs| - 1;
      assert LinkSet(vs[..n]) <= LinkSet(vs) by {
        forall l | l in vs[..n] ensures l in vs { }
      }
      InsertLinksPresent(s, vs[..n]);
      assert vs[n] in LinkSet(vs);
    }
  }

  // ---------------------------------------------------------------------------------
  // The whole seed
  // ---------------------------------------------------------------------------------

  /** The roles `seed()` gets back from `createDefaultRoles`, and the state after it. */
  ghost function SeededRoles(s: DbState): (DbState, seq<Role>)
  {
    EnsureRoles(s, DefaultRoles)
  }

  /** The permissions `seed()` gets back from `createDefaultPermissions`, and the state
      after it. */
  ghost function SeededPermissions(s: DbState): (DbState, seq<Permission>)
  {
    EnsurePermissions(SeededRoles(s).0, DefaultPermissionPlan)
  }

  /** `seed()`: roles, then permissions, then the links planned from the rows returned. */
  ghost function SeedState(s: DbState): DbState
  {
    CreateLinksState(SeededPermissions(s).0,
                     LinksForGrants(SeededRoles(s).1, SeededPermissions(s).1, DefaultGrants))
  }

  /** Every default role and every default permission is stored. */
  ghost predicate Seeded(t: DbState)
  {
    && RoleNameTaken(t, "OWNER") && RoleNameTaken(t, "ADMIN") && RoleNameTaken(t, "MEMBER")
    && (forall spec :: spec in DefaultPermissionPlan ==> PermissionTaken(t, spec.action, spec.entity, spec.access))
    && (forall action, access :: Seedable(action, access) ==> PermissionTaken(t, action, "user", access))
  }

  /** The id of the `user` permission for an action and access level. */
  ghost function UserPermissionId(t: DbState, action: Action, access: Access): Id
    requires PermissionTaken(t, action, "user", access)
  {
    PermissionIdFor(t, PermissionSpec(action, "user", access))
  }

  /** A stored role is the one found by its name. */
  lemma RoleIdNamedAt(t: DbState, r: Role)
    requires Valid(t) && r.id in t.roles && t.roles[r.id] == r
    ensures RoleNameTaken(t, r.name) && RoleIdNamed(t, r.name) == r.id
  {
  }

  /** A stored permission is the one found by its action, entity and access. */
  lemma PermissionIdAt(t: DbState, p: Permission)
    requires Valid(t) && p.id in t.permissions && t.permissions[p.id] == p
    ensures PermissionTaken(t, p.action, p.entity, p.access)
    ensures PermissionIdFor(t, PermissionSpec(p.action, p.entity, p.access)) == p.id
  {
  }

  /** After roles and permissions: every constraint kept, the rows returned are stored,
      and no link, organization, user or membership was written. */
  lemma SeedRowsStored(s: DbState)
    requires Valid(s)
    ensures var (s2, ps) := SeededPermissions(s);
      && Valid(s2) && RolesStored(s2, DefaultRoles, SeededRoles(s).1)
      && PermissionsStored(s2, DefaultPermissionPlan, ps)
      && s2.rolePermissions == s.rolePermissions
      && s2.organizations == s.organizations && s2.users == s.users
      && s2.memberships == s.memberships && s2.membershipRoles == s.membershipRoles
  {
    var (s1, roles) := SeededRoles(s);
    ValidRoleRowsKeyed(s);
    EnsureRolesFacts(s, DefaultRoles);
    EnsureRolesKeep(s, DefaultRoles);
    ValidPermissionRowsKeyed(s1);
    EnsurePermissionsFacts(s1, DefaultPermissionPlan);
    EnsurePermissionsKeep(s1, DefaultPermissionPlan);
  }

  /** The links planned from those rows are the 14 default links, all insertable, and the
      seed ends with them added. */
  lemma SeedLinksAdded(s: DbState)
    requires Valid(s)
    ensures var roles := SeededRoles(s).1;
      var (s2, ps) := SeededPermissions(s);
      && |roles| == 3 && UserSixFirst(ps)
      && LinksForGrants(roles, ps, DefaultGrants) == DefaultLinks(roles, ps)
      && LinksInsertable(s2, DefaultLinks(roles, ps))
      && SeedState(s) == s2.(rolePermissions := s2.rolePermissions + LinkSet(DefaultLinks(roles, ps)))
      && Valid(SeedState(s))
  {
    SeedRowsStored(s);
    var roles := SeededRoles(s).1;
    var (s2, ps) := SeededPermissions(s);
    assert roles[0].name == "OWNER" && roles[1].name == "ADMIN" && roles[2].name == "MEMBER";
    DefaultPermissionPlanShape();
    DefaultRowsUserSixFirst(ps);
    DefaultLinksExact(roles, ps);
    var links := DefaultLinks(roles, ps);
    assert ps[0].id in s2.permissions && ps[1].id in s2.permissions && ps[2].id in s2.permissions;
    assert ps[3].id in s2.permissions && ps[4].id in s2.permissions && ps[5].id in s2.permissions;
    assert roles[0].id in s2.roles && roles[1].id in s2.roles && roles[2].id in s2.roles;
    DefaultLinksInsertable(s2, roles, ps);
    InsertLinksAdds(s2, links);
    AddLinksValid(s2, links);
  }

  /** Wherever the default roles are stored, the lookup by name finds them. */
  lemma StoredRolesFound(t: DbState, roles: seq<Role>)
    requires Valid(t) && RolesStored(t, DefaultRoles, roles)
    ensures |roles| == 3
    ensures RoleNameTaken(t, "OWNER") && RoleIdNamed(t, "OWNER") == roles[0].id
    ensures RoleNameTaken(t, "ADMIN") && RoleIdNamed(t, "ADMIN") == roles[1].id
    ensures RoleNameTaken(t, "MEMBER") && RoleIdNamed(t, "MEMBER") == roles[2].id
  {
    RoleIdNamedAt(t, roles[0]);
    RoleIdNamedAt(t, roles[1]);
    RoleIdNamedAt(t, roles[2]);
  }

  /** Wherever the default permissions are stored, each is found by its (action, entity,
      access). */
  lemma StoredPermissionsFound(t: DbState, ps: seq<Permission>)
    requires Valid(t) && PermissionsStored(t, DefaultPermissionPlan, ps)
    ensures forall spec :: spec in DefaultPermissionPlan ==> PermissionTaken(t, spec.action, spec.entity, spec.access)
  {
    var d := DefaultPermissionPlan;
    forall spec | spec in d
      ensures PermissionTaken(t, spec.action, spec.entity, spec.access)
    {
      var i :| 0 <= i < |d| && d[i] == spec;
      assert ps[i].id in t.permissions && t.permissions[ps[i].id] == ps[i];
    }
  }

  /** The `user` permissions are the first six rows. */
  lemma StoredUserPermissionsFound(t: DbState, ps: seq<Permission>)
    requires Valid(t) && PermissionsStored(t, DefaultPermissionPlan, ps)
    ensures |ps| == 24
    ensures PermissionTaken(t, Create, "user", Any) && UserPermissionId(t, Create, Any) == ps[0].id
    ensures PermissionTaken(t, Read, "user", Own) && UserPermissionId(t, Read, Own) == ps[1].id
    ensures PermissionTaken(t, Read, "user", Any) && UserPermissionId(t, Read, Any) == ps[2].id
    ensures PermissionTaken(t, Update, "user", Own) && UserPermissionId(t, Update, Own) == ps[3].id
    ensures PermissionTaken(t, Update, "user", Any) && UserPermissionId(t, Update, Any) == ps[4].id
    ensures PermissionTaken(t, Delete, "user", Any) && UserPermissionId(t, Delete, Any) == ps[5].id
  {
    var d := DefaultPermissionPlan;
    assert d[0] == PermissionSpec(Create, "user", Any) && d[1] == PermissionSpec(Read, "user", Own);
    assert d[2] == PermissionSpec(Read, "user", Any) && d[3] == PermissionSpec(Update, "user", Own);
    assert d[4] == PermissionSpec(Update, "user", Any) && d[5] == PermissionSpec(Delete, "user", Any);
    PermissionIdAt(t, ps[0]);
    PermissionIdAt(t, ps[1]);
    PermissionIdAt(t, ps[2]);
    PermissionIdAt(t, ps[3]);
    PermissionIdAt(t, ps[4]);
    PermissionIdAt(t, ps[5]);
  }

  /** The seeded state stores the rows `createDefaultRoles` and `createDefaultPermissions`
      returned. */
  lemma SeedKeepsRows(s: DbState)
    requires Valid(s)
    ensures var t := SeedState(s);
      && Valid(t) && RolesStored(t, DefaultRoles, SeededRoles(s).1)
      && PermissionsStored(t, DefaultPermissionPlan, SeededPermissions(s).1)
  {
    SeedRowsStored(s);
    SeedLinksAdded(s);
    var (s2, ps) := SeededPermissions(s);
    var t := SeedState(s);
    assert t.roles == s2.roles && t.permissions == s2.permissions;
  }

  /** What the 14 default links are, as a set: OWNER and ADMIN to each of the first six
      rows, MEMBER to the second and fourth, and no other permission. */
  lemma DefaultLinkSet(roles: seq<Role>, ps: seq<Permission>)
    requires |roles| == 3 && |ps| >= 6
    ensures forall k :: 0 <= k < 6 ==>
      && RolePermission(roles[0].id, ps[k].id) in LinkSet(DefaultLinks(roles, ps))
      && RolePermission(roles[1].id, ps[k].id) in LinkSet(DefaultLinks(roles, ps))
    ensures RolePermission(roles[2].id, ps[1].id) in LinkSet(DefaultLinks(roles, ps))
    ensures RolePermission(roles[2].id, ps[3].id) in LinkSet(DefaultLinks(roles, ps))
    ensures forall l :: l in LinkSet(DefaultLinks(roles, ps)) ==>
      l.permissionId in {ps[0].id, ps[1].id, ps[2].id, ps[3].id, ps[4].id, ps[5].id}
  {
    DefaultLinksAt(roles, ps);
    DefaultLinksCover(roles, ps);
  }

  /** Where each default link sits in the list. */
  lemma DefaultLinksAt(roles: seq<Role>, ps: seq<Permission>)
    requires |roles| == 3 && |ps| >= 6
    ensures |DefaultLinks(roles, ps)| == 14
    ensures forall k :: 0 <= k < 6 ==>
      && DefaultLinks(roles, ps)[k] == RolePermission(roles[0].id, ps[k].id)
      && DefaultLinks(roles, ps)[6 + k] == RolePermission(roles[1].id, ps[k].id)
    ensures DefaultLinks(roles, ps)[12] == RolePermission(roles[2].id, ps[1].id)
    ensures DefaultLinks(roles, ps)[13] == RolePermission(roles[2].id, ps[3].id)
  {
  }

  /** Every default link goes to one of the first six rows. */
  lemma DefaultLinksCover(roles: seq<Role>, ps: seq<Permission>)
    requires |roles| == 3 && |ps| >= 6
    ensures forall l :: l in LinkSet(DefaultLinks(roles, ps)) ==>
      l.permissionId in {ps[0].id, ps[1].id, ps[2].id, ps[3].id, ps[4].id, ps[5].id}
  {
    var o, a, m := FullLinks(roles[0].id, ps), FullLinks(roles[1].id, ps), OwnLinks(roles[2].id, ps);
    forall l | l in LinkSet(DefaultLinks(roles, ps))
      ensures l.permissionId in {ps[0].id, ps[1].id, ps[2].id, ps[3].id, ps[4].id, ps[5].id}
    {
      assert l in o || l in a || l in m;
    }
  }

  /** The grants held once the default rows are stored and the default links added to
      `base`. */
  ghost predicate DefaultGrantsHeld(t: DbState, base: set<RolePermission>)
    requires Seeded(t)
  {
    && (forall action, access :: Seedable(action, access) ==>
          && RolePermission(RoleIdNamed(t, "OWNER"), UserPermissionId(t, action, access)) in t.rolePermissions
          && RolePermission(RoleIdNamed(t, "ADMIN"), UserPermissionId(t, action, access)) in t.rolePermissions)
    && RolePermission(RoleIdNamed(t, "MEMBER"), UserPermissionId(t, Read, Own)) in t.rolePermissions
    && RolePermission(RoleIdNamed(t, "MEMBER"), UserPermissionId(t, Update, Own)) in t.rolePermissions
    && (forall l :: l in t.rolePermissions - base ==>
          l.permissionId in {UserPermissionId(t, Create, Any), UserPermissionId(t, Read, Own),
                             UserPermissionId(t, Read, Any), UserPermissionId(t, Update, Own),
                             UserPermissionId(t, Update, Any), UserPermissionId(t, Delete, Any)})
  }

  /** Where the default rows are stored, the three roles are found as the first three rows
      and the six `user` permissions as the first six rows. */
  lemma StoredSeedFound(t: DbState, roles: seq<Role>, ps: seq<Permission>)
    requires Valid(t) && RolesStored(t, DefaultRoles, roles) && PermissionsStored(t, DefaultPermissionPlan, ps)
    ensures Seeded(t) && |roles| == 3 && |ps| >= 6
    ensures RoleIdNamed(t, "OWNER") == roles[0].id && RoleIdNamed(t, "ADMIN") == roles[1].id
    ensures RoleIdNamed(t, "MEMBER") == roles[2].id
    ensures UserPermissionId(t, Create, Any) == ps[0].id && UserPermissionId(t, Read, Own) == ps[1].id
    ensures UserPermissionId(t, Read, Any) == ps[2].id && UserPermissionId(t, Update, Own) == ps[3].id
    ensures UserPermissionId(t, Update, Any) == ps[4].id && UserPermissionId(t, Delete, Any) == ps[5].id
  {
    StoredRolesFound(t, roles);
    StoredPermissionsFound(t, ps);
    StoredUserPermissionsFound(t, ps);
    SeededWhenFound(t);
  }

  /** The roles, the plan and the six `user` permissions found make a seeded state. */
  lemma SeededWhenFound(t: DbState)
    requires RoleNameTaken(t, "OWNER") && RoleNameTaken(t, "ADMIN") && RoleNameTaken(t, "MEMBER")
    requires forall spec :: spec in DefaultPermissionPlan ==> PermissionTaken(t, spec.action, spec.entity, spec.access)
    requires PermissionTaken(t, Create, "user", Any) && PermissionTaken(t, Read, "user", Own)
    requires PermissionTaken(t, Read, "user", Any) && PermissionTaken(t, Update, "user", Own)
    requires PermissionTaken(t, Update, "user", Any) && PermissionTaken(t, Delete, "user", Any)
    ensures Seeded(t)
  {
    forall action, access | Seedable(action, access)
      ensures PermissionTaken(t, action, "user", access)
    {
      if action == Read || action == Update {
        assert access == Own || access == Any;
      }
    }
  }

  /** Every `user` permission the seed creates is one of the first six rows. */
  lemma UserPermissionAmongFirstSix(t: DbState, ps: seq<Permission>, action: Action, access: Access)
    requires Seeded(t) && |ps| >= 6 && Seedable(action, access)
    requires UserPermissionId(t, Create, Any) == ps[0].id && UserPermissionId(t, Read, Own) == ps[1].id
    requires UserPermissionId(t, Read, Any) == ps[2].id && UserPermissionId(t, Update, Own) == ps[3].id
    requires UserPermissionId(t, Update, Any) == ps[4].id && UserPermissionId(t, Delete, Any) == ps[5].id
    ensures exists k :: 0 <= k < 6 && UserPermissionId(t, action, access) == ps[k].id
  {
    if action == Create {
      assert UserPermissionId(t, action, access) == ps[0].id;
    } else if action == Read && access == Own {
      assert UserPermissionId(t, action, access) == ps[1].id;
    } else if action == Read {
      assert UserPermissionId(t, action, access) == ps[2].id;
    } else if action == Update && access == Own {
      assert UserPermissionId(t, action, access) == ps[3].id;
    } else if action == Update {
      assert UserPermissionId(t, action, access) == ps[4].id;
    } else {
      assert UserPermissionId(t, action, access) == ps[5].id;
    }
  }

  /** With the default rows found and the default links added to `base`, the default
      grants hold. */
  lemma StoredGrantsHeld(t: DbState, base: set<RolePermission>, roles: seq<Role>, ps: seq<Permission>)
    requires Seeded(t) && |roles| == 3 && |ps| >= 6
    requires RoleIdNamed(t, "OWNER") == roles[0].id && RoleIdNamed(t, "ADMIN") == roles[1].id
    requires RoleIdNamed(t, "MEMBER") == roles[2].id
    requires UserPermissionId(t, Create, Any) == ps[0].id && UserPermissionId(t, Read, Own) == ps[1].id
    requires UserPermissionId(t, Read, Any) == ps[2].id && UserPermissionId(t, Update, Own) == ps[3].id
    requires UserPermissionId(t, Update, Any) == ps[4].id && UserPermissionId(t, Delete, Any) == ps[5].id
    requires t.rolePermissions == base + LinkSet(DefaultLinks(roles, ps))
    ensures DefaultGrantsHeld(t, base)
  {
    DefaultLinkSet(roles, ps);
    forall action, access | Seedable(action, access)
      ensures exists k :: 0 <= k < 6 && UserPermissionId(t, action, access) == ps[k].id
    {
      UserPermissionAmongFirstSix(t, ps, action, access);
    }
  }

  /** Seeding keeps every constraint, stores every default role and permission, links
      OWNER and ADMIN to every `user` permission and MEMBER to the read-own and update-own
      `user` permissions, and adds no other link: no role is linked to a permission of
      another entity. */
  lemma SeedGrants(s: DbState)
    requires Valid(s)
    ensures var t := SeedState(s); Valid(t) && Seeded(t) && DefaultGrantsHeld(t, s.rolePermissions)
  {
    SeedRowsStored(s);
    SeedLinksAdded(s);
    SeedKeepsRows(s);
    StoredSeedFound(SeedState(s), SeededRoles(s).1, SeededPermissions(s).1);
    StoredGrantsHeld(SeedState(s), s.rolePermissions, SeededRoles(s).1, SeededPermissions(s).1);
  }

  /** A second seed finds every role, permission and link in place and changes nothing. */
  lemma SeedIdempotent(s: DbState)
    requires Valid(s)
    ensures SeedState(SeedState(s)) == SeedState(s)
  {
    SeedRowsStored(s);
    SeedLinksAdded(s);
    var roles := SeededRoles(s).1;
    var (s2, ps) := SeededPermissions(s);
    var t := SeedState(s);
    var links := DefaultLinks(roles, ps);
    assert t.roles == s2.roles && t.permissions == s2.permissions;
    assert RolesStored(t, DefaultRoles, roles);
    assert PermissionsStored(t, DefaultPermissionPlan, ps);
    EnsureRolesStable(t, DefaultRoles, roles);
    EnsurePermissionsStable(t, DefaultPermissionPlan, ps);
    assert SeededRoles(t) == (t, roles);
    assert SeededPermissions(t) == (t, ps);
    InsertLinksPresent(t, links);
  }
}
