/** User provisioning: a new user always comes with an organization of its own, a
    membership in it and the OWNER role on that membership, created in one transaction. */
module Users {
  import opened Results
  import opened Schema
  import opened Store
  import Organizations
  import Memberships
  import Permissions

  /** The user fields a caller supplies. The insert schema omits `id`,
      `activeOrganizationId`, `globalRole` and the timestamps, so there is no way to pass
      them. */
  datatype UserData = UserData(name: Option<string>, email: string)

  /** The rows `createUserWithOrganization` returns. */
  datatype CreatedUser = CreatedUser(user: User, organization: Organization, membership: Membership)

  const OwnerRole := "OWNER"

  /** The paths the input schema rejects, in schema order: the email must be well formed
      (`validEmail` stands for the schema library's email rule) and the organization name
      must have at least one character. */
  function ValidationFailures(userData: UserData, organizationName: string,
                              validEmail: string -> bool): (fields: seq<string>)
    ensures "user.email" in fields <==> !validEmail(userData.email)
    ensures "organizationName" in fields <==> organizationName == ""
    ensures fields == [] <==> validEmail(userData.email) && organizationName != ""
  {
    (if validEmail(userData.email) then [] else ["user.email"]) +
    (if organizationName != "" then [] else ["organizationName"])
  }

  /** `createUser`: inserts the user with the given active organization and the CUSTOMER
      global role, whatever the caller holds. */
  method CreateUser(db: Database, userData: UserData, activeOrganizationId: Id) returns (r: Result<User>)
    requires db.Valid()
    modifies db
    ensures db.Valid()
    ensures var e := UserInsertError(old(db.State()), userData.email, activeOrganizationId);
      if e.Some? then r == Err(e.value) && db.State() == old(db.State())
      else
        && r == Ok(User(old(db.next.user), userData.name, userData.email, activeOrganizationId, CUSTOMER))
        && db.State() == AddUser(old(db.State()), userData.name, userData.email,
                                 activeOrganizationId, CUSTOMER)
  {
    r := db.InsertUser(userData.name, userData.email, activeOrganizationId, CUSTOMER);
  }

  /** Why `createUserWithOrganization` fails, if it does: the input schema first (before
      any write), then the unique email, then a database without the OWNER role. */
  function ProvisionError(s: DbState, userData: UserData, organizationName: string,
                          validEmail: string -> bool): Option<Error>
  {
    var fields := ValidationFailures(userData, organizationName, validEmail);
    if fields != [] then Some(ValidationError(fields))
    else if EmailTaken(s, userData.email) then Some(DuplicateKey)
    else if !RoleNameTaken(s, OwnerRole) then Some(RoleNotSeeded(OwnerRole))
    else None
  }

  /** The rows created, each with the next id of its table. */
  function ProvisionedRows(s: DbState, userData: UserData, organizationName: string,
                           now: Timestamp): CreatedUser
  {
    var orgId, userId := s.next.organization, s.next.user;
    CreatedUser(User(userId, userData.name, userData.email, orgId, CUSTOMER),
                Organization(orgId, organizationName),
                Membership(s.next.membership, orgId, Some(userId), None, None, now, now))
  }

  /** The tables after the four inserts of a successful call. */
  ghost function ProvisionedState(s: DbState, userData: UserData, organizationName: string,
                                  now: Timestamp): DbState
    requires RoleNameTaken(s, OwnerRole)
  {
    var s1 := AddOrganization(s, organizationName);
    var s2 := AddUser(s1, userData.name, userData.email, s.next.organization, CUSTOMER);
    var s3 := AddMembership(s2, s.next.organization, Some(s.next.user), None, None, now);
    s3.(membershipRoles := s3.membershipRoles + {MembershipRole(s.next.membership, RoleIdNamed(s, OwnerRole))})
  }

  /** The user insert after the organization insert: the organization it points to now
      exists. */
  lemma {:induction false} UserStep(s: DbState, organizationName: string, email: string)
    requires Valid(s) && !EmailTaken(s, email)
    ensures Valid(AddOrganization(s, organizationName))
    ensures UserInsertError(AddOrganization(s, organizationName), email, s.next.organization).None?
  {
    AddOrganizationValid(s, organizationName);
  }

  /** The membership insert after the user insert: a user just created has no membership
      yet, so unique(userId, organizationId) cannot object. */
  lemma {:induction false} MembershipStep(s1: DbState, name: Option<string>, email: string, organizationId: Id)
    requires Valid(s1) && UserInsertError(s1, email, organizationId).None?
    ensures var s2 := AddUser(s1, name, email, organizationId, CUSTOMER);
      Valid(s2) && MembershipInsertError(s2, organizationId, Some(s1.next.user), None).None?
  {
    AddUserValid(s1, name, email, organizationId, CUSTOMER);
    var s2 := AddUser(s1, name, email, organizationId, CUSTOMER);
    assert s2.memberships == s1.memberships;
    assert !UserOrgTaken(s2, Some(s1.next.user), organizationId) by {
      assert forall id :: id in s1.memberships ==> s1.memberships[id].userId != Some(s1.next.user);
    }
  }

  /** Each of the four inserts passes its table's checks once the earlier ones did, and
      the states between them keep every constraint. */
  lemma {:induction false} ProvisionSteps(s: DbState, userData: UserData, organizationName: string,
                                          now: Timestamp)
    requires Valid(s) && !EmailTaken(s, userData.email) && RoleNameTaken(s, OwnerRole)
    ensures var s1 := AddOrganization(s, organizationName);
      var s2 := AddUser(s1, userData.name, userData.email, s.next.organization, CUSTOMER);
      var s3 := AddMembership(s2, s.next.organization, Some(s.next.user), None, None, now);
      && UserInsertError(s1, userData.email, s.next.organization).None?
      && MembershipInsertError(s2, s.next.organization, Some(s.next.user), None).None?
      && MembershipRoleInsertError(s3, MembershipRole(s.next.membership, RoleIdNamed(s, OwnerRole))).None?
      && Valid(ProvisionedState(s, userData, organizationName, now))
  {
    var s1 := AddOrganization(s, organizationName);
    UserStep(s, organizationName, userData.email);
    var s2 := AddUser(s1, userData.name, userData.email, s.next.organization, CUSTOMER);
    MembershipStep(s1, userData.name, userData.email, s.next.organization);
    AddMembershipLinkValid(s2, s.next.organization, Some(s.next.user), None, None, now, RoleIdNamed(s, OwnerRole));
  }

  /** The transaction callback of `createUserWithOrganization`: the four inserts, each
      using the id the previous one produced. On failure it stops at the failing insert and
      leaves the earlier ones for the transaction to roll back. */
  method ProvisionInTransaction(tx: Database, userData: UserData, organizationName: string,
                                now: Timestamp) returns (r: Result<CreatedUser>)
    requires tx.Valid()
    modifies tx
    ensures tx.Valid()
    ensures r.Err? <==> EmailTaken(old(tx.State()), userData.email) || !RoleNameTaken(old(tx.State()), OwnerRole)
    ensures r.Err? ==>
      r.error == (if EmailTaken(old(tx.State()), userData.email) then DuplicateKey else RoleNotSeeded(OwnerRole))
    ensures r.Ok? ==>
      && RoleNameTaken(old(tx.State()), OwnerRole)
      && r.value == ProvisionedRows(old(tx.State()), userData, organizationName, now)
      && tx.State() == ProvisionedState(old(tx.State()), userData, organizationName, now)
  {
    ghost var s0 := tx.State();
    ghost var s1 := AddOrganization(s0, organizationName);
    ghost var s2 := AddUser(s1, userData.name, userData.email, s0.next.organization, CUSTOMER);
    ghost var s3 := AddMembership(s2, s0.next.organization, Some(s0.next.user), None, None, now);
    var organization := Organizations.CreateOrganization(tx, organizationName);
    assert tx.State() == s1;
    var user := CreateUser(tx, userData, organization.id);
    if user.Err? {
      return Err(user.error);
    }
    assert !EmailTaken(s0, userData.email) by {
      assert s1.users == s0.users;
    }
    assert tx.State() == s2;
    MembershipStep(s1, userData.name, userData.email, s0.next.organization);
    var membership := Memberships.CreateMembership(tx, user.value.id, organization.id, now);
    if membership.Err? {
      assert false;
    }
    assert tx.State() == s3;
    if RoleNameTaken(s3, OwnerRole) {
      AddMembershipLinkValid(s2, s0.next.organization, Some(s0.next.user), None, None, now, RoleIdNamed(s3, OwnerRole));
    }
    var linked := Memberships.AddRoleToMembership(tx, membership.value.id, OwnerRole);
    if linked.Err? {
      return Err(linked.error);
    }
    ghost var link := MembershipRole(s0.next.membership, RoleIdNamed(s0, OwnerRole));
    assert RoleIdNamed(s3, OwnerRole) == RoleIdNamed(s0, OwnerRole);
    assert tx.State() == s3.(membershipRoles := s3.membershipRoles + {link});
    r := Ok(CreatedUser(user.value, organization, membership.value));
  }

  /** `createUserWithOrganization`. Validation happens before the transaction; any error
      inside it rolls every insert back before it is rethrown. */
  method CreateUserWithOrganization(db: Database, userData: UserData, organizationName: string,
                                    now: Timestamp, validEmail: string -> bool)
    returns (r: Result<CreatedUser>)
    requires db.Valid()
    modifies db
    ensures db.Valid()
    ensures var e := ProvisionError(old(db.State()), userData, organizationName, validEmail);
      if e.Some? then r == Err(e.value) && db.State() == old(db.State())
      else
        && r == Ok(ProvisionedRows(old(db.State()), userData, organizationName, now))
        && db.State() == ProvisionedState(old(db.State()), userData, organizationName, now)
  {
    var fields := ValidationFailures(userData, organizationName, validEmail);
    if fields != [] {
      return Err(ValidationError(fields));
    }
    var snapshot := db.State();
    r := ProvisionInTransaction(db, userData, organizationName, now);
    if r.Err? {
      db.Restore(snapshot);
    }
  }

  /** A successful call keeps every constraint and gives the new user the OWNER role in
      the new organization. */
  lemma {:induction false} ProvisionedValid(s: DbState, userData: UserData, organizationName: string,
                                            now: Timestamp, validEmail: string -> bool)
    requires Valid(s) && ProvisionError(s, userData, organizationName, validEmail).None?
    ensures var t := ProvisionedState(s, userData, organizationName, now);
      && Valid(t)
      && Permissions.UserHasRole(t, s.next.user, s.next.organization, OwnerRole)
  {
    ProvisionSteps(s, userData, organizationName, now);
    var t := ProvisionedState(s, userData, organizationName, now);
    var link := MembershipRole(s.next.membership, RoleIdNamed(s, OwnerRole));
    assert link in t.membershipRoles && link.membershipId in t.memberships;
    assert t.memberships[link.membershipId].userId == Some(s.next.user);
  }

  /** A successful call adds exactly one organization, one user and one membership, ties
      them together through the user's active organization and the membership, and
      changes nothing that existed before. */
  lemma {:induction false} ProvisionedRowsLinked(s: DbState, userData: UserData, organizationName: string,
                                                 now: Timestamp)
    requires Valid(s) && RoleNameTaken(s, OwnerRole)
    ensures var t := ProvisionedState(s, userData, organizationName, now);
      var rows := ProvisionedRows(s, userData, organizationName, now);
      && t.organizations == s.organizations[rows.organization.id := rows.organization]
      && t.users == s.users[rows.user.id := rows.user]
      && t.memberships == s.memberships[rows.membership.id := rows.membership]
      && |t.organizations| == |s.organizations| + 1 && |t.users| == |s.users| + 1
      && rows.organization.name == organizationName && rows.user.email == userData.email
      && rows.user.globalRole == CUSTOMER
      && rows.user.activeOrganizationId == rows.organization.id
      && rows.membership.userId == Some(rows.user.id)
      && rows.membership.organizationId == rows.organization.id
      && t.roles == s.roles && t.permissions == s.permissions
      && t.rolePermissions == s.rolePermissions
  {
    assert s.next.organization !in s.organizations && s.next.user !in s.users;
  }

  /** Once a call has succeeded, a second call with the same email fails on the unique
      email (and so, by the rollback, leaves the organization and user counts as they
      were), whatever organization name it asks for. */
  lemma {:induction false} SecondCallSameEmailRefused(s: DbState, userData: UserData,
                                                      organizationName: string, otherName: string,
                                                      now: Timestamp, validEmail: string -> bool)
    requires Valid(s) && ProvisionError(s, userData, organizationName, validEmail).None?
    requires otherName != ""
    ensures ProvisionError(ProvisionedState(s, userData, organizationName, now), userData, otherName,
                           validEmail) == Some(DuplicateKey)
  {
    var t := ProvisionedState(s, userData, organizationName, now);
    assert t.users[s.next.user].email == userData.email;
  }

  /** Organization names need not be unique: after a call, another user with a fresh,
      well-formed email can be provisioned with the same organization name. */
  lemma {:induction false} SameOrganizationNameAllowed(s: DbState, userData: UserData, other: UserData,
                                                       organizationName: string, now: Timestamp,
                                                       validEmail: string -> bool)
    requires Valid(s) && ProvisionError(s, userData, organizationName, validEmail).None?
    requires validEmail(other.email) && other.email != userData.email && !EmailTaken(s, other.email)
    ensures ProvisionError(ProvisionedState(s, userData, organizationName, now), other, organizationName,
                           validEmail).None?
  {
    var t := ProvisionedState(s, userData, organizationName, now);
    assert RoleIdNamed(s, OwnerRole) in t.roles;
  }
}
