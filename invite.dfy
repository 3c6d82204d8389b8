/** The invitation workflow: an invitation is a pending membership (no user, the invitee's
    email) carrying its roles; accepting it hands the membership to a user. */
module Invitations {
  import opened Results
  import opened Schema
  import opened Store
  import Memberships
  import Permissions

  /** The role an invitation carries when the caller names none. */
  const DefaultRole := "MEMBER"

  /** The `roleName = "MEMBER"` parameter default: it applies only when no name is passed,
      so an empty name stays empty. */
  function RoleOrDefault(roleName: Option<string>): (name: string)
    ensures roleName.None? ==> name == DefaultRole
    ensures roleName.Some? ==> name == roleName.value
  {
    if roleName.Some? then roleName.value else DefaultRole
  }

  // ---------------------------------------------------------------------------------
  // inviteUserToOrganization
  // ---------------------------------------------------------------------------------

  /** Why an invitation fails, if it does: an unknown organization (checked before any
      write), an email too long for the pending row's schema, an existing row of that
      organization for the email, an unknown role. */
  function InviteError(s: DbState, email: string, organizationId: Id, roleName: string): Option<Error>
  {
    if organizationId !in s.organizations then Some(OrganizationNotFound)
    else if Memberships.PendingInputFailures(email, None) != [] then
      Some(ValidationError(Memberships.PendingInputFailures(email, None)))
    else if Memberships.PendingEmailExists(s, organizationId, email) then Some(MembershipAlreadyExists)
    else if !RoleNameTaken(s, roleName) then Some(RoleNotSeeded(roleName))
    else None
  }

  /** The pending membership an invitation creates. */
  function InvitedRow(s: DbState, email: string, organizationId: Id, now: Timestamp): Membership
  {
    Membership(s.next.membership, organizationId, None, None, Some(email), now, now)
  }

  /** The tables after a successful invitation: the pending row and its one role link. */
  ghost function InvitedState(s: DbState, email: string, organizationId: Id, roleName: string,
                              now: Timestamp): DbState
    requires RoleNameTaken(s, roleName)
  {
    var t := AddMembership(s, organizationId, None, None, Some(email), now);
    t.(membershipRoles := t.membershipRoles + {MembershipRole(s.next.membership, RoleIdNamed(s, roleName))})
  }

  /** The pending insert and the link insert pass their checks once the organization
      exists, the email is free in it and the role is known. */
  lemma {:induction false} InviteSteps(s: DbState, email: string, organizationId: Id, roleName: string,
                                       now: Timestamp)
    requires Valid(s) && InviteError(s, email, organizationId, roleName).None?
    ensures MembershipInsertError(s, organizationId, None, Some(email)).None?
    ensures var t := AddMembership(s, organizationId, None, None, Some(email), now);
      var link := MembershipRole(s.next.membership, RoleIdNamed(s, roleName));
      && Valid(t) && MembershipRoleInsertError(t, link).None?
      && Valid(InvitedState(s, email, organizationId, roleName, now))
  {
    Memberships.PendingCheckIgnoresMembers(s, organizationId, email);
    AddMembershipLinkValid(s, organizationId, None, None, Some(email), now, RoleIdNamed(s, roleName));
  }

  /** The transaction callback: the organization lookup, the pending membership, the role.
      It stops at the first failure and leaves the rollback to the transaction. */
  method InviteInTransaction(tx: Database, email: string, organizationId: Id, roleName: string,
                             now: Timestamp) returns (r: Result<Membership>)
    requires tx.Valid()
    modifies tx
    ensures tx.Valid()
    ensures var e := InviteError(old(tx.State()), email, organizationId, roleName);
      && (e.Some? ==> r == Err(e.value))
      && (e.None? ==>
            && r == Ok(InvitedRow(old(tx.State()), email, organizationId, now))
            && tx.State() == InvitedState(old(tx.State()), email, organizationId, roleName, now))
  {
    ghost var s0 := tx.State();
    if organizationId !in tx.organizations {
      return Err(OrganizationNotFound);
    }
    var membership := Memberships.CreatePendingMembership(tx, organizationId, email, None, now);
    if membership.Err? {
      return Err(membership.error);
    }
    ghost var s1 := tx.State();
    if RoleNameTaken(s0, roleName) {
      InviteSteps(s0, email, organizationId, roleName, now);
    }
    var linked := Memberships.AddRoleToMembership(tx, membership.value.id, roleName);
    if linked.Err? {
      return Err(linked.error);
    }
    assert RoleIdNamed(s1, roleName) == RoleIdNamed(s0, roleName);
    r := membership;
  }

  /** `inviteUserToOrganization`, with both membership calls awaited: all or nothing. A
      missing role name means MEMBER. */
  method InviteUserToOrganization(db: Database, email: string, organizationId: Id,
                                  roleName: Option<string>, now: Timestamp) returns (r: Result<Membership>)
    requires db.Valid()
    modifies db
    ensures db.Valid()
    ensures var role := RoleOrDefault(roleName);
      var e := InviteError(old(db.State()), email, organizationId, role);
      if e.Some? then r == Err(e.value) && db.State() == old(db.State())
      else
        && r == Ok(InvitedRow(old(db.State()), email, organizationId, now))
        && db.State() == InvitedState(old(db.State()), email, organizationId, role, now)
  {
    var snapshot := db.State();
    r := InviteInTransaction(db, email, organizationId, RoleOrDefault(roleName), now);
    if r.Err? {
      db.Restore(snapshot);
    }
  }

  // ---------------------------------------------------------------------------------
  // acceptInvitation
  // ---------------------------------------------------------------------------------

  /** A membership that exists and has no user yet. */
  predicate IsPending(s: DbState, membershipId: Id)
  {
    membershipId in s.memberships && s.memberships[membershipId].userId.None?
  }

  /** Why an acceptance fails, if it does: no pending row with that id, an unknown user,
      or a user that already has a membership in that organization. */
  function AcceptError(s: DbState, membershipId: Id, userId: Id): Option<Error>
  {
    if !IsPending(s, membershipId) then Some(InvitationNotFound)
    else if userId !in s.users then Some(UserNotFound)
    else MembershipUserUpdateError(s, membershipId, userId)
  }

  /** The tables after an acceptance: the membership belongs to the user and has lost its
      invitation details, and the user's active organization is the membership's. */
  function AcceptedState(s: DbState, membershipId: Id, userId: Id, now: Timestamp): DbState
    requires membershipId in s.memberships
  {
    SetActiveOrganization(SetMembershipUser(s, membershipId, userId, now), userId,
                          s.memberships[membershipId].organizationId)
  }

  /** The transaction callback of `acceptInvitation`. */
  method AcceptInTransaction(tx: Database, membershipId: Id, userId: Id, now: Timestamp)
    returns (r: Result<Membership>)
    requires tx.Valid()
    modifies tx
    ensures tx.Valid()
    ensures var e := AcceptError(old(tx.State()), membershipId, userId);
      && (e.Some? ==> r == Err(e.value))
      && (e.None? ==>
            && r == Ok(AcceptedState(old(tx.State()), membershipId, userId, now).memberships[membershipId])
            && tx.State() == AcceptedState(old(tx.State()), membershipId, userId, now))
  {
    if !(membershipId in tx.memberships && tx.memberships[membershipId].userId.None?) {
      return Err(InvitationNotFound);
    }
    if userId !in tx.users {
      return Err(UserNotFound);
    }
    var updated := tx.UpdateMembershipUser(membershipId, userId, now);
    if updated.Err? {
      return Err(updated.error);
    }
    var activated := tx.UpdateActiveOrganization(userId, updated.value.organizationId);
    if activated.Err? {
      assert false;
    }
    r := updated;
  }

  /** `acceptInvitation`; a failure commits nothing. */
  method AcceptInvitation(db: Database, membershipId: Id, userId: Id, now: Timestamp)
    returns (r: Result<Membership>)
    requires db.Valid()
    modifies db
    ensures db.Valid()
    ensures var e := AcceptError(old(db.State()), membershipId, userId);
      if e.Some? then r == Err(e.value) && db.State() == old(db.State())
      else
        && r == Ok(AcceptedState(old(db.State()), membershipId, userId, now).memberships[membershipId])
        && db.State() == AcceptedState(old(db.State()), membershipId, userId, now)
  {
    var snapshot := db.State();
    r := AcceptInTransaction(db, membershipId, userId, now);
    if r.Err? {
      db.Restore(snapshot);
    }
  }

  /** An accepted membership keeps its organization, belongs to the user, carries no
      invitation details; the user now works in that organization, and every constraint
      still holds. */
  lemma {:induction false} AcceptedFacts(s: DbState, membershipId: Id, userId: Id, now: Timestamp)
    requires Valid(s) && AcceptError(s, membershipId, userId).None?
    ensures var t := AcceptedState(s, membershipId, userId, now);
      var m := t.memberships[membershipId];
      && Valid(t)
      && m.organizationId == s.memberships[membershipId].organizationId
      && m.userId == Some(userId) && m.invitedName.None? && m.invitedEmail.None?
      && m.createdAt == s.memberships[membershipId].createdAt && m.updatedAt == now
      && t.users[userId].activeOrganizationId == m.organizationId
      && t.membershipRoles == s.membershipRoles && t.roles == s.roles
      && t.organizations == s.organizations
  {
    SetMembershipUserValid(s, membershipId, userId, now);
    SetActiveOrganizationValid(SetMembershipUser(s, membershipId, userId, now), userId,
                               s.memberships[membershipId].organizationId);
  }

  /** Acceptance is one-shot: once accepted, the same id is no longer an invitation, for
      the same user or any other. */
  lemma {:induction false} AcceptOnlyOnce(s: DbState, membershipId: Id, userId: Id, other: Id, now: Timestamp)
    requires Valid(s) && AcceptError(s, membershipId, userId).None?
    ensures AcceptError(AcceptedState(s, membershipId, userId, now), membershipId, other) == Some(InvitationNotFound)
  {
  }

  /** The roles the invitation carried are now the user's roles in that organization. */
  lemma {:induction false} AcceptGrantsInvitedRoles(s: DbState, membershipId: Id, userId: Id,
                                                    now: Timestamp, roleName: string)
    requires Valid(s) && AcceptError(s, membershipId, userId).None?
    requires roleName in Memberships.RoleNamesOf(s, membershipId)
    ensures Permissions.UserHasRole(AcceptedState(s, membershipId, userId, now), userId,
                                    s.memberships[membershipId].organizationId, roleName)
  {
    var t := AcceptedState(s, membershipId, userId, now);
    var mr :| mr in s.membershipRoles && mr.membershipId == membershipId && mr.roleId in s.roles
      && s.roles[mr.roleId].name == roleName;
    assert mr in t.membershipRoles && mr.membershipId in t.memberships;
  }

  // ---------------------------------------------------------------------------------
  // listInvitations
  // ---------------------------------------------------------------------------------

  datatype OrganizationSummary = OrganizationSummary(id: Id, name: string)
  datatype RoleSummary = RoleSummary(id: Id, name: string)
  datatype Invitation = Invitation(id: Id, organization: OrganizationSummary,
                                   roles: set<RoleSummary>, invitedAt: Timestamp)

  /** The roles attached to one membership, as `{id, name}`. */
  function RoleSummaries(s: DbState, membershipId: Id): set<RoleSummary>
  {
    set mr | mr in s.membershipRoles && mr.membershipId == membershipId && mr.roleId in s.roles
      :: RoleSummary(mr.roleId, s.roles[mr.roleId].name)
  }

  /** The invitation entry of one membership row. */
  function InvitationOf(s: DbState, id: Id): Invitation
    requires id in s.memberships && s.memberships[id].organizationId in s.organizations
  {
    var m := s.memberships[id];
    Invitation(id, OrganizationSummary(m.organizationId, s.organizations[m.organizationId].name),
               RoleSummaries(s, id), m.createdAt)
  }

  /** `listInvitations`: the pending memberships addressed to this email, each with its
      organization, its roles and its creation time. */
  function ListInvitations(s: DbState, email: string): set<Invitation>
  {
    set id | id in s.memberships && s.memberships[id].invitedEmail == Some(email) &&
             s.memberships[id].userId.None? && s.memberships[id].organizationId in s.organizations
      :: InvitationOf(s, id)
  }

  /** The listing has one entry per pending membership addressed to the email and no other
      (so none at all when there are none), and no two entries share an id. */
  lemma {:induction false} ListingIsPending(s: DbState, email: string, id: Id)
    requires Valid(s)
    ensures (exists inv :: inv in ListInvitations(s, email) && inv.id == id) <==>
      (IsPending(s, id) && s.memberships[id].invitedEmail == Some(email))
    ensures IsPending(s, id) && s.memberships[id].invitedEmail == Some(email) ==>
      InvitationOf(s, id) in ListInvitations(s, email)
    ensures forall a, b ::
      (a in ListInvitations(s, email) && b in ListInvitations(s, email) && a.id == b.id) ==> a == b
  {
    if IsPending(s, id) && s.memberships[id].invitedEmail == Some(email) {
      assert InvitationOf(s, id) in ListInvitations(s, email);
    }
  }

  /** An entry reports the organization's id and name, the membership's creation time as
      `invitedAt`, and exactly the roles attached to the membership. */
  lemma {:induction false} ListingEntryContents(s: DbState, email: string, inv: Invitation)
    requires inv in ListInvitations(s, email)
    ensures inv.id in s.memberships
    ensures var m := s.memberships[inv.id];
      && m.invitedEmail == Some(email) && m.userId.None?
      && inv.organization.id == m.organizationId && inv.organization.id in s.organizations
      && inv.organization.name == s.organizations[m.organizationId].name
      && inv.invitedAt == m.createdAt
      && (forall r :: r in inv.roles <==>
            r.id in s.roles && r.name == s.roles[r.id].name && MembershipRole(inv.id, r.id) in s.membershipRoles)
  {
    var id :| id in s.memberships && s.memberships[id].invitedEmail == Some(email) &&
      s.memberships[id].userId.None? && s.memberships[id].organizationId in s.organizations &&
      inv == InvitationOf(s, id);
    forall r ensures r in inv.roles <==>
      r.id in s.roles && r.name == s.roles[r.id].name && MembershipRole(inv.id, r.id) in s.membershipRoles
    {
      if r.id in s.roles && r.name == s.roles[r.id].name && MembershipRole(inv.id, r.id) in s.membershipRoles {
        assert r == RoleSummary(MembershipRole(inv.id, r.id).roleId, s.roles[r.id].name);
      }
    }
  }

  /** A fresh invitation shows up in the invitee's listing, carrying the one role it was
      created with. */
  lemma {:induction false} InvitationListed(s: DbState, email: string, organizationId: Id, roleName: string,
                                            now: Timestamp)
    requires Valid(s) && InviteError(s, email, organizationId, roleName).None?
    ensures var t := InvitedState(s, email, organizationId, roleName, now);
      var roleId := RoleIdNamed(s, roleName);
      Invitation(s.next.membership, OrganizationSummary(organizationId, s.organizations[organizationId].name),
                 {RoleSummary(roleId, roleName)}, now) in ListInvitations(t, email)
  {
    var t := InvitedState(s, email, organizationId, roleName, now);
    var link := MembershipRole(s.next.membership, RoleIdNamed(s, roleName));
    assert forall mr :: mr in s.membershipRoles ==> mr.membershipId != s.next.membership;
    assert RoleSummaries(t, s.next.membership) == {RoleSummary(link.roleId, roleName)} by {
      assert link in t.membershipRoles;
    }
    assert InvitationOf(t, s.next.membership) in ListInvitations(t, email);
  }

  /** Once accepted, a membership no longer appears in any listing. */
  lemma {:induction false} AcceptedNotListed(s: DbState, membershipId: Id, userId: Id, now: Timestamp,
                                             email: string)
    requires Valid(s) && AcceptError(s, membershipId, userId).None?
    ensures forall inv :: inv in ListInvitations(AcceptedState(s, membershipId, userId, now), email) ==>
      inv.id != membershipId
  {
  }
}
