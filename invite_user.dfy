/** The older invitation helper: it links a user who already has an account at once and
    always attaches the MEMBER role; the row keeps the invited email either way. */
module LegacyInvite {
  import opened Results
  import opened Schema
  import opened Store
  import Permissions

  const MemberRole := "MEMBER"

  /** The account registered under the email, if there is one (there is at most one while
      the email constraint holds). */
  ghost function ExistingUser(s: DbState, email: string): (u: Option<Id>)
    ensures u.Some? <==> EmailTaken(s, email)
    ensures u.Some? ==> u.value in s.users && s.users[u.value].email == email
  {
    if EmailTaken(s, email) then Some(var id :| id in s.users && s.users[id].email == email; id)
    else None
  }

  /** Why the helper fails, if it does. The membership insert meets only the schema's
      constraints (no organization check of its own); a database without the MEMBER role
      makes the code read `id` off an undefined row. */
  ghost function LegacyInviteError(s: DbState, organizationId: Id, email: string): Option<Error>
  {
    var e := MembershipInsertError(s, organizationId, ExistingUser(s, email), Some(email));
    if e.Some? then e
    else if !RoleNameTaken(s, MemberRole) then Some(UndefinedRole)
    else None
  }

  ghost function LegacyInvitedRow(s: DbState, organizationId: Id, email: string,
                                  invitedName: Option<string>, now: Timestamp): Membership
  {
    Membership(s.next.membership, organizationId, ExistingUser(s, email), invitedName, Some(email), now, now)
  }

  /** The tables after a successful call: the new row and its MEMBER link. */
  ghost function LegacyInvitedState(s: DbState, organizationId: Id, email: string,
                                    invitedName: Option<string>, now: Timestamp): DbState
    requires RoleNameTaken(s, MemberRole)
  {
    var t := AddMembership(s, organizationId, ExistingUser(s, email), invitedName, Some(email), now);
    t.(membershipRoles := t.membershipRoles + {MembershipRole(s.next.membership, RoleIdNamed(s, MemberRole))})
  }

  /** The transaction callback: look the user up, insert the membership, look MEMBER up,
      insert the link. */
  method InviteInTransaction(tx: Database, organizationId: Id, email: string,
                             invitedName: Option<string>, now: Timestamp) returns (r: Result<Membership>)
    requires tx.Valid()
    modifies tx
    ensures tx.Valid()
    ensures var e := LegacyInviteError(old(tx.State()), organizationId, email);
      && (e.Some? ==> r == Err(e.value))
      && (e.None? ==>
            && r == Ok(LegacyInvitedRow(old(tx.State()), organizationId, email, invitedName, now))
            && tx.State() == LegacyInvitedState(old(tx.State()), organizationId, email, invitedName, now))
  {
    ghost var s0 := tx.State();
    var existingUser: Option<Id> := None;
    if exists id :: id in tx.users && tx.users[id].email == email {
      var id :| id in tx.users && tx.users[id].email == email;
      existingUser := Some(id);
    }
    assert existingUser == ExistingUser(s0, email);
    var membership := tx.InsertMembership(organizationId, existingUser, invitedName, Some(email), now);
    if membership.Err? {
      return Err(membership.error);
    }
    if !(exists id :: id in tx.roles && tx.roles[id].name == MemberRole) {
      return Err(UndefinedRole);
    }
    var roleId :| roleId in tx.roles && tx.roles[roleId].name == MemberRole;
    assert roleId == RoleIdNamed(s0, MemberRole);
    AddMembershipLinkValid(s0, organizationId, existingUser, invitedName, Some(email), now, roleId);
    var linked := tx.InsertMembershipRole(MembershipRole(membership.value.id, roleId));
    if linked.Err? {
      assert false;
    }
    r := membership;
  }

  /** `inviteUserToOrganization` (older variant): all or nothing. */
  method InviteUserToOrganization(db: Database, organizationId: Id, email: string,
                                  invitedName: Option<string>, now: Timestamp) returns (r: Result<Membership>)
    requires db.Valid()
    modifies db
    ensures db.Valid()
    ensures var e := LegacyInviteError(old(db.State()), organizationId, email);
      if e.Some? then r == Err(e.value) && db.State() == old(db.State())
      else
        && r == Ok(LegacyInvitedRow(old(db.State()), organizationId, email, invitedName, now))
        && db.State() == LegacyInvitedState(old(db.State()), organizationId, email, invitedName, now)
  {
    var snapshot := db.State();
    r := InviteInTransaction(db, organizationId, email, invitedName, now);
    if r.Err? {
      db.Restore(snapshot);
    }
  }

  /** A registered invitee is a member with the MEMBER role at once; an unregistered one
      gets a row without a user. Either way the row keeps the email. */
  lemma {:induction false} ExistingUserLinkedAtOnce(s: DbState, organizationId: Id, email: string,
                                                    invitedName: Option<string>, now: Timestamp)
    requires Valid(s) && LegacyInviteError(s, organizationId, email).None?
    ensures var t := LegacyInvitedState(s, organizationId, email, invitedName, now);
      var m := t.memberships[s.next.membership];
      && m.invitedEmail == Some(email) && m.organizationId == organizationId
      && (m.userId.Some? <==> EmailTaken(s, email))
      && (EmailTaken(s, email) ==>
            s.users[m.userId.value].email == email &&
            Permissions.UserHasRole(t, m.userId.value, organizationId, MemberRole))
  {
    var t := LegacyInvitedState(s, organizationId, email, invitedName, now);
    var link := MembershipRole(s.next.membership, RoleIdNamed(s, MemberRole));
    assert link in t.membershipRoles && link.membershipId in t.memberships;
  }

  /** Duplicates are caught only by the schema: a second call for the same organization
      and email is refused as a duplicate key by unique(organizationId, invitedEmail). */
  lemma {:induction false} SecondInviteRefused(s: DbState, organizationId: Id, email: string,
                                               invitedName: Option<string>, other: Option<string>,
                                               now: Timestamp)
    requires Valid(s) && LegacyInviteError(s, organizationId, email).None?
    ensures LegacyInviteError(LegacyInvitedState(s, organizationId, email, invitedName, now),
                              organizationId, email) == Some(DuplicateKey)
  {
    var t := LegacyInvitedState(s, organizationId, email, invitedName, now);
    assert t.memberships[s.next.membership].invitedEmail == Some(email);
  }
}
