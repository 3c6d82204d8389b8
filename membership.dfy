/** The membership engine: pending and direct memberships, and the roles a membership holds.
    Each operation runs inside the caller's transaction when one is given. */
module Memberships {
  import opened Results
  import opened Schema
  import opened Store
  import Text

  /** The `length` of the `invited_name` and `invited_email` columns. The insert schema
      derived from the table turns each into a maximum on the string's `.length`. */
  const InvitedNameMax := 255
  const InvitedEmailMax := 320

  /** The paths `insertMembershipSchema` rejects, in column order: an invited name longer
      than 255 UTF-16 code units, an invited email longer than 320. An absent name passes. */
  function PendingInputFailures(invitedEmail: string, invitedName: Option<string>): (fields: seq<string>)
    ensures "invitedName" in fields <==>
      invitedName.Some? && Text.Utf16Length(invitedName.value) > InvitedNameMax
    ensures "invitedEmail" in fields <==> Text.Utf16Length(invitedEmail) > InvitedEmailMax
    ensures fields == [] <==>
      (invitedName.Some? ==> Text.Utf16Length(invitedName.value) <= InvitedNameMax) &&
      Text.Utf16Length(invitedEmail) <= InvitedEmailMax
  {
    (if invitedName.Some? && Text.Utf16Length(invitedName.value) > InvitedNameMax
     then ["invitedName"] else []) +
    (if Text.Utf16Length(invitedEmail) > InvitedEmailMax then ["invitedEmail"] else [])
  }

  /** A row for this organization already carries this invited email. */
  predicate PendingEmailExists(s: DbState, organizationId: Id, invitedEmail: string)
  {
    exists id :: id in s.memberships && s.memberships[id].organizationId == organizationId &&
      s.memberships[id].invitedEmail == Some(invitedEmail)
  }

  /** Inserts a pending membership (no user, the invitee's email and optional name). The
      input schema is checked first, before any read or write; then a row of the
      organization that already carries that email refuses the invitation. */
  method CreatePendingMembership(db: Database, organizationId: Id, invitedEmail: string,
                                 invitedName: Option<string>, now: Timestamp)
    returns (r: Result<Membership>)
    requires db.Valid()
    modifies db
    ensures db.Valid()
    ensures var fields := PendingInputFailures(invitedEmail, invitedName);
      fields != [] ==> r == Err(ValidationError(fields)) && db.State() == old(db.State())
    ensures (PendingInputFailures(invitedEmail, invitedName) == [] &&
             PendingEmailExists(old(db.State()), organizationId, invitedEmail)) ==>
      r == Err(MembershipAlreadyExists) && db.State() == old(db.State())
    ensures (PendingInputFailures(invitedEmail, invitedName) == [] &&
             !PendingEmailExists(old(db.State()), organizationId, invitedEmail) &&
             organizationId !in old(db.organizations)) ==>
      r == Err(ForeignKeyViolation) && db.State() == old(db.State())
    ensures r.Ok? <==>
      PendingInputFailures(invitedEmail, invitedName) == [] &&
      !PendingEmailExists(old(db.State()), organizationId, invitedEmail) &&
      organizationId in old(db.organizations)
    ensures r.Ok? ==>
      && r.value == Membership(old(db.next.membership), organizationId, None, invitedName,
                               Some(invitedEmail), now, now)
      && r.value.id !in old(db.memberships)
      && db.State() == AddMembership(old(db.State()), organizationId, None, invitedName,
                                     Some(invitedEmail), now)
  {
    var fields := PendingInputFailures(invitedEmail, invitedName);
    if fields != [] {
      return Err(ValidationError(fields));
    }
    if PendingEmailExists(db.State(), organizationId, invitedEmail) {
      return Err(MembershipAlreadyExists);
    }
    r := db.InsertMembership(organizationId, None, invitedName, Some(invitedEmail), now);
  }

  /** The duplicate check looks at `invitedEmail` only, and acceptance clears that column:
      a member who joined through an accepted invitation, or directly, is no obstacle to a
      new pending invitation for the same email. Only a still-pending row is. */
  lemma {:induction false} PendingCheckIgnoresMembers(s: DbState, organizationId: Id, email: string)
    requires Valid(s) && organizationId in s.organizations
    ensures MembershipInsertError(s, organizationId, None, Some(email)).None?
      <==> !PendingEmailExists(s, organizationId, email)
    ensures (forall id :: id in s.memberships && s.memberships[id].organizationId == organizationId
               ==> s.memberships[id].invitedEmail.None?)
      ==> !PendingEmailExists(s, organizationId, email)
  {
  }

  /** Inserts the membership of an existing user in an organization, without invitation
      details. A second one for the same pair is refused by unique(userId, organizationId). */
  method CreateMembership(db: Database, userId: Id, organizationId: Id, now: Timestamp)
    returns (r: Result<Membership>)
    requires db.Valid()
    modifies db
    ensures db.Valid()
    ensures var e := MembershipInsertError(old(db.State()), organizationId, Some(userId), None);
      if e.Some? then r == Err(e.value) && db.State() == old(db.State())
      else
        && r == Ok(Membership(old(db.next.membership), organizationId, Some(userId), None, None, now, now))
        && db.State() == AddMembership(old(db.State()), organizationId, Some(userId), None, None, now)
  {
    r := db.InsertMembership(organizationId, Some(userId), None, None, now);
  }

  /** After one membership for (user, organization) exists, the next insert for the pair is
      refused as a duplicate, and exactly one row for the pair remains. */
  lemma {:induction false} SecondMembershipRefused(s: DbState, userId: Id, organizationId: Id, now: Timestamp)
    requires Valid(s) && MembershipInsertError(s, organizationId, Some(userId), None).None?
    ensures var t := AddMembership(s, organizationId, Some(userId), None, None, now);
      && MembershipInsertError(t, organizationId, Some(userId), None) == Some(DuplicateKey)
      && (set id | id in t.memberships && t.memberships[id].userId == Some(userId) &&
                   t.memberships[id].organizationId == organizationId) == {s.next.membership}
  {
    var t := AddMembership(s, organizationId, Some(userId), None, None, now);
    assert s.next.membership in t.memberships;
    assert UserOrgTaken(t, Some(userId), organizationId);
    forall id | id in t.memberships && id != s.next.membership
      ensures t.memberships[id].userId != Some(userId) || t.memberships[id].organizationId != organizationId
    {
      assert id in s.memberships && s.memberships[id] == t.memberships[id];
    }
  }

  /** Attaches the named role to a membership. An unknown role fails with `<name> role not
      found. Please ensure the database is properly seeded.`; a role already held, or an
      unknown membership, is refused by the join table. */
  method AddRoleToMembership(db: Database, membershipId: Id, roleName: string) returns (r: Result<()>)
    requires db.Valid()
    modifies db
    ensures db.Valid()
    ensures !RoleNameTaken(old(db.State()), roleName) ==>
      r == Err(RoleNotSeeded(roleName)) && db.State() == old(db.State())
    ensures RoleNameTaken(old(db.State()), roleName) ==>
      var link := MembershipRole(membershipId, RoleIdNamed(old(db.State()), roleName));
      var e := MembershipRoleInsertError(old(db.State()), link);
      if e.Some? then r == Err(e.value) && db.State() == old(db.State())
      else r == Ok(()) && db.State() == old(db.State()).(membershipRoles := old(db.membershipRoles) + {link})
  {
    if !RoleNameTaken(db.State(), roleName) {
      return Err(RoleNotSeeded(roleName));
    }
    var roleId :| roleId in db.roles && db.roles[roleId].name == roleName;
    assert roleId == RoleIdNamed(db.State(), roleName);
    var inserted := db.InsertMembershipRole(MembershipRole(membershipId, roleId));
    match inserted
    case Err(e) => r := Err(e);
    case Ok(_) => r := Ok(());
  }

  /** The roles a membership holds, by name. */
  function RoleNamesOf(s: DbState, membershipId: Id): set<string>
  {
    set mr | mr in s.membershipRoles && mr.membershipId == membershipId && mr.roleId in s.roles
      :: s.roles[mr.roleId].name
  }

  /** Adding a role a membership already holds is refused and leaves its roles as they
      were; adding a different one makes the roles accumulate. */
  lemma {:induction false} RolesAccumulate(s: DbState, membershipId: Id, roleId: Id)
    requires Valid(s) && membershipId in s.memberships && roleId in s.roles
    ensures var link := MembershipRole(membershipId, roleId);
      && (link in s.membershipRoles ==> MembershipRoleInsertError(s, link) == Some(DuplicateKey))
      && (link !in s.membershipRoles ==>
            && MembershipRoleInsertError(s, link).None?
            && RoleNamesOf(s.(membershipRoles := s.membershipRoles + {link}), membershipId)
                 == RoleNamesOf(s, membershipId) + {s.roles[roleId].name})
  {
    var link := MembershipRole(membershipId, roleId);
    var t := s.(membershipRoles := s.membershipRoles + {link});
    if link !in s.membershipRoles {
      assert s.roles[link.roleId].name in RoleNamesOf(t, membershipId);
    }
  }

  /** Detaches the named role from a membership; only that pair goes, and a role that was
      not attached leaves the table as it was. An unknown role fails as for adding. */
  method RemoveRoleFromMembership(db: Database, membershipId: Id, roleName: string) returns (r: Result<()>)
    requires db.Valid()
    modifies db
    ensures db.Valid()
    ensures r.Err? <==> !RoleNameTaken(old(db.State()), roleName)
    ensures r.Err? ==> r.error == RoleNotSeeded(roleName) && db.State() == old(db.State())
    ensures r.Ok? ==> db.State() == old(db.State()).(membershipRoles :=
      old(db.membershipRoles) - {MembershipRole(membershipId, RoleIdNamed(old(db.State()), roleName))})
  {
    if !RoleNameTaken(db.State(), roleName) {
      return Err(RoleNotSeeded(roleName));
    }
    var roleId :| roleId in db.roles && db.roles[roleId].name == roleName;
    assert roleId == RoleIdNamed(db.State(), roleName);
    db.DeleteMembershipRoles({MembershipRole(membershipId, roleId)});
    r := Ok(());
  }

  /** Removing a role takes exactly that role name off the membership. */
  lemma {:induction false} RoleRemoved(s: DbState, membershipId: Id, roleName: string)
    requires Valid(s) && RoleNameTaken(s, roleName)
    ensures var t := s.(membershipRoles := s.membershipRoles - {MembershipRole(membershipId, RoleIdNamed(s, roleName))});
      RoleNamesOf(t, membershipId) == RoleNamesOf(s, membershipId) - {roleName}
  {
    var rid := RoleIdNamed(s, roleName);
    var t := s.(membershipRoles := s.membershipRoles - {MembershipRole(membershipId, rid)});
    forall n ensures n in RoleNamesOf(t, membershipId) <==> n in RoleNamesOf(s, membershipId) - {roleName} {
      if n in RoleNamesOf(s, membershipId) && n != roleName {
        var mr :| mr in s.membershipRoles && mr.membershipId == membershipId && mr.roleId in s.roles
          && s.roles[mr.roleId].name == n;
        assert mr in t.membershipRoles;
      }
    }
  }

  /** Deletes a membership: first all its role links, then the row. An unknown id fails with
      `Membership with id <id> not found` and changes nothing. */
  method RemoveMembership(db: Database, membershipId: Id) returns (r: Result<()>)
    requires db.Valid()
    modifies db
    ensures db.Valid()
    ensures r.Err? <==> membershipId !in old(db.memberships)
    ensures r.Err? ==> r.error == MembershipNotFound(membershipId) && db.State() == old(db.State())
    ensures r.Ok? ==> db.State() == RemoveMemberships(old(db.State()), {membershipId})
  {
    if membershipId !in db.memberships {
      return Err(MembershipNotFound(membershipId));
    }
    LinksFirstMatchesCascade(db.State(), membershipId);
    db.DeleteMembershipRoles(LinksOf(db.State(), membershipId));
    db.DeleteMemberships({membershipId});
    r := Ok(());
  }

  /** Removing one membership leaves every other membership, and every link of another
      membership, exactly as it was; nothing of the removed one remains. */
  lemma {:induction false} RemoveMembershipIsLocal(s: DbState, membershipId: Id)
    requires Valid(s) && membershipId in s.memberships
    ensures var t := RemoveMemberships(s, {membershipId});
      && membershipId !in t.memberships
      && (forall mr :: mr in t.membershipRoles ==> mr.membershipId != membershipId)
      && (forall id :: id in s.memberships && id != membershipId ==>
            id in t.memberships && t.memberships[id] == s.memberships[id])
      && (forall mr :: mr in s.membershipRoles && mr.membershipId != membershipId ==> mr in t.membershipRoles)
      && t.users == s.users && t.organizations == s.organizations && t.roles == s.roles
  {
  }
}
