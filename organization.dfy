/** Creating an organization. The handle passed in is the caller's transaction, or the
    global database when the caller runs none. */
module Organizations {
  import opened Schema
  import opened Store

  /** Inserts one organization with the given name and returns the row; no other table
      changes, and names need not be unique. */
  method CreateOrganization(db: Database, name: string) returns (org: Organization)
    requires db.Valid()
    modifies db
    ensures db.Valid()
    ensures org.name == name && org.id !in old(db.organizations)
    ensures db.State() == AddOrganization(old(db.State()), name)
    ensures db.organizations == old(db.organizations)[org.id := org]
  {
    org := db.InsertOrganization(name);
  }

  /** Two creations with the same name give two organizations with distinct ids, both
      carrying that name; the rows already present are untouched. */
  lemma {:induction false} SameNameTwice(s: DbState, name: string)
    requires Valid(s)
    ensures var t := AddOrganization(AddOrganization(s, name), name);
      var first, second := s.next.organization, s.next.organization + 1;
      && first != second && first !in s.organizations && second !in s.organizations
      && t.organizations == s.organizations[first := Organization(first, name)][second := Organization(second, name)]
      && t.users == s.users && t.memberships == s.memberships && t.roles == s.roles
      && t.permissions == s.permissions && t.rolePermissions == s.rolePermissions
      && t.membershipRoles == s.membershipRoles
  {
  }
}
