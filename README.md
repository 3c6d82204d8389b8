# Multitenancy authorisation, modelled in Dafny

The system keeps organizations, users, memberships, roles and permissions in a relational
database, with two join tables: role to permission, and membership to role. A user belongs
to an organization through a membership. A membership carries roles, and a role carries
permissions of the form `action:entity:access`. A membership with no user is a pending
invitation, addressed to an email. On top of the tables sit several layers:

- the role and permission registry;
- the membership engine;
- organization creation;
- user provisioning, which creates an organization, a user, a membership and the OWNER
  link in one transaction;
- the invitation workflow, both the current one and an older helper;
- the organization-scoped and un-scoped permission and role checks;
- the request guards built on the un-scoped checks;
- the seed script, which fills in default roles, permissions and links and empties every
  table again;
- the two string normalisers for e-mail addresses and user names.

## How it is modelled

- **The database.** `Schema` gives the tables as a value, `DbState`. Tables with a
  primary key are maps from id to row. The join tables are sets, so their composite keys
  hold by construction. `Schema.Valid` states every constraint the schema declares:
  - unique email;
  - unique role name;
  - unique `(action, entity, access)`;
  - unique `(userId, organizationId)` and `(organizationId, invitedEmail)`, which bind only
    rows whose columns are not NULL;
  - every foreign key;
  - ids below their sequence counters.
- **Schema variants.** The three schema files declare the same tables and constraints.
  Deletes follow the cascade rules of the Postgres and SQLite schemas (`Schema.Remove*`).
  `schema/multitenancy.ts`, which the seed script and the membership engine import,
  declares no delete rule. Its behaviour is modelled by `Schema.RestrictClear` and the
  lemmas about delete order beside it.
- **The handle.** `Store.Database` is the database handle (`db`, or the transaction `tx`)
  as a class. Its fields are the tables and counters. Each method is one SQL statement:
  the engine refuses a statement that breaks a constraint (`DuplicateKey`,
  `ForeignKeyViolation`) and then leaves every table as it was.
- **Operations.** Only the engine's primitives (inserts, updates, deletes, rollback) are
  methods of `Store.Database`. Each operation of the core is a module-level method that
  takes the handle as its `db` or `tx` argument, as the source's functions do. Each is
  proved against a function of the state before the call. A transaction is a snapshot of the
  state, restored when the callback fails.
- **Checks.** The read-only checks and queries are functions over `DbState`. Each is
  related by lemmas to an independent definition: the grant paths through the tables, or
  "some organization".
- **Strings.** A string is a sequence of Unicode scalar values, Dafny's `char`.
  JavaScript stores strings as UTF-16 code units, and a character above U+FFFF takes two
  of them. Where the source's answer depends on code units, the model counts them with
  `Text.Utf16Length`. That covers `.length` in the schema's maximum lengths and the
  user-name pattern, which has no `u` flag. `split`, `join`, `toLowerCase` and the
  user-name replacement are written out in `Text` and `Normalize`.

## Model

| member | source | states |
|---|---|---|
| Results.Message | app/utils/multitenancy/invite.server.ts:31-84 | the text thrown for each error kind: `Organization not found`, `Invitation not found or already accepted`, `User not found`, and the role, permission and membership messages of the other files |
| Schema.Valid | schema/multitenancy.ts:25-129 | the constraints the tables declare: row ids match their keys and stay below the counters, the unique email, (user, organization), (organization, email), (action, entity, access) and role-name keys, the composite link keys, and every foreign key |
| Schema.EmptyValid | schema/multitenancy.ts:25-129 | a freshly created database meets every declared constraint |
| Schema.RolesNamed | schema/multitenancy.ts:97 | a taken role name selects at least one row, and at most one while the unique name constraint holds |
| Schema.RoleIdNamed | schema/multitenancy.ts:97 | the row picked for a taken name exists and carries that name |
| Schema.AddOrganizationValid | schema/multitenancy.ts:25-34 | inserting an organization keeps every constraint |
| Schema.AddUserValid | schema/multitenancy.ts:36-45 | a user insert with a free email and an existing active organization keeps every constraint |
| Schema.AddMembershipValid | schema/multitenancy.ts:54-77 | a membership insert that passes the two unique keys and both foreign keys keeps every constraint |
| Schema.AddMembershipUnique | schema/multitenancy.ts:71-76 | a fresh row whose `(userId, organizationId)` and `(organizationId, invitedEmail)` are not taken keeps both unique keys |
| Schema.AddMembershipReferences | schema/multitenancy.ts:58-61 | a fresh row pointing at an existing organization, and at an existing user or NULL, keeps every foreign key |
| Schema.AddMembershipLinkValid | schema/multitenancy.ts:116-129 | after a valid membership insert, a link from the new row to an existing role passes its checks and keeps every constraint |
| Schema.AddMembershipRoleValid | schema/multitenancy.ts:116-129 | a membership-role link that is new and whose both ends exist keeps every constraint |
| Schema.AddPermissionValid | schema/multitenancy.ts:79-93 | a permission insert with an untaken `(action, entity, access)` keeps every constraint |
| Schema.AddRoleValid | schema/multitenancy.ts:95-99 | a role insert with an untaken name keeps every constraint |
| Schema.AddRoleUnique | schema/multitenancy.ts:97 | a fresh role with an untaken name keeps role names unique |
| Schema.SetMembershipUserValid | schema/multitenancy.ts:61-75 | giving a membership a user who exists and holds no other row of that organization keeps every constraint |
| Schema.SetActiveOrganizationValid | schema/multitenancy.ts:40-42 | pointing a user at an existing organization keeps every constraint |
| Schema.RemoveMemberships | schema/postgres/multitenancy.ts:111-116 | deleting memberships, together with their role links, keeps every constraint |
| Schema.RemoveRoles | schema/postgres/multitenancy.ts:90-124 | deleting roles, together with both kinds of link to them, keeps every constraint |
| Schema.RemovePermissions | schema/postgres/multitenancy.ts:96-101 | deleting permissions, together with their role links, keeps every constraint |
| Schema.RemoveUsers | schema/postgres/multitenancy.ts:55-58 | deleting users, together with their memberships and those memberships' links, keeps every constraint |
| Schema.RemoveOrganizations | schema/postgres/multitenancy.ts:37-54 | deleting organizations no user has as active one cascades to their memberships, keeps every constraint and never deletes a user |
| Schema.RestrictClear | schema/multitenancy.ts:54-129 | without cascades, emptying a table is refused exactly when a row elsewhere still refers into it |
| Schema.TeardownOrderSucceeds | other/seed.ts:237-244 | the teardown order never empties a table that is still referred to, so all seven deletes succeed in any state and every table ends empty |
| Schema.EntityTablesSucceed | other/seed.ts:241-244 | once links and memberships are gone, users, organizations, roles and permissions empty one after the other |
| Schema.MembershipsBeforeLinksRefused | schema/multitenancy.ts:119-121 | deleting memberships while some role link exists is refused, which is why the links go first |
| Schema.LinksFirstMatchesCascade | app/utils/multitenancy/membership.server.ts:153-162 | deleting a membership's links and then the row leaves no link to it and ends in the same state as the cascading delete |
| Store.Database.constructor | schema/multitenancy.ts:25-129 | a new database is empty and valid |
| Store.Database.Restore | app/utils/multitenancy/user.server.ts:65-92 | a rollback puts back the snapshot's tables |
| Store.Database.InsertOrganization | app/utils/multitenancy/organization.server.ts:9 | the insert adds one row under the next organization id, with the given name |
| Store.Database.InsertUser | schema/multitenancy.ts:36-45 | a taken email is `DuplicateKey`, a missing organization `ForeignKeyViolation`, both with nothing changed; otherwise one user under the next id |
| Store.Database.InsertMembership | schema/multitenancy.ts:54-77 | a taken unique key is `DuplicateKey`, a missing organization or user `ForeignKeyViolation`, both with nothing changed; otherwise one row under the next id |
| Store.Database.InsertPermission | schema/multitenancy.ts:79-93 | a taken `(action, entity, access)` is `DuplicateKey` with nothing changed; otherwise one row under the next id |
| Store.Database.InsertRole | schema/multitenancy.ts:95-99 | a taken name is `DuplicateKey` with nothing changed; otherwise one row under the next id |
| Store.Database.InsertRolePermission | schema/multitenancy.ts:101-114 | an existing pair is `DuplicateKey`, a missing end `ForeignKeyViolation`; otherwise the pair is added and nothing else changes |
| Store.Database.InsertMembershipRole | schema/multitenancy.ts:116-129 | an existing pair is `DuplicateKey`, a missing end `ForeignKeyViolation`; otherwise the pair is added and nothing else changes |
| Store.Database.UpdateMembershipUser | app/utils/multitenancy/invite.server.ts:89-99 | the row gets the user, loses its invitation columns and gets the new `updatedAt`, or the engine refuses and nothing changes |
| Store.Database.UpdateActiveOrganization | app/utils/multitenancy/invite.server.ts:102-108 | the user's active organization becomes the given one; a missing organization is `ForeignKeyViolation`; a missing user matches no row |
| Store.Database.DeleteMembershipRoles | app/utils/multitenancy/membership.server.ts:154-156 | exactly the given links are removed |
| Store.Database.DeleteRolePermissions | app/utils/multitenancy/permissions.server.ts:235-242 | exactly the given links are removed |
| Store.Database.DeleteMemberships | schema/postgres/multitenancy.ts:111-116 | the rows go, with their role links |
| Store.Database.DeleteRoles | schema/postgres/multitenancy.ts:90-124 | the rows go, with every link to them |
| Store.Database.DeletePermissions | schema/postgres/multitenancy.ts:96-101 | the rows go, with their role links |
| Store.Database.DeleteUsers | schema/postgres/multitenancy.ts:55-58 | the rows go, with their memberships and those memberships' links |
| Store.Database.DeleteOrganizations | schema/postgres/multitenancy.ts:37-54 | refused while a user has one of them as active organization; otherwise the rows and their memberships go |
| Roles.RoleDescription | app/utils/multitenancy/roles.server.ts:18 | the logical-or fallback: a non-empty description is kept, a missing or empty one becomes `Role for <name>`, so the stored description is never empty |
| Roles.CreateRole | app/utils/multitenancy/roles.server.ts:7-23 | fails with `DuplicateKey` exactly when the name is taken, changing nothing; otherwise adds exactly one role under a fresh id with the given or default description |
| Roles.DeleteRole | app/utils/multitenancy/roles.server.ts:25-35 | fails with `Role "<name>" not found` exactly when no role has the name, changing nothing; otherwise deletes that role with its cascades |
| Roles.DeleteRoleRemovesOnlyThatRole | app/utils/multitenancy/roles.server.ts:34 | afterwards the name is free, every other role is kept, and the remaining links are the old ones not naming that role |
| Permissions.ParsePermissionString | app/utils/multitenancy/permissions.server.ts:28-39 | the first colon segment as action, the second as entity if present, the third split at commas unless missing or empty |
| Permissions.ParseSegments | app/utils/multitenancy/permissions.server.ts:28-39 | parsing colon-joined colon-free segments gives the first as action, the second as entity, and the third split at commas unless it is missing or empty |
| Permissions.ParseFormat | app/utils/multitenancy/permissions.server.ts:28-39 | parsing `action:entity[:a1,a2…]` built from colon-free parts returns exactly those parts (round trip) |
| Permissions.ExtraSegmentsIgnored | app/utils/multitenancy/permissions.server.ts:29 | segments after the third colon do not change the parse |
| Permissions.EmptyAccessSegment | app/utils/multitenancy/permissions.server.ts:37 | an empty third segment gives no access list |
| Permissions.UserHasPermissionAsWritten | app/utils/multitenancy/permissions.server.ts:67-112 | `userHasPermission` as written: the join over the user's memberships in the organization, their roles and those roles' permissions, filtered on action, entity, and `access IN (…)` or `access IS NULL` |
| Permissions.UserHasPermission | app/utils/multitenancy/permissions.server.ts:67-112 | `userHasPermission` as its doc comment describes it: the same join, with the access filter applied only when an access part is given |
| Permissions.GrantedIffHeld | app/utils/multitenancy/permissions.server.ts:80-98 | the join has a matching row exactly when some permission held through the user's memberships in that organization matches |
| Permissions.UserHasPermissionWithAccess | app/utils/multitenancy/permissions.server.ts:67-112 | with an access list, the check holds exactly when a held permission has that action, entity and one of the listed access values; the code as written agrees here |
| Permissions.AccessListIsDisjunction | app/utils/multitenancy/permissions.server.ts:94-95 | checking a concatenated access list is the OR of checking each part |
| Permissions.AccessLessStrings | app/utils/multitenancy/permissions.server.ts:94-96 | as written, a string without access is never granted; the corrected check grants it exactly when a held permission has that action and entity |
| Permissions.ReadUserDeniedAsWritten | app/utils/multitenancy/permissions.server.ts:94-96 | a concrete state where the user holds `read:user:any` and `read:user` is refused as written but held by the corrected check |
| Permissions.OtherOrganizationsIgnored | app/utils/multitenancy/permissions.server.ts:90-91 | removing every membership of other organizations does not change the check |
| Permissions.UserHasRole | app/utils/multitenancy/permissions.server.ts:128-157 | `userHasRole`: a membership-role link of one of the user's memberships in that organization points to a role with that name |
| Permissions.UserHasRoleIff | app/utils/multitenancy/permissions.server.ts:128-157 | the role check holds exactly when a role of the user's memberships in the organization has the name; an unknown user, organization or role gives false |
| Permissions.GetPermissionsByRoleName | app/utils/multitenancy/permissions.server.ts:159-175 | an unknown role gives no rows, and every row returned is a stored permission |
| Permissions.GetPermissionsByRoleNameExact | app/utils/multitenancy/permissions.server.ts:169-172 | a permission is returned exactly when it is stored and linked to the named role |
| Permissions.PermissionDescription | app/utils/multitenancy/permissions.server.ts:192 | the description `<action> <access> <entity>` |
| Permissions.PermissionDescriptionSplits | app/utils/multitenancy/permissions.server.ts:192 | split at its spaces, the description gives back the action, the access level and an entity without spaces |
| Permissions.CreatePermission | app/utils/multitenancy/permissions.server.ts:177-197 | fails with `DuplicateKey` exactly when the triple is taken, changing nothing; otherwise returns the next permission id, unused before, and stores under it the row `(action, entity, access)` with description `<action> <access> <entity>` |
| Permissions.NewPermissionGrantsNothing | app/utils/multitenancy/permissions.server.ts:177-197 | a new permission, not yet linked to any role, changes no permission check |
| Permissions.AddPermissionToRole | app/utils/multitenancy/permissions.server.ts:199-218 | an unknown role fails with `Role "<name>" not found`; an engine refusal changes nothing; otherwise exactly the pair is added |
| Permissions.RemovePermissionFromRole | app/utils/multitenancy/permissions.server.ts:220-243 | fails exactly for an unknown role, changing nothing; otherwise exactly that pair is gone, whether or not it was there |
| Permissions.LinkChangesRolePermissions | app/utils/multitenancy/permissions.server.ts:159-243 | adding a link adds exactly that permission to the role's listing, and removing it takes exactly that permission out |
| Permissions.DeletePermission | app/utils/multitenancy/permissions.server.ts:245-255 | fails with `Permission with id <id> not found` exactly when absent, changing nothing; otherwise deletes it with its links |
| Organizations.CreateOrganization | app/utils/multitenancy/organization.server.ts:5-10 | exactly one organization with the given name under a fresh id, and no other table changes |
| Organizations.SameNameTwice | app/utils/multitenancy/organization.server.ts:9 | two calls with one name give two rows with distinct fresh ids, and nothing else changes |
| Memberships.PendingInputFailures | app/utils/multitenancy/membership.server.ts:18-22 | the insert schema reports `invitedName` exactly when a given name is over 255 code units, and `invitedEmail` exactly when the email is over 320; nothing is reported exactly when both fit |
| Memberships.CreatePendingMembership | app/utils/multitenancy/membership.server.ts:6-53 | first the schema's `ValidationError` with the failing fields; then `MembershipAlreadyExists` for a row with this organization and email, then `ForeignKeyViolation` for a missing organization, each with nothing changed; otherwise one row with no user and the invited email |
| Memberships.PendingCheckIgnoresMembers | app/utils/multitenancy/membership.server.ts:25-34 | the pre-check agrees with the unique key; accepted memberships, whose email was cleared, never trip it |
| Memberships.CreateMembership | app/utils/multitenancy/membership.server.ts:55-73 | the engine's refusal or one row with the user and no invitation columns |
| Memberships.SecondMembershipRefused | app/utils/multitenancy/membership.server.ts:64-71 | a second row for the same user and organization is a `DuplicateKey`, and exactly one such row exists |
| Memberships.AddRoleToMembership | app/utils/multitenancy/membership.server.ts:75-103 | an unknown role fails with the "role not found … seeded" error; an engine refusal changes nothing; otherwise exactly the link is added |
| Memberships.RolesAccumulate | app/utils/multitenancy/membership.server.ts:96-101 | re-adding a held role is a `DuplicateKey`; a new one adds exactly its name to the membership's roles |
| Memberships.RemoveRoleFromMembership | app/utils/multitenancy/membership.server.ts:105-135 | fails exactly for an unknown role, changing nothing; otherwise exactly that link is gone, or nothing changes if it was not there |
| Memberships.RoleRemoved | app/utils/multitenancy/membership.server.ts:126-133 | the membership's role names lose exactly that name |
| Memberships.RemoveMembership | app/utils/multitenancy/membership.server.ts:137-169 | fails with `Membership with id <id> not found` exactly when absent, changing nothing; otherwise the row and its links are gone |
| Memberships.RemoveMembershipIsLocal | app/utils/multitenancy/membership.server.ts:153-162 | the row and all its links go; every other membership, every other link, and the users, organizations and roles are unchanged |
| Users.ValidationFailures | app/utils/multitenancy/user.server.ts:10-19 | an invalid email and an empty organization name are each reported, and nothing is reported exactly when both are fine |
| Users.CreateUser | app/utils/multitenancy/user.server.ts:31-52 | the engine's refusal or one user with the given data, the given organization and `CUSTOMER` |
| Users.UserStep | app/utils/multitenancy/user.server.ts:67-75 | after the organization insert, the user insert with a free email passes its checks |
| Users.MembershipStep | app/utils/multitenancy/user.server.ts:71-80 | after the user insert, the membership insert for the new user and organization passes its checks |
| Users.ProvisionSteps | app/utils/multitenancy/user.server.ts:65-87 | each of the four inserts passes its checks after the earlier ones, and the final state is valid |
| Users.ProvisionInTransaction | app/utils/multitenancy/user.server.ts:65-92 | fails exactly when the email is taken (`DuplicateKey`) or OWNER is not seeded; otherwise returns the three new rows and leaves the provisioned state |
| Users.CreateUserWithOrganization | app/utils/multitenancy/user.server.ts:59-93 | invalid input fails before any write; any failure inside leaves the state as before; success gives the provisioned rows and state |
| Users.ProvisionedValid | app/utils/multitenancy/user.server.ts:54-58 | the provisioned state is valid and the new user holds OWNER in the new organization |
| Users.ProvisionedRowsLinked | app/utils/multitenancy/user.server.ts:67-87 | one organization, one `CUSTOMER` user active in it, one membership joining them; roles, permissions and their links unchanged |
| Users.SecondCallSameEmailRefused | app/utils/multitenancy/user.server.ts:65-91 | a second call with the same email fails with `DuplicateKey` |
| Users.SameOrganizationNameAllowed | app/utils/multitenancy/user.server.ts:67-70 | another user may create an organization with the same name |
| Invitations.RoleOrDefault | app/utils/multitenancy/invite.server.ts:17 | a missing role name becomes `MEMBER`; a given one, even empty, is kept |
| Invitations.InviteError | app/utils/multitenancy/invite.server.ts:24-46 | the first failure in the source's order: unknown organization, then the email's length check, then a row with the email, then an unknown role |
| Invitations.InviteSteps | app/utils/multitenancy/invite.server.ts:35-46 | with the organization present, the email free and the role known, the pending insert and the link insert pass and the result is valid |
| Invitations.InviteInTransaction | app/utils/multitenancy/invite.server.ts:24-53 | checked in this order: `Organization not found`; a `ValidationError` on `invitedEmail` for an email over 320 code units; `MembershipAlreadyExists` for a pending row with the email; an unseeded role. Otherwise one pending row linked to the role |
| Invitations.InviteUserToOrganization | app/utils/multitenancy/invite.server.ts:14-55 | all or nothing: any failure of `InviteError`, the email's length check included, leaves the state as before; success leaves the invited state; a missing role name means `MEMBER` |
| Invitations.AcceptError | app/utils/multitenancy/invite.server.ts:66-99 | the first failure in the source's order: no row with that id and no user, then an unknown user, then the engine's refusal of the update |
| Invitations.AcceptInTransaction | app/utils/multitenancy/invite.server.ts:64-116 | no pending row with that id gives the invitation error and a missing user `User not found`; otherwise the accepted row is returned |
| Invitations.AcceptInvitation | app/utils/multitenancy/invite.server.ts:57-117 | all or nothing: a failure leaves the state as before, success leaves the accepted state |
| Invitations.AcceptedFacts | app/utils/multitenancy/invite.server.ts:89-108 | the row gets the user, loses both invitation columns and keeps its organization; the user's active organization becomes it; links, roles and organizations unchanged |
| Invitations.AcceptOnlyOnce | app/utils/multitenancy/invite.server.ts:67-76 | a second accept of the same id fails with the invitation error |
| Invitations.AcceptGrantsInvitedRoles | app/utils/multitenancy/invite.server.ts:89-99 | after acceptance the user holds in that organization every role the invitation carried |
| Invitations.ListInvitations | app/utils/multitenancy/invite.server.ts:119-148 | `listInvitations`: one entry per membership with that invited email and no user, carrying its id, its organization's id and name, its role summaries and its creation time |
| Invitations.ListingIsPending | app/utils/multitenancy/invite.server.ts:119-133 | an id is listed exactly when its row is pending for that email, with one entry per id |
| Invitations.ListingEntryContents | app/utils/multitenancy/invite.server.ts:136-147 | each entry carries the organization's id and name, exactly the row's roles and `createdAt` |
| Invitations.InvitationListed | app/utils/multitenancy/invite.server.ts:14-148 | a fresh invitation is listed with its organization and its one role |
| Invitations.AcceptedNotListed | app/utils/multitenancy/invite.server.ts:89-124 | an accepted invitation is no longer listed |
| LegacyInvite.ExistingUser | app/utils/invite-user.server.ts:11-15 | the lookup finds a user exactly when the email is registered, and that user has it |
| LegacyInvite.InviteInTransaction | app/utils/invite-user.server.ts:10-37 | the engine's refusal of the membership, or a missing MEMBER role, fails; otherwise the row with the found user (or none) and the email is returned, with its MEMBER link |
| LegacyInvite.InviteUserToOrganization | app/utils/invite-user.server.ts:5-39 | all or nothing: a failure leaves the state as before |
| LegacyInvite.ExistingUserLinkedAtOnce | app/utils/invite-user.server.ts:17-35 | the row keeps the email; it has a user exactly when the email is registered, and that user then holds MEMBER in the organization |
| LegacyInvite.SecondInviteRefused | app/utils/invite-user.server.ts:17-25 | a second call for the same organization and email is a `DuplicateKey` |
| UserChecks.ParsePermissionString | app/utils/user.tsx:45-56 | an access list, when present, is a single non-empty text, because the third segment is not split at commas |
| UserChecks.ParsersAgree | app/utils/user.tsx:45-56 | without a comma in the third segment both parsers agree |
| UserChecks.NullRowNeverMatches | app/utils/user.tsx:78-83 | a left-join row with NULL permission columns never matches |
| UserChecks.RowMatchesIffSatisfies | app/utils/user.tsx:78-83 | the row test is the permission match with "no access given" matching every access |
| UserChecks.RowsComeFromPaths | app/utils/user.tsx:64-76 | every non-NULL row comes from a membership, role link and permission link of the user |
| UserChecks.PathsGiveRows | app/utils/user.tsx:64-76 | every such path yields its permission's row |
| UserChecks.UserHasPermission | app/utils/user.tsx:58-84 | the `user.tsx` `userHasPermission`: some row of the user's LEFT JOIN over memberships, roles and permissions, in any organization, passes the row test against the parsed string |
| UserChecks.RowTestIsJoin | app/utils/user.tsx:58-84 | the check holds exactly when some grant path of the user, in any organization, matches |
| UserChecks.UnscopedIsSomeOrganization | app/utils/user.tsx:71-76 | the un-scoped check holds exactly when the scoped check, with no access filter, holds for some organization |
| UserChecks.AccessListNotSplit | app/utils/user.tsx:45-83 | `action:entity:own,any` is granted exactly when a path of the user leads to a permission stored with the composite access `own,any`; holding the `own` and the `any` permission does not suffice |
| UserChecks.UserHasRole | app/utils/user.tsx:86-99 | the `user.tsx` `userHasRole`: the name is among the role names reached from the user's memberships, in any organization |
| UserChecks.UserHasRoleIff | app/utils/user.tsx:86-99 | the role check holds exactly when some role of the user's memberships has the name; an unknown user gives false; it is the scoped check for some organization |
| Guards.RequireUserWithPermission | app/utils/permissions.server.ts:15-52 | returns the user id exactly when the un-scoped check holds; otherwise 403 with `Unauthorized`, the parsed permission and `Unauthorized: required permissions: <string>` |
| Guards.PermissionGuardIsSomeOrganization | app/utils/permissions.server.ts:22-38 | the guard lets through exactly a user granted the permission in some organization |
| Guards.RequireUserWithRole | app/utils/permissions.server.ts:54-78 | returns the user id exactly when the user holds the role; otherwise 403 with `Unauthorized: required role: <name>` |
| Guards.RoleGuardIsSomeOrganization | app/utils/permissions.server.ts:57-64 | the role guard lets through exactly a user holding the role in some organization |
| Seed.FindOrCreateRole | other/seed.ts:37-59 | an existing role of that name is reused, otherwise one is inserted; either way the row is returned |
| Seed.CreateDefaultRoles | other/seed.ts:27-66 | OWNER, ADMIN and MEMBER in that order, each found or created |
| Seed.FindOrCreatePermission | other/seed.ts:88-115 | an existing `(action, entity, access)` row is reused, otherwise one is inserted with description `<action> <access> <entity>` |
| Seed.CreateAccessPermission | other/seed.ts:75-121 | one pass of the inner loop: a skipped pair adds nothing, otherwise the found or created row |
| Seed.CreateActionPermissions | other/seed.ts:75-122 | the inner loop over access levels ensures each planned permission in order |
| Seed.CreateEntityPermissions | other/seed.ts:69-126 | ensures the planned permissions of one entity, in loop order |
| Seed.CreateDefaultPermissions | other/seed.ts:129-139 | ensures the 24 planned permissions of the four entities, in order |
| Seed.PlanAccessLinks | other/seed.ts:179-194 | for each access level in order, a link from the role to the first permission with that action and access, skipped when there is none |
| Seed.PlanGrantLinks | other/seed.ts:178-195 | the links one grant asks for, in loop order |
| Seed.PlanRolePermissions | other/seed.ts:151-196 | the links of all three grants, skipping a role that was not found |
| Seed.InsertLinksErrorSticks | other/seed.ts:201-224 | once a link insert fails, the rest of the transaction fails the same way |
| Seed.InsertRolePermissionsInTransaction | other/seed.ts:201-224 | present links are skipped, new ones inserted; the result is the planned insert sequence |
| Seed.CreateRolePermissions | other/seed.ts:198-228 | the links are added all or nothing, and a failure is swallowed |
| Seed.Seed | other/seed.ts:6-25 | roles, permissions and links in that order; the resulting state |
| Seed.DeleteLinksAndMembers | other/seed.ts:238-241 | the first four deletes empty both link tables, memberships and users |
| Seed.DeleteOrganizationsAndCatalog | other/seed.ts:242-244 | the last three deletes succeed and empty organizations, roles and permissions |
| Seed.RemoveAllOrganizations | other/seed.ts:242 | with no users and memberships left, deleting every organization is allowed and empties only that table |
| Seed.RemoveAllRoles | other/seed.ts:243 | with no links left, deleting every role empties only that table |
| Seed.RemoveAllPermissions | other/seed.ts:244 | with no links left, deleting every permission empties only that table |
| Seed.Teardown | other/seed.ts:231-254 | every table ends empty, the call succeeds, and the result is what the order gives without cascades |
| SeedPlan.EnsureRoleFacts | other/seed.ts:41-59 | the returned role has the name and is stored; earlier roles are kept; only roles change |
| SeedPlan.EnsureRolesKeep | other/seed.ts:36-63 | the roles loop keeps every constraint and every existing role, and changes only roles |
| SeedPlan.EnsureRolesFacts | other/seed.ts:36-63 | the loop's result names each planned role, in order, and each is stored |
| SeedPlan.EnsureRolesStable | other/seed.ts:46-50 | when every planned role is already stored, the loop adds nothing and returns those rows |
| SeedPlan.EnsureRolesIdempotent | other/seed.ts:42-51 | running the roles loop twice equals running it once |
| SeedPlan.EntitySpecsExact | other/seed.ts:70-86 | the planned permissions of an entity are the six written out |
| SeedPlan.EntitySpecsShape | other/seed.ts:76-79 | six per entity, none of them a skipped create-own or delete-own |
| SeedPlan.DefaultPermissionSpecsExact | other/seed.ts:129-139 | the default plan, written out, is the loop's plan |
| SeedPlan.DefaultPermissionPlanShape | other/seed.ts:130-138 | 24 permissions, the first six for `user`, all for the four entities and none skipped |
| SeedPlan.PermissionIdFor | other/seed.ts:94-100 | the permission found for a taken triple is stored |
| SeedPlan.EnsurePermissionFacts | other/seed.ts:93-115 | the returned permission has the triple and is stored; earlier ones are kept; only permissions change |
| SeedPlan.EnsurePermissionsKeep | other/seed.ts:74-123 | the permissions loop keeps every constraint and every existing permission |
| SeedPlan.EnsurePermissionsFacts | other/seed.ts:74-123 | the loop's result has each planned triple, in order, and each is stored |
| SeedPlan.EnsurePermissionsStable | other/seed.ts:102-106 | when every planned permission is already stored, the loop adds nothing |
| SeedPlan.EnsurePermissionsAppend | other/seed.ts:133-136 | ensuring two plans one after the other is ensuring their concatenation |
| SeedPlan.FirstRoleIndex | other/seed.ts:172 | the index of the first role with the name, or the length when there is none |
| SeedPlan.FindRole | other/seed.ts:172-176 | no role is found exactly when none has the name |
| SeedPlan.FirstPermissionIndex | other/seed.ts:180-182 | the index of the first permission with the action and access, whatever its entity |
| SeedPlan.FindPermission | other/seed.ts:180-188 | no permission is found exactly when none has the action and access |
| SeedPlan.DefaultLookups | other/seed.ts:180-182 | over the default rows each lookup returns one of the first six, the `user` entity's, and create-own and delete-own find nothing |
| SeedPlan.LinksForAllActions | other/seed.ts:151-194 | a full grant links the role to the six `user` permissions |
| SeedPlan.LinksForAllActionsOwn | other/seed.ts:162-194 | the MEMBER grant links only `read own` and `update own` of `user` |
| SeedPlan.DefaultLinksExact | other/seed.ts:151-196 | the planned links are six for OWNER, six for ADMIN and two for MEMBER |
| SeedPlan.DefaultLinksInsertable | other/seed.ts:198-224 | those links point at stored roles and permissions |
| SeedPlan.InsertLinksAdds | other/seed.ts:201-224 | inserting insertable links adds exactly them |
| SeedPlan.AddLinksValid | other/seed.ts:201-224 | adding insertable links keeps every constraint |
| SeedPlan.InsertLinksPresent | other/seed.ts:204-222 | links already present are all skipped and nothing changes |
| SeedPlan.SeedRowsStored | other/seed.ts:9-10 | after roles and permissions, the planned rows are stored and no other table changed |
| SeedPlan.SeedLinksAdded | other/seed.ts:6-25 | the seed adds exactly the default links to the state after roles and permissions, and the result is valid |
| SeedPlan.SeedKeepsRows | other/seed.ts:6-25 | after the seed the planned roles and permissions are still stored |
| SeedPlan.DefaultLinkSet | other/seed.ts:151-196 | OWNER and ADMIN get each of the six `user` permissions, MEMBER gets read-own and update-own, and no link goes elsewhere |
| SeedPlan.StoredSeedFound | other/seed.ts:6-25 | after the seed every default role and permission is found, and the lookups give the loop's rows |
| SeedPlan.StoredGrantsHeld | other/seed.ts:151-196 | the stored links are exactly the grants of the three roles on the `user` permissions |
| SeedPlan.SeedGrants | other/seed.ts:6-25 | after the seed the default roles and permissions exist and the grants hold |
| SeedPlan.SeedIdempotent | other/seed.ts:42-222 | seeding twice equals seeding once |
| Text.Split | app/utils/multitenancy/permissions.server.ts:29 | splitting always gives at least one part |
| Text.SplitAvoidsSeparator | app/utils/multitenancy/permissions.server.ts:29 | no part contains the separator |
| Text.JoinSplit | app/utils/multitenancy/permissions.server.ts:29 | joining the parts with the separator gives back the string |
| Text.SplitJoin | app/utils/multitenancy/permissions.server.ts:29-37 | splitting a join of separator-free parts gives back the parts |
| Text.SplitConcat | app/utils/multitenancy/permissions.server.ts:29 | splitting `a + sep + b` gives the parts of `a` followed by those of `b` |
| Text.JoinAvoids | app/utils/multitenancy/permissions.server.ts:29 | a character in neither the parts nor the separator is not in the join |
| Text.Utf16Length | app/utils/multitenancy/membership.server.ts:18-22 | `.length` is at least the number of characters, and equal to it exactly when every character is in the BMP |
| Text.Utf16LengthConcat | app/utils/multitenancy/membership.server.ts:18-22 | `.length` adds up over a concatenation |
| Normalize.LowerChar | app/utils/authenticator.server.ts:53 | an upper-case letter becomes lower case and every other character stays |
| Normalize.ToLower | app/utils/authenticator.server.ts:53 | same length, each character lowered |
| Normalize.NormalizeEmail | app/utils/authenticator.server.ts:53 | same length, only A-Z change, no upper-case letter is left |
| Normalize.NormalizeEmailIdempotent | app/utils/authenticator.server.ts:53 | normalising twice equals once |
| Normalize.ReplaceChar | app/utils/authenticator.server.ts:56 | a pattern character stays; any other becomes one `_` per UTF-16 code unit |
| Normalize.ReplaceNonWord | app/utils/authenticator.server.ts:56 | as long as the input's `.length`, only pattern characters; on a BMP string each character outside `[a-zA-Z0-9_]` becomes `_` in its place and the others stay |
| Normalize.ReplaceNonWordConcat | app/utils/authenticator.server.ts:56 | the replacement distributes over concatenation, so it works one character at a time |
| Normalize.NormalizeUsername | app/utils/authenticator.server.ts:55-56 | as long as the input's `.length`, only `[a-z0-9_]`; on a BMP string a pattern character keeps its place in lower case and every other becomes `_` |
| Normalize.AstralCharTwoUnderscores | app/utils/authenticator.server.ts:56 | a character above U+FFFF becomes two underscores: `a` followed by an emoji normalises to `a__` |
| Normalize.UsernameFixed | app/utils/authenticator.server.ts:55-56 | a name of `[a-z0-9_]` is its own normal form |
| Normalize.NormalizeUsernameIdempotent | app/utils/authenticator.server.ts:55-56 | normalising twice equals once |
| Normalize.SameUsernameNormalForm | app/utils/authenticator.server.ts:55-56 | two names with one normal form have the same `.length`; on BMP strings they agree, up to case, on every letter and digit |

## Left out

- I/O, `console.log`/`console.error` output and timestamps. `new Date()` is a `now`
  parameter, and the database defaults for `createdAt`/`updatedAt` are that same value.
- Concurrency and isolation. Each transaction is one atomic step on the handle.
- Engine error texts. These differ between Postgres and SQLite; the model has one kind
  each, `DuplicateKey` and `ForeignKeyViolation`.
- The missing `await`s in `app/utils/multitenancy/invite.server.ts:35,42`. Read literally,
  they make the code read `membership.id` off a Promise. The model follows what the code
  evidently intends: both calls are awaited and their errors rethrown.
- `declineInvitation` is imported by a test but defined nowhere, so it is not modelled.
- `changeActiveOrganization` appears only as a comment, so it is not modelled.
- The email format rule (zod's `.email()`) is a foreign library. It is the parameter
  `validEmail`. Input validation that needs no foreign code (the non-empty organization
  name) is modelled.
- `requireUserId` reads the session cookie. The guards take the user id as an input, and
  the HTTP response is the value `Denial`.
- The "Failed to remove membership" branch (`membership.server.ts:165-167`) cannot be
  reached: the row was found a moment before in the same transaction. The model has no
  such branch.
- The `catch` branches of the seed's role and permission loops. These can be reached only
  by a failed insert right after a lookup that found nothing, which cannot happen in one
  sequential step. The `if` that pushes the row is kept. The rethrow in `teardown` cannot
  be reached either: `Schema.TeardownOrderSucceeds` proves that every delete succeeds.
- Postgres sequences do not roll back with a transaction. In the model a rolled-back
  transaction also restores the id counters, so ids after a failed call may differ from
  the engine's.
- Text columns and enums. `action` and `globalRole` are enums in the model. The Postgres
  schema stores them as plain text checked only by the insert schemas, and every operation
  here writes one of the enum values. `access` is an enum of the four spellings of the
  access type (`own`, `any`, `own,any`, `any,own`): `createPermission` accepts all four and
  the Postgres text column stores them as given. The other two schemas annotate the text
  column with the enum `own`, `any`; the model does not distinguish the schemas and
  accepts the composite spellings on all three.
- Length limits on SQLite text columns (`length: 255`, …) are not enforced by SQLite
  itself. Only the insert schema of `createPendingMembership` checks them, and that check
  is modelled (`Memberships.PendingInputFailures`). The other writes do not parse a schema,
  so the limits are not modelled for them.
- The access type's `"own,any"` and `"any,own"` spellings are access values of their own
  in the model. The organization-scoped parser splits a requested `own,any` at the comma;
  the `user.tsx` parser keeps it whole, so it matches only a row stored with that composite
  access (`UserChecks.AccessListNotSplit`). The seed creates only `own` and `any` rows.
- Permissions.GetPermissionsByRoleName: the query returns an array of rows in the engine's
  order, each also carrying the constant `roleName` column. The model returns the set of
  permissions, so neither the order nor that column is modelled.
- `listInvitations` returns an array in the engine's row order. The model returns a set,
  so its order is not modelled.
- Normalize.NormalizeEmail: lower-cases A-Z only. JavaScript's `toLowerCase` also lowers
  non-ASCII letters and can change the length of a string (İ, for one); both are left out.
- Normalize.NormalizeUsername: the final `toLowerCase` is modelled on ASCII only. After
  the replacement only ASCII characters remain, so nothing is lost.
- The GoogleStrategy part of `app/utils/authenticator.server.ts` is not part of this
  model.

## Findings

| source | as written | input that shows it | evidently intended | confidence | as-written member | corrected member |
|---|---|---|---|---|---|---|
| app/utils/multitenancy/permissions.server.ts:94-96 | with no access part, the query filters on `access IS NULL`, but the column is NOT NULL, so no row can match | a user holding `read:user:any` in organization 1, checked against `read:user` in organization 1: the check as written is false | as the doc comment says, access is filtered only "if specified", so an access-less string matches any access level | not executed | Permissions.ReadUserDeniedAsWritten | Permissions.AccessLessStrings |
