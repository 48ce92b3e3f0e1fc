# Tenant invitations

A Dafny model of the invitation endpoints of a multi-tenant Keycloak extension
(`TenantInvitationsResource`). One tenant holds pending invitations to join it, each
with an email address, the user who issued it and the roles it will grant. The resource:

- creates an invitation (POST). It validates the email, lower-cases it, and rejects a
  duplicate invitation or an address whose user is already a member. It then stores the
  invitation, sends the invitation email and records a CREATE admin event.
- lists invitations (GET). It applies an optional substring search, then `first`
  (default 0), then `max` (default 100, Keycloak's `DEFAULT_MAX_RESULTS`).
- revokes an invitation by id (DELETE). The result is 204 with a DELETE event, or 404.

Layout:

- `text.dfy`, module `Text`: lower-casing, `startsWith` and `contains` on strings.
- `streams.dfy`, module `Streams`: `filter`, `skip` and `limit` on sequences, with the
  facts the listing needs.
- `invitations.dfy`, module `Invitations`: the lifecycle as pure steps on a `State`.
  The state is the invitations, the members, the store's next id and the event log.
  `Create`, `Remove` and `ListPage` are defined here, together with the invariant `Inv`
  (ids increasing, emails lower-case and unique) and the laws proved about them.
- `resource.dfy`, module `Resource`: the imperative side. The class `Tenant` is the
  invitation store that changes in place. The class `TenantInvitationsResource` holds
  the tenant and the admin event log. Its `CreateInvitation` and `RemoveInvitation`
  methods are proved to perform exactly `Create` and `Remove`, and to keep `Inv`. Three
  client methods at the end replay the create, search and revoke sequences.

Collaborators the resource calls are parameters of the model:

- `addressOk: string -> bool` is the library's address syntax check.
- `findUser: string -> Option<UserId>` is the directory lookup by user name or email.
- `mailSent: bool` says whether the invitation email went out.
- `actingUser` is the authenticated caller.

Two behaviours of the code are kept as written:

- The `mailto:` prefix is stripped only for validation. The stored, lower-cased email
  keeps the prefix, so `mailto:a@b.com` and `a@b.com` are different keys for the
  duplicate check. The member lookup at line 55 also receives the prefixed address.
- An empty email is not rejected by the resource itself. It is judged by the address
  check alone (here `addressOk`).

## Model

| member | source | states |
|---|---|---|
| `Text.Lower` | src/main/java/dev/sultanov/keycloak/multitenancy/resource/TenantInvitationsResource.java:49 | the lower-cased email has the same length, and each character is the lower-case form of the original one |
| `Text.LowerNormalizes` | src/main/java/dev/sultanov/keycloak/multitenancy/resource/TenantInvitationsResource.java:49 | the normalised email has no upper-case letter, and lower-casing it again changes nothing |
| `Text.LowerFixedPoint` | src/main/java/dev/sultanov/keycloak/multitenancy/resource/TenantInvitationsResource.java:49 | a string is its own lower-case form exactly when it has no upper-case letter |
| `Text.ContainsIff` | src/main/java/dev/sultanov/keycloak/multitenancy/resource/TenantInvitationsResource.java:89 | the search test `contains` holds exactly when the term occurs at some position of the email |
| `Text.ContainedInLowerIsLower` | src/main/java/dev/sultanov/keycloak/multitenancy/resource/TenantInvitationsResource.java:89 | any term found in a lower-case email is itself lower-case, so matching is case-sensitive |
| `Text.StartsWith` | src/main/java/dev/sultanov/keycloak/multitenancy/resource/TenantInvitationsResource.java:112 | the prefix test holds exactly when the prefix is no longer than the string and agrees with it character by character |
| `Text.Contains` | src/main/java/dev/sultanov/keycloak/multitenancy/resource/TenantInvitationsResource.java:89 | a string that starts with the term contains it, and a contained term is never longer than the string (with `ContainsIff`: exactly the positional substring test) |
| `Streams.Filter` | src/main/java/dev/sultanov/keycloak/multitenancy/resource/TenantInvitationsResource.java:89 | `Stream.filter`: the result is no longer than the input and every element it keeps passes the test |
| `Streams.Skip` | src/main/java/dev/sultanov/keycloak/multitenancy/resource/TenantInvitationsResource.java:90 | `Stream.skip(n)`: length is the input length minus n (0 when n exceeds it), and element i of the result is element n + i of the input |
| `Streams.Limit` | src/main/java/dev/sultanov/keycloak/multitenancy/resource/TenantInvitationsResource.java:91 | `Stream.limit(n)`: length is the smaller of n and the input length, and the result is a prefix of the input |
| `Streams.FilterAppend` | src/main/java/dev/sultanov/keycloak/multitenancy/resource/TenantInvitationsResource.java:89 | the search filter distributes over concatenation, so matches keep their stored order |
| `Streams.FilterRemovesOne` | src/main/java/dev/sultanov/keycloak/multitenancy/resource/TenantInvitationsResource.java:98 | a filter that rejects only the element at position k removes that element and keeps the rest in order |
| `Invitations.StripMailto` | src/main/java/dev/sultanov/keycloak/multitenancy/resource/TenantInvitationsResource.java:112-114 | with a leading `mailto:` the result is what follows the prefix (prefix + result = input); without one the input is unchanged |
| `Invitations.IsValidEmail` | src/main/java/dev/sultanov/keycloak/multitenancy/resource/TenantInvitationsResource.java:109-123 | a missing email is invalid; an email without the prefix is valid exactly when the address check accepts it |
| `Invitations.ValidEmailWithMailto` | src/main/java/dev/sultanov/keycloak/multitenancy/resource/TenantInvitationsResource.java:112-117 | `mailto:` + address is valid exactly when the address check accepts the address |
| `Invitations.WithEmail` | src/main/java/dev/sultanov/keycloak/multitenancy/resource/TenantInvitationsResource.java:51 | every invitation found has that email, and none is found exactly when no stored invitation has it |
| `Invitations.WithoutId` | src/main/java/dev/sultanov/keycloak/multitenancy/resource/TenantInvitationsResource.java:98 | after revoking, no invitation with that id is left, every invitation left was stored before, and every stored invitation with another id is still there |
| `Invitations.IsMember` | src/main/java/dev/sultanov/keycloak/multitenancy/resource/TenantInvitationsResource.java:56 | the guard at line 56 as written, a plain definition with no contract of its own; `CreateMemberRejected` and `CreateConflictIff` state its effect on create |
| `Invitations.Create` | src/main/java/dev/sultanov/keycloak/multitenancy/resource/TenantInvitationsResource.java:44-76 | BadRequest exactly for an invalid email. BadRequest and Conflict change nothing. Created and ServerError append one invitation (lower-cased email, acting user, roles). Only Created appends a CREATE event. ServerError only when delivery failed. Members are never changed |
| `Invitations.CreateConflictIff` | src/main/java/dev/sultanov/keycloak/multitenancy/resource/TenantInvitationsResource.java:51-58 | for a valid email, Conflict exactly when an invitation for the lower-cased email exists or the user found for it is a member |
| `Invitations.CreateDuplicateRejected` | src/main/java/dev/sultanov/keycloak/multitenancy/resource/TenantInvitationsResource.java:51-53 | an existing invitation for the lower-cased email gives Conflict with the state unchanged |
| `Invitations.CreateMemberRejected` | src/main/java/dev/sultanov/keycloak/multitenancy/resource/TenantInvitationsResource.java:55-58 | a found user who is already a member gives Conflict with the state unchanged, whatever roles were requested |
| `Invitations.CreateAccepted` | src/main/java/dev/sultanov/keycloak/multitenancy/resource/TenantInvitationsResource.java:60-75 | when both guards pass, exactly one invitation is appended under the next id. A failed delivery then gives ServerError with the record kept and no event; otherwise Created with one CREATE event |
| `Invitations.SecondCreateConflicts` | src/main/java/dev/sultanov/keycloak/multitenancy/resource/TenantInvitationsResource.java:49-53 | after a successful create, a second create of the same address in any letter case is Conflict and leaves the state unchanged |
| `Invitations.CreatedIsListed` | src/main/java/dev/sultanov/keycloak/multitenancy/resource/TenantInvitationsResource.java:49-92 | the invitation just created is listed by a search for its lower-cased email |
| `Invitations.CreatePreservesInv` | src/main/java/dev/sultanov/keycloak/multitenancy/resource/TenantInvitationsResource.java:49-61 | create keeps ids fresh and increasing, emails lower-case and at most one invitation per email |
| `Invitations.Remove` | src/main/java/dev/sultanov/keycloak/multitenancy/resource/TenantInvitationsResource.java:97-106 | NoContent exactly when an invitation with the id was stored, with one DELETE event; otherwise NotFound with nothing changed. Afterwards no invitation has the id |
| `Invitations.RemoveTwice` | src/main/java/dev/sultanov/keycloak/multitenancy/resource/TenantInvitationsResource.java:97-106 | revoking the same id a second time gives NotFound and changes nothing |
| `Invitations.RemoveExactlyOne` | src/main/java/dev/sultanov/keycloak/multitenancy/resource/TenantInvitationsResource.java:98 | under the invariant, revoking the id at position k removes exactly that invitation and keeps the others in order |
| `Invitations.DropPreservesInv` | src/main/java/dev/sultanov/keycloak/multitenancy/resource/TenantInvitationsResource.java:98 | removing the invitation at any one position keeps ids increasing, emails lower-case and unique |
| `Invitations.RemovePreservesInv` | src/main/java/dev/sultanov/keycloak/multitenancy/resource/TenantInvitationsResource.java:97-106 | revoke keeps the invariant |
| `Invitations.RevokedIdNotReused` | src/main/java/dev/sultanov/keycloak/multitenancy/resource/TenantInvitationsResource.java:61 | a create after a revoke never hands out the revoked id again |
| `Invitations.Matches` | src/main/java/dev/sultanov/keycloak/multitenancy/resource/TenantInvitationsResource.java:89 | no term matches every invitation; a term matches exactly when it occurs at some position of the stored email, compared without lower-casing the term |
| `Invitations.ListPage` | src/main/java/dev/sultanov/keycloak/multitenancy/resource/TenantInvitationsResource.java:88-92 | at most max results; none when first is at or past the number of matches; every result is a stored invitation whose email contains the term |
| `Invitations.ListPageWindow` | src/main/java/dev/sultanov/keycloak/multitenancy/resource/TenantInvitationsResource.java:88-92 | the page is the window [first, first + max) of the matching invitations in stored order |
| `Invitations.ListWithoutSearch` | src/main/java/dev/sultanov/keycloak/multitenancy/resource/TenantInvitationsResource.java:84-92 | without a term, the page is the window [first, first + max) of the stored invitations |
| `Invitations.ListedWhenMatching` | src/main/java/dev/sultanov/keycloak/multitenancy/resource/TenantInvitationsResource.java:88-91 | every matching invitation is on the page that starts at 0 and is as long as the store |
| `Invitations.UpperCaseSearchFindsNothing` | src/main/java/dev/sultanov/keycloak/multitenancy/resource/TenantInvitationsResource.java:89 | under the invariant, a search term with an upper-case letter matches nothing |
| `Resource.Tenant.constructor` | src/main/java/dev/sultanov/keycloak/multitenancy/resource/TenantInvitationsResource.java:34 | a tenant starts with its members, no invitations and the id counter at 0 |
| `Resource.Tenant.HasMembership` | src/main/java/dev/sultanov/keycloak/multitenancy/resource/TenantInvitationsResource.java:56 | stand-in for the external `tenant.hasMembership(user)` query, defined through `IsMember`; the member set it reads is described under "## Left out" |
| `Resource.Tenant.InvitationsByEmail` | src/main/java/dev/sultanov/keycloak/multitenancy/resource/TenantInvitationsResource.java:51 | the query is empty exactly when no stored invitation has the email |
| `Resource.Tenant.AddInvitation` | src/main/java/dev/sultanov/keycloak/multitenancy/resource/TenantInvitationsResource.java:61 | appends one invitation with the next id, the email, the inviter and the roles, and advances the id counter |
| `Resource.Tenant.RevokeInvitation` | src/main/java/dev/sultanov/keycloak/multitenancy/resource/TenantInvitationsResource.java:98 | returns whether an invitation with the id was stored; if so it is removed, otherwise nothing changes |
| `Resource.TenantInvitationsResource.constructor` | src/main/java/dev/sultanov/keycloak/multitenancy/resource/TenantInvitationsResource.java:36-39 | the resource is bound to its tenant and starts with an empty event log; it satisfies the invariant exactly when the tenant's invitations do, so a resource built over any well-formed tenant can be used |
| `Resource.TenantInvitationsResource.CreateInvitation` | src/main/java/dev/sultanov/keycloak/multitenancy/resource/TenantInvitationsResource.java:44-76 | the response and new state are those of `Create` on the old state, and the invariant is kept |
| `Resource.TenantInvitationsResource.ListInvitations` | src/main/java/dev/sultanov/keycloak/multitenancy/resource/TenantInvitationsResource.java:78-93 | at most max (default 100) results, all stored and matching. With both defaults and at most 100 matches, every match is returned in stored order |
| `Resource.TenantInvitationsResource.RemoveInvitation` | src/main/java/dev/sultanov/keycloak/multitenancy/resource/TenantInvitationsResource.java:95-107 | the response and new state are those of `Remove` on the old state, and the invariant is kept |
| `Resource.CreateTwiceScenario` | src/main/java/dev/sultanov/keycloak/multitenancy/resource/TenantInvitationsResource.java:44-58 | on a new tenant, the first create gives Created(0) and a second create of the address in another letter case gives Conflict |
| `Resource.SearchScenario` | src/main/java/dev/sultanov/keycloak/multitenancy/resource/TenantInvitationsResource.java:49-92 | after creating, a search with a term contained in the lower-cased email finds exactly that invitation; a term with an upper-case letter finds nothing |
| `Resource.RevokeTwiceScenario` | src/main/java/dev/sultanov/keycloak/multitenancy/resource/TenantInvitationsResource.java:95-107 | after creating, the revoke gives NoContent, the list is empty, and a second revoke gives NotFound |

## Left out

- The address grammar of `javax.mail.internet.InternetAddress.validate()` is a library check. It is the parameter `addressOk`.
- `KeycloakModelUtils.findUserByNameOrEmail` is the parameter `findUser`. Membership is a set of user ids held by the tenant.
- The JPA storage behind the tenant is modelled as an in-memory sequence. Store ids are UUID strings; here they are numbers from a counter. A path id that names no number can never match, so it gives NotFound as in the source.
- Email delivery is outbound I/O. Only its success or failure is modelled, as `mailSent`.
- Other exceptions after line 60 are not modelled: a failing store write, representation mapping, admin event or URI construction. The source turns each into a 500. In the model only a failed delivery gives `ServerError`.
- `Text.Lower`: only ASCII letters are mapped. Java's locale-dependent Unicode case mapping is not modelled.
- The admin event builder, the request URI and the `Location` header are reduced to an event tag with the invitation id. `Created` carries the id.
- `ModelMapper` representations: listing returns the invitation records themselves. The invitation's creation time and tenant reference are not modelled.
- Authentication, session wiring and `auth.getUser()` are left out. The acting user is a parameter.
- Concurrency is left out. Create checks and then writes without a lock, so uniqueness under concurrent requests would have to come from the store.
- `Resource.TenantInvitationsResource.ListInvitations`: negative `first` or `max` is excluded by a precondition. `Stream.skip` and `Stream.limit` throw on these in the source.
