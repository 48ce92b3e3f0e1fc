/** The invitation lifecycle of one tenant as pure state transitions: creating an
    invitation, listing and searching invitations page by page, and revoking one.
    The resource class in module Resource is proved to perform exactly these steps. */
module Invitations {
  import opened Text
  import opened Streams

  datatype Option<T> = None | Some(value: T)

  type UserId = string
  type RoleName = string
  /** Invitation identifiers are handed out by the tenant's store from a counter. */
  type InvitationId = nat

  datatype Invitation = Invitation(id: InvitationId, email: string, invitedBy: UserId, roles: set<RoleName>)

  /** The outcomes of the resource's operations (201, 204, 400, 409, 404, 500). */
  datatype Response = Created(id: InvitationId) | NoContent | BadRequest | Conflict | NotFound | ServerError

  datatype Operation = CreateOp | DeleteOp

  /** An admin event as recorded on success: the operation and the invitation it concerns. */
  datatype AdminEvent = AdminEvent(operation: Operation, resourceId: InvitationId)

  /** What the operations read and change: the tenant's invitations, its members,
      the store's next identifier and the admin event log. */
  datatype State = State(invitations: seq<Invitation>, members: set<UserId>, nextId: InvitationId, events: seq<AdminEvent>)

  datatype Step = Step(response: Response, post: State)

  const MailtoPrefix: string := "mailto:"

  /** The page size used when the request gives none (Keycloak's Constants.DEFAULT_MAX_RESULTS). */
  const DefaultMaxResults: nat := 100

  // ---------------------------------------------------------------- validation

  /** The address handed to the syntax check: the input without a leading "mailto:". */
  function StripMailto(email: string): (address: string)
    ensures StartsWith(email, MailtoPrefix) ==> MailtoPrefix + address == email
    ensures !StartsWith(email, MailtoPrefix) ==> address == email
  {
    if StartsWith(email, MailtoPrefix) then email[|MailtoPrefix|..] else email
  }

  /** A missing email is invalid; otherwise the address, stripped of a leading "mailto:",
      must pass the address syntax check, which is a parameter of the model. */
  function IsValidEmail(email: Option<string>, addressOk: string -> bool): (valid: bool)
    ensures email.None? ==> !valid
    ensures email.Some? && !StartsWith(email.value, MailtoPrefix) ==> (valid <==> addressOk(email.value))
  {
    email.Some? && addressOk(StripMailto(email.value))
  }

  /** A "mailto:" address is valid exactly when the address after the scheme is. */
  lemma ValidEmailWithMailto(address: string, addressOk: string -> bool)
    ensures IsValidEmail(Some(MailtoPrefix + address), addressOk) <==> addressOk(address)
  {
    assert (MailtoPrefix + address)[..|MailtoPrefix|] == MailtoPrefix;
    assert (MailtoPrefix + address)[|MailtoPrefix|..] == address;
  }

  // ---------------------------------------------------------------- store queries

  function HasEmail(email: string): Invitation -> bool
  {
    (inv: Invitation) => inv.email == email
  }

  function NotId(id: InvitationId): Invitation -> bool
  {
    (inv: Invitation) => inv.id != id
  }

  /** The invitations stored for exactly this email. */
  function WithEmail(invitations: seq<Invitation>, email: string): (found: seq<Invitation>)
    ensures forall i :: 0 <= i < |found| ==> found[i].email == email
    ensures found == [] <==> forall i :: 0 <= i < |invitations| ==> invitations[i].email != email
  {
    FilterEmptyIff(HasEmail(email), invitations);
    Filter(HasEmail(email), invitations)
  }

  predicate HasId(invitations: seq<Invitation>, id: InvitationId)
  {
    exists i | 0 <= i < |invitations| :: invitations[i].id == id
  }

  /** The invitations left after revoking id. */
  function WithoutId(invitations: seq<Invitation>, id: InvitationId): (rest: seq<Invitation>)
    ensures !HasId(rest, id)
    ensures forall i :: 0 <= i < |rest| ==> rest[i] in invitations
    ensures forall i :: 0 <= i < |invitations| && invitations[i].id != id ==> invitations[i] in rest
  {
    FilterSound(NotId(id), invitations);
    forall i | 0 <= i < |invitations| && invitations[i].id != id
      ensures invitations[i] in Filter(NotId(id), invitations)
    {
      FilterComplete(NotId(id), invitations, i);
    }
    Filter(NotId(id), invitations)
  }

  // ---------------------------------------------------------------- invariant

  /** Identifiers increase along the sequence and stay below the next one to be handed
      out; every email is lower-case; no two invitations share an email. */
  ghost predicate Inv(st: State)
  {
    var s := st.invitations;
    (forall i :: 0 <= i < |s| ==> s[i].id < st.nextId && IsLower(s[i].email))
    && (forall i, j :: 0 <= i < j < |s| ==> s[i].id < s[j].id && s[i].email != s[j].email)
  }

  // ---------------------------------------------------------------- create

  /** The membership guard: a user was found and belongs to the tenant. */
  predicate IsMember(user: Option<UserId>, members: set<UserId>)
  {
    user.Some? && user.value in members
  }

  /** Creating an invitation: validate, lower-case, reject a duplicate, reject a member,
      store the invitation, send the email (mailSent says whether it was delivered), and
      record the CREATE event. A failed delivery gives a server error but keeps the record.
      findUser stands for the directory's lookup by user name or email. */
  function Create(st: State, email: Option<string>, roles: set<RoleName>, actingUser: UserId,
                  addressOk: string -> bool, findUser: string -> Option<UserId>, mailSent: bool): (step: Step)
    ensures step.post.members == st.members && step.post.nextId >= st.nextId
    ensures step.response == BadRequest <==> !IsValidEmail(email, addressOk)
    ensures step.response.BadRequest? || step.response.Conflict? || step.response.Created? || step.response.ServerError?
    ensures step.response.BadRequest? || step.response.Conflict? ==> step.post == st
    ensures step.response.Created? || step.response.ServerError? ==>
              email.Some? &&
              step.post.invitations == st.invitations + [Invitation(st.nextId, Lower(email.value), actingUser, roles)]
    ensures step.response.Created? <==> step.post.events == st.events + [AdminEvent(CreateOp, st.nextId)]
    ensures !step.response.Created? ==> step.post.events == st.events
    ensures step.response.Created? ==> step.response.id == st.nextId
    ensures step.response.ServerError? ==> !mailSent
  {
    if !IsValidEmail(email, addressOk) then Step(BadRequest, st)
    else
      var normalized := Lower(email.value);
      if WithEmail(st.invitations, normalized) != [] then Step(Conflict, st)
      else if IsMember(findUser(normalized), st.members) then Step(Conflict, st)
      else
        var invitation := Invitation(st.nextId, normalized, actingUser, roles);
        var stored := st.(invitations := st.invitations + [invitation], nextId := st.nextId + 1);
        if !mailSent then Step(ServerError, stored)
        else Step(Created(invitation.id), stored.(events := stored.events + [AdminEvent(CreateOp, invitation.id)]))
  }

  /** For a valid email, the result is Conflict exactly when an invitation for the
      lower-cased email exists or the user found for it is already a member. */
  lemma CreateConflictIff(st: State, email: Option<string>, roles: set<RoleName>, actingUser: UserId,
                          addressOk: string -> bool, findUser: string -> Option<UserId>, mailSent: bool)
    requires IsValidEmail(email, addressOk)
    ensures var normalized := Lower(email.value);
            Create(st, email, roles, actingUser, addressOk, findUser, mailSent).response == Conflict
            <==> (exists i :: 0 <= i < |st.invitations| && st.invitations[i].email == normalized)
                 || IsMember(findUser(normalized), st.members)
  {
  }

  /** An existing invitation for the lower-cased email makes Create a Conflict that
      changes nothing, whatever the roles, the acting user or the directory say. */
  lemma CreateDuplicateRejected(st: State, email: Option<string>, k: nat, roles: set<RoleName>, actingUser: UserId,
                                addressOk: string -> bool, findUser: string -> Option<UserId>, mailSent: bool)
    requires IsValidEmail(email, addressOk)
    requires k < |st.invitations| && st.invitations[k].email == Lower(email.value)
    ensures Create(st, email, roles, actingUser, addressOk, findUser, mailSent) == Step(Conflict, st)
  {
  }

  /** When the user found for the lower-cased email is a member, Create is a Conflict
      that changes nothing, whatever roles were requested. */
  lemma CreateMemberRejected(st: State, email: Option<string>, user: UserId, roles: set<RoleName>, actingUser: UserId,
                             addressOk: string -> bool, findUser: string -> Option<UserId>, mailSent: bool)
    requires IsValidEmail(email, addressOk)
    requires findUser(Lower(email.value)) == Some(user) && user in st.members
    ensures Create(st, email, roles, actingUser, addressOk, findUser, mailSent) == Step(Conflict, st)
  {
  }

  /** When both guards pass, exactly one invitation is appended, with the lower-cased email,
      the acting user and the requested roles. A failed delivery then gives ServerError and
      records no event; otherwise the result is Created with one CREATE event. */
  lemma CreateAccepted(st: State, email: Option<string>, roles: set<RoleName>, actingUser: UserId,
                       addressOk: string -> bool, findUser: string -> Option<UserId>, mailSent: bool)
    requires IsValidEmail(email, addressOk)
    requires forall i :: 0 <= i < |st.invitations| ==> st.invitations[i].email != Lower(email.value)
    requires !IsMember(findUser(Lower(email.value)), st.members)
    ensures var invitation := Invitation(st.nextId, Lower(email.value), actingUser, roles);
            var stored := st.(invitations := st.invitations + [invitation], nextId := st.nextId + 1);
            Create(st, email, roles, actingUser, addressOk, findUser, mailSent)
              == if mailSent then Step(Created(st.nextId), stored.(events := st.events + [AdminEvent(CreateOp, st.nextId)]))
                 else Step(ServerError, stored)
  {
  }

  /** A second create for the same address, in any letter case, is a Conflict and
      leaves the stored invitations as the first create left them. */
  lemma SecondCreateConflicts(st: State, first: string, second: string, roles1: set<RoleName>, roles2: set<RoleName>,
                              actor1: UserId, actor2: UserId, addressOk: string -> bool,
                              findUser: string -> Option<UserId>, mail1: bool, mail2: bool)
    requires addressOk(StripMailto(second))
    requires Lower(first) == Lower(second)
    requires Create(st, Some(first), roles1, actor1, addressOk, findUser, mail1).response.Created?
    ensures var s1 := Create(st, Some(first), roles1, actor1, addressOk, findUser, mail1).post;
            Create(s1, Some(second), roles2, actor2, addressOk, findUser, mail2) == Step(Conflict, s1)
  {
    var s1 := Create(st, Some(first), roles1, actor1, addressOk, findUser, mail1).post;
    CreateDuplicateRejected(s1, Some(second), |st.invitations|, roles2, actor2, addressOk, findUser, mail2);
  }

  /** The invitation Create stores is found by a search for its own lower-cased email. */
  lemma CreatedIsListed(st: State, email: Option<string>, roles: set<RoleName>, actingUser: UserId,
                        addressOk: string -> bool, findUser: string -> Option<UserId>, mailSent: bool)
    requires Create(st, email, roles, actingUser, addressOk, findUser, mailSent).response.Created?
    ensures var post := Create(st, email, roles, actingUser, addressOk, findUser, mailSent).post;
            Invitation(st.nextId, Lower(email.value), actingUser, roles)
              in ListPage(post.invitations, Some(Lower(email.value)), 0, |post.invitations|)
  {
    var post := Create(st, email, roles, actingUser, addressOk, findUser, mailSent).post;
    var normalized := Lower(email.value);
    OccurrenceIsContained(normalized, normalized, 0);
    ListedWhenMatching(post.invitations, Some(normalized), |post.invitations| - 1);
  }

  /** Create keeps the invariant: the new identifier is fresh and larger than every
      stored one, the stored email is lower-case and no other invitation has it. */
  lemma CreatePreservesInv(st: State, email: Option<string>, roles: set<RoleName>, actingUser: UserId,
                             addressOk: string -> bool, findUser: string -> Option<UserId>, mailSent: bool)
    requires Inv(st)
    ensures Inv(Create(st, email, roles, actingUser, addressOk, findUser, mailSent).post)
  {
    var step := Create(st, email, roles, actingUser, addressOk, findUser, mailSent);
    if step.response.Created? || step.response.ServerError? {
      var normalized := Lower(email.value);
      assert WithEmail(st.invitations, normalized) == [];
      assert forall i :: 0 <= i < |st.invitations| ==> st.invitations[i].email != normalized;
      LowerNormalizes(email.value);
    }
  }

  // ---------------------------------------------------------------- remove

  /** Revoking an invitation: success with one DELETE event when the store removed a
      record, otherwise NotFound with nothing changed. */
  function Remove(st: State, id: InvitationId): (step: Step)
    ensures step.response == NoContent <==> HasId(st.invitations, id)
    ensures step.response.NoContent? || step.response.NotFound?
    ensures step.post.members == st.members && step.post.nextId == st.nextId
    ensures !HasId(step.post.invitations, id)
    ensures step.response.NotFound? ==> step.post == st
    ensures step.response.NoContent? ==> step.post.events == st.events + [AdminEvent(DeleteOp, id)]
  {
    if HasId(st.invitations, id) then
      Step(NoContent, st.(invitations := WithoutId(st.invitations, id),
                          events := st.events + [AdminEvent(DeleteOp, id)]))
    else
      Step(NotFound, st)
  }

  /** Revoking the same identifier twice: the second attempt is NotFound and changes nothing. */
  lemma RemoveTwice(st: State, id: InvitationId)
    ensures var once := Remove(st, id).post;
            Remove(once, id) == Step(NotFound, once)
  {
  }

  /** Under the invariant, revoking the identifier at position k removes exactly that
      invitation and keeps the others in their order. */
  lemma RemoveExactlyOne(st: State, k: nat)
    requires Inv(st) && k < |st.invitations|
    ensures var s := st.invitations;
            Remove(st, s[k].id).post.invitations == s[..k] + s[k + 1..]
  {
    var s := st.invitations;
    var id := s[k].id;
    assert forall i :: 0 <= i < |s| && i != k ==> NotId(id)(s[i]);
    FilterRemovesOne(NotId(id), s, k);
  }

  /** Dropping the invitation at position k keeps the invariant, whatever the event log. */
  lemma DropPreservesInv(st: State, k: nat, events: seq<AdminEvent>)
    requires Inv(st) && k < |st.invitations|
    ensures var s := st.invitations;
            Inv(st.(invitations := s[..k] + s[k + 1..], events := events))
  {
    var s := st.invitations;
    var rest := s[..k] + s[k + 1..];
    forall i | 0 <= i < |rest|
      ensures rest[i] == s[if i < k then i else i + 1]
    {
    }
  }

  /** Remove keeps the invariant. */
  lemma RemovePreservesInv(st: State, id: InvitationId)
    requires Inv(st)
    ensures Inv(Remove(st, id).post)
  {
    var s := st.invitations;
    if HasId(s, id) {
      var k :| 0 <= k < |s| && s[k].id == id;
      RemoveExactlyOne(st, k);
      DropPreservesInv(st, k, st.events + [AdminEvent(DeleteOp, id)]);
    }
  }

  /** An identifier, once revoked, is never handed out again by a later create. */
  lemma RevokedIdNotReused(st: State, k: nat, email: Option<string>, roles: set<RoleName>, actingUser: UserId,
                           addressOk: string -> bool, findUser: string -> Option<UserId>, mailSent: bool)
    requires Inv(st) && k < |st.invitations|
    ensures var id := st.invitations[k].id;
            var step := Create(Remove(st, id).post, email, roles, actingUser, addressOk, findUser, mailSent);
            step.response.Created? ==> step.response.id != id
  {
  }

  // ---------------------------------------------------------------- list

  /** The search filter: no term keeps everything; a term keeps the emails containing
      it, compared as stored, without lower-casing the term. */
  predicate Matches(search: Option<string>, inv: Invitation)
    ensures search.None? ==> Matches(search, inv)
    ensures search.Some? ==> (Matches(search, inv) <==> exists i :: OccursAt(inv.email, search.value, i))
  {
    search.None? || (ContainsIff(inv.email, search.value); Contains(inv.email, search.value))
  }

  function Matching(search: Option<string>): Invitation -> bool
  {
    (inv: Invitation) => Matches(search, inv)
  }

  /** filter, then skip first, then limit to max, over the stored order. */
  function ListPage(invitations: seq<Invitation>, search: Option<string>, first: nat, max: nat): (page: seq<Invitation>)
    ensures |page| <= max
    ensures first >= |Filter(Matching(search), invitations)| ==> page == []
    ensures forall i :: 0 <= i < |page| ==> page[i] in invitations && Matches(search, page[i])
  {
    FilterSound(Matching(search), invitations);
    Limit(Skip(Filter(Matching(search), invitations), first), max)
  }

  /** The page is the window [first, first + max) of the matching invitations in stored order. */
  lemma ListPageWindow(invitations: seq<Invitation>, search: Option<string>, first: nat, max: nat)
    ensures var matching := Filter(Matching(search), invitations);
            var lo := if first < |matching| then first else |matching|;
            var hi := if first + max < |matching| then first + max else |matching|;
            ListPage(invitations, search, first, max) == matching[lo..hi]
  {
  }

  /** Without a search term, the page is the window [first, first + max) of the stored
      invitations; in particular a first at or beyond their number gives an empty page. */
  lemma ListWithoutSearch(invitations: seq<Invitation>, first: nat, max: nat)
    ensures var n := |invitations|;
            var lo := if first < n then first else n;
            var hi := if first + max < n then first + max else n;
            ListPage(invitations, None, first, max) == invitations[lo..hi]
  {
    FilterKeepsAll(Matching(None), invitations);
  }

  /** Every matching invitation appears on the page that starts at 0 and holds them all. */
  lemma ListedWhenMatching(invitations: seq<Invitation>, search: Option<string>, k: nat)
    requires k < |invitations| && Matches(search, invitations[k])
    ensures invitations[k] in ListPage(invitations, search, 0, |invitations|)
  {
    var matching := Filter(Matching(search), invitations);
    FilterComplete(Matching(search), invitations, k);
    assert Limit(Skip(matching, 0), |invitations|) == matching;
  }

  /** Search is case-sensitive: under the invariant every stored email is lower-case, so a
      term holding an upper-case letter matches nothing. */
  lemma UpperCaseSearchFindsNothing(st: State, term: string, first: nat, max: nat)
    requires Inv(st) && !IsLower(term)
    ensures ListPage(st.invitations, Some(term), first, max) == []
  {
    var page := ListPage(st.invitations, Some(term), first, max);
    if page != [] {
      ContainedInLowerIsLower(page[0].email, term);
    }
  }
}
