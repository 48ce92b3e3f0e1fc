/** The tenant's invitation store and the admin resource that creates, lists and
    revokes invitations through it. Each state-changing method is proved to perform
    the corresponding pure step of module Invitations. */
module Resource {
  import opened Text
  import opened Streams
  import opened Invitations

  /** The tenant aggregate as far as invitations go: its stored invitations, its members,
      and the counter from which the store hands out invitation identifiers. */
  class Tenant {
    var invitations: seq<Invitation>
    var members: set<UserId>
    var nextId: InvitationId

    constructor (members: set<UserId>)
      ensures invitations == [] && this.members == members && nextId == 0
    {
      invitations := [];
      this.members := members;
      nextId := 0;
    }

    function InvitationsByEmail(email: string): (found: seq<Invitation>)
      reads this
      ensures found == [] <==> forall i :: 0 <= i < |invitations| ==> invitations[i].email != email
    {
      WithEmail(invitations, email)
    }

    /** The tenant's membership query, answered from the member set. */
    predicate HasMembership(user: UserId)
      reads this
    {
      IsMember(Some(user), members)
    }

    /** Stores a new invitation under a fresh identifier and returns it. */
    method AddInvitation(email: string, invitedBy: UserId, roles: set<RoleName>) returns (invitation: Invitation)
      modifies this
      ensures invitation == Invitation(old(nextId), email, invitedBy, roles)
      ensures invitations == old(invitations) + [invitation]
      ensures nextId == old(nextId) + 1 && members == old(members)
    {
      invitation := Invitation(nextId, email, invitedBy, roles);
      invitations := invitations + [invitation];
      nextId := nextId + 1;
    }

    /** Deletes the invitation with this identifier; reports whether there was one. */
    method RevokeInvitation(id: InvitationId) returns (revoked: bool)
      modifies this
      ensures revoked == HasId(old(invitations), id)
      ensures invitations == if revoked then WithoutId(old(invitations), id) else old(invitations)
      ensures nextId == old(nextId) && members == old(members)
    {
      revoked := HasId(invitations, id);
      if revoked {
        invitations := WithoutId(invitations, id);
      }
    }
  }

  /** The invitation endpoints of one tenant, with the admin event log they append to. */
  class TenantInvitationsResource {
    const tenant: Tenant
    var events: seq<AdminEvent>

    constructor (tenant: Tenant)
      ensures this.tenant == tenant && events == []
      ensures Valid() <==> Inv(State(tenant.invitations, tenant.members, tenant.nextId, []))
    {
      this.tenant := tenant;
      events := [];
    }

    ghost function Current(): State
      reads this, tenant
    {
      State(tenant.invitations, tenant.members, tenant.nextId, events)
    }

    ghost predicate Valid()
      reads this, tenant
    {
      Inv(Current())
    }

    /** POST: see Invitations.Create for the steps and their outcomes. */
    method CreateInvitation(email: Option<string>, roles: set<RoleName>, actingUser: UserId,
                            addressOk: string -> bool, findUser: string -> Option<UserId>, mailSent: bool)
      returns (response: Response)
      requires Valid()
      modifies this, tenant
      ensures Valid()
      ensures Create(old(Current()), email, roles, actingUser, addressOk, findUser, mailSent) == Step(response, Current())
    {
      CreatePreservesInv(Current(), email, roles, actingUser, addressOk, findUser, mailSent);
      if !IsValidEmail(email, addressOk) {
        return BadRequest;
      }
      var normalized := Lower(email.value);
      if tenant.InvitationsByEmail(normalized) != [] {
        return Conflict;
      }
      var user := findUser(normalized);
      if user.Some? && tenant.HasMembership(user.value) {
        return Conflict;
      }
      var invitation := tenant.AddInvitation(normalized, actingUser, roles);
      if !mailSent {
        return ServerError;
      }
      events := events + [AdminEvent(CreateOp, invitation.id)];
      response := Created(invitation.id);
    }

    /** GET: the page of invitations matching search, with first defaulting to 0 and
        max to DefaultMaxResults. Negative values are not accepted. */
    function ListInvitations(search: Option<string>, first: Option<int>, max: Option<int>): (page: seq<Invitation>)
      reads tenant
      requires first.Some? ==> first.value >= 0
      requires max.Some? ==> max.value >= 0
      ensures |page| <= if max.Some? then max.value else DefaultMaxResults
      ensures forall i :: 0 <= i < |page| ==> page[i] in tenant.invitations && Matches(search, page[i])
      ensures first.None? && max.None? && |Filter(Matching(search), tenant.invitations)| <= DefaultMaxResults
              ==> page == Filter(Matching(search), tenant.invitations)
    {
      ListPage(tenant.invitations, search,
               if first.Some? then first.value else 0,
               if max.Some? then max.value else DefaultMaxResults)
    }

    /** DELETE: see Invitations.Remove. */
    method RemoveInvitation(invitationId: InvitationId) returns (response: Response)
      requires Valid()
      modifies this, tenant
      ensures Valid()
      ensures Remove(old(Current()), invitationId) == Step(response, Current())
    {
      RemovePreservesInv(Current(), invitationId);
      var revoked := tenant.RevokeInvitation(invitationId);
      if revoked {
        events := events + [AdminEvent(DeleteOp, invitationId)];
        response := NoContent;
      } else {
        response := NotFound;
      }
    }
  }

  /** A tenant without invitations: invite an address, then invite it again spelled in
      another letter case. */
  method CreateTwiceScenario(address: string, respelled: string, admin: UserId,
                             addressOk: string -> bool, findUser: string -> Option<UserId>)
    returns (created: Response, duplicate: Response)
    requires IsValidEmail(Some(address), addressOk) && IsValidEmail(Some(respelled), addressOk)
    requires Lower(respelled) == Lower(address)
    ensures created == Created(0) && duplicate == Conflict
  {
    var tenant := new Tenant({});
    var resource := new TenantInvitationsResource(tenant);
    CreateAccepted(resource.Current(), Some(address), {"viewer"}, admin, addressOk, findUser, true);
    created := resource.CreateInvitation(Some(address), {"viewer"}, admin, addressOk, findUser, true);
    CreateDuplicateRejected(resource.Current(), Some(respelled), 0, {}, admin, addressOk, findUser, true);
    duplicate := resource.CreateInvitation(Some(respelled), {}, admin, addressOk, findUser, true);
  }

  /** A tenant without invitations: invite an address, then search with a term its
      lower-cased form contains, and with a term holding an upper-case letter. */
  method SearchScenario(address: string, term: string, upperTerm: string, admin: UserId,
                        addressOk: string -> bool, findUser: string -> Option<UserId>)
    returns (found: seq<Invitation>, notFound: seq<Invitation>)
    requires IsValidEmail(Some(address), addressOk)
    requires Contains(Lower(address), term) && !IsLower(upperTerm)
    ensures found == [Invitation(0, Lower(address), admin, {"viewer"})]
    ensures notFound == []
  {
    var tenant := new Tenant({});
    var resource := new TenantInvitationsResource(tenant);
    var invitation := Invitation(0, Lower(address), admin, {"viewer"});
    CreateAccepted(resource.Current(), Some(address), {"viewer"}, admin, addressOk, findUser, true);
    var created := resource.CreateInvitation(Some(address), {"viewer"}, admin, addressOk, findUser, true);
    assert tenant.invitations == [invitation];
    assert Matching(Some(term))(invitation);
    FilterKeepsAll(Matching(Some(term)), tenant.invitations);
    found := resource.ListInvitations(Some(term), None, None);
    UpperCaseSearchFindsNothing(resource.Current(), upperTerm, 0, DefaultMaxResults);
    notFound := resource.ListInvitations(Some(upperTerm), None, None);
  }

  /** A tenant without invitations: invite an address, revoke the invitation, list, and
      revoke it once more. */
  method RevokeTwiceScenario(address: string, admin: UserId, addressOk: string -> bool, findUser: string -> Option<UserId>)
    returns (removed: Response, remaining: seq<Invitation>, removedAgain: Response)
    requires IsValidEmail(Some(address), addressOk)
    ensures removed == NoContent && remaining == [] && removedAgain == NotFound
  {
    var tenant := new Tenant({});
    var resource := new TenantInvitationsResource(tenant);
    CreateAccepted(resource.Current(), Some(address), {"viewer"}, admin, addressOk, findUser, true);
    var created := resource.CreateInvitation(Some(address), {"viewer"}, admin, addressOk, findUser, true);
    assert tenant.invitations[0].id == 0;
    removed := resource.RemoveInvitation(0);
    remaining := resource.ListInvitations(None, None, None);
    removedAgain := resource.RemoveInvitation(0);
  }
}
