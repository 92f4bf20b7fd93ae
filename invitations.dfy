/**
 * The invitation lifecycle: an owner invites an email address into a flat,
 * may revoke the invitation while it is pending, and the invited user
 * accepts it before it expires. Times are milliseconds since the epoch.
 */
module Invitations {
  import opened Wrappers
  import opened Text
  import opened Js
  import opened Domain
  import opened Flats

  /** The four values of the schema's `status` enum. */
  datatype Status = Pending | Accepted | Revoked | Expired

  const STATUSES: seq<string> := ["pending", "accepted", "revoked", "expired"]

  /** The stored spelling of a status. */
  function StatusName(s: Status): (r: string)
    ensures r in STATUSES
    ensures s == Pending <==> r == "pending"
  {
    match s
    case Pending => "pending"
    case Accepted => "accepted"
    case Revoked => "revoked"
    case Expired => "expired"
  }

  /** Distinct statuses are stored under distinct names. */
  lemma StatusNamesDistinct(a: Status, b: Status)
    ensures StatusName(a) == StatusName(b) <==> a == b
  {
  }

  // ---------------------------------------------------------------------
  // Expiry
  // ---------------------------------------------------------------------

  /** `isExpired(invite)`: no expiry time, or one strictly before `now`. */
  predicate IsExpired(expiresAt: Option<int>, now: int) {
    expiresAt.None? || expiresAt.value < now
  }

  /**
   * A missing expiry means expired; at the expiry instant itself an
   * invitation is still valid; and once expired it stays expired.
   */
  lemma ExpiryFacts(expiresAt: Option<int>, now: int, later: int)
    requires now <= later
    ensures expiresAt.None? ==> IsExpired(expiresAt, now)
    ensures expiresAt.Some? ==> (IsExpired(expiresAt, now) <==> expiresAt.value < now)
    ensures expiresAt.Some? && expiresAt.value == now ==> !IsExpired(expiresAt, now)
    ensures IsExpired(expiresAt, now) ==> IsExpired(expiresAt, later)
  {
  }

  /** `INVITE_TTL_HOURS` when the environment does not set it. */
  const INVITE_TTL_HOURS: int := 48

  /** `Date.now() + INVITE_TTL_HOURS * 60 * 60 * 1000`. */
  function ExpiryFor(now: int): int {
    now + INVITE_TTL_HOURS * 60 * 60 * 1000
  }

  /** A new invitation is valid for exactly 48 hours, bounds included, and expired after. */
  lemma FreshInvitationLifetime(now: int, t: int)
    ensures ExpiryFor(now) == now + 172_800_000
    ensures now <= t <= now + 172_800_000 ==> !IsExpired(Some(ExpiryFor(now)), t)
    ensures t > now + 172_800_000 ==> IsExpired(Some(ExpiryFor(now)), t)
  {
  }

  // ---------------------------------------------------------------------
  // The invitation document
  // ---------------------------------------------------------------------

  /** Who may revoke: the checks after the invitation is found, in source order. */
  function RevokeStatus(flatOwner: Option<UserId>, caller: UserId, status: Status): int {
    if flatOwner.None? then 404
    else if flatOwner.value != caller then 403
    else if status != Pending then 400
    else 200
  }

  /** Revocation succeeds exactly for the flat's owner and a pending invitation. */
  lemma RevokeOnlyOwnerFromPending(flatOwner: Option<UserId>, caller: UserId, status: Status)
    ensures RevokeStatus(flatOwner, caller, status) == 200 <==> flatOwner == Some(caller) && status == Pending
    ensures RevokeStatus(flatOwner, caller, status) in {200, 400, 403, 404}
  {
  }

  /**
   * The accept checks after the invitation is found, in source order: it
   * must be pending, then unexpired, then addressed to the caller's
   * lower-cased email, and its flat must exist.
   */
  function AcceptStatus(status: Status, expiresAt: int, now: int, inviteEmail: string, userEmail: string, flatFound: bool): int {
    if status != Pending then 400
    else if IsExpired(Some(expiresAt), now) then 400
    else if inviteEmail != Lower(userEmail) then 403
    else if !flatFound then 404
    else 200
  }

  lemma AcceptOrder(status: Status, expiresAt: int, now: int, inviteEmail: string, userEmail: string, flatFound: bool)
    ensures var code := AcceptStatus(status, expiresAt, now, inviteEmail, userEmail, flatFound);
      && (code == 200 <==> status == Pending && now <= expiresAt && inviteEmail == Lower(userEmail) && flatFound)
      && (status != Pending ==> code == 400)
      && (status == Pending && expiresAt < now ==> code == 400)
      && (status == Pending && now <= expiresAt && inviteEmail != Lower(userEmail) ==> code == 403)
  {
  }

  /** The status a rejected or accepted call leaves: only an expired pending invitation is marked. */
  function AcceptedState(status: Status, expiresAt: int, now: int, code: int): Status {
    if code == 200 then Accepted
    else if status == Pending && IsExpired(Some(expiresAt), now) then Expired
    else status
  }

  class Invitation {
    const flat: string
    const email: string
    const invitedBy: UserId
    const expiresAt: int
    var status: Status
    var acceptedBy: Option<UserId>
    var acceptedAt: Option<int>

    /** `Invitation.create({ flat, email, invitedBy, tokenHash, expiresAt, status: "pending" })`. */
    constructor (flat: string, email: string, invitedBy: UserId, expiresAt: int)
      ensures this.flat == flat && this.email == email && this.invitedBy == invitedBy && this.expiresAt == expiresAt
      ensures status == Pending && acceptedBy == None && acceptedAt == None
    {
      this.flat := flat;
      this.email := email;
      this.invitedBy := invitedBy;
      this.expiresAt := expiresAt;
      status := Pending;
      acceptedBy := None;
      acceptedAt := None;
    }

    /**
     * `POST /invitations/:invitationId/revoke` once the invitation is found;
     * `flatOwner` is the owner of its flat, None when the flat is gone.
     */
    method Revoke(flatOwner: Option<UserId>, caller: UserId) returns (code: int)
      modifies this
      ensures code == RevokeStatus(flatOwner, caller, old(status))
      ensures status == (if code == 200 then Revoked else old(status))
      ensures acceptedBy == old(acceptedBy) && acceptedAt == old(acceptedAt)
    {
      code := RevokeStatus(flatOwner, caller, status);
      if code == 200 {
        status := Revoked;
      }
    }

    /**
     * `POST /invitations/accept` once the invitation is found by its token:
     * an expired one is marked expired, and a successful accept adds the
     * caller to the flat unless already a member and records who accepted
     * and when.
     */
    method Accept(home: Flat?, caller: UserId, callerEmail: string, now: int) returns (code: int)
      modifies this, home
      ensures code == AcceptStatus(old(status), expiresAt, now, email, callerEmail, home != null)
      ensures status == AcceptedState(old(status), expiresAt, now, code)
      ensures code == 200 ==> acceptedBy == Some(caller) && acceptedAt == Some(now)
      ensures code != 200 ==> acceptedBy == old(acceptedBy) && acceptedAt == old(acceptedAt)
      ensures home != null ==> home.members == (if code == 200 then Joined(old(home.members), caller) else old(home.members))
      ensures home != null ==> home.owner == old(home.owner) && home.name == old(home.name) && home.description == old(home.description)
      ensures home != null ==> old(home.Valid()) ==> home.Valid()
    {
      code := AcceptStatus(status, expiresAt, now, email, callerEmail, home != null);
      if status == Pending && IsExpired(Some(expiresAt), now) {
        status := Expired;
      } else if code == 200 {
        home.Join(caller);
        status := Accepted;
        acceptedBy := Some(caller);
        acceptedAt := Some(now);
      }
    }
  }

  /** Every transition leaves pending: an invitation that is not pending never changes status again. */
  lemma OnlyPendingMoves(flatOwner: Option<UserId>, caller: UserId, status: Status, expiresAt: int, now: int,
                         email: string, callerEmail: string, flatFound: bool)
    requires status != Pending
    ensures RevokeStatus(flatOwner, caller, status) != 200
    ensures AcceptedState(status, expiresAt, now, AcceptStatus(status, expiresAt, now, email, callerEmail, flatFound)) == status
  {
  }

  // ---------------------------------------------------------------------
  // Creating an invitation
  // ---------------------------------------------------------------------

  /** The checks of `POST /invitations`, in source order. */
  function CreateStatus(flatId: Value, email: Value, flatOwner: Option<UserId>, memberEmails: seq<string>, caller: UserId): int {
    if !ValidObjectId(flatId) then 400
    else match RequiredText(email)
      case Blank => 400
      case Crash => 500
      case Present(text) =>
        if flatOwner.None? then 404
        else if flatOwner.value != caller then 403
        else if AlreadyMember(memberEmails, Lower(text)) then 400
        else 201
  }

  /** `flat.members.some(m => String(m.email).toLowerCase() === cleanEmail)`. */
  predicate AlreadyMember(memberEmails: seq<string>, cleanEmail: string) {
    exists k :: 0 <= k < |memberEmails| && Lower(memberEmails[k]) == cleanEmail
  }

  /**
   * An invitation is created exactly when the flat id is well formed, the
   * email is a non-blank string, the caller owns the existing flat and no
   * member has that email, compared after trimming and ignoring case.
   */
  lemma CreateSucceeds(flatId: Value, email: Value, flatOwner: Option<UserId>, memberEmails: seq<string>, caller: UserId)
    ensures CreateStatus(flatId, email, flatOwner, memberEmails, caller) == 201 <==>
      && ValidObjectId(flatId)
      && email.Str? && Trim(email.s) != []
      && flatOwner == Some(caller)
      && forall k :: 0 <= k < |memberEmails| ==> Lower(memberEmails[k]) != Lower(Trim(email.s))
  {
    if CreateStatus(flatId, email, flatOwner, memberEmails, caller) == 201 {
      CreatedOnly(flatId, email, flatOwner, memberEmails, caller);
    }
    if ValidObjectId(flatId) && email.Str? && Trim(email.s) != [] && flatOwner == Some(caller)
      && !AlreadyMember(memberEmails, Lower(Trim(email.s)))
    {
      CreatedWhen(flatId, email, flatOwner, memberEmails, caller);
    }
  }

  lemma CreatedOnly(flatId: Value, email: Value, flatOwner: Option<UserId>, memberEmails: seq<string>, caller: UserId)
    requires CreateStatus(flatId, email, flatOwner, memberEmails, caller) == 201
    ensures ValidObjectId(flatId) && email.Str? && Trim(email.s) != [] && flatOwner == Some(caller)
    ensures !AlreadyMember(memberEmails, Lower(Trim(email.s)))
  {
    assert ValidObjectId(flatId);
    var r := RequiredText(email);
    assert r != Blank && r != Crash;
    assert email.Str? && r.text == Trim(email.s);
    assert flatOwner == Some(caller);
  }

  lemma CreatedWhen(flatId: Value, email: Value, flatOwner: Option<UserId>, memberEmails: seq<string>, caller: UserId)
    requires ValidObjectId(flatId) && email.Str? && Trim(email.s) != [] && flatOwner == Some(caller)
    requires !AlreadyMember(memberEmails, Lower(Trim(email.s)))
    ensures CreateStatus(flatId, email, flatOwner, memberEmails, caller) == 201
  {
    assert email.s != "";
    assert RequiredText(email) == Present(Trim(email.s));
  }

  /** A member's address is refused in any mix of case and surrounding spaces. */
  lemma MemberEmailRefused(flatId: Value, email: string, flatOwner: UserId, memberEmails: seq<string>, k: nat)
    requires ValidObjectId(flatId) && k < |memberEmails| && Trim(email) != []
    requires Lower(memberEmails[k]) == Lower(Trim(email))
    ensures CreateStatus(flatId, Str(email), Some(flatOwner), memberEmails, flatOwner) == 400
  {
  }

  /**
   * `Invitation.updateMany({ flat, email, status: "pending" }, { status:
   * "revoked" })` over the stored invitations.
   */
  method RevokeEarlier(store: seq<Invitation>, flat: string, email: string)
    modifies set i | i in store
    ensures forall i :: i in store ==> i.status == (if i.flat == flat && i.email == email && old(i.status) == Pending then Revoked else old(i.status))
    ensures forall i :: i in store ==> i.acceptedBy == old(i.acceptedBy) && i.acceptedAt == old(i.acceptedAt)
  {
    for n := 0 to |store|
      invariant forall i :: i in store[..n] ==> i.status == (if i.flat == flat && i.email == email && old(i.status) == Pending then Revoked else old(i.status))
      invariant forall i :: i in store && i !in store[..n] ==> i.status == old(i.status)
      invariant forall i :: i in store ==> i.acceptedBy == old(i.acceptedBy) && i.acceptedAt == old(i.acceptedAt)
    {
      assert forall i :: i in store[..n + 1] <==> i in store[..n] || i == store[n];
      var inv := store[n];
      if inv.flat == flat && inv.email == email && inv.status == Pending {
        inv.status := Revoked;
      }
    }
    assert store[..|store|] == store;
  }

  /**
   * `POST /invitations`: the email is trimmed and lower-cased; earlier
   * pending invitations to it for the flat are revoked and a pending one
   * expiring in 48 hours is added, so that it is then the only pending
   * invitation for that flat and email. `flat` is the flat looked up by
   * id and `memberEmails` its members' emails.
   */
  method CreateInvitation(store: seq<Invitation>, flatId: Value, email: Value, home: Flat?,
                          memberEmails: seq<string>, caller: UserId, now: int)
    returns (code: int, invite: Invitation?, after: seq<Invitation>)
    modifies set i | i in store
    ensures code == CreateStatus(flatId, email, if home == null then None else Some(home.owner), memberEmails, caller)
    ensures code != 201 ==> invite == null && after == store && forall i :: i in store ==> i.status == old(i.status)
    ensures code == 201 ==>
      && invite != null && fresh(invite) && after == store + [invite]
      && invite.flat == IdText(flatId) && invite.email == Lower(Trim(email.s))
      && invite.invitedBy == caller && invite.expiresAt == ExpiryFor(now) && invite.status == Pending
    ensures code == 201 ==> forall i :: i in store ==>
      i.status == (if i.flat == invite.flat && i.email == invite.email && old(i.status) == Pending then Revoked else old(i.status))
    ensures code == 201 ==> forall i :: i in after && i.flat == invite.flat && i.email == invite.email && i.status == Pending ==> i == invite
    ensures forall i :: i in store ==> i.acceptedBy == old(i.acceptedBy) && i.acceptedAt == old(i.acceptedAt)
  {
    code := CreateStatus(flatId, email, if home == null then None else Some(home.owner), memberEmails, caller);
    if code != 201 {
      invite, after := null, store;
      return;
    }
    assert RequiredText(email).Present?;
    invite, after := Issue(store, IdText(flatId), Lower(Trim(email.s)), caller, now);
  }

  /** Revokes the earlier pending invitations for the flat and email, then adds a new pending one. */
  method Issue(store: seq<Invitation>, flat: string, cleanEmail: string, caller: UserId, now: int)
    returns (invite: Invitation, after: seq<Invitation>)
    modifies set i | i in store
    ensures fresh(invite) && after == store + [invite]
    ensures invite.flat == flat && invite.email == cleanEmail
    ensures invite.invitedBy == caller && invite.expiresAt == ExpiryFor(now) && invite.status == Pending
    ensures forall i :: i in store ==>
      i.status == (if i.flat == flat && i.email == cleanEmail && old(i.status) == Pending then Revoked else old(i.status))
    ensures forall i :: i in after && i.flat == flat && i.email == cleanEmail && i.status == Pending ==> i == invite
    ensures forall i :: i in store ==> i.acceptedBy == old(i.acceptedBy) && i.acceptedAt == old(i.acceptedAt)
  {
    RevokeEarlier(store, flat, cleanEmail);
    invite := new Invitation(flat, cleanEmail, caller, ExpiryFor(now));
    after := store + [invite];
  }
}
