/**
 * The members and invitations services as they run inside one locked transaction: they read
 * rows, decide, and update the rows in place. Each method does exactly what `Apply` says.
 */
module OrgServices {
  import opened Wrappers
  import opened OrgAuthz
  import opened InvitationPolicy
  import opened OwnerInvariant
  import opened OrgTables
  import opened OrgRuns

  /** The rows of one organization as the transaction that holds its lock sees them. */
  class OrgTx {
    const env: Env
    const roles: map<RoleId, seq<string>>
    var members: map<UserId, Membership>
    var invitations: seq<Invitation>

    constructor (env: Env, t: Tables)
      ensures this.env == env && State() == t
    {
      this.env := env;
      roles, members, invitations := t.roles, t.members, t.invitations;
    }

    function State(): Tables
      reads this
    {
      Tables(roles, members, invitations)
    }

    /** The membership, or nothing when it is not active. */
    function ReadActiveMembership(u: UserId): (m: Option<Membership>)
      reads this
      ensures m.Some? <==> State().IsActive(u)
      ensures m.Some? ==> m.value == members[u]
    {
      if u in members && members[u].status.Active? then Some(members[u]) else None
    }

    function RoleCapabilities(r: RoleId): seq<string> {
      if r in roles then roles[r] else []
    }

    /** The memberships whose current role holds `full_access`, in any status and any order. */
    method FindOwnerRows() returns (owners: seq<OwnerMembership>)
      ensures ListsOwners(State(), owners)
    {
      owners := [];
      var left := members.Keys;
      while left != {}
        invariant left <= members.Keys
        invariant forall m :: m in owners <==>
                                && m.userId in members.Keys - left
                                && IsOwnerRole(State().CapabilitiesOf(m.userId))
                                && m == OwnerRow(State(), m.userId)
      {
        var u :| u in left;
        var capabilities := RoleCapabilities(members[u].roleId);
        if IsOwnerRole(capabilities) {
          owners := owners + [OwnerMembership(u, members[u].status, capabilities)];
        }
        left := left - {u};
      }
    }

    method OwnerRemainsInTx(change: OwnerChange) returns (remains: bool)
      ensures remains <==> OwnerLeft(State(), change)
    {
      var owners := FindOwnerRows();
      remains := OwnerRemains(owners, change);
      OwnerLeftFromRows(State(), owners, change);
    }

    /** `updateMany` on the named rows. */
    method CancelRows(ids: set<InvId>, at: int)
      modifies this`invitations
      ensures State() == Perform(CancelPending(ids, at), old(State()))
    {
      var n := |invitations|;
      for i := 0 to n
        invariant |invitations| == n
        invariant forall k :: 0 <= k < n ==>
                                invitations[k] == if k < i && k in ids then CancelRow(old(invitations)[k], at)
                                                  else old(invitations)[k]
      {
        if i in ids {
          invitations := invitations[i := CancelRow(invitations[i], at)];
        }
      }
      assert invitations == Perform(CancelPending(ids, at), old(State())).invitations;
    }

    /** Mark the membership revoked and close that e-mail's pending invitations, together. */
    method WriteRevocation(target: UserId, actor: UserId, at: int) returns (cancelled: set<InvId>)
      requires target in members
      modifies this`members, this`invitations
      ensures cancelled == old(State()).PendingIds(env.EmailOf(target))
      ensures State() == Perform(CancelPending(cancelled, at), Perform(SetRevoked(target, at, actor), old(State())))
    {
      members := members[target := members[target].(status := Revoked, revokedAt := Some(at),
                                                    revokedBy := Some(actor))];
      cancelled := State().PendingIds(env.EmailOf(target));
      if cancelled != {} {
        CancelRows(cancelled, at);
      } else {
        assert invitations == Perform(CancelPending({}, at), State()).invitations;
      }
    }

    // ── members ──────────────────────────────────────────────────────────────

    method UpdateRole(actor: UserId, target: UserId, roleId: RoleId, at: int) returns (r: Outcome)
      modifies this`members
      ensures (State(), r) == Apply(env, Operation.UpdateRole(actor, target, roleId), at, old(State()))
    {
      var targetRow := ReadActiveMembership(target);
      if targetRow.None? { return Refused(NotFound); }
      var actorRow := ReadActiveMembership(actor);
      if actorRow.None? { return Refused(OrgAccessDenied); }
      if roleId !in roles { return Refused(RoleInvalid); }
      var targetIsOwner := IsOwnerRole(RoleCapabilities(targetRow.value.roleId));
      if !CanAssignRole(RoleCapabilities(actorRow.value.roleId), targetIsOwner, IsOwnerRole(roles[roleId])) {
        return Refused(Forbidden);
      }
      var remains := OwnerRemainsInTx(RoleChange(target, roles[roleId]));
      OwnerLeftAfterRoleChange(State(), target, roleId);
      if !remains { return Refused(LastOwner); }
      members := members[target := targetRow.value.(roleId := roleId)];
      return RoleChanged(targetRow.value.roleId, roleId);
    }

    method Revoke(actor: UserId, target: UserId, at: int) returns (r: Outcome)
      modifies this`members, this`invitations
      ensures (State(), r) == Apply(env, RevokeMember(actor, target), at, old(State()))
    {
      var targetRow := ReadActiveMembership(target);
      if targetRow.None? { return Refused(NotFound); }
      var actorRow := ReadActiveMembership(actor);
      if actorRow.None? { return Refused(OrgAccessDenied); }
      var targetIsOwner := IsOwnerRole(RoleCapabilities(targetRow.value.roleId));
      if !CanAssignRole(RoleCapabilities(actorRow.value.roleId), targetIsOwner, false) {
        return Refused(Forbidden);
      }
      var remains := OwnerRemainsInTx(OwnerChange.Revoke(target));
      OwnerLeftAfterRemoval(State(), target, at, actor);
      if !remains { return Refused(LastOwner); }
      var cancelled := WriteRevocation(target, actor, at);
      return Removed(at, cancelled);
    }

    method Leave(actor: UserId, at: int) returns (r: Outcome)
      modifies this`members, this`invitations
      ensures (State(), r) == Apply(env, Operation.Leave(actor), at, old(State()))
    {
      var self := ReadActiveMembership(actor);
      if self.None? { return Refused(OrgAccessDenied); }
      var remains := OwnerRemainsInTx(OwnerChange.Revoke(actor));
      OwnerLeftAfterRemoval(State(), actor, at, actor);
      if !remains { return Refused(LastOwner); }
      var cancelled := WriteRevocation(actor, actor, at);
      return Removed(at, cancelled);
    }

    // ── invitations ──────────────────────────────────────────────────────────

    method Create(actor: UserId, email: Email, roleId: RoleId, hash: Hash, now: int, at: int) returns (r: Outcome)
      modifies this`invitations
      ensures (State(), r) == Apply(env, Operation.Create(actor, email, roleId, hash, now), at, old(State()))
    {
      if roleId !in roles { return Refused(RoleInvalid); }
      var actorRow := ReadActiveMembership(actor);
      if actorRow.None? { return Refused(OrgAccessDenied); }
      if !CanAssignRole(RoleCapabilities(actorRow.value.roleId), false, IsOwnerRole(roles[roleId])) {
        return Refused(Forbidden);
      }
      if State().EmailIsMember(env, email) { return Refused(AlreadyAMember); }
      if State().PendingIds(Some(email)) != {} { return Refused(InvitationPending); }
      if |State().LiveIds(now)| >= env.pendingCap { return Refused(InvitationLimitReached); }
      var expiresAt := ExpiryFrom(now, TtlHours(roles[roleId]));
      var row := Invitation(email, roleId, Pending, hash, now, expiresAt, actor, None, None, None, None);
      invitations := invitations + [row];
      return Issued(|invitations| - 1, expiresAt);
    }

    method ReissueLink(actor: UserId, id: InvId, hash: Hash, now: int, at: int) returns (r: Outcome)
      modifies this`invitations
      ensures (State(), r) == Apply(env, Reissue(actor, id, hash, now), at, old(State()))
    {
      if id >= |invitations| { return Refused(NotFound); }
      var row := invitations[id];
      if !row.status.Pending? { return Refused(Conflict); }
      if ResolveStatus(Pending, row.expiresAt, now).Expired? { return Refused(NotAcceptable(IsExpired)); }
      var actorRow := ReadActiveMembership(actor);
      if actorRow.None? { return Refused(OrgAccessDenied); }
      if !CanAssignRole(RoleCapabilities(actorRow.value.roleId), false, IsOwnerRole(RoleCapabilities(row.roleId))) {
        return Refused(Forbidden);
      }
      var expiresAt := ExpiryFrom(now, TtlHours(RoleCapabilities(row.roleId)));
      invitations := invitations[id := row.(hash := hash, tokenIssuedAt := now, expiresAt := expiresAt)];
      return Issued(id, expiresAt);
    }

    method CancelInvitation(actor: UserId, id: InvId, now: int, at: int) returns (r: Outcome)
      modifies this`invitations
      ensures (State(), r) == Apply(env, Cancel(actor, id, now), at, old(State()))
    {
      if id >= |invitations| { return Refused(NotFound); }
      if !invitations[id].status.Pending? { return Refused(Conflict); }
      CancelRows({id}, now);
      return CancelledInvitation(id);
    }

    method Accept(user: UserId, hash: Hash, now: int, at: int) returns (r: Outcome)
      modifies this`members, this`invitations
      ensures (State(), r) == Apply(env, Operation.Accept(user, hash, now), at, old(State()))
    {
      var found := State().Lookup(hash);
      if found.None? { return Refused(InvitationInvalid); }
      if user !in env.users { return Refused(Internal); }
      var id := found.value;
      var row := invitations[id];
      var decision := CanAccept(row.status, row.expiresAt, row.tokenIssuedAt, AcceptorOf(State(), user),
                                row.roleId in roles, now);
      // The clock and the stored status answer first, then the e-mail, then the rest.
      if decision in {IsExpired, IsCancelled, AlreadyAccepted} { return Refused(NotAcceptable(decision)); }
      if env.users[user].email != row.email { return Refused(InvitationEmailMismatch); }
      if decision in {RoleUnavailable, Superseded} { return Refused(NotAcceptable(decision)); }
      if decision.AlreadyMember? {
        CancelRows({id}, now);
        return Refused(AlreadyAMember);
      }
      var reactivatedFrom := None;
      if user in members {
        if members[user].status.Revoked? { reactivatedFrom := members[user].revokedAt; }
        members := members[user := members[user].(status := Active, roleId := row.roleId, activatedAt := Some(now),
                                                  revokedAt := None, revokedBy := None)];
      } else {
        members := members[user := Membership(row.roleId, Active, Some(now), None, None)];
      }
      invitations := invitations[id := row.(status := Accepted, acceptedAt := Some(now), acceptedBy := Some(user),
                                            acceptedUserCreatedAt := Some(env.users[user].createdAt))];
      return Joined(id, row.roleId, reactivatedFrom);
    }

    // ── any of them ──────────────────────────────────────────────────────────

    method Dispatch(req: Request) returns (r: Outcome)
      modifies this`members, this`invitations
      ensures (State(), r) == Apply(env, req.op, req.at, old(State()))
    {
      match req.op
      case UpdateRole(actor, target, roleId) => r := UpdateRole(actor, target, roleId, req.at);
      case RevokeMember(actor, target) => r := Revoke(actor, target, req.at);
      case Leave(actor) => r := Leave(actor, req.at);
      case Create(actor, email, roleId, hash, now) => r := Create(actor, email, roleId, hash, now, req.at);
      case Reissue(actor, id, hash, now) => r := ReissueLink(actor, id, hash, now, req.at);
      case Cancel(actor, id, now) => r := CancelInvitation(actor, id, now, req.at);
      case Accept(actor, hash, now) => r := Accept(actor, hash, now, req.at);
    }

    /** Whichever operation is served, the rows keep what every run keeps. */
    method Serve(req: Request) returns (r: Outcome)
      modifies this`members, this`invitations
      ensures (State(), r) == Apply(env, req.op, req.at, old(State()))
      ensures KeepsAll(env, old(State()), State())
    {
      ghost var t := State();
      r := Dispatch(req);
      StepKeepsAll(env, req.op, req.at, t, State());
    }
  }
}
