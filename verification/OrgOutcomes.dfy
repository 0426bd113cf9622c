/**
 * What each of the seven operations answers and writes, said on the fields of the rows: the exact
 * condition of every answer, and the rows it leaves.
 */
module OrgOutcomes {
  import opened Wrappers
  import opened InvitationPolicy
  import opened OwnerInvariant
  import opened OrgTables

  /** The stored role of the member lists the capability by name. */
  predicate Lists(t: Tables, u: UserId, capability: string) {
    u in t.members && t.members[u].roleId in t.roles && capability in t.roles[t.members[u].roleId]
  }

  predicate RoleLists(t: Tables, roleId: RoleId, capability: string) {
    roleId in t.roles && capability in t.roles[roleId]
  }

  predicate Works(t: Tables, u: UserId) {
    u in t.members && t.members[u].status == Active
  }

  /**
   * The Owner-only rule: whoever holds `full_access` may do anything, a holder of `manage_members` whatever
   * touches no Owner role, and nobody else anything.
   */
  predicate May(t: Tables, actor: UserId, touchesOwner: bool) {
    Lists(t, actor, "full_access") || (Lists(t, actor, "manage_members") && !touchesOwner)
  }

  /** Somebody other than `u` is an active member whose role lists `full_access`. */
  predicate AnotherOwner(t: Tables, u: UserId) {
    exists v <- t.members :: v != u && Works(t, v) && Lists(t, v, "full_access")
  }

  /** `t'` differs from `t` at most in the one membership row, and that row is now `row`. */
  predicate PutsMember(t: Tables, t': Tables, u: UserId, row: Membership) {
    t' == t.(members := t.members[u := row])
  }

  predicate PutsInvitation(t: Tables, t': Tables, i: InvId, row: Invitation) {
    i < |t.invitations| && t' == t.(invitations := t.invitations[i := row])
  }

  // ── members ──────────────────────────────────────────────────────────────

  lemma OthersOwn(t: Tables, t': Tables, u: UserId)
    requires t'.roles == t.roles && t'.members.Keys == t.members.Keys
    requires forall v :: v in t.members && v != u ==> t'.members[v] == t.members[v]
    ensures t'.HasActiveOwner() <==> AnotherOwner(t, u) || (Works(t', u) && Lists(t', u, "full_access"))
  {
    forall v | v in t.members
      ensures t'.IsActiveOwner(v) <==> Works(t', v) && Lists(t', v, "full_access")
      ensures v != u ==> (Works(t', v) <==> Works(t, v))
      ensures v != u ==> (Lists(t', v, "full_access") <==> Lists(t, v, "full_access"))
    {
    }
    if AnotherOwner(t, u) {
      var v :| v in t.members && v != u && Works(t, v) && Lists(t, v, "full_access");
      assert t'.IsActiveOwner(v);
    }
    if Works(t', u) && Lists(t', u, "full_access") {
      assert t'.IsActiveOwner(u);
    }
  }

  /** Whom the operation finds before it asks for permission: both must be active members, the target first. */
  lemma UpdateRoleOutcomes(t: Tables, op: Operation)
    requires op.UpdateRole?
    ensures var (t', out) := ApplyUpdateRole(t, op);
            var found := Works(t, op.target) && Works(t, op.actor) && op.roleId in t.roles;
            var allowed := May(t, op.actor, Lists(t, op.target, "full_access")
                                            || RoleLists(t, op.roleId, "full_access"));
            var owned := AnotherOwner(t, op.target) || RoleLists(t, op.roleId, "full_access");
            && (out == Refused(NotFound) <==> !Works(t, op.target))
            && (out == Refused(OrgAccessDenied) <==> Works(t, op.target) && !Works(t, op.actor))
            && (out == Refused(RoleInvalid) <==>
                  Works(t, op.target) && Works(t, op.actor) && op.roleId !in t.roles)
            && (out == Refused(Forbidden) <==> found && !allowed)
            && (out == Refused(LastOwner) <==> found && allowed && !owned)
            && (!out.Refused? <==> found && allowed && owned)
            && (if out.Refused? then t' == t
                else
                  && out == RoleChanged(t.members[op.target].roleId, op.roleId)
                  && PutsMember(t, t', op.target, t.members[op.target].(roleId := op.roleId)))
  {
    if Works(t, op.target) {
      OthersOwn(t, Perform(SetRole(op.target, op.roleId), t), op.target);
    }
  }

  /** A pending invitation to the e-mail of `u`. */
  predicate Invites(env: Env, t: Tables, i: InvId, u: UserId) {
    && i < |t.invitations| && t.invitations[i].status == Pending
    && u in env.users && env.users[u].email == t.invitations[i].email
  }

  /** `u` is out since `at`, by the hand of `actor`, and exactly the pending invitations to `u` are cancelled. */
  ghost predicate Removes(env: Env, t: Tables, t': Tables, u: UserId, actor: UserId, at: int, cancelled: set<InvId>) {
    && u in t.members && t'.roles == t.roles
    && t'.members == t.members[u := t.members[u].(status := Revoked, revokedAt := Some(at), revokedBy := Some(actor))]
    && |t'.invitations| == |t.invitations|
    && (forall i :: 0 <= i < |t.invitations| ==>
                      t'.invitations[i] ==
                      if Invites(env, t, i, u) then t.invitations[i].(status := Cancelled, cancelledAt := Some(at))
                      else t.invitations[i])
    && forall i :: i in cancelled <==> Invites(env, t, i, u)
  }

  lemma RemoveOutcomes(env: Env, t: Tables, u: UserId, actor: UserId, at: int)
    requires Works(t, u)
    ensures var (t', out) := Remove(env, t, u, actor, at);
            if AnotherOwner(t, u) then
              out.Removed? && out.revokedAt == at && Removes(env, t, t', u, actor, at, out.cancelled)
            else t' == t && out == Refused(LastOwner)
  {
    OthersOwn(t, Perform(SetRevoked(u, at, actor), t), u);
  }

  lemma RevokeOutcomes(env: Env, t: Tables, op: Operation, at: int)
    requires op.RevokeMember?
    ensures var (t', out) := ApplyRevoke(env, t, op, at);
            var found := Works(t, op.target) && Works(t, op.actor);
            var allowed := May(t, op.actor, Lists(t, op.target, "full_access"));
            && (out == Refused(NotFound) <==> !Works(t, op.target))
            && (out == Refused(OrgAccessDenied) <==> Works(t, op.target) && !Works(t, op.actor))
            && (out == Refused(Forbidden) <==> found && !allowed)
            && (out == Refused(LastOwner) <==> found && allowed && !AnotherOwner(t, op.target))
            && (!out.Refused? <==> found && allowed && AnotherOwner(t, op.target))
            && (if out.Refused? then t' == t
                else
                  && out.Removed? && out.revokedAt == at
                  && Removes(env, t, t', op.target, op.actor, at, out.cancelled))
  {
    if Works(t, op.target) {
      RemoveOutcomes(env, t, op.target, op.actor, at);
    }
  }

  /** Leaving asks for no capability; only the last Owner may not. */
  lemma LeaveOutcomes(env: Env, t: Tables, op: Operation, at: int)
    requires op.Leave?
    ensures var (t', out) := ApplyLeave(env, t, op, at);
            && (out == Refused(OrgAccessDenied) <==> !Works(t, op.actor))
            && (out == Refused(LastOwner) <==> Works(t, op.actor) && !AnotherOwner(t, op.actor))
            && (!out.Refused? <==> Works(t, op.actor) && AnotherOwner(t, op.actor))
            && (if out.Refused? then t' == t
                else
                  && out.Removed? && out.revokedAt == at
                  && Removes(env, t, t', op.actor, op.actor, at, out.cancelled))
  {
    if Works(t, op.actor) {
      RemoveOutcomes(env, t, op.actor, op.actor, at);
    }
  }

  // ── invitations ──────────────────────────────────────────────────────────

  /** Pending by the stored column, and not dead by the clock. */
  predicate Alive(t: Tables, i: InvId, now: int) {
    i < |t.invitations| && t.invitations[i].status == Pending && now < t.invitations[i].expiresAt
  }

  /** A link for a role that can manage members lives a day, any other a week. */
  function LinkEnd(t: Tables, roleId: RoleId, now: int): int {
    now + if RoleLists(t, roleId, "full_access") || RoleLists(t, roleId, "manage_members") then 86_400_000
          else 604_800_000
  }

  predicate MemberHas(env: Env, t: Tables, email: Email) {
    exists u <- t.members :: Works(t, u) && u in env.users && env.users[u].email == email
  }

  predicate HasPending(t: Tables, email: Email) {
    exists i :: 0 <= i < |t.invitations| && t.invitations[i].status == Pending && t.invitations[i].email == email
  }

  function CountAlive(t: Tables, now: int): nat {
    |set i | 0 <= i < |t.invitations| && Alive(t, i, now)|
  }

  lemma CreateReads(env: Env, t: Tables, email: Email, now: int)
    ensures t.EmailIsMember(env, email) <==> MemberHas(env, t, email)
    ensures t.PendingIds(Some(email)) != {} <==> HasPending(t, email)
    ensures |t.LiveIds(now)| == CountAlive(t, now)
  {
    if HasPending(t, email) {
      var i :| 0 <= i < |t.invitations| && t.invitations[i].status == Pending && t.invitations[i].email == email;
      assert i in t.PendingIds(Some(email));
    }
    assert t.LiveIds(now) == set i | 0 <= i < |t.invitations| && Alive(t, i, now);
  }

  lemma CreateOutcomes(env: Env, t: Tables, op: Operation)
    requires op.Create?
    ensures var (t', out) := ApplyCreate(env, t, op);
            var found := op.roleId in t.roles && Works(t, op.actor);
            var allowed := May(t, op.actor, RoleLists(t, op.roleId, "full_access"));
            var free := !MemberHas(env, t, op.email) && !HasPending(t, op.email);
            && (out == Refused(RoleInvalid) <==> op.roleId !in t.roles)
            && (out == Refused(OrgAccessDenied) <==> op.roleId in t.roles && !Works(t, op.actor))
            && (out == Refused(Forbidden) <==> found && !allowed)
            && (out == Refused(AlreadyAMember) <==> found && allowed && MemberHas(env, t, op.email))
            && (out == Refused(InvitationPending) <==>
                  found && allowed && !MemberHas(env, t, op.email) && HasPending(t, op.email))
            && (out == Refused(InvitationLimitReached) <==>
                  found && allowed && free && CountAlive(t, op.now) >= env.pendingCap)
            && (!out.Refused? <==> found && allowed && free && CountAlive(t, op.now) < env.pendingCap)
            && (if out.Refused? then t' == t
                else
                  var row := Invitation(op.email, op.roleId, Pending, op.hash, op.now, LinkEnd(t, op.roleId, op.now),
                                        op.actor, None, None, None, None);
                  && out == Issued(|t.invitations|, LinkEnd(t, op.roleId, op.now))
                  && t' == t.(invitations := t.invitations + [row]))
  {
    CreateReads(env, t, op.email, op.now);
  }

  lemma ReissueOutcomes(t: Tables, op: Operation)
    requires op.Reissue?
    ensures var (t', out) := ApplyReissue(t, op);
            var alive := Alive(t, op.id, op.now);
            && (out == Refused(NotFound) <==> op.id >= |t.invitations|)
            && (out == Refused(Conflict) <==>
                  op.id < |t.invitations| && t.invitations[op.id].status != Pending)
            && (out == Refused(NotAcceptable(IsExpired)) <==>
                  && op.id < |t.invitations| && t.invitations[op.id].status == Pending
                  && t.invitations[op.id].expiresAt <= op.now)
            && (out == Refused(OrgAccessDenied) <==> alive && !Works(t, op.actor))
            && (out == Refused(Forbidden) <==>
                  && alive && Works(t, op.actor)
                  && !May(t, op.actor, RoleLists(t, t.invitations[op.id].roleId, "full_access")))
            && (!out.Refused? <==>
                  && alive && Works(t, op.actor)
                  && May(t, op.actor, RoleLists(t, t.invitations[op.id].roleId, "full_access")))
            && (if out.Refused? then t' == t
                else
                  var row := t.invitations[op.id];
                  var end := LinkEnd(t, row.roleId, op.now);
                  && out == Issued(op.id, end)
                  && PutsInvitation(t, t', op.id, row.(hash := op.hash, tokenIssuedAt := op.now, expiresAt := end)))
  {
  }

  lemma CancelOutcomes(t: Tables, op: Operation)
    requires op.Cancel?
    ensures var (t', out) := ApplyCancel(t, op);
            && (out == Refused(NotFound) <==> op.id >= |t.invitations|)
            && (out == Refused(Conflict) <==> op.id < |t.invitations| && t.invitations[op.id].status != Pending)
            && (!out.Refused? <==> op.id < |t.invitations| && t.invitations[op.id].status == Pending)
            && (if out.Refused? then t' == t
                else
                  && out == CancelledInvitation(op.id)
                  && PutsInvitation(t, t', op.id,
                                    t.invitations[op.id].(status := Cancelled, cancelledAt := Some(op.now))))
  {
  }

  // ── accepting ────────────────────────────────────────────────────────────

  /** The row a link leads to: the first that carries its hash. */
  ghost predicate LeadsTo(t: Tables, hash: Hash, i: InvId) {
    && i < |t.invitations| && t.invitations[i].hash == hash
    && forall k :: 0 <= k < i ==> t.invitations[k].hash != hash
  }

  lemma {:induction false} LookupLeads(t: Tables, hash: Hash, i: InvId, from: InvId)
    requires LeadsTo(t, hash, i) && from <= i
    ensures t.Lookup(hash, from) == Some(i)
    decreases i - from
  {
    if from < i {
      LookupLeads(t, hash, i, from + 1);
    }
  }

  /** A link that leads nowhere is refused, and nothing is written. */
  lemma AcceptOfNothing(env: Env, t: Tables, op: Operation)
    requires op.Accept?
    ensures ApplyAccept(env, t, op).1 == Refused(InvitationInvalid) <==>
            forall i :: 0 <= i < |t.invitations| ==> t.invitations[i].hash != op.hash
    ensures ApplyAccept(env, t, op).1 == Refused(InvitationInvalid) ==> ApplyAccept(env, t, op).0 == t
  {
  }

  /** `u` may come in by the row: a newcomer, or somebody revoked before the present link was issued. */
  predicate ComesIn(t: Tables, u: UserId, row: Invitation) {
    u in t.members ==>
      && t.members[u].status == Revoked
      && t.members[u].revokedAt.Some? && t.members[u].revokedAt.value < row.tokenIssuedAt
  }

  /** The answer to a link that leads to row `i`, each with its exact condition. */
  lemma AcceptOutcomes(env: Env, t: Tables, op: Operation, i: InvId)
    requires op.Accept? && LeadsTo(t, op.hash, i)
    ensures var (t', out) := ApplyAccept(env, t, op);
            var row, known := t.invitations[i], op.actor in env.users;
            var mine := known && Alive(t, i, op.now) && env.users[op.actor].email == row.email;
            var usable := mine && row.roleId in t.roles;
            && (out == Refused(Internal) <==> !known)
            && (out == Refused(NotAcceptable(IsExpired)) <==>
                  known && (row.status == Expired || (row.status == Pending && row.expiresAt <= op.now)))
            && (out == Refused(NotAcceptable(IsCancelled)) <==> known && row.status == Cancelled)
            && (out == Refused(NotAcceptable(AlreadyAccepted)) <==> known && row.status == Accepted)
            && (out == Refused(InvitationEmailMismatch) <==> known && Alive(t, i, op.now) && !mine)
            && (out == Refused(NotAcceptable(RoleUnavailable)) <==> mine && row.roleId !in t.roles)
            && (out == Refused(AlreadyAMember) <==> usable && Works(t, op.actor))
            && (out == Refused(NotAcceptable(Superseded)) <==>
                  usable && !Works(t, op.actor) && !ComesIn(t, op.actor, row))
            && (!out.Refused? <==> usable && ComesIn(t, op.actor, row))
  {
    LookupLeads(t, op.hash, i, 0);
  }

  /** What accepting writes: one refusal closes the row, and success lets the person in with the row's role. */
  lemma AcceptWrites(env: Env, t: Tables, op: Operation, i: InvId)
    requires op.Accept? && LeadsTo(t, op.hash, i)
    ensures var (t', out) := ApplyAccept(env, t, op);
            var row := t.invitations[i];
            && (out == Refused(AlreadyAMember) ==>
                  PutsInvitation(t, t', i, row.(status := Cancelled, cancelledAt := Some(op.now))))
            && (out.Refused? && out != Refused(AlreadyAMember) ==> t' == t)
            && (!out.Refused? ==>
                  && op.actor in env.users
                  && out == Joined(i, row.roleId, if op.actor in t.members then t.members[op.actor].revokedAt else None)
                  && t'.roles == t.roles
                  && t'.members == t.members[op.actor := Membership(row.roleId, Active, Some(op.now), None, None)]
                  && t'.invitations ==
                     t.invitations[i := row.(status := Accepted, acceptedAt := Some(op.now),
                                             acceptedBy := Some(op.actor),
                                             acceptedUserCreatedAt := Some(env.users[op.actor].createdAt))])
  {
    LookupLeads(t, op.hash, i, 0);
  }
}
