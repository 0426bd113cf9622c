/**
 * One organization's rows, the row updates the services issue, and what each of the
 * seven locked operations does when it runs alone.
 */
module OrgTables {
  import opened Wrappers
  import opened OrgAuthz
  import opened InvitationPolicy
  import opened OwnerInvariant

  type OrgId = nat
  type RoleId = nat
  type InvId = nat // position in the invitation table, which only grows
  type Email = string // normalized: trimmed and lower case
  type Hash = nat // stored hash of an invitation token

  datatype User = User(email: Email, createdAt: int)

  datatype Membership = Membership(
    roleId: RoleId, status: MembershipStatus, activatedAt: Option<int>,
    revokedAt: Option<int>, revokedBy: Option<UserId>)

  datatype Invitation = Invitation(
    email: Email, roleId: RoleId, status: StoredStatus, hash: Hash, tokenIssuedAt: int, expiresAt: int,
    invitedBy: UserId, acceptedAt: Option<int>, acceptedBy: Option<UserId>,
    acceptedUserCreatedAt: Option<int>, cancelledAt: Option<int>)

  /** Accounts, and the cap on invitations that are pending and alive. */
  datatype Env = Env(users: map<UserId, User>, pendingCap: nat) {
    function EmailOf(u: UserId): Option<Email> {
      if u in users then Some(users[u].email) else None
    }
  }

  datatype Tables = Tables(
    roles: map<RoleId, seq<string>>, members: map<UserId, Membership>, invitations: seq<Invitation>)
  {
    predicate IsActive(u: UserId) {
      u in members && members[u].status.Active?
    }

    function RoleCapabilities(r: RoleId): seq<string> {
      if r in roles then roles[r] else []
    }

    function CapabilitiesOf(u: UserId): seq<string> {
      if u in members then RoleCapabilities(members[u].roleId) else []
    }

    predicate IsActiveOwner(u: UserId) {
      IsActive(u) && IsOwnerRole(CapabilitiesOf(u))
    }

    predicate HasActiveOwner() {
      exists u <- members :: IsActiveOwner(u)
    }

    predicate EmailIsMember(env: Env, email: Email) {
      exists u <- members :: IsActive(u) && env.EmailOf(u) == Some(email)
    }

    predicate PendingFor(i: InvId, email: Option<Email>) {
      i < |invitations| && invitations[i].status.Pending? && Some(invitations[i].email) == email
    }

    function PendingIds(email: Option<Email>): set<InvId> {
      set i | 0 <= i < |invitations| && PendingFor(i, email)
    }

    predicate Live(i: InvId, now: int) {
      i < |invitations| && invitations[i].status.Pending? && now < invitations[i].expiresAt
    }

    function LiveIds(now: int): set<InvId> {
      set i | 0 <= i < |invitations| && Live(i, now)
    }

    /** The row a token hash names: `findFirst` on the hash column. */
    function Lookup(hash: Hash, i: InvId := 0): (r: Option<InvId>)
      requires i <= |invitations|
      ensures r.Some? ==> i <= r.value < |invitations| && invitations[r.value].hash == hash
      ensures r.None? ==> forall k :: i <= k < |invitations| ==> invitations[k].hash != hash
      decreases |invitations| - i
    {
      if i == |invitations| then None
      else if invitations[i].hash == hash then Some(i)
      else Lookup(hash, i + 1)
    }
  }

  // ── row updates ──────────────────────────────────────────────────────────

  datatype Write =
    | SetRole(user: UserId, roleId: RoleId)
    | SetRevoked(user: UserId, at: int, actor: UserId)
    | CancelPending(ids: set<InvId>, at: int)
    | PutActive(user: UserId, roleId: RoleId, at: int)
    | Insert(row: Invitation)
    | Rotate(id: InvId, hash: Hash, at: int, expiresAt: int)
    | MarkAccepted(id: InvId, user: UserId, at: int, userCreatedAt: int)

  function CancelRow(row: Invitation, at: int): Invitation {
    row.(status := Cancelled, cancelledAt := Some(at))
  }

  function Perform(w: Write, t: Tables): Tables {
    match w
    case SetRole(u, r) =>
      if u in t.members then t.(members := t.members[u := t.members[u].(roleId := r)]) else t
    case SetRevoked(u, at, actor) =>
      if u in t.members
      then t.(members := t.members[u := t.members[u].(status := Revoked, revokedAt := Some(at),
          revokedBy := Some(actor))])
      else t
    case CancelPending(ids, at) =>
      t.(invitations := seq(|t.invitations|, i requires 0 <= i < |t.invitations| =>
           if i in ids then CancelRow(t.invitations[i], at) else t.invitations[i]))
    case PutActive(u, r, at) =>
      t.(members := t.members[u := Membership(r, Active, Some(at), None, None)])
    case Insert(row) =>
      t.(invitations := t.invitations + [row])
    case Rotate(i, hash, at, expiresAt) =>
      if i < |t.invitations|
      then t.(invitations := t.invitations[i := t.invitations[i].(hash := hash, tokenIssuedAt := at,
          expiresAt := expiresAt)])
      else t
    case MarkAccepted(i, u, at, createdAt) =>
      if i < |t.invitations|
      then t.(invitations := t.invitations[i := t.invitations[i].(status := Accepted, acceptedAt := Some(at),
                             acceptedBy := Some(u), acceptedUserCreatedAt := Some(createdAt))])
      else t
  }

  // ── the Owner check ──────────────────────────────────────────────────────

  function OwnerRow(t: Tables, u: UserId): OwnerMembership
    requires u in t.members
  {
    OwnerMembership(u, t.members[u].status, t.CapabilitiesOf(u))
  }

  /** `owners` lists exactly the memberships whose role holds `full_access`, in any status. */
  ghost predicate ListsOwners(t: Tables, owners: seq<OwnerMembership>) {
    forall m :: m in owners <==>
                  m.userId in t.members && IsOwnerRole(t.CapabilitiesOf(m.userId)) && m == OwnerRow(t, m.userId)
  }

  /** What `assertOwnerRemains` answers on the rows that one statement reads. */
  predicate OwnerLeft(t: Tables, change: OwnerChange) {
    || (exists u <- t.members :: StaysOwner(OwnerRow(t, u), change))
    || (change.RoleChange? && IsOwnerRole(change.newRoleCapabilities)
        && !(change.userId in t.members && IsOwnerRole(t.CapabilitiesOf(change.userId))))
  }

  /** The answer does not depend on how the query orders or repeats the rows. */
  lemma OwnerLeftFromRows(t: Tables, owners: seq<OwnerMembership>, change: OwnerChange)
    requires ListsOwners(t, owners)
    ensures OwnerLeft(t, change) <==> exists u :: OwnerAfter(owners, change, u)
  {
    if OwnerLeft(t, change) {
      if u :| u in t.members && StaysOwner(OwnerRow(t, u), change) {
        assert OwnerRow(t, u) in owners;
        assert OwnerAfter(owners, change, u);
      } else {
        assert OwnerAfter(owners, change, change.userId);
      }
    }
    if u :| OwnerAfter(owners, change, u) {
      if m :| m in owners && m.userId == u && StaysOwner(m, change) {
        assert StaysOwner(OwnerRow(t, u), change);
      } else {
        assert PromotesOutsider(owners, change);
        assert change.userId in t.members && IsOwnerRole(t.CapabilitiesOf(change.userId)) ==>
            OwnerRow(t, change.userId) in owners;
      }
    }
  }

  /** For an active member the answer is whether an active Owner exists after the write. */
  lemma OwnerLeftAfterRoleChange(t: Tables, u: UserId, roleId: RoleId)
    requires t.IsActive(u) && roleId in t.roles
    ensures OwnerLeft(t, RoleChange(u, t.roles[roleId])) <==> Perform(SetRole(u, roleId), t).HasActiveOwner()
  {
    var t' := Perform(SetRole(u, roleId), t);
    forall v | v in t.members
      ensures t'.IsActiveOwner(v) <==>
              if v == u then IsOwnerRole(t.roles[roleId])
              else StaysOwner(OwnerRow(t, v), RoleChange(u, t.roles[roleId]))
    {
    }
    if IsOwnerRole(t.roles[roleId]) {
      assert t'.IsActiveOwner(u);
      if IsOwnerRole(t.CapabilitiesOf(u)) {
        assert StaysOwner(OwnerRow(t, u), RoleChange(u, t.roles[roleId]));
      }
    }
  }

  lemma OwnerLeftAfterRemoval(t: Tables, u: UserId, at: int, actor: UserId)
    requires t.IsActive(u)
    ensures OwnerLeft(t, OwnerChange.Revoke(u)) <==> Perform(SetRevoked(u, at, actor), t).HasActiveOwner()
  {
    var t' := Perform(SetRevoked(u, at, actor), t);
    forall v | v in t.members
      ensures t'.IsActiveOwner(v) <==> StaysOwner(OwnerRow(t, v), OwnerChange.Revoke(u))
    {
    }
  }

  // ── the operations ───────────────────────────────────────────────────────

  /** `now` is the caller's clock, read before the lock is asked for. */
  datatype Operation =
    | UpdateRole(actor: UserId, target: UserId, roleId: RoleId)
    | RevokeMember(actor: UserId, target: UserId)
    | Leave(actor: UserId)
    | Create(actor: UserId, email: Email, roleId: RoleId, hash: Hash, now: int)
    | Reissue(actor: UserId, id: InvId, hash: Hash, now: int)
    | Cancel(actor: UserId, id: InvId, now: int)
    | Accept(actor: UserId, hash: Hash, now: int)

  datatype Error =
    | NotFound
    | OrgAccessDenied
    | RoleInvalid
    | Forbidden
    | LastOwner
    | Conflict
    | InvitationPending
    | InvitationLimitReached
    | NotAcceptable(decision: AcceptDecision)
    | InvitationInvalid
    | InvitationEmailMismatch
    | AlreadyAMember
    | Internal

  datatype Outcome =
    | RoleChanged(fromRole: RoleId, toRole: RoleId)
    | Removed(revokedAt: int, cancelled: set<InvId>)
    | Issued(id: InvId, expiresAt: int)
    | CancelledInvitation(id: InvId)
    | Joined(id: InvId, roleId: RoleId, reactivatedFrom: Option<int>)
    | Refused(error: Error)

  function AcceptorOf(t: Tables, u: UserId): Option<AcceptorMembership> {
    if u in t.members then Some(AcceptorMembership(t.members[u].status, t.members[u].revokedAt)) else None
  }

  function NewInvitation(t: Tables, actor: UserId, email: Email, roleId: RoleId, hash: Hash, now: int): Invitation {
    Invitation(email, roleId, Pending, hash, now, ExpiryFrom(now, TtlHours(t.RoleCapabilities(roleId))),
               actor, None, None, None, None)
  }

  /** Revoking a membership and closing that person's pending invitations is one change. */
  function Remove(env: Env, t: Tables, u: UserId, actor: UserId, at: int): (Tables, Outcome) {
    var t' := Perform(SetRevoked(u, at, actor), t);
    if !t'.HasActiveOwner() then (t, Refused(LastOwner))
    else
      var ids := t.PendingIds(env.EmailOf(u));
      (Perform(CancelPending(ids, at), t'), Removed(at, ids))
  }

  function ApplyUpdateRole(t: Tables, op: Operation): (Tables, Outcome)
    requires op.UpdateRole?
  {
    if !t.IsActive(op.target) then (t, Refused(NotFound))
    else if !t.IsActive(op.actor) then (t, Refused(OrgAccessDenied))
    else if op.roleId !in t.roles then (t, Refused(RoleInvalid))
    else if !CanAssignRole(t.CapabilitiesOf(op.actor), IsOwnerRole(t.CapabilitiesOf(op.target)),
                           IsOwnerRole(t.roles[op.roleId]))
    then (t, Refused(Forbidden))
    else
      var t' := Perform(SetRole(op.target, op.roleId), t);
      if !t'.HasActiveOwner() then (t, Refused(LastOwner))
      else (t', RoleChanged(t.members[op.target].roleId, op.roleId))
  }

  function ApplyRevoke(env: Env, t: Tables, op: Operation, at: int): (Tables, Outcome)
    requires op.RevokeMember?
  {
    if !t.IsActive(op.target) then (t, Refused(NotFound))
    else if !t.IsActive(op.actor) then (t, Refused(OrgAccessDenied))
    else if !CanAssignRole(t.CapabilitiesOf(op.actor), IsOwnerRole(t.CapabilitiesOf(op.target)), false)
    then (t, Refused(Forbidden))
    else Remove(env, t, op.target, op.actor, at)
  }

  function ApplyLeave(env: Env, t: Tables, op: Operation, at: int): (Tables, Outcome)
    requires op.Leave?
  {
    if !t.IsActive(op.actor) then (t, Refused(OrgAccessDenied))
    else Remove(env, t, op.actor, op.actor, at)
  }

  function ApplyCreate(env: Env, t: Tables, op: Operation): (Tables, Outcome)
    requires op.Create?
  {
    if op.roleId !in t.roles then (t, Refused(RoleInvalid))
    else if !t.IsActive(op.actor) then (t, Refused(OrgAccessDenied))
    else if !CanAssignRole(t.CapabilitiesOf(op.actor), false, IsOwnerRole(t.roles[op.roleId]))
    then (t, Refused(Forbidden))
    else if t.EmailIsMember(env, op.email) then (t, Refused(AlreadyAMember))
    else if t.PendingIds(Some(op.email)) != {} then (t, Refused(InvitationPending))
    else if |t.LiveIds(op.now)| >= env.pendingCap then (t, Refused(InvitationLimitReached))
    else
      var row := NewInvitation(t, op.actor, op.email, op.roleId, op.hash, op.now);
      (Perform(Insert(row), t), Issued(|t.invitations|, row.expiresAt))
  }

  function ApplyReissue(t: Tables, op: Operation): (Tables, Outcome)
    requires op.Reissue?
  {
    if op.id >= |t.invitations| then (t, Refused(NotFound))
    else
      var row := t.invitations[op.id];
      if !row.status.Pending? then (t, Refused(Conflict))
      else if ResolveStatus(Pending, row.expiresAt, op.now).Expired? then (t, Refused(NotAcceptable(IsExpired)))
      else if !t.IsActive(op.actor) then (t, Refused(OrgAccessDenied))
      else if !CanAssignRole(t.CapabilitiesOf(op.actor), false, IsOwnerRole(t.RoleCapabilities(row.roleId)))
      then (t, Refused(Forbidden))
      else
        var expiresAt := ExpiryFrom(op.now, TtlHours(t.RoleCapabilities(row.roleId)));
        (Perform(Rotate(op.id, op.hash, op.now, expiresAt), t), Issued(op.id, expiresAt))
  }

  function ApplyCancel(t: Tables, op: Operation): (Tables, Outcome)
    requires op.Cancel?
  {
    if op.id >= |t.invitations| then (t, Refused(NotFound))
    else if !t.invitations[op.id].status.Pending? then (t, Refused(Conflict))
    else (Perform(CancelPending({op.id}, op.now), t), CancelledInvitation(op.id))
  }

  function ApplyAccept(env: Env, t: Tables, op: Operation): (Tables, Outcome)
    requires op.Accept?
  {
    if t.Lookup(op.hash).None? then (t, Refused(InvitationInvalid))
    else if op.actor !in env.users then (t, Refused(Internal))
    else
      var i := t.Lookup(op.hash).value;
      var row := t.invitations[i];
      var decision := CanAccept(row.status, row.expiresAt, row.tokenIssuedAt, AcceptorOf(t, op.actor),
                                row.roleId in t.roles, op.now);
      if decision in {IsExpired, IsCancelled, AlreadyAccepted} then (t, Refused(NotAcceptable(decision)))
      else if env.users[op.actor].email != row.email then (t, Refused(InvitationEmailMismatch))
      else if decision in {RoleUnavailable, Superseded} then (t, Refused(NotAcceptable(decision)))
      else if decision.AlreadyMember? then
        (Perform(CancelPending({i}, op.now), t), Refused(AlreadyAMember))
      else
        var from := if op.actor in t.members && t.members[op.actor].status.Revoked?
                    then t.members[op.actor].revokedAt else None;
        var t' := Perform(PutActive(op.actor, row.roleId, op.now), t);
        (Perform(MarkAccepted(i, op.actor, op.now, env.users[op.actor].createdAt), t'), Joined(i, row.roleId, from))
  }

  /** What `op` does to the tables, and its result, when nothing runs beside it. */
  function Apply(env: Env, op: Operation, at: int, t: Tables): (Tables, Outcome) {
    match op
    case UpdateRole(_, _, _) => ApplyUpdateRole(t, op)
    case RevokeMember(_, _) => ApplyRevoke(env, t, op, at)
    case Leave(_) => ApplyLeave(env, t, op, at)
    case Create(_, _, _, _, _) => ApplyCreate(env, t, op)
    case Reissue(_, _, _, _) => ApplyReissue(t, op)
    case Cancel(_, _, _) => ApplyCancel(t, op)
    case Accept(_, _, _) => ApplyAccept(env, t, op)
  }
}
