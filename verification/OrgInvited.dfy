/**
 * An invitation works for the person it is for, whatever the organization does meanwhile, until it is
 * used, replaced or cancelled, or its time is up.
 */
module OrgInvited {
  import opened Wrappers
  import opened InvitationPolicy
  import opened OwnerInvariant
  import opened OrgTables
  import opened OrgRuns
  import opened OrgOutcomes

  /** Row `i` is a pending invitation to `u`, its link leads to it, and `u` may come in by it. */
  ghost predicate Offered(env: Env, t: Tables, i: InvId, u: UserId) {
    && Invites(env, t, i, u)
    && LeadsTo(t, t.invitations[i].hash, i)
    && t.invitations[i].roleId in t.roles
    && ComesIn(t, u, t.invitations[i])
  }

  /** The operation uses, replaces or cancels the row, or gives its link to another row. */
  predicate Disturbs(op: Operation, i: InvId, hash: Hash) {
    match op
    case Reissue(_, id, h, _) => id == i || h == hash
    case Cancel(_, id, _) => id == i
    case Accept(_, h, _) => h == hash
    case _ => false
  }

  lemma RemovalKeepsOffer(env: Env, t: Tables, v: UserId, actor: UserId, at: int, i: InvId, u: UserId)
    requires PendingDiscipline(env, t) && Offered(env, t, i, u) && Works(t, v)
    ensures var t' := Remove(env, t, v, actor, at).0;
            Offered(env, t', i, u) && t'.invitations[i] == t.invitations[i]
  {
    RemoveOutcomes(env, t, v, actor, at);
    assert t.IsActive(v) && !t.PendingFor(i, env.EmailOf(v));
    assert !Invites(env, t, i, v);
    var t' := Remove(env, t, v, actor, at).0;
    assert forall k :: 0 <= k < |t.invitations| ==> t'.invitations[k].hash == t.invitations[k].hash;
  }

  lemma OtherAcceptKeepsOffer(env: Env, t: Tables, op: Operation, i: InvId, u: UserId)
    requires PendingDiscipline(env, t) && Offered(env, t, i, u)
    requires op.Accept? && op.hash != t.invitations[i].hash
    ensures var t' := ApplyAccept(env, t, op).0; Offered(env, t', i, u) && t'.invitations[i] == t.invitations[i]
  {
    AcceptOfNothing(env, t, op);
    if t.Lookup(op.hash).Some? {
      var j := FirstWith(t, op.hash, |t.invitations|);
      AcceptOutcomes(env, t, op, j);
      AcceptWrites(env, t, op, j);
      assert j != i;
      assert !(j < i && t.invitations[j].status.Pending? && t.invitations[j].email == t.invitations[i].email);
      assert !(i < j && t.invitations[j].status.Pending? && t.invitations[j].email == t.invitations[i].email);
      var t' := ApplyAccept(env, t, op).0;
      assert forall k :: 0 <= k < |t.invitations| ==> t'.invitations[k].hash == t.invitations[k].hash;
    }
  }

  lemma FirstWith(t: Tables, hash: Hash, n: nat) returns (j: InvId)
    requires n <= |t.invitations| && exists k :: 0 <= k < n && t.invitations[k].hash == hash
    ensures LeadsTo(t, hash, j)
  {
    if k :| 0 <= k < n - 1 && t.invitations[k].hash == hash {
      j := FirstWith(t, hash, n - 1);
    } else {
      j := n - 1;
    }
  }

  lemma StepKeepsOffer(env: Env, op: Operation, at: int, t: Tables, i: InvId, u: UserId)
    requires PendingDiscipline(env, t) && Offered(env, t, i, u) && !Disturbs(op, i, t.invitations[i].hash)
    ensures var t' := Apply(env, op, at, t).0; Offered(env, t', i, u) && t'.invitations[i] == t.invitations[i]
  {
    match op
    case UpdateRole(_, _, _) => UpdateRoleOutcomes(t, op);
    case RevokeMember(actor, target) =>
      RevokeOutcomes(env, t, op, at);
      if Works(t, target) { RemovalKeepsOffer(env, t, target, actor, at, i, u); }
    case Leave(actor) =>
      LeaveOutcomes(env, t, op, at);
      if Works(t, actor) { RemovalKeepsOffer(env, t, actor, actor, at, i, u); }
    case Create(_, _, _, _, _) => CreateOutcomes(env, t, op);
    case Reissue(_, _, _, _) => ReissueOutcomes(t, op);
    case Cancel(_, _, _) => CancelOutcomes(t, op);
    case Accept(_, _, _) => OtherAcceptKeepsOffer(env, t, op, i, u);
  }

  lemma {:induction false} OfferLasts(env: Env, t: Tables, reqs: seq<Request>, i: InvId, u: UserId)
    requires PendingDiscipline(env, t) && Offered(env, t, i, u)
    requires forall req :: req in reqs ==> !Disturbs(req.op, i, t.invitations[i].hash)
    ensures PendingDiscipline(env, After(env, t, reqs))
    ensures Offered(env, After(env, t, reqs), i, u) && After(env, t, reqs).invitations[i] == t.invitations[i]
  {
    if reqs != [] {
      assert forall req :: req in Front(reqs) ==> req in reqs;
      OfferLasts(env, t, Front(reqs), i, u);
      StepKeepsPending(env, Last(reqs).op, Last(reqs).at, After(env, t, Front(reqs)));
      StepKeepsOffer(env, Last(reqs).op, Last(reqs).at, After(env, t, Front(reqs)), i, u);
    }
  }

  lemma CreateOffers(env: Env, t: Tables, op: Operation, u: UserId)
    requires op.Create? && ApplyCreate(env, t, op).1.Issued?
    requires u in env.users && env.users[u].email == op.email
    requires forall i :: 0 <= i < |t.invitations| ==> t.invitations[i].hash != op.hash
    requires u in t.members && t.members[u].status == Revoked ==>
               t.members[u].revokedAt.Some? && t.members[u].revokedAt.value < op.now
    requires u in t.members ==> t.members[u].status != Invited
    ensures Offered(env, ApplyCreate(env, t, op).0, |t.invitations|, u)
  {
    var email := op.email;
    CreateOutcomes(env, t, op);
    assert u in t.members && Works(t, u) ==> MemberHas(env, t, email);
  }

  /**
   * Whoever is invited, a newcomer or somebody removed before, can come in by that link until it dies, with
   * the role of the invitation, whatever operations come between as long as none disturbs the invitation.
   */
  lemma InvitedCanJoin(env: Env, t: Tables, create: Request, reqs: seq<Request>, u: UserId, now: int, at: int)
    requires PendingDiscipline(env, t)
    requires create.op.Create? && ApplyCreate(env, t, create.op).1.Issued?
    requires u in env.users && env.users[u].email == create.op.email
    requires forall i :: 0 <= i < |t.invitations| ==> t.invitations[i].hash != create.op.hash
    requires u in t.members && t.members[u].status == Revoked ==>
               t.members[u].revokedAt.Some? && t.members[u].revokedAt.value < create.op.now
    requires u in t.members ==> t.members[u].status != Invited
    requires forall req :: req in reqs ==> !Disturbs(req.op, |t.invitations|, create.op.hash)
    requires now < LinkEnd(t, create.op.roleId, create.op.now)
    ensures var before := After(env, Apply(env, create.op, create.at, t).0, reqs);
            var (after, out) := Apply(env, Accept(u, create.op.hash, now), at, before);
            && out.Joined? && out.id == |t.invitations| && out.roleId == create.op.roleId
            && Works(after, u) && after.members[u].roleId == create.op.roleId
  {
    var offered := Apply(env, create.op, create.at, t).0;
    CreateOffers(env, t, create.op, u);
    CreateOutcomes(env, t, create.op);
    StepKeepsPending(env, create.op, create.at, t);
    OfferLasts(env, offered, reqs, |t.invitations|, u);
    var before, op := After(env, offered, reqs), Accept(u, create.op.hash, now);
    AcceptOutcomes(env, before, op, |t.invitations|);
    AcceptWrites(env, before, op, |t.invitations|);
  }
}
