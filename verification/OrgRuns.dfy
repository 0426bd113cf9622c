/** What every run of whole operations on one organization keeps. */
module OrgRuns {
  import opened Wrappers
  import opened OrgAuthz
  import opened InvitationPolicy
  import opened OwnerInvariant
  import opened OrgTables

  /** An operation and the clock its writes carry, read under the lock. */
  datatype Request = Request(op: Operation, at: int)

  function Last<T>(s: seq<T>): T
    requires s != []
  {
    s[|s| - 1]
  }

  function Front<T>(s: seq<T>): seq<T>
    requires s != []
  {
    s[..|s| - 1]
  }

  /** The tables after running `reqs` one at a time. */
  function After(env: Env, t: Tables, reqs: seq<Request>): Tables {
    if reqs == [] then t
    else Apply(env, Last(reqs).op, Last(reqs).at, After(env, t, Front(reqs))).0
  }

  /** An organization as provisioning leaves it: one Owner, no invitation. */
  predicate NewOrg(t: Tables, founder: UserId) {
    && t.members.Keys == {founder}
    && t.IsActiveOwner(founder)
    && t.invitations == []
  }

  /** Each e-mail has at most one pending invitation; no active member's e-mail has one. */
  ghost predicate PendingDiscipline(env: Env, t: Tables) {
    && (forall i, j :: 0 <= i < j < |t.invitations|
                       && t.invitations[i].status.Pending? && t.invitations[j].status.Pending?
                       ==> t.invitations[i].email != t.invitations[j].email)
    && (forall u, i | u in t.members && 0 <= i < |t.invitations| ::
          t.IsActive(u) ==> !t.PendingFor(i, env.EmailOf(u)))
  }

  lemma RemoveKeepsOwner(env: Env, t: Tables, u: UserId, actor: UserId, at: int)
    requires t.HasActiveOwner()
    ensures Remove(env, t, u, actor, at).0.HasActiveOwner()
  {
  }

  lemma AcceptKeepsOwner(env: Env, t: Tables, op: Operation)
    requires op.Accept? && t.HasActiveOwner()
    ensures ApplyAccept(env, t, op).0.HasActiveOwner()
  {
    var w :| w in t.members && t.IsActiveOwner(w);
    assert ApplyAccept(env, t, op).0.IsActiveOwner(w);
  }

  lemma StepKeepsOwner(env: Env, op: Operation, at: int, t: Tables)
    requires t.HasActiveOwner()
    ensures Apply(env, op, at, t).0.HasActiveOwner()
  {
    match op
    case UpdateRole(_, _, _) =>
    case RevokeMember(actor, target) => RemoveKeepsOwner(env, t, target, actor, at);
    case Leave(actor) => RemoveKeepsOwner(env, t, actor, actor, at);
    case Accept(_, _, _) => AcceptKeepsOwner(env, t, op);
    case _ =>
      var w :| w in t.members && t.IsActiveOwner(w);
      assert Apply(env, op, at, t).0.IsActiveOwner(w);
  }

  /** The organization always has an active member whose role holds `full_access`. */
  lemma {:induction false} OwnerAlways(env: Env, t: Tables, founder: UserId, reqs: seq<Request>)
    requires NewOrg(t, founder)
    ensures After(env, t, reqs).HasActiveOwner()
  {
    if reqs == [] {
      assert t.IsActiveOwner(founder);
    } else {
      OwnerAlways(env, t, founder, Front(reqs));
      StepKeepsOwner(env, Last(reqs).op, Last(reqs).at, After(env, t, Front(reqs)));
    }
  }

  /** A row keeps its e-mail and role, and once closed it never opens again. */
  ghost predicate RowsKept(t: Tables, t': Tables) {
    && |t.invitations| <= |t'.invitations|
    && forall i :: 0 <= i < |t.invitations| ==>
                     && t'.invitations[i].email == t.invitations[i].email
                     && t'.invitations[i].roleId == t.invitations[i].roleId
                     && (t'.invitations[i].status.Pending? ==> t.invitations[i].status.Pending?)
  }

  lemma PerformKeepsRows(w: Write, t: Tables)
    ensures RowsKept(t, Perform(w, t))
    ensures |Perform(w, t).invitations| == |t.invitations| + if w.Insert? then 1 else 0
  {
  }

  /** How long a link for the role may live: a day when it manages members, a week otherwise. */
  function Lifetime(t: Tables, roleId: RoleId): int {
    (if HasCapability(t.RoleCapabilities(roleId), MANAGE_MEMBERS) then 24 else 7 * 24) * HOUR_MS
  }

  predicate IsTimed(t: Tables, row: Invitation) {
    row.expiresAt == row.tokenIssuedAt + Lifetime(t, row.roleId)
  }

  /** Every link lives as long as its role allows, counted from its own issue. */
  ghost predicate LinksAreTimed(t: Tables) {
    forall i :: 0 <= i < |t.invitations| ==> IsTimed(t, t.invitations[i])
  }

  /** `w` is the one update of the invitations that leads from `t` to `t'`. */
  ghost predicate WritesInvitations(op: Operation, t: Tables, t': Tables, out: Outcome, w: Write) {
    && t'.invitations == Perform(w, t).invitations
    && t'.roles == t.roles
    && (w.Insert? <==> op.Create? && out.Issued?)
    && (w.Rotate? ==> op.Reissue? && out.Issued? && w.id == op.id)
    && (w.Insert? ==> IsTimed(t, w.row))
    && (w.Rotate? && w.id < |t.invitations| ==> w.expiresAt == w.at + Lifetime(t, t.invitations[w.id].roleId))
  }

  lemma RemoveWrite(env: Env, t: Tables, op: Operation, u: UserId, actor: UserId, at: int) returns (w: Write)
    requires op.RevokeMember? || op.Leave?
    ensures var (t', out) := Remove(env, t, u, actor, at); WritesInvitations(op, t, t', out, w)
  {
    var out := Remove(env, t, u, actor, at).1;
    w := if out.Removed? then CancelPending(out.cancelled, at) else SetRole(0, 0);
  }

  lemma AcceptWrite(env: Env, t: Tables, op: Operation) returns (w: Write)
    requires op.Accept?
    ensures var (t', out) := ApplyAccept(env, t, op); WritesInvitations(op, t, t', out, w)
  {
    var out := ApplyAccept(env, t, op).1;
    w := if out.Joined? then MarkAccepted(out.id, op.actor, op.now, env.users[op.actor].createdAt)
         else if out.error.AlreadyAMember? then CancelPending({t.Lookup(op.hash).value}, op.now)
         else SetRole(0, 0);
  }

  lemma IssueWrite(env: Env, t: Tables, op: Operation, at: int) returns (w: Write)
    requires op.Create? || op.Reissue? || op.Cancel?
    ensures var (t', out) := Apply(env, op, at, t); WritesInvitations(op, t, t', out, w)
  {
    var out := Apply(env, op, at, t).1;
    w := if out.Refused? then SetRole(0, 0)
         else match op
              case Create(actor, email, roleId, hash, now) => Insert(NewInvitation(t, actor, email, roleId, hash, now))
              case Reissue(_, i, hash, now) => Rotate(i, hash, now, out.expiresAt)
              case Cancel(_, i, now) => CancelPending({i}, now);
  }

  /** At most one update touches the invitations, and only `Create` inserts. */
  lemma InvitationWrite(env: Env, op: Operation, at: int, t: Tables) returns (w: Write)
    ensures var (t', out) := Apply(env, op, at, t); WritesInvitations(op, t, t', out, w)
  {
    match op
    case UpdateRole(_, _, _) => w := SetRole(0, 0);
    case RevokeMember(actor, target) =>
      w := RemoveWrite(env, t, op, target, actor, at);
      if ApplyRevoke(env, t, op, at).0 == t { w := SetRole(0, 0); }
    case Leave(actor) =>
      w := RemoveWrite(env, t, op, actor, actor, at);
      if ApplyLeave(env, t, op, at).0 == t { w := SetRole(0, 0); }
    case Accept(_, _, _) => w := AcceptWrite(env, t, op);
    case _ => w := IssueWrite(env, t, op, at);
  }

  /** Only a successful `Create` adds a row, and it adds one. */
  lemma StepKeepsRows(env: Env, op: Operation, at: int, t: Tables)
    ensures RowsKept(t, Apply(env, op, at, t).0)
    ensures |Apply(env, op, at, t).0.invitations| ==
            |t.invitations| + if op.Create? && Apply(env, op, at, t).1.Issued? then 1 else 0
  {
    var w := InvitationWrite(env, op, at, t);
    PerformKeepsRows(w, t);
  }

  lemma AcceptActivates(env: Env, t: Tables, op: Operation, u: UserId)
    requires op.Accept? && !t.IsActive(u) && ApplyAccept(env, t, op).0.IsActive(u)
    ensures op.actor == u && t.Lookup(op.hash).Some?
    ensures var i := t.Lookup(op.hash).value;
            && t.PendingFor(i, env.EmailOf(u))
            && op.now < t.invitations[i].expiresAt
            && !ApplyAccept(env, t, op).0.invitations[i].status.Pending?
            && ApplyAccept(env, t, op).0.members[u].roleId == t.invitations[i].roleId
            && (u in t.members && t.members[u].status.Revoked? ==>
                  t.members[u].revokedAt.Some? && t.members[u].revokedAt.value < t.invitations[i].tokenIssuedAt)
  {
  }

  lemma OnlyAcceptActivates(env: Env, op: Operation, at: int, t: Tables, u: UserId)
    requires !op.Accept? && !t.IsActive(u)
    ensures !Apply(env, op, at, t).0.IsActive(u)
  {
  }

  /** The only way to become active is to accept an invitation for one's own e-mail. */
  lemma StepActivates(env: Env, op: Operation, at: int, t: Tables, u: UserId)
    requires !t.IsActive(u) && Apply(env, op, at, t).0.IsActive(u)
    ensures op.Accept? && op.actor == u && t.Lookup(op.hash).Some?
    ensures var i := t.Lookup(op.hash).value;
            && t.PendingFor(i, env.EmailOf(u))
            && op.now < t.invitations[i].expiresAt
            && !Apply(env, op, at, t).0.invitations[i].status.Pending?
            && Apply(env, op, at, t).0.members[u].roleId == t.invitations[i].roleId
            && (u in t.members && t.members[u].status.Revoked? ==>
                  t.members[u].revokedAt.Some? && t.members[u].revokedAt.value < t.invitations[i].tokenIssuedAt)
  {
    if op.Accept? {
      AcceptActivates(env, t, op, u);
    } else {
      OnlyAcceptActivates(env, op, at, t, u);
    }
  }

  lemma CreateFindsNothingPending(env: Env, op: Operation, t: Tables, i: InvId)
    requires op.Create? && ApplyCreate(env, t, op).1.Issued?
    ensures !t.PendingFor(i, Some(op.email))
    ensures forall u :: t.IsActive(u) ==> env.EmailOf(u) != Some(op.email)
  {
    assert i in t.PendingIds(Some(op.email)) <==> t.PendingFor(i, Some(op.email));
    forall u | t.IsActive(u)
      ensures env.EmailOf(u) != Some(op.email)
    {
      assert u in t.members;
    }
  }

  lemma StepKeepsPending(env: Env, op: Operation, at: int, t: Tables)
    requires PendingDiscipline(env, t)
    ensures PendingDiscipline(env, Apply(env, op, at, t).0)
  {
    var t' := Apply(env, op, at, t).0;
    var n := |t.invitations|;
    StepKeepsRows(env, op, at, t);
    if |t'.invitations| > n {
      forall i | 0 <= i < n { CreateFindsNothingPending(env, op, t, i); }
      CreateFindsNothingPending(env, op, t, n);
      assert t'.invitations[n].email == op.email && t'.members == t.members;
      forall i | 0 <= i < n && t'.invitations[i].status.Pending?
        ensures t'.invitations[i].email != op.email
      {
        assert !t.PendingFor(i, Some(op.email));
      }
    }
    assert forall i :: 0 <= i < n && t'.invitations[i].status.Pending? ==>
      t.invitations[i].status.Pending? && t'.invitations[i].email == t.invitations[i].email;
    forall u, i | u in t'.members && 0 <= i < |t'.invitations| && t'.IsActive(u)
      ensures !t'.PendingFor(i, env.EmailOf(u))
    {
      if !t.IsActive(u) {
        StepActivates(env, op, at, t, u);
      } else if i < n {
        assert !t.PendingFor(i, env.EmailOf(u));
      }
    }
  }

  lemma {:induction false} PendingAlways(env: Env, t: Tables, founder: UserId, reqs: seq<Request>)
    requires NewOrg(t, founder)
    ensures PendingDiscipline(env, After(env, t, reqs))
  {
    if reqs != [] {
      PendingAlways(env, t, founder, Front(reqs));
      StepKeepsPending(env, Last(reqs).op, Last(reqs).at, After(env, t, Front(reqs)));
    }
  }

  lemma WriteKeepsLinksTimed(op: Operation, t: Tables, t': Tables, out: Outcome, w: Write)
    requires LinksAreTimed(t) && WritesInvitations(op, t, t', out, w)
    ensures LinksAreTimed(t')
  {
    forall i | 0 <= i < |t'.invitations|
      ensures IsTimed(t', t'.invitations[i])
    {
      assert i < |t.invitations| ==> IsTimed(t, t.invitations[i]);
    }
  }

  lemma StepKeepsLinksTimed(env: Env, op: Operation, at: int, t: Tables)
    requires LinksAreTimed(t)
    ensures LinksAreTimed(Apply(env, op, at, t).0)
  {
    var w := InvitationWrite(env, op, at, t);
    WriteKeepsLinksTimed(op, t, Apply(env, op, at, t).0, Apply(env, op, at, t).1, w);
  }

  /** A link for a role that manages members dies within a day of its issue, any other within a week. */
  lemma {:induction false} LinksAlwaysTimed(env: Env, t: Tables, founder: UserId, reqs: seq<Request>)
    requires NewOrg(t, founder)
    ensures LinksAreTimed(After(env, t, reqs))
  {
    if reqs != [] {
      LinksAlwaysTimed(env, t, founder, Front(reqs));
      StepKeepsLinksTimed(env, Last(reqs).op, Last(reqs).at, After(env, t, Front(reqs)));
    }
  }

  // ── all of it, for one step ──────────────────────────────────────────────

  /** From `t` to `t'` the organization keeps what every run keeps. */
  ghost predicate KeepsAll(env: Env, t: Tables, t': Tables) {
    && (t.HasActiveOwner() ==> t'.HasActiveOwner())
    && (PendingDiscipline(env, t) ==> PendingDiscipline(env, t'))
    && (LinksAreTimed(t) ==> LinksAreTimed(t'))
    && RowsKept(t, t')
  }

  lemma StepKeepsAll(env: Env, op: Operation, at: int, t: Tables, t': Tables)
    requires t' == Apply(env, op, at, t).0
    ensures KeepsAll(env, t, t')
  {
    if t.HasActiveOwner() { StepKeepsOwner(env, op, at, t); }
    if PendingDiscipline(env, t) { StepKeepsPending(env, op, at, t); }
    if LinksAreTimed(t) { StepKeepsLinksTimed(env, op, at, t); }
    StepKeepsRows(env, op, at, t);
  }
}
