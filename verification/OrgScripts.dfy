/**
 * The seven operations statement by statement. Every SQL statement sees its own snapshot
 * of the committed rows, with the transaction's own updates on top; what to do next is
 * decided from the snapshots taken so far.
 */
module OrgScripts {
  import opened Wrappers
  import opened OrgAuthz
  import opened InvitationPolicy
  import opened OwnerInvariant
  import opened OrgTables
  import opened OrgRuns

  datatype Action =
    | Read
    | Write(write: OrgTables.Write)
    | Finish(commit: bool, outcome: Outcome)

  /** Committed rows as the transaction sees them through its own updates. */
  function View(t: Tables, writes: seq<OrgTables.Write>): Tables {
    if writes == [] then t else Perform(Last(writes), View(t, Front(writes)))
  }

  function Refuse(e: Error): Action {
    Finish(false, Refused(e))
  }

  function NextUpdateRole(op: Operation, h: seq<Tables>): Action
    requires op.UpdateRole?
  {
    match |h|
    case 0 => Read // the target's membership
    case 1 => if !h[0].IsActive(op.target) then Refuse(NotFound) else Read // the actor's membership
    case 2 => if !h[1].IsActive(op.actor) then Refuse(OrgAccessDenied) else Read // the new role
    case 3 =>
      if op.roleId !in h[2].roles then Refuse(RoleInvalid)
      else if !CanAssignRole(h[1].CapabilitiesOf(op.actor), IsOwnerRole(h[0].CapabilitiesOf(op.target)),
                             IsOwnerRole(h[2].roles[op.roleId]))
      then Refuse(Forbidden)
      else Read // the Owner rows
    case 4 =>
      if op.roleId !in h[2].roles || !OwnerLeft(h[3], RoleChange(op.target, h[2].roles[op.roleId]))
      then Refuse(LastOwner)
      else Write(SetRole(op.target, op.roleId))
    case _ =>
      if op.target !in h[0].members then Refuse(Internal)
      else Finish(true, RoleChanged(h[0].members[op.target].roleId, op.roleId))
  }

  /** The Owner check and the two writes of a removal, from statement `k` on. */
  function NextRemove(env: Env, u: UserId, actor: UserId, at: int, h: seq<Tables>, k: nat): Action
    requires k <= |h|
  {
    match |h| - k
    case 0 => Read // the Owner rows
    case 1 => if !OwnerLeft(h[k], OwnerChange.Revoke(u)) then Refuse(LastOwner) else Write(SetRevoked(u, at, actor))
    case 2 => Read // that person's pending invitations
    case 3 =>
      var ids := h[k + 2].PendingIds(env.EmailOf(u));
      if ids == {} then Finish(true, Removed(at, {})) else Write(CancelPending(ids, at))
    case _ => Finish(true, Removed(at, h[k + 2].PendingIds(env.EmailOf(u))))
  }

  function NextRevoke(env: Env, op: Operation, at: int, h: seq<Tables>): Action
    requires op.RevokeMember?
  {
    match |h|
    case 0 => Read // the target's membership
    case 1 => if !h[0].IsActive(op.target) then Refuse(NotFound) else Read // the actor's membership
    case _ =>
      if !h[1].IsActive(op.actor) then Refuse(OrgAccessDenied)
      else if !CanAssignRole(h[1].CapabilitiesOf(op.actor), IsOwnerRole(h[0].CapabilitiesOf(op.target)), false)
      then Refuse(Forbidden)
      else NextRemove(env, op.target, op.actor, at, h, 2)
  }

  function NextLeave(env: Env, op: Operation, at: int, h: seq<Tables>): Action
    requires op.Leave?
  {
    match |h|
    case 0 => Read // the caller's own membership
    case _ =>
      if !h[0].IsActive(op.actor) then Refuse(OrgAccessDenied)
      else NextRemove(env, op.actor, op.actor, at, h, 1)
  }

  function NextCreate(env: Env, op: Operation, h: seq<Tables>): Action
    requires op.Create?
  {
    match |h|
    case 0 => Read // the role
    case 1 => if op.roleId !in h[0].roles then Refuse(RoleInvalid) else Read // the actor's membership
    case 2 =>
      if !h[1].IsActive(op.actor) then Refuse(OrgAccessDenied)
      else if !CanAssignRole(h[1].CapabilitiesOf(op.actor), false, IsOwnerRole(h[0].RoleCapabilities(op.roleId)))
      then Refuse(Forbidden)
      else Read // a member with this e-mail
    case 3 => if h[2].EmailIsMember(env, op.email) then Refuse(AlreadyAMember) else Read // a pending invitation
    case 4 => if h[3].PendingIds(Some(op.email)) != {} then Refuse(InvitationPending) else Read // the live count
    case 5 =>
      if |h[4].LiveIds(op.now)| >= env.pendingCap then Refuse(InvitationLimitReached)
      else Write(Insert(NewInvitation(h[0], op.actor, op.email, op.roleId, op.hash, op.now)))
    case _ =>
      if h[5].invitations == [] then Refuse(Internal)
      else Finish(true, Issued(|h[5].invitations| - 1, Last(h[5].invitations).expiresAt))
  }

  function NextReissue(op: Operation, h: seq<Tables>): Action
    requires op.Reissue?
  {
    if |h| == 0 then Read // the invitation and its role
    else if op.id >= |h[0].invitations| then Refuse(NotFound)
    else
      var row := h[0].invitations[op.id];
      if !row.status.Pending? then Refuse(Conflict)
      else if ResolveStatus(Pending, row.expiresAt, op.now).Expired? then Refuse(NotAcceptable(IsExpired))
      else if |h| == 1 then Read // the actor's membership
      else if !h[1].IsActive(op.actor) then Refuse(OrgAccessDenied)
      else if !CanAssignRole(h[1].CapabilitiesOf(op.actor), false, IsOwnerRole(h[0].RoleCapabilities(row.roleId)))
      then Refuse(Forbidden)
      else
        var expiresAt := ExpiryFrom(op.now, TtlHours(h[0].RoleCapabilities(row.roleId)));
        if |h| == 2 then Write(Rotate(op.id, op.hash, op.now, expiresAt)) else Finish(true, Issued(op.id, expiresAt))
  }

  function NextCancel(op: Operation, h: seq<Tables>): Action
    requires op.Cancel?
  {
    if |h| == 0 then Read // the invitation
    else if op.id >= |h[0].invitations| then Refuse(NotFound)
    else if !h[0].invitations[op.id].status.Pending? then Refuse(Conflict)
    else if |h| == 1 then Write(CancelPending({op.id}, op.now))
    else Finish(true, CancelledInvitation(op.id))
  }

  function NextAccept(env: Env, op: Operation, h: seq<Tables>): Action
    requires op.Accept?
  {
    if |h| == 0 then Read // the invitation, by token hash
    else if h[0].Lookup(op.hash).None? then Refuse(InvitationInvalid)
    else if op.actor !in env.users then Refuse(Internal)
    else if |h| <= 2 then Read // its role, then the caller's membership
    else
      var i := h[0].Lookup(op.hash).value;
      var row := h[0].invitations[i];
      var decision := CanAccept(row.status, row.expiresAt, row.tokenIssuedAt, AcceptorOf(h[2], op.actor),
                                row.roleId in h[1].roles, op.now);
      if decision in {IsExpired, IsCancelled, AlreadyAccepted} then Refuse(NotAcceptable(decision))
      else if env.users[op.actor].email != row.email then Refuse(InvitationEmailMismatch)
      else if decision in {RoleUnavailable, Superseded} then Refuse(NotAcceptable(decision))
      else if decision.AlreadyMember? then
        // This refusal commits: it closes the invitation.
        if |h| == 3 then Write(CancelPending({i}, op.now)) else Finish(true, Refused(AlreadyAMember))
      else
        match |h|
        case 3 => Write(PutActive(op.actor, row.roleId, op.now))
        case 4 => Write(MarkAccepted(i, op.actor, op.now, env.users[op.actor].createdAt))
        case 5 => Read // the organization, for the response
        case _ =>
          var from := if op.actor in h[2].members && h[2].members[op.actor].status.Revoked?
                      then h[2].members[op.actor].revokedAt else None;
          Finish(true, Joined(i, row.roleId, from))
  }

  /** The next statement of `op`, or its end, after the snapshots in `h`. */
  function Next(env: Env, op: Operation, at: int, h: seq<Tables>): Action {
    match op
    case UpdateRole(_, _, _) => NextUpdateRole(op, h)
    case RevokeMember(_, _) => NextRevoke(env, op, at, h)
    case Leave(_) => NextLeave(env, op, at, h)
    case Create(_, _, _, _, _) => NextCreate(env, op, h)
    case Reissue(_, _, _, _) => NextReissue(op, h)
    case Cancel(_, _, _) => NextCancel(op, h)
    case Accept(_, _, _) => NextAccept(env, op, h)
  }

  const MAX_STATEMENTS := 6

  lemma ScriptsAreShort(env: Env, op: Operation, at: int, h: seq<Tables>)
    requires |h| >= MAX_STATEMENTS
    ensures Next(env, op, at, h).Finish?
  {
  }

  /** Whether to read on is decided by the rows read so far, not by the clock. */
  lemma ReadsIgnoreClock(env: Env, op: Operation, at: int, at': int, h: seq<Tables>)
    ensures Next(env, op, at, h).Read? ==> Next(env, op, at', h).Read?
  {
  }

  /** The rest of a transaction over committed rows `t` that nobody else changes. */
  function RunFrom(env: Env, op: Operation, at: int, t: Tables, h: seq<Tables>, writes: seq<OrgTables.Write>)
    : (Tables, Outcome)
    decreases if |h| < MAX_STATEMENTS then MAX_STATEMENTS - |h| else 0
  {
    match Next(env, op, at, h)
    case Finish(commit, outcome) => (if commit then View(t, writes) else t, outcome)
    case Read =>
      assert |h| < MAX_STATEMENTS by { if |h| >= MAX_STATEMENTS { ScriptsAreShort(env, op, at, h); } }
      RunFrom(env, op, at, t, h + [View(t, writes)], writes)
    case Write(w) =>
      assert |h| < MAX_STATEMENTS by { if |h| >= MAX_STATEMENTS { ScriptsAreShort(env, op, at, h); } }
      RunFrom(env, op, at, t, h + [View(t, writes + [w])], writes + [w])
  }

  // ── run alone, a script does what `Apply` says ───────────────────────────

  /** `n` snapshots of rows that did not change. */
  function Same(t: Tables, n: nat): seq<Tables> {
    seq(n, _ => t)
  }

  lemma ReadsOn(env: Env, op: Operation, at: int, t: Tables, n: nat)
    requires Next(env, op, at, Same(t, n)) == Read
    ensures RunFrom(env, op, at, t, Same(t, n), []) == RunFrom(env, op, at, t, Same(t, n + 1), [])
  {
    assert Same(t, n) + [View(t, [])] == Same(t, n + 1);
  }

  lemma WritesOn(env: Env, op: Operation, at: int, t: Tables, h: seq<Tables>, ws: seq<OrgTables.Write>,
      w: OrgTables.Write)
    requires Next(env, op, at, h) == Write(w)
    ensures RunFrom(env, op, at, t, h, ws) ==
            RunFrom(env, op, at, t, h + [Perform(w, View(t, ws))], ws + [w])
    ensures View(t, ws + [w]) == Perform(w, View(t, ws))
  {
  }

  /** `updateRole` once its rows have been read: the Owner check and the write. */
  lemma RoleChangeRuns(env: Env, op: Operation, at: int, t: Tables)
    requires op.UpdateRole? && Next(env, op, at, Same(t, 3)).Read? && t.IsActive(op.target) && t.IsActive(op.actor)
    ensures RunFrom(env, op, at, t, Same(t, 3), []) == ApplyUpdateRole(t, op)
  {
    ReadsOn(env, op, at, t, 3);
    OwnerLeftAfterRoleChange(t, op.target, op.roleId);
    if Next(env, op, at, Same(t, 4)).Write? {
      WritesOn(env, op, at, t, Same(t, 4), [], SetRole(op.target, op.roleId));
    }
  }

  lemma UpdateRoleRuns(env: Env, op: Operation, at: int, t: Tables)
    requires op.UpdateRole?
    ensures RunFrom(env, op, at, t, [], []) == Apply(env, op, at, t)
  {
    assert Same(t, 0) == [];
    ReadsOn(env, op, at, t, 0);
    if t.IsActive(op.target) {
      ReadsOn(env, op, at, t, 1);
      if t.IsActive(op.actor) {
        ReadsOn(env, op, at, t, 2);
        if Next(env, op, at, Same(t, 3)).Read? {
          RoleChangeRuns(env, op, at, t);
        }
      }
    }
  }

  lemma CancelNothing(t: Tables, at: int)
    ensures Perform(CancelPending({}, at), t) == t
  {
  }

  /** `op` has passed the guards that come before the removal of `u`, on snapshots of `t`. */
  predicate PassesRemovalGuards(t: Tables, op: Operation, u: UserId, k: nat) {
    || (op.RevokeMember? && k == 2 && u == op.target && t.IsActive(u) && t.IsActive(op.actor)
        && CanAssignRole(t.CapabilitiesOf(op.actor), IsOwnerRole(t.CapabilitiesOf(u)), false))
    || (op.Leave? && k == 1 && u == op.actor && t.IsActive(u))
  }

  lemma RemovalIsNext(env: Env, op: Operation, at: int, t: Tables, u: UserId, k: nat, h: seq<Tables>)
    requires PassesRemovalGuards(t, op, u, k) && k <= |h| && h[..k] == Same(t, k)
    ensures Next(env, op, at, h) == NextRemove(env, u, op.actor, at, h, k)
  {
  }

  lemma RemovalWrites(env: Env, op: Operation, at: int, t: Tables, u: UserId, k: nat, h: seq<Tables>, t': Tables)
    requires PassesRemovalGuards(t, op, u, k) && t' == Perform(SetRevoked(u, at, op.actor), t)
    requires h == Same(t, k + 1) + [t']
    ensures RunFrom(env, op, at, t, h, [SetRevoked(u, at, op.actor)]) ==
            (var ids := t.PendingIds(env.EmailOf(u)); (Perform(CancelPending(ids, at), t'), Removed(at, ids)))
  {
    var w := SetRevoked(u, at, op.actor);
    var ids := t'.PendingIds(env.EmailOf(u));
    assert ids == t.PendingIds(env.EmailOf(u));
    assert h[..k] == Same(t, k) && (h + [t'])[..k] == Same(t, k);
    RemovalIsNext(env, op, at, t, u, k, h);
    RemovalIsNext(env, op, at, t, u, k, h + [t']);
    assert View(t, [w]) == t';
    if ids == {} {
      CancelNothing(t', at);
    } else {
      var h' := h + [t'] + [Perform(CancelPending(ids, at), t')];
      WritesOn(env, op, at, t, h + [t'], [w], CancelPending(ids, at));
      assert h'[..k] == Same(t, k);
      RemovalIsNext(env, op, at, t, u, k, h');
    }
  }

  /** The shared tail of `revoke` and `leave`, once their guards have passed. */
  lemma RemoveRuns(env: Env, op: Operation, at: int, t: Tables, u: UserId, k: nat)
    requires PassesRemovalGuards(t, op, u, k)
    ensures RunFrom(env, op, at, t, Same(t, k), []) == Remove(env, t, u, op.actor, at)
  {
    RemovalIsNext(env, op, at, t, u, k, Same(t, k));
    ReadsOn(env, op, at, t, k);
    RemovalIsNext(env, op, at, t, u, k, Same(t, k + 1)) by { assert Same(t, k + 1)[..k] == Same(t, k); }
    OwnerLeftAfterRemoval(t, u, at, op.actor);
    if OwnerLeft(t, OwnerChange.Revoke(u)) {
      var w := SetRevoked(u, at, op.actor);
      WritesOn(env, op, at, t, Same(t, k + 1), [], w);
      assert [] + [w] == [w];
      RemovalWrites(env, op, at, t, u, k, Same(t, k + 1) + [Perform(w, t)], Perform(w, t));
    }
  }

  lemma RevokeRuns(env: Env, op: Operation, at: int, t: Tables)
    requires op.RevokeMember?
    ensures RunFrom(env, op, at, t, [], []) == Apply(env, op, at, t)
  {
    assert Same(t, 0) == [];
    ReadsOn(env, op, at, t, 0);
    if t.IsActive(op.target) {
      ReadsOn(env, op, at, t, 1);
      if PassesRemovalGuards(t, op, op.target, 2) {
        RemoveRuns(env, op, at, t, op.target, 2);
      }
    }
  }

  lemma LeaveRuns(env: Env, op: Operation, at: int, t: Tables)
    requires op.Leave?
    ensures RunFrom(env, op, at, t, [], []) == Apply(env, op, at, t)
  {
    assert Same(t, 0) == [];
    ReadsOn(env, op, at, t, 0);
    if t.IsActive(op.actor) {
      RemoveRuns(env, op, at, t, op.actor, 1);
    }
  }

  /** `create` once its role and its actor have been accepted: the three checks and the insertion. */
  lemma CreateChecksRun(env: Env, op: Operation, at: int, t: Tables)
    requires op.Create? && Next(env, op, at, Same(t, 2)).Read?
    requires op.roleId in t.roles && t.IsActive(op.actor)
    ensures RunFrom(env, op, at, t, Same(t, 2), []) == ApplyCreate(env, t, op)
  {
    ReadsOn(env, op, at, t, 2);
    if Next(env, op, at, Same(t, 3)).Read? {
      ReadsOn(env, op, at, t, 3);
      if Next(env, op, at, Same(t, 4)).Read? {
        ReadsOn(env, op, at, t, 4);
        if Next(env, op, at, Same(t, 5)).Write? {
          WritesOn(env, op, at, t, Same(t, 5), [], Next(env, op, at, Same(t, 5)).write);
        }
      }
    }
  }

  lemma CreateRuns(env: Env, op: Operation, at: int, t: Tables)
    requires op.Create?
    ensures RunFrom(env, op, at, t, [], []) == Apply(env, op, at, t)
  {
    assert Same(t, 0) == [];
    ReadsOn(env, op, at, t, 0);
    if op.roleId in t.roles {
      ReadsOn(env, op, at, t, 1);
      if Next(env, op, at, Same(t, 2)).Read? {
        CreateChecksRun(env, op, at, t);
      }
    }
  }

  /** `reissueLink` once the invitation and its actor have been accepted: the update and the answer. */
  lemma RotationRuns(env: Env, op: Operation, at: int, t: Tables)
    requires op.Reissue? && Next(env, op, at, Same(t, 2)).Write?
    ensures RunFrom(env, op, at, t, Same(t, 2), []) == ApplyReissue(t, op)
  {
    var w := Next(env, op, at, Same(t, 2)).write;
    WritesOn(env, op, at, t, Same(t, 2), [], w);
    var h := Same(t, 2) + [Perform(w, t)];
    assert h[0] == t && h[1] == t && [] + [w] == [w] && View(t, []) == t;
    assert Next(env, op, at, h) == Finish(true, Issued(op.id, w.expiresAt));
  }

  lemma ReissueRuns(env: Env, op: Operation, at: int, t: Tables)
    requires op.Reissue?
    ensures RunFrom(env, op, at, t, [], []) == Apply(env, op, at, t)
  {
    assert Same(t, 0) == [];
    ReadsOn(env, op, at, t, 0);
    if Next(env, op, at, Same(t, 1)).Read? {
      ReadsOn(env, op, at, t, 1);
      if Next(env, op, at, Same(t, 2)).Write? {
        RotationRuns(env, op, at, t);
      }
    }
  }

  lemma CancelRuns(env: Env, op: Operation, at: int, t: Tables)
    requires op.Cancel?
    ensures RunFrom(env, op, at, t, [], []) == Apply(env, op, at, t)
  {
  }

  /** The tail of a successful `accept`: close the invitation, read the organization, answer. */
  lemma JoinRuns(env: Env, op: Operation, at: int, t: Tables, h: seq<Tables>, w: OrgTables.Write)
    requires op.Accept? && op.actor in env.users && t.Lookup(op.hash).Some?
    requires w.PutActive? && Next(env, op, at, Same(t, 3)) == Write(w) && h == Same(t, 3) + [Perform(w, t)]
    ensures RunFrom(env, op, at, t, h, [w]) == Apply(env, op, at, t)
  {
    var i := t.Lookup(op.hash).value;
    var w' := MarkAccepted(i, op.actor, op.now, env.users[op.actor].createdAt);
    assert View(t, [w]) == Perform(w, t);
    WritesOn(env, op, at, t, h, [w], w');
    var h' := h + [Perform(w', Perform(w, t))];
    assert RunFrom(env, op, at, t, h', [w] + [w']) ==
           RunFrom(env, op, at, t, h' + [View(t, [w] + [w'])], [w] + [w']);
  }

  /** `accept` once its rows have been read: refuse, close the invitation, or join. */
  lemma DecisionRuns(env: Env, op: Operation, at: int, t: Tables)
    requires op.Accept? && op.actor in env.users && t.Lookup(op.hash).Some?
    ensures RunFrom(env, op, at, t, Same(t, 3), []) == Apply(env, op, at, t)
  {
    var next := Next(env, op, at, Same(t, 3));
    if next.Write? {
      WritesOn(env, op, at, t, Same(t, 3), [], next.write);
      assert [] + [next.write] == [next.write] && View(t, []) == t;
      if next.write.PutActive? {
        JoinRuns(env, op, at, t, Same(t, 3) + [Perform(next.write, t)], next.write);
      } else {
        CloseRuns(env, op, at, t, next.write);
      }
    }
  }

  /** The one refusal of `accept` that writes. */
  lemma CloseRuns(env: Env, op: Operation, at: int, t: Tables, w: OrgTables.Write)
    requires op.Accept? && op.actor in env.users && t.Lookup(op.hash).Some?
    requires Next(env, op, at, Same(t, 3)) == Write(w) && !w.PutActive?
    ensures RunFrom(env, op, at, t, Same(t, 3) + [Perform(w, t)], [w]) == Apply(env, op, at, t)
  {
    assert View(t, [w]) == Perform(w, t);
  }

  lemma AcceptRuns(env: Env, op: Operation, at: int, t: Tables)
    requires op.Accept?
    ensures RunFrom(env, op, at, t, [], []) == Apply(env, op, at, t)
  {
    assert Same(t, 0) == [];
    ReadsOn(env, op, at, t, 0);
    if t.Lookup(op.hash).Some? && op.actor in env.users {
      ReadsOn(env, op, at, t, 1);
      ReadsOn(env, op, at, t, 2);
      DecisionRuns(env, op, at, t);
    }
  }

  /** A script that runs with the rows to itself has exactly the effect and result of `Apply`. */
  lemma ScriptRuns(env: Env, op: Operation, at: int, t: Tables)
    ensures RunFrom(env, op, at, t, [], []) == Apply(env, op, at, t)
  {
    match op {
      case UpdateRole(_, _, _) => UpdateRoleRuns(env, op, at, t);
      case RevokeMember(_, _) => RevokeRuns(env, op, at, t);
      case Leave(_) => LeaveRuns(env, op, at, t);
      case Create(_, _, _, _, _) => CreateRuns(env, op, at, t);
      case Reissue(_, _, _, _) => ReissueRuns(env, op, at, t);
      case Cancel(_, _, _) => CancelRuns(env, op, at, t);
      case Accept(_, _, _) => AcceptRuns(env, op, at, t);
    }
  }
}
